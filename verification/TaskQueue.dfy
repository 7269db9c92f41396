/**
 * The ring buffer under the run queue (os/queue.c), proved to be a first-in first-out sequence.
 * Of its QUEUE_SIZE cells only the first NPROC are used.
 */
module TaskQueue {
  import opened Common

  const QUEUE_SIZE: nat := 1024

  // front == tail means none or NPROC entries
  function Entries(d: seq<nat>, front: nat, tail: nat, empty: bool): (s: seq<nat>)
    requires |d| == QUEUE_SIZE && front < NPROC && tail < NPROC && (empty ==> front == tail)
    ensures |s| <= NPROC && (s == [] <==> empty) && (|s| == NPROC <==> !empty && front == tail)
  {
    if empty then [] else if front < tail then d[front..tail] else d[front..NPROC] + d[..tail]
  }

  function After(i: nat): (r: nat)
    requires i < NPROC
    ensures r == if i + 1 == NPROC then 0 else i + 1
  {
    (i + 1) % NPROC
  }

  lemma EntriesPushed(d: seq<nat>, front: nat, tail: nat, empty: bool, x: nat)
    requires |d| == QUEUE_SIZE && front < NPROC && tail < NPROC && (if empty then front == tail else front != tail)
    ensures Entries(d[tail := x], front, After(tail), false) == Entries(d, front, tail, empty) + [x]
  {
    hide After;
    var d' := d[tail := x];
    if tail + 1 == NPROC {
      assert d'[front..NPROC] + d'[..0] == Entries(d, front, tail, empty) + [x];
    } else if front <= tail {
      assert d'[front..tail + 1] == Entries(d, front, tail, empty) + [x];
    } else {
      assert d'[front..NPROC] + d'[..tail + 1] == Entries(d, front, tail, empty) + [x];
    }
  }

  lemma EntriesPopped(d: seq<nat>, front: nat, tail: nat)
    requires |d| == QUEUE_SIZE && front < NPROC && tail < NPROC
    ensures Entries(d, front, tail, false) == [d[front]] + Entries(d, After(front), tail, After(front) == tail)
  {
    hide After;
    if front + 1 == NPROC {
      assert d[front..NPROC] == [d[front]];
      assert d[front..NPROC] + d[..tail] == [d[front]] + d[..tail];
    } else if front < tail {
      assert d[front..tail] == [d[front]] + d[front + 1..tail];
    } else {
      assert d[front..NPROC] + d[..tail] == [d[front]] + (d[front + 1..NPROC] + d[..tail]);
    }
  }

  class Queue {
    const data: array<nat>
    var front: nat
    var tail: nat
    var empty: bool

    ghost predicate Valid()
      reads this
    {
      data.Length == QUEUE_SIZE && front < NPROC && tail < NPROC && (empty ==> front == tail)
    }

    ghost function Contents(): (s: seq<nat>)
      requires Valid()
      reads this, data
      ensures |s| <= NPROC
    {
      Entries(data[..], front, tail, empty)
    }

    // init_queue
    constructor ()
      ensures Valid() && fresh(data) && Contents() == []
    {
      data := new nat[QUEUE_SIZE];
      front, tail, empty := 0, 0, true;
    }

    // push_queue: false for the panic "queue overflow"
    method Push(x: nat) returns (ok: bool)
      requires Valid()
      modifies `tail, `empty, data
      ensures Valid() && (ok <==> |old(Contents())| < NPROC)
      ensures Contents() == if ok then old(Contents()) + [x] else old(Contents())
    {
      if !empty && front == tail {
        return false;
      }
      hide Entries, After;
      ghost var d := data[..];
      EntriesPushed(d, front, tail, empty, x);
      empty := false;
      data[tail] := x;
      assert data[..] == d[tail := x];
      tail := After(tail);
      ok := true;
    }

    // pop_queue
    method Pop() returns (ok: bool, x: nat)
      requires Valid()
      modifies `front, `empty
      ensures Valid() && (ok <==> old(Contents()) != [])
      ensures Contents() == if ok then old(Contents())[1..] else old(Contents())
      ensures ok ==> x == old(Contents())[0]
    {
      if empty {
        return false, 0;
      }
      hide Entries, After;
      EntriesPopped(data[..], front, tail);
      x := data[front];
      front := After(front);
      if front == tail {
        empty := true;
      }
      ok := true;
    }
  }
}
