/**
 * Small things several components share.
 */
module Common {
  datatype Option<T> = None | Some(value: T)

  const NPROC: nat := 512

  ghost predicate Distinct<T>(s: seq<T>) {
    forall i, j | 0 <= i < j < |s| :: s[i] != s[j]
  }

  // How many units it takes to hold x; ROUNDUP_2N and PGROUNDUP; PGROUNDDOWN
  function CeilDiv(x: nat, unit: nat): (r: nat)
    requires unit > 0
  {
    (x + unit - 1) / unit
  }

  function RoundUpTo(x: nat, unit: nat): (r: nat)
    requires unit > 0
    ensures x <= r < x + unit
  {
    CeilDiv(x, unit) * unit
  }

  function RoundDownTo(x: nat, unit: nat): (r: nat)
    requires unit > 0
    ensures r <= x < r + unit
  {
    x / unit * unit
  }
}
