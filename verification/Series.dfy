/** Steps of a finite series, for arguments by induction over the steps of a run. */
module Series {

  lemma {:induction false} Persists(holds: seq<bool>, i: nat, n: nat)
    requires i <= n < |holds| && holds[i]
    requires forall k :: i <= k < n && holds[k] ==> holds[k + 1]
    ensures holds[n]
    decreases n
  {
    if i < n {
      Persists(holds, i, n - 1);
      assert holds[n - 1] ==> holds[n - 1 + 1];
    }
  }

  lemma {:induction false} FirstFalse(holds: seq<bool>, i: nat, n: nat) returns (k: nat)
    requires i <= n < |holds| && holds[i]
    requires exists m :: i <= m <= n && !holds[m]
    ensures i <= k < n && holds[k] && !holds[k + 1]
    decreases n - i
  {
    if holds[i + 1] {
      k := FirstFalse(holds, i + 1, n);
    } else {
      k := i;
    }
  }

  lemma {:induction false} Grows(xs: seq<int>, i: nat, n: nat)
    requires i <= n < |xs|
    requires forall k :: i <= k < n ==> xs[k] <= xs[k + 1]
    ensures xs[i] <= xs[n]
    decreases n
  {
    if i < n {
      Grows(xs, i, n - 1);
      assert xs[n - 1] <= xs[n - 1 + 1];
    }
  }

  /** A series that gets from below `c` to `c` or above does so in some step. */
  lemma {:induction false} StepAcross(xs: seq<int>, i: nat, n: nat, c: int) returns (k: nat)
    requires i <= n < |xs| && xs[i] < c <= xs[n]
    ensures i <= k < n && xs[k] < c <= xs[k + 1]
    decreases n
  {
    if c <= xs[n - 1] {
      k := StepAcross(xs, i, n - 1, c);
    } else {
      k := n - 1;
    }
  }
}
