/** The pigeonhole principle, for the arrays that hold a batch of events. */
module Pigeonhole {

  /** Distinct numbers below `n` are at most `n`. */
  lemma {:induction false} DistinctBelow(fds: seq<nat>, n: nat)
    requires forall i, j :: 0 <= i < j < |fds| ==> fds[i] != fds[j]
    requires forall i :: 0 <= i < |fds| ==> fds[i] < n
    ensures |fds| <= n
  {
    if fds == [] {
    } else if i :| 0 <= i < |fds| && fds[i] == n - 1 {
      var rest := fds[..i] + fds[i + 1..];
      assert forall j :: 0 <= j < |rest| ==> rest[j] == fds[if j < i then j else j + 1];
      DistinctBelow(rest, n - 1);
    } else {
      assert fds[0] < n;
      DistinctBelow(fds, n - 1);
    }
  }
}
