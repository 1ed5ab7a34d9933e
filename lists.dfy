/** Sequences without repetitions: the particle lists are lists of
    distinct objects, which is what lets one particle change while the
    others stay as they were. */
module Lists {

  /** No element occurs twice. */
  ghost predicate Distinct<T>(s: seq<T>)
  {
    |s| <= 1 || (s[0] !in s[1..] && Distinct(s[1..]))
  }

  /** In a list without repetitions, the element at `k` occurs nowhere else. */
  lemma {:induction false} DistinctAt<T>(s: seq<T>, k: nat)
    requires Distinct(s) && k < |s|
    ensures forall m :: 0 <= m < |s| && m != k ==> s[m] != s[k]
  {
    if k == 0 {
      forall m | 0 < m < |s|
        ensures s[m] != s[0]
      {
        assert s[m] == s[1..][m - 1];
      }
    } else {
      DistinctAt(s[1..], k - 1);
      forall m | 0 <= m < |s| && m != k
        ensures s[m] != s[k]
      {
        assert s[k] == s[1..][k - 1];
        if m > 0 {
          assert s[m] == s[1..][m - 1];
        }
      }
    }
  }
}
