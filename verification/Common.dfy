/** What several of the modules share. */
module Common {

  datatype Option<+T> = None | Some(value: T)

  ghost predicate Distinct<T>(s: seq<T>) {
    forall i, j :: 0 <= i < j < |s| ==> s[i] != s[j]
  }

  /** Each element stands in the relation to every later one. */
  ghost predicate Pairwise<T>(s: seq<T>, r: (T, T) -> bool) {
    forall i, j :: 0 <= i < j < |s| ==> r(s[i], s[j])
  }

  lemma PairwiseConcat<T(!new)>(a: seq<T>, b: seq<T>, r: (T, T) -> bool)
    requires Pairwise(a, r) && Pairwise(b, r)
    requires forall x, y :: x in a && y in b ==> r(x, y)
    ensures Pairwise(a + b, r)
  {
    var c := a + b;
    forall i, j | 0 <= i < j < |c| ensures r(c[i], c[j]) {
      if j < |a| {
        assert c[i] == a[i] && c[j] == a[j];
      } else if i < |a| {
        assert c[i] in a && c[j] in b;
      } else {
        assert c[i] == b[i - |a|] && c[j] == b[j - |a|];
      }
    }
  }
}
