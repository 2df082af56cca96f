// Optional results, and facts about sequences that several modules share.
module Wrappers {

  datatype Option<+T> = None | Some(value: T) {
    predicate IsFailure() { None? }
    function PropagateFailure<U>(): Option<U> requires None? { None }
    function Extract(): T requires Some? { value }
  }

  ghost predicate NoDup<T>(s: seq<T>) { forall i, j :: 0 <= i < j < |s| ==> s[i] != s[j] }

  /** What a list reader has so far, followed by what it reads next. */
  ghost function Prepend<T, R>(acc: seq<T>, r: Option<(seq<T>, R)>): Option<(seq<T>, R)> {
    if r.None? then None else Some((acc + r.value.0, r.value.1))
  }

  lemma PrependNothing<T, R>(r: Option<(seq<T>, R)>)
    ensures Prepend([], r) == r
  {
    if r.Some? { assert [] + r.value.0 == r.value.0; }
  }

  lemma PrependStep<T, R>(acc: seq<T>, x: T, r: Option<(seq<T>, R)>)
    ensures r.Some? ==> Prepend(acc, Some(([x] + r.value.0, r.value.1))) == Prepend(acc + [x], r)
    ensures r.Some? && r.value.0 == [] ==> Prepend(acc, r) == Some((acc, r.value.1))
  {
    if r.Some? {
      assert acc + [] == acc;
      assert acc + ([x] + r.value.0) == (acc + [x]) + r.value.0;
    }
  }

  lemma Regroup<T>(a: seq<T>, b: seq<T>, c: seq<T>)
    ensures a + b + c == a + (b + c)
  {
  }
}
