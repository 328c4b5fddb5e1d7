/** Shared vocabulary of the model: optional values, the errors the reader can
    raise, results that carry either a value or such an error, a list
    comprehension that stops at the first exception, and the "subsequence"
    relation used to state that an operation keeps order. */
module Common {

  datatype Option<+T> = None | Some(value: T)

  /** The exceptions of the reader that the model keeps.
      - BadDate: `datetime.strptime` rejected the text (a `ValueError`).
      - NotAString: `datetime.strptime` was handed a list (a `TypeError`).
      - UnknownKey: the label table of the text renderer has no entry for a
        field name (a `KeyError`). */
  datatype Error = BadDate(input: string) | NotAString | UnknownKey(key: string)

  datatype Result<+T> = Ok(value: T) | Err(error: Error)

  /** `a` can be obtained from `b` by deleting elements: same elements, same order. */
  predicate IsSubsequence<T(==)>(a: seq<T>, b: seq<T>)
    decreases |b|
  {
    if a == [] then true
    else if b == [] then false
    else (a[0] == b[0] && IsSubsequence(a[1..], b[1..])) || IsSubsequence(a, b[1..])
  }

  /** Every element of a subsequence is an element of the sequence it was taken from. */
  lemma {:induction false} SubsequenceElements<T>(a: seq<T>, b: seq<T>)
    requires IsSubsequence(a, b)
    ensures forall x :: x in a ==> x in b
    decreases |b|
  {
    if a != [] {
      if a[0] == b[0] && IsSubsequence(a[1..], b[1..]) {
        SubsequenceElements(a[1..], b[1..]);
        assert forall x :: x in a ==> x == a[0] || x in a[1..];
      } else {
        SubsequenceElements(a, b[1..]);
      }
      assert forall x :: x in b[1..] ==> x in b;
    }
  }

  /** A subsequence stays one when both sides gain the same last element. */
  lemma {:induction false} SubsequenceAppend<T>(a: seq<T>, b: seq<T>, x: T)
    requires IsSubsequence(a, b)
    ensures IsSubsequence(a + [x], b + [x])
    decreases |b|
  {
    if a == [] {
      assert a + [x] == [x];
      SubsequenceSingleton(b, x);
    } else {
      assert (a + [x])[0] == a[0] && (a + [x])[1..] == a[1..] + [x];
      assert (b + [x])[0] == b[0] && (b + [x])[1..] == b[1..] + [x];
      if a[0] == b[0] && IsSubsequence(a[1..], b[1..]) {
        SubsequenceAppend(a[1..], b[1..], x);
      } else {
        SubsequenceAppend(a, b[1..], x);
      }
    }
  }

  /** The last element on its own is a subsequence. */
  lemma {:induction false} SubsequenceSingleton<T>(b: seq<T>, x: T)
    ensures IsSubsequence([x], b + [x])
    decreases |b|
  {
    if b != [] {
      assert (b + [x])[1..] == b[1..] + [x];
      SubsequenceSingleton(b[1..], x);
    } else {
      assert ([x] + [])[1..] == [];
    }
  }

  /** A subsequence stays one when the longer side grows at the end. */
  lemma {:induction false} SubsequenceExtend<T>(a: seq<T>, b: seq<T>, c: seq<T>)
    requires IsSubsequence(a, b)
    ensures IsSubsequence(a, b + c)
    decreases |b|
  {
    if a != [] {
      assert (b + c)[0] == b[0] && (b + c)[1..] == b[1..] + c;
      if a[0] == b[0] && IsSubsequence(a[1..], b[1..]) {
        SubsequenceExtend(a[1..], b[1..], c);
      } else {
        SubsequenceExtend(a, b[1..], c);
      }
    }
  }

  /** Appending to a non-empty sequence keeps its first element first, and
      its tail is followed by what is appended. */
  lemma TailAppend<T>(a: seq<T>, b: seq<T>)
    requires a != []
    ensures (a + b)[0] == a[0] && (a + b)[1..] == a[1..] + b
  {
  }

  /** Concatenation is associative. */
  lemma AppendAssociative<T>(a: seq<T>, b: seq<T>, c: seq<T>)
    ensures a + (b + c) == a + b + c
  {
  }

  /** The number of results before the first error; `|rs|` when there is none. */
  function FirstError<T>(rs: seq<Result<T>>): (n: nat)
    ensures n <= |rs|
    ensures forall k :: 0 <= k < n ==> rs[k].Ok?
    ensures n < |rs| ==> rs[n].Err?
    decreases |rs|
  {
    if rs == [] || rs[0].Err? then 0
    else
      var n := FirstError(rs[1..]);
      assert forall k :: 1 <= k < n + 1 ==> rs[k] == rs[1..][k - 1];
      n + 1
  }

  /** All values when every result is one, otherwise the first error. */
  function Collect<T>(rs: seq<Result<T>>): (r: Result<seq<T>>)
    ensures r.Ok? ==> |r.value| == |rs| && forall k :: 0 <= k < |rs| ==> rs[k] == Ok(r.value[k])
    ensures r.Err? ==> FirstError(rs) < |rs| && r.error == rs[FirstError(rs)].error
    decreases |rs|
  {
    if rs == [] then Ok([])
    else match rs[0]
      case Err(e) => Err(e)
      case Ok(first) =>
        assert FirstError(rs) == FirstError(rs[1..]) + 1;
        match Collect(rs[1..])
        case Err(e) =>
          assert rs[FirstError(rs)] == rs[1..][FirstError(rs[1..])];
          Err(e)
        case Ok(rest) =>
          var r := [first] + rest;
          assert forall k :: 1 <= k < |rs| ==> rs[k] == rs[1..][k - 1] && r[k] == rest[k - 1];
          Ok(r)
  }
}
