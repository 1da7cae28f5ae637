/** Ruby values the salon code relies on: nil-able columns, the two exceptions
    the ordering code can raise, and the few core-library operations whose
    behaviour on nil matters here. */
module RubyValues {

  /** A nullable column or a Ruby value that may be nil. */
  datatype Option<T> = None | Some(value: T)

  /** The exceptions the modelled code can raise. */
  datatype RubyError =
    | ComparisonWithNil     // ArgumentError: comparison of Integer with nil failed
    | UndefinedMethodOnNil  // NoMethodError: undefined method for nil

  /** A value, or the exception raised while computing it. */
  datatype Result<T> = Ok(value: T) | Raise(error: RubyError)

  /** `v.to_i` for an already-parsed integer or nil (`nil.to_i` is 0). */
  function ToI(v: Option<int>): (n: int)
    ensures v.None? ==> n == 0
    ensures v.Some? ==> n == v.value
  {
    match v
    case None => 0
    case Some(x) => x
  }

  /** `xs[i]` on a Ruby array: nil past the end. */
  function At(xs: seq<int>, i: nat): (v: Option<int>)
    ensures v.Some? <==> i < |xs|
    ensures i < |xs| ==> v.value == xs[i]
  {
    if i < |xs| then Some(xs[i]) else None
  }

  /** The running step of `Array#max`: `current` is the largest element seen
      so far; each further element is compared with it by `<=>`, which yields
      nil (and so raises) exactly when one side is nil and the other is not. */
  function MaxFrom(rest: seq<Option<int>>, current: Option<int>): (r: Result<Option<int>>)
    ensures r.Raise? <==> exists i :: 0 <= i < |rest| && rest[i].Some? != current.Some?
    ensures r.Raise? ==> r.error == ComparisonWithNil
    ensures r.Ok? && current.None? ==> r.value.None?
    ensures r.Ok? && current.Some? ==>
              && r.value.Some?
              && current.value <= r.value.value
              && (forall i :: 0 <= i < |rest| ==> rest[i].Some? && rest[i].value <= r.value.value)
              && (r.value == current || exists i :: 0 <= i < |rest| && rest[i] == r.value)
    decreases |rest|
  {
    if rest == [] then Ok(current)
    else if rest[0].Some? != current.Some? then Raise(ComparisonWithNil)
    else
      var next := if rest[0].Some? && rest[0].value > current.value then rest[0] else current;
      var r := MaxFrom(rest[1..], next);
      assert forall i :: 1 <= i < |rest| ==> rest[i] == rest[1..][i - 1];
      r
  }

  /** `xs.max`: nil for an empty array or one holding only nils, the largest
      Integer when every element is one, and ArgumentError for a mix. */
  function ArrayMax(xs: seq<Option<int>>): (r: Result<Option<int>>)
    ensures r.Raise? <==> (exists i :: 0 <= i < |xs| && xs[i].Some?) && (exists j :: 0 <= j < |xs| && xs[j].None?)
    ensures r.Raise? ==> r.error == ComparisonWithNil
    ensures r == Ok(None) <==> forall i :: 0 <= i < |xs| ==> xs[i].None?
    ensures r.Ok? && r.value.Some? ==>
              && (forall i :: 0 <= i < |xs| ==> xs[i].Some? && xs[i].value <= r.value.value)
              && (exists i :: 0 <= i < |xs| && xs[i] == r.value)
  {
    if xs == [] then Ok(None)
    else
      var r := MaxFrom(xs[1..], xs[0]);
      assert forall i :: 1 <= i < |xs| ==> xs[i] == xs[1..][i - 1];
      r
  }
}
