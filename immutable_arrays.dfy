/** The few `ImmutableArray<T>` operations a route is built from, on Dafny
    sequences: each returns a new sequence or the exception .NET throws. */
module ImmutableArrays {
  import opened Wrappers
  import opened Exceptions

  /** `LastOrDefault()`: the last element, or nothing when the array is empty. */
  function LastOrDefault<T>(s: seq<T>): (r: Option<T>)
    ensures r.None? <==> s == []
    ensures r.Some? ==> r.value == s[|s| - 1]
  {
    if s == [] then None else Some(s[|s| - 1])
  }

  /** `RemoveAt(index)`: the array without the element at `index`. */
  function RemoveAt<T>(s: seq<T>, index: int): (r: Result<seq<T>, Exception>)
    ensures r.Success? <==> 0 <= index < |s|
    ensures r.Failure? ==> r.error == ArgumentOutOfRange
    ensures r.Success? ==> |r.value| == |s| - 1
    ensures r.Success? ==> forall j :: 0 <= j < index ==> r.value[j] == s[j]
    ensures r.Success? ==> forall j :: index <= j < |r.value| ==> r.value[j] == s[j + 1]
  {
    if 0 <= index < |s| then Success(s[..index] + s[index + 1..]) else Failure(ArgumentOutOfRange)
  }

  /** The range `[^count..]`: the last `count` elements. */
  function TakeLast<T>(s: seq<T>, count: int): (r: Result<seq<T>, Exception>)
    ensures r.Success? <==> 0 <= count <= |s|
    ensures r.Failure? ==> r.error == ArgumentOutOfRange
    ensures r.Success? ==> |r.value| == count
    ensures r.Success? ==> forall j :: 0 <= j < count ==> r.value[j] == s[|s| - count + j]
  {
    if 0 <= count <= |s| then Success(s[|s| - count..]) else Failure(ArgumentOutOfRange)
  }

  /** The range `[..^count]`: everything but the last `count` elements. */
  function DropLast<T>(s: seq<T>, count: int): (r: Result<seq<T>, Exception>)
    ensures r.Success? <==> 0 <= count <= |s|
    ensures r.Failure? ==> r.error == ArgumentOutOfRange
    ensures r.Success? ==> |r.value| + count == |s|
    ensures r.Success? ==> forall j :: 0 <= j < |r.value| ==> r.value[j] == s[j]
  {
    if 0 <= count <= |s| then Success(s[..|s| - count]) else Failure(ArgumentOutOfRange)
  }
}
