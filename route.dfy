/** The immutable route value: an ordered sequence of segment instances, an
    optional navigation-data bag and a refresh flag. Every operation returns a
    new route (or the exception it throws) and leaves its argument untouched. */
module Routing {
  import opened Wrappers
  import opened Exceptions
  import opened Segments
  import opened ImmutableArrays

  /** The navigation-data bag (`INavigationData`): deferred values keyed by
      data-segment name. */
  datatype NavigationData = NavigationData(entries: map<string, Deferred>)

  /** `record Route(Segments, Data = null, Refresh = false)`. */
  datatype Route = Route(segments: seq<SegmentInstance>, data: Option<NavigationData>, refresh: bool)

  /** Every data instance is immediately preceded by the name instance of its
      own segment's parent: the shape the two `Add` overloads build. */
  ghost predicate Anchored(s: seq<SegmentInstance>) {
    forall i :: 0 <= i < |s| && s[i].DataInstance? ==>
      0 < i && s[i - 1] == NameInstance(s[i].dataSegment.parentNameSegment)
  }

  /** The names of the data segments among `s`. */
  function DataNames(s: seq<SegmentInstance>): (names: seq<string>)
    ensures |names| <= |s|
    ensures forall i :: 0 <= i < |s| && s[i].DataInstance? ==> s[i].dataSegment.name in names
    ensures forall n :: n in names ==> exists i :: 0 <= i < |s| && s[i].DataInstance? && s[i].dataSegment.name == n
  {
    if s == [] then []
    else
      var rest := DataNames(s[1..]);
      assert forall i :: 1 <= i < |s| ==> s[i] == s[1..][i - 1];
      if s[0].DataInstance? then [s[0].dataSegment.name] + rest else rest
  }

  /** `GoBack()`: one step back, chosen by the kind of the last instance.
      With a data instance last, the code dereferences `Data` to compute a
      reduced bag it then discards, and removes only the element at
      `Length - 2` rather than the last two. That element is the anchor on a
      route built by the two `Add` overloads; repeated steps back then remove
      earlier elements, data instances included, while the data instance
      stays last. */
  function GoBack(r: Route): (res: Result<Route, Exception>)
    // an empty route is returned as it is
    ensures r.segments == [] ==> res == Success(r)
    // a name instance last: exactly that element goes, nothing else changes
    ensures r.segments != [] && r.segments[|r.segments| - 1].NameInstance? ==>
      res.Success? && res.value.segments + [r.segments[|r.segments| - 1]] == r.segments
      && res.value.data == r.data && res.value.refresh == r.refresh
    // a data instance last: fails on a null bag, then on a route of one element
    ensures r.segments != [] && r.segments[|r.segments| - 1].DataInstance? ==>
      (res.Success? <==> r.data.Some? && |r.segments| >= 2)
    ensures r.segments != [] && r.segments[|r.segments| - 1].DataInstance? && r.data.None? ==>
      res == Failure(NullReference)
    ensures r.segments != [] && r.segments[|r.segments| - 1].DataInstance? && r.data.Some? && |r.segments| < 2 ==>
      res == Failure(ArgumentOutOfRange)
    // ... and otherwise only the element before the last goes; the bag is kept
    ensures r.segments != [] && r.segments[|r.segments| - 1].DataInstance? && res.Success? ==>
      var n := |r.segments|;
      res.value.segments == r.segments[..n - 2] + [r.segments[n - 1]]
      && res.value.data == r.data && res.value.refresh == r.refresh
    // a dialog instance last is not supported
    ensures r.segments != [] && r.segments[|r.segments| - 1].DialogInstance? ==>
      res == Failure(NotSupported("Dialog segments must not be last."))
  {
    match LastOrDefault<SegmentInstance>(r.segments)
    case None => Success(r)
    case Some(NameInstance(_)) =>
      // the index is the last one, so this `RemoveAt` cannot throw
      var segments := RemoveAt(r.segments, |r.segments| - 1).Extract();
      Success(Route(segments, r.data, r.refresh))
    case Some(DataInstance(_, _, _)) =>
      if r.data.None? then Failure(NullReference)
      else
        var segments :- RemoveAt(r.segments, |r.segments| - 2);
        assert segments == r.segments[..|r.segments| - 2] + [r.segments[|r.segments| - 1]];
        Success(Route(segments, r.data, r.refresh))
    case Some(DialogInstance) => Failure(NotSupported("Dialog segments must not be last."))
  }

  /** `Remove(count)`: the route without its last `count` instances. The code
      slices off the tail, hands its data-segment names to `Data!.RemoveRange`
      and discards the reduced bag it gets back. */
  function Remove(r: Route, count: int): (res: Result<Route, Exception>)
    ensures !(0 <= count <= |r.segments|) ==> res == Failure(ArgumentOutOfRange)
    ensures 0 <= count <= |r.segments| && r.data.None? ==> res == Failure(NullReference)
    ensures res.Success? <==> 0 <= count <= |r.segments| && r.data.Some?
    ensures res.Success? ==>
      |res.value.segments| == |r.segments| - count
      && res.value.segments == r.segments[..|r.segments| - count]
      && res.value.data == r.data && res.value.refresh == r.refresh
  {
    var removed :- TakeLast(r.segments, count);
    if r.data.None? then Failure(NullReference)
    else
      // the range was already checked by `TakeLast`, so this slice cannot throw
      var kept := DropLast(r.segments, count).Extract();
      assert kept == r.segments[..|r.segments| - count];
      Success(Route(kept, r.data, r.refresh))
  }

  /** `Add(NameSegment)`: one name instance appended. */
  function AddName(r: Route, segment: NameSegment): (res: Route)
    ensures |res.segments| == |r.segments| + 1
    ensures res.segments[..|r.segments|] == r.segments
    ensures res.segments[|r.segments|] == NameInstance(segment)
    ensures res.data == r.data && res.refresh == r.refresh
    ensures Anchored(r.segments) ==> Anchored(res.segments)
  {
    Route(r.segments + [NameInstance(segment)], r.data, r.refresh)
  }

  /** `Add(DataSegment, primitive, data)`: the segment's own parent anchor and
      then the data instance appended; the bag is not touched. */
  function AddData(r: Route, segment: DataSegment, primitive: string, payload: Option<Deferred>): (res: Route)
    ensures |res.segments| == |r.segments| + 2
    ensures res.segments[..|r.segments|] == r.segments
    ensures res.segments[|r.segments|] == NameInstance(segment.parentNameSegment)
    ensures res.segments[|r.segments| + 1] == DataInstance(segment, primitive, payload)
    ensures res.data == r.data && res.refresh == r.refresh
    ensures Anchored(r.segments) ==> Anchored(res.segments)
  {
    var segments := r.segments + [NameInstance(segment.parentNameSegment), DataInstance(segment, primitive, payload)];
    Route(segments, r.data, r.refresh)
  }

  /** The `Pairwise`/`Where` part of `NavigatableSegments`: for each adjacent
      pair, the first element unless the second is a data instance. */
  function CollapseAnchors(s: seq<SegmentInstance>): (res: seq<SegmentInstance>)
    ensures |s| >= 1 ==> |res| <= |s| - 1
    ensures |s| < 2 ==> res == []
    decreases |s|
  {
    if |s| < 2 then []
    else (if s[1].DataInstance? then [] else [s[0]]) + CollapseAnchors(s[1..])
  }

  /** `NavigatableSegments`: the breadcrumb view, in which an anchor directly
      followed by its data instance is hidden and the last element always stays. */
  function NavigatableSegments(r: Route): (res: seq<SegmentInstance>)
    ensures |r.segments| < 2 ==> res == r.segments
    ensures |res| <= |r.segments|
    ensures r.segments != [] ==> res != [] && res[|res| - 1] == r.segments[|r.segments| - 1]
  {
    if |r.segments| < 2 then r.segments
    else CollapseAnchors(r.segments) + [r.segments[|r.segments| - 1]]
  }
}
