/** The evident intent behind `GoBack` and `Remove`, beside what the code
    does: going back from a data instance drops it together with its anchor
    and removes its key from the bag, and `Remove` prunes the bag of the data
    segments it cuts off. The bag's own `Remove`/`RemoveRange` are taken to
    drop the given keys. */
module RouteFindings {
  import opened Wrappers
  import opened Exceptions
  import opened Segments
  import opened ImmutableArrays
  import opened Routing
  import RouteProperties

  /** The bag without the given keys (what `INavigationData.Remove` and
      `RemoveRange` evidently return). */
  function RemoveKeys(bag: NavigationData, names: seq<string>): (res: NavigationData)
    ensures forall k :: k in res.entries <==> k in bag.entries && k !in names
    ensures forall k :: k in res.entries ==> res.entries[k] == bag.entries[k]
  {
    NavigationData(map k | k in bag.entries && k !in names :: bag.entries[k])
  }

  /** `GoBack` as evidently intended: with a data instance last, the last two
      elements go and the data segment's key leaves the bag. */
  function GoBackIntended(r: Route): (res: Result<Route, Exception>)
    ensures r.segments != [] && r.segments[|r.segments| - 1].DataInstance? ==>
      (res.Success? <==> r.data.Some? && |r.segments| >= 2)
    ensures r.segments != [] && r.segments[|r.segments| - 1].DataInstance? && res.Success? ==>
      && |r.segments| >= 2
      && res.value.segments == r.segments[..|r.segments| - 2]
      && res.value.data.Some?
      && r.segments[|r.segments| - 1].dataSegment.name !in res.value.data.value.entries
      && res.value.refresh == r.refresh
      && res.value.data.value.entries == r.data.value.entries - {r.segments[|r.segments| - 1].dataSegment.name}
    ensures !(r.segments != [] && r.segments[|r.segments| - 1].DataInstance?) ==> res == GoBack(r)
  {
    match LastOrDefault<SegmentInstance>(r.segments)
    case Some(DataInstance(segment, _, _)) =>
      if r.data.None? then Failure(NullReference)
      else
        var kept :- DropLast(r.segments, 2);
        Success(Route(kept, Some(RemoveKeys(r.data.value, [segment.name])), r.refresh))
    case _ => GoBack(r)
  }

  /** `Remove` as evidently intended: the bag loses the names of the data
      segments in the removed tail. */
  function RemoveIntended(r: Route, count: int): (res: Result<Route, Exception>)
    ensures !(0 <= count <= |r.segments|) ==> res == Failure(ArgumentOutOfRange)
    ensures 0 <= count <= |r.segments| && r.data.None? ==> res == Failure(NullReference)
    ensures res.Success? <==> 0 <= count <= |r.segments| && r.data.Some?
    ensures res.Success? ==>
      && res.value.segments == r.segments[..|r.segments| - count]
      && res.value.refresh == r.refresh
      && res.value.data == Some(RemoveKeys(r.data.value, DataNames(r.segments[|r.segments| - count..])))
  {
    var removed :- TakeLast(r.segments, count);
    if r.data.None? then Failure(NullReference)
    else
      var kept := DropLast(r.segments, count).Extract();
      assert removed == r.segments[|r.segments| - count..];
      assert kept == r.segments[..|r.segments| - count];
      Success(Route(kept, Some(RemoveKeys(r.data.value, DataNames(removed))), r.refresh))
  }

  // ---------------------------------------------------------------------
  // GoBack after Add(DataSegment, ...)
  // ---------------------------------------------------------------------

  /** As written: going back from a freshly added data segment leaves the
      data instance in place, so on an empty route the result is a lone data
      instance with no anchor. */
  lemma GoBackLeavesDataInstance(r: Route, segment: DataSegment, primitive: string, payload: Option<Deferred>)
    requires r.data.Some?
    ensures var back := GoBack(AddData(r, segment, primitive, payload));
      && back.Success?
      && back.value.segments == r.segments + [DataInstance(segment, primitive, payload)]
      && (r.segments == [] ==> !Anchored(back.value.segments))
  {
    RouteProperties.AddDataThenGoBack(r, segment, primitive, payload);
    var back := GoBack(AddData(r, segment, primitive, payload)).value.segments;
    assert r.segments == [] ==> back[0].DataInstance?;
  }

  /** As written: the bag after going back still holds the data segment's key. */
  lemma GoBackKeepsDataKey(r: Route, segment: DataSegment, primitive: string, payload: Option<Deferred>)
    requires r.data.Some? && segment.name in r.data.value.entries
    ensures var back := GoBack(AddData(r, segment, primitive, payload));
      back.Success? && back.value.data.Some? && segment.name in back.value.data.value.entries
  {
  }

  /** Intended: going back undoes `Add(DataSegment, ...)` on the segments and
      drops the key from the bag, leaving every other entry as it was. */
  lemma GoBackIntendedUndoesAddData(r: Route, segment: DataSegment, primitive: string, payload: Option<Deferred>)
    requires r.data.Some?
    ensures var back := GoBackIntended(AddData(r, segment, primitive, payload));
      && back.Success?
      && back.value.segments == r.segments
      && back.value.refresh == r.refresh
      && back.value.data == Some(RemoveKeys(r.data.value, [segment.name]))
  {
  }

  /** Intended: going back keeps every data instance behind its anchor. */
  lemma GoBackIntendedPreservesAnchored(r: Route)
    requires Anchored(r.segments)
    requires GoBackIntended(r).Success?
    ensures Anchored(GoBackIntended(r).value.segments)
  {
  }

  /** As written: going back twice over two added data segments leaves the
      first data instance hidden from the breadcrumb view, since it is now
      followed by the second. */
  lemma GoBackHidesEarlierData(x: DataSegment, y: DataSegment, bag: NavigationData)
    ensures var r := AddData(AddData(Route([], Some(bag), false), x, "x", None), y, "y", None);
      && GoBack(r).Success?
      && NavigatableSegments(GoBack(r).value) == [DataInstance(y, "y", None)]
      && DataInstance(x, "x", None) !in NavigatableSegments(GoBack(r).value)
  {
    var s := [NameInstance(x.parentNameSegment), DataInstance(x, "x", None), DataInstance(y, "y", None)];
    var r := AddData(AddData(Route([], Some(bag), false), x, "x", None), y, "y", None);
    assert r.segments[..2] == s[..2];
    assert GoBack(r).value.segments == s;
    assert s[1..][1..] == [DataInstance(y, "y", None)];
    assert CollapseAnchors(s[1..]) == [];
    assert CollapseAnchors(s) == [];
  }

  /** As written: a step back from a data instance never removes it; the
      same data instance stays last and the route loses one element. */
  lemma GoBackKeepsLastData(r: Route)
    requires r.segments != [] && r.segments[|r.segments| - 1].DataInstance?
    requires GoBack(r).Success?
    ensures var back := GoBack(r).value.segments;
      && |back| == |r.segments| - 1
      && back[|back| - 1] == r.segments[|r.segments| - 1]
      && GoBack(r).value.data == r.data
  {
  }

  /** As written: two steps back over two added data segments remove the
      second anchor and then the first data instance, whose key stays in the
      bag. */
  lemma GoBackTwiceDropsEarlierData(x: DataSegment, y: DataSegment, bag: NavigationData)
    ensures var r := AddData(AddData(Route([], Some(bag), false), x, "x", None), y, "y", None);
      && GoBack(r).Success?
      && GoBack(GoBack(r).value).Success?
      && GoBack(GoBack(r).value).value
           == Route([NameInstance(x.parentNameSegment), DataInstance(y, "y", None)], Some(bag), false)
  {
    var r := AddData(AddData(Route([], Some(bag), false), x, "x", None), y, "y", None);
    var once := [NameInstance(x.parentNameSegment), DataInstance(x, "x", None), DataInstance(y, "y", None)];
    assert r.segments[..2] == once[..2];
    assert GoBack(r).value.segments == once;
    assert once[..1] == [NameInstance(x.parentNameSegment)];
  }

  // ---------------------------------------------------------------------
  // Remove
  // ---------------------------------------------------------------------

  /** As written: the names of the data segments cut off by `Remove` stay in
      the bag. */
  lemma RemoveKeepsDataKeys(r: Route, count: int)
    requires Remove(r, count).Success?
    ensures forall k :: k in DataNames(r.segments[|r.segments| - count..]) && k in r.data.value.entries ==>
      k in Remove(r, count).value.data.value.entries
  {
  }

  /** Intended: no data segment cut off by `Remove` keeps its key, and every
      key of a data segment not named in the tail survives. */
  lemma RemoveIntendedDropsKeys(r: Route, count: int)
    requires RemoveIntended(r, count).Success?
    ensures var bag := RemoveIntended(r, count).value.data.value.entries;
      && (forall i :: |r.segments| - count <= i < |r.segments| && r.segments[i].DataInstance? ==>
            r.segments[i].dataSegment.name !in bag)
      && (forall k :: k in r.data.value.entries && k !in DataNames(r.segments[|r.segments| - count..]) ==> k in bag)
  {
  }
}
