/** What the route operations promise about each other, and an index-based
    reference definition of the breadcrumb view. */
module RouteProperties {
  import opened Wrappers
  import opened Exceptions
  import opened Segments
  import opened Routing

  // ---------------------------------------------------------------------
  // Add, GoBack and Remove
  // ---------------------------------------------------------------------

  /** Going back after adding a name gives the original route back. */
  lemma AddNameThenGoBack(r: Route, segment: NameSegment)
    ensures GoBack(AddName(r, segment)) == Success(r)
  {
  }

  /** Going back after adding a data segment does NOT give the original
      segments back: the anchor goes and the data instance stays last. With a
      null bag the step fails. */
  lemma AddDataThenGoBack(r: Route, segment: DataSegment, primitive: string, payload: Option<Deferred>)
    ensures r.data.None? ==> GoBack(AddData(r, segment, primitive, payload)) == Failure(NullReference)
    ensures r.data.Some? ==>
      GoBack(AddData(r, segment, primitive, payload))
        == Success(Route(r.segments + [DataInstance(segment, primitive, payload)], r.data, r.refresh))
    ensures r.data.Some? ==>
      GoBack(AddData(r, segment, primitive, payload)).value.segments != r.segments
  {
  }

  /** With a name instance last (and a bag present), `GoBack` is `Remove(1)`. */
  lemma GoBackNameIsRemoveOne(r: Route)
    requires r.segments != [] && r.segments[|r.segments| - 1].NameInstance?
    requires r.data.Some?
    ensures GoBack(r) == Remove(r, 1)
  {
  }

  /** `Remove(0)` gives the same route when a bag is present, and fails
      with a null reference otherwise. */
  lemma RemoveZero(r: Route)
    ensures r.data.Some? ==> Remove(r, 0) == Success(r)
    ensures r.data.None? ==> Remove(r, 0) == Failure(NullReference)
  {
    assert r.segments[..|r.segments|] == r.segments;
  }

  /** Removing `a` then `b` instances is removing `a + b` at once. */
  lemma RemoveComposes(r: Route, a: int, b: int)
    requires 0 <= a && 0 <= b && a + b <= |r.segments|
    requires r.data.Some?
    ensures Remove(r, a).Success?
    ensures Remove(Remove(r, a).value, b) == Remove(r, a + b)
  {
    var n := |r.segments|;
    assert r.segments[..n - a][..n - a - b] == r.segments[..n - (a + b)];
  }

  /** `Remove` undoes both `Add` overloads when a bag is present. */
  lemma RemoveUndoesAdd(r: Route, name: NameSegment, segment: DataSegment, primitive: string, payload: Option<Deferred>)
    requires r.data.Some?
    ensures Remove(AddName(r, name), 1) == Success(r)
    ensures Remove(AddData(r, segment, primitive, payload), 2) == Success(r)
  {
  }

  /** Truncation keeps every data instance behind its anchor. */
  lemma RemovePreservesAnchored(r: Route, count: int)
    requires Anchored(r.segments)
    requires Remove(r, count).Success?
    ensures Anchored(Remove(r, count).value.segments)
  {
  }

  // ---------------------------------------------------------------------
  // NavigatableSegments
  // ---------------------------------------------------------------------

  /** Whether the element at `i` is shown in the breadcrumb view: it is the
      last one, or the one after it is not a data instance. */
  predicate Survives(s: seq<SegmentInstance>, i: nat)
    requires i < |s|
  {
    i == |s| - 1 || !s[i + 1].DataInstance?
  }

  /** Reference definition: the elements at indices `i` and beyond that
      survive, in index order. */
  function Survivors(s: seq<SegmentInstance>, i: nat): (res: seq<SegmentInstance>)
    requires i <= |s|
    decreases |s| - i
  {
    if i == |s| then [] else (if Survives(s, i) then [s[i]] else []) + Survivors(s, i + 1)
  }

  /** `a` is `b` with some elements left out, order kept. */
  predicate IsSubsequence<T(==)>(a: seq<T>, b: seq<T>)
    decreases |b|
  {
    if a == [] then true
    else if b == [] then false
    else (a[0] == b[0] && IsSubsequence(a[1..], b[1..])) || IsSubsequence(a, b[1..])
  }

  /** The data instances of `s`, in order. */
  function DataInstancesOf(s: seq<SegmentInstance>): (res: seq<SegmentInstance>)
    ensures forall x :: x in res ==> x in s && x.DataInstance?
  {
    if s == [] then [] else (if s[0].DataInstance? then [s[0]] else []) + DataInstancesOf(s[1..])
  }

  lemma {:induction false} CollapseMatchesSurvivors(s: seq<SegmentInstance>, i: nat)
    requires i < |s|
    ensures CollapseAnchors(s[i..]) + [s[|s| - 1]] == Survivors(s, i)
    decreases |s| - i
  {
    if i < |s| - 1 {
      CollapseMatchesSurvivors(s, i + 1);
      assert s[i..][1..] == s[i + 1..];
    } else {
      assert Survivors(s, i + 1) == [];
    }
  }

  /** The breadcrumb view is exactly the surviving elements, in order: an
      element whose successor is a data instance is left out, every other
      element (and always the last) is kept. */
  lemma NavigatableIsSurvivors(r: Route)
    ensures NavigatableSegments(r) == Survivors(r.segments, 0)
  {
    var s := r.segments;
    if |s| >= 2 {
      CollapseMatchesSurvivors(s, 0);
      assert s[0..] == s;
    } else if |s| == 1 {
      assert Survivors(s, 1) == [];
    }
  }

  lemma {:induction false} SurvivorsIsSubsequence(s: seq<SegmentInstance>, i: nat)
    requires i <= |s|
    ensures IsSubsequence(Survivors(s, i), s[i..])
    decreases |s| - i
  {
    if i < |s| {
      SurvivorsIsSubsequence(s, i + 1);
      assert s[i..][1..] == s[i + 1..];
      assert s[i..][0] == s[i];
      if Survives(s, i) {
        assert Survivors(s, i)[1..] == Survivors(s, i + 1);
      } else {
        assert Survivors(s, i) == Survivors(s, i + 1);
      }
    }
  }

  /** The breadcrumb view only leaves elements out; it never reorders. */
  lemma NavigatableIsSubsequence(r: Route)
    ensures IsSubsequence(NavigatableSegments(r), r.segments)
  {
    NavigatableIsSurvivors(r);
    SurvivorsIsSubsequence(r.segments, 0);
    assert r.segments[0..] == r.segments;
  }

  lemma {:induction false} SurvivorsKeepAnchoredData(s: seq<SegmentInstance>, i: nat)
    requires Anchored(s)
    requires i <= |s|
    ensures DataInstancesOf(Survivors(s, i)) == DataInstancesOf(s[i..])
    decreases |s| - i
  {
    if i < |s| {
      SurvivorsKeepAnchoredData(s, i + 1);
      assert s[i..][1..] == s[i + 1..];
      var rest := Survivors(s, i + 1);
      DataInstancesOfCons(s[i], s[i + 1..]);
      assert s[i..] == [s[i]] + s[i + 1..];
      if Survives(s, i) {
        DataInstancesOfCons(s[i], rest);
      } else {
        // the element before a data instance is its anchor, a name instance
        assert s[i] == NameInstance(s[i + 1].dataSegment.parentNameSegment);
        assert Survivors(s, i) == rest;
      }
    }
  }

  lemma DataInstancesOfCons(x: SegmentInstance, t: seq<SegmentInstance>)
    ensures DataInstancesOf([x] + t) == (if x.DataInstance? then [x] else []) + DataInstancesOf(t)
  {
  }

  /** On a well-anchored route the breadcrumb view hides only anchors: every
      data instance appears in it, in the same order. */
  lemma NavigatableKeepsAnchoredData(r: Route)
    requires Anchored(r.segments)
    ensures DataInstancesOf(NavigatableSegments(r)) == DataInstancesOf(r.segments)
  {
    NavigatableIsSurvivors(r);
    SurvivorsKeepAnchoredData(r.segments, 0);
    assert r.segments[0..] == r.segments;
  }

  /** An anchor directly followed by its data instance is hidden; a name
      followed by a name is kept. */
  lemma NavigatableCollapsesAnchor(a: NameSegment, b: NameSegment, x: DataSegment, primitive: string)
    requires x.parentNameSegment == b
    ensures NavigatableSegments(Route([NameInstance(a), NameInstance(b), DataInstance(x, primitive, None)], None, false))
      == [NameInstance(a), DataInstance(x, primitive, None)]
  {
    var s := [NameInstance(a), NameInstance(b), DataInstance(x, primitive, None)];
    assert s[1..][1..] == [DataInstance(x, primitive, None)];
    assert CollapseAnchors(s[1..]) == [];
    assert CollapseAnchors(s) == [NameInstance(a)];
  }

  /** Adding a name and then a data segment onto an empty route shows the
      name and the data instance, and going back leaves the data instance. */
  lemma HomeItemScenario(home: NameSegment, item: DataSegment, bag: NavigationData)
    ensures var r := AddData(AddName(Route([], Some(bag), false), home), item, "42", None);
      && r.segments == [NameInstance(home), NameInstance(item.parentNameSegment), DataInstance(item, "42", None)]
      && NavigatableSegments(r) == [NameInstance(home), DataInstance(item, "42", None)]
      && GoBack(r) == Success(Route([NameInstance(home), DataInstance(item, "42", None)], Some(bag), false))
  {
    var r := AddData(AddName(Route([], Some(bag), false), home), item, "42", None);
    var s := [NameInstance(home), NameInstance(item.parentNameSegment), DataInstance(item, "42", None)];
    assert r.segments == s;
    assert s[1..][1..] == [DataInstance(item, "42", None)];
    assert CollapseAnchors(s[1..]) == [];
    assert CollapseAnchors(s) == [NameInstance(home)];
    assert s[..1] == [NameInstance(home)];
  }

  /** The anchor is appended even when it is already last: adding `home`,
      `items` and then `item` (parent `items`) repeats `items`, and the view
      hides only the repeated copy. */
  lemma HomeItemsItemScenario(home: NameSegment, items: NameSegment, item: DataSegment, bag: NavigationData)
    requires item.parentNameSegment == items
    ensures var r := AddData(AddName(AddName(Route([], Some(bag), false), home), items), item, "42", None);
      && r.segments == [NameInstance(home), NameInstance(items), NameInstance(items), DataInstance(item, "42", None)]
      && NavigatableSegments(r) == [NameInstance(home), NameInstance(items), DataInstance(item, "42", None)]
  {
    var s := [NameInstance(home), NameInstance(items), NameInstance(items), DataInstance(item, "42", None)];
    assert s[1..][1..][1..] == [DataInstance(item, "42", None)];
    assert CollapseAnchors(s[1..][1..]) == [];
    assert CollapseAnchors(s[1..]) == [NameInstance(items)];
    assert CollapseAnchors(s) == [NameInstance(home), NameInstance(items)];
  }
}
