# Route model of Ecierge.Uno.Navigation

This project models the route value of the Ecierge.Uno navigation library
(`Ecierge.Uno.Navigation/Routing/Route.cs`) in Dafny and proves what its
operations do.

A route is an immutable record made of three parts:

- an ordered sequence of segment instances, each a name instance, a data
  instance (a data segment, its primitive string and an optional deferred
  payload) or a dialog instance;
- an optional navigation-data bag;
- a refresh flag.

`Add` (two overloads), `GoBack` and `Remove` each return a new route or throw.
`NavigatableSegments` derives the breadcrumb view: it hides any element whose
successor is a data instance and always keeps the last element.

Layout:

- `wrappers.dfy`: `Option`, `Result` and the exceptions the operations throw
  (`ArgumentOutOfRange`, `NullReference`, `NotSupported`).
- `immutable_arrays.dfy`: the `ImmutableArray` operations the route uses
  (`LastOrDefault`, `RemoveAt`, the ranges `[^count..]` and `[..^count]`),
  with the exceptions .NET throws for bad indices.
- `segments.dfy`: `NameSegment` (a name), `DataSegment` (a name and its
  parent name segment), and the segment instances.
- `route.dfy`: the `Route` record and its operations, modelled as the code
  is written.
- `route_properties.dfy`: lemmas relating the operations to one another, and
  an index-based reference definition of the breadcrumb view.
- `route_findings.dfy`: `GoBack` and `Remove` as their code evidently
  intended, beside lemmas that show where the written code differs.

A `null` bag is `None`. The code dereferences it with `Data!`, so a null bag
makes `GoBack` (data instance last) and `Remove` throw a null reference. The
model returns `Failure(NullReference)` in those cases. Where the code checks
two things, the model keeps the code's order:

- `GoBack` dereferences the bag (line 35) before it calls `RemoveAt` (line 36).
- `Remove` slices the tail (line 47) before it dereferences the bag (line 50).

Three consequences of the code as written, which a reader expecting a
symmetric undo might not anticipate:

- Going back from a data instance removes only the element at index
  `Length - 2`. On a route built by the two `Add` overloads that element is
  the data instance's anchor. Repeated steps back then remove earlier
  elements, data instances included, while the data instance stays last
  until one element is left and the step throws
  (`RouteFindings.GoBackKeepsLastData`, `RouteFindings.GoBackTwiceDropsEarlierData`).
  The bag is returned unchanged, because the reduced bag is discarded. A step back that undoes
  `Add(DataSegment, …)` would drop both elements and the key; see
  "## Findings".
- `Remove(0)` is the identity only when a bag is present. With a `null` bag
  it throws, since `Data!` is dereferenced unconditionally.
- `Add(DataSegment, …)` always appends the segment's parent anchor, even
  when that name instance is already last. Adding `home`, then `items`, then
  a data segment `item` whose parent is `items` gives the segments
  `[home, items, items, item]` and the breadcrumb view `[home, items, item]`
  (`RouteProperties.HomeItemsItemScenario`). Adding only `home` and then
  `item` gives the view `[home, item]` (`RouteProperties.HomeItemScenario`).

## Model

| member | source | states |
|---|---|---|
| `ImmutableArrays.LastOrDefault` | Ecierge.Uno.Navigation/Routing/Route.cs:28 | nothing exactly when the array is empty, otherwise its last element |
| `ImmutableArrays.RemoveAt` | Ecierge.Uno.Navigation/Routing/Route.cs:33-36 | succeeds exactly for an index inside the array, otherwise `ArgumentOutOfRange`; the result is one shorter, equal below the index and shifted down by one from it |
| `ImmutableArrays.TakeLast` | Ecierge.Uno.Navigation/Routing/Route.cs:47 | `[^count..]` succeeds exactly when `0 <= count <= Length`; the result is the last `count` elements |
| `ImmutableArrays.DropLast` | Ecierge.Uno.Navigation/Routing/Route.cs:51 | `[..^count]` succeeds exactly when `0 <= count <= Length`; the result is the first `Length - count` elements |
| `Routing.DataNames` | Ecierge.Uno.Navigation/Routing/Route.cs:46-49 | the names listed are exactly the names of the data instances in the given segments |
| `Routing.GoBack` | Ecierge.Uno.Navigation/Routing/Route.cs:26-42 | empty route: returned unchanged. Name instance last: exactly that element is dropped, bag and flag kept. Data instance last: fails with `NullReference` on a null bag, then with `ArgumentOutOfRange` on a one-element route; otherwise only index `n-2` is removed (`s[..n-2] + [s[n-1]]`) and the bag is unchanged. Dialog instance last: `NotSupported` |
| `Routing.Remove` | Ecierge.Uno.Navigation/Routing/Route.cs:44-52 | fails with `ArgumentOutOfRange` unless `0 <= count <= Length`, then with `NullReference` on a null bag; it succeeds exactly otherwise, and the result is the first `Length - count` instances with bag and flag unchanged |
| `Routing.AddName` | Ecierge.Uno.Navigation/Routing/Route.cs:54-57 | one longer, old segments as prefix, the new name instance last, bag and flag unchanged; keeps every data instance anchored |
| `Routing.AddData` | Ecierge.Uno.Navigation/Routing/Route.cs:59-66 | two longer, old segments as prefix, then a name instance for the data segment's own parent (not a caller-chosen one), then the data instance; bag and flag unchanged; keeps every data instance anchored |
| `Routing.CollapseAnchors` | Ecierge.Uno.Navigation/Routing/Route.cs:76-81 | the pairwise filter yields at most one element per adjacent pair, none for fewer than two elements |
| `Routing.NavigatableSegments` | Ecierge.Uno.Navigation/Routing/Route.cs:68-85 | the segments themselves below two elements; never longer than the segments; its last element is always the segments' last |
| `RouteProperties.AddNameThenGoBack` | Ecierge.Uno.Navigation/Routing/Route.cs:32-33 | `GoBack` after `Add(NameSegment)` gives back the original route |
| `RouteProperties.AddDataThenGoBack` | Ecierge.Uno.Navigation/Routing/Route.cs:34-36 | `GoBack` after `Add(DataSegment, …)` fails on a null bag, and otherwise returns the old segments plus the data instance with the bag unchanged; this is never the original segments |
| `RouteProperties.GoBackNameIsRemoveOne` | Ecierge.Uno.Navigation/Routing/Route.cs:32-33 | with a name instance last and a bag present, `GoBack()` equals `Remove(1)` |
| `RouteProperties.RemoveZero` | Ecierge.Uno.Navigation/Routing/Route.cs:44-52 | `Remove(0)` returns the same route when the bag is present and fails with `NullReference` when it is null |
| `RouteProperties.RemoveComposes` | Ecierge.Uno.Navigation/Routing/Route.cs:44-52 | `Remove(a)` then `Remove(b)` equals `Remove(a + b)` within range |
| `RouteProperties.RemoveUndoesAdd` | Ecierge.Uno.Navigation/Routing/Route.cs:44-66 | `Remove(1)` undoes `Add(NameSegment)` and `Remove(2)` undoes `Add(DataSegment, …)` when a bag is present |
| `RouteProperties.RemovePreservesAnchored` | Ecierge.Uno.Navigation/Routing/Route.cs:51 | truncation keeps every data instance preceded by its own anchor |
| `RouteProperties.NavigatableIsSurvivors` | Ecierge.Uno.Navigation/Routing/Route.cs:68-85 | the breadcrumb view equals, in index order, every element whose successor is not a data instance, followed by the last element |
| `RouteProperties.NavigatableIsSubsequence` | Ecierge.Uno.Navigation/Routing/Route.cs:75-83 | the breadcrumb view is a subsequence of the segments (order kept) |
| `RouteProperties.NavigatableKeepsAnchoredData` | Ecierge.Uno.Navigation/Routing/Route.cs:76-82 | on a route whose data instances are all anchored, the view keeps every data instance, in order |
| `RouteProperties.NavigatableCollapsesAnchor` | Ecierge.Uno.Navigation/Routing/Route.cs:76-80 | `[Name A, Name B, Data X (anchor B)]` is shown as `[Name A, Data X]` |
| `RouteProperties.HomeItemsItemScenario` | Ecierge.Uno.Navigation/Routing/Route.cs:59-85 | `home`, `items`, then data `item` with parent `items`: the anchor is appended a second time, giving segments `[home, items, items, item]` and view `[home, items, item]` |
| `RouteProperties.HomeItemScenario` | Ecierge.Uno.Navigation/Routing/Route.cs:26-85 | an empty route plus `home` plus data `item` has segments `[home, anchor, item]` and view `[home, item]`; going back gives `[home, item]` |
| `RouteFindings.RemoveKeys` | Ecierge.Uno.Navigation/Routing/Route.cs:35 | the bag with the given keys dropped and every other entry unchanged |
| `RouteFindings.GoBackIntended` | Ecierge.Uno.Navigation/Routing/Route.cs:34-36 | with a data instance last it succeeds exactly when the bag is present and there are at least two elements; the last two elements go, the flag is kept, and the bag loses exactly the data segment's key with every other entry unchanged; any other last element behaves as `GoBack` |
| `RouteFindings.RemoveIntended` | Ecierge.Uno.Navigation/Routing/Route.cs:46-51 | fails with `ArgumentOutOfRange` unless `0 <= count <= Length`, then with `NullReference` on a null bag, exactly as `Remove`; on success the first `Length - count` instances remain and the bag loses the names of the data segments in the removed tail |
| `RouteFindings.GoBackLeavesDataInstance` | Ecierge.Uno.Navigation/Routing/Route.cs:36 | going back from a freshly added data segment leaves the data instance in place; on an empty route the result has an unanchored data instance |
| `RouteFindings.GoBackKeepsDataKey` | Ecierge.Uno.Navigation/Routing/Route.cs:35-36 | after going back from an added data segment, the bag still holds its key |
| `RouteFindings.GoBackHidesEarlierData` | Ecierge.Uno.Navigation/Routing/Route.cs:36 | after two `Add(DataSegment, …)` and one `GoBack`, the breadcrumb view shows only the second data instance; the first is hidden |
| `RouteFindings.GoBackKeepsLastData` | Ecierge.Uno.Navigation/Routing/Route.cs:34-36 | whenever a data instance is last and `GoBack` succeeds, the same data instance is still last, the route is one shorter and the bag is unchanged |
| `RouteFindings.GoBackTwiceDropsEarlierData` | Ecierge.Uno.Navigation/Routing/Route.cs:36 | after two `Add(DataSegment, …)` on an empty route, two steps back remove the second anchor and then the first data instance, leaving `[first anchor, second data instance]` with the bag unchanged |
| `RouteFindings.GoBackIntendedUndoesAddData` | Ecierge.Uno.Navigation/Routing/Route.cs:34-36 | intended `GoBack` after `Add(DataSegment, …)` restores the segments and flag, and drops only the segment's key from the bag |
| `RouteFindings.GoBackIntendedPreservesAnchored` | Ecierge.Uno.Navigation/Routing/Route.cs:32-36 | intended `GoBack` keeps every data instance anchored |
| `RouteFindings.RemoveKeepsDataKeys` | Ecierge.Uno.Navigation/Routing/Route.cs:50-51 | after `Remove`, every name of a data segment in the removed tail that was in the bag is still there |
| `RouteFindings.RemoveIntendedDropsKeys` | Ecierge.Uno.Navigation/Routing/Route.cs:46-51 | intended `Remove` leaves no data instance of the removed tail in the bag, and keeps every other key |

## Left out

- `RouteSegmentInstance.Segment` (lines 9-21) is not modelled. This includes the `NotImplementedException` a dialog instance throws there. No route operation reads it.
- The `Task<object>` payload of a data instance is the opaque handle `Deferred`. It is stored and compared, never resolved.
- `INavigationData` is a map from data-segment names to deferred values. Its own `Remove` and `RemoveRange` are not part of this model. The model assumes they return a new bag and leave the bag they are called on unchanged, as `var data = Data!.Remove(…)` reads. The as-written contracts `res.value.data == r.data` of `Routing.GoBack` and `Routing.Remove`, and Findings rows 2 and 3, rest on that assumption: an in-place removal would take the key out even though the result is discarded. The as-written model therefore keeps only the null dereference. `RouteFindings.RemoveKeys` assumes the evident meaning of both calls: drop the given keys.
- The unreachable `default:` branch of `GoBack` (lines 39-40) has no counterpart, because the instance kinds are a closed datatype.
- Three .NET cases are not modelled:
  - `null` elements inside `Segments`;
  - a `default` (uninitialised) `ImmutableArray`;
  - reference equality of records.

  The model uses value equality on sequences.
- `count` is an unbounded integer. The range `[^count..]` on line 47 works out `Length - count` before any check, but every `count` outside `0..Length` ends in `ArgumentOutOfRange`, including one where the 32-bit subtraction would wrap. So unbounded arithmetic gives the same outcome for every 32-bit `count`.
- Two files are not part of this model:
  - `Ecierge.Uno.Controls/LocationBreadcrumb/LocationBreadcrumbBar.cs`, which is UI templating, focus and keyboard handling;
  - `Ecierge.Uno.Navigation/Navigation/NavigateRouteActions.cs`, which forwards to external navigators.

## Findings

| source | as written | input that shows it | evidently intended | confidence | as-written member | corrected member |
|---|---|---|---|---|---|---|
| Ecierge.Uno.Navigation/Routing/Route.cs:36 | `RemoveAt(Length - 2)` removes only the anchor, so the data instance stays last | an empty route with a bag, after `Add(DataSegment d, …)` (segments `[Name parent, Data d]`): `GoBack()` gives `[Data d]`, a data instance without its anchor | drop both the data instance and its anchor, back to `[]` | high; not executed | `RouteFindings.GoBackLeavesDataInstance` | `RouteFindings.GoBackIntendedUndoesAddData` |
| Ecierge.Uno.Navigation/Routing/Route.cs:35-36 | the reduced bag `data` is computed and discarded; the result keeps `Data` | a bag holding `d.Name`, then `Add(DataSegment d, …)` and `GoBack()`: the key is still in the bag | the returned route carries the bag without `d.Name` | high; not executed | `RouteFindings.GoBackKeepsDataKey` | `RouteFindings.GoBackIntended` |
| Ecierge.Uno.Navigation/Routing/Route.cs:50-51 | the result of `RemoveRange` is discarded; the result keeps `Data` | a route ending in `[Name p, Data d]` whose bag holds `d.Name`: `Remove(2)` leaves `d.Name` in the bag | the returned route carries the bag without the removed data names | high; not executed | `RouteFindings.RemoveKeepsDataKeys` | `RouteFindings.RemoveIntendedDropsKeys` |
