/** Segment definitions (configuration, never changed during navigation) and
    the segment instances a route is made of. */
module Segments {
  import opened Wrappers

  /** A static path component. */
  datatype NameSegment = NameSegment(name: string)

  /** A parameterised path component, bound to the name segment that anchors it. */
  datatype DataSegment = DataSegment(name: string, parentNameSegment: NameSegment)

  /** An opaque handle to the deferred payload (`Task<object>`) a data
      instance may carry; the route only stores and forwards it. */
  datatype Deferred = Deferred(id: nat)

  /** The closed family of `RouteSegmentInstance` records. */
  datatype SegmentInstance =
    | NameInstance(nameSegment: NameSegment)
    | DataInstance(dataSegment: DataSegment, primitive: string, payload: Option<Deferred>)
    | DialogInstance
}
