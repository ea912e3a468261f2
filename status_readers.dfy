/**
 * The generic status reader of the kstatus polling engine
 * (pkg/kstatus/polling/statusreaders/generic.go): the fallback reader used for
 * every resource kind without a reader of its own. It hands the resource to a
 * pluggable status function and turns the function's answer into a
 * ResourceStatus event record.
 *
 * The status library's Compute function, the cluster reader and the REST
 * mapper are not part of this model: Compute is a parameter, and the reader
 * and mapper are opaque values of type parameters R and M.
 */
module StatusReaders {

  datatype Option<T> = None | Some(value: T)

  /** The status values of the kstatus library. */
  datatype Status = InProgress | Failed | Current | Terminating | NotFound | Unknown

  datatype GroupKind = GroupKind(group: string, kind: string)

  /** ObjMetadata: the identifier of a resource, without its body. */
  datatype ObjMetadata = ObjMetadata(namespace: string, name: string, groupKind: GroupKind)

  /**
   * An unstructured resource: its identity fields and, standing for the rest
   * of the document, a map of further fields.
   */
  datatype Unstructured = Unstructured(
    group: string, kind: string, namespace: string, name: string,
    fields: map<string, string>)

  /** A Go error value returned by the status function. */
  datatype Error = Error(message: string)

  /** status.Result: the status computed for a resource and a message explaining it. */
  datatype ComputeResult = ComputeResult(status: Status, message: string)

  /** What the status function returns: a result, or an error. */
  datatype Outcome = Ok(result: ComputeResult) | Err(error: Error)

  /** event.ResourceStatus: the record the reader produces for one resource. */
  datatype ResourceStatus = ResourceStatus(
    identifier: ObjMetadata,
    status: Status,
    resource: Option<Unstructured>,
    error: Option<Error>,
    message: string)

  /** genericStatusReader: a reader and a mapper, and the status function it delegates to. */
  datatype GenericStatusReader<R, M> = GenericStatusReader(
    reader: R, mapper: M, statusFunc: Unstructured -> Outcome)

  /** baseStatusReader, with the generic reader installed as its resource-type reader. */
  datatype BaseStatusReader<R, M> = BaseStatusReader(
    reader: R, mapper: M, resourceStatusReader: GenericStatusReader<R, M>)

  /** object.UnstructuredToObjMetaOrDie: the identifier read from the resource's identity fields. */
  function Identifier(u: Unstructured): ObjMetadata {
    ObjMetadata(u.namespace, u.name, GroupKind(u.group, u.kind))
  }

  /**
   * NewGenericStatusReader: the outer reader and the inner generic reader share
   * the same cluster reader and mapper, and the inner one calls `compute`.
   */
  function NewGenericStatusReader<R, M>(reader: R, mapper: M, compute: Unstructured -> Outcome): (b: BaseStatusReader<R, M>)
    ensures b.reader == reader && b.mapper == mapper
    ensures b.resourceStatusReader.reader == reader && b.resourceStatusReader.mapper == mapper
    ensures forall u :: b.resourceStatusReader.statusFunc(u) == compute(u)
  {
    BaseStatusReader(reader, mapper, GenericStatusReader(reader, mapper, compute))
  }

  /**
   * genericStatusReader.ReadStatusForObject. The context argument is not used.
   * An error from the status function gives Unknown with the error attached and
   * neither a resource nor a message; otherwise the computed status and message
   * are copied and the resource is attached. Either way the identifier is the
   * resource's own.
   */
  function ReadStatusForObject<R, M, C>(g: GenericStatusReader<R, M>, ctx: C, resource: Unstructured): (rs: ResourceStatus)
    ensures rs.identifier == Identifier(resource)
    ensures rs.identifier.groupKind == GroupKind(resource.group, resource.kind)
    ensures rs.identifier.namespace == resource.namespace && rs.identifier.name == resource.name
    ensures g.statusFunc(resource).Err? ==>
              rs.status == Unknown && rs.error == Some(g.statusFunc(resource).error)
              && rs.resource == None && rs.message == ""
    ensures g.statusFunc(resource).Ok? ==>
              rs.status == g.statusFunc(resource).result.status
              && rs.message == g.statusFunc(resource).result.message
              && rs.resource == Some(resource) && rs.error == None
    ensures rs.error.Some? <==> g.statusFunc(resource).Err?
    ensures rs.resource.Some? <==> !rs.error.Some?
    ensures rs.resource.Some? ==> Identifier(rs.resource.value) == rs.identifier
    ensures rs.error.Some? ==> rs.status == Unknown
  {
    var identifier := Identifier(resource);
    match g.statusFunc(resource)
    case Err(err) =>
      ResourceStatus(identifier, Unknown, None, Some(err), "")
    case Ok(res) =>
      ResourceStatus(identifier, res.status, Some(resource), None, res.message)
  }

  /** The record depends on the resource and on the status function's answer for it, and on nothing else. */
  lemma ReadStatusDependsOnlyOnOutcome<R, M, C>(
    g1: GenericStatusReader<R, M>, g2: GenericStatusReader<R, M>, ctx1: C, ctx2: C, resource: Unstructured)
    requires g1.statusFunc(resource) == g2.statusFunc(resource)
    ensures ReadStatusForObject(g1, ctx1, resource) == ReadStatusForObject(g2, ctx2, resource)
  {
  }

  /** A reader built by NewGenericStatusReader reports what `compute` says about the resource. */
  lemma NewGenericReaderUsesCompute<R, M, C>(reader: R, mapper: M, compute: Unstructured -> Outcome, ctx: C, resource: Unstructured)
    ensures var rs := ReadStatusForObject(NewGenericStatusReader(reader, mapper, compute).resourceStatusReader, ctx, resource);
            match compute(resource)
            case Err(err) => rs == ResourceStatus(Identifier(resource), Unknown, None, Some(err), "")
            case Ok(res) => rs == ResourceStatus(Identifier(resource), res.status, Some(resource), None, res.message)
  {
  }
}
