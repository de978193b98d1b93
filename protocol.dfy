/** The messages the concept-graph clients, the browser relay and the
    Firefox add-on exchange (the `task` objects of the JavaScript code).
    Property values inside concept and relation configurations are
    strings or null; a JSON text is represented by the value it parses
    to. */
module Protocol {
  import opened Common
  import Refs = References

  /** A property value of a concept or relation configuration. */
  datatype Value = Str(s: string) | Null

  /** A concept configuration: its `id`, its `refs` table if it has one,
      and every other property. */
  datatype ConceptCfg = ConceptCfg(id: string, props: map<string, Value>,
                                   refs: Option<map<string, Refs.Ref>>)

  /** A relation configuration: its `id` (possibly absent), its `nodes`,
      its `refs` table if it has one, and every other property. */
  datatype RelationCfg = RelationCfg(id: Option<string>, nodes: seq<string>,
                                     props: map<string, Value>,
                                     refs: Option<map<string, Refs.Ref>>)

  /** The argument of `updateSelection`: an array (or Set), a single id,
      or null (an object that iterates as nothing). */
  datatype SelArg = Ids(ids: seq<string>) | One(id: string) | NullSel

  /** The `cmd` of a REFS update. */
  datatype RefCmd =
    | RefAdd(ref: Refs.RefConfig, selections: Option<seq<seq<Refs.Range>>>)
    | RefDelete(url: string)
    | RefUnknown(cmd: string)

  /** The `data` member of a REQUEST: the references of the requested
      link, when it names any. */
  datatype RequestData = RequestData(refs: Option<map<string, Refs.Ref>>)

  /** One message, by its `task`. `OtherTask` carries any task name not
      covered by the other variants. */
  datatype Msg =
    | ConceptNew(concept: ConceptCfg)
    | ConceptUpdate(concept: ConceptCfg)
    | ConceptDelete(id: string)
    | LinkNew(relation: RelationCfg)
    | LinkUpdate(relation: RelationCfg)
    | LinkDelete(id: string)
      /** CONCEPT-UPDATE-REFS (`onRelation` false) or
          CONCEPT-LINK-UPDATE-REFS (true). */
    | UpdateRefs(onRelation: bool, refId: Option<string>, nodes: seq<string>, cmd: RefCmd)
    | SelectionUpdate(selection: SelArg)
    | GetFound(id: string, concepts: seq<ConceptCfg>, relations: seq<RelationCfg>, sel: SelArg)
    | Get(id: string)
      /** REQUEST; `data` is None when the member is missing or null. */
    | Request(id: string, stamp: int, data: Option<RequestData>)
    | Found(id: string, stamp: int)
      /** INITIATE with the references of the link's node. */
    | Initiate(id: string, refs: map<string, Refs.Ref>)
    | Abort(id: string, stamp: int, allClients: bool)
    | Update(id: string, newId: string)
    | Resize
    | Sync(url: string)
    | Register
    | OtherTask(task: string)

  /** The `task` string of a message. */
  function TaskName(m: Msg): string {
    match m
    case ConceptNew(_) => "CONCEPT-NEW"
    case ConceptUpdate(_) => "CONCEPT-UPDATE"
    case ConceptDelete(_) => "CONCEPT-DELETE"
    case LinkNew(_) => "CONCEPT-LINK-NEW"
    case LinkUpdate(_) => "CONCEPT-LINK-UPDATE"
    case LinkDelete(_) => "CONCEPT-LINK-DELETE"
    case UpdateRefs(r, _, _, _) => if r then "CONCEPT-LINK-UPDATE-REFS" else "CONCEPT-UPDATE-REFS"
    case SelectionUpdate(_) => "CONCEPT-SELECTION-UPDATE"
    case GetFound(_, _, _, _) => "GET-FOUND"
    case Get(_) => "GET"
    case Request(_, _, _) => "REQUEST"
    case Found(_, _) => "FOUND"
    case Initiate(_, _) => "INITIATE"
    case Abort(_, _, _) => "ABORT"
    case Update(_, _) => "UPDATE"
    case Resize => "RESIZE"
    case Sync(_) => "SYNC"
    case Register => "REGISTER"
    case OtherTask(t) => t
  }

  /** WebSocket ready states. */
  const CONNECTING: int := 0
  const OPEN: int := 1

  /** A client's `links_socket`: null, the 0 its send path stores after a
      failure, or a WebSocket in some ready state. */
  datatype Socket = NoSocket | Failed | Ws(readyState: int)

  /** A message as it travels through local storage: the task and the
      `from_server` mark the relay puts on what it redistributes. */
  datatype Envelope = Envelope(msg: Msg, fromServer: bool)
}
