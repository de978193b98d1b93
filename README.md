# Hidden Content: a Dafny model of the link relay and the concept graph

Hidden Content links the same concept across several applications. It
highlights the places where a concept appears, in browser tabs and in
other windows, including places that are scrolled away or covered. Two
parts make this work:

- **The concept-graph clients.** These are a Firefox add-on and a
  stand-alone graph page. Each holds a replica of a store of concepts and
  of relations between them, plus a selection.
  - Every edit made locally is sent to the other replicas.
  - Every edit received is applied with sending switched off, so edits
    do not echo back and forth.
  - A relay page takes over when there is no server. It passes messages
    from tab to tab through local storage.
- **The C++ link relay.** It keeps one hyper-edge per link that is being
  searched.
  - It asks every connected client (with REQUEST) where the link's
    target appears.
  - It collects the regions that come back (with FOUND).
  - It matches each client to a window on the desktop.
  - It watches the window list and reacts only once the list has settled.

This project models the core of both parts in Dafny and proves what that
code promises. The parts modelled:

| module | what it models |
|---|---|
| `ConceptGraph` | the replicated store |
| `References` | how a selection on a page is merged into a concept's references, and the favicon fallback |
| `AppClient` | the graph page's request queue, active links, send path and reconnect countdown |
| `BrowserServer` | the stand-alone relay's message filter |
| `Search` | the graph page's search |
| `FirefoxClient` | the add-on's sockets, control queue, route table, REQUEST de-duplication and the `<area coords>` parser |
| `IpcServer` | INITIATE/FOUND handling and region parsing in the relay |
| `ClientInfo` | client-to-window matching and dirty flags |
| `WindowMonitor` | window lookups and the debounce |
| `LinkDescriptionH`, `LinkDescriptionCpp` | the two versions of the hyper-edge and node containers |
| `JsonCodec` | the JSON codecs |
| `StaticCore` | the component registry |
| `Configurable` | typed parameter dispatch |
| `QxtWindowSystemX11` | the escape filter for window titles |
| `QtGeometry` | Qt's integer rectangles |
| `Protocol` | the wire messages |
| `Common` | shared string and sequence helpers |

Modelling conventions:

- **Code that changes state in place** is a `class`. Each method is
  specified by a function of the old state. This covers the store, the
  clients, the relay, the client records, the window monitor, the
  containers and the component registry.
- **Pure code** is made of functions and lemmas. This covers the codecs,
  the search, the reference merge, the title filter and the dispatch.
- **Loops in the source** are `while` loops proved against those
  functions.
- **Timers and sockets** are explicit steps and recorded effects.
- **Calls into code outside this repository** are parameters. These
  include Qt's conversions, the window system, the ping result and the
  base-domain lookup.

Where the two link-description files differ, each is modelled as written.
`include/linkdescription.h` stores nodes by value;
`components/tools/linkdescription.cpp` shares node pointers.

`ClientInfo.cxx` uses a `MATCH` dirty flag that `ClientInfo.hxx` does not
declare. It is modelled as one more flag, with its own bit.

Behaviour of the source that the model keeps as written:

- `addConcept` turns only the first `:` of an id into `_`.
- `updateRelation` and the REFS branch of the message handler look up the unsorted `nodes.join(':')`.
- `removeReference` fires an update even when the URL was not there.
- `clear` keeps the cached selection projections.
- The request-queue drain tests `request_queue.size`, which an array does not have, so the drain timer is never re-armed.
- In the add-on, an UPDATE whose new id equals its old id deletes the route.
- A control queue opened before the socket failed is never flushed.
- An area circle uses its radius as both width and height, and a circle without a readable radius keeps NaN.
- The `Node(hedge)` constructor of `include/linkdescription.h` does not make the node the edge's parent.
- The relay's REQUEST text escapes only quotes in the link id.
- The add-on's REQUEST handler reads `msg.data.refs` without a guard, so a REQUEST without `data` schedules no search.

## Model

| member | source | states |
|---|---|---|
| ConceptGraph.Fire | addons/firefox/src/content/ConceptGraph.js:765-770 | a fired event changes nothing but the recorded events (recorded only when a handler is registered) |
| ConceptGraph.Post | addons/firefox/src/content/ConceptGraph.js:133-137 | the `if( send_msg ) send(m)` step changes nothing but the outbox |
| ConceptGraph.FireAllOnlyEvents | addons/firefox/src/content/ConceptGraph.js:765-770 | firing a run of events changes only `events`, by at most one entry per event |
| ConceptGraph.NormalizeId | addons/firefox/src/content/ConceptGraph.js:114-116 | the concept key has the length of the trimmed id |
| ConceptGraph.NormalizeIdReplacesFirstColonOnly | addons/firefox/src/content/ConceptGraph.js:114-116 | only the first ':' of the trimmed, lower-cased id becomes '_'; the key still reads as a relation id exactly when a second ':' follows |
| ConceptGraph.Copied | addons/firefox/src/content/ConceptGraph.js:35-42 | `new Concept(cfg)` copies exactly the properties that are not prototype method names, with their values |
| ConceptGraph.NewConcept | addons/firefox/src/content/ConceptGraph.js:125-128 | the new concept carries the rewritten id, the rewritten name and the references of its configuration |
| ConceptGraph.InsertConcept | addons/firefox/src/content/ConceptGraph.js:130 | `concepts.set` of a new key appends it to the insertion order and keeps the store well-formed |
| ConceptGraph.AddNewConcept | addons/firefox/src/content/ConceptGraph.js:125-139 | storing a new concept: exact new maps and orders, `concept-new` fired iff a handler is registered, the rewritten configuration sent iff `send_msg` |
| ConceptGraph.AddConceptSpec | addons/firefox/src/content/ConceptGraph.js:112-140 | addConcept succeeds exactly when the normalised id is new; on failure nothing changes; without `send_msg` nothing is sent |
| ConceptGraph.AddConceptStores | addons/firefox/src/content/ConceptGraph.js:114-139 | a new concept is stored under the normalised id with name `(name \|\| id).trim()`, appended to the order, `concept-new` fired, the rewritten cfg sent; relations and selection untouched |
| ConceptGraph.AddNewConceptStores | addons/firefox/src/content/ConceptGraph.js:125-131 | the stored concept has the rewritten id, name and references |
| ConceptGraph.Overlay | addons/firefox/src/content/ConceptGraph.js:157-166 | writing a set of properties over an object: new keys and values exactly as written |
| ConceptGraph.Patched | addons/firefox/src/content/ConceptGraph.js:157-166 | the properties after an update: every changed property takes the new value, every other keeps the old |
| ConceptGraph.ConceptPatch | addons/firefox/src/content/ConceptGraph.js:159 | updateConcept never compares or writes `id` |
| ConceptGraph.RelationPatch | addons/firefox/src/content/ConceptGraph.js:273-274 | updateRelation never compares or writes `id` or `nodes` |
| ConceptGraph.PatchedIsFixpoint | addons/firefox/src/content/ConceptGraph.js:157-166 | once a patch is applied, applying it again changes no property |
| ConceptGraph.UpdateConceptSpec | addons/firefox/src/content/ConceptGraph.js:145-181 | updateConcept reports true exactly for a known id that is forced, gets new refs or has a property change; then the concept's properties become the patched ones, its refs the new refs if given, the update is sent iff `send_msg`, and every other concept, relation and the selection stay; false leaves the store unchanged |
| ConceptGraph.UpdateConceptTwiceIsNoop | addons/firefox/src/content/ConceptGraph.js:156-169 | the same patch applied twice: the second call returns false, fires nothing and sends nothing |
| ConceptGraph.ArgIds | addons/firefox/src/content/ConceptGraph.js:396 | the ids of the argument form a set (no duplicates) |
| ConceptGraph.ToggleAll | addons/firefox/src/content/ConceptGraph.js:402-411 | `toggle` keeps the selection free of duplicates |
| ConceptGraph.UnsetAll | addons/firefox/src/content/ConceptGraph.js:412-416 | `unset` leaves exactly the selected ids that were not named |
| ConceptGraph.ToggleAllFlips | addons/firefox/src/content/ConceptGraph.js:402-411 | after `toggle` an id is selected exactly when it was selected or toggled, not both |
| ConceptGraph.NewSelection | addons/firefox/src/content/ConceptGraph.js:398-418 | every action leaves a selection without duplicates |
| ConceptGraph.RemovedEvents | addons/firefox/src/content/ConceptGraph.js:426-431 | `selection-remove` fires exactly for the previous ids no longer selected, with their kind |
| ConceptGraph.AddedEvents | addons/firefox/src/content/ConceptGraph.js:433-438 | `selection-add` fires exactly for the current ids not previously selected, with their kind |
| ConceptGraph.UpdateSelectionSpec | addons/firefox/src/content/ConceptGraph.js:391-455 | updateSelection sets the selection the action computes and leaves concepts, relations and their orders alone; when it reports no change only the selection (order) may differ |
| ConceptGraph.UpdateSelectionUnfold | addons/firefox/src/content/ConceptGraph.js:426-454 | a change resets the memoised projections, fires `selection-change` and sends the new selection; no change returns false after the per-id events |
| ConceptGraph.UpdateSelectionReportsChange | addons/firefox/src/content/ConceptGraph.js:426-441 | updateSelection returns true exactly when some id entered or left the selection |
| ConceptGraph.SelectionEventsIffChange | addons/firefox/src/content/ConceptGraph.js:426-438 | some per-id selection event fires exactly when the old and new selections differ as sets |
| ConceptGraph.SetSelectionIdempotent | addons/firefox/src/content/ConceptGraph.js:398-441 | `set` with the same ids twice: the second call returns false, fires nothing, sends nothing |
| ConceptGraph.InsertRelation | addons/firefox/src/content/ConceptGraph.js:245 | `relations.set` of a new key appends it to the order and keeps the store well-formed |
| ConceptGraph.NewRelation | addons/firefox/src/content/ConceptGraph.js:240-243 | the new relation has the sorted nodes, the joined id and the configuration's references |
| ConceptGraph.AddNewRelation | addons/firefox/src/content/ConceptGraph.js:240-254 | storing a new relation: exact new map and order, `relation-new` fired iff a handler is registered, only the sorted nodes sent |
| ConceptGraph.AddRelationSpec | addons/firefox/src/content/ConceptGraph.js:214-255 | addRelation succeeds exactly when both sorted nodes are known concepts and the joined id is new; on failure nothing changes |
| ConceptGraph.AddRelationStores | addons/firefox/src/content/ConceptGraph.js:216-254 | an accepted relation is stored under the sorted, joined id with the sorted nodes (a permutation of the given ones); other relations, concepts and the selection are untouched |
| ConceptGraph.GetRelationForConceptsSymmetric | addons/firefox/src/content/ConceptGraph.js:633-638 | getRelationForConcepts(a, b) equals getRelationForConcepts(b, a) |
| ConceptGraph.AddedRelationIsFound | addons/firefox/src/content/ConceptGraph.js:633-638 | the relation addRelation({nodes: [a, b]}) creates is found by getRelationForConcepts in both argument orders |
| ConceptGraph.UpdateRelationSpec | addons/firefox/src/content/ConceptGraph.js:260-295 | updateRelation reports true exactly for a known relation key with a change or new refs; then its properties become the patched ones, its nodes stay, its refs become the new refs if given, the update is sent iff `send_msg`, and everything else stays; false leaves the store unchanged |
| ConceptGraph.UpdateRelationNeedsSortedNodes | addons/firefox/src/content/ConceptGraph.js:262 | an update naming the nodes in the opposite order of the stored id finds nothing and changes nothing |
| ConceptGraph.RemoveRelationSpec | addons/firefox/src/content/ConceptGraph.js:300-316 | removeRelation succeeds exactly for a known id; the relation is gone and no longer selected; concepts untouched; the selection only shrinks |
| ConceptGraph.RemoveRelationsOf | addons/firefox/src/content/ConceptGraph.js:192-196 | the removal loop deletes exactly the visited relations that name the concept, keeps every other relation unchanged, and drops exactly those deleted ids from the selection |
| ConceptGraph.DropConcept | addons/firefox/src/content/ConceptGraph.js:198-206 | the concept is deleted and unselected; relations untouched; the selection only shrinks |
| ConceptGraph.RemoveConceptSpec | addons/firefox/src/content/ConceptGraph.js:186-209 | removeConcept succeeds exactly for a known id; then the concept set loses exactly that id, relations that do not name it survive unchanged, and the selection loses the id and the ids of the removed relations; on failure nothing changes |
| ConceptGraph.RemoveConceptLeavesNoDanglingRelation | addons/firefox/src/content/ConceptGraph.js:186-209 | after removeConcept the other concepts stay, a relation remains exactly when it did not name the concept and then unchanged, and the selection loses exactly the concept and the removed relations |
| ConceptGraph.GetByIdSpec | addons/firefox/src/content/ConceptGraph.js:622-628 | getById finds a relation exactly for an id with ':' |
| ConceptGraph.WithRefs | addons/firefox/src/content/ConceptGraph.js:367-368 | replacing an element's references changes no key and keeps the store well-formed |
| ConceptGraph.IconDelivered | addons/firefox/src/content/ConceptGraph.js:333-352 | the completion callback only fires the update event and sends the reference |
| ConceptGraph.AddReferenceSpec | addons/firefox/src/content/ConceptGraph.js:321-353 | addReference finds no element exactly when getById does; a missing element or a refused reference changes nothing; keys and selection never change |
| ConceptGraph.CompleteIconSpec | addons/firefox/src/content/ConceptGraph.js:333-352 | a delivered favicon removes exactly that pending entry; nothing is sent for a reference added without `send_event` |
| ConceptGraph.RemoveReferenceSpec | addons/firefox/src/content/ConceptGraph.js:358-384 | removeReference returns true exactly when the element exists; otherwise nothing changes |
| ConceptGraph.RemoveAbsentReferenceFires | addons/firefox/src/content/ConceptGraph.js:367-372 | removing a URL that has no entry still fires `concept-update` and leaves the concepts unchanged |
| ConceptGraph.GetIdsSpec | addons/firefox/src/content/ConceptGraph.js:469-477 | getIds holds exactly the concept and relation ids |
| ConceptGraph.ColonConceptShadowedByRelation | addons/firefox/src/content/ConceptGraph.js:622-628 | a concept whose key still holds ':' is hidden by the relation of the same id |
| ConceptGraph.SelectedIdSpec | addons/firefox/src/content/ConceptGraph.js:507-513 | getSelectedId answers an id exactly when one id is selected, and then that id |
| ConceptGraph.SelectedConceptSpec | addons/firefox/src/content/ConceptGraph.js:518-525 | getSelectedConcept answers only the concept of the single selected non-relation id |
| ConceptGraph.SelectedRelationSpec | addons/firefox/src/content/ConceptGraph.js:530-537 | getSelectedRelation answers only the relation of the single selected relation id |
| ConceptGraph.ClearSpec | addons/firefox/src/content/ConceptGraph.js:640-645 | clear empties concepts, relations and selection but keeps the memoised projections |
| ConceptGraph.SelectedConceptIdsSpec | addons/firefox/src/content/ConceptGraph.js:542-555 | without a memo the answer is the selected concept ids in order; the answer is memoised; nothing else changes |
| ConceptGraph.SelectedRelationIdsSpec | addons/firefox/src/content/ConceptGraph.js:574-587 | without a memo the answer is the selected relation ids in order; the answer is memoised; nothing else changes |
| ConceptGraph.SelectionChangeResetsMemo | addons/firefox/src/content/ConceptGraph.js:443-444 | after a selection change getSelectedConceptIds answers the new selection's concept ids |
| ConceptGraph.ClearKeepsStaleMemo | addons/firefox/src/content/ConceptGraph.js:640-645 | after clear the selection is empty yet getSelectedConceptIds still answers the old memo |
| ConceptGraph.OnSpec | addons/firefox/src/content/ConceptGraph.js:94-107 | on() registers the callback for every given type, replacing earlier ones, and keeps the other handlers |
| ConceptGraph.OnReplaces | addons/firefox/src/content/ConceptGraph.js:100-103 | registering a second callback for a type replaces the first |
| ConceptGraph.AddConcepts | addons/firefox/src/content/ConceptGraph.js:707-708 | adding the GET-FOUND concepts keeps the store well-formed and sends nothing |
| ConceptGraph.AddRelations | addons/firefox/src/content/ConceptGraph.js:726-727 | adding the GET-FOUND relations keeps the store well-formed, sends nothing, leaves the selection |
| ConceptGraph.HandleRefsSpec | addons/firefox/src/content/ConceptGraph.js:683-699 | the REFS branch rejects exactly an unknown `cmd` (changing nothing) and never sends |
| ConceptGraph.HandleMessageSpec | addons/firefox/src/content/ConceptGraph.js:647-733 | handleMessage keeps the store well-formed, never sends, and a rejected message changes nothing |
| ConceptGraph.HandleMessageRecognises | addons/firefox/src/content/ConceptGraph.js:647-733 | handleMessage answers false exactly for an unknown REFS command, a GET-FOUND of another id, and every task it does not handle |
| ConceptGraph.ApplyPatch | addons/firefox/src/content/ConceptGraph.js:156-166 | the property loop writes exactly the changed properties and reports whether any was written |
| ConceptGraph.Store.constructor | addons/firefox/src/content/ConceptGraph.js:15-30 | a new graph is empty |
| ConceptGraph.Store.CallHandler | addons/firefox/src/content/ConceptGraph.js:765-770 | `_callHandler` records the event as Fire states |
| ConceptGraph.Store.SendIf | addons/firefox/src/content/ConceptGraph.js:133-137 | sends exactly as Post states |
| ConceptGraph.Store.On | addons/firefox/src/content/ConceptGraph.js:94-107 | the handlers become those of OnSpec |
| ConceptGraph.Store.AddConcept | addons/firefox/src/content/ConceptGraph.js:112-140 | the new state and result are those of AddConceptSpec |
| ConceptGraph.Store.StoreConcept | addons/firefox/src/content/ConceptGraph.js:130 | the store becomes InsertConcept of the old one |
| ConceptGraph.Store.UpdateConcept | addons/firefox/src/content/ConceptGraph.js:145-181 | the new state and result are those of UpdateConceptSpec, including the patched properties |
| ConceptGraph.Store.ApplyAction | addons/firefox/src/content/ConceptGraph.js:398-418 | the selection becomes the one NewSelection computes; nothing else changes |
| ConceptGraph.Store.FireRemoved | addons/firefox/src/content/ConceptGraph.js:426-431 | the loop fires RemovedEvents in order and reports whether it fired any |
| ConceptGraph.Store.FireRemovedAt | addons/firefox/src/content/ConceptGraph.js:426-431 | one round fires `selection-remove` for `prev[j]` exactly when it left the selection, as RemovedEvents says |
| ConceptGraph.Store.FireAdded | addons/firefox/src/content/ConceptGraph.js:433-438 | the loop fires AddedEvents in order and reports whether it fired any |
| ConceptGraph.Store.FireAddedAt | addons/firefox/src/content/ConceptGraph.js:433-438 | one round fires `selection-add` for `cur[j]` exactly when it is new, as AddedEvents says |
| ConceptGraph.Store.UpdateSelection | addons/firefox/src/content/ConceptGraph.js:391-455 | the new state and result are those of UpdateSelectionSpec |
| ConceptGraph.Store.ClearSelectionCache | addons/firefox/src/content/ConceptGraph.js:443-444 | only the two memos become null |
| ConceptGraph.Store.RemoveRelation | addons/firefox/src/content/ConceptGraph.js:300-316 | the new state and result are those of RemoveRelationSpec |
| ConceptGraph.Store.RemoveRelationsNaming | addons/firefox/src/content/ConceptGraph.js:192-196 | the loop leaves the state RemoveRelationsOf computes: the relations naming the concept gone, the others unchanged, their ids out of the selection |
| ConceptGraph.Store.RemoveConcept | addons/firefox/src/content/ConceptGraph.js:186-209 | the new state and result are those of RemoveConceptSpec, with the surviving relations and the selection eviction it states |
| ConceptGraph.Store.Remove | addons/firefox/src/content/ConceptGraph.js:460-464 | remove() is removeRelation for an id with ':', otherwise removeConcept, both with sending on |
| ConceptGraph.Store.AddRelation | addons/firefox/src/content/ConceptGraph.js:214-255 | the new state and result are those of AddRelationSpec |
| ConceptGraph.Store.UpdateRelation | addons/firefox/src/content/ConceptGraph.js:260-295 | the new state and result are those of UpdateRelationSpec, including the patched properties and the result condition |
| ConceptGraph.Store.StoreRelation | addons/firefox/src/content/ConceptGraph.js:279 | only the one relation entry is replaced |
| ConceptGraph.Store.StoreRefs | addons/firefox/src/content/ConceptGraph.js:367-368 | only the element's references change, as WithRefs states |
| ConceptGraph.Store.DeliverIcon | addons/firefox/src/content/ConceptGraph.js:333-352 | the completion callback, as IconDelivered states |
| ConceptGraph.Store.DeliverOrWait | addons/firefox/src/content/ConceptGraph.js:333-352 | the completion runs at once for an encoded icon, otherwise the reference joins the pending list |
| ConceptGraph.Store.AddReference | addons/firefox/src/content/ConceptGraph.js:321-353 | the new state and outcome are those of AddReferenceSpec |
| ConceptGraph.Store.CompleteIcon | addons/firefox/src/content/ConceptGraph.js:333-352 | the new state is that of CompleteIconSpec |
| ConceptGraph.Store.RemoveReference | addons/firefox/src/content/ConceptGraph.js:358-384 | the new state and result are those of RemoveReferenceSpec |
| ConceptGraph.Store.GetIds | addons/firefox/src/content/ConceptGraph.js:469-477 | answers GetIdsSpec of the store |
| ConceptGraph.Store.SelectedConceptIds | addons/firefox/src/content/ConceptGraph.js:542-555 | new state and answer are those of SelectedConceptIdsSpec |
| ConceptGraph.Store.SelectedRelationIds | addons/firefox/src/content/ConceptGraph.js:574-587 | new state and answer are those of SelectedRelationIdsSpec |
| ConceptGraph.Store.Clear | addons/firefox/src/content/ConceptGraph.js:640-645 | the new state is ClearSpec of the old one |
| ConceptGraph.Store.AddAllConcepts | addons/firefox/src/content/ConceptGraph.js:707-708 | the loop leaves the state AddConcepts computes |
| ConceptGraph.Store.AddAllRelations | addons/firefox/src/content/ConceptGraph.js:726-727 | the loop leaves the state AddRelations computes |
| ConceptGraph.Store.HandleRefs | addons/firefox/src/content/ConceptGraph.js:683-699 | the new state and result are those of HandleRefsSpec |
| ConceptGraph.Store.HandleMessage | addons/firefox/src/content/ConceptGraph.js:647-733 | the new state and result are those of HandleMessageSpec |
| References.RangesOf | addons/firefox/src/content/utils.js:90-92 | the recorded ranges are never empty: the given ones when there are some, otherwise the whole document |
| References.MergeReference | addons/firefox/src/content/utils.js:75-82 | the merge is refused exactly when the URL is missing or empty |
| References.MergeReferenceRules | addons/firefox/src/content/utils.js:84-95 | the entry is keyed by the URL, an existing entry is extended and never replaced, other entries are untouched, exactly one selection is appended, a given title or icon overwrites the stored one and a missing title is back-filled from it |
| References.MergeTwiceAppendsTwice | addons/firefox/src/content/utils.js:84-95 | adding the same reference twice keeps the same keys and only appends the selection again |
| References.LastSegment | addons/firefox/src/content/utils.js:64 | the part after the last '/' holds no '/' and is a suffix of the URL |
| References.Stem | addons/firefox/src/content/utils.js:65 | the part before the first '.' holds no '.', is a prefix of the segment and is followed by '.' when shorter |
| References.LastThree | addons/firefox/src/content/utils.js:66 | `substr(-3)` keeps the last three characters, or all of a shorter text |
| References.FileIconText | addons/firefox/src/content/utils.js:63-66 | the icon text of a local file has at most three characters and no '/' or '.' |
| References.LastSegmentAfterSlash | addons/firefox/src/content/utils.js:64 | the directory before the last '/' does not affect the segment |
| References.StemBeforeDot | addons/firefox/src/content/utils.js:65 | the stem of name.ext is name |
| References.FileIconTextOfName | addons/firefox/src/content/utils.js:63-66 | for dir/name.ext the icon text is the last three characters of name, whatever the directory |
| References.IconText | addons/firefox/src/content/utils.js:60-67 | a local file gets its file-name text; a web page gets the upper-cased first character of its base domain, and an empty base domain raises an error |
| References.IconTextWithoutHost | addons/firefox/src/content/myjs.js:22-25 | a page with neither host nor title gets "L", from "localhost" |
| References.ImmediateImage | addons/firefox/src/content/utils.js:10-17 | an icon that already is a base64 PNG data URL is returned at once and unchanged; any other waits for the image to load |
| References.AddReference | addons/firefox/src/content/utils.js:75-105 | a missing URL is refused; otherwise the merge happens first, a failing icon text leaves the merged table behind, and success delivers the short-circuited icon at once |
| References.CompleteIcon | addons/firefox/src/content/utils.js:97-102 | the icon completion changes only the icon of the reference's entry and keeps every key |
| References.ShortCircuitIconIsStored | addons/firefox/src/content/utils.js:10-17 | a data-URL icon delivered at once is the icon already stored, so the completion changes nothing |
| AppClient.SendSpec | addons/concept-graph/app.js:281-308 | standalone the message goes to local storage only; otherwise it is sent exactly when the socket is open; a missing socket becomes the failed value 0; nothing else changes |
| AppClient.Decide | addons/concept-graph/app.js:339-353 | only a `link://concept/` id waits for a later retry; any other id resolves or is dropped |
| AppClient.RequestResolvesAfterConceptNew | addons/concept-graph/app.js:339-347 | after addConcept, a waiting request for the link to the new (normalised, colon-free) id resolves |
| AppClient.AddLink | addons/concept-graph/app.js:355 | `Set.add`: the members become the old ones plus the id, the old order is kept and no duplicate is created |
| AppClient.HandleRequestSpec | addons/concept-graph/app.js:339-388 | handleRequest reports done exactly when the request does not wait; a resolved request becomes an active link and one FOUND with its id and stamp is sent; otherwise nothing changes |
| AppClient.Retained | addons/concept-graph/app.js:407-416 | the requests kept are exactly those that still wait |
| AppClient.RetainedInOrder | addons/concept-graph/app.js:407-416 | the kept requests stay in their original relative order |
| AppClient.DrainStep | addons/concept-graph/app.js:411-415 | one loop round handles entry i-1 (which becomes an active link when it resolves) and leaves the timers alone |
| AppClient.DrainStepSplices | addons/concept-graph/app.js:411-415 | the round splices entry i-1 out exactly when it does not wait, keeping the other entries in order |
| AppClient.DrainFrom | addons/concept-graph/app.js:409-416 | the backwards loop never touches the timers or the connection flag |
| AppClient.DrainKeepsLinks | addons/concept-graph/app.js:409-416 | the drain never drops an active link |
| AppClient.DrainKeepsWaiting | addons/concept-graph/app.js:409-416 | splicing while walking backwards keeps exactly the waiting requests of the visited prefix, in order, and the rest untouched |
| AppClient.DrainActivatesResolved | addons/concept-graph/app.js:409-416 | every visited request that resolves is an active link after the loop |
| AppClient.DrainOfWaitingIsNoop | addons/concept-graph/app.js:409-416 | a queue of requests that all wait is left unchanged |
| AppClient.CheckRequestQueueRules | addons/concept-graph/app.js:407-420 | after checkRequestQueue the queue is exactly the waiting requests in order, the drain timer is null (`request_queue.size` is undefined on an array) and a second run changes nothing |
| AppClient.OnRequestQueuesWaiting | addons/concept-graph/app.js:248-255 | an inbound REQUEST that waits is appended to the queue; any other leaves the queue as it was |
| AppClient.OnUnhandledSpec | addons/concept-graph/app.js:200-262 | for a message the store rejects: an ABORT removes exactly its link and keeps the queue; a REQUEST is handled or queued; any other leaves the page as it was |
| AppClient.OnMessageSpec | addons/concept-graph/app.js:187-263 | whatever message arrives and whatever the handlers do, the store stays well-formed |
| AppClient.SendInitiateSpec | addons/concept-graph/app.js:976-984 | the INITIATE for the node's link, carrying the node's refs or `{}`, goes out through `send`; then the link is active, nothing else joins and no duplicate appears |
| AppClient.AbortLinkSpec | addons/concept-graph/app.js:986-995 | an ABORT of the link with stamp 0 and scope `all` goes out through `send`; then exactly that link leaves the active links; nothing else changes |
| AppClient.AbortAllRemoves | addons/concept-graph/app.js:997-1001 | aborting a list of links removes exactly those links |
| AppClient.AbortAllEmpties | addons/concept-graph/app.js:997-1001 | abortAllLinks leaves no active link |
| AppClient.OnGraphEvent | addons/concept-graph/app.js:45-66 | the handlers change the links exactly so: `selection-remove` of a concept aborts its link; with `auto-link` on, `selection-add` of a concept and `concept-update` of a selected concept initiate its link; `selection-add` of an unknown concept id throws and changes nothing; queue and drain timer stay |
| AppClient.FireReacting | addons/firefox/src/content/ConceptGraph.js:765-770 | each fired event is followed by its registered handler; the store changes only in its recorded events; a throw ends the loop and needs `auto-link` and a `selection-add` of an unknown concept |
| AppClient.FireReactingFires | addons/firefox/src/content/ConceptGraph.js:765-770 | without a throw the store ends exactly where firing the events alone leaves it |
| AppClient.LinkStaysAborted | addons/concept-graph/app.js:57-66 | a link that no event initiates stays inactive, and a `selection-remove` of its concept makes it inactive |
| AppClient.LinkStaysActive | addons/concept-graph/app.js:57-66 | a link that no event aborts stays active and, with `auto-link` on, a `selection-add` of its concept makes it active |
| AppClient.LinksOnlyShrink | addons/concept-graph/app.js:57-66 | with `auto-link` off the handlers never add a link |
| AppClient.SetSelectionReacting | addons/firefox/src/content/ConceptGraph.js:391-455 | `updateSelection('set', arg, false)` with the page's handlers: the selection becomes the argument's ids and the store changes only in selection, cached projections and events; a throw needs `auto-link` and a newly selected unknown concept id |
| AppClient.SetSelectionAgreesWithStore | addons/firefox/src/content/ConceptGraph.js:391-455 | without a throw the store ends exactly as the store's own `updateSelection` leaves it |
| AppClient.SetSelectionAborts | addons/concept-graph/app.js:62-66 | a concept that leaves the selection loses its link |
| AppClient.SetSelectionInitiates | addons/concept-graph/app.js:57-61 | with `auto-link` on, a concept that joins the selection gets its link |
| AppClient.SetSelectionKeeps | addons/concept-graph/app.js:57-66 | the link of a concept that stays selected stays active |
| AppClient.SetSelectionOnlyAborts | addons/concept-graph/app.js:57-66 | with `auto-link` off, selecting never adds a link |
| AppClient.OnStoreEvent | addons/concept-graph/app.js:11-70 | `concept-new` re-arms the 200 ms drain and selects the new concept; `relation-new` selects the new relation; the queue is untouched and, with `auto-link` off, nothing throws |
| AppClient.ReactAll | addons/concept-graph/app.js:11-86 | the handlers of the fired events, in order, keep the store well-formed, change it only in selection and events, and leave the queue |
| AppClient.AddConceptsReacting | addons/firefox/src/content/ConceptGraph.js:707-708 | the GET-FOUND concepts added one by one with the handlers keep the store well-formed; with `auto-link` off nothing throws |
| AppClient.AddRelationsReacting | addons/firefox/src/content/ConceptGraph.js:726-727 | the GET-FOUND relations added one by one with the handlers keep the store well-formed; with `auto-link` off nothing throws |
| AppClient.AddConceptIgnoresSelection | addons/firefox/src/content/ConceptGraph.js:112-140 | adding a concept gives the same store whatever the selection and the events were |
| AppClient.AddRelationIgnoresSelection | addons/firefox/src/content/ConceptGraph.js:214-255 | adding a relation gives the same store whatever the selection and the events were |
| AppClient.AddConceptsReactingAgrees | addons/firefox/src/content/ConceptGraph.js:707-708 | without a throw the concepts end as `handleMessage` alone adds them |
| AppClient.AddRelationsReactingAgrees | addons/firefox/src/content/ConceptGraph.js:726-727 | without a throw the relations end as `handleMessage` alone adds them |
| AppClient.OnStoreMessage | addons/concept-graph/app.js:187-263 | the store ends as `handleMessage` leaves it up to the selection; a rejected message goes to the page's own branches and leaves the store; with `auto-link` off it throws exactly when the store throws; an accepted message leaves the queue |
| AppClient.GetFoundReacting | addons/firefox/src/content/ConceptGraph.js:705-730 | a GET-FOUND of `/concepts/all` keeps the store well-formed, never throws with `auto-link` off, and without a throw ends with the sent selection |
| AppClient.OnMessageAgreesWithStore | addons/concept-graph/app.js:187-263 | apart from GET-FOUND the store ends as `handleMessage` alone leaves it up to the selection, and exactly so for a SELECTION-UPDATE that does not throw; a rejected message reaches the page's own branches; with `auto-link` off only the store throws |
| AppClient.GetFoundAgreesWithStore | addons/firefox/src/content/ConceptGraph.js:705-730 | a GET-FOUND of `/concepts/all` that does not throw leaves the concepts, relations and selection as `handleMessage` alone does |
| AppClient.ConceptNewAccepted | addons/firefox/src/content/ConceptGraph.js:649-654 | `handleMessage` accepts a CONCEPT-NEW and adds its concept without sending |
| AppClient.ConceptNewStored | addons/firefox/src/content/ConceptGraph.js:112-140 | a CONCEPT-NEW for a new id adds the concept and fires exactly one `concept-new` event, whose handler then runs |
| AppClient.OnMessageByStore | addons/concept-graph/app.js:190 | every message but SELECTION-UPDATE and GET-FOUND goes to the store first |
| AppClient.ConceptNewHandled | addons/concept-graph/app.js:36-43 | the `concept-new` handler re-arms the drain, selects the new concept and does not throw |
| AppClient.ConceptNewSelectsIt | addons/concept-graph/app.js:11-66 | a CONCEPT-NEW for a new id selects exactly that concept, aborts the links of the concepts selected before, re-arms the 200 ms drain and, with `auto-link` on, initiates the new concept's link; nothing throws |
| AppClient.CountdownStepSpec | addons/concept-graph/app.js:121-140 | standalone nothing happens; otherwise exactly one timer is scheduled and the socket and outbox are unchanged |
| AppClient.Countdown | addons/concept-graph/app.js:121-140 | the countdown from t shows t/1000 notices, the i-th being round((t-1000i)/1000) >= 1, and starts after t mod 1000 ms |
| AppClient.CountdownStepFollowsChain | addons/concept-graph/app.js:121-140 | one call shows the first second count and schedules the rest of the chain, or schedules `start(true)` after the remainder |
| AppClient.PingRetryCountdown | addons/concept-graph/app.js:121-161 | after a failed ping the user sees 5, 4, 3, 2, 1 and the server is pinged again 442 ms later |
| AppClient.StartOpensOnlyUnchecked | addons/concept-graph/app.js:142-170 | only `start(false)` opens a socket; a checked start standalone schedules nothing |
| AppClient.StopSpec | addons/concept-graph/app.js:266-279 | stop leaves no socket; standalone it asks for `/concepts/all` through local storage; connected it sends nothing |
| AppClient.NodeSize | addons/concept-graph/app.js:430-436 | a node is 16 high and at least 12 wide in steps of 4; 16 wide with an icon or without a name |
| AppClient.NodeWidthGrowsWithName | addons/concept-graph/app.js:433 | without an icon a longer name never gives a narrower node |
| AppClient.App.constructor | addons/concept-graph/app.js:1-5 | the page starts without socket, queue, links or timers |
| AppClient.App.Send | addons/concept-graph/app.js:281-308 | the new state is SendSpec of the old one |
| AppClient.App.HandleRequest | addons/concept-graph/app.js:339-388 | the new state and answer are HandleRequestSpec's |
| AppClient.App.CheckRequestQueue | addons/concept-graph/app.js:407-420 | the loop leaves exactly the state CheckRequestQueueSpec describes |
| AppClient.App.DrainAll | addons/concept-graph/app.js:409-416 | the backwards loop leaves exactly the state DrainFrom gives over the whole queue |
| AppClient.App.DrainOne | addons/concept-graph/app.js:411-415 | one loop round gives DrainStep's state and keeps the rest of the drain what it was |
| AppClient.App.OnSocketMessage | addons/concept-graph/app.js:187-263 | the page and the store end as OnMessageSpec gives, whose properties OnMessageAgreesWithStore and ConceptNewSelectsIt state |
| AppClient.App.GetFoundAll | addons/firefox/src/content/ConceptGraph.js:705-730 | the GET-FOUND branch gives exactly GetFoundReacting |
| AppClient.App.HandleAndReact | addons/concept-graph/app.js:190-263 | `handleMessage` then the handlers, or the page's own branches, give exactly OnStoreMessage |
| AppClient.App.OnUnhandled | addons/concept-graph/app.js:200-262 | the new state is OnUnhandledSpec's |
| AppClient.App.ReactTo | addons/concept-graph/app.js:45-66 | the new state and the throw are OnGraphEvent's |
| AppClient.App.FireAndReact | addons/firefox/src/content/ConceptGraph.js:765-770 | the loop gives exactly FireReacting |
| AppClient.App.SetSelection | addons/firefox/src/content/ConceptGraph.js:391-455 | the page and the store end as SetSelectionReacting gives |
| AppClient.App.ReactToStoreEvent | addons/concept-graph/app.js:11-70 | the page and the store end as OnStoreEvent gives |
| AppClient.App.ReactToAll | addons/concept-graph/app.js:11-86 | the loop gives exactly ReactAll |
| AppClient.App.AddNextConcept | addons/firefox/src/content/ConceptGraph.js:707-708 | one concept and its handlers: a throw ends in the goal state, otherwise the rest of the concepts lead there |
| AppClient.App.AddAllConcepts | addons/firefox/src/content/ConceptGraph.js:707-708 | the loop gives exactly AddConceptsReacting |
| AppClient.App.AddNextRelation | addons/firefox/src/content/ConceptGraph.js:726-727 | one relation and its handlers: a throw ends in the goal state, otherwise the rest of the relations lead there |
| AppClient.App.AddAllRelations | addons/firefox/src/content/ConceptGraph.js:726-727 | the loop gives exactly AddRelationsReacting |
| AppClient.App.SendInitiateForNode | addons/concept-graph/app.js:976-984 | the new state is SendInitiateSpec's |
| AppClient.App.AbortLink | addons/concept-graph/app.js:986-995 | the new state is AbortLinkSpec's |
| AppClient.App.AbortAllLinks | addons/concept-graph/app.js:997-1001 | the loop gives AbortAllSpec over the links as they were, leaving no active link |
| AppClient.App.StartWithCountdownMessage | addons/concept-graph/app.js:121-140 | the new state is CountdownStepSpec's |
| AppClient.App.Start | addons/concept-graph/app.js:142-170 | the new state is StartSpec's |
| AppClient.App.Stop | addons/concept-graph/app.js:266-279 | the new state is StopSpec's |
| BrowserServer.MapToObj | addons/firefox/src/lib/BrowserServer.js:116-122 | `mapToObj` yields one entry per key, in the map's insertion order, carrying that key's value |
| BrowserServer.ConceptsOut | addons/firefox/src/lib/BrowserServer.js:99-107 | each concept entry is serialised to its own properties, in order |
| BrowserServer.RelationsOut | addons/firefox/src/lib/BrowserServer.js:99-108 | each relation entry is serialised to its own properties, in order |
| BrowserServer.StateMessage | addons/firefox/src/lib/BrowserServer.js:97-112 | the state answer is a GET-FOUND for `/concepts/all` holding every concept and relation in insertion order and the selection |
| BrowserServer.StateMessageMirrorsStore | addons/firefox/src/lib/BrowserServer.js:97-112 | every stored concept and relation appears in the state answer |
| BrowserServer.Distribute | addons/firefox/src/lib/BrowserServer.js:52-61 | the message is handed on once, marked `from_server`; the store is untouched |
| BrowserServer.OnStorageChangeSpec | addons/firefox/src/lib/BrowserServer.js:27-50 | another key, a `from_server` message or ABORT/RESIZE/SYNC change nothing; otherwise the relay becomes active; a full-state GET is answered with the state; any other message is handed on exactly when the store accepts it, and the store's new state is handleMessage's |
| BrowserServer.OwnOutputIgnored | addons/firefox/src/lib/BrowserServer.js:33-54 | whatever the relay hands on is ignored when it comes back to the relay |
| BrowserServer.RelayStoreSendsNothing | addons/firefox/src/lib/BrowserServer.js:46 | messages relayed into the store never make the store send |
| BrowserServer.Relay.constructor | addons/firefox/src/lib/BrowserServer.js:9-25 | a new relay has an empty store, is inactive and has handed on nothing |
| BrowserServer.Relay.ConceptEntries | addons/firefox/src/lib/BrowserServer.js:107 | the loop yields the serialised concept entries in insertion order |
| BrowserServer.Relay.RelationEntries | addons/firefox/src/lib/BrowserServer.js:108 | the loop yields the serialised relation entries in insertion order |
| BrowserServer.Relay.GetConceptGraphState | addons/firefox/src/lib/BrowserServer.js:97-112 | answers StateMessage of the store |
| BrowserServer.Relay.DistributeMessage | addons/firefox/src/lib/BrowserServer.js:52-61 | appends the marked message to what was handed on, nothing else |
| BrowserServer.Relay.OnStorageChange | addons/firefox/src/lib/BrowserServer.js:27-50 | the new state is OnStorageChangeSpec's |
| Search.WordEnd | addons/concept-graph/search.js:5 | an unquoted part is the longest run of characters that are neither quote nor white space |
| Search.CloseQuote | addons/concept-graph/search.js:5 | the quoted alternative closes on a quote character, never before the body's start or the last escaped quote taken |
| Search.NextMatch | addons/concept-graph/search.js:5-10 | a match found from a position lies after it, inside the query, and captures a non-empty part |
| Search.Parts | addons/concept-graph/search.js:10-12 | every part the exec loop yields is non-empty |
| Search.UnquotedPartsAreWords | addons/concept-graph/search.js:5 | in a query without quotes no part holds white space or a quote |
| Search.QuotedPhraseIsOnePart | addons/concept-graph/search.js:5 | a quoted phrase is a single part, blanks and backslashes included |
| Search.BlankSeparatesParts | addons/concept-graph/search.js:5 | two words separated by a blank are two parts, in order |
| Search.LinkQueryOf | addons/concept-graph/search.js:13-14 | the link query is what follows "link:" in the last part starting with it, and is absent exactly when no part starts with it |
| Search.NodeQueryOf | addons/concept-graph/search.js:15-16 | the node query is the last part not starting with "link:", and is absent exactly when every part starts with it |
| Search.QueriesSnoc | addons/concept-graph/search.js:12-16 | each new part replaces the link query or the node query and leaves the other as it was |
| Search.Queries | addons/concept-graph/search.js:10-17 | the exec loop ends with exactly the node query and the link query of the query's parts |
| Search.Values | addons/concept-graph/search.js:62 | the values of the map, one per entry, in entry order |
| Search.MapSet | addons/concept-graph/search.js:26 | setting a key adds it to the keys, stores the pair, keeps every other entry and adds nothing else |
| Search.ByName | addons/concept-graph/search.js:23-27 | an entry is kept iff its lower-cased name contains the node query, and kept entries stay in order |
| Search.FilterByName | addons/concept-graph/search.js:23-27 | the node loop returns exactly the entries the name filter keeps |
| Search.Spanning | addons/concept-graph/search.js:54-59 | a link is kept iff both its ends are visible, in input order |
| Search.FilterSpanning | addons/concept-graph/search.js:54-59 | the link loop without a link query returns exactly the spanning links |
| Search.ShowEnds | addons/concept-graph/search.js:47-48 | both ends of a kept link become visible under their own ids |
| Search.ByLabel | addons/concept-graph/search.js:38-50 | a link is kept iff it has a label containing the link query and touches a candidate, in input order; every visible node is keyed by its id |
| Search.FilterByLabel | addons/concept-graph/search.js:33-51 | the link loop with a link query returns exactly the label filter's result |
| Search.ByLabelSpans | addons/concept-graph/search.js:46-49 | both ends of every link the label filter keeps are visible |
| Search.EndsOf | addons/concept-graph/search.js:46-49 | an id is an end of some links exactly when one of them starts or ends there |
| Search.ByLabelShowsOnlyEnds | addons/concept-graph/search.js:33-51 | the label filter shows exactly the ends of the links it keeps |
| Search.ShownAreEnds | addons/concept-graph/search.js:46-62 | every shown node is an end of a kept link |
| Search.EmptyQueryShowsAll | addons/concept-graph/search.js:29-30 | an empty query shows every node and exactly the links between nodes |
| Search.NodeQueryShowsMatches | addons/concept-graph/search.js:19-28 | a node query alone shows exactly the nodes whose name contains it, and only links between shown nodes |
| Search.LinkQueryShowsBothEnds | addons/concept-graph/search.js:33-51 | with a link query every shown link has a matching label and both its ends among the shown nodes, and every shown node is an end of a shown link |
| Search.ShownLinksKeepOrder | addons/concept-graph/search.js:32-62 | the links shown are some of the input links in input order |
| Search.Filter | addons/concept-graph/search.js:2-63 | the filter returns the values of the visible map and the kept links of the specification |
| FirefoxClient.StopSpec | addons/firefox/src/content/myjs.js:1239-1252 | stop marks the client stopped and closes and drops an open socket; nothing else changes |
| FirefoxClient.SendSpec | addons/firefox/src/content/myjs.js:194-217 | a frame goes out exactly when the socket is open; without a socket it becomes 0 and the client stops; a socket that is not open drops the frame |
| FirefoxClient.CtrlSendSpec | addons/firefox/src/content/myjs.js:225-249 | ctrlSend does nothing exactly without queue, socket and `force`; otherwise the data is delivered once (queued, sent on the open socket, or queued behind a new socket) and the socket/queue states stay consistent |
| FirefoxClient.OnCtrlOpenSpec | addons/firefox/src/content/myjs.js:250-258 | on open the queue goes out in order and is dropped |
| FirefoxClient.OnCtrlCloseSpec | addons/firefox/src/content/myjs.js:259-268 | close and error drop the socket and leave the queue |
| FirefoxClient.QueueAppends | addons/firefox/src/content/myjs.js:234-238 | while a queue exists every ctrlSend only appends to it |
| FirefoxClient.CtrlQueueFlushedInOrder | addons/firefox/src/content/myjs.js:225-258 | a forced first send opens the socket, later sends queue behind it, and on open all of them go out in call order |
| FirefoxClient.CtrlQueueStrandedAfterEarlyClose | addons/firefox/src/content/myjs.js:227-268 | a control socket that closes before opening strands its queue: later sends, forced or not, only append and nothing reaches the control centre |
| FirefoxClient.RemoveRouteSpec | addons/firefox/src/content/myjs.js:1008-1017 | removeRouteData removes exactly that route |
| FirefoxClient.RemoveAllRouteDataSpec | addons/firefox/src/content/myjs.js:1054-1062 | every route and the last id and stamp are cleared; nothing else changes |
| FirefoxClient.OnAbortSpec | addons/firefox/src/content/myjs.js:1020-1045 | the last request is forgotten; id '' with stamp -1 clears every route, any other id only its own; ABORT with the given scope goes out only when `send_msg` |
| FirefoxClient.AbortAllSpec | addons/firefox/src/content/myjs.js:1048-1051 | abortAll clears every route and sends ABORT('', -1, all) |
| FirefoxClient.ReportVisLinksSpec | addons/firefox/src/content/myjs.js:1077-1152 | nothing unless active with a non-empty id; then the id is the last id and has a route; not `found` takes the clock's stamp; with route replacement only the new route remains; otherwise routes only gain the id |
| FirefoxClient.OnRequestSpec | addons/firefox/src/content/myjs.js:1375-1400 | a non-`link://` request repeating the last (id, stamp) is ignored; otherwise the pair is recorded (for non-`link://` ids) and a report is scheduled exactly when the request has `data`; nothing else changes |
| FirefoxClient.OnRequestIntended | addons/firefox/src/content/myjs.js:1375-1400 | with the refs read only when `data` is present, every request not already handled schedules a report |
| FirefoxClient.DatalessRequestSchedulesNothing | addons/firefox/src/content/myjs.js:1398 | as written, a REQUEST without `data` records its pair but schedules no report, where the intended handler schedules one |
| FirefoxClient.RepeatedRequestIgnored | addons/firefox/src/content/myjs.js:1377-1382 | a keyword REQUEST delivered twice in a row is handled once |
| FirefoxClient.LinkRequestsAlwaysScheduled | addons/firefox/src/content/myjs.js:1377-1399 | `link://` requests are never de-duplicated: the same request twice schedules two reports when it carries `data`, and none without it |
| FirefoxClient.OnUpdateSpec | addons/firefox/src/content/myjs.js:1401-1419 | UPDATE of an unknown route changes nothing |
| FirefoxClient.UpdateMovesRoute | addons/firefox/src/content/myjs.js:1406-1418 | renaming moves the route to the new id, keeps every other route, and re-reports under the new id |
| FirefoxClient.UpdateToSameIdDropsRoute | addons/firefox/src/content/myjs.js:1413-1414 | renaming a route to its own id deletes it when the client is not active |
| FirefoxClient.RunScheduledSpec | addons/firefox/src/content/myjs.js:1399 | the oldest scheduled report runs as reportVisLinks(id, true) |
| FirefoxClient.OnLinksErrorSpec | addons/firefox/src/content/myjs.js:1363-1369 | a links socket error sets status "error", drops every route and stops the client |
| FirefoxClient.OnMessageSpec | addons/firefox/src/content/myjs.js:1370-1423 | a message the store handles ends there; an inbound ABORT forgets the last request and sends nothing back; a REQUEST is OnRequestSpec's, with or without `data`; the control socket is never touched |
| FirefoxClient.OnUrlChangeSpec | addons/firefox/src/content/myjs.js:341-360 | an unchanged URL or an unselected tab is ignored; otherwise the URL is recorded; routes are untouched |
| FirefoxClient.UrlChangeIdempotent | addons/firefox/src/content/myjs.js:343-344 | reporting the same URL again changes nothing |
| FirefoxClient.DigitValue | addons/firefox/src/content/myjs.js:1796 | a digit value is at most 36 and below 10 exactly for '0'-'9' |
| FirefoxClient.DigitRun | addons/firefox/src/content/myjs.js:1796 | `parseInt` reads the longest run of digits of the base |
| FirefoxClient.ParseUnsigned | addons/firefox/src/content/myjs.js:1796 | the unsigned part is non-negative, and NaN for empty text |
| FirefoxClient.Negate | addons/firefox/src/content/myjs.js:1796 | a sign negates a number and keeps NaN |
| FirefoxClient.ParseInt | addons/firefox/src/content/myjs.js:1796-1804 | `parseInt` of blank text is NaN |
| FirefoxClient.Digit | addons/firefox/src/content/myjs.js:1796 | each decimal digit reads back as its value |
| FirefoxClient.NatStringSpellsN | addons/firefox/src/content/myjs.js:1796 | the decimal form of n is a non-empty run of digits spelling n |
| FirefoxClient.ParseUnsignedOfNatString | addons/firefox/src/content/myjs.js:1796 | the digits of n followed by non-digit text read back as n |
| FirefoxClient.NothingToTrim | addons/firefox/src/content/myjs.js:1796 | text starting with a digit or '-' has no leading space to skip |
| FirefoxClient.ParseMinusNatString | addons/firefox/src/content/myjs.js:1796 | '-' then the digits of n reads back as -n |
| FirefoxClient.IntStringOfNegative | addons/firefox/src/content/myjs.js:1796 | a negative integer is written as '-' and its magnitude |
| FirefoxClient.ParseNegativeRoundTrip | addons/firefox/src/content/myjs.js:1796 | `parseInt` reads back a written negative integer |
| FirefoxClient.ParseNaturalRoundTrip | addons/firefox/src/content/myjs.js:1796 | `parseInt` reads back a written non-negative integer |
| FirefoxClient.ParseIntRoundTrip | addons/firefox/src/content/myjs.js:1796-1804 | `parseInt(String(i) + rest)` is i whenever rest cannot continue the number |
| FirefoxClient.Pieces | addons/firefox/src/content/myjs.js:1791-1804 | cutting at commas gives at least one piece |
| FirefoxClient.PiecesAreCommaFree | addons/firefox/src/content/myjs.js:1793-1801 | no piece holds a comma |
| FirefoxClient.PiecesCount | addons/firefox/src/content/myjs.js:1791-1804 | there is one piece more than there are commas |
| FirefoxClient.JoinPieces | addons/firefox/src/content/myjs.js:1791-1804 | joining the pieces with commas gives the text back |
| FirefoxClient.PiecesOfJoin | addons/firefox/src/content/myjs.js:1791-1804 | cutting a comma-joined list of comma-free texts gives the list back |
| FirefoxClient.ParseAll | addons/firefox/src/content/myjs.js:1796-1804 | one number per piece |
| FirefoxClient.ParseAllAt | addons/firefox/src/content/myjs.js:1796-1804 | each piece is parsed on its own |
| FirefoxClient.Coords | addons/firefox/src/content/myjs.js:1788-1804 | the parsed coordinate list is never empty |
| FirefoxClient.IntStringHasNoComma | addons/firefox/src/content/myjs.js:1791 | a written integer holds no comma |
| FirefoxClient.CoordsRoundTrip | addons/firefox/src/content/myjs.js:1788-1804 | integer coordinates written comma-separated are parsed back exactly |
| FirefoxClient.Minus | addons/firefox/src/content/myjs.js:1824-1844 | subtraction is exact on numbers and NaN otherwise |
| FirefoxClient.AtLeastTen | addons/firefox/src/content/myjs.js:1847-1848 | a number is raised to at least 10 and kept when already so; NaN stays NaN |
| FirefoxClient.AreaOf | addons/firefox/src/content/myjs.js:1808-1848 | fewer than 3 coordinates give (0, 0, 10, 10); a circle gives its centre and its radius as both width and height; a rectangle its corner |
| FirefoxClient.PolyBoxBounds | addons/firefox/src/content/myjs.js:1829-1840 | with numeric coordinates the running box bounds every point read and each edge is one of the coordinates |
| FirefoxClient.PolyBoxXBounds | addons/firefox/src/content/myjs.js:1829-1840 | the x half of the running box: bounds and attained |
| FirefoxClient.PolyBoxYBounds | addons/firefox/src/content/myjs.js:1829-1840 | the y half of the running box: bounds and attained |
| FirefoxClient.PolygonAreaCoversPoints | addons/firefox/src/content/myjs.js:1827-1848 | a polygon's rectangle contains every point and is the smallest that does, up to the raise to 10 |
| FirefoxClient.AreaAtLeastTen | addons/firefox/src/content/myjs.js:1847-1848 | with numeric coordinates width and height are at least 10 |
| FirefoxClient.CircleWithoutRadiusStaysNaN | addons/firefox/src/content/myjs.js:1813-1848 | an unreadable radius stays NaN: `NaN < 10` is false |
| FirefoxClient.RectangleKeepsExtent | addons/firefox/src/content/myjs.js:1820-1826 | a rectangle at least 10 by 10 keeps its corner and extent |
| FirefoxClient.PiecesAtComma | addons/firefox/src/content/myjs.js:1793-1799 | one cut takes the text before the first comma |
| FirefoxClient.ParseAllCons | addons/firefox/src/content/myjs.js:1796 | parsing a list with a first piece parses that piece first |
| FirefoxClient.ParseAllAtComma | addons/firefox/src/content/myjs.js:1793-1801 | one round of the loop parses the piece before the first comma |
| FirefoxClient.ParseAllWithoutComma | addons/firefox/src/content/myjs.js:1804 | text without a comma is one parsed piece |
| FirefoxClient.ParseCoords | addons/firefox/src/content/myjs.js:1788-1804 | the parsing loop yields exactly Coords of the text |
| FirefoxClient.AreaRect | addons/firefox/src/content/myjs.js:1808-1848 | the rectangle code, with its polygon loop, yields AreaOf of the coordinates |
| FirefoxClient.FindAreaRect | addons/firefox/src/content/myjs.js:1786-1848 | the area's rectangle is AreaOf of the parsed coordinates |
| FirefoxClient.WrittenPolygonCovered | addons/firefox/src/content/myjs.js:1786-1848 | a polygon written as integers gets a rectangle containing all of its points |
| FirefoxClient.Client.constructor | addons/firefox/src/content/myjs.js:3-8 | the script starts stopped with no sockets, queue or routes |
| FirefoxClient.Client.Stop | addons/firefox/src/content/myjs.js:1239-1252 | the new state is StopSpec's |
| FirefoxClient.Client.Send | addons/firefox/src/content/myjs.js:194-217 | the new state is SendSpec's |
| FirefoxClient.Client.CtrlSend | addons/firefox/src/content/myjs.js:225-249 | the new state is CtrlSendSpec's |
| FirefoxClient.Client.OnCtrlOpen | addons/firefox/src/content/myjs.js:250-258 | the send loop gives OnCtrlOpenSpec's state |
| FirefoxClient.Client.OnCtrlClose | addons/firefox/src/content/myjs.js:259-268 | the new state is OnCtrlCloseSpec's |
| FirefoxClient.Client.RemoveRouteData | addons/firefox/src/content/myjs.js:1008-1017 | the new state is RemoveRouteSpec's |
| FirefoxClient.Client.RemoveEveryRoute | addons/firefox/src/content/myjs.js:1030-1061 | the loop removes every route and nothing else |
| FirefoxClient.Client.RemoveAllRouteData | addons/firefox/src/content/myjs.js:1054-1062 | the new state is RemoveAllRouteDataSpec's |
| FirefoxClient.Client.OnAbort | addons/firefox/src/content/myjs.js:1020-1045 | the new state is OnAbortSpec's |
| FirefoxClient.Client.AbortAll | addons/firefox/src/content/myjs.js:1048-1051 | the new state is AbortAllSpec's |
| FirefoxClient.Client.ReportVisLinks | addons/firefox/src/content/myjs.js:1077-1152 | the new state is ReportVisLinksSpec's |
| FirefoxClient.Client.OnRequest | addons/firefox/src/content/myjs.js:1375-1400 | the new state is OnRequestSpec's, which schedules nothing for a REQUEST without `data` |
| FirefoxClient.Client.OnUpdate | addons/firefox/src/content/myjs.js:1401-1419 | the new state is OnUpdateSpec's |
| FirefoxClient.Client.RunScheduled | addons/firefox/src/content/myjs.js:1399 | the new state is RunScheduledSpec's |
| FirefoxClient.Client.OnLinksError | addons/firefox/src/content/myjs.js:1363-1369 | the new state is OnLinksErrorSpec's |
| FirefoxClient.Client.OnSocketMessage | addons/firefox/src/content/myjs.js:1370-1423 | the store's state is HandleMessageSpec's and the client's is OnMessageSpec's |
| FirefoxClient.Client.AfterStoreAnswered | addons/firefox/src/content/myjs.js:1373-1423 | the client's new state is OnMessageSpec's for the store's answer |
| FirefoxClient.Client.OnUrlChange | addons/firefox/src/content/myjs.js:341-360 | the new state is OnUrlChangeSpec's |
| IpcServer.ParseMessage | components/ipc_server/src/ipc_server.cpp:29-41 | the `JSON` constructor succeeds exactly for an evaluated object that is not an array, and then holds its members |
| IpcServer.ToUint32 | components/ipc_server/src/ipc_server.cpp:108-113 | `toUInt32` truncates toward zero and reduces modulo 2^32 into [0, 2^32) |
| IpcServer.ToUint32OfStamp | components/ipc_server/src/ipc_server.cpp:108-113 | a stamp below 2^32 reads back as itself and -1 becomes 2^32-1 |
| IpcServer.GetString | components/ipc_server/src/ipc_server.cpp:99-105 | `getValue<QString>` succeeds exactly for a set string property and yields it |
| IpcServer.GetUint32 | components/ipc_server/src/ipc_server.cpp:107-113 | `getValue<uint32_t>` succeeds exactly for a set number and yields its ToUint32 |
| IpcServer.GetList | components/ipc_server/src/ipc_server.cpp:115-121 | `getValue<QVariantList>` succeeds exactly for a set array and yields its items |
| IpcServer.GetValueNeedsIsSet | components/ipc_server/src/ipc_server.cpp:77-89 | a read of a missing or undefined property throws "No such property (key)"; a set property is read exactly when it has a readable type |
| IpcServer.RegionPoints | components/ipc_server/src/ipc_server.cpp:327-342 | at most one point per entry; which points, in which order, is stated by RegionPointsOfOne, RegionPointsConcat and RegionPointsMembers |
| IpcServer.RegionPointsOfOne | components/ipc_server/src/ipc_server.cpp:329-342 | a two-element list gives its one point `(toInt(a[0]), toInt(a[1]))`; any other entry (a list of another length, a map, anything else) gives no point |
| IpcServer.RegionPointsConcat | components/ipc_server/src/ipc_server.cpp:327-342 | the points of two runs of entries are those of the first followed by those of the second, so points keep the order of their entries |
| IpcServer.RegionPointsMembers | components/ipc_server/src/ipc_server.cpp:327-342 | a point is present exactly when some pair entry gives it |
| IpcServer.RegionProps | components/ipc_server/src/ipc_server.cpp:343-348 | a property key is present exactly when some map entry carries it |
| IpcServer.RegionNodes | components/ipc_server/src/ipc_server.cpp:320-355 | at most one node per region, each with at least one point; which nodes, in which order, is stated by RegionNodesOfOne, RegionNodesConcat and RegionNodesMembers |
| IpcServer.RegionNodesOfOne | components/ipc_server/src/ipc_server.cpp:353-354 | a region with at least one point gives one node with its points and merged properties; a region without points gives none |
| IpcServer.RegionNodesConcat | components/ipc_server/src/ipc_server.cpp:320-355 | the nodes of two runs of regions are those of the first followed by those of the second, so nodes keep the order of their regions |
| IpcServer.RegionNodesMembers | components/ipc_server/src/ipc_server.cpp:320-355 | a node is present exactly when some region with a point describes it |
| IpcServer.RegionNodesKeepsEveryPointedRegion | components/ipc_server/src/ipc_server.cpp:320-355 | when every region has a point there is one node per region, the k-th node being the k-th region's |
| IpcServer.ParseRegionsSpec | components/ipc_server/src/ipc_server.cpp:311-358 | no `regions` gives no nodes; a `regions` that is not an array is an error; an array gives exactly RegionNodes of its regions, every node with a point |
| IpcServer.RegionOfPairs | components/ipc_server/src/ipc_server.cpp:327-342 | a region of coordinate pairs gives one point per pair and no properties |
| IpcServer.ParseRegions | components/ipc_server/src/ipc_server.cpp:311-358 | the nested loops yield exactly ParseRegionsSpec: the nodes of the regions with points, in order |
| IpcServer.ParseRegion | components/ipc_server/src/ipc_server.cpp:322-351 | the inner loop yields exactly the region's points, one per two-element list in order, and its merged properties |
| IpcServer.EscapeQuotesAsWritten | components/ipc_server/src/ipc_server.cpp:236 | the as-written escaping never shortens the id |
| IpcServer.EscapeJsonString | components/ipc_server/src/ipc_server.cpp:236 | the corrected escaping never shortens the id |
| IpcServer.ReadStringBody | components/ipc_server/src/ipc_server.cpp:233-238 | a JSON string reader consumes at least the closing quote |
| IpcServer.EscapeJsonStringRoundTrip | components/ipc_server/src/ipc_server.cpp:233-238 | with backslashes and quotes escaped, a JSON reader gives back the id and stops after its closing quote |
| IpcServer.EscapeQuotesAsWrittenBreaksId | components/ipc_server/src/ipc_server.cpp:236 | with only quotes escaped, the id `a\` escapes its own closing quote and is not read back |
| IpcServer.RequestTextAsWritten | components/ipc_server/src/ipc_server.cpp:233-238 | the REQUEST text that INITIATE sends starts with the task and the opening of the id field |
| IpcServer.EscapingsAgreeWithoutBackslash | components/ipc_server/src/ipc_server.cpp:236 | on an id without a backslash the as-written escaping is the corrected one |
| IpcServer.RequestAsWrittenCarriesId | components/ipc_server/src/ipc_server.cpp:233-238 | the REQUEST as written carries an id without backslash or control characters intact, followed by the stamp |
| IpcServer.RequestText | components/ipc_server/src/ipc_server.cpp:233-238 | the REQUEST text starts with the task and the opening of the id field |
| IpcServer.RequestCarriesId | components/ipc_server/src/ipc_server.cpp:233-238 | the id field of the REQUEST reads back as the id, followed by the stamp |
| IpcServer.AddNodes | include/linkdescription.h:204-215 | `addNodes` appends the nodes and bumps the 32-bit revision, and does nothing for no nodes |
| IpcServer.FindLink | components/ipc_server/src/ipc_server.cpp:251-259 | `find_if` gives the first link with the id, or the end |
| IpcServer.EraseFirst | components/ipc_server/src/ipc_server.cpp:210-220 | the erase loop removes the first link with the id, or nothing |
| IpcServer.Broadcast | components/ipc_server/src/ipc_server.cpp:243-244 | one write of the request per client, in order |
| IpcServer.RemoveOne | components/ipc_server/src/ipc_server.cpp:304 | `removeOne` drops one occurrence of the socket and keeps every other client |
| IpcServer.DisconnectRemovesSocket | components/ipc_server/src/ipc_server.cpp:298-305 | a disconnected socket is no longer a client |
| IpcServer.InitiateSpec | components/ipc_server/src/ipc_server.cpp:202-245 | INITIATE replaces the link of the id by a new one at the end with revision 0, marks the slot valid and sends the as-written REQUEST text to every client; a failing read sends nothing |
| IpcServer.FoundSpec | components/ipc_server/src/ipc_server.cpp:246-276 | only a FOUND for a known id with the stored stamp adds its nodes, and only to that link; anything else changes nothing |
| IpcServer.OnDataReceivedSpec | components/ipc_server/src/ipc_server.cpp:193-289 | the client list never changes; a task other than INITIATE and FOUND changes nothing |
| IpcServer.InitiateKeepsIdsUnique | components/ipc_server/src/ipc_server.cpp:210-229 | INITIATE keeps link ids unique |
| IpcServer.EraseFirstRemovesId | components/ipc_server/src/ipc_server.cpp:210-220 | with unique ids the erase loop leaves no link with the id |
| IpcServer.UnreadableFrameChangesNothing | components/ipc_server/src/ipc_server.cpp:278-281 | a frame that is no object or has no string task changes nothing and is logged as a failure |
| IpcServer.StaleFoundIsIgnored | components/ipc_server/src/ipc_server.cpp:267-271 | a FOUND with another stamp is ignored |
| IpcServer.Server.constructor | components/ipc_server/src/ipc_server.cpp:124-127 | a new server has no links, no clients and has written nothing |
| IpcServer.Server.OnClientConnection | components/ipc_server/src/ipc_server.cpp:176-190 | the new socket is appended to the clients |
| IpcServer.Server.OnClientDisconnection | components/ipc_server/src/ipc_server.cpp:298-308 | without a sender nothing happens; otherwise one occurrence of the socket is removed |
| IpcServer.Server.OnDataReceived | components/ipc_server/src/ipc_server.cpp:193-289 | the new state and outcome are OnDataReceivedSpec's |
| IpcServer.Server.Initiate | components/ipc_server/src/ipc_server.cpp:202-245 | the new state and outcome are InitiateSpec's |
| IpcServer.Server.EraseLink | components/ipc_server/src/ipc_server.cpp:210-220 | the links become EraseFirst of the old ones |
| IpcServer.Server.SendToAll | components/ipc_server/src/ipc_server.cpp:243-244 | the request is written once to each client in order |
| IpcServer.Server.HandleFound | components/ipc_server/src/ipc_server.cpp:246-276 | the new state and outcome are FoundSpec's |
| ClientInfo.Clamp | components/ipc_server/include/ClientInfo.hxx:25-29 | within the bounds the value is kept, below it becomes min, above it becomes max; an empty range gives min |
| ClientInfo.ClampIdempotent | components/ipc_server/include/ClientInfo.hxx:25-29 | clamping twice is clamping once |
| ClientInfo.DirtyFlagsAreDistinctBits | components/ipc_server/include/ClientInfo.hxx:152-159 | each dirty flag is a single bit and no two share one |
| ClientInfo.OutsideEqIsEquality | components/ipc_server/include/ClientInfo.hxx:170-180 | `==` on OutsideScroll is equality of all three fields and `!=` its negation |
| ClientInfo.Cleaned | components/ipc_server/src/ClientInfo.cxx:24-46 | the cleaned string is never longer than the input |
| ClientInfo.CleanedString | components/ipc_server/src/ClientInfo.cxx:24-46 | the loop yields exactly the lower-cased letters a-z, digits, '@' and ':' of the input, in order |
| ClientInfo.CleanedOfCleanIsIdentity | components/ipc_server/src/ClientInfo.cxx:40-43 | a string of kept characters only is its own cleaned form |
| ClientInfo.CleanedIsClean | components/ipc_server/src/ClientInfo.cxx:40-43 | only kept characters survive cleaning |
| ClientInfo.CleanedIdempotent | components/ipc_server/src/ClientInfo.cxx:24-46 | cleaning twice is cleaning once |
| ClientInfo.ViewportOnly | components/ipc_server/src/ClientInfo.cxx:218 | the assumed scroll region sits at the origin with the viewport's size |
| ClientInfo.ParseViewSpec | components/ipc_server/src/ClientInfo.cxx:202-222 | a message with neither member changes nothing; the viewport and scroll region are read when present; a missing scroll region is the viewport's size at the origin; the preview size follows the scroll region and SCROLL_POS, SCROLL_SIZE are raised; nothing else changes |
| ClientInfo.GeometryMatches | components/ipc_server/src/ClientInfo.cxx:422-466 | the kept candidates pass the x, y, width, height-within-30, Firefox-title and cleaned-title-prefix tests, in order |
| ClientInfo.Candidates | components/ipc_server/src/ClientInfo.cxx:376-382 | the candidates are windows of the sample |
| ClientInfo.MatchOne | components/ipc_server/src/ClientInfo.cxx:384-411 | `checkMatchOne` succeeds only for exactly one window; success clears MATCH and adopts the window (raising WINDOW) unless its id is the current one |
| ClientInfo.Chosen | components/ipc_server/src/ClientInfo.cxx:413-478 | at most one window is handed to the final `checkMatchOne` |
| ClientInfo.UpdateWindowInfoSpec | components/ipc_server/src/ClientInfo.cxx:371-479 | a valid window with MATCH clear is kept; failure changes nothing; only the window and the flags can change; a newly adopted window is one of the sample and WINDOW is raised, MATCH cleared |
| ClientInfo.AdoptedWindowBelongsToProcess | components/ipc_server/src/ClientInfo.cxx:377-379 | a client with a process id is only matched to a window of that process |
| ClientInfo.AdoptedWindowPassedGeometryStage | components/ipc_server/src/ClientInfo.cxx:416-478 | without a unique process match the update succeeds exactly when some window passes the geometry and title stage, and then the last (topmost) one is adopted |
| ClientInfo.RefreshSpec | components/ipc_server/src/ClientInfo.cxx:490-516 | after a successful update every flag is clear and the window equals the sample's entry of the same id; a window no longer in the sample gives false and no change |
| ClientInfo.UpdateSpec | components/ipc_server/src/ClientInfo.cxx:482-516 | a failed window match gives false and no change; success clears every flag and leaves the window equal to the sample's entry |
| ClientInfo.UpdateNeedsWindowPresent | components/ipc_server/src/ClientInfo.cxx:490-492 | a client whose matched window is gone from the sample does not update |
| ClientInfo.UpdateNodeHidden | components/ipc_server/src/ClientInfo.cxx:1171-1179 | "hidden" is set to false exactly when the node is not minimized, is on screen, is not outside (unless see-through) and is not covered; every other property is kept |
| ClientInfo.RemoveLinkClearsOnlyThatLink | components/ipc_server/src/ClientInfo.cxx:537-546 | after removeLink no node hangs under the edge, and every node under another edge stays |
| ClientInfo.Partition | components/ipc_server/src/ClientInfo.cxx:537-570 | the erase-while-iterating loops split a list into the erased and the kept elements, each in order |
| ClientInfo.FilterGeometry | components/ipc_server/src/ClientInfo.cxx:422-466 | the loop keeps exactly the candidates GeometryMatches describes |
| ClientInfo.ChooseCandidates | components/ipc_server/src/ClientInfo.cxx:376-473 | the candidate search yields what Chosen describes |
| ClientInfo.Client.constructor | components/ipc_server/src/ClientInfo.cxx:49-70 | a new client has every dirty bit set, an unmatched window and no process id |
| ClientInfo.Client.SetWindowId | components/ipc_server/src/ClientInfo.cxx:84-88 | only the window id changes |
| ClientInfo.Client.SetId | components/ipc_server/src/ClientInfo.cxx:102-106 | only the id changes |
| ClientInfo.Client.SetType | components/ipc_server/src/ClientInfo.cxx:114-119 | the type changes and MATCH is raised |
| ClientInfo.Client.SetTitle | components/ipc_server/src/ClientInfo.cxx:127-132 | the title changes and MATCH is raised |
| ClientInfo.Client.SetProcessId | components/ipc_server/src/ClientInfo.cxx:140-145 | the process id changes and MATCH is raised |
| ClientInfo.Client.SetUrl | components/ipc_server/src/ClientInfo.cxx:153-157 | only the url changes |
| ClientInfo.Client.SetReportedGeometry | components/ipc_server/src/ClientInfo.cxx:159-164 | the geometry changes and MATCH is raised |
| ClientInfo.Client.SetStateData | components/ipc_server/src/ClientInfo.cxx:178-182 | only the state data changes |
| ClientInfo.Client.AddCommand | components/ipc_server/src/ClientInfo.cxx:190-194 | the command joins the supported set |
| ClientInfo.Client.SupportsCommand | components/ipc_server/src/ClientInfo.cxx:196-199 | true exactly for an added command |
| ClientInfo.Client.ParseView | components/ipc_server/src/ClientInfo.cxx:202-222 | the new state is ParseViewSpec's |
| ClientInfo.Client.SetScrollPos | components/ipc_server/src/ClientInfo.cxx:225-235 | the scroll region moves to the offset keeping its size and SCROLL_POS is raised; nothing else changes |
| ClientInfo.Client.CheckMatchOne | components/ipc_server/src/ClientInfo.cxx:384-411 | the new state and result are MatchOne's |
| ClientInfo.Client.UpdateWindowInfo | components/ipc_server/src/ClientInfo.cxx:371-479 | the new state and result are UpdateWindowInfoSpec's |
| ClientInfo.Client.Update | components/ipc_server/src/ClientInfo.cxx:482-516 | the new state and result are UpdateSpec's |
| ClientInfo.Client.Refresh | components/ipc_server/src/ClientInfo.cxx:490-516 | the new state and result are RefreshSpec's |
| ClientInfo.Client.RemoveLink | components/ipc_server/src/ClientInfo.cxx:535-571 | the nodes under the edge and the popups and previews of its link id are removed and returned in order; everything else stays in order |
| ClientInfo.Client.DetachNodes | components/ipc_server/src/ClientInfo.cxx:537-546 | the nodes under the edge leave, the others stay in order |
| ClientInfo.Client.CloseLinkWindows | components/ipc_server/src/ClientInfo.cxx:548-570 | the popups and previews of the link id close, the others stay in order |
| ClientInfo.Client.HasLink | components/ipc_server/src/ClientInfo.cxx:574-583 | true exactly when some node hangs under the edge |
| WindowMonitor.NewWindowInfo | components/ipc_server/include/window_monitor.hpp:34-46 | a new window record keeps the given id, process, minimized flag, region and title, has pointer id 2, is not covered and has no launcher region |
| WindowMonitor.EqProperties | components/ipc_server/include/window_monitor.hpp:48-61 | window equality is an equivalence that ignores title, process and pointer id, inequality is its negation, and equal windows agree on validity |
| WindowMonitor.FindFrom | components/ipc_server/src/window_monitor.cpp:40-48 | the search returns the first position satisfying the test, or the end when none does |
| WindowMonitor.FindById | components/ipc_server/src/window_monitor.cpp:38-49 | the first window with the id, or the end |
| WindowMonitor.FindByPid | components/ipc_server/src/window_monitor.cpp:52-68 | the first window of the process whose title is matched (any title when the query is empty), or the end |
| WindowMonitor.FindByTitle | components/ipc_server/src/window_monitor.cpp:99-111 | the first window whose title starts with the query, or the end |
| WindowMonitor.FindIdByTitle | components/ipc_server/src/window_monitor.cpp:114-120 | the id of the first window whose title starts with the query, or 0 when there is none |
| WindowMonitor.FindIdByPid | components/ipc_server/src/window_monitor.cpp:123-129 | the id of the first window of the process with a matching title, or 0 when there is none |
| WindowMonitor.Positions | components/ipc_server/src/window_monitor.cpp:77-82 | the positions listed satisfy the test, every satisfying position is listed, and they increase |
| WindowMonitor.FindAllByPid | components/ipc_server/src/window_monitor.cpp:71-83 | a position is listed iff its window belongs to the process and its title is matched, in stacking order |
| WindowMonitor.FindAllByTitle | components/ipc_server/src/window_monitor.cpp:86-96 | a position is listed iff its window's title starts with the query, in stacking order |
| WindowMonitor.FindAllEmptyTitleIsEverything | components/ipc_server/src/window_monitor.cpp:91-93 | an empty title lists every window in order |
| WindowMonitor.WindowAt | components/ipc_server/src/window_monitor.cpp:156-165 | the topmost window containing the point is returned, and none is returned only when no window contains it |
| WindowMonitor.WindowIdAt | components/ipc_server/src/window_monitor.cpp:168-175 | the id of the topmost window containing the point, or 0 when there is none |
| WindowMonitor.Hit | components/ipc_server/src/window_monitor.cpp:178-193 | a hit is reported iff some window from the start position on is not minimized and contains the point; the first such window's region and id are reported, and the outputs are untouched otherwise |
| WindowMonitor.MarkBelowMaximized | components/ipc_server/src/window_monitor.cpp:278-286 | with a maximized window every window listed before it is marked minimized and the rest are unchanged; without one nothing changes |
| WindowMonitor.CheckStep | components/ipc_server/src/window_monitor.cpp:337-396 | one check records the sample and launchers; a sample equal to the committed one idles the countdown; a new sample restarts it; the committed list only changes to the sample, with a callback for it; callbacks are only appended |
| WindowMonitor.DebounceFiresOnThirdSample | components/ipc_server/src/window_monitor.cpp:349-395 | a new window list is committed and handed to the callback only on the third check in a row that sees it |
| WindowMonitor.ListEqReflexive | components/ipc_server/include/window_monitor.hpp:48-56 | every window list equals itself |
| WindowMonitor.CommittedSampleIsQuiet | components/ipc_server/src/window_monitor.cpp:353-354 | sampling the committed list again calls nothing back and idles the countdown |
| WindowMonitor.FiresOnlyWhenCommitting | components/ipc_server/src/window_monitor.cpp:374-393 | without a launcher change the callback only receives the list it commits |
| WindowMonitor.Monitor.constructor | components/ipc_server/src/window_monitor.cpp:196-204 | a new monitor has nothing committed and an idle countdown |
| WindowMonitor.Monitor.Check | components/ipc_server/src/window_monitor.cpp:337-396 | a check moves the monitor's state exactly as the specification step does |
| LinkDescriptionH.SetProperty | include/linkdescription.h:56-64 | the value is stored verbatim under the key, replacing an earlier one; other keys are kept |
| LinkDescriptionH.NatToString | include/linkdescription.h:52 | the decimal text is a non-empty run of digits |
| LinkDescriptionH.IntToString | include/linkdescription.h:52 | `to_string` is non-empty and starts with '-' exactly for a negative number |
| LinkDescriptionH.NatToStringRoundTrip | include/linkdescription.h:52 | the decimal text reads back as its number |
| LinkDescriptionH.NatToStringInjective | include/linkdescription.h:52 | distinct naturals get distinct texts |
| LinkDescriptionH.IntToStringInjective | include/linkdescription.h:42-54 | distinct integers are stored as distinct texts |
| LinkDescriptionH.SetInteger | include/linkdescription.h:42-54 | an integral value is stored as its `to_string` |
| LinkDescriptionH.SetFlag | include/linkdescription.h:42-54 | a `bool` is promoted to int by `to_string`: true is stored as "1", false as "0" |
| LinkDescriptionH.GetProperty | include/linkdescription.h:73-81 | `get` of an absent key gives the default |
| LinkDescriptionH.GetAfterSet | include/linkdescription.h:56-81 | reading a key just set converts the stored text; other keys read as before |
| LinkDescriptionH.LinkPointsOf | include/linkdescription.h:126-127 | the link points when there are any, otherwise the vertices |
| LinkDescriptionH.ConstLinkPointsNeverReturns | include/linkdescription.h:128 | `getLinkPoints() const` as written calls itself and never returns |
| LinkDescriptionH.Node.constructor | include/linkdescription.h:97-115 | the point/property constructors store their arguments, with no parent and no children |
| LinkDescriptionH.Node.ForEdge | include/linkdescription.h:117-121 | `Node(hedge)` has the edge as its only child and, in this version, does not set the edge's parent |
| LinkDescriptionH.Node.Copy | include/linkdescription.h:211-219 | storing a node in an edge's list copies its contents |
| LinkDescriptionH.Node.GetLinkPoints | include/linkdescription.h:126-128 | answers LinkPointsOf of the node's lists |
| LinkDescriptionH.Node.AddChildren | include/linkdescription.h:295-300 | each edge gets this node as parent and all are appended in order; the node's points, link points, properties and parent and each edge's nodes, revision, properties and routing description are unchanged |
| LinkDescriptionH.HyperEdge.constructor | include/linkdescription.h:182-185 | a new edge has no parent, no nodes and revision 0 |
| LinkDescriptionH.HyperEdge.WithNodes | include/linkdescription.h:187-197 | the edge holds fresh copies of the given nodes, each parented here; the given nodes are untouched |
| LinkDescriptionH.HyperEdge.AddNodes | include/linkdescription.h:204-215 | no nodes changes nothing; otherwise copies are appended in order, each parented here, and the revision rises by exactly one modulo 2^32 |
| LinkDescriptionH.HyperEdge.AddNode | include/linkdescription.h:217-221 | a copy is appended and parented here; the revision is unchanged |
| LinkDescriptionH.HyperEdge.SetHyperEdgeDescription | include/linkdescription.h:232-235 | only the routing description changes |
| LinkDescriptionH.HyperEdge.RemoveRoutingInformation | include/linkdescription.h:302-305 | the routing description is dropped, nothing else changes |
| LinkDescriptionCpp.ChildLinkPointsOf | components/tools/linkdescription.cpp:91-95 | `getLinkPointsChildren()` gives the children's link points when there are any, otherwise `getLinkPoints()`, the header's LinkDescriptionH.LinkPointsOf, which this version shares |
| LinkDescriptionCpp.ChildLinkPointsFallback | components/tools/linkdescription.cpp:79-95 | a node with neither kind of link point uses its vertices; the answer is always one of the three lists |
| LinkDescriptionCpp.ConstChildLinkPointsNeverReturn | components/tools/linkdescription.cpp:85-101 | the const overloads as written call themselves and never return, however deep the calls go |
| LinkDescriptionCpp.Node.constructor | components/tools/linkdescription.cpp:16-56 | the point/property constructors store their arguments, with no parent and no children |
| LinkDescriptionCpp.Node.ForEdge | components/tools/linkdescription.cpp:59-64 | `Node(hedge)` has the edge as its only child and becomes the edge's parent; the edge's nodes, revision, properties and routing description are unchanged |
| LinkDescriptionCpp.Node.GetLinkPoints | components/tools/linkdescription.cpp:79-82 | answers the shared LinkDescriptionH.LinkPointsOf of the node's lists |
| LinkDescriptionCpp.Node.GetLinkPointsChildren | components/tools/linkdescription.cpp:91-95 | answers ChildLinkPointsOf of the node's lists |
| LinkDescriptionCpp.Node.AddChildren | components/tools/linkdescription.cpp:142-147 | each edge gets this node as parent and all are appended in order; the node's own points, link points, properties and parent and each edge's nodes, revision, properties and routing description are unchanged |
| LinkDescriptionCpp.Node.AddChild | components/tools/linkdescription.cpp:150-154 | the edge gets this node as parent and is appended; the node's points, link points, properties and parent and the edge's nodes, revision, properties and routing description are unchanged |
| LinkDescriptionCpp.HyperEdge.constructor | components/tools/linkdescription.cpp:157-162 | a new edge has no parent, no nodes and revision 0 |
| LinkDescriptionCpp.HyperEdge.WithNodes | components/tools/linkdescription.cpp:165-175 | the edge holds the given nodes and is the parent of each; each node keeps its children, points, link points and properties |
| LinkDescriptionCpp.HyperEdge.ResetNodeParents | components/tools/linkdescription.cpp:229-233 | every node's parent becomes this edge; each keeps its children, points, link points and properties |
| LinkDescriptionCpp.HyperEdge.AddNodes | components/tools/linkdescription.cpp:208-219 | no nodes changes nothing; otherwise they are appended in order, each parented here and otherwise unchanged (children, points, link points, properties), and the revision rises by exactly one modulo 2^32 |
| LinkDescriptionCpp.HyperEdge.AddNode | components/tools/linkdescription.cpp:222-226 | the node is appended and parented here and otherwise unchanged; the revision is unchanged |
| LinkDescriptionCpp.HyperEdge.SetHyperEdgeDescription | components/tools/linkdescription.cpp:242-245 | only the routing description changes: nodes, revision, parent and properties stay |
| LinkDescriptionCpp.HyperEdge.RemoveRoutingInformation | components/tools/linkdescription.cpp:260-263 | the routing description is dropped; nodes, revision, parent and properties stay |
| JsonCodec.ToInt | components/tools/JSON.cxx:253-269 | `toInt(def)` gives an integral 32-bit number as itself; a fractional number, a number outside the 32-bit range and a non-number give `def` |
| JsonCodec.ToStr | components/tools/JSON.cxx:160-175 | `toString()` gives a string's text and "" for anything else |
| JsonCodec.ToIntOfNum | components/tools/JSON.cxx:253 | a 32-bit integer written as a JSON number reads back as itself |
| JsonCodec.PointToJson | components/tools/JSON.cxx:38-44 | a point is a two-element array |
| JsonCodec.SizeToJson | components/tools/JSON.cxx:47-50 | a size is encoded as the point (width, height) |
| JsonCodec.RectToJson | components/tools/JSON.cxx:53-61 | a rectangle is a four-element array |
| JsonCodec.SizeFromJson | components/tools/JSON.cxx:242-254 | anything but a two-element array gives the default |
| JsonCodec.RectFromJson | components/tools/JSON.cxx:257-270 | anything but a four-element array gives the default |
| JsonCodec.RectRoundTrip | components/tools/JSON.cxx:257-270 | a rectangle whose coordinates fit 32 bits survives to_json then from_json |
| JsonCodec.SizeRoundTrip | components/tools/JSON.cxx:242-254 | a size that fits 32 bits survives to_json then from_json |
| JsonCodec.RectFromNonIntegers | components/tools/JSON.cxx:268-269 | a four-entry array none of whose entries is an integral 32-bit number (non-numbers, fractions, numbers out of range) decodes to the rectangle (-1, -1, -1, -1) |
| JsonCodec.StringFromJson | components/tools/JSON.cxx:70-78 | only undefined gives the default; a string is itself; null, arrays and objects give "" |
| JsonCodec.UrlFromJson | components/tools/JSON.cxx:81-86 | an invalid URL gives the default, a valid one the parsed URL |
| JsonCodec.BoolFromJson | components/tools/JSON.cxx:89-97 | undefined or null gives the default; a boolean is itself |
| JsonCodec.IntegerFromJson | components/tools/JSON.cxx:100-138 | a failed conversion gives the default, a successful one its value |
| JsonCodec.VariantListFromJson | components/tools/JSON.cxx:140-148 | a non-array gives the default, an array its entries |
| JsonCodec.EntryStrings | components/tools/JSON.cxx:159-160 | one string per entry, in order |
| JsonCodec.StringListFromJson | components/tools/JSON.cxx:151-163 | a non-array gives the default; an array gives one string per entry |
| JsonCodec.StringSetFromJson | components/tools/JSON.cxx:166-178 | a non-array gives the default; an array gives exactly the set of its entries' strings |
| JsonCodec.StringSetIsListMembers | components/tools/JSON.cxx:151-178 | the set decoder holds exactly the members of the list decoder's result |
| JsonCodec.PropertyObjectMapFromJson | components/tools/JSON.cxx:181-195 | a non-object gives the default; an object gives one member map per key |
| JsonCodec.ColorFromJson | components/tools/JSON.cxx:198-207 | empty text (including undefined and null) gives the default colour |
| JsonCodec.ParseJson | components/tools/JSON.cxx:14-23 | a document that parses to an object gives that object, anything else an empty object |
| JsonCodec.StringMapToJson | include/JSON.hpp:25-32 | one member per key, each the encoded value |
| JsonCodec.UrlMapToJson | include/JSON.hpp:34-41 | a member exists exactly for the text of some URL key |
| JsonCodec.UrlMapLastWins | include/JSON.hpp:37-40 | when two URLs share their text, the later entry's value is the one kept |
| JsonCodec.PairEntryToJson | include/JSON.hpp:49-54 | an entry is the encoded value with `nodes` set to the key pair, every other member kept |
| JsonCodec.PairMapToJson | include/JSON.hpp:43-57 | one array entry per key, in key order |
| JsonCodec.SetToJson | include/JSON.hpp:59-66 | one array element per set member, in iteration order |
| JsonCodec.SetToJsonCoversMembers | include/JSON.hpp:59-66 | the array is as long as the set and holds every member's encoding |
| StaticCore.Pow2 | components/staticcore/src/staticcore.cpp:161 | the shifted bit `1 << k` is at least 1 |
| StaticCore.Pow2Monotone | components/staticcore/src/staticcore.cpp:161 | the shifted bit grows with the shift, so the loop bound is reached |
| StaticCore.TypesOf | components/staticcore/src/staticcore.cpp:158-165 | the types returned are in the mask, supported by the component, and below `Component::Any` |
| StaticCore.TypesBelowIsTypesOf | components/staticcore/src/staticcore.cpp:161-163 | once the shift passes `Component::Any` the bits collected are exactly the types below it |
| StaticCore.FirstWith | components/staticcore/src/staticcore.cpp:69-83 | the first entry passing a test: it passes, no earlier entry does, and none is found iff no entry passes |
| StaticCore.FirstWithSnoc | components/staticcore/src/staticcore.cpp:72-80 | extending the searched prefix by one entry keeps an earlier find and otherwise tests the new entry |
| StaticCore.FirstWithExtends | components/staticcore/src/staticcore.cpp:72-80 | an entry found in a prefix stays the first of the whole list |
| StaticCore.FirstCompSnoc | components/staticcore/src/staticcore.cpp:72-80 | the component found in a longer prefix follows from the shorter prefix and the new entry |
| StaticCore.FirstRunningIsFound | components/staticcore/src/staticcore.cpp:76-79 | the loop stops at the first entry running as the type and returns its component |
| StaticCore.ComponentForProperties | components/staticcore/src/staticcore.cpp:69-83 | a component running as the type is preferred, and nothing is found only when no entry runs as or can be the type |
| StaticCore.Stopped | components/staticcore/src/staticcore.cpp:131-136 | after shutdown every entry is kept but runs as nothing |
| StaticCore.ShutdownCalls | components/staticcore/src/staticcore.cpp:131-136 | shutdown makes only shutdown calls, at most one per entry |
| StaticCore.ShutdownTwiceCallsNothing | components/staticcore/src/staticcore.cpp:129-137 | a second shutdown calls nothing and changes nothing |
| StaticCore.ShutdownCallsRunning | components/staticcore/src/staticcore.cpp:132-134 | exactly the components of running entries are shut down |
| StaticCore.ProcessCalls | components/staticcore/src/staticcore.cpp:138-150 | processing makes only process calls for the given type, at most one per entry |
| StaticCore.ProcessCallsSupporting | components/staticcore/src/staticcore.cpp:142-145 | exactly the components supporting the type are asked to process it |
| StaticCore.Attached | components/staticcore/src/staticcore.cpp:56-64 | the recorded entry can be the types of the mask it supports and runs as those not already running, or as none when startup fails |
| StaticCore.AttachKeepsExclusive | components/staticcore/src/staticcore.cpp:57-63 | attaching keeps the running types of different entries disjoint and within the running mask |
| StaticCore.Core.constructor | components/staticcore/src/staticcore.cpp:6-15 | a new core has nothing running, no configuration and no components |
| StaticCore.Core.GetTypes | components/staticcore/src/staticcore.cpp:158-165 | the shift loop returns exactly the supported types of the mask below `Component::Any` |
| StaticCore.Core.AttachComponent | components/staticcore/src/staticcore.cpp:41-67 | the entry is appended and its types join the running mask; the first config-capable component becomes the configuration when its `initFrom` succeeds; the result says whether it runs as anything |
| StaticCore.Core.GetComponent | components/staticcore/src/staticcore.cpp:69-83 | the loop returns the first component running as the type, else the first that can be it, else null |
| StaticCore.Core.ShutdownAll | components/staticcore/src/staticcore.cpp:129-137 | every running entry is shut down in order and stops running; the running mask and the configuration stay, and the core stays valid (no entry runs as anything any more) |
| StaticCore.Core.StopEach | components/staticcore/src/staticcore.cpp:129-137 | the loop clears the running types of every entry and makes one `shutdown()` call per running entry, in order |
| StaticCore.Core.ProcessAll | components/staticcore/src/staticcore.cpp:138-150 | every supporting component is asked to process the type, in order, and nothing else changes |
| Configurable.DataTypeString | include/configurable.h:126-145 | every type has a non-empty name |
| Configurable.TypeNamed | include/configurable.h:69-77 | the if-chain selects a type exactly when the name is one of "Bool", "Integer", "Float", "String", and then the one of that name |
| Configurable.DataTypeStringInjective | include/configurable.h:126-145 | two types share a name only when they are the same type |
| Configurable.TypeNamedOfName | include/configurable.h:126-145 | the name of a type selects that type |
| Configurable.SetParameter | include/configurable.h:65-81 | a known type name calls its typed setter with the key and raw value and answers its result; an unknown name answers false and calls nothing |
| Configurable.GetAsString | include/configurable.h:48-56 | a failed read answers false and leaves `val`; a successful one answers true with the converted value |
| Configurable.GetParameter | include/configurable.h:83-99 | an unknown type name answers false with `val` unchanged; otherwise the answer is that of the typed getter, strings read directly |
| Configurable.SetAndGetDispatchAlike | include/configurable.h:65-99 | a type name reaches the setter and getter of the same type, or neither |
| QxtWindowSystemX11.Strip | libs/libqxt/src/widgets/x11/qxtwindowsystem_x11.cpp:40-53 | the filtered title is never longer than the raw one |
| QxtWindowSystemX11.Utf8StripEscape | libs/libqxt/src/widgets/x11/qxtwindowsystem_x11.cpp:40-53 | the loop, whose index jumps two extra places at each ESC, returns exactly the filtered string |
| QxtWindowSystemX11.StripHasNoEscape | libs/libqxt/src/widgets/x11/qxtwindowsystem_x11.cpp:44-50 | no ESC character is left in a filtered title |
| QxtWindowSystemX11.StripWithoutEscapeIsIdentity | libs/libqxt/src/widgets/x11/qxtwindowsystem_x11.cpp:44-50 | a title without ESC comes back unchanged |
| QxtWindowSystemX11.StripIsSubsequence | libs/libqxt/src/widgets/x11/qxtwindowsystem_x11.cpp:44-50 | the filtered title keeps surviving characters in their original order: it is a subsequence of the raw title |
| QxtWindowSystemX11.FirstEscapeRemovesThree | libs/libqxt/src/widgets/x11/qxtwindowsystem_x11.cpp:46-47 | the text before the first ESC is kept, the ESC and at most two characters after it are dropped, and filtering resumes behind them |
| QtGeometry.FromXYWH | components/tools/JSON.cxx:268-269 | the rectangle built from x, y, width and height has exactly that left, top, width and height |
| QtGeometry.FromPointSize | components/ipc_server/src/ClientInfo.cxx:218 | the rectangle built from a corner and a size has that top-left corner and that size |
| QtGeometry.FromXYWHOfParts | components/tools/JSON.cxx:257-270 | a rectangle is rebuilt exactly from its left, top, width and height, so the array form of a rectangle loses nothing |
| QtGeometry.MovedResized | components/ipc_server/src/ClientInfo.cxx:227-229 | moving a rectangle to a corner and then resizing it gives that corner and that size whatever the rectangle was |
| QtGeometry.ContainsNonNegative | components/ipc_server/src/ClientInfo.cxx:1072-1077 | for a rectangle of non-negative size a point is inside iff it lies between the corners inclusive; an empty rectangle contains nothing |
| Common.IndexOf | addons/firefox/src/content/myjs.js:1791 | `indexOf` answers the first position of the character, or -1 exactly when it is absent |
| Common.LastIndexOf | addons/firefox/src/content/utils.js:64 | `lastIndexOf` answers the last position of the character, or -1 exactly when it is absent |
| Common.TrimStart | addons/firefox/src/content/ConceptGraph.js:114 | trimming the front drops a prefix and leaves no leading white space |
| Common.TrimEnd | addons/firefox/src/content/ConceptGraph.js:114 | trimming the end drops a suffix and leaves no trailing white space |
| Common.ToLower | addons/firefox/src/content/ConceptGraph.js:115 | every character is lower-cased in place, the length unchanged |
| Common.ReplaceFirst | addons/firefox/src/content/ConceptGraph.js:116 | `replace(':', '_')` changes only the first occurrence, or nothing when there is none |
| Common.ReplaceFirstOnlyFirst | addons/firefox/src/content/ConceptGraph.js:116 | after replacing the first occurrence the pattern remains exactly when it occurred again later |
| Common.StrLessIrreflexive | addons/firefox/src/content/ConceptGraph.js:216 | the default string order of `sort()` is irreflexive |
| Common.StrLessAsymmetric | addons/firefox/src/content/ConceptGraph.js:216 | the default string order is asymmetric |
| Common.StrLessTransitive | addons/firefox/src/content/ConceptGraph.js:216 | the default string order is transitive |
| Common.StrLessTotal | addons/firefox/src/content/ConceptGraph.js:216 | two different strings are always ordered |
| Common.InsertString | addons/firefox/src/content/ConceptGraph.js:216 | inserting into a sorted list keeps it sorted and adds exactly the one element |
| Common.SortStrings | addons/firefox/src/content/ConceptGraph.js:216 | `nodes.sort()` yields a sorted permutation of its input |
| Common.Dedup | addons/firefox/src/content/ConceptGraph.js:396 | `new Set(ids)` holds the same elements without duplicates, as a subsequence of the input |
| Common.DedupKeepsFirstOccurrences | addons/firefox/src/content/ConceptGraph.js:396 | deduplicating a prefix gives a prefix of the result: a `Set` iterates in order of first insertion |
| Common.Remove | addons/concept-graph/app.js:994 | `Set.delete` drops exactly that element and keeps the others distinct |
| Common.Select | components/ipc_server/src/ClientInfo.cxx:537-546 | filtering keeps exactly the elements with the chosen outcome, in their original order (a subsequence of the input) |

## Left out

- Rendering, windows and floating-point geometry are outside the model. This covers the OpenGL renderers, popups, previews, tile maps, `ClientInfo::updateRegions` and the layout and zoom code of the pages. `ClientInfo.Client.Update` takes the region flags that `updateRegions` would set as a parameter.
- The window system is not modelled: the X11 queries, `dconf` and the window sampling of `getWindowInfos` other than its maximized-window marking. Each sample and each launcher list is an input of `WindowMonitor.Monitor.Check`.
- Qt's integer types are unbounded here: overflow of `QPoint`/`QRect` arithmetic and of 32-bit coordinates is not modelled. Only `uint32_t` revisions wrap, explicitly.
- The rest of `qxtwindowsystem_x11.cpp` is not part of this model; only `utf8StripEscape` is.
- Case mapping is ASCII only. String order is by code point, and string length counts characters rather than UTF-16 units.
- JSON text parsing and script evaluation are not modelled. `QJsonDocument::fromJson`, `JSON.parse` and the relay's script engine are represented by their outcome, and a failed `JSON.parse` by its absence. Number precision beyond 2^53 and negative zero are not modelled.
- The conversions Qt performs through `QVariant` are function parameters: number to text, text to number, URL and colour parsing. So is the component's typed setter or getter in `Configurable`. `from_json` for `QPointF` and `float2` is left out, because it is floating point. So is `from_json<QPoint>` (JSON.cxx 226-231), which reads a `QPointF` and rounds it with `toPoint()`.
- The values of concept and relation properties are strings or null. The order of a JavaScript object's keys is not modelled. A relation's `source` and `target` object references are not kept; their ids are.
- `ConceptGraph.pushStateToServer` (ConceptGraph.js 738-762) is left out. It only builds a message for the server.
- `getSelectionIds`, `getSelection`, `getSelectedConcepts`, `getSelectedRelations`, `getConceptById` and `getRelationById` are left out. They are direct projections of the maps, covered by `GetByIdSpec` and the selected-id functions.
- The `&& false` layout branch of the store's message handler (ConceptGraph.js 710) is left out; it is dead code.
- In the store alone, a callback that calls back into the store while an event is being fired is recorded as a call only.
- On the graph page, the handlers of `concept-new`, `relation-new`, `selection-add`, `selection-remove` and `concept-update` are modelled; the others only redraw. The store's events are handled after each store operation, in firing order, rather than from inside it. This gives the same result wherever the event is the operation's last effect, as it is for every operation the page's `onmessage` reaches (all run without sending).
- On the graph page, the `storage` listener (app.js 1640-1653) and the page's own edits through dialogs and keys are not modelled; only `links_socket.onmessage` drives the store.
- AppClient.OnUnhandledSpec: the answer to `GET /state/all` (app.js 200-222) is not sent, because it only carries the floating-point layout of the concepts; OPENED-URLS-UPDATE and GET-FOUND `/desktop/size` only update display state and settings.
- In-place changes to argument objects are not modelled: `addConcept` writes `name`, `id` and `task` into its `cfg` (ConceptGraph.js 125-135); `addRelation` sorts `cfg.nodes` in place, sets `source`, `target` and `id`, and the stored relation shares that array (216, 240-242); `addReference` sets `cfg.selections` and `icon` (341-342); utils.js 87 fills in a missing title; `handleMessage` deletes `msg.task` (651-674). The model treats every message and configuration as a value that the call leaves alone, so a caller that reuses such an object afterwards is not covered.
- FirefoxClient: the route table is a map keyed by id. The add-on's `active_routes` is a plain object, whose lookups also answer inherited names such as `constructor` or `toString`; an id equal to one of those is not modelled.
- FirefoxClient.OnRequestSpec: the refs a REQUEST passes on to the scheduled search are not recorded; only the id is.
- Favicons are identified by their data text; image loading and drawing are not modelled. The base-domain lookup of `getBaseDomainFromHost` is a parameter.
- Sockets, `localStorage`, `setTimeout` and the clock are explicit inputs and recorded effects. The result of the server ping is a parameter. An exception thrown by `WebSocket.send` itself is not modelled, only the missing-socket case.
- Removing event listeners in the add-on's `stop` is not modelled; the sockets and timers it clears are.
- In the add-on, the document search of `reportVisLinks` is not modelled, and neither are its regions, `onScroll`, the menu items, `gFindBar` and `do_report`. A REQUEST records the search it schedules.
- The add-on's SYNC fields other than those the route table uses are left out, and so is its handling of `/routing` in GET-FOUND.
- `handleSyncMsg` and the image map's `findBoundingBox` of the whole image are left out. The area parser and its shapes are modelled.
- On the graph page, the regions and `circlePoints` of FOUND, OPENED-URLS-UPDATE and `GET /state/all` are left out; they only feed drawing.
- The relay's writes into every tab's storage (`_distributeMessageImpl`, BrowserServer.js 63-95) are recorded as one append per distributed message.
- Mutexes and wait conditions of the IPC server are left out. The model is sequential.
- LinkDescriptionH.ConstLinkPointsAsWritten: models the unbounded self-call of `getLinkPoints() const` with a fuel bound. Each unit of fuel is one nested call, and running out stands for the stack overflow.
- LinkDescriptionCpp.ConstChildLinkPointsAsWritten: likewise models the unbounded self-calls of the const overloads with a fuel bound.
- IpcServer.RequestText: its own contract only fixes the start of the text. The round trip of the id is the separate lemma `RequestCarriesId`.
- IpcServer.RequestTextAsWritten: its own contract only fixes the start of the text. The round trip of an id without backslashes is the separate lemma `RequestAsWrittenCarriesId`. INITIATE broadcasts this as-written text, as the relay does; the corrected `RequestText` is not what the relay sends.

## Findings

| source | as written | input that shows it | evidently intended | confidence | as-written member | corrected member |
|---|---|---|---|---|---|---|
| include/linkdescription.h:128 | `getLinkPoints() const` calls `getLinkPoints()` on a const `this`, which resolves to itself | any call on a const `Node`: the recursion never ends | return the link points, or the vertices when there are none, as the non-const overload does | high, not executed | LinkDescriptionH.ConstLinkPointsNeverReturns | LinkDescriptionH.LinkPointsOf |
| components/tools/linkdescription.cpp:85-101 | the const `getLinkPoints()` and `getLinkPointsChildren()` call themselves | any call on a const `Node`: the recursion never ends | the same fallbacks as the non-const overloads | high, not executed | LinkDescriptionCpp.ConstChildLinkPointsNeverReturn | LinkDescriptionCpp.ChildLinkPointsOf |
| components/ipc_server/src/ipc_server.cpp:236 | the REQUEST text escapes only `"` in the link id | the id `a\`: its backslash escapes the closing quote, so the id is not read back | escape backslashes as well, so that every id reads back | high, not executed | IpcServer.EscapeQuotesAsWrittenBreaksId | IpcServer.EscapeJsonStringRoundTrip |
| addons/firefox/src/content/myjs.js:1398 | the REQUEST branch reads `msg.data.refs` without checking that `data` exists | `{"task": "REQUEST", "id": "foo", "stamp": 5}`, which is what the relay's INITIATE sends: the pair is recorded, then the read throws and no report is scheduled | read the refs only when `data` is present, so every new request schedules a report | medium, not executed | FirefoxClient.DatalessRequestSchedulesNothing | FirefoxClient.OnRequestIntended |
