# Second Brain core: a verified model

A Dafny model of the core of the Second Brain repository: the append-only memory log and the SQLite
projections that are rebuilt from it, the JSON-lines protocol between the retrieval client and its Python
sidecar, the chunker and the hybrid ranker of the retrieval pipeline, ULIDs, the printed raw note and the
scanners that read it back, the media ledger that depends on that round trip, and the provenance of notes.

`dafny verify dfyconfig.toml` checks everything. No part of the original program is executed.

## How it is organised

| file | what it models |
|---|---|
| `Wrappers`, `Text`, `Order`, `Lists` | Option and Result, newline framing and trimming, string order, filtering with the places of what is kept |
| `Json`, `JsonString`, `JsonText` | JSON values and the two JSON libraries; JSON strings; a printer whose text determines the value, so that a lawful codec exists |
| `SidecarState`, `SidecarClient` | the client's state machine as functions on its state, and the class whose methods refine them |
| `SidecarServer`, `SidecarSystem`, `SidecarUndrained` | the Python side of the protocol, both sides joined by byte streams, and a run that shows why a dead child must be drained |
| `MergeMap`, `Projector`, `FactRecord` | entity resolution, the fold of the log, and the event and row one fact is recorded as |
| `EventLog`, `EventChecks` | the memory stream as a text file: validated appends, and reading it back; which recorded events pass |
| `Interleaving`, `Supersede` | recording and rebuilding as steps of many processes; the supersede forest and the current-facts view |
| `Store`, `EntityGraph`, `Workspace` | the projection database, entity nodes, edges and merges, and the whole rebuild |
| `Chunker`, `Ranker` | sectioning, splitting and packing of a note; normalisation, merging and top-k over reals |
| `Ulid`, `NoteFormat`, `NoteFields`, `NoteTitle` | time encoding; printing a raw note and the three scanners of its frontmatter; the whole note read back; which title the line reader finds |
| `MediaReader`, `MediaLedger` | the intake's pattern search over printed notes, and one note per media id over every run |
| `Provenance`, `Citations` | capture, promote, distill and compose as interleaved steps over one vault and one log; when each source of an output was looked up |
| `NoteCommands` | the commands that write notes, run alone, and their refinement of those steps |

Code that updates state in place is a class (`SidecarClient`, `ProjectionStore`, `Workspace`,
`MemoryStreamFile`, `MediaIntake`, `NoteVault`); loops stay loops. Each method is proved against a
specification function, and what the repository promises is proved about that function, over all inputs or
all runs. What the outside world decides (a failing disk, spawn, database statement or append, a generated
id, the time) is a parameter or a step of its own.

## Assumptions, stated where they are used

- `Json.Codec.Lawful`, `Json.Codec.LawfulAlone`: what one JSON library prints, the reader gets back, on one
  line. They are preconditions, about values whose numbers are finite binary64 numbers; `JsonText.LawfulCodec`
  proves that a codec with printed texts after RFC 8259 meets both. A Python integer stands for the binary64
  number nearest to it.
- `SidecarSystem.Enabled`: when a request replaces a dead child, that child's output has been delivered.
  The client's handlers do not know which child a chunk comes from; `SidecarState.LateOutputFailsEveryone`
  shows what happens otherwise, and `SidecarUndrained.DrainingIsNeeded` is a whole run of it.
- `Provenance.TitleFor`: the YAML parser reads the type and the quoted title of a printed raw note as printed.
- `Interleaving.Enabled`: generated fact ids are fresh; one append and one read of the log are atomic.
- `MediaLedger.IsHash`: the hash prints 64 lower-case hexadecimal digits. Equal hashes count as equal content.
- `MediaLedger.Admissible`: only ingests write media blocks, and their titles mask no key. The exact
  condition on the title is a theorem of its own (`MediaLedger.TitleDecides`).

## Where the code differs from what is written about it

- `ulid.ts` says `isUlid` accepts every generated value. It does exactly for times below 2^48 modulo 2^50
  (`Ulid.NewMatchesPattern`).
- `validateFactInput` does not look at `captured_at`. A fact recorded with an empty one cannot be replayed,
  and no later rebuild commits (`FactRecord.RecordedReplays`, `Interleaving.EmptyCapturedAtStopsRebuilds`).
- `validateFactInput` asks for an ISO-8601 `observed_at` but checks only that it is not empty, and not the actor; the
  append then refuses the event (`EventChecks.FactEventPasses`).
- The error text of the fold asks for a non-empty `merged` array; the code accepts an empty one
  (`Projector.EmptyMergedAccepted`).
- `mergeEntities` lets two entities be merged into each other (`EntityGraph.MergesMayCycle`); resolution
  stays total and idempotent on such maps (`MergeMap.ResolveIdempotent`).
- A packed chunk can reach three times the target, not twice: separators are not counted while packing
  (`Chunker.PackedLengthIsTight`, with the body of a note that does it).
- `resolve(next(x)) = resolve(x)` fails on cycles of several entities, and only there (`MergeMap.ResolveNext`).
- A title that holds U+2028 or U+2029 is printed unescaped and cut by the line reader
  (`NoteFormat.TitleReadBackIff`). Such a character in another string can make up a title for a note that has none
  (`NoteTitle.AbsentTitleIff`).
- A title whose printed form ends in `media_id:` makes the ledger blind for that note: the same request writes
  a second one (`MediaLedger.TitleDecides`, `MediaLedger.MaskingTitles`).
- The TypeScript and Python frontmatter parsers disagree on the body when the closing dashes are followed by
  anything but a newline (`NoteFormat.SplittersAgree`).
- Accepting a distillation does not look its source up. Its origin resolves afterwards exactly when it did
  before or is the new note itself (`Provenance.DistilledCitedIff`), so it may dangle
  (`Provenance.DistilledMayDangle`).

## Model

| member | source | states |
|---|---|---|
| SidecarState.ChunkingIrrelevant | packages/retrieval/src/sidecar-client.ts:153-162 | Any way of cutting the sidecar's output into chunks leads to the state that one single chunk leads to. |
| SidecarState.ExactlyOnce | packages/retrieval/src/sidecar-client.ts:72-107 | After every run each issued request id is either pending with an armed timer or settled, and settled once; ids never issued are neither. |
| SidecarState.RunAccounted | packages/retrieval/src/sidecar-client.ts:200-217 | Every run of requests, chunks, timers, write errors, child events and shutdown keeps issued ids equal, as a multiset, to pending plus settled ones. |
| SidecarState.WaitEnds | packages/retrieval/src/sidecar-client.ts:91-107 | A waiting promise is ended by its own timer or failed write, or by an error or the close event of a child; each settles it in its own way, and the first two leave the others waiting. |
| SidecarState.BareEnvelopes | packages/retrieval/src/sidecar-client.ts:186-198 | An answer without data resolves with the empty object; an error without code and message is reported as unknown. |
| SidecarState.CloseLeavesNothingPending | packages/retrieval/src/sidecar-client.ts:110-123 | When the awaited close event of the child has come, every issued id is settled, no timer is armed, and no later event changes that. |
| SidecarState.LateOutputFailsEveryone | packages/retrieval/src/sidecar-client.ts:125-137 | The tail of a line begun by a dead child, arriving after a respawn, fails every request that waits for the new child. |
| SidecarUndrained.DrainingIsNeeded | packages/retrieval/src/sidecar-client.ts:125-171 | Without draining, and over a lawful codec, there is a run in which the tail of a dead child's answer fails the request sent to its live successor, which has not even read it. |
| SidecarClient.SidecarClient.Request | packages/retrieval/src/sidecar-client.ts:72-107 | An accepted request gets the next id, waits with an armed timer, and one line with its op, id and arguments is added to the usable child's stdin; a refused one changes neither child nor stdin. |
| SidecarClient.SidecarClient.EnsureSpawned | packages/retrieval/src/sidecar-client.ts:125-151 | A running child is kept; otherwise the partial line is dropped and, if spawning succeeds, a fresh child takes its place. |
| SidecarClient.SidecarClient.OnStdout | packages/retrieval/src/sidecar-client.ts:153-162 | The buffer-draining loop handles exactly the complete lines, in order, and keeps exactly the partial one. |
| SidecarClient.SidecarClient.OnLine | packages/retrieval/src/sidecar-client.ts:164-198 | Blank and late lines change nothing; a line that is no envelope fails all pending requests; an envelope settles its own. |
| SidecarClient.SidecarClient.Settle | packages/retrieval/src/sidecar-client.ts:200-211 | A pending id leaves the table, its timer is cleared and it is settled once; any other id changes nothing. |
| SidecarClient.SidecarClient.FailAllPending | packages/retrieval/src/sidecar-client.ts:213-217 | Settling in map order empties the table and clears all of its timers, whatever else is armed. |
| SidecarClient.SidecarClient.OnTimer | packages/retrieval/src/sidecar-client.ts:91-99 | A firing timer removes its own request and rejects it with a timeout. |
| SidecarClient.SidecarClient.Close | packages/retrieval/src/sidecar-client.ts:110-123 | Shutdown forgets the child and waits exactly when that child was still running, whose stdin is then ended and otherwise unchanged. |
| JsonText.PrintUnique | packages/retrieval/src/sidecar-client.ts:101 | Two JSON values with the same printed text, up to what may follow a value, are the same value. |
| JsonText.NumeralDenotes | packages/retrieval/src/sidecar-client.ts:101 | The numeral printed for a binary64 number denotes that number exactly. |
| JsonText.LawfulCodec | sidecars/retrieval/src/retrieval_sidecar/server.py:21 | There is a codec that reads back every value it prints, on one non-blank line: the assumption of the protocol and of the event log can be met. |
| SidecarServer.Serve | sidecars/retrieval/src/retrieval_sidecar/server.py:16-26 | One response line per non-blank input line, in order. |
| SidecarServer.AlwaysAnEnvelope | sidecars/retrieval/src/retrieval_sidecar/protocol.py:52-86 | Whatever a line holds and whatever a handler does, the answer is one line that the client reads back as an envelope. |
| SidecarSystem.AnswerMeans | sidecars/retrieval/src/retrieval_sidecar/protocol.py:52-73 | The line sent for a call is answered, under its id, by a line the client reads as exactly what the handler came to: data resolves, a reported and a raised error and an unknown op are each told apart. |
| SidecarSystem.RequestMeans | sidecars/retrieval/src/retrieval_sidecar/protocol.py:52-73 | Any object is answered under its id, if it has one; it is refused as malformed if and only if it lacks an id or a text for its op or, for a known op, has arguments that are no object. |
| SidecarSystem.NoObjectMeans | sidecars/retrieval/src/retrieval_sidecar/protocol.py:76-86 | A line that holds no object is refused as malformed, under no id. |
| SidecarServer.ServedAppend | sidecars/retrieval/src/retrieval_sidecar/server.py:16-26 | Serving input in two parts writes what serving it at once writes. |
| SidecarSystem.EndToEnd | packages/retrieval/src/sidecar-client.ts:72-211 | For every interleaving, chunking, delay, timeout, write error and child death: a request resolves only with the data the handler of its own op returned for its own arguments, a sidecar error is what that handler reported or raised, or an unknown op, a timeout, failed write or exit is reported only when it happened, and no two calls share an id. |
| SidecarSystem.ArrivedMeansSettled | packages/retrieval/src/sidecar-client.ts:153-211 | An answer line that has wholly arrived has settled its call: answers are not lost while someone waits. |
| SidecarSystem.RequestIsSent | packages/retrieval/src/sidecar-client.ts:72-107 | An accepted request is written to the running child, or to a new one, under the next id, and waits with an armed timer. |
| SidecarSystem.DrainAnswers | packages/retrieval/src/sidecar-client.ts:72-211 | Progress: in every reachable world a call waiting for a running child is settled, as what its handler comes to, once the child has read its input and its output is delivered. |
| MergeMap.ResolveEntity | packages/memory-kernel/src/projector.ts:125-133 | The loop ends after at most as many hops as there are merges, on every map, at the id the chain reaches after that many hops. |
| MergeMap.ResolveIsFirstStop | packages/memory-kernel/src/projector.ts:125-133 | Resolution gives the first id of the chain that is unmapped or on a cycle. |
| MergeMap.ResolveIdempotent | packages/memory-kernel/src/projector.ts:125-133 | Resolving twice is resolving once, and exactly the unmapped and the on-cycle ids are fixed. |
| MergeMap.ResolveNext | packages/memory-kernel/src/projector.ts:125-133 | One merge further on the answer is the same if and only if the id is not on a cycle of several ids. |
| MergeMap.UnionLaw | packages/memory-kernel/src/projector.ts:93-99 | Merging an unmapped duplicate keeps an acyclic map acyclic if and only if the canonical id does not resolve to it; then exactly the ids that resolved to the duplicate move. |
| MergeMap.RemergeLaw | packages/memory-kernel/src/projector.ts:93-99 | The same law for a duplicate that is merged again, over the map without its old entry. |
| MergeMap.ResolveDecidesConnection | packages/memory-kernel/src/projector.ts:125-133 | In an acyclic map two ids resolve alike if and only if confirmed merges connect them. |
| Projector.ProjectEvents | packages/memory-kernel/src/projector.ts:136-140 | The loop is the fold; the first rejected event ends it. |
| Projector.CurrentFacts | packages/memory-kernel/src/projector.ts:146-152 | The facts no other fact supersedes, in the fold's order. |
| Projector.CurrentInOrder | packages/memory-kernel/src/projector.ts:146-152 | The current facts are exactly those no fact points at, in the order of the fold. |
| Projector.FactsAreLast | packages/memory-kernel/src/projector.ts:81-92 | The replay has every recorded fact, as the last event that records it gives it. |
| Projector.OrderIsFirstRecorded | packages/memory-kernel/src/projector.ts:81-92 | The fold lists its facts in the order in which the log first records them. |
| Projector.MergesAreLast | packages/memory-kernel/src/projector.ts:93-99 | An id is in the replayed merge map if and only if some merge event lists it, and it goes to the subject of the last that does. |
| Projector.ReplaySucceedsIff | packages/memory-kernel/src/projector.ts:81-119 | A log replays if and only if each event is accepted on its own, so one bad event fails every replay. |
| Projector.EmptyMergedAccepted | packages/memory-kernel/src/projector.ts:108-119 | A merge event with an empty list is accepted and leaves the state as it was. |
| Projector.ProjectSnoc | packages/memory-kernel/src/projector.ts:136-140 | Replaying a longer log applies the last event to the replay of the others. |
| Projector.ProjectOrdered | packages/memory-kernel/src/projector.ts:81-92 | The insertion order of the folded fact map lists each fact once, under its own id. |
| FactRecord.ValidateFirst | packages/fact-store/src/add-fact.ts:66-83 | Which check fails first, and that a fact passes if and only if it has a statement, a ULID source, an observation time and a confidence from 0 to 1. |
| FactRecord.RecordedReplays | packages/fact-store/src/add-fact.ts:92-161 | A recorded event carries the kind, ids, actor, source and time it was recorded with, and replaying it gives the very row inserted live if and only if `captured_at` is not empty; otherwise the replay rejects it. |
| EventLog.MemoryStreamFile.Append | packages/event-log/src/memory-event.ts:60-98 | An invalid event or a failing disk appends nothing; a success adds one line at the end and rewrites nothing. |
| EventLog.ProblemFirst | packages/event-log/src/validate-event.ts:102-123 | Exactly which events pass validation, and which of the first fields is named. |
| EventLog.MemoryStreamFile.ReadAll | packages/event-log/src/read-events.ts:12-29 | Reading gives back every event appended so far, in order. |
| EventLog.ReadsBack | packages/event-log/src/read-events.ts:12-29 | The text any sequence of appends leaves is split, filtered and parsed into exactly that sequence of events. |
| EventLog.ParseLinesMeans | packages/event-log/src/read-events.ts:26-29 | Any file reads as the events of its lines that are not empty, in order, and fails to read if one of those is no JSON. |
| EventLog.FromToJson | packages/event-log/src/memory-event.ts:67-78 | The JSON object written for an event, optional fields included, is read back as that event. |
| EventLog.AlsoWritten | packages/event-log/src/memory-event.ts:67-78 | The line also carries the recording time and the schema version. |
| EventChecks.FactEventPasses | packages/fact-store/src/add-fact.ts:66-135 | A fact that passed its own checks is appended if and only if its observation time is a date and its actor well formed; otherwise just that field is named. |
| EventChecks.CommandEventsPass | packages/event-log/src/validate-event.ts:102-123 | Merges, outputs and accepted distillations with ULIDs always pass the validation when their time is a date. |
| EventChecks.KnownActors | packages/event-log/src/validate-event.ts:25 | Which actors are well formed: the human, the CLI, and skills and sidecars with a plain name. |
| Interleaving.LiveAgreesWithReplay | packages/fact-store/src/add-fact.ts:92-161 | In every reachable state of concurrent recordings and rebuilds the committed rows are among the replayed facts, and equal them if and only if each fact event was inserted live or read by a committed rebuild. |
| Interleaving.ReplayableIff | packages/memory-kernel/src/projector.ts:63-74 | The log of any run replays if and only if no recorded fact has an empty `captured_at`. |
| Interleaving.EmptyCapturedAtStopsRebuilds | apps/cli/src/rebuild-command.ts:48-71 | Once such a fact is in the log and no open transaction has read the log yet, no rebuild ever commits again. |
| Interleaving.TargetsComeFirst | packages/fact-store/src/add-fact.ts:116-143 | In every run a superseding event's target was recorded strictly earlier in the log. |
| Interleaving.LogGrows | packages/event-log/src/memory-event.ts:80-89 | Every run only extends the log at its end. |
| Interleaving.RunKeeps | packages/fact-store/src/add-fact.ts:92-161 | Checks, appends, inserts, rebuild steps and crashes of any number of processes keep the invariant that ties rows, log, calls under way and the open transaction together. |
| Supersede.CorrectionsEnd | packages/memory-kernel/src/projector.ts:142-152 | From any fact of any run a chain of corrections, strictly forward in the log, ends in a current fact. |
| Supersede.CurrentIff | packages/memory-kernel/src/projector.ts:146-152 | A fact event is uncorrected in the log if and only if its fact is among the current facts of the replay. |
| Supersede.CurrentCount | packages/memory-kernel/src/projector.ts:146-152 | There are as many current facts as facts less distinct superseded ids. |
| Supersede.ListCurrentFacts | packages/fact-store/src/query.ts:36-56 | The statement assembled step by step is the one for the given filters and limit. |
| Supersede.ViewMatchesFold | packages/fact-store/src/query.ts:36-56 | Over rows equal to the fold the view lists exactly the fold's current facts that pass the filters, by ascending id, cut at a non-negative limit. |
| Store.ProjectionStore.Commit | packages/memory-kernel/src/store.ts:162-176 | A commit publishes the open transaction's tables or, failing, publishes nothing. |
| Store.ProjectionStore.Close | packages/memory-kernel/src/store.ts:162-176 | Closing discards what was not committed. |
| Store.ProjectionStore.InsertFact | packages/fact-store/src/add-fact.ts:49-64 | One more row, unless the statement faults or the id is taken; then nothing changes. |
| Store.ProjectionStore.InsertEntityEdge | packages/memory-kernel/src/store.ts:74-78 | The unique index: an edge that is already there is rejected, and nothing changes. |
| EntityGraph.ProjectEntities | packages/entity-graph/src/project-entities.ts:60-93 | On success the node table is that of the notes; on a note without a title it is that of the notes before it, which only a surrounding transaction undoes. |
| EntityGraph.NodeCountIff | packages/entity-graph/src/project-entities.ts:67-88 | The reported count is the number of rows if and only if no two entity notes share an id. |
| EntityGraph.NodeRowMeans | packages/entity-graph/src/project-entities.ts:67-88 | The row of an id is that of the last note with it: its title, the frontmatter's first, and its non-empty aliases in order. |
| EntityGraph.ProjectEdges | packages/entity-graph/src/project-edges.ts:56-84 | The edge table is the deduplicated image of the references, the unique index never rejects a row, and the count is the number of rows. |
| EntityGraph.RefsInOrder | packages/entity-graph/src/project-edges.ts:22-26 | The references are exactly the ULID texts of the notes' `entities` arrays, in the order of the listing and of the arrays. |
| EntityGraph.EdgesOfNotes | packages/entity-graph/src/project-edges.ts:56-84 | A pair off the diagonal is an edge if and only if some item of some note's array resolves to it; the edge carries the first such note. |
| EntityGraph.EdgesAreQuotient | packages/entity-graph/src/project-edges.ts:60-80 | Edges are exactly the reference pairs with both ends resolved, off the diagonal, each with the note of its first reference. |
| EntityGraph.EndpointsResolved | packages/entity-graph/src/project-edges.ts:69-72 | Every end of an edge is fixed by resolution. |
| EntityGraph.MergeCollapsesEdges | packages/entity-graph/src/project-edges.ts:60-80 | A merge under the union law maps the old edge set through the collapse, less the self-loops. |
| EntityGraph.SeenKeyInjective | packages/entity-graph/src/project-edges.ts:73 | The joined deduplication key tells pairs apart, because targets have one length. |
| EntityGraph.ReplayedMergesAreUlids | packages/event-log/src/validate-event.ts:102-122 | A log of validated events replays to a merge map whose targets are ULIDs. |
| EntityGraph.MergeEntities | packages/entity-graph/src/merge-entities.ts:33-79 | Which check, or the append, fails; a recorded merge is one more event at the end of the log, after which the replayed map has exactly that entry more and is still acyclic if and only if the canonical id did not resolve to the duplicate. |
| EntityGraph.MergeEventFolds | packages/entity-graph/src/merge-entities.ts:67-76 | A recorded merge adds one entry to the folded map, replacing an older one of the duplicate, and leaves the facts alone. |
| EntityGraph.MergesMayCycle | packages/entity-graph/src/merge-entities.ts:44-62 | If one entity may be merged into another, the other may be merged into it as well, and the two then resolve to themselves. |
| Workspace.Workspace.RefillTables | apps/cli/src/rebuild-command.ts:51-68 | Inside the transaction the four tables become a function of the log and the vault. |
| Workspace.RebuiltNodes | packages/note-vault/src/read-notes.ts:113-127 | The rebuilt node table has the ids of exactly the entity notes of the vault, and each row says what the last entity note with that id says. |
| Workspace.RebuiltEdges | packages/entity-graph/src/project-edges.ts:56-84 | A pair is a rebuilt edge if and only if an item of an entity note of the vault resolves to it, off the diagonal; the edge names the first such note. |
| Workspace.TaskIff | packages/task-store/src/project-tasks.ts:57-71 | A note is a task if and only if it has a status that is not blank and a title, and its row has just these, its id and its update time. |
| Workspace.TaskRowIds | packages/task-store/src/project-tasks.ts:57-71 | The task table has the ids of exactly the notes that are tasks. |
| Workspace.TaskRowMeans | packages/task-store/src/project-tasks.ts:57-71 | Its row for an id says what the last task note with that id says. |
| Workspace.Workspace.RunRebuild | apps/cli/src/rebuild-command.ts:42-94 | A throw inside the transaction leaves all tables and the projection log as they were; a commit leaves tables that depend on the log and the vault only; then the reset and rebuilt events, each only after the one before. |
| Workspace.Workspace.RecordFact | packages/fact-store/src/add-fact.ts:92-161 | Which check fails first; that an error before the append changes nothing; that a failed insert leaves the event and no row; that success is the run of the three steps. |
| Workspace.Workspace.SupersedeFact | packages/fact-store/src/supersede-fact.ts:19-26 | A correction needs an existing target and changes or removes no row and no event. |
| Workspace.AloneRun | packages/fact-store/src/add-fact.ts:92-161 | The three steps of one call, run alone, append its event and insert its row. |
| Chunker.SplitSections | sidecars/retrieval/src/retrieval_sidecar/chunking.py:32-46 | The loop yields the stripped, non-empty groups of lines. |
| Chunker.LinesCut | sidecars/retrieval/src/retrieval_sidecar/chunking.py:35 | The body is its lines with their ends, no line holds a line break, a carriage return with a newline is one end and only the last line may have none. |
| Chunker.HeadingIff | sidecars/retrieval/src/retrieval_sidecar/chunking.py:17 | A heading line starts with one to six hash marks and a space. |
| Chunker.HeadingsStartSections | sidecars/retrieval/src/retrieval_sidecar/chunking.py:32-46 | The groups partition the lines in order, headings only ever come first in a group, and every group but the first starts with one. |
| Chunker.SectionsAreTexts | sidecars/retrieval/src/retrieval_sidecar/chunking.py:32-46 | The sections are the joined and stripped groups that are not blank, in order. |
| Chunker.SplitOversized | sidecars/retrieval/src/retrieval_sidecar/chunking.py:49-63 | The splitting loop cuts a section into the paragraph or fixed-width pieces of the specification. |
| Chunker.ParagraphsCut | sidecars/retrieval/src/retrieval_sidecar/chunking.py:53 | Paragraphs joined by blank lines are the section again; none holds a blank line, and each cut is as early as possible. |
| Chunker.OversizedMeans | sidecars/retrieval/src/retrieval_sidecar/chunking.py:49-63 | A section within the target is one piece; of a longer one each stripped paragraph gives, in order, nothing if blank, itself if it fits, and else pieces of 2048 characters but the last. |
| Chunker.PiecesFit | sidecars/retrieval/src/retrieval_sidecar/chunking.py:49-63 | Every piece is non-empty and at most 2048 characters long. |
| Chunker.Pack | sidecars/retrieval/src/retrieval_sidecar/chunking.py:66-78 | The packing loop joins the greedy runs. |
| Chunker.PackIsOptimal | sidecars/retrieval/src/retrieval_sidecar/chunking.py:66-78 | Greedy runs partition the pieces in order, each within the target, and no order-preserving partition within the target has fewer runs. |
| Chunker.PackedLength | sidecars/retrieval/src/retrieval_sidecar/chunking.py:66-78 | A packed text is as long as its pieces plus two per join, and never reaches three times the target less one. |
| Chunker.HeadingBodyPieces | sidecars/retrieval/src/retrieval_sidecar/chunking.py:32-63 | A body of n lines of a heading mark and a space is cut into n one-character pieces. |
| Chunker.PackedLengthIsTight | sidecars/retrieval/src/retrieval_sidecar/chunking.py:81-95 | The note with 2048 such lines has a single chunk, of 6142 characters: the bound is reached. |
| Chunker.ChunkNote | sidecars/retrieval/src/retrieval_sidecar/chunking.py:81-95 | Chunks are numbered 0..n-1, and each carries its note's id and the text at its number. |
| Chunker.TitleLeads | sidecars/retrieval/src/retrieval_sidecar/chunking.py:88-91 | A title leads the first text, stripped, or makes up the only one; all other texts are as without it. |
| Chunker.ChunksConserve | sidecars/retrieval/src/retrieval_sidecar/chunking.py:81-95 | The non-white-space characters of all chunk texts, in order, are the title's followed by the body's, and every piece packed fits. |
| Ranker.HybridRows | sidecars/retrieval/src/retrieval_sidecar/querying.py:179-204 | The merging and sorting loops give the specified ranking. |
| Ranker.RowMeans | sidecars/retrieval/src/retrieval_sidecar/querying.py:168-204 | Every row of the result is scored by weight times the vector ranker's and the rest times the lexical ranker's min-max score, 1 in a flat list and 0 where absent; note and snippet are those of the id's first vector row or else of its first lexical one. |
| Ranker.OneRankerDecides | sidecars/retrieval/src/retrieval_sidecar/querying.py:188-203 | At weight 1 any two rows of the vector list come in that ranker's own order, at weight 0 any two of the lexical list in that one's. |
| Ranker.NormalizedAt | sidecars/retrieval/src/retrieval_sidecar/querying.py:168-176 | What a row's normalised score is, including the case of a single score value. |
| Ranker.ScoresInUnit | sidecars/retrieval/src/retrieval_sidecar/querying.py:168-204 | With a weight in [0, 1] every candidate scores within [0, 1]. |
| Ranker.CandidatesAreUnion | sidecars/retrieval/src/retrieval_sidecar/querying.py:179-196 | The candidates are the union of both lists, each id once. |
| Ranker.HybridIsTopK | sidecars/retrieval/src/retrieval_sidecar/querying.py:196-204 | The result has k rows, or all; it is sorted by score descending and id ascending, and every other candidate comes after each of its rows. |
| Ranker.MixedMonotone | sidecars/retrieval/src/retrieval_sidecar/querying.py:179-196 | A candidate no worse in both lists never scores lower. |
| Ranker.PermutationInvariant | sidecars/retrieval/src/retrieval_sidecar/querying.py:168-204 | Permuting either list of distinct ids does not change the ranking. |
| Ranker.AffineInvariant | sidecars/retrieval/src/retrieval_sidecar/querying.py:168-204 | A positive affine map of either ranker's raw scores does not change the ranking. |
| Ulid.EncodeTime | packages/interfaces/src/ulid.ts:19-28 | The loop computes the ten base-32 digits of the time. |
| Ulid.TimeRoundTrip | packages/interfaces/src/ulid.ts:19-28 | Ten characters that decode to the time modulo 2^50, hence to the time itself below that. |
| Ulid.TimeOrder | packages/interfaces/src/ulid.ts:19-28 | Below 2^50 string order of the encodings is the order of the times, both ways. |
| Ulid.LeadingDigit | packages/interfaces/src/ulid.ts:19-28 | The first character is 0 to 7 if and only if the time modulo 2^50 is below 2^48. |
| Ulid.NewMatchesPattern | packages/interfaces/src/ids.ts:12 | A generated id matches the ULID pattern if and only if the time modulo 2^50 is below 2^48. |
| Ulid.NewSortsByTime | packages/interfaces/src/ulid.ts:39-41 | Ids of different milliseconds sort by time, whatever their random parts. |
| Ulid.RandomPartDecodes | packages/interfaces/src/ulid.ts:30-36 | The random part carries the low five bits of every random byte, in order. |
| NoteFormat.BuildFrontmatter | packages/note-vault/src/raw-note-writer.ts:100-126 | The pushed lines, joined, are the specified frontmatter for every combination of optional parts. |
| NoteFields.NoteRoundTrip | packages/note-vault/src/raw-note-writer.ts:100-158 | A printed note, read as the block mapping its lines are, is the note again: id, title, time, source, reference, media block, tags and content. |
| NoteFormat.UnquoteQuote | packages/note-vault/src/read-notes.ts:64-74 | Every string is read back from its printed form. |
| NoteFormat.PrintedFence | packages/note-vault/src/frontmatter.ts:22-30 | The first closing fence a scanner finds in a printed note is the printed one, whatever title, tags or content hold. |
| NoteFormat.BodiesVerbatim | packages/note-vault/src/frontmatter.ts:22-42 | The line reader, the TypeScript parser and the Python parser all cut out the printed block, and both parsers return one newline and the verbatim content. |
| NoteFormat.SplittersAgree | sidecars/retrieval/src/retrieval_sidecar/notes.py:39-49 | On any text with a closing fence the scanners agree on the block, and the two parsers agree on the body if and only if the fence ends the text or its line. |
| NoteFormat.NoFrontmatter | packages/note-vault/src/frontmatter.ts:22-30 | A text without an opening or a closing fence is all body to both parsers. |
| NoteFormat.FixedFields | packages/note-vault/src/read-notes.ts:59-62 | Type and layer are read back, whatever else a note holds. |
| NoteFormat.TitleReadBackIff | packages/note-vault/src/read-notes.ts:59-74 | A printed title is read back if and only if it holds no line or paragraph separator. |
| NoteTitle.AbsentTitleIff | packages/note-vault/src/read-notes.ts:59-62 | An absent title stays absent if and only if no string printed behind its place goes on, after a line or paragraph separator, with the title key and more. |
| NoteTitle.FieldIff | packages/note-vault/src/read-notes.ts:59-62 | In any text the reader finds a title if and only if the key starts a line there and the line goes on. |
| NoteFormat.Summarize | packages/note-vault/src/read-notes.ts:76-90 | The summary set field by field is the specified one. |
| NoteTitle.NoteReadsBack | packages/note-vault/src/read-notes.ts:76-90 | Id, type and layer survive printing and reading; a title does if and only if it is free of separators, its absence if and only if nothing printed behind makes one up. |
| MediaReader.SearchValue | apps/media-intake/src/ingest.ts:145-148 | Over a quoted value the search goes on behind it, unless the value ends, at a word boundary, in the key, its colon and white space; then it takes what lies between the closing quote and the next one. |
| MediaReader.IntakeSeesBlock | apps/media-intake/src/ingest.ts:72-76 | From the output of `note get` the intake cuts out exactly the printed block, although it looks for the fence one character earlier than the other readers. |
| MediaReader.MediaReadBack | apps/media-intake/src/ingest.ts:143-148 | Each of the three keys is read back if and only if no string printed before the media block masks it; a masked media id is never mistaken for another one. |
| MediaReader.PlainNoteNotRead | apps/media-intake/src/ingest.ts:143-148 | A note without a media block never passes for one with a media id, whatever its strings hold. |
| MediaLedger.MediaIntake.FindExistingByMediaId | apps/media-intake/src/ingest.ts:134-157 | The scan returns the first listed note that reads as having the media id. |
| MediaLedger.RawNotesScanned | apps/media-intake/src/ingest.ts:135-140 | Every raw note's id is among the ids scanned, even when titles spill over the listing's lines. |
| MediaLedger.MediaIntake.RunIngest | apps/media-intake/src/ingest.ts:159-205 | The outcome and the vault of one ingest, error by error, including a note kept when its event is lost. |
| MediaLedger.IngestRefuses | apps/media-intake/src/ingest.ts:159-174 | What is refused first: a bad media id, then none or two pointers, then the transcript; a refusal or a conflict writes nothing. |
| MediaLedger.WrittenNote | apps/media-intake/src/ingest.ts:174-205 | The note an ingest writes holds the transcript and, read back, the media id, both hashes, the media reference and the title of the request. |
| MediaLedger.CaptureKept | packages/note-vault/src/raw-note-writer.ts:155-176 | A capture under a new id adds exactly that note, to be read back whole. |
| MediaLedger.OtherKept | packages/note-vault/src/raw-note-writer.ts:155-176 | Another note under a new id adds exactly that file. |
| MediaLedger.OneNotePerMediaId | apps/media-intake/src/ingest.ts:159-205 | After any run no two notes read as the same media id. |
| MediaLedger.StrictlyIdempotent | apps/media-intake/src/ingest.ts:178-205 | After any run, also one whose capture event was lost: a media id already written writes nothing; the same hashes return the note written then, any other conflict; a new one is written. |
| MediaLedger.NothingRewritten | packages/note-vault/src/raw-note-writer.ts:164-176 | No run changes or removes a file or a ledger entry. |
| MediaLedger.TitleDecides | apps/media-intake/src/ingest.ts:143-188 | Repeating a fresh ingest is a no-op if and only if its title masks no key; a masked media id leads to a second note, a masked hash to a conflict. |
| MediaLedger.MaskingTitles | apps/media-intake/src/ingest.ts:145-148 | Two such titles: the bare key, and one whose printed tab completes a key. |
| NoteCommands.NoteVault.WriteRawNote | packages/note-vault/src/raw-note-writer.ts:132-184 | Which problem is reported first; any error leaves the vault alone; success adds one file at a path that was free. |
| NoteCommands.FoundIff | packages/note-vault/src/read-notes.ts:129-141 | A note is found by its id if and only if the vault has one. |
| NoteCommands.NoteVault.PromoteNote | apps/cli/src/promote-command.ts:50-89 | The id is looked up in the vault, in whatever order it is listed; only a raw note is promoted; it is not touched, and one working note with its id, title and content is added, as by the two steps of the interleaved model. |
| Provenance.SeededBody | apps/cli/src/promote-command.ts:71-80 | A working note's body is the captured content without its leading newlines. |
| Provenance.CurrentIdsAre | packages/fact-store/src/query.ts:36-56 | The ids looked up are exactly those of the rows that no row supersedes. |
| NoteCommands.AssertSourcesResolve | apps/cli/src/output-command.ts:98-121 | The loop with its lazily read fact ids accepts if and only if every ULID source is a note or a current fact, and otherwise names the first that is not. |
| NoteCommands.NoteVault.CreateOutput | apps/cli/src/output-command.ts:143-188 | Nothing is written unless the proposal is valid and every source resolves; a lost event keeps the note; the log grows by one event on success only; vault and log are those the steps of the interleaved model give. |
| NoteCommands.OutputAlone | apps/cli/src/output-command.ts:98-179 | The steps of one output command, run alone, write and announce the note if every source resolves, and otherwise change nothing. |
| Provenance.ProvenanceClosed | apps/cli/src/output-command.ts:98-171 | In every reachable state of interleaved calls each working note cites a raw note of the vault and has its content, and each ULID source of an output is a note of the vault or a fact in the log. |
| Citations.CitedWhenLookedUp | apps/cli/src/output-command.ts:98-157 | In every run each ULID an output cites was a note, or a fact current at that time, at some moment between the beginning of the very call that wrote the output and its write. |
| Provenance.AnnouncedNotesExist | apps/cli/src/output-command.ts:148-179 | In every reachable state each `note_created` event in the log names an output of the vault with exactly its title and sources, and each accepted distillation a note with its origin. |
| Provenance.NothingLost | packages/note-vault/src/raw-note-writer.ts:164-176 | Over every run files stay as they are and the memory log only gets longer at its end. |
| Provenance.CurrentLogged | packages/fact-store/src/query.ts:36-56 | Whenever the interleaving invariant holds, every fact the view lists has its event in the log. |
| Provenance.DistilledCitedIff | apps/cli/src/distill-command.ts:144-167 | From any state, after accepting a distillation its origin resolves if and only if it did before or is the new note. |
| Provenance.CitedForGood | packages/note-vault/src/raw-note-writer.ts:164-176 | What resolves in one state resolves in all later ones. |
| Provenance.DistilledMayDangle | apps/cli/src/distill-command.ts:144-167 | From the empty workspace the origin of an accepted distillation is neither a note nor a fact, unless it is the note itself. |
| Text.FramingUnique | packages/retrieval/src/sidecar-client.ts:153-162 | Cutting at newlines is the only decomposition into newline-free lines and a remainder. |
| Text.FramingAppend | packages/retrieval/src/sidecar-client.ts:153-162 | Framing a concatenation continues from the remainder of its first part. |

## Left out

- Scopes and grants, command line parsing, the dashboard, the broker and the example apps: plumbing around the core.
- DuckDB, BM25, embeddings and the vector index: the ranker takes both result lists as given, over reals.
- YAML beyond what is printed: parsed mappings are inputs; a printed raw note is read as the block mapping its lines are (`NoteFields.NoteOf`).
- The texts the two JSON libraries print, and the JSON they read beyond what was printed: only that they agree. Negative zero, infinities and not-a-number; lone surrogates, and surrogate pairs in `\u` escapes.
- UTF-8 decoding of the byte streams: streams are sequences of characters.
- Real time: an armed timer is a fact about the state, not a bound on a delay; the kill timer of `close()` is left out.
- A request line cut off at the end of the sidecar's stdin, and what the sidecar logs to stderr.
- Torn writes to the event log or the vault: an append or an exclusive create happens or does not.
- A second read of the log by the edge projection while other processes append: rebuilds that run alone read it once and the same.
- Entity, edge and task tables in the interleaved model: `Interleaving` follows the fact rows only; `Workspace` has all four tables for a rebuild that runs alone.
- The time as a non-integer, negative or not-a-number argument of the ULID encoder.
- Secure references, media pointer classification, transcript normalisation, workspace path checks, proposal shape checks other than those named.
- The `--review` promotion at the end of an ingest; `Provenance` has promotion by itself.
- Whether a text is a date: left to `Date.parse`, a parameter of the event log.
- That a fact cited by an output is still current when the note is written: it may be superseded between the lookup and the write.
- Ranker.PermutationInvariant: each list has distinct ids, as the two queries return them.
