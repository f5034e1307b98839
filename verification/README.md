# Chirp: a verified model

Chirp is a small microblogging system: a key-value store behind a spinlock, a service layer that keeps
users, followings, chirps, reply trees and a tag index in that one flat store, and a command line tool.
Several structures in it are redundant and have to agree: parent ids and children sets, chirp lists and
authors, last-update times and chirp times, the tag index and the texts, the id counter and the ids in
use. This project models the system in Dafny and proves that they do, over every run, and what callers
get from it: threads that are listed and printed rightly, polls that deliver every chirp once, a store
that behaves as if its callers came one after the other.

How the files are layered:

- `Primitives`, `Records`: bytes, 64-bit ids, clock readings; the stored records and the assumption on
  their wire encoding (`Codec.Faithful`). `CodecWitness` gives an encoding that meets the assumption.
- `KeyValue`, `Client`, `Keys`, `Connect`: the store, the standard and the debug client, the prefixed keys,
  and the typed wrappers. `Connect.Represents` says which state of six typed components a flat store
  stands for; the field `st` of `ChirpConnect` is that state, and every wrapper keeps the two together.
- `Tags`: the tag rule of the user manual, the positions the scanner visits, the tag index.
- `Model`: the calls of the class API as functions on the six components, and the invariant `Inv`.
- `Session`, `Server`: the same calls as methods on classes that read and write single records, as the
  program does, proved against `Model`; the recursive thread read and the RPC handlers on top.
- `Runs`: sequences of calls. `Run` is the final state, `Replies` the answers. `History` says what every call
  answers and changes, and how the state at any time reads back from the calls and answers so far.
- `Threads`, `Printer`, `CommandLine`: the thread as a preorder, the stack loop that prints it, and the read
  command from request to output.
- `Delivery`, `Pollers`, `Messages`, `PollersOnce`: poll windows over runs, the two polling RPCs, what their
  messages say, and that each chirp that is owed is written once.
- `Simulation`: both clients give the service layer the same answers.
- `SpinLock`, `GetStream`: the two concurrent protocols as state machines over their atomic steps.
  `LockedGet` runs them together: one get request with its channels against the locked server.

Conventions. Each call of the class API, with the login before it, is one atomic step; an RPC handler that
makes several of them meets the calls of others in between. The clock is an input; where a result needs it to be
non-decreasing, the lemma says so (`Clocked`), and the methods do not. Runs are shorter than 2^64 calls, so
that the id counter does not wrap (`Room`). Hosts are little-endian. A failed CHECK that can happen is an
outcome (`StreamFrom` returning `None`); one that cannot is an assertion in the method.

Things the code does that its manual and tests do not say, each with an input and its exact condition:

- A reply whose parent has been deleted can never be deleted itself (`Runs.DeletableIff`): it is enough to
  register, post, reply and delete the first chirp (`Runs.ReplyGetsOrphaned`).
- Streaming a tag aborts the service exactly when a chirp posted with that tag has been deleted
  (`Runs.StreamAbortsIff`): register, post "#t", delete (`Runs.DeletedTagAborts`). The RPC surface cannot
  bring this about. Up to the abort a stream misses nothing (`Delivery.StreamHistoryEndToEnd`).
- The chirp RPC aborts when another caller of the class API deletes the new chirp before the handler reads
  it back (`Server.ReadBackCanAbort`); callers of the RPC surface cannot (`Server.ReadBackAsPosted`).
- The id counter wraps to 0 at 2^64, and posting then breaks the invariant (`Model.PostChirpKeepsInvIff`).

## Model

| member | source | states |
|---|---|---|
| Primitives.Uint64BinaryBijection | src/utility.h:7-13 | Ids and eight-byte strings convert back and forth without loss, in both directions |
| Primitives.Uint64Byte | src/utility.h:7-13 | Byte k of an id's string is the id's k-th byte, least significant first |
| Primitives.TimeOrder | src/utility.h:16-26 | Clock readings are ordered by seconds and then microseconds, and the two comparisons used are complements |
| Primitives.WindowIsInterval | src/service_data_structure.cc:356-358 | A poll's window takes in the points in time from its beginning up to, but not with, its end |
| Records.ClientViewFields | src/service_server.cc:218-234 | A chirp sent through the RPC message and parsed by the client arrives with all its fields; only the children set is dropped |
| CodecWitness.FaithfulCodecExists | proto/service_data.proto:11-35 | The assumption made about the serialisers of the stored records can be met, so results under it are not empty |
| KeyValue.BackendDataStructure.Put | src/backend_data_structure.cc:5-9 | Writes one key and always succeeds |
| KeyValue.BackendDataStructure.Get | src/backend_data_structure.cc:11-22 | Reports whether the key is present and gives its value |
| KeyValue.BackendDataStructure.DeleteKey | src/backend_data_structure.cc:24-27 | Removes one key and reports whether it was present |
| Client.BackendClient.SendPutRequest | src/backend_client_lib.cc:88-92 | Both clients write the key and succeed |
| Client.BackendClient.SendGetRequest | src/backend_client_lib.cc:94-101 | Both clients append one value per key, empty for missing keys; the debug client inserts exactly the keys it reads, the standard one nothing, and neither changes what later reads see |
| Client.BackendClient.SendDeleteKeyRequest | src/backend_client_lib.cc:103-105 | Both clients remove the key and report whether it was present |
| Keys.KeyBytesInjective | src/service_data_structure.cc:440-445 | Prefixed keys of different records never collide, whatever names and tags contain |
| Keys.PutEntry | src/service_data_structure.cc:501-509 | Saving under a key changes the entry of that key and of no other |
| Keys.DeleteEntry | src/service_data_structure.cc:634-638 | Deleting a key empties the entry of that key and changes no other |
| Connect.EmptyStoreRepresentsInitial | src/service_data_structure.cc:463-469 | An empty store stands for the state with counter 0 and nothing in it |
| Connect.SameLookupsRepresents | src/backend_client_lib.cc:94-101 | Insert-on-read leaves the represented state as it was |
| Connect.RepresentsOne | src/service_data_structure.cc:454-646 | A flat store determines all six typed components, so the typed state is nothing beyond the store |
| Connect.SaveCounterRefines | src/service_data_structure.cc:471-479 | Saving the counter changes the counter component only |
| Connect.SaveUserRefines | src/service_data_structure.cc:502-509 | Saving a user changes that user only, across all six components |
| Connect.SaveFollowingRefines | src/service_data_structure.cc:538-545 | Saving a following list changes that list only |
| Connect.SaveChirpListRefines | src/service_data_structure.cc:590-597 | Saving a chirp list changes that list only |
| Connect.SaveChirpRefines | src/service_data_structure.cc:625-631 | Saving a chirp changes that chirp only |
| Connect.SaveTagRefines | src/service_data_structure.cc:640-646 | Saving a tag's list changes that list only |
| Connect.DeleteChirpRefines | src/service_data_structure.cc:634-638 | Deleting a chirp removes that chirp only |
| Connect.ChirpConnect.GetNextChirpId | src/service_data_structure.cc:454-480 | Returns the counter's successor modulo 2^64 and stores it; no other component changes |
| Connect.ChirpConnect.GetUser | src/service_data_structure.cc:483-499 | Finds exactly the registered users and returns their record |
| Connect.ChirpConnect.SaveUser | src/service_data_structure.cc:502-509 | The typed state changes in this user only |
| Connect.ChirpConnect.GetUserFollowingList | src/service_data_structure.cc:519-535 | Returns the stored set of names, empty if there is none |
| Connect.ChirpConnect.SaveUserFollowingList | src/service_data_structure.cc:538-545 | The typed state changes in this list only |
| Connect.ChirpConnect.GetUserChirpList | src/service_data_structure.cc:556-571 | Returns the stored set of ids, empty if there is none |
| Connect.ChirpConnect.SaveUserChirpList | src/service_data_structure.cc:590-597 | The typed state changes in this list only |
| Connect.ChirpConnect.GetChirpTagList | src/service_data_structure.cc:573-587 | Returns the ids filed under a tag, empty if there are none |
| Connect.ChirpConnect.SaveChirpTag | src/service_data_structure.cc:640-646 | The typed state changes in this tag's list only |
| Connect.ChirpConnect.GetChirp | src/service_data_structure.cc:607-622 | Finds exactly the live chirps and returns their record |
| Connect.ChirpConnect.SaveChirp | src/service_data_structure.cc:625-631 | The typed state changes in this chirp only |
| Connect.ChirpConnect.DeleteChirp | src/service_data_structure.cc:634-638 | Removes the chirp, and succeeds on either backend when the chirp is live |
| Tags.SplitJoin | README.md:136-138 | Splitting a text into words loses nothing and leaves no space in a word |
| Tags.JoinSplit | README.md:136-138 | Splitting is the only way to cut a text into space-free words |
| Tags.HasTagMeaning | README.md:136-138 | A text has a tag exactly when one of its words has it |
| Tags.WordTagMeaning | README.md:136-138 | A word has tag t exactly when t is non-empty and the word reads x#t with no '#' in x |
| Tags.TagsFromIsTagsOf | README.md:136-138 | Reading tags off positions gives, in order, the tags of the words |
| Tags.ScanStep | src/service_data_structure.cc:207-226 | One turn of the scanner settles one tag at most, loses none before it, and is again at a word boundary |
| Tags.AddTagsLookup | src/service_data_structure.cc:215-219 | After filing, a tag's list has gained the id exactly if the tag is among those filed |
| Session.IndexTagAt | src/service_data_structure.cc:208-221 | One turn of the scanner files the id under the tag after the '#', if that is not empty, and ends where the word ends |
| Session.IndexTags | src/service_data_structure.cc:206-226 | The scanner files the id under exactly the tags of the declarative rule, for every text |
| Session.UserSession.Follow | src/service_data_structure.cc:131-152 | Run on the store, answers and changes the typed state as specified and keeps the invariant |
| Session.UserSession.Unfollow | src/service_data_structure.cc:154-173 | Run on the store, answers and changes the typed state as specified and keeps the invariant |
| Session.UserSession.PostChirp | src/service_data_structure.cc:175-253 | Run on the store record by record, for any counter, all six components end as specified, a failed reply only spends an id, and the invariant is kept unless the counter wraps |
| Session.UserSession.EditChirp | src/service_data_structure.cc:255-274 | Run on the store, answers and changes the typed state as specified and keeps the invariant |
| Session.UserSession.DeleteChirp | src/service_data_structure.cc:276-320 | Run on the store, answers and changes the typed state as specified, its backend deletion never fails, and the invariant is kept |
| Session.UserSession.MonitorFrom | src/service_data_structure.cc:322-367 | The nested loops return the chirps of the window and move the start to now; no CHECK fails |
| Session.ServiceDataStructure.StreamFrom | src/service_data_structure.cc:369-394 | Returns the indexed chirps of the window, or aborts exactly when an indexed chirp is missing |
| Session.ServiceDataStructure.UserRegister | src/service_data_structure.cc:396-425 | Run on the store, answers and changes the typed state as specified and keeps the invariant |
| Session.ServiceDataStructure.UserLogin | src/service_data_structure.cc:427-437 | Gives a valid session of that name exactly to registered users; the CHECK of the session never fails |
| Session.ServiceDataStructure.ReadChirp | src/service_data_structure.h:303-311 | Answers OK with the record exactly for live chirps |
| Model.InitialInv | src/service_data_structure.cc:463-469 | The empty store satisfies the invariant |
| Model.UserRegisterKeepsInv | src/service_data_structure.cc:396-425 | Registration keeps ids, reply graph, closure, ownership and tag bounds |
| Model.FollowKeepsInv | src/service_data_structure.cc:131-152 | Following keeps them; in particular followed names stay registered |
| Model.UnfollowKeepsInv | src/service_data_structure.cc:154-173 | Unfollowing keeps them |
| Model.PostedChirps | src/service_data_structure.cc:178-202 | A post adds one fresh id and otherwise touches only the parent's children set |
| Model.PostChirpKeepsInv | src/service_data_structure.cc:175-253 | Posting keeps them; in particular children sets list exactly the live replies, which have larger ids |
| Model.PostChirpKeepsInvIff | src/service_data_structure.cc:454-480 | A post by a registered user keeps the invariant if and only if the counter does not wrap, or it is a reply and the store has no chirps and no tag entries |
| Model.EditChirpKeepsInv | src/service_data_structure.cc:255-274 | Editing keeps them |
| Model.DeletedChirps | src/service_data_structure.cc:294-313 | A deletion removes one id and otherwise touches only the parent's children set |
| Model.DeleteChirpKeepsInv | src/service_data_structure.cc:276-320 | Deleting keeps them, also when the deleted chirp has replies |
| Runs.StepKeepsInv | src/service_data_structure.cc:131-425 | Every call of the full API keeps the whole invariant and moves the counter by one at most |
| History.RefusedIff | src/service_data_structure.cc:427-437 | A call that needs a login is refused exactly to unregistered users and then changes nothing |
| History.RegisterAnswer | src/service_data_structure.cc:396-425 | Registration answers INVALID_ARGUMENT to the empty name, USER_EXISTS to a taken one, else OK, and then adds that user alone, who follows nobody and has no chirps |
| History.FollowAnswer | src/service_data_structure.cc:131-152 | Follow is answered OK if and only if the followee is registered; the caller's list then gains the followee and no other list changes |
| History.UnfollowAnswer | src/service_data_structure.cc:154-173 | Unfollow is answered OK if and only if the caller follows the followee, who then leaves the caller's list and no other |
| History.PostReply | src/service_data_structure.cc:175-253 | A registered user's post succeeds, under the next id, unless it replies to a chirp that is not live, whoever wrote that; then it is answered REPLY_ID_NOT_FOUND |
| History.PostEffect | src/service_data_structure.cc:175-253 | A post adds one chirp, links it to its parent, files it under the author and the tags of the text and moves the last update; a failed one only spends an id |
| History.EditAnswer | src/service_data_structure.cc:255-274 | Edit answers CHIRP_ID_NOT_FOUND, PERMISSION_DENIED to all but the author, or OK, and then stores the new text and nothing else |
| History.DeleteReply | src/service_data_structure.cc:276-301 | Delete answers CHIRP_ID_NOT_FOUND, PERMISSION_DENIED to all but the author, REPLY_ID_NOT_FOUND for an orphan, or OK; any answer but OK changes nothing |
| History.DeleteEffect | src/service_data_structure.cc:295-317 | A deletion takes the chirp out of the store, the author's list and its parent's children set, and changes nothing else |
| History.RegisteredIff | src/service_data_structure.cc:396-425 | After any run, the registered users are those that were before and the non-empty names somebody tried to register |
| History.FollowsIff | src/service_data_structure.cc:131-173 | After any run, u follows f if and only if a Follow of f by u was answered OK, or u followed f before, and u has not called Unfollow of f since |
| History.GoneIff | src/service_data_structure.cc:276-320 | Over any run, a live chirp disappears if and only if its author deletes it and is answered OK |
| History.BornIff | src/service_data_structure.cc:175-320 | After any run, a chirp that was not there before is there if and only if a post was answered with its id and no deletion of it was answered OK |
| History.TextIsLastEdit | src/service_data_structure.cc:255-274 | Over any run, a surviving chirp's text is what its author last edited it to; attempts of others change nothing |
| Runs.StepOnChirp | src/service_data_structure.cc:175-320 | No call revives a dead id or changes author, parent or time of a live chirp, nor its text unless it edits that chirp; a new chirp carries the call's clock reading |
| Runs.DeadStaysDead | src/service_data_structure.cc:454-480 | Over any run, an allocated id that is not live never becomes live again |
| Runs.SurvivorUnchanged | src/service_data_structure.cc:255-274 | Over any run of the full API, a surviving chirp keeps author, parent and time, and its text too unless that chirp is edited |
| Runs.RpcSurface | src/service_server.cc:16-216 | The RPC handlers call registration, login, Follow, PostChirp, MonitorFrom, StreamFrom and ReadChirp, and nothing else of the class API |
| Runs.RpcRunKeepsChirps | src/service_server.cc:16-216 | Over any run of the RPC surface, a live chirp stays live and unchanged but for its children set |
| Runs.AllocationsIncrease | src/service_data_structure.cc:454-480 | Over any run, the ids allocated, failed replies included, are new, strictly increase and number as many as the counter has moved |
| Runs.PostedIdIsFresh | src/service_data_structure.cc:178-202 | A successful post gets an id that was not in use and exceeds its parent's; any other reply leaves all chirps alone |
| Runs.PostThenDelete | src/service_data_structure.cc:276-320 | Posting and at once deleting restores everything but the counter, the author's last update and the tag index |
| Runs.OrphanStays | src/service_data_structure.cc:295-301 | Over any run, a reply whose parent has been deleted stays live |
| Runs.DeletableIff | src/service_data_structure.cc:295-301 | Some run removes a live chirp if and only if it is no reply or its parent is still live |
| Runs.ReplyGetsOrphaned | src/service_data_structure.cc:295-301 | Register, post, reply, delete the post: the reply is orphaned, and after any further calls its author's attempt to delete it is answered REPLY_ID_NOT_FOUND |
| Runs.TagIndexIsHistory | src/service_data_structure.cc:206-226 | Over any run of the full API, a tag's list gains exactly the successful posts whose original text had the tag, and never shrinks |
| Runs.RpcRunKeepsTagsAgree | src/service_data_structure.cc:206-226 | Over any run of the RPC surface, a tag's list is exactly the stored chirps whose text has the tag |
| Runs.StreamAbortsIff | src/service_data_structure.cc:380-384 | After any run, streaming a tag aborts if and only if a chirp posted with the tag is no longer live; after RPC runs it never does |
| Runs.DeletedTagAborts | src/service_data_structure.cc:380-384 | Register, post "#t", delete the post: streaming t aborts, whatever the window |
| Runs.NoCheckFires | src/service_data_structure.cc:335-354 | After any run of the RPC surface, every followed name, every listed chirp and every indexed chirp has its record |
| Threads.PreorderReaches | src/service_server.cc:236-257 | A thread lists only chirps whose parent chain through live chirps reaches the requested one |
| Threads.ReachesPreorder | src/service_server.cc:236-257 | A thread lists all of those |
| Threads.ThreadExact | src/service_server.cc:236-257 | For every state with the invariant and every live chirp, the thread is exactly those chirps, sorted by their path from the requested one |
| Threads.ThreadOrder | src/service_server.cc:248-254 | Each chirp is listed once, after its parent, and siblings in ascending id order |
| Threads.SortedByPathUnique | src/service_server.cc:248-254 | Only one list has these members in this order |
| Threads.DepthCountsSteps | src/command_line_tool_lib.cc:246-257 | The depth that is printed is 0 for the requested chirp and one more than the parent's for every reply |
| Server.ServiceImpl.DfsScanChirps | src/service_server.cc:236-257 | The recursion ends, appends exactly the thread in order, and answers OK exactly for live chirps |
| Server.ServiceImpl.ReadRpc | src/service_server.cc:84-96 | The read RPC answers with exactly the thread, or not found with nothing |
| Server.ServiceImpl.ChirpRpc | src/service_server.cc:29-63 | The chirp RPC posts, reads the chirp back after any calls of others, and aborts exactly if it is gone by then |
| Server.ReadBackAsPosted | src/service_server.cc:52-60 | Whatever callers of the RPC surface do between the post and the read, the CHECK holds and the answer to a successful post has the posted author, text, parent and time under the new id |
| Server.ChirpRpcRefuses | src/service_server.cc:38-50 | The chirp RPC answers an unknown user so, and a reply to a chirp that is not live with REPLY_ID_NOT_FOUND |
| Server.ReadBackCanAbort | src/service_server.cc:52-60 | With the class API open to others, every successful post has a continuation in which the CHECK fails: its author deletes it first |
| Server.PostedIdIsLive | src/service_server.cc:46-60 | A post names an id exactly if it succeeded, and that id is then live with the posted fields |
| Server.ServiceImpl.Perform | src/service_server.cc:16-96 | Any call, on either backend, answers and changes the state as the typed model does |
| Server.ServiceImpl.PerformAll | src/service_server.cc:16-96 | So does any sequence of calls |
| Printer.PrintChirps | src/command_line_tool_lib.cc:241-258 | The print loop outputs every chirp in order with the padding of the stack rule |
| Printer.PaddingsConcat | src/command_line_tool_lib.cc:246-257 | Printing a list is printing its first part and going on from the stack that leaves |
| Printer.DecodeSubtree | src/command_line_tool_lib.cc:246-257 | Printing a subtree gives each chirp its depth and leaves the path to the subtree's root at the bottom of the stack |
| Printer.PrintedThreadHasDepths | src/command_line_tool_lib.cc:241-258 | Printing a thread indents every chirp by its exact depth below the requested one |
| Printer.PaddingsShowParent | src/command_line_tool_lib.cc:241-258 | The indentation alone gives back the tree: a reply's parent is the nearest chirp above that is indented by one less |
| CommandLine.SendReadRequest | src/service_client_lib.cc:75-94 | The client receives the requested thread, every field intact, or not found with nothing |
| CommandLine.Read | src/command_line_tool_lib.cc:90-104 | The read command prints exactly the thread, each chirp with its author, text, ids and time and indented by its depth below the requested one |
| Printer.ReadThenPrint | src/command_line_tool_lib.cc:90-104 | After any run, reading a live chirp answers OK with its thread, the client sees every chirp's fields as stored, and printing shows every depth rightly |
| Delivery.StepKeepsTimeOk | src/service_data_structure.cc:228-230 | With a non-decreasing clock, every call keeps each user's last update at or after all their chirps, and none in the future |
| Delivery.ShortcutLosesNothing | src/service_data_structure.cc:340-361 | Skipping followees whose last update precedes the window gives the same result as scanning every chirp of every followee |
| Delivery.PollReturnsDue | src/service_data_structure.cc:322-394 | A poll never aborts and returns exactly the visible live chirps of its window, for followees and for a tag |
| Delivery.LaterChirpLaterTime | src/service_data_structure.cc:85-95 | Over any run of the full API, a chirp that appears is not older than the clock at the start of the run |
| Delivery.DeliveredInWindow | src/service_data_structure.cc:356-366 | Over any run of the full API, whatever is delivered has a time in the window that the polls cover together |
| Delivery.DeliveredOnce | src/service_data_structure.cc:322-394 | Results of different polls are disjoint, of followees or of a tag, whatever is called between and after them |
| Delivery.DeliveredIff | src/service_server.cc:122-156 | A chirp that survives and is visible at every poll is delivered if and only if start <= time < last poll |
| Delivery.ExactlyOnce | src/service_server.cc:122-156 | And then by exactly one poll, also when its time equals a poll's clock reading |
| Delivery.NoPollAborts | src/service_server.cc:179-213 | Every poll of a run is answered |
| Delivery.StreamEndToEnd | src/command_line_tool_lib.cc:145-172 | From the empty store, over any RPC run, a subscriber to "#t" who opens the stream at any later clock reading is delivered every chirp with tag t and start <= time < last poll, once, and nothing else |
| Delivery.StreamIsHistory | src/service_data_structure.cc:369-394 | Over any run of the full API, up to the first poll that aborts, a stream is delivered exactly the chirps filed under the tag at its start and the successful posts whose original text had the tag, in the window up to the last answered poll |
| Delivery.StreamHistoryEndToEnd | src/service_server.cc:160-216 | From the empty store, over any run of the full API: the same in terms of posts alone, each delivered once |
| Pollers.WriteChirps | src/service_server.cc:131-150 | Writes the chirps of a poll, in ascending order, as each is when it is read again, skipping those that others have deleted by then, until the client goes away |
| Pollers.MonitorRpc | src/service_server.cc:98-159 | Among any calls of others, before every poll and before every re-read, writes what the polls find as far as the client stays; unknown users get nothing |
| Pollers.StreamRpc | src/service_server.cc:160-216 | The same for a tag |
| Messages.MessageOrigin | src/service_server.cc:131-150 | Every message of a polling RPC is about a chirp that one of its polls found, and carries author, text, id, parent and time as they are when it is read again |
| Messages.MessageOfSurvivor | src/service_server.cc:131-150 | Of a chirp that survives the run, every message carries author, parent and time, and the text too unless it is edited after the poll |
| PollersOnce.ServedDistinct | src/service_server.cc:131-150 | The polling RPCs never write a chirp twice, whatever others call before a poll or between two re-reads |
| PollersOnce.RereadAscending | src/service_server.cc:131-150 | The messages of one turn come in ascending order of ids |
| PollersOnce.SurvivorReread | src/service_server.cc:131-150 | A chirp that a poll found and that is live when the turn ends has been written in that turn, whatever was called between the re-reads |
| PollersOnce.WrittenIff | src/service_server.cc:122-156 | They write a surviving chirp that is visible throughout if and only if start <= time < last poll |
| PollersOnce.StreamWritesEndToEnd | src/service_server.cc:160-216 | From the empty store, over any RPC run, a stream of "#t" opened at any later clock reading writes exactly the chirps with tag t and start <= time < last poll, each once, with its author, text, parent and time |
| PollersOnce.MonitorEndToEnd | src/service_server.cc:98-159 | From the empty store, over any run of the full API, a monitor opened at any later clock reading writes nothing twice, the visible survivors of the window all, and each with its author, parent and time, its text too unless edited meanwhile |
| PollersOnce.FollowerSeesChirps | src/service_server.cc:98-159 | From the empty store, over any run of the full API: if u's Follow of f was answered OK and u has not called Unfollow of f since, u's monitor writes every surviving chirp of f's in its window, once, as f's |
| PollersOnce.StreamWritesHistory | src/service_server.cc:160-216 | From the empty store, over any run of the full API, a stream writes only chirps posted with its tag in the window up to the last answered poll, none twice, and of those all that survive the run |
| Simulation.RunOnBothBackends | src/backend_client_lib.cc:88-105 | Any sequence of calls is answered alike over the standard and the debug backend |
| Simulation.DeleteAfterRead | src/backend_client_lib.cc:94-105 | The one difference below the service layer: deleting a key that was only read succeeds on the debug backend alone |
| SpinLock.ServeAlone | src/backend_data_structure.cc:5-27 | The sequential specification is what the store class does and answers for one caller at a time |
| SpinLock.HolderIsLast | src/backend_server.cc:31-35 | Whoever is in a critical section took the lock last and holds it |
| SpinLock.CallsAreInvoked | src/backend_server.cc:22-96 | Over any run, the handlers work on exactly the calls that were invoked, one each, in order and unaltered |
| SpinLock.KeysAreRead | src/backend_server.cc:60-72 | A get handler has taken on exactly the keys it was sent, in order |
| SpinLock.StepKeepsLockInv | src/backend_server.cc:22-96 | Every atomic step of any handler keeps the lock invariant |
| SpinLock.MutualExclusion | src/backend_server.cc:31-89 | In every reachable state, with any number of handlers, at most one is in a critical section |
| SpinLock.Linearizable | src/backend_server.cc:22-96 | Every put, get stream and deletekey that has returned gave to the call invoked the sequential answer at its place among the invoked calls in the order of lock acquisition, a stream for exactly the keys it was sent |
| SpinLock.StoreIsReplay | src/backend_server.cc:31-89 | Whenever the lock is free, the store is what the invoked calls make of it one after the other in that order |
| SpinLock.RealTimeOrder | src/backend_server.cc:31-89 | That order respects real time: what returned before a call was invoked comes before it |
| SpinLock.EveryHandlerCanReturn | src/backend_server.cc:31-89 | In every reachable state every handler can return within five steps of its own and the lock holder's |
| GetStream.StepKeepsStreamInv | src/backend_client_lib.cc:53-66 | In every interleaving, values received, in flight and still to come add up to the lookups of the keys |
| GetStream.CompletedCollectsLookups | src/backend_client_lib.cc:42-72 | A completed get request has appended exactly the lookups of its keys, in order, missing keys as empty strings |
| GetStream.NeverStuck | src/backend_client_lib.cc:42-72 | With channels of any positive capacity, a run that cannot go on has completed, and every run ends within four steps a key and three more |
| LockedGet.StepKeepsSystemInv | src/backend_server.cc:47-77 | Every step of the client's loops, of this request's handler and of any other handler keeps the joint invariant: the handler's phase tells which keys are answered and with what |
| LockedGet.CompletedAtItsPlace | src/backend_client_lib.cc:42-72 | A completed get request, made at any time among any other callers, has appended the lookups of its keys in the one store that the invoked calls before it in lock order have left |
| LockedGet.OnlyTheLockHoldsItUp | src/backend_client_lib.cc:42-72 | A request that has not completed can take a step of its own, or waits for the lock and nothing else |
| LockedGet.RequestCanComplete | src/backend_client_lib.cc:42-72 | However far a get request has got, with channels of any positive capacity it can be completed |

## Left out

- Client.BackendClient.SendGetRequest: the standard client is one sequential loop here; its writer thread and reader loop are in GetStream and LockedGet, with the same result.
- Pollers.MonitorRpc: sleeping and the limit of INT_MAX idle polls are not modelled; a run has finitely many rounds.
- Pollers.StreamRpc: the same.
- Server.ServiceImpl.ReadRpc: byte strings of fewer than eight bytes as ids, on which the program reads past the end, are not modelled.
- Server.ServiceImpl.ChirpRpc: the same.
- SpinLock: memory orders and liveness of spinning are not modelled; the handlers are values in a state machine, not objects.
- Transport failures and the return code INTERNAL_BACKEND_ERROR with its clean-up branches: both clients' puts always succeed here.
- The wire encoding of protobuf: any encoding that parses back and is empty only where `Codec.Faithful` allows. Strings that are not UTF-8 are among those assumed to parse back; seconds and microseconds are unbounded integers.
- Iteration over a set of user names is in any order; results do not depend on it.
- Interleaving inside one call of the class API: the service layer takes no lock, and calls are atomic here, the login before them included.
- Null arguments of RPC handlers, gRPC status tables, server start-up, flags, usage text, time formatting and the printer threads of the command line tool.
