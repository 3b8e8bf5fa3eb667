# LitePan: a verified model

LitePan moves files between cloud drives. Its hard parts are a few protocols that have to stay
correct while remote services page, fail, restart and change underneath them. This project models
those protocols in Dafny and proves what they promise. `dafny verify dfyconfig.toml` checks it all.

| module | what it models |
|---|---|
| `Events115`, `EventMonitor` | polling the event log of 115 with a cursor, and the poller that stores the cursor |
| `FullList115` | the full recursive listing of 115 Open, whose missing entries count as deleted |
| `UploadPlan` | what all chunked uploads share: the plan, part sets and their bytes, and what a service assembles |
| `Cloud139`, `Quark`, `Cloud189` | resumable uploads that hash the file again before they trust a checkpoint |
| `Pan123`, `Baidu` | resumable uploads that do not; one reads on past holes, the other seeks past them |
| `Oss115` | the multipart upload of 115 Open, which trusts the part list of the service |
| `Batching`, `Validation`, `Recognition` | recognition of media by a language model: chunks, rules for answers, bounded cache |
| `LocalMove`, `LocalWrite` | moving and copying directory trees, and writing a file through a `.part` file |
| `FamilyIndex`, `FamilySearch` | the bounded item index and the folder search of the 189 family cloud |
| `Cookie` | reading, writing and updating the cookie string of Quark |
| `Text`, `Seqs`, `Wrappers` | trimming and decimal numbers, facts about sequences, the optional value |

## How the surroundings are modelled

- A remote service is a map of sessions, each a map from part number to bytes. Every remote call can
  fail, and a put can be stored although its reply is lost. What a service answers is a parameter of the
  attempt, so the theorems hold for every answer.
- A run is any sequence of attempts. Each may be cut off by any failing call, and is handed a checkpoint
  that was issued before. Saving checkpoints is debounced (internal/upload/resume.go:51-67), so an older
  checkpoint than the newest may come back; `Cloud139`, `Quark`, `Cloud189`, `Pan123` and `Oss115` allow
  any one ever issued, `Baidu` the one of the last attempt or any issued in it.
- An upload attempt is also shown not to fail where no call fails (`Helpful` in each driver), and to continue
  an accepted checkpoint and put exactly what is missing, so the safety theorems are not met by giving up or
  starting over. Numbers and codes that the source fixes are written out in the contracts.
- The local file does not change within one attempt. Between attempts it may, wherever the theorem does
  not speak of an unchanged file.
- Digests are functions of the bytes, injective where the code takes equal digests for equal content.
- A log or a listing may change between any two page requests. Time is a number that never goes back.
- Faults of the local file system are parameters of a transfer: what becomes of the copy of each entry and
  which entries refuse to be removed, what a look-up or a rename replies, and where a link leads. What
  succeeds is stated in terms of them, both ways.

## What does not hold without a condition

- A poll of the event log gives up after 10000 scanned events and then moves the cursor past older ones:
  `Events115.BacklogLosesEvents`. `Events115.ReturnsExactly` and `Events115.SkippedAreBelow` say which events
  that are, `Events115.NoGap` and `Events115.CapNeedsBacklog` when there are none.
- A poll that cannot read the stored cursor takes itself for the first one and stores a new baseline:
  `EventMonitor.FailedReadLosesEvent`. In an otherwise undisturbed run a due event survives that exactly when
  its id is not between the stored cursor and the new baseline (`EventMonitor.FailedReadLoses`); in any run
  `EventMonitor.EachEventDecided` says exactly which events are delivered.
- A full listing can miss an entry when another one is removed between two pages:
  `FullList115.RemovalHidesEntry`. `FullList115.MissedExactly` says exactly when.
- `Pan123`, `Baidu` and `Oss115` continue an upload by size and name without hashing the file again. If it
  was replaced, the result is the new file exactly when the parts done before are parts of it too; runs that
  build mixtures are `Pan123.ReplacedFileIsMixed` and `Baidu.ReplacedFileIsMixed`. Digests in Baidu's replies
  rule mixtures out; an attempt in which no call fails is then given up exactly when a missing chunk differs.
- The reading of slices in `Pan123` is right exactly when no completed slice lies between two missing
  ones. Every run keeps it so.
- A reply of the 189 service may lead to another part than the one asked for. Then some part is missing when
  the commit is sent: `Cloud189.StrayReplyLosesPart`. All parts are recorded if every reply for a part not
  completed before leads to that part, and not all if any leads elsewhere; where all offered entries are
  usable it is one or the other (`Cloud189.OwnOrStrays`).
- The parts named to complete an upload in `Oss115` are in ascending order exactly when the listed ones are
  1..k. Every run keeps it so.
- The look-up of a destination follows links, so a link whose end does not exist passes for a free place.
  Moving onto it loses the link, or leaves the file where it leads; copying leaves the link:
  `LocalMove.LinkIsReplaced`, `LocalMove.CopyGoesWhereLinkLeads`. A transfer that succeeds is one to a free
  place exactly when the destination is not a link, and a move loses nothing exactly then.
- The resume state of a local write is handed out before the `.part` file is emptied. An attempt that is cut
  off in between lets the next one continue an older `.part` file: `LocalWrite.StalePartIsTakenUp`. The
  result is right exactly when that file is a beginning of the source, and `LocalWrite.LocalFs.RunOnce` says
  exactly which attempts leave such a danger behind.
- An item of the family index that was forgotten and remembered again can be evicted early:
  `FamilyIndex.ForgottenPlaceEvicts`. `FamilyIndex.RememberExactly` says exactly which items stay.
- A cached recognition is what the model would say now, except for a year that was more than three years
  ahead when it was answered and is not any more (`Recognition.YearDecides`).
- A second update of the cookie string with the same cookies changes nothing exactly when their values
  are trimmed.

## Model

| member | source | states |
|---|---|---|
| Events115.NoGap | drivers/115Cloud/events.go:130-211 | Over a log that grows between page requests, a poll from a stored cursor that is not cut short by the scan limit returns every event with a file id and a type of some kind above the old cursor and at most the returned one; EachKindReturned says the same by the type codes. |
| Events115.DeliveredIsDue | drivers/115Cloud/events.go:158-191 | The other direction: whatever a poll returns is such an event, so the result is exactly what is owed. |
| Events115.EachKindReturned | drivers/115Cloud/events.go:46-69 | For each kind of operation, by the literal type codes of the service: every event with such a code, a file id and an id between the cursors is returned with that kind, its own file and parent id, and as a folder exactly for the codes 17, 18 and 20. |
| Events115.OnlyKindsReturned | drivers/115Cloud/events.go:46-69 | The converse: each returned operation stems from an event with a code of its kind and an id between the cursors; no other code is returned. |
| Events115.DueByCode | drivers/115Cloud/events.go:158-191 | What the other rows call a due event is, by literal codes, an event of some kind with a file id and an id between the cursors. |
| Events115.CollectDistinct | drivers/115Cloud/events.go:142-183 | No event id is returned twice, although offset pages overlap when the log grows. |
| Events115.PollKeepsCursor | drivers/115Cloud/events.go:205-210 | The returned cursor is never below the old one, is the old text when nothing newer was seen, and otherwise reads back as the greatest id seen. |
| Events115.RecentOperations | drivers/115Cloud/events.go:130-211 | Each poll ends, and its result is the filtered scan of some sequence of pages that the service served in turn, with the reason the scan ended; which events the filter lets through is stated by EachKindReturned and OnlyKindsReturned. |
| Events115.ScanPage | drivers/115Cloud/events.go:152-193 | One page continues the scan: events, ids seen and greatest id are those of everything scanned so far, and an old id is noticed without stopping inside the page. By EachKindReturned no event of any kind is passed over. |
| Events115.Coverage | drivers/115Cloud/events.go:146-203 | All pages of a scan together cover the log without a hole from where the last page ends up to the newest event any page saw, even when a page lies wholly above an earlier one. |
| Events115.FirstPageIs | drivers/115Cloud/events.go:131-146 | The first page holds the newest events, as many as asked for or 1000, where the service does not cut it short. |
| Events115.CapNeedsBacklog | drivers/115Cloud/events.go:197-203 | A poll is cut short by the limit of 10000 only when at least 10000 visible events lie above the cursor. |
| Events115.BacklogLosesEvents | drivers/115Cloud/events.go:198-209 | With 11000 or more visible events above the cursor a poll that does not fail is cut short, moves the cursor past the oldest one and never delivers it. |
| Events115.ReturnsExactly | drivers/115Cloud/events.go:130-211 | A poll from a stored cursor, cut short or not, returns exactly the due events that one of its pages shows, a condition on the lengths of the log and of the pages alone; if it is not cut short, every due event is shown. |
| Events115.SkippedAreBelow | drivers/115Cloud/events.go:146-211 | The due events that no page shows lie below the end of the last page; in a log that does not grow during the poll they are exactly the due ones below it. |
| Events115.BaselineReadsNewest | drivers/115Cloud/events.go:130-211 | A poll from the empty cursor asks once, returns no event, and its cursor is that of the newest visible event. |
| EventMonitor.EveryRunHolds | internal/eventmonitor/service.go:176-229 | Over every run of polls, whether reading the cursor, polling or storing it fails in any round: the cursor never goes back, every due event between baseline and cursor has one poll that decides on it, and nothing is delivered twice or unowed as long as every new cursor was stored. |
| EventMonitor.EachEventDecided | internal/eventmonitor/service.go:189-228 | For each due event between baseline and cursor, the poll that moves the stored cursor past it decides: the event is delivered exactly when that poll could read the cursor and, if cut short, came down to the event, or an earlier poll that failed to store the cursor had handed it on. |
| EventMonitor.FailedReadRebases | internal/eventmonitor/service.go:189-213 | A poll that could not read the cursor delivers nothing and stores the newest id it sees, unless it fails. |
| EventMonitor.FailedReadLoses | internal/eventmonitor/service.go:189-213 | In a run disturbed by one failed read only, a due event survives it exactly when its id is not above the stored cursor and at or below the new baseline. |
| EventMonitor.FailedReadLosesEvent | internal/store/event_monitor_repo.go:12-24 | A run with two events in which the cursor cannot be read for the second poll: nothing is delivered, although the second event is due and at the cursor. |
| EventMonitor.ReadRunLosesNothing | internal/eventmonitor/service.go:189-228 | Without a failed read and a poll that is cut short nothing between baseline and cursor is lost, whatever else fails. |
| EventMonitor.NothingTwice | internal/eventmonitor/service.go:216-228 | While every new cursor is stored, the delivered operations stem from due events and no id occurs twice. |
| EventMonitor.CursorOnlyAdvances | internal/eventmonitor/service.go:189-228 | The stored cursor never goes back from one poll to the next and never gets lost, also when a poll could not read it and stores a new baseline. |
| EventMonitor.PollRepeatedly | internal/eventmonitor/service.go:176-229 | The polling loop produces such a run: without a cursor, or when it cannot be read, a poll only sets the baseline; others deliver first and store the cursor afterwards. |
| Events115.DecimalReadsIds | drivers/115Cloud/events.go:75-78 | Decimal reading and writing of ids satisfies what the cursor proofs ask of it: the empty text reads as 0 and every written id reads back. |
| Text.Digits | drivers/115Cloud/events.go:205-210 | The digits written for a number are digits that read back as that number, without a space. |
| Text.ParseFormat | drivers/115Cloud/events.go:75-78 | A 64-bit number written in decimal reads back as itself. |
| FullList115.MissedExactly | drivers/115_Open/full_list.go:40-85 | A successful listing misses an entry that is listed throughout exactly when, not yet scanned, it jumps from after the next offset to before it between two requests and never comes back to where a later request starts. |
| FullList115.RemovalsMissExactly | drivers/115_Open/full_list.go:40-85 | When the entry never moves to a later position, as with removals only, it is missed exactly when it jumps so. |
| FullList115.NothingMissed | drivers/115_Open/full_list.go:40-85 | If entries are only inserted, anywhere, between page requests, no entry jumps, so a successful listing contains every entry that was there at the start and is not trashed. |
| FullList115.ScannedOrAhead | drivers/115_Open/full_list.go:44-82 | After each page every entry that was there at the start and never jumps from after the next offset to before it has been scanned or lies at or after that offset. |
| FullList115.CollectedSound | drivers/115_Open/full_list.go:55-79 | Every listed entry comes from a page and is not in the trash (its area id is neither 7 nor 120), with its own fields, and no id is listed twice. |
| FullList115.CollectedComplete | drivers/115_Open/full_list.go:55-79 | Every scanned entry outside of the trash is listed. |
| FullList115.CollectedExactly | drivers/115_Open/full_list.go:55-79 | Listed are exactly the scanned entries that are the first of their id and whose area id is neither 7 nor 120. |
| FullList115.CollectedInOrder | drivers/115_Open/full_list.go:55-79 | What later pages bring is listed after what was listed before. |
| FullList115.CollectFullListPages | drivers/115_Open/full_list.go:40-85 | The loop ends after at most as many pages as there are ids, and succeeds only when an empty page was reached; a page without a new id, an entry without id, a fault or a cancellation is an error. |
| FullList115.ScanPage | drivers/115_Open/full_list.go:52-79 | One page extends the list by its new entries, counts the new ids, and fails exactly when an entry has no id. |
| FullList115.RemovalHidesEntry | drivers/115_Open/full_list.go:40-85 | Why insert-only is needed: with an entry removed between two requests a successful listing misses an entry that was there throughout. |
| UploadPlan.AssembleIsFile | drivers/139Cloud/upload.go:324-350 | The shared specification of all chunked uploads: parts 1..n as planned, in ascending order, are the file. |
| UploadPlan.CompleteSession | drivers/139Cloud/upload.go:324-350 | A session that holds only right parts and misses none assembles to the file. |
| UploadPlan.AssembleDetermines | drivers/139Cloud/upload.go:324-350 | Conversely, if every part has its planned length and the assembly is the file, every part is the right one. |
| UploadPlan.PartCount | drivers/139Cloud/upload.go:324-334 | The last planned part is not empty and ends at or after the end of the file; an empty file still has one part. |
| UploadPlan.SectionIsPart | drivers/139Cloud/upload.go:399-422 | The section of the file at a part's offset and of its length is that part. |
| UploadPlan.UploadedBytesByParts | internal/driver/uploadutil/resume.go:25-44 | The bytes of a part set in any order of its parts: the sum of the planned lengths, at most the file size. |
| UploadPlan.FullCountMeansAllParts | internal/driver/uploadutil/resume.go:25-44 | The counted bytes reach the file size exactly when every planned part is in the set. |
| UploadPlan.ProgressMeaning | drivers/139Cloud/upload.go:240-249 | The percentage of a checkpoint is the share of the counted bytes, rounded down, from 0 to 100. |
| UploadPlan.ProgressIsFullExactlyAtEnd | drivers/139Cloud/upload.go:240-261 | A checkpoint says 100 percent exactly when every part is completed. |
| UploadPlan.SortedParts | internal/driver/uploadutil/resume.go:126-133 | A part set is listed in strictly ascending order with exactly its members, whatever order it is visited in. |
| UploadPlan.PartSetRoundTrip | internal/driver/uploadutil/resume.go:101-133 | A part set that is written to a checkpoint reads back as itself exactly when all its parts are in range. |
| UploadPlan.ReadPart | drivers/Quark/upload.go:297-310 | Seeking to a part and reading it in full gives the part; nothing is read exactly for an empty file. |
| Cloud139.PlanSizes | drivers/139Cloud/upload.go:324-334 | Up to 30 GiB there are at most 308 parts of 100 MiB, beyond that parts of 512 MiB. |
| Cloud139.AcceptedForSame | drivers/139Cloud/upload.go:212-238 | A checkpoint is accepted for one parent, name, size and content hash only, or for any content while the file is not hashed yet. |
| Cloud139.BuildUploadParts | drivers/139Cloud/upload.go:324-350 | The plan depends on the size alone: entry k is part k + 1 with its offset and length. |
| Cloud139.PendingParts | drivers/139Cloud/upload.go:263-271 | Exactly the planned parts that are not completed. |
| Cloud139.MergeUploadURLs | drivers/139Cloud/upload.go:382-388 | Merged addresses keep every known one the reply does not replace and add each usable new one, and each is one of the reply for its part or the known one. |
| Cloud139.Cloud139.PutUploadPart | drivers/139Cloud/upload.go:399-422 | A put stores exactly the bytes of the part; it may be stored although the reply is lost. |
| Cloud139.Cloud139.Persist | drivers/139Cloud/upload.go:240-261 | A checkpoint handed out is accepted for the same request and content, reads back the same completed parts, and says 100 percent exactly for all of them. |
| Cloud139.Cloud139.PutAndCheckpoint | drivers/139Cloud/upload.go:190-195 | After each part that is put there is a checkpoint that says just the parts completed so far are. |
| Cloud139.Cloud139.FetchURLs | drivers/139Cloud/upload.go:148-175 | If the service answers with an address for each part asked for, every part still to be put has one; requests are for 1 to 100 parts not completed, and none is made when all addresses are known. |
| Cloud139.Cloud139.UploadParts | drivers/139Cloud/upload.go:177-196 | On success exactly the parts that were not completed are put, once and in ascending order, each checkpointed, and every planned part of the file is stored. |
| Cloud139.Cloud139.CreateSession | drivers/139Cloud/upload.go:107-146 | A new session starts empty, is tied to the hashed content and has a checkpoint under the name the service gave; an answer without ids is refused. |
| Cloud139.Cloud139.OpenSession | drivers/139Cloud/upload.go:55-146 | A checkpoint is continued exactly when it names this target and the content hash of the current file, whatever the other calls reply; its completed parts are then stored in its session. Otherwise a name that is taken skips, known content is a rapid hit, and a new session gets the name the service or the look-up says. |
| Cloud139.Cloud139.UploadLocalFile | drivers/139Cloud/upload.go:40-210 | Whatever checkpoint was handed over and whatever the file now holds, the complete call for a file that is not empty is made only when the session holds every part and assembles to the current file, and then exactly the parts not completed before were put; a checkpoint that is accepted is continued and succeeds where putting does; every checkpoint handed out is for this request, content and name; and an attempt succeeds when no call fails. |
| Cloud139.Cloud139.UploadRuns | drivers/139Cloud/upload.go:40-210 | The same over any number of attempts, each cut off anywhere, with any checkpoint issued before and the file replaced at will: whatever is built is the file of its attempt. |
| Quark.EtagsRoundTrip | drivers/Quark/upload.go:562-666 | Stored tags read back as they are exactly when each is for a part of the file and not empty; reading back once makes tags that read back as they are. |
| Quark.AcceptedForSame | drivers/Quark/upload.go:562-600 | A checkpoint is accepted for one parent, name, size and pair of hashes only, and names its whole session. |
| Quark.Quark.PutPart | drivers/Quark/upload.go:342-388 | A tag is returned only for a part that is stored, and is the tag of its bytes, also when the service says it has the part already; and it is returned where the reply is good. |
| Quark.Quark.Persist | drivers/Quark/upload.go:635-666 | A checkpoint handed out holds the tags collected so far and is accepted for the same request and content. |
| Quark.Quark.PutAndCheckpoint | drivers/Quark/upload.go:307-333 | After each part that is put its tag is appended and remembered, and a checkpoint holds all tags remembered so far. |
| Quark.Quark.UploadParts | drivers/Quark/upload.go:265-338 | On success the tag list has one tag for each planned part, entry i being the tag of part i + 1, the session assembles to the file, and exactly the parts without a tag were put, in order. |
| Quark.Quark.CompleteUpload | drivers/Quark/upload.go:425-473 | A service that checks the tags builds the object exactly when it stores each part i + 1 under entry i of the list; from the list of a finished upload it builds the file. |
| Quark.Quark.OpenSession | drivers/Quark/upload.go:82-180 | A checkpoint is continued exactly when it names this target and both hashes of the current file, whatever the other calls reply; then exactly its tags with a value and a part of the file are kept, and each is that of a stored part of this file. A new session has the part size of the service, or 16 MiB, no tag, and its first checkpoint. |
| Quark.Quark.UploadLocalFile | drivers/Quark/upload.go:57-201 | Every complete call for a file that is not empty builds the current file, and exactly the parts whose tag was not kept from an accepted checkpoint were put; an accepted checkpoint is continued and succeeds where putting does; every checkpoint handed out is for this request and content. |
| Quark.Quark.UploadRuns | drivers/Quark/upload.go:57-201 | The same over any number of interrupted attempts with replaced files and older checkpoints. |
| Pan123.CursorIsRightExactlyWithoutHole | drivers/123_Open/upload.go:256-345 | Reading on without seeking past completed slices reads every missing slice from its own place exactly when no completed slice lies between two missing ones. |
| Pan123.AcceptedForSame | drivers/123_Open/upload.go:632-714 | A checkpoint is accepted for one parent, name and size only; the content is not looked at. |
| Pan123.PrefixHasNoHole | drivers/123_Open/upload.go:293-304 | Completed slices 1..k leave no hole, and the upload starts at slice k + 1. |
| Pan123.FindStart | drivers/123_Open/upload.go:293-304 | The first missing slice, or 1 when none is missing. |
| Pan123.ReadSlice | drivers/123_Open/upload.go:306-330 | What is read when a slice is due, for any completed set, and that it is all there. |
| Pan123.UploadFileSlices | drivers/123_Open/upload.go:256-345 | For any completed set: each newly completed slice is stored as it was read, the loop goes on up to the first missing slice whose put does not succeed, checkpoints are sets on the way, one after each fifth slice that was put, and the last one is handed out on every way out. |
| Pan123.ExtensionOfPrefix | drivers/123_Open/upload.go:256-345 | From completed slices 1..k every set a run leaves or hands out is again 1..m for some m. |
| Pan123.Pan123.constructor | drivers/123_Open/upload.go:48-177 | A new upload state has no session and no checkpoint, so the prefix invariant holds from the start. |
| Pan123.Pan123.UploadSession | drivers/123_Open/upload.go:256-345 | The slice loop of one session keeps the prefix invariant for the session and for every checkpoint, and on success fills every missing slice from the file. |
| Pan123.Pan123.OpenSession | drivers/123_Open/upload.go:67-147 | The policy to skip an existing file, and its failing look-up, end the attempt first; then a checkpoint is continued without hashing the file again, its completed slices being 1..k for some k and stored; otherwise known content is a rapid hit, and a new session is opened with its first checkpoint. |
| Pan123.Pan123.UploadLocalFile | drivers/123_Open/upload.go:48-177 | When the complete call is made every slice is stored, and the session is the current file exactly when no slice was completed before or those slices are slices of the current file; the last checkpoint goes on from the one handed over to where the attempt stopped. |
| Pan123.Pan123.UploadRuns | drivers/123_Open/upload.go:48-177 | Over any number of interrupted attempts for an unchanged file, whatever is built is the file. |
| Pan123.ReplacedFileIsMixed | drivers/123_Open/upload.go:48-177 | A run from a new service: the first attempt puts one slice of [1, 2] and fails, the second is handed its checkpoint and completes the session for [3, 2]; what is built is [1, 2]. |
| Cloud189.PartsAreBounded | drivers/189Cloud/upload.go:406-419 | For every size at most 1999 parts, each a multiple of 10 MiB: of 10 MiB up to 999 of them, of 20 MiB up to 1998 of 10 MiB, and beyond the least multiple from 50 MiB on that keeps the bound. |
| Cloud189.CalculateUploadHashes | drivers/189Cloud/upload.go:421-485 | One pass gives the digest of the file, of each planned part, and of the list of part digests where there is more than one part. |
| Cloud189.SliceChecksum | drivers/189Cloud/upload.go:474-484 | The second checksum of a file of several parts is that of a text whose i-th line is the checksum of part i + 1; that of one part is the first one. |
| Cloud189.KeyedObjectReadsBack | drivers/189Cloud/upload.go:580-594 | Offers written as an object keyed by part number are read as exactly those offers; of two for one part the later one. |
| Cloud189.PlainListReadsBack | drivers/189Cloud/upload.go:569-579 | A list of addresses without numbers is read as parts 1, 2 and so on. |
| Cloud189.StatedListReadsBack | drivers/189Cloud/upload.go:569-579 | A list that states its numbers is read as exactly the offers it was written from. |
| Cloud189.StatedObjectReadsBack | drivers/189Cloud/upload.go:580-594 | So is an object whose entries state their numbers, whatever its keys are. |
| Cloud189.UnnamedIsExpected | drivers/189Cloud/upload.go:588-594 | An entry without a number under a key without one is for the part asked for, and a reply of another shape offers nothing. |
| Cloud189.SelectUploadPart | drivers/189Cloud/upload.go:566-598 | The expected part if it is offered, otherwise some part that is offered, otherwise the expected part without an address; what is offered is pinned by the five rows before. |
| Cloud189.OwnOrStrays | drivers/189Cloud/upload.go:166-178 | What a reply can lead to is decided by what it offers: to its own part only if that is offered or nothing usable is, to other parts only if just others are offered with usable entries; where all offered entries are usable it is one or the other. |
| Cloud189.StrayReplyLosesPart | drivers/189Cloud/upload.go:157-221 | A run with a file of two parts in which both replies offer part 2 alone: the commit is sent although part 1 was never put. |
| Cloud189.KeyedRepliesBuildFile | drivers/189Cloud/upload.go:49-221 | A run with any file that is not empty whose replies are objects keyed by the part asked for: all parts are recorded, and the session assembles to the file. |
| Cloud189.AcceptedForSame | drivers/189Cloud/upload.go:305-344 | A checkpoint is accepted for one space, parent, name, size and pair of digests only; a state without a space is one of the personal space. |
| Cloud189.ChoosePart | drivers/189Cloud/upload.go:166-178 | The part and the address are exactly those a reply can lead to: the part asked for if it is offered, otherwise any offered part with a usable entry, and the single address if there is none; how replies are read is pinned by the ReadsBack rows. |
| Cloud189.Cloud189.PutSection | drivers/189Cloud/upload.go:179-188 | Whichever part is chosen, what is stored are exactly that part's bytes, and a part outside the plan is refused. |
| Cloud189.Cloud189.PutChosenPart | drivers/189Cloud/upload.go:157-206 | One turn records the part that was chosen, not the part that was asked for, and hands out a checkpoint with just the parts recorded so far that is accepted for this request and content again. |
| Cloud189.Cloud189.UploadParts | drivers/189Cloud/upload.go:157-206 | Every recorded part holds its bytes of the file. If every reply for a part not completed before leads to that part, all parts are recorded at the end; if any such reply leads elsewhere, some part is not. |
| Cloud189.Cloud189.OpenSession | drivers/189Cloud/upload.go:305-344 | A checkpoint is continued exactly when both digests are those of the current file; then its recorded parts are stored, and its name and its mark for a rapid hit are kept. A new session is empty and has its first checkpoint. |
| Cloud189.Cloud189.UploadLocalFile | drivers/189Cloud/upload.go:49-221 | When the commit is sent without a rapid hit, every stored part is a part of the current file; whether all parts are recorded is decided by the replies for the parts not completed at the start, both ways. With a rapid hit, new or from the checkpoint, no part is asked for. |
| Cloud189.Cloud189.UploadRuns | drivers/189Cloud/upload.go:49-221 | Over any number of attempts with replaced files and older checkpoints, a commit with all parts recorded assembles to the file of its attempt. |
| Baidu.PrepareUploadMeta | drivers/Baidu_Open/upload.go:207-272 | One pass gives the digest of the file, of its first 256 KiB or less, and of each chunk. |
| Baidu.AcceptedForSame | drivers/Baidu_Open/upload.go:569-667 | A state is accepted for one parent, name and size only; the content is not looked at. |
| Baidu.PartSize | drivers/Baidu_Open/upload.go:426-436 | The length of a chunk is the planned length, zero outside the file. |
| Baidu.CompletedBytes | drivers/Baidu_Open/upload.go:438-447 | The bytes of a set of chunks in any order, at most the file size. |
| Baidu.ReadChunk | drivers/Baidu_Open/upload.go:405-408 | Reading on from the end of the chunks before gives the chunk. |
| Baidu.SeekPast | drivers/Baidu_Open/upload.go:398-404 | Seeking past a completed chunk brings the cursor to the next one, so holes do no harm. |
| Baidu.PutChunk | drivers/Baidu_Open/upload.go:405-420 | A missing chunk is stored as it is in the file, and completed exactly when its reply passes the digest check. |
| Baidu.UploadBaiduParts | drivers/Baidu_Open/upload.go:368-424 | For any completed set, with holes or not: the loop goes on up to the first missing chunk that is refused, newly completed chunks are stored as they are, counted bytes are those of the completed chunks and end equal to the size, and checkpoints go from the first set to the last, with one after each fifth chunk that was put. |
| Baidu.AssemblyDecides | drivers/Baidu_Open/upload.go:368-424 | After all chunks are completed the session is the current file exactly when the chunks done before are chunks of it. |
| Baidu.PassedIsOrigin | drivers/Baidu_Open/upload.go:510-518 | Where every reply carries a digest, completed chunks are those of the file the digest list was made from. |
| Baidu.UndisturbedRun | drivers/Baidu_Open/upload.go:368-424 | When every put is stored, an attempt without digests in the replies completes every chunk, and one with digests does so exactly when the missing chunks are those of the file that was hashed. |
| Baidu.Baidu.OpenSession | drivers/Baidu_Open/upload.go:569-667 | A state is continued without reading the file; otherwise known content is a rapid hit, and a new session is empty and has the digests of the current file. |
| Baidu.Baidu.UploadSession | drivers/Baidu_Open/upload.go:368-424 | The chunk loop of one session keeps every saved checkpoint true of its session. |
| Baidu.Baidu.UploadLocalFile | drivers/Baidu_Open/upload.go:73-170 | When the create call is made, every chunk is stored; the session is the current file exactly when the chunks done before are; and with digests in the replies it is the file that was hashed. Where no call fails a new session is always completed, and a continued one unless digests tell a missing chunk from the hashed one. |
| Baidu.Baidu.UploadRuns | drivers/Baidu_Open/upload.go:73-170 | Over any number of interrupted attempts for an unchanged file, whatever is built is the file. |
| Baidu.Baidu.CheckedRuns | drivers/Baidu_Open/upload.go:73-170 | With digests in every reply, and the file replaced at will, whatever is built is the content of one of the files, never a mixture; and a fresh attempt in which no call fails builds its file. |
| Baidu.ReplacedFileIsMixed | drivers/Baidu_Open/upload.go:73-170 | Without digests in the replies a replaced file is not noticed: in a run from a new service the first attempt puts the first 4 MiB of one file, and the second, handed its checkpoint, adds the end of another. |
| Oss115.PlanWithinLimit | drivers/115_Open/upload.go:744-768 | The plan needs at most 10000 parts exactly for sizes up to 10000 parts of 5 GiB. |
| Oss115.PartSizeIsMonotone | drivers/115_Open/upload.go:744-768 | A larger file never gets a smaller part size. |
| Oss115.FreshTokenMeaning | drivers/115_Open/upload.go:711-723 | A credential is not due exactly when it is younger than 45 minutes and more than 5 minutes from its end; and then it was not due earlier. |
| Oss115.EnsureFresh | drivers/115_Open/upload.go:960-965 | The credential in use is one just fetched or one that is not due. |
| Oss115.ListUploadedParts | drivers/115_Open/upload.go:1084-1131 | Against a service that pages honestly, with pages of any size, the result is the whole list of stored parts in ascending order with their tags and sizes, and the loop ends; an error is that of the first request that is not answered with a page. |
| Oss115.ServePage | drivers/115_Open/upload.go:1107-1115 | The assumed service: the next stored parts after the marker, and a marker for the rest. |
| Oss115.UploadPart | drivers/115_Open/upload.go:1308-1326 | A part is stored with exactly its bytes, also when the first try is rejected for its credential after consuming some of them. |
| Oss115.ListedBytes | drivers/115_Open/upload.go:1238-1244 | The bytes of the listed parts and the set of their numbers. |
| Oss115.UploadMissing | drivers/115_Open/upload.go:1286-1336 | The loop puts exactly the parts not listed, each with its bytes and once, counts every part once, stops at the first that fails, and hands out the count after each fifth part and the last one. |
| Oss115.ReportsGrow | drivers/115_Open/upload.go:1331-1334 | The counts handed out grow, and when the last part was put the last one is the size of the file. |
| Oss115.AcceptedForSame | drivers/115_Open/upload.go:1429-1462 | A state is accepted for one parent, name and size only; the content is not looked at. |
| Oss115.EachPartOnce | drivers/115_Open/upload.go:1286-1336 | Listed parts followed by missing ones name each of 1..n exactly once, whatever is listed. |
| Oss115.AscendingExactlyForPrefix | drivers/115_Open/upload.go:1174-1203 | That order is ascending exactly when the listed parts are 1..k for some k. |
| Oss115.Finished | drivers/115_Open/upload.go:1286-1350 | After the loop the complete request names every part once in ascending order with the tag of what is stored, the counted bytes are the size, and the service builds the file exactly when the parts it held before are parts of it. |
| Oss115.PutsKeepSession | drivers/115_Open/upload.go:1286-1336 | A session whose parts are 1..k stays one, also when a part was stored but its reply lost. |
| Oss115.Oss115.Prepare | drivers/115_Open/upload.go:140-195 | The hash is computed only where the state has none; a state that has one keeps it. The name is looked up only where the state has none. |
| Oss115.Oss115.ListCandidate | drivers/115_Open/upload.go:1227-1237 | Where a credential can be had and each listing request is answered, at the first try or after a rejected credential at the second, the parts are listed; a session counts as missing only where the listing ends with that word. |
| Oss115.Oss115.OpenSession | drivers/115_Open/upload.go:1223-1275 | Where the state names a session for this object and it can be listed, that session is continued with the parts listed in it, whether or not a new one could be opened; another session comes back only if the state names none or the service says it is missing, and is new and empty. |
| Oss115.Oss115.OssMultipartUpload | drivers/115_Open/upload.go:1205-1350 | The completed session is the one the state names for the object, where it can be listed, and exactly the parts it did not hold are put, whose success then decides the upload; no other session is touched; each session that is opened is named by a state handed out that is accepted for the same request. |
| Oss115.Oss115.ResumeMultipartUpload | drivers/115_Open/upload.go:304-339 | The session of the state is continued where the service answers for its object and lists it, and exactly its missing parts are put; another bucket or object drops the upload id and so starts a new session. |
| Oss115.Oss115.UploadLocalFile | drivers/115_Open/upload.go:41-131 | One attempt: a small file goes up as a whole, a large one in parts. With an accepted state that has a pick code the parts go where the service says for resuming, and where that session can be listed it is the one completed; a session that was there before is completed only if an accepted state names it; exactly the parts not stored before are put; all states handed out are for this request. |
| Oss115.Oss115.UploadRuns | drivers/115_Open/upload.go:41-131 | Over any number of interrupted attempts for an unchanged file, with any state handed out before, whatever is built is the file. |
| Batching.SplitWorks | internal/aiorganize/service.go:257-275 | The chunks are the works in their order, each chunk holds 1 to 20 works and at most 28 KiB unless it is a single work, and no other such split has fewer chunks. |
| Batching.GreedyIsOptimal | internal/aiorganize/service.go:257-275 | Any split whose chunks are as long as they can be needs no more chunks than any other. |
| Recognition.SampleIsOfWork | internal/aiorganize/service.go:285-292 | A sample has at most 120 files, the first and the last 60 of the work if there are more, is its own sample, and is the work itself exactly up to 120 files. |
| Validation.FitsExactlyWhenUnchanged | internal/aiorganize/service.go:294-357 | The stated rules for an answer describe exactly the answers validation leaves unchanged, and what validation returns meets them. |
| Validation.KeptFilesFit | internal/aiorganize/service.go:330-353 | The files that are kept are known, distinct and in range; files that are so are kept as they are, and only those. |
| Validation.WhatIsKept | internal/aiorganize/service.go:306-329 | Part by part: an answer with a title of at most 200 characters keeps it, its year from 1870 to the bound, its season from 0 to 100 and its media type, for which the hint or movie stands in; the rest is dropped. |
| Validation.WhichFilesAreKept | internal/aiorganize/service.go:330-353 | Kept of the files are exactly the first acceptable entry of each file of the work, each with its kind in lower case or with none. |
| Validation.ValidatedMeaning | internal/aiorganize/service.go:294-357 | Every result meets the rules for a work asked about, no work has two, every work the answer mentions has one, and validating again changes nothing. |
| Validation.FirstsOfPrefix | internal/aiorganize/service.go:301-355 | Entries are kept in their order: what is kept of a beginning is the beginning of what is kept. |
| Validation.ValidateResults | internal/aiorganize/service.go:294-357 | The loop over the answer computes that validation. |
| Validation.FilterFiles | internal/aiorganize/service.go:330-353 | The loop over the files keeps the first acceptable entry of each file of the work. |
| Recognition.Service.GetCached | internal/aiorganize/service.go:371-380 | A result is served exactly when its entry has not expired; an expired entry is dropped and nothing else changes. |
| Recognition.MakeRoom | internal/aiorganize/service.go:382-397 | Room below 256 entries: nothing goes while there is room, otherwise the expired entries, and one that has not expired only when all 256 have not. |
| Recognition.Service.PutAnswer | internal/aiorganize/service.go:382-399 | The answer is stored under the fingerprint of its work with a day to live, the cache stays within 256 entries, and nothing else changes while it has less. |
| Recognition.PutHolds | internal/aiorganize/service.go:359-399 | Storing keeps the invariant that every entry under the fingerprint of a work is an answer given to just that work under that configuration, whatever its id. |
| Recognition.CacheAgrees | internal/aiorganize/service.go:359-399 | While the model says the same about the same work, a result that an earlier answer stands behind is what the model says about the work under its own id, cleaned as of the time of that answer. |
| Recognition.SameYearAgrees | internal/aiorganize/service.go:321-324 | If the year did not change since a day before the request, every such result is just what a service without a cache would return. |
| Recognition.YearDecides | internal/aiorganize/service.go:321-324 | The time of an answer matters only for a year that was more than three years ahead then and is not any more. |
| Recognition.Service.ServeAll | internal/aiorganize/service.go:63-152 | Over any number of requests from an empty cache, with whatever works, times and failing calls: while the model says the same about the same work, whatever is returned is that, from the cache or not. |
| Recognition.Service.TakeCached | internal/aiorganize/service.go:78-87 | Every work has its place: the cached result under its own id where the cache would serve it, otherwise among the works to ask about, in the order of the request; and no id occurs twice. |
| Recognition.Service.RecognizeChunk | internal/aiorganize/service.go:108-134 | A chunk that is answered returns the validated answer and stores each result, so that with room for all the cache serves each of these works; one that fails changes nothing but the clock. |
| Recognition.Service.RecognizeChunks | internal/aiorganize/service.go:96-143 | The results are those from the cache followed by the validated answers in order of the chunks; the failed count is the works of failed chunks. |
| Recognition.SortByPosition | internal/aiorganize/service.go:148-150 | The same results in the order of the request. |
| Recognition.Service.EnhanceWithProgress | internal/aiorganize/service.go:63-152 | Results are in strict request order, each meets the rules for its work and was given for it at most a day before the request or later; they are exactly the cached results and the validated answers; while the model says the same about the same work each is what it says; an error is returned only when the cache knew no work and the request failed for every chunk of them. |
| LocalMove.FileSystem.CopyLeaf | drivers/LocalFs/move.go:179-194 | A file or link is copied exactly where its copy meets no fault; otherwise nothing, or the first bytes of a file, is left. |
| LocalMove.FileSystem.CopyDir | drivers/LocalFs/move.go:141-177 | A copy succeeds exactly when no entry meets a fault, and then has the names, kinds, contents and link targets of the source and nothing else; whatever happens nothing outside the destination changes; and it ends, since the destination is not inside the source. |
| LocalMove.FileSystem.CopyPath | drivers/LocalFs/move.go:127-139 | The same for any kind of entry. |
| LocalMove.FileSystem.RemoveAll | drivers/LocalFs/move.go:117-124 | A removal goes bottom up; it succeeds, and leaves nothing, exactly when no entry below refuses to be removed. |
| LocalMove.RenameMoves | drivers/LocalFs/move.go:109-112 | A rename takes everything below the source to the destination and nothing else. |
| LocalMove.FileSystem.RenameOrCopyMove | drivers/LocalFs/move.go:108-125 | At a free destination the move of any kind of entry succeeds exactly when its rename goes through or, across devices, no entry meets a fault while it is copied and removed; whichever step fails, either the source is untouched or the copy is complete, and where no entry refuses to be removed a failed move leaves the tree as it was; on success the source is gone; nothing elsewhere changes. At a link it is told exactly what becomes of the link and of the source. |
| LocalMove.GuardedIsApart | drivers/LocalFs/ops.go:91-97 | After the guards neither of source and destination is inside the other. |
| LocalMove.FileSystem.TransferOne | drivers/LocalFs/move.go:66-104 | One entry: the transfer is done exactly when the entry passes the guards and is there already, or its place is free and its copy or move goes through; each other result has exactly its cause, and every refused request changes nothing. A success is a transfer to a place that was free exactly when the destination is not a link; a failure leaves each file and link at its own place or at the destination and nothing else changed. Over a link, which passes the look-up when its end does not exist, a successful move always loses a file or link. |
| LocalMove.OverLinkLoses | drivers/LocalFs/move.go:91-112 | A successful move over a link loses the link, or leaves the file elsewhere than at the destination. |
| LocalMove.LinkIsReplaced | drivers/LocalFs/move.go:91-112 | A run: a file is moved onto a link whose end does not exist; the call succeeds, and the link is lost. |
| LocalMove.CopyGoesWhereLinkLeads | drivers/LocalFs/move.go:91-99 | A run in copy mode: the copy succeeds, the destination still is the link, and the file is where the link leads. |
| LocalMove.FileSystem.TransferFiles | drivers/LocalFs/move.go:58-106 | A whole request is the given transfers in turn, up to the first in whose way something stands; and it is done where each of its entries could be transferred by itself to a free place at the start and neither names nor places of the entries meet. In one where no destination is a link whose end does not exist, whatever fails, each file and link has a place of its own, where it was or where the transfers done take it, and copying changes nothing that was there; on success each entry is transferred, otherwise one was tried last; and copies are of the entries as they were at the start. |
| LocalWrite.CopyLoop | drivers/LocalFs/ops.go:305-359 | Whatever is read per turn and wherever it stops, what is written is what was there continued from the source, without a stale tail, and all of it on success; where it stops, all turns before were written and counted. |
| LocalWrite.PrefixStaysPrefix | drivers/LocalFs/ops.go:305-359 | A continued file is a beginning of the source exactly when what was continued is; a complete one is the source exactly then. |
| LocalWrite.LocalFs.SuffixForUnique | drivers/LocalFs/ops.go:110-122 | The search for a free name: candidates with numbers from 1 on before the extension, in order. |
| LocalWrite.FirstFreeIsLeast | drivers/LocalFs/ops.go:110-122 | The name found has the least number that is not taken; it is number 999, taken or not, exactly if all smaller ones are taken. |
| LocalWrite.AcceptedForSame | drivers/LocalFs/ops.go:268-285 | A state is accepted for one directory, name and size only, and for a target in that directory. |
| LocalWrite.LocalFs.ChooseTarget | drivers/LocalFs/ops.go:190-214 | An accepted state decides the target; otherwise an existing file is skipped, renamed around or overwritten as the policy says, which UploadLocalFile states in terms of files. |
| LocalWrite.LocalFs.CopyToTmp | drivers/LocalFs/ops.go:216-238 | Only the temporary file changes, and it is not touched unless both files open. |
| LocalWrite.LocalFs.UploadLocalFile | drivers/LocalFs/ops.go:174-266 | Without an accepted state: under skip an existing file ends the attempt and no file changes; under rename it stays as it is and a success is at the free name with the least number; otherwise a success is at the named file. With one it is at the state's target. After the rename the target is what the attempt took up continued from the source, so it is the source exactly when that was a beginning of it; a `.part` file is taken up exactly if a state is accepted and the file is not too long. States are handed out for this target only; nothing else changes, without success the old target stays, and what was copied stays in the `.part` file unless the rename failed and it could be removed. |
| LocalWrite.LocalFs.RunOnce | drivers/LocalFs/ops.go:174-303 | From a state in which every temporary file that may be taken up is a beginning of the source, any attempt writes the source; and such a state remains exactly unless the attempt started afresh, was cut off before its files were open, and an older `.part` file that is no beginning of the source lies at its target. |
| LocalWrite.LocalFs.UploadRuns | drivers/LocalFs/ops.go:174-303 | Over any number of attempts for an unchanged source, each cut off anywhere, also before its files are open once an earlier attempt of this upload opened them, whatever is written to the target is the source, whatever older `.part` files held. |
| LocalWrite.StalePartIsTakenUp | drivers/LocalFs/ops.go:216-238 | A run: the first attempt hands out its state and cannot open the temporary file, the second is handed that state, continues an older `.part` file and writes [9, 2] for the source [1, 2]. |
| FamilyIndex.CacheIsBounded | drivers/189Cloud/family.go:73-93 | While every cached id is in the queue the cache is no larger than the queue, and as large when no id is repeated or missing. |
| FamilyIndex.EvictKeeps | drivers/189Cloud/family.go:88-92 | Eviction keeps the end of the queue, keeps every cached id queued and every value current. |
| FamilyIndex.EvictExactly | drivers/189Cloud/family.go:88-92 | Eviction takes away exactly the items with some place among the ids that leave the queue, and leaves the others as they are. |
| FamilyIndex.RememberExactly | drivers/189Cloud/family.go:73-93 | After a call exactly the items cached before and those given are cached, but for those with some place, be it an older one, among the ids that leave the queue. |
| FamilyIndex.LatestExactly | drivers/189Cloud/family.go:73-87 | What an id was last remembered with is the last item given with that id. |
| FamilyIndex.LaterGoBehind | drivers/189Cloud/family.go:73-87 | Ids that are given later go behind those given before. |
| FamilyIndex.RememberKeeps | drivers/189Cloud/family.go:73-93 | A call keeps the invariants: exactly those ids are cached to which nothing happened since they were queued; at most 4096 entries, values as last remembered, and the queue is the last 4096 of all ids ever queued in their order. |
| FamilyIndex.ForgottenPlaceEvicts | drivers/189Cloud/family.go:73-108 | A run from a new index: an item that was forgotten and remembered again is evicted by 4095 other ids, while without the forgetting as many leave it cached. |
| FamilyIndex.Family.RememberItems | drivers/189Cloud/family.go:73-93 | The two loops compute the new cache and queue, and keep the invariants. |
| FamilyIndex.Family.ForgetItems | drivers/189Cloud/family.go:102-108 | Exactly the given ids leave the cache; the queue is as it was. |
| FamilyIndex.Family.CachedItem | drivers/189Cloud/family.go:95-100 | A cached item is what its id was last remembered with. |
| FamilyIndex.Family.Run | drivers/189Cloud/family.go:73-108 | Over any calls the invariants hold, so an id is cached exactly when the last thing that happened to it is that it was queued; without forgets the queue holds each cached id exactly once. |
| FamilySearch.FindFamilyItem | drivers/189Cloud/family.go:110-135 | Over any graph, with cycles and shared folders, the search ends, lists each folder at most once and only reachable ones; an item is found exactly when some reachable folder lists its id, where all of them can be listed, and then in a folder that is as few steps from the root as any that lists it; and a listing error means a reachable folder failed. |
| FamilySearch.ScanFolder | drivers/189Cloud/family.go:123-131 | One folder: the first item with the id if it is listed, otherwise all sub-folders. |
| FamilySearch.ClosedHoldsAll | drivers/189Cloud/family.go:113-131 | A set with the root that is closed under sub-folders holds every reachable folder. |
| Cookie.BuildThenParse | drivers/Quark/auth.go:98-128 | A written string reads back with the same names in the same order and the values trimmed; it reads back as it was exactly when the values are trimmed. |
| Cookie.ParseIsGood | drivers/Quark/auth.go:98-120 | Whatever is read has each name once, and names and values fit to be written. |
| Cookie.ParseThenBuild | drivers/Quark/auth.go:98-128 | Reading and writing once makes a string that reading and writing no longer changes. |
| Cookie.SplitJoin | drivers/Quark/auth.go:100-127 | Joining parts and splitting them again gives them back, but for a space before each but the first. |
| Cookie.PairOf | drivers/Quark/auth.go:101-117 | A written name and value are read back as the name and the trimmed value. |
| Cookie.ParseCookie | drivers/Quark/auth.go:98-120 | The loop reads the whole string: the last value of each name, names in order of first occurrence. |
| Cookie.BuildCookie | drivers/Quark/auth.go:122-128 | The loop writes the names in their order. |
| Cookie.Merge | drivers/Quark/auth.go:72-82 | Whatever order updates come in: other cookies keep value and order, new names go to the end, and a change is reported exactly when some value differs. |
| Cookie.IncomingExactly | drivers/Quark/auth.go:61-66 | Taken over is exactly the last cookie that has a value of each of the names __puus and __pus. |
| Cookie.Session.AbsorbSetCookie | drivers/Quark/auth.go:54-96 | The stored string changes exactly when an update changes some value, and then holds the old cookies with the update; afterwards the last value received for each of the two names reads back, trimmed, and all other cookies read as before in their order. |
| Cookie.UpdateReadsBack | drivers/Quark/auth.go:54-96 | After an update every other cookie reads as before in the same order, and the updated ones as the new values, trimmed. |
| Cookie.SecondUpdate | drivers/Quark/auth.go:54-96 | A second update with the same cookies finds nothing to change exactly when their values are trimmed. |

## Left out

- HTTP, JSON and XML, request signing, logins, error texts and progress messages; a remote call is its
  outcome and its data.
- Texts from requests and stored states are taken as trimmed already, except in `Cookie` and
  `Validation`, where trimming is the point. Missing fields, fields of another type, and states written
  by older versions are not modelled.
- The other upload drivers (Guangya, OneDrive, OpenList, WebDAV, 115 Cloud), which have the same shapes
  or a single streamed call.
- Retries and waiting inside one remote call (189 part addresses and puts, 123 completion polling) count
  as that call's outcome.
- In the drivers of remote services the choice of a target name among existing files is the outcome of one
  call; the 189 driver looks at the name twice, the model once.
- The secondary verification of 115 is part of the outcome of announcing the file, and whether an uploaded
  file can be confirmed afterwards is not modelled.
- Several uploads to one session or target at a time.
- EventMonitor.PollRepeatedly: a crash between handing events on and storing the cursor counts as storing failed.
- FullList115.CollectFullListPages: the ids that can occur are a finite set, from which its end follows.
- Pan123.Pan123.UploadLocalFile: service addresses are only passed on, and which one takes a slice is left open.
- Oss115.ListUploadedParts: ends only against a service whose marker moves on while it says there is more;
  the sort at its end is left out, since honest pages are in order.
- Oss115.UploadMissing: states with counts are handed out in one go after the loop, in their order.
- Oss115.Oss115.UploadLocalFile: services that delete a session are those that say it is missing; the model keeps its parts.
- Baidu.Baidu.UploadLocalFile: that the service itself compares chunks with the digest list is not assumed.
- Recognition.Service.EnhanceWithProgress: the clock stands still while one answer is stored, and whether the
  service is configured is a parameter; the lower-casing of answers is any function that keeps the words of
  the rules; distinct ids of the works are required, as the planner numbers them.
- Recognition.SortByPosition: that equal positions keep their order is not stated, since ids are distinct.
- Recognition.Service.PutAnswer: which unexpired entry goes from a full cache is left open, as it is in the code.
- LocalMove.FileSystem.TransferOne: paths that lead through links, permissions and modification times are
  not modelled; a file written through a link to outside of the tree is not seen.
- LocalMove.FileSystem.TransferFiles: that nothing is lost is not stated for requests in which some destination
  is a link whose end does not exist, or may become one because an earlier entry has the same name; what each
  transfer of such a request does is.
- LocalMove.FileSystem.RemoveAll: stands for the library call, which removes nothing outside and no directory
  before what is in it, and stops at the first entry that refuses.
- LocalMove.FileSystem.CopyDir: a failing look-up of an entry counts as a fault of its copy.
- LocalWrite.LocalFs.UploadLocalFile: only regular files are modelled; setting the modification time after the
  rename, which may fail, is left out.
- FamilySearch.FindFamilyItem: the graph does not change during the search; a folder either lists or fails.
- Cookie.Session.AbsorbSetCookie: values come without a semicolon, as the library cuts them there; writing the
  string to storage is its return value.
- `RenameFile`, `DeleteFiles` and `CreateFolder` of the local driver, and the handlers, account and
  announcement code, which would only add easy members.
