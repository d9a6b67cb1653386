# Verification model of Kanta

Kanta is an append-only embedded document store. Each transaction's change is recorded as a
diff between two JSON-like states; records and occasional snapshots are framed into bytes and
appended to one file; opening the file replays it, applies migrations, and may first rotate old
history into a second file. This project models that pipeline in Dafny and proves what it keeps.

The pieces compose: diffs on trees (`Trees`, `Diffs`, `RoundTrips`, `Redelivery`, `Absorption`)
carry the log (`Logs`, `Chains`), the log carries the session step machine (`Sessions`), and the
two framers (`BinFraming`, `LineFraming`) carry all of it to bytes (`Files`, `Storage`). Rotation
(`Rotations`, `RotatedChains`, `RotationDisk`), validation of a whole file (`Events`, `Validations`), migrations
and opening (`Migrations`, `Databases`), transactions (`Transactions`) and the policies of the
background loop (`Policies`) are stated over the same logs and files. `ChangeLists`, `ChangeKinds`,
`Terminals`, `Marks` and `Ranges` model the independent algorithms of the log viewer.

Code that updates state in place is modelled by classes and loops (`DiffLoops`, `FramerLoops`,
`Persistence.Store`, `Databases.Database`, `RotationDisk.Disk`, `ChangeLists.Changes`,
`Terminals.Line`, and the methods of `Events`, `Rotations`, `Migrations`, `Marks`), each proved
equal to a function whose properties are the lemmas below.

## Conventions

- A raised exception is `None` or an error case of the result. Times are integers, the clock and
  the outcome of each disk write are parameters.
- The codec is an abstract inverse pair, and the checksum an arbitrary function of kind, seed,
  offset and payload. Text payloads have no newline, no blank at either end, and a change's
  payload does not look like a snapshot line.
- In `Sessions` one flush or snapshot is under way at a time and an append writes everything or
  nothing; transactions may commit between any two of its awaits.
- Trees hold no insertion order. Applying a diff takes the order of its keys, at every depth, as
  a parameter (`Diffs.Order`), and the results about diffs hold for every order. Constants that
  are declared without a value stand for what the model leaves open, so that every proof holds
  whatever they are: the order of the keys of a dict (`Trees.LISTING`), the order in which a
  recorded diff is decoded (`Diffs.INSERTION`), Unicode's blanks and digits beyond ASCII
  (`Diffs.WIDE_SPACES`, `WIDE_DIGITS`), and the text and truth of opaque values
  (`ChangeLists.TEXT`, `FALSY`).

## Findings

Where a promise does not hold for every input, the model keeps the code's behaviour, shows an
input, and proves the exact condition.

- A diff does not always lead back to the state it was computed for: an empty dict stored over a
  non-dict is lost, a string starting with `$$` loses a character, a dict of numbered keys stored
  over a list is taken for a list edit (`Redelivery.EmptyingIsLost`, `DollarStringIsChanged`,
  `NumberedDictOverList`). `RoundTrips.RoundTripIff` gives the exact condition.
- A tree applied to itself is not always itself: one that deletes a key of its own loses it when
  the deletion is visited after the key (`Redelivery.OrderDecides`). `Redelivery.SelfApplyInOrder`
  gives the condition for each order, `SelfApplyIff` the one for all orders.
- A snapshot taken while records are queued (the background loop allows it) leaves a file that
  replays correctly but fails validation and, behind the replay base, makes rotation abort: a
  concrete run is `Validations.FailingRunFails`. `Validations.ValidatesIff` and
  `RotationAbortsIff` say for every run exactly when.
- A schema version or time recorded by a snapshot alone, such as the version after a migration
  that changes no data, is lost by a rotation that drops that snapshot
  (`Rotations.SnapshotOnlyIsLost`), although `docs/rotation.md:52` says that migrations run exactly
  as they would have against the old content. `Rotations.RotationKeepsVersionIff` and
  `RotationKeepsTimeIff` say exactly when they are kept, given a clean split.
- A change older than the cutoff that follows a retained one, as after a clock that was set back,
  is in neither file after rotation, and the state changes with it, since the retained change is
  applied again over it (`RotatedChains.LateDropIsLost`). `Rotations.HistoryConserved` says exactly
  when history is kept. The state is kept whenever a closing snapshot is written
  (`Rotations.ClosingSnapshotKeepsState`), and for the files of runs whenever there is no such late
  change (`RotatedChains.RotationKeepsChainState`, `RunRotationKeepsState`), provided no snapshot
  is ahead of the last record on file (`RotatedChains.AheadBaseIsLost`). Without a
  closing snapshot this is a sufficient condition: a late change need not touch what the retained
  one sets.
  `docs/rotation.md:41` puts the cut just after the last dropped record; the code puts it at the
  first retained change (`kanta/rotation.py:113`), which the model follows.
- On a binary file, whose records carry no line numbers, a change range selects every change or
  none, an index selects all changes or none, and a snapshot index can only find the first record,
  where a change fails an assertion: `Ranges.UnnumberedInput` is a concrete file. Exactly when
  they come out right is said by `Ranges.UnnumberedRanges`, `UnnumberedIndex` and
  `UnnumberedSnapshotIndex`. An inclusive end bound far below zero still selects the first change
  (`Ranges.InclusiveBelowAll`).

## Model

| member | source | states |
|---|---|---|
| Trees.EscapeKey | kanta/diff.py:25-29 | an escaped key unescapes to the key it came from and is never a command |
| RoundTrips.DiffNoneIffEqual | kanta/diff.py:32-58 | there is no diff exactly when the two states are equal |
| Diffs.EntriesOf | kanta/diff.py:34-46 | the diff has an entry under an escaped key exactly for the keys that are new or changed, holding the value or the nested diff, and a deletion exactly when a key is gone |
| Diffs.IntegerLikeIff | kanta/serialization/base.py:169-178 | the keys that make a diff over a list a list edit are exactly the spellings of an integer: blanks, a sign, digits with single underscores between them and blanks |
| Diffs.NamesDeleted | kanta/serialization/base.py:209-213 | the names popped are exactly the strings listed, or the one given without a list; only a list or a dict among them raises |
| Diffs.Overrides | kanta/serialization/base.py:186-187 | a replacement yields its value whatever the state, the rest of the diff and the order |
| Diffs.CommandsAreNotSet | kanta/serialization/base.py:208-220 | the commands are never stored as keys |
| RoundTrips.VerbatimIsFixed | kanta/serialization/base.py:127-155 | unmarshalling leaves a tree as it is exactly when no key or string in it starts with `$$`, also when unescaped keys collide |
| RoundTrips.UnmarshalledDiff | kanta/serialization/base.py:139-155 | unmarshalling our own diff gives back exactly the changed keys with their unmarshalled changes, never confusing an escaped user key with a command |
| RoundTrips.UnmarshalledDeletion | kanta/serialization/base.py:208-213 | the names that the consumer pops are exactly the keys that disappeared |
| RoundTrips.DiffApart | kanta/diff.py:34-46 | our own diffs never delete a key that they set, at the level of the diff |
| RoundTrips.ReplaceIff | kanta/serialization/base.py:181-220 | in every order of keys, assigning a value over something that is not a dict to be merged stores exactly that value if and only if it is verbatim, not an empty dict, and not read as a command or a list edit |
| RoundTrips.RoundTripIff | kanta/serialization/base.py:158-220 | for every pair of states and every order of keys, applying their diff to the first gives the second if and only if the pair is Faithful, a condition on the inputs alone |
| Redelivery.SafeRoundTrip | kanta/serialization/base.py:158-220 | on the safe domain, in every order of keys, the diff is None exactly for equal states, and otherwise leads from the old to the new state and leaves the new state as it is, at every depth and across changes of type |
| Redelivery.SelfApplyIff | kanta/serialization/base.py:181-220 | a tree applied to itself gives itself in every order of its keys if and only if it holds no replacement and deletes no key of its own, at any depth that is visited |
| Redelivery.SelfApplyInOrder | kanta/serialization/base.py:208-220 | in a given order of its keys a tree applied to itself gives itself if and only if no command key is deleted, no other key is deleted after it was visited, and the children that are not deleted stay themselves |
| Redelivery.OrderDecides | kanta/serialization/base.py:209-213 | a tree that deletes a key of its own: it stays as it is when the deletion comes first and loses the key when it comes last |
| Redelivery.OrderDoesNotMatter | kanta/serialization/base.py:208-220 | a diff whose deleted keys are apart from the keys it sets, at every depth, does the same to any state in every order |
| Redelivery.RecordedOrderDoesNotMatter | kanta/serialization/base.py:158-220 | a change recorded between plain states does the same to any state in every order |
| Redelivery.RedeliveryIsHarmless | kanta/serialization/base.py:158-220 | applying a change a second time, to the state it led to, changes nothing |
| Redelivery.EmptyingIsLost | kanta/serialization/base.py:184-185 | input on which the round trip fails: an empty dict over a number |
| Redelivery.DollarStringIsChanged | kanta/serialization/base.py:153-154 | input on which the round trip fails: a string with `$$` in front |
| Redelivery.NumberedDictOverList | kanta/serialization/base.py:169-193 | input on which the round trip fails: numbered keys over a list |
| Redelivery.ListAndDictDoNotAbsorb | kanta/serialization/base.py:189-206 | three states, safe pair by pair, whose first change cannot be applied to the last state: absorption needs agreement on where lists are |
| Absorption.TracksStep | kanta/serialization/base.py:208-220 | re-applying one change of a chain keeps the relation between the current tree, the state the chain stands at, and its final state, including raw sub-diffs left as data under missing keys |
| Absorption.EditsApply | kanta/serialization/base.py:181-220 | a diff between well-typed states never raises on any well-typed state |
| Chains.Absorb | kanta/serialization/base.py:108-113 | for every chain of states, applying all its changes in order to its own final state ends in that state |
| Chains.Follow | kanta/serialization/base.py:80-120 | a chain replayed from its first state ends in its last |
| Chains.CatchUp | kanta/serialization/base.py:80-120 | records behind a snapshot that is k commits ahead: the first k are absorbed, the rest followed, and state and modification time end at the last commit |
| Chains.SafeIsFaithful | kanta/serialization/base.py:181-220 | plain states with lists and dicts on consistent paths and no emptying satisfy the exact round trip condition |
| Logs.ReplayAppendChanges | kanta/serialization/base.py:80-120 | replaying a log with changes appended is folding them over the replay of the log |
| Logs.ReplayAppendSnapshot | kanta/serialization/base.py:65-78 | replaying a log that ends in a snapshot gives that snapshot, whatever came before |
| Logs.ReplayReports | kanta/serialization/base.py:60-102 | a replay reports the time stamp of the last snapshot on file, and a migration exactly when a change behind it belongs to one |
| DiffLoops.ComputeDiff | kanta/diff.py:32-58 | the recursive producer that fills a dict in a loop computes the specified diff |
| DiffLoops.CollectDiff | kanta/diff.py:34-46 | the loop over the keys, with the deletions first, builds exactly the specified entries |
| DiffLoops.ApplyLoop | kanta/serialization/base.py:181-220 | the recursive consumer, in any order of keys, computes the specified result, including the error outcomes |
| DiffLoops.PatchDict | kanta/serialization/base.py:208-220 | the one loop over the keys of a diff in their order, with the deletions wherever they come, gives the specified dict or raises |
| BinFraming.MarkersDiffer | kanta/serialization/framing.py:170-202 | the two frame markers differ for every seed, and inverting twice gives the seed |
| BinFraming.ReadOne | kanta/serialization/framing.py:223-292 | reading at a frame, whatever follows it, gives its kind, payload and end; reading at a proper prefix of a frame raises |
| BinFraming.ParsePrint | kanta/serialization/framing.py:170-304 | every sequence of payloads under 2^32 bytes framed at running offsets is read back with the same kinds, payloads and positions, whatever seed the reader had |
| BinFraming.Truncation | kanta/serialization/framing.py:153-158 | a byte prefix of a file can be iterated, and can be scanned, if and only if it is empty, the header alone, or ends after a whole frame, and then holds exactly those frames |
| BinFraming.ScanThenRead | kanta/serialization/framing.py:204-221 | the scan returns the last snapshot, and reading on from its resume offset gives exactly the records after it |
| BinFraming.WrittenFile | kanta/serialization/framing.py:148-202 | appending record after record, each framed at the size so far, produces the file format with one seed in front |
| BinFraming.BinSound | kanta/serialization/framing.py:111-304 | everything the binary framer writes it reads back: all records, last snapshot, rest, and every frame position is a boundary |
| BinFraming.ReadIff | kanta/serialization/framing.py:223-292 | in any data, a frame is read at a place if and only if its bytes stand there, marker, length, checksum and payload |
| BinFraming.ReadIsFrame | kanta/serialization/framing.py:223-292 | whatever is read as a frame is one, with the checksum for its kind, seed and offset |
| BinFraming.ChangedPayload | kanta/serialization/framing.py:277-289 | a frame whose payload was changed is read if and only if the hash does not tell the payloads apart |
| BinFraming.KeyInjective | kanta/serialization/framing.py:160-168 | the key of the checksum determines kind, seed and offset |
| BinFraming.ReadableIff | kanta/serialization/framing.py:204-304 | a nonempty file can be iterated, and can be scanned, if and only if it is its first four bytes followed by the frames of some items, and those are what is read |
| BinFraming.ReadableFrom | kanta/serialization/framing.py:294-304 | the same for reading on from any offset |
| LineFraming.LinesAgree | kanta/serialization/framing.py:57-108 | the backward search and the forward loop see the same last snapshot with the same position, reading resumes right behind it, and lines are numbered 1, 2, 3, ... |
| LineFraming.LineSound | kanta/serialization/framing.py:52-108 | everything the text framer writes it reads back: all records, last snapshot, rest, and every position is a boundary |
| LineFraming.LinesIff | kanta/serialization/framing.py:88-108 | whatever the file holds, exactly the lines that are not blank are read, without the blanks around them and the prefix, with their number and position |
| LineFraming.LineScanIff | kanta/serialization/framing.py:61-86 | whatever the file holds, the scan returns the last line with the prefix, nothing if and only if there is none, and raises if and only if that line has no end |
| FramerLoops.BinFramer.FrameRecord | kanta/serialization/framing.py:148-202 | framing with the stored seed; the seed goes in front only at offset 0, and an oversized payload raises |
| FramerLoops.BinFramer.SetSync | kanta/serialization/framing.py:142-146 | the seed is replaced exactly when the value has the right length |
| FramerLoops.BinFramer.LoadSeed | kanta/serialization/framing.py:153-158 | the seed is taken from the file, which must hold it unless it is empty |
| FramerLoops.BinFramer.IterInternal | kanta/serialization/framing.py:223-292 | the index loop reads exactly the specified frames, raising where the specification fails |
| FramerLoops.BinFramer.ScanLastSnapshot | kanta/serialization/framing.py:204-221 | the scanning loop returns the specified last snapshot |
| FramerLoops.BinFramer.IterRecords | kanta/serialization/framing.py:294-304 | iteration loads the seed of the file and reads from the offset |
| FramerLoops.IterLines | kanta/serialization/framing.py:88-108 | the line loop yields exactly the specified frames with their numbers |
| ByteStrings.LittleEndianInverse | kanta/serialization/framing.py:262 | decoding a little-endian length gives back the number that was encoded |
| Files.ReplayFile | kanta/serialization/base.py:50-120 | the replay loop over the frames of a file, from its last snapshot, is the specified fold over bytes |
| Files.ReplayOfEncoded | kanta/serialization/base.py:50-120 | replaying the bytes of a framed log is replaying the log |
| Sessions.CommitKeeps | kanta/persistence.py:129-185 | committing while a flush is suspended anywhere keeps the invariant and what the file stands for |
| Sessions.QueueHolds | kanta/persistence.py:129-185 | what is queued, argument by argument: time stamp, action, user, version and difference, and the modification time, which is now, none, or the one given |
| Sessions.BatchReplays | kanta/persistence.py:241-293 | the appended batch brings the replay from wherever a snapshot had put it to the last commit of the batch |
| Sessions.SnapshotKeeps | kanta/snapshot.py:46-82 | a snapshot, even with records still queued, makes the file stand for every commit so far |
| Sessions.NextKeeps | kanta/persistence.py:98-293 | every step of the machine keeps the invariant and never takes back a commit that the file stands for |
| Sessions.DurablePrefix | kanta/persistence.py:98-293 | over all interleavings, at every step the file replays to the state and time after some number of commits, which never decreases and is at least the number flushed; with an empty queue it is all of them; the version on file is the current one exactly unless open raised it and nothing was written since, and then a write is due |
| Storage.DurableFile | kanta/persistence.py:98-293 | the same for the bytes of the file in either format |
| Persistence.Store.constructor | kanta/persistence.py:48-68 | a store over a framed log starts with an empty queue at the replayed state |
| Persistence.Store.QueueChange | kanta/persistence.py:129-185 | nothing is queued without a difference unless forced; otherwise one record is appended and state and time follow, and nothing else changes |
| Persistence.Store.FlushBegin | kanta/persistence.py:257-262 | the batch is the queue as it stands; a failed or empty flush does nothing |
| Persistence.Store.FlushSize | kanta/persistence.py:268 | the size read is the size of the file |
| Persistence.Store.FrameBatch | kanta/persistence.py:268-277 | framing the batch at running offsets gives exactly the bytes that extend the file by the batch; one bad record fails the whole |
| Persistence.Store.FlushWrite | kanta/persistence.py:282-293 | the batch is appended as a whole, or the flush is marked failed, or framing raises, and in the last two cases the file is unchanged |
| Persistence.Store.FlushEnd | kanta/persistence.py:283-285 | exactly the written records leave the queue from the left and are counted; later commits stay |
| Persistence.Store.FlushSync | kanta/persistence.py:187-239 | the synchronous flush: the log grows by the queue and the queue empties, or nothing changes but the failure mark |
| Persistence.Store.MaybeSnapshot | kanta/snapshot.py:46-82 | a snapshot of the in-memory state is written exactly when forced, or on a Sunday with enough changes and none yet that day; a failed write changes nothing |
| Persistence.WeeklyAtMost | kanta/snapshot.py:55-65 | after a Sunday snapshot an unforced one is due only with enough changes and not before the next Sunday |
| Policies.SundaysAreLast | kanta/snapshot.py:58-60 | the days on which a snapshot may be due are exactly the Sundays |
| Policies.DueIff | kanta/snapshot.py:51-65 | exactly when a snapshot is due: on request, or on a Sunday with enough changes and no snapshot since that day began |
| Policies.DueWithinAWeek | kanta/snapshot.py:51-65 | with enough changes a snapshot becomes due within a week, for a whole Sunday |
| Policies.SnapshotRests | kanta/snapshot.py:74-83 | behind a snapshot none is due before more changes are flushed or one is requested |
| Policies.CountersTell | kanta/snapshot.py:43-83 | at every step of every run the counters match the file: the changes behind the session's last snapshot, or behind the file as opened, and the time stamp of the last snapshot on file |
| Policies.FailureMarks | kanta/persistence.py:285-292 | exactly a failing write sets the failure mark, and it changes nothing else |
| Policies.FailedFlushStops | kanta/persistence.py:249-292 | once a write has failed, nothing queued is written or given up for the rest of the run; only snapshots are |
| Persistence.Store.Tick | kanta/persistence.py:98-121 | one turn of the background loop: it stops exactly when the flush fails, keeping the queue; otherwise the queue empties into the file, with at most one snapshot behind it |
| Persistence.Store.RequestForce | kanta/snapshot.py:34-36 | only the request is recorded |
| Events.ScanEvents | kanta/replaylog.py:87-128 | the validating pass succeeds exactly when all frames decode, every diff applies and every later snapshot equals the replayed state; it returns the positioned events and the number of changes |
| Events.FastReplayRefines | kanta/replaylog.py:87-128 | on a log that passes validation, replay from the last snapshot, the validating pass and the plain fold of every diff end in the same state, and the version is that of the last record |
| Events.ReplayEvents | kanta/replaylog.py:131-150 | exactly the events below the end line are yielded, each with the state before and after it |
| Events.FileReplayRefines | kanta/serialization/base.py:50-120 | for every well-framed file that passes validation: fast replay of the bytes, the validating pass and the last state yielded by the replay of the events up to the end of the file agree, and the version is the last event's |
| Events.AllBelowEnd | kanta/replaylog.py:195-197 | the end of the file lies behind every event when the last frame is on the last line |
| Storage.BinNumbers | kanta/serialization/framing.py:294-304 | binary frames all carry line 0, so the last one is on the last line |
| Storage.LineNumbers | kanta/serialization/framing.py:88-108 | text frames are on ever later lines, for any content |
| Storage.ReplayToEnd | kanta/replaylog.py:87-150 | scanning a file of either format and replaying its events to the end succeeds exactly when it passes validation, and ends in the state of the fast replay |
| Validations.ScanIff | kanta/replaylog.py:105-115 | a log that replays after every record passes validation exactly when no snapshot behind the first record differs from the replay before it |
| Validations.AbortsIff | kanta/rotation.py:107-172 | planning aborts exactly when there is history to drop and a snapshot behind the replay base differs from the replay before it |
| Validations.MismatchIff | kanta/persistence.py:98-293 | the differing snapshots in the file of a run are those it was opened with and those taken while commits that the file lacks had changed the state |
| Validations.ValidatesIff | kanta/replaylog.py:87-128 | the file of a run passes validation if and only if every snapshot taken with such commits outstanding was the first record of its file |
| Validations.RotationAbortsIff | kanta/rotation.py:143-154 | rotating the file of a run aborts if and only if there is history to drop and, behind the replay base, lies such a snapshot or a nonempty leading one |
| Validations.FailingRunFails | kanta/persistence.py:98-127 | a concrete run of two commits and a requested snapshot, due when it is taken, whose file replays to its current state, fails validation and aborts rotation |
| Rotations.HistoryConserved | kanta/rotation.py:107-113 | the changes of the cut-off prefix followed by those of the new log are the original changes in order, if and only if no older change follows a retained one |
| Rotations.PlanTells | kanta/rotation.py:100-198 | there is nothing to do if and only if no change is older than the cutoff; otherwise a plan is named after the last of those, counts the others, cuts before the first of them, and puts them between a snapshot with that time stamp and, if they are enough, one of now |
| RotatedChains.LateDropIsLost | kanta/rotation.py:107-184 | a concrete file of two commits, the second with the older timestamp: after rotation that change is in neither part, and the state is no longer the one before |
| RotatedChains.AheadBaseIsLost | kanta/rotation.py:115-184 | a concrete file without such a change, whose replay base is ahead of the last record: rotation changes the state |
| Rotations.ClosingSnapshotKeepsState | kanta/rotation.py:170-198 | whatever the timestamps, the new log replays to the original state when enough changes are retained for a closing snapshot |
| Rotations.RotationKeepsState | kanta/rotation.py:123-191 | with a clean split the new log replays to the original state |
| RotatedChains.RotationKeepsChainState | kanta/rotation.py:107-191 | for a log whose changes are a safe chain and whose snapshots hold states of that chain that are not behind the changes before them, the new log replays to the original state if no older change follows a retained one, also when the replay base lies behind retained changes |
| RotatedChains.RunRotationKeepsState | kanta/rotation.py:107-191 | rotating the file of any run, at any step where the records have caught up with its snapshots, keeps the state after the durable commit if no older change follows a retained one |
| Rotations.RotationKeepsVersionIff | kanta/rotation.py:123-191 | with a clean split the version is kept if and only if the last record is a change or has the version of the last change behind the base, or of the base itself |
| Rotations.RotationKeepsTimeIff | kanta/rotation.py:123-191 | with a clean split the modification time is kept if and only if a change behind the last snapshot carries one or that snapshot has the time that the kept records have, which depends on whether a closing snapshot is written |
| Rotations.SnapshotOnlyIsLost | kanta/rotation.py:146-169 | files whose version and time, recorded by a snapshot alone, are lost after rotation |
| Rotations.RotationPreservesMeaning | kanta/rotation.py:107-198 | when the snapshots behind the replay base agree with the records before them, the new log, with or without its closing snapshot, replays to the original state, version and time, and the cut-off prefix replays to exactly its leading snapshot |
| Rotations.OrderedIsClean | kanta/rotation.py:107-130 | nondecreasing timestamps with no snapshot at the cutoff imply the clean split that rotation needs |
| Rotations.RotationIsStable | kanta/rotation.py:100-111 | planning again at the same or an earlier cutoff finds nothing to do |
| Rotations.ScanEntries | kanta/rotation.py:71-81 | the scan returns every record with its position, and raises exactly when iterating or decoding does |
| Rotations.FindBase | kanta/rotation.py:115-121 | walking the snapshots newest first finds the newest that does not postdate the cutoff |
| Rotations.ReplayEntries | kanta/rotation.py:123-169 | the replay loop with its state, cutoff and final variables computes the specified progress, or aborts on the first mismatch |
| Rotations.FrameRecords | kanta/rotation.py:177-191 | the records are framed one after the other at fresh offsets |
| Rotations.PlanRotation | kanta/rotation.py:84-198 | the whole plan: nothing to do, an error, or new content, cut, timestamp and number of retained changes, as specified on bytes |
| Storage.RotatedFile | kanta/rotation.py:84-198 | in bytes: the new content means the same as the file, and the file up to the cut is well framed, replays to the new content's leading snapshot, and with it holds every change in order |
| Storage.RotatedFileIsStable | kanta/rotation.py:100-111 | re-planning the new content at the same or an earlier cutoff returns nothing to do |
| Storage.BinReads | kanta/serialization/framing.py:111-304 | the binary framer, for every hash and seed, reads back every log it can write |
| Storage.LineReads | kanta/serialization/framing.py:52-108 | the text framer with a text codec reads back every log |
| Storage.BinAscends | kanta/serialization/framing.py:223-304 | binary frames come in file order and start inside the file, whatever the content |
| Storage.LineAscends | kanta/serialization/framing.py:88-108 | text frames come in file order and start inside the file, whatever the content |
| RotationDisk.Disk.CopyAside | kanta/rotation.py:212-213 | every intermediate state of the copy leaves the main file complete |
| RotationDisk.Disk.ReplaceContent | kanta/filelock.py:250-257 | truncating and writing in pieces of any size ends with exactly the new content, with the complete original in the copy throughout |
| RotationDisk.Disk.Execute | kanta/rotation.py:201-216 | at every intermediate step one file holds the complete original, or the main file is the complete new content and the copy holds at least the dropped prefix |
| Storage.MaybeRotate | kanta/kantaimpl.py:401-423 | rotation on open, for any content: a failed plan leaves both files untouched, and otherwise, for a well-framed log, what is then replayed means the same as the original |
| Migrations.ApplyMigrations | kanta/migrations.py:144-196 | the loop over all versions runs exactly the pending ones and reports each, or raises when the version is out of range |
| Migrations.RunsEachOnce | kanta/migrations.py:172-193 | each pending migration runs exactly once, in ascending order, and the last one sets the version |
| Migrations.Pending | kanta/migrations.py:174-176 | the pending versions are exactly the registered ones above the current, ascending |
| Migrations.UpgradeReachesLatest | kanta/migrations.py:124-170 | an upgrade is refused exactly when the version lies outside the supported range, and otherwise ends at the highest registered version |
| Migrations.ReportTells | kanta/migrations.py:172-197 | entry by entry the report holds the version, the state it was run on, which the entry before led to, and whether and how it changed that |
| Migrations.ReportReplays | kanta/migrations.py:181-193 | patching the report's diffs in order over the start state gives the final state |
| Migrations.StagedUpgrade | kanta/migrations.py:144-196 | upgrading with the migrations up to some version and later with all of them is upgrading at once: refused in the same cases, and otherwise with the same state, version and report |
| Databases.SettleKeeps | kanta/transaction.py:57-148 | a settled transaction keeps the boundary invariant; only a commit changes queue, state or time, and it adds exactly one record |
| Databases.TransactionRun | kanta/transaction.py:57-148 | over every run of committed, unchanged, refused, failed and rejected transactions the live data serializes to the committed state at each boundary and the session invariant holds |
| Databases.QueueLeadsToState | kanta/persistence.py:155-185 | folding the queued changes over the flushed state gives the committed state |
| Transactions.RefusedIff | kanta/transaction.py:65-81 | a transaction is refused if and only if the live data does not serialize to the committed state, outside bootstrapping an empty store, and then nothing changes |
| Transactions.SettleMeans | kanta/transaction.py:57-148 | all or nothing: a record is queued if and only if the transaction was let in, its body did not raise, its data differs and is valid; a failed body or validator leaves the session, and what the data serializes to, as they were |
| Transactions.TransactionsRecord | kanta/persistence.py:129-185 | over every sequence of transactions: one record for each committed one, in order, with its action, user and times, and the modification time is the one given to the last committed transaction that was given one, or else the opening one |
| Transactions.FlushedTime | kanta/persistence.py:129-185 | the file replays to that time once the queue is empty, whatever steps it took |
| Transactions.OwnChangesOnly | kanta/transaction.py:65-110 | at every step of every run with changes outside transactions, what is queued leads from the committed state to what the transaction's own body made of it |
| Transactions.RefusedUntilRestored | kanta/transaction.py:65-81 | after such a change every transaction is refused until the data is put right |
| Transactions.StraysLeaveNoTrace | kanta/transaction.py:57-148 | after any run with such changes the session is the same as after only the transactions that were let in, without any of them |
| Databases.Database.constructor | kanta/transaction.py:39-62 | a database starts outside any transaction |
| Databases.Database.Begin | kanta/transaction.py:57-84 | entering is refused when a transaction runs or the data was changed outside one, except when bootstrapping; otherwise the state is saved |
| Databases.Database.Mutate | kanta/transaction.py:86-87 | only the live data changes |
| Databases.Database.End | kanta/transaction.py:88-148 | commit, no-op, or restoration of the saved data with queue, state and time unchanged |
| Databases.Database.Transaction | kanta/transaction.py:39-148 | a whole transaction is exactly one step of the machine |
| Databases.Database.Open | kanta/kantaimpl.py:220-317 | opening restores, migrates, validates and normalizes the data and writes one record and a snapshot exactly when something changed; a refusal leaves the file as it was, a failed write of the record raises with it still queued, and a failed snapshot stays requested |
| Databases.Database.WriteChanges | kanta/kantaimpl.py:273-317 | the writing half: the difference is queued, flushed and followed by a forced snapshot, with each way of failing |
| Databases.OpeningWritesAll | kanta/kantaimpl.py:220-317 | when nothing fails, opening appends exactly the opened log's records |
| Databases.OpeningTells | kanta/kantaimpl.py:273-317 | opening appends nothing if and only if neither data nor version changed, and otherwise a snapshot, behind a record that names no user and is no modification if the data changed |
| Databases.Database.WriteQueued | kanta/kantaimpl.py:307-317 | the queue is flushed and a forced snapshot follows, with each way of failing |
| Databases.OpeningIsFixpoint | kanta/kantaimpl.py:220-317 | the opened file replays to the migrated, normalized state at the migrated version, and opening it again appends nothing |
| Databases.OpeningStartsRun | kanta/kantaimpl.py:220-317 | what opening leaves is a legal start of the session machine, also when the snapshot could not be written and the record alone leads to the state |
| Databases.ReopenAfterCrash | kanta/kantaimpl.py:191-317 | whatever step a session is interrupted at, reopening its file, with any migrations, restores the data of some commit, none older than the last flushed one; an up-to-date file is left as it is, and a second reopening changes nothing |
| ChangeLists.GetNestedLoop | kanta/logging.py:339-348 | the loop along a path returns the value there, or none |
| ChangeLists.PerformBelow | kanta/logging.py:351-416 | performing entries below a key is performing them on the value at that key |
| ChangeLists.ChangeListIsFaithful | kanta/logging.py:351-416 | for a safe pair and every order of the diff's keys, performing the collected additions, updates and deletions in order on the old state gives the new one, as replaying the diff does, even where a dict replaces a scalar or None |
| ChangeLists.Changes.constructor | kanta/logging.py:351-356 | the list starts empty |
| ChangeLists.Changes.CollectDeletions | kanta/logging.py:375-380 | exactly the named deletions are appended, in order, below the path, names that are no strings by their text |
| ChangeLists.Changes.CollectReplacement | kanta/logging.py:381-400 | a replacement deletes the old keys that go and then lists the new dict's keys, or the new value unless it is falsy over a nonempty dict |
| ChangeLists.Changes.DeleteAll | kanta/logging.py:377-380 | one deletion for each name, in order |
| ChangeLists.Changes.AssignAll | kanta/logging.py:392-396 | one update or addition for each key of the new dict, an update exactly where the old one has it |
| ChangeLists.Changes.Collect | kanta/logging.py:351-416 | the recursion appends exactly the specified entries, with full paths, to the shared list |
| ChangeLists.Changes.CollectDict | kanta/logging.py:378-416 | over a value that is no list: the entries of every key of the diff in its order, with the deletions where they come |
| ChangeLists.Changes.CollectAll | kanta/logging.py:378-416 | the loop over the keys appends the entries of each in turn |
| ChangeLists.Changes.CollectKey | kanta/logging.py:381-416 | the deletions and a replacement are listed as such; any other key is stepped into exactly when the old state holds a value there, and otherwise added |
| ChangeLists.ChangeList | kanta/logging.py:351-416 | the list collected from a safe pair's diff in any order of keys, performed on the old state, gives the new one |
| ChangeKinds.KindsTell | kanta/logging.py:351-416 | for a safe pair and every order of the diff's keys, each entry is a deletion if and only if its path went, an update if and only if a value there was replaced, an addition if and only if there was nothing or None before, its value is the new one, and no path is listed twice |
| ChangeKinds.ReplacementTells | kanta/logging.py:381-400 | a replacement by a dict lists every key of the old and new value exactly once, as deleted, updated or added; by any other value it lists the old keys as deleted and then the value, unless that is falsy and there were keys |
| ChangeKinds.AssignmentsTell | kanta/logging.py:392-396 | each key is listed once, as an update if and only if the old value has it |
| Terminals.ParseSgr | kanta/tty.py:107-140 | the parameter loop computes the stacked attributes |
| Terminals.StackingMeans | kanta/tty.py:107-140 | for any specification: what is active for a class of attributes is the last group of that class behind the last clear |
| Terminals.GroupIff | kanta/tty.py:120-129 | how parameters fall into groups: 38 and 48 take a 5 and one more or a 2 and two more, as far as there are any, others stand alone |
| Terminals.SameClassIff | kanta/tty.py:130-138 | which parameters replace one another: foreground colours, background colours, and otherwise only equal ones |
| Terminals.ParsedIsComplete | kanta/tty.py:107-140 | palette entries of colour groups, plain attributes and clears arm complete attributes |
| Terminals.SpecRenders | kanta/tty.py:107-140 | parsing a palette entry loses nothing: a terminal that follows section 8.3.117 of ECMA-48 draws the parsed attributes as it draws the entry |
| Terminals.TransitionMoves | kanta/tty.py:143-155 | the emitted sequence takes such a terminal exactly from drawing one set of attributes to drawing the other and shows nothing |
| Terminals.TransitionEmits | kanta/tty.py:143-155 | the sequence is one escape with exactly the emitted parameter groups, or nothing |
| Terminals.TransitionIsMinimal | kanta/tty.py:143-155 | no sequence of clears and groups that moves between the two states has fewer groups |
| Terminals.StripIsShown | kanta/tty.py:27-29 | stripping escapes leaves exactly the characters that a terminal shows |
| Terminals.LineMeaning | kanta/tty.py:158-202 | such a terminal draws each call's text exactly as its palette entry alone would have it and ends in the default state, and stripping gives back the plain text |
| Terminals.Line.constructor | kanta/tty.py:173-177 | a new line is empty with nothing armed |
| Terminals.Line.Color | kanta/tty.py:179-186 | arms the palette entry for the next call |
| Terminals.Line.Append | kanta/tty.py:188-197 | the text joins the line with the armed palette entry, which is then disarmed |
| Terminals.Line.ToString | kanta/tty.py:199-202 | the finished line is the one whose meaning is proved |
| Marks.MarkingMeaning | kanta/grep.py:46-68 | minus its marks the output is the input, its visible text is the input's, and a visible character is lit exactly when some span covers its offset, across any escapes |
| Marks.PaintedReads | kanta/grep.py:46-68 | reading painted text gives the original characters and escapes with exactly the covered positions lit; marks inserted anywhere never complete a broken escape |
| Marks.MarkSpans | kanta/grep.py:46-68 | the run-by-run algorithm produces the character-by-character painting of the union of the given spans |
| Marks.MergeSpans | kanta/grep.py:71-81 | the merged spans cover the same positions, are nonempty, and leave a gap between any two |
| Marks.WrapRun | kanta/grep.py:84-99 | one escape-free run is wrapped exactly at the covered positions |
| Ranges.ChangeRangeIsSlice | kanta/replaylog.py:249-304 | for increasing lines a range of change indices selects exactly the changes of the Python slice, negative and out-of-range bounds included; `..` includes the clamped end |
| Ranges.ChangeIndexIsElement | kanta/replaylog.py:371-378 | a single index selects exactly that change, and is missing exactly when Python indexing would raise |
| Ranges.RangeSelects | kanta/replaylog.py:249-304 | for every pair of units on a numbered file: a negative line or version is an error, and otherwise exactly the events are selected that do not lie before the change, line, snapshot or version that the start names and lie before the one that the end names, or up to it with `..`; ends out of range cut at either end |
| Ranges.LineSelects | kanta/replaylog.py:348-358 | a single line selects exactly the event there, as a snapshot when it is one, and is missing if and only if there is none |
| Ranges.UnnumberedRanges | kanta/replaylog.py:249-304 | where every line is 0, a range selects everything or nothing; a half-open one is the Python slice if and only if that slice is empty or everything, and an inclusive one if and only if it starts behind all changes or covers them all |
| Ranges.UnnumberedIndex | kanta/replaylog.py:371-378 | where every line is 0, the last index selects every change and any other none, so an index selects its change if and only if there is just one |
| Ranges.UnnumberedSnapshotIndex | kanta/replaylog.py:330-346 | where every line is 0, a snapshot index finds the first event: it selects the snapshot that is meant if and only if that is the first and the file starts with it, and fails the assertion when the file starts with a change |
| Ranges.UnnumberedInput | kanta/replaylog.py:249-378 | a file of three changes and a snapshot at line 0: `1:2` and index 0 select no change, index 2 selects all three, and s1 fails |
| Ranges.InclusiveBelowAll | kanta/replaylog.py:266-271 | an inclusive end below all indices still selects the first change |
| Ranges.VersionLines | kanta/replaylog.py:219-224 | the loop maps each version to its first line |
| Ranges.VersionMapIsFirst | kanta/replaylog.py:219-224 | every version that occurs is mapped to the first of its lines, and version 0 to line 0 |
| Ranges.VersionSelectsItsEvents | kanta/replaylog.py:360-369 | for versions that do not decrease, selecting a version selects exactly its events, and only a version other than 0 that never occurs is missing |
| Ranges.SnapshotIndexSelects | kanta/replaylog.py:330-346 | a snapshot index selects that snapshot, negative ones from the end; in a file that starts with changes s0 is missing and the others count from 1 |

## Left out

- File locking, descriptors, Windows calls, fsync and thread pools; `replace_content` is its effect on the bytes.
- Overlapping flushes, cancellation inside a write, and appends that write only part of the batch.
- Encoding and decoding of payloads, date parsing and BLAKE3: an inverse pair, integers, an arbitrary function.
- Diffs.Apply: a positional list edit (only jsondiff produces one) and an exception are the same outcome; the indices edited are not modelled.
- Diffs.Deletions: a name that cannot be hashed always fails; the source skips it while the dict that it is popped from is empty. Our own diffs name keys only.
- DiffLoops.ApplyLoop: shares what is said here of Diffs.Apply and Diffs.Deletions.
- Diffs.ApplyDiff: two records with the same diff are taken to be decoded in the same order; for records between plain states RecordedOrderDoesNotMatter makes that immaterial.
- Diffs.Unmarshal: where unescaping makes two keys of a dict equal, the escaped one wins; in the source the later one does, which for our own diffs is the escaped one, since deletions come first.
- Diffs.Diff: numbers and booleans are equal exactly when the store's comparison says so, so `1`, `1.0` and `True` are one value.
- Diffs.IntegerLike: the limit on the number of digits is Python's default.
- RoundTrips.RoundTripIff: keys are strings; the source's pass-through for other key types is not modelled.
- Chains.Absorb: that no path holds a list in one state and a dict in another is sufficient, and some such condition is needed (ListAndDictDoNotAbsorb); it is not the exact one.
- RotatedChains.RotationKeepsChainState: that no older change follows a retained one is sufficient without a closing snapshot, not necessary.
- Persistence.Store.MaybeSnapshot: the clock is UTC; a snapshot in another time zone is not modelled.
- Databases.Database.Open: bootstrapping a new file, read-only opening, and the exception of a failing migration.
- Databases.Database.Begin: the read-only check; Databases.Database.End leaves out logging and exceptions raised while formatting it.
- Terminals.Line.Append: padding to a display width, which depends on Unicode tables.
- Terminals.LineMeaning: palette entries are made of colours 30-37, 40-47, 90-97, 100-107, indexed colours, the attributes 1, 2, 3, 4, 7 and 9, and clears; truecolor, where the parser takes four parameters and a terminal five, and parameters that switch a colour or attribute off are not covered.
- Marks.MarkingMeaning: assumes that the input does not already hold the two mark codes.
- Ranges.Select: the text of a specification is already split and its numbers parsed.
- Pattern matching for grep, callbacks, log dispatch, CLI arguments and imports.
