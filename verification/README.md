# Proofs about the Frances workspace

A model, in Dafny 4.11, of the stateful parts of the Frances crates, with proofs of what
they promise. `dafny verify dfyconfig.toml` checks everything.

The main subject is the **anchor edit engine** (`frances-edit`). Every line of a file has
a stable name, an *anchor*: a numeral written in dictionary words. The language model
edits lines by their anchors, and the engine must keep anchors distinct, stable and never
reused while files are edited, reformatted or changed behind its back. The other subjects
are the 11-bit word codec, the shell output reader, the layered configuration tree, the
entity stream's catch-up, the chat session's input queue, the worker protocol's frames,
and three small functions with real invariants.

## How it is built

Code that changes things step by step is modelled by methods and classes with the
source's fields and loops. Each method is proved against a specification *function* of
the old state, and the promises are proved about those functions: for every input, every
run and every interleaving of the steps.

| part | files |
|---|---|
| anchors and the mint | `Words`, `Separators`, `Anchors`, `Pools` |
| line hashes and states | `Hashing`, `FileStates` |
| multi-edit splicing | `GapModel` (the specification), `EditOps` (the offset-tracking loop), `EditLaws` |
| reconciling | `DiffScripts` (what a diff must deliver), `Carrying`, `Reconciliation`, `ReconcileLaws` |
| store, engine, sessions | `AnchorStores`, `Engine`, `SessionModel` (what a command does), `SessionLaws` (runs), `LineIdentity`, `EditRequests` (what each request comes to), `EditSession` (the session's methods) |
| rendered differences | `DiffRender`, `RenderLaws` |
| word codec | `Bits`, `WordCodec`, `WordBits` |
| shell reader | `Sentinels`, `SentinelLaws`, `OutputReader`, `ReaderLaws`, `ReaderEvents` |
| configuration | `ConfigValues`, `LayeredConfig`, `ConfigRuns` |
| entity stream | `EntityStream` (steps and interleavings), `EntityHub` (the record's locked sections) |
| chat queue | `ChatQueue` (steps and interleavings), `ChatStorage` (what is stored), `ChatSessions` (the session's methods) |
| worker frames | `FrameHeaders`, `Frames`, `FrameLaws`, `FrameCuts`, `FrameFaults`, `Contents` |
| small functions | `LineRanges`, `EffortTiers` |
| shared | `Wrappers`, `Sequences`, `Octets`, `Decimals` |

## Main results

* **Splicing refines the gap model.** Give every original line a gap before and after it.
  The loop over edits, with its table of offsets, produces exactly the flattened gaps; a
  surviving line is always where the table says; edits on disjoint places commute in any
  permutation (`EditOps.ApplyOps`, `EditLaws.OutputLayout`, `EditLaws.AnyOrder`).
* **Reconciling conserves anchors** for every lawful diff: carried and tombstoned anchors
  partition the old ones, minted ones are fresh and reported where they are, and the
  drift ladder's short cuts agree with a full reconcile if and only if the metadata or
  digest they trust can be believed (`ReconcileLaws.AnchorsConserved`,
  `Engine.LadderAgrees`).
* **Every run of a session is sound**, with arbitrary formatters and failing writes:
  stored anchors stay distinct, each cached file has the store's rows, and between two
  commits an anchor that left the file never names a line again
  (`SessionLaws.RunSound`, `SessionLaws.NoAnchorReused`).
* **Every request does what it says**: from its text and anchors to the lines that are
  handed to the writer, the cached file, the anchors around the edit and the stored
  metadata, so that reading the file back changes nothing (`EditRequests.InsertAfterWrites`,
  `EditRequests.ReplaceWrites`, `EditRequests.LineEditAnchors`, `Engine.OpenRecords`).
* **Lines that an edit does not touch keep their anchors** however many lines look alike
  (`LineIdentity.UntouchedLinesKeepAnchors`).
* **The word codec is a bijection** between byte strings and canonical word lists, with
  the shifts and masks of its loops shown to lose no bit (`WordCodec.Decode`,
  `WordCodec.EncodingUnique`, `WordBits.EncodedBits`).
* **The output reader depends on the byte stream alone.** Every chunking gives the same
  outcome; every byte is accounted for; marker bytes are never shipped if and only if the
  marker is no longer than the held-back bytes cover, which the printed exit codes always
  are; and the sink is told the outcome once and last (`ReaderLaws.OutcomeFromStream`,
  `ReaderLaws.LeakFreeIff`, `ReaderLaws.PrintedOutputShips`, `ReaderEvents.CallTells`).
* **The configuration tree refines flat maps** over every history of batches, with its
  cached winners always right (`ConfigRuns.ConfigHandle.ApplyBatch`,
  `ConfigRuns.ConfigHandle.Get`, `ConfigRuns.ProvidersCommute`).
* **Catching up with a stream is exact** when an append takes its number and queues for
  the database in one breath. When the two can come apart, one item is missing exactly if
  the replay joined the database queue between them, and it is said which
  (`EntityStream.CatchUpIsExact`, `EntityStream.MissingIff`).
* **Chat inputs are stored once, delivered once and led by system inputs** over every
  interleaving of pushes, flushes, runs, failures and dropped futures, exactly as long as
  certain steps do not come: a flush that finds messages the last one wrote without
  marking, a run that ends with messages its flush missed, a dropped run that holds
  messages, a failed run that puts messages back in front of a system input
  (`ChatStorage.SessionStoresOnceIff`, `ChatQueue.NothingIsLost`,
  `ChatQueue.SystemsLeadIff`). Each can happen (`ChatStorage.SystemDuringFlushStoresTwice`,
  `ChatStorage.PushDuringRunFlushIsNotStored`, `ChatQueue.DroppedRunLoses`,
  `ChatQueue.SystemDuringRunTrails`); hosts that leave flushes and runs alone meet none of
  them (`ChatStorage.SteadyNeverSlips`, `ChatQueue.CalmNeverStrands`).
* **Any list of messages within the caps is received as sent**, a message beyond them is
  not, and nothing of a message cut short is delivered (`FrameLaws.ConversationReadsBack`,
  `FrameLaws.SentIsReceivedIff`, `FrameCuts.NothingCutIsDelivered`); decoding claims every
  attachment exactly once (`Contents.DecodeIff`).

## Where the model follows the code rather than its words

* `docs/arch/anchors.md` describes other hash functions, another diff and a random pool;
  the code uses xxh3, a Patience diff and the least unused anchor in shortlex order.
* After an overwrite or a replace-all the cached file keeps the modification time and size
  it had; only the stored row takes the new ones (`SessionModel.Rewritten`).
* `apply_ops` has an unstated demand: no edit may name a line that an earlier edit of the
  same list replaced. The table keeps that line's old offset, so an insertion behind it
  can land elsewhere or out of range (`EditLaws.BehindReplacedLine`,
  `EditLaws.StaleIndexOutOfRange`).
* A batch that unsets paths which never existed can leave empty nodes in the configuration
  tree (`LayeredConfig.UnsetLeavesBare`); `LayeredConfig.AppliedBatch` says exactly which
  batches do. What is read is the same.
* The reader holds back enough for markers as the wrapper prints them, not for every marker
  that its scan accepts (`ReaderLaws.LongMarkerLeaks`).
* The sender of a message checks only the size of its attachments
  (`FrameLaws.SentIsReceivedIff`).
* A future of a run that its host drops, as
  `crates/frances-session/src/runtime/driver.rs:401` does when handling an event fails,
  takes the drained inputs with it; only failures put them back
  (`ChatQueue.NothingIsLost`).

## Hypotheses

Hash functions, the diff, white-space trimming, the regular expression engine and the
writer with its formatter are parameters. What a theorem needs of them is in its
`requires`: a diff is `Lawful` (and `DiffScripts.TrimmingDiffLawful` shows that one is),
metadata and digests are `Faithful`, lines are `CollisionFree`, and no written line hashes
to a poison value (`PoisonFree`). Word lists satisfy `IsDictionary`.

## Model

| member | source | states |
|---|---|---|
| `Anchors.RankBijection` | crates/frances-edit/src/anchor.rs:18-59 | anchors correspond one to one with the natural numbers |
| `Anchors.RankIsShortlex` | crates/frances-edit/src/anchor.rs:36-59 | canonical order is shortlex order, shorter numerals first |
| `Anchors.FirstRank` | crates/frances-edit/src/anchor.rs:36-43 | the first anchor has rank 0 |
| `Anchors.Increment` | crates/frances-edit/src/anchor.rs:45-59 | the in-place carry loop yields the immediate successor, whatever the length |
| `Anchors.FromBytes` | crates/frances-edit/src/anchor.rs:61-79 | accepts exactly the byte forms of anchors, each as the anchor it came from; otherwise names the bad length or the first bad index |
| `Anchors.BytesOfDigit` | crates/frances-edit/src/anchor.rs:61-79 | every digit takes two bytes, the lower one first |
| `Anchors.DisplayInjective` | crates/frances-edit/src/anchor.rs:81-91 | different anchors are shown as different words |
| `Anchors.DisplayExtends` | crates/frances-edit/src/anchor.rs:81-91 | the words come in the digits' order with a hyphen between two of them |
| `Anchors.FromStr` | crates/frances-edit/src/anchor.rs:93-109 | accepts exactly the shown anchors; otherwise a bad shape or the first word that is not a data word |
| `Pools.LeastUnusedUnique` | crates/frances-edit/src/pool.rs:25-34 | being unused with every lower anchor used characterises the minted anchor |
| `Pools.ExamineCandidate` | crates/frances-edit/src/pool.rs:25-34 | one turn of the minting loop either finds the least unused anchor or comes closer to it, so minting ends |
| `Pools.Pool.Mint` | crates/frances-edit/src/pool.rs:18-34 | returns the least anchor not in use, whatever was minted before, and records it and nothing else |
| `Pools.MintsAreFresh` | crates/frances-edit/src/pool.rs:25-34 | mints never repeat an anchor nor reuse one |
| `Pools.UsedAfterHolds` | crates/frances-edit/src/pool.rs:18-34 | the used set grows by exactly the minted anchors |
| `Hashing.Hasher.HashLines` | crates/frances-anchors/src/hash.rs:7-20 | one pass with a running blank count gives every line the hash of its trimmed text, or of its ordinal among the blank lines |
| `Hashing.Hasher.HashesAre` | crates/frances-anchors/src/hash.rs:7-20 | the k-th blank line has the hash of the k-th blank line, every other line that of its own trimmed text |
| `Hashing.Hasher.HashesIgnoreWhitespace` | crates/frances-anchors/src/hash.rs:3-20 | without collisions, two texts have the same line hashes if and only if they differ in surrounding white space only |
| `EditOps.LinesShift` | crates/frances-edit/src/edit.rs:46-94 | every line that survives an edit moves by exactly what the offset table is shifted by |
| `EditOps.EditSplices` | crates/frances-edit/src/edit.rs:46-94 | each kind of edit on the gap model is one splice of the flattened file, at the cut the code computes |
| `EditOps.SpliceIn` | crates/frances-edit/src/edit.rs:99-105 | puts the lines at the place, in order, and marks each inserted |
| `EditOps.ShiftFrom` | crates/frances-edit/src/edit.rs:107-111 | only the lines from the boundary on move, by the given distance |
| `EditOps.ApplyOp` | crates/frances-edit/src/edit.rs:46-94 | one edit splices text and origins at the lines' current places and keeps the offset table right |
| `EditOps.ApplyNext` | crates/frances-edit/src/edit.rs:46-94 | one turn of the loop takes text, origins and offsets of one gap model to those of the next |
| `EditOps.ApplyOps` | crates/frances-edit/src/edit.rs:34-97 | for every list of edits on lines still there, text and origins are the flattened gap model |
| `EditLaws.OutputLayout` | crates/frances-edit/src/edit.rs:20-97 | carried lines are exactly the survivors, each once, unchanged, in file order and where the table says; all others are inserted |
| `EditLaws.Survivors` | crates/frances-edit/src/edit.rs:71-92 | a line survives if and only if no replaced range covers it |
| `EditLaws.Commute` | crates/frances-edit/src/edit.rs:46-94 | two edits on disjoint places give the same result in either order |
| `EditLaws.AnyOrder` | crates/frances-edit/src/edit.rs:34-97 | pairwise disjoint edits give the same file in every permutation |
| `EditLaws.NextOp` | crates/frances-edit/src/edit.rs:46-105 | each edit works on the output of those before it: its lines go right behind the line its anchor names, right before it, or in the place of its range |
| `EditLaws.BehindReplacedLine` | crates/frances-edit/src/edit.rs:34-97 | inserting behind a line that the one edit before replaced: the old offset leads right behind the replacement if and only if that has as many lines as were replaced up to the line, and out of the output if and only if the index is above its length |
| `EditLaws.StaleIndexOutOfRange` | crates/frances-edit/src/edit.rs:34-97 | two lines replaced by one: inserting behind the second asks for index 2 of a one-line output |
| `DiffScripts.TrimmingDiffLawful` | crates/frances-edit/src/reconcile.rs:43-48 | the demands on the diff can be met: a prefix and suffix trimming diff meets them |
| `Carrying.NewAnchorsDistinct` | crates/frances-edit/src/reconcile.rs:49-105 | carrying in order and minting the rest keeps anchors pairwise distinct |
| `Carrying.CarriedOrDropped` | crates/frances-edit/src/reconcile.rs:49-105 | each old anchor is on a new line or dropped, never both |
| `Reconciliation.ScriptOriginsFacts` | crates/frances-edit/src/reconcile.rs:49-90 | along any script, carried lines keep their order and equal their old lines, and every new line is produced |
| `Reconciliation.CarriedByEqual` | crates/frances-edit/src/reconcile.rs:49-90 | an old line is carried if and only if an equal step holds it |
| `Reconciliation.PoisonHinted` | crates/frances-edit/src/reconcile.rs:24-42 | exactly the hinted lines' hashes are overwritten, each with its own poison |
| `Reconciliation.ReplayScript` | crates/frances-edit/src/reconcile.rs:49-98 | replaying the script builds the reconciled lines, the mint report and the tombstones |
| `Reconciliation.Reconcile` | crates/frances-edit/src/reconcile.rs:24-105 | new lines, digest, reported mints (exactly the lines not carried) and tombstones are those of the diff's line origins, and the pool has taken the mints |
| `ReconcileLaws.AnchorsConserved` | crates/frances-edit/src/reconcile.rs:24-105 | anchors stay distinct; carried and tombstoned ones partition the old; a line has a used anchor exactly when it carries its old entry |
| `ReconcileLaws.HashesAndHints` | crates/frances-edit/src/reconcile.rs:24-109 | one entry per line on disk with that line's hash, and every hinted anchor is tombstoned |
| `ReconcileLaws.NothingChanged` | crates/frances-edit/src/reconcile.rs:24-105 | unchanged hashes leave every entry as it was and tombstone nothing |
| `AnchorStores.FakeStore.Load` | crates/frances-edit/src/store.rs:86-110 | a file is loaded if it has metadata, with its rows in order |
| `AnchorStores.FakeStore.SaveMeta` | crates/frances-edit/src/store.rs:112-124 | replaces one file's metadata and nothing else |
| `AnchorStores.FakeStore.ReplaceFileLines` | crates/frances-edit/src/store.rs:126-144 | replaces one file's rows and metadata and nothing else |
| `AnchorStores.FakeStore.UsedAnchors` | crates/frances-edit/src/store.rs:146-158 | the anchors of a file's rows and its tombstones |
| `AnchorStores.FakeStore.Tombstone` | crates/frances-edit/src/store.rs:160-165 | adds to one file's tombstones |
| `AnchorStores.FakeStore.ClearTombstones` | crates/frances-edit/src/store.rs:167-171 | clears every file's tombstones |
| `Engine.LadderAgrees` | crates/frances-edit/src/engine.rs:38-102 | the fast paths return and store what a full reconcile would, if and only if equal metadata or digest mean equal line hashes |
| `Engine.OpenRecords` | crates/frances-edit/src/engine.rs:38-102 | on every rung the file returned has the reading's path, lines, time and size, the store has its metadata and digest, and opening the same reading again changes nothing and returns the same |
| `Engine.EditEngine.Open` | crates/frances-edit/src/engine.rs:38-102 | loads, compares and stores as the drift ladder says, rung by rung |
| `Engine.EditEngine.Commit` | crates/frances-edit/src/engine.rs:105-123 | stores the state with the given metadata and the tombstones |
| `Engine.EditEngine.CommitEdits` | crates/frances-edit/src/engine.rs:126-128 | clears tombstones and nothing else |
| `SessionModel.ResolvesOnce` | crates/frances-edit/src/session/anchored.rs:254-290 | a rendered anchor names at most one line |
| `LineIdentity.ResolutionIff` | crates/frances-edit/src/session/anchored.rs:254-290 | a field names a line if and only if it is one line of text: the line's anchor, the separator, and the line's content up to white space |
| `EditSession.ResolveAnchor` | crates/frances-edit/src/session/anchored.rs:254-290 | finds the named line if there is one; otherwise the first failing check, and no other, is the error |
| `EditSession.ResolveRange` | crates/frances-edit/src/session/anchored.rs:30-62 | resolves both ends, rejects a backwards range, and lists exactly the anchors that go |
| `EditSession.EditSession.ReadFile` | crates/frances-edit/src/session/mod.rs:91-107 | opens the file and caches what the store then has |
| `EditSession.EditSession.DraftLines` | crates/frances-edit/src/session/anchored.rs:167-178 | carried lines keep their anchors, inserted ones mint in order |
| `EditSession.EditSession.ApplyLineEdit` | crates/frances-edit/src/session/anchored.rs:147-214 | direct transform, write, reconcile with what the formatter left, commit, cache; a failed write changes nothing |
| `EditSession.EditSession.ApplyRewrite` | crates/frances-edit/src/session/anchored.rs:215-251 | write, reconcile against the cached lines, commit, cache; a failed write changes nothing |
| `EditSession.EditSession.ApplyReplace` | crates/frances-edit/src/session/anchored.rs:30-63 | guard, cache check, range and edit, in this order |
| `EditSession.EditSession.ApplyReplaceAll` | crates/frances-edit/src/session/anchored.rs:65-100 | a bad pattern or too many matches change nothing, no match is no edit |
| `EditSession.EditSession.ApplyPinInsert` | crates/frances-edit/src/session/anchored.rs:102-123 | guard, cache check, pin and edit, in this order |
| `EditSession.EditSession.ApplyNew` | crates/frances-edit/src/session/whole_file.rs:14-47 | creates, then opens what was written; an existing file is its own error |
| `EditSession.EditSession.ApplyOverwrite` | crates/frances-edit/src/session/whole_file.rs:52-101 | needs a read first and marks every old anchor as deleted |
| `EditSession.EditSession.Edit` | crates/frances-edit/src/session/mod.rs:119-198 | every edit does what the session model says or leaves files and store alone, and forgets remembered reads even when it fails |
| `EditSession.EditSession.CommitEdits` | crates/frances-edit/src/session/mod.rs:200-204 | a session's commit clears the store's tombstones and keeps the cache |
| `EditRequests.InsertAfterWrites` | crates/frances-edit/src/session/anchored.rs:103-124 | insert-after hands the writer the file's lines with the text's lines right behind the named line; if that write succeeds, the file is cached as the writer left it, its metadata is stored and no other file is touched; otherwise nothing changes |
| `EditRequests.InsertBeforeWrites` | crates/frances-edit/src/session/anchored.rs:103-124 | the same with the text's lines right before the named line |
| `EditRequests.ReplaceWrites` | crates/frances-edit/src/session/anchored.rs:28-63 | the same with the text's lines in the place of the first named line to the last |
| `EditRequests.LineEditRefused` | crates/frances-edit/src/session/anchored.rs:28-124 | the guard, a file that was not read, an anchor that does not resolve and a backwards range stop a line edit before any write |
| `EditRequests.LineEditAnchors` | crates/frances-edit/src/session/anchored.rs:147-214 | if the writer keeps the lines, every line that stays keeps its anchor, the new lines have unused ones, and exactly the replaced range's become tombstones |
| `EditRequests.OverwriteWrites` | crates/frances-edit/src/session/whole_file.rs:52-103 | an overwrite hands over the text's lines, with the same effect |
| `EditRequests.OverwriteDropsAnchors` | crates/frances-edit/src/session/whole_file.rs:52-103 | after an overwrite no old anchor names a line and all are tombstones, even those of lines that stay the same |
| `EditRequests.ReplaceAllWrites` | crates/frances-edit/src/session/anchored.rs:65-101 | replace-all hands over the lines of what the pattern made of the file; a bad pattern or too many matches refuse it, no match is no write |
| `EditRequests.ReplaceAllKeepsAnchors` | crates/frances-edit/src/session/anchored.rs:65-101 | a replace-all that leaves the lines as they were keeps every anchor |
| `EditRequests.NewWrites` | crates/frances-edit/src/session/whole_file.rs:14-50 | a new file's lines are handed over to be created, not overwritten, and it is cached and stored as written |
| `EditRequests.ReadRecords` | crates/frances-edit/src/session/mod.rs:91-117 | reading caches the file as read, stores its metadata and touches no other file; reading the same again changes nothing |
| `EditRequests.WrittenReadsBack` | crates/frances-edit/src/engine.rs:38-102 | reading what an edit has just written leaves the store as it is and finds the same lines with the same anchors |
| `EditRequests.CommitFrees` | crates/frances-edit/src/session/mod.rs:200-206 | a commit frees exactly the anchors that name no line and changes nothing else |
| `SessionLaws.CommitSound` | crates/frances-edit/src/engine.rs:105-123 | storing distinct anchors with their digest, with every vanished anchor tombstoned, keeps the store sound and the used sets growing |
| `SessionLaws.DraftCarries` | crates/frances-edit/src/session/anchored.rs:147-178 | a draft carries exactly the lines outside the replaced range |
| `SessionLaws.DraftSane` | crates/frances-edit/src/session/anchored.rs:156-185 | a draft's anchors are distinct, old ones only on carried lines, and every old one is kept or deleted |
| `SessionLaws.LineEditedSound` | crates/frances-edit/src/session/anchored.rs:147-214 | a line edit keeps the session sound whatever the formatter does |
| `SessionLaws.RewrittenSound` | crates/frances-edit/src/session/whole_file.rs:52-101 | a rewrite keeps the session sound |
| `SessionLaws.OpenedSound` | crates/frances-edit/src/engine.rs:38-102 | opening keeps the store sound and yields one entry per line with its hash |
| `SessionLaws.StepSound` | crates/frances-edit/src/session/mod.rs:91-204 | every read, edit and commit keeps the session sound, and all but commits only add used anchors |
| `SessionLaws.RunSound` | crates/frances-edit/src/session/mod.rs:91-204 | over every run from the empty session, stored anchors are distinct and every cached file agrees with the store |
| `SessionLaws.RunProgress` | crates/frances-edit/src/session/mod.rs:91-204 | between commits a used anchor stays used, and names a line later only if it did before |
| `SessionLaws.NoAnchorReused` | crates/frances-edit/src/session/mod.rs:91-204 | between commits an anchor that left its file never names a line again |
| `LineIdentity.StoredDraft` | crates/frances-edit/src/session/anchored.rs:182-191 | when the writer changes nothing, the stored rows are the draft and the tombstones grow by the replaced range |
| `LineIdentity.UntouchedLinesKeepAnchors` | crates/frances-edit/src/session/anchored.rs:134-214 | when the writer changes nothing, exactly the untouched lines have used anchors, each its own, at its shifted place |
| `LineIdentity.RenderedLineResolves` | crates/frances-edit/src/render.rs:13-20 | passing a rendered line back names that very line, if its content is one line |
| `DiffRender.ShownInStretch` | crates/frances-edit/src/render.rs:72-110 | the change nearest to an unchanged line is next to its stretch |
| `DiffRender.Emit` | crates/frances-edit/src/render.rs:170-205 | appends the lines of a range as one kind, each with its number, anchor and text |
| `DiffRender.RenderDiffBlock` | crates/frances-edit/src/render.rs:53-163 | the whole output, step by step: old lines before new ones, stretches cut in the middle with a gap |
| `DiffRender.RenderedNumbers` | crates/frances-edit/src/render.rs:72-157 | after any number of steps, exactly the due numbers of each kind are rendered |
| `DiffRender.ChangesAreShown` | crates/frances-edit/src/render.rs:121-157 | every removed line, and every added one, appears exactly once and in order |
| `DiffRender.ContextIsShown` | crates/frances-edit/src/render.rs:72-120 | an unchanged line appears if and only if a change lies within the context; context numbers ascend and index the new lines |
| `DiffRender.ChangedAre` | crates/frances-edit/src/render.rs:121-157 | removed and added lines come once each, in order, and are exactly the lines no equal step keeps |
| `DiffRender.ShownAre` | crates/frances-edit/src/render.rs:72-120 | context lines ascend and are exactly the unchanged lines within the context of a change |
| `RenderLaws.RenderedLinesAreTheirs` | crates/frances-edit/src/render.rs:72-205 | a rendered line has the anchor and text of the line of its number, of the old file if removed and of the new one otherwise |
| `RenderLaws.RenderedTiles` | crates/frances-edit/src/render.rs:53-163 | the output is the steps in order and nothing else: a change is its old lines, then its new ones; an unchanged stretch is its lines near a change, with a gap for lines left out behind others |
| `Bits.ShlExact` | crates/frances-anchors/src/encode.rs:29-30 | a left shift that fits its word loses nothing |
| `Bits.OrAdds` | crates/frances-anchors/src/encode.rs:29-30 | joining into free low bits is addition |
| `Bits.AndMask` | crates/frances-anchors/src/encode.rs:32-34 | masking keeps the remainder |
| `WordCodec.PackByte` | crates/frances-anchors/src/encode.rs:28-31 | after taking a byte in, words and buffer spell the bytes so far |
| `WordCodec.PackWord` | crates/frances-anchors/src/encode.rs:31-35 | taking a word out loses no bit |
| `WordCodec.PaddingBits` | crates/frances-anchors/src/encode.rs:21-23 | the 32-bit counters do not wrap below 2^29 bytes, and the padding completes the last word |
| `WordCodec.Encode` | crates/frances-anchors/src/encode.rs:17-44 | the words spell the bytes' bits and zeros for padding, with the marker of the padding's length |
| `WordBits.EncodedBits` | crates/frances-anchors/src/encode.rs:17-44 | bit by bit, the data words have the bytes' bits, highest first and in order, and zeros for padding |
| `WordCodec.UnpackOne` | crates/frances-anchors/src/encode.rs:71-80 | at most 18 bits are ever buffered, and words and bytes spell the same number |
| `WordCodec.Decode` | crates/frances-anchors/src/encode.rs:46-85 | yields the bytes that the words encode if there are any; otherwise a misplaced marker or a malformed list |
| `WordCodec.EncodingUnique` | crates/frances-anchors/src/encode.rs:17-44 | bytes have only one encoding |
| `WordCodec.DecodingUnique` | crates/frances-anchors/src/encode.rs:46-85 | words encode only one byte string |
| `WordCodec.EncodeThenDecode` | crates/frances-anchors/src/encode.rs:17-85 | decoding an encoding gives the bytes back, for every length below 2^29 |
| `WordCodec.DecodeThenEncode` | crates/frances-anchors/src/encode.rs:17-85 | encoding what was decoded gives the same words, so only canonical lists are accepted |
| `WordCodec.EncodeWords` | crates/frances-anchors/src/encode.rs:87-89 | the dictionary words of the encoding |
| `WordCodec.SpellAndRead` | crates/frances-anchors/src/encode.rs:87-98 | bytes survive being spelled out in words and read back, for every length below 2^29 |
| `WordCodec.DecodeWords` | crates/frances-anchors/src/encode.rs:91-98 | yields the bytes the words spell if there are any; the first unknown word is the error |
| `Sentinels.Sentinel.Find` | crates/frances-shell/src/proto.rs:49-81 | the scan decides by the first place where a marker starts |
| `SentinelLaws.FoundStays` | crates/frances-shell/src/proto.rs:49-81 | a match stays the same when more bytes arrive |
| `SentinelLaws.FoundEarly` | crates/frances-shell/src/proto.rs:49-81 | a match is found as soon as its own bytes are there |
| `SentinelLaws.PrintedNumber` | crates/frances-shell/src/proto.rs:40-47 | a printed exit code has at most eleven characters and reads back |
| `SentinelLaws.PrintedMarkerFound` | crates/frances-shell/src/proto.rs:49-81 | a printed marker is found right behind the output if and only if no marker starts inside the output |
| `SentinelLaws.FoundIsMarker` | crates/frances-shell/src/proto.rs:49-81 | what is found is a whole marker: line break, prefix, the exit code's digits, suffix |
| `SentinelLaws.PlainOutputFound` | crates/frances-shell/src/proto.rs:49-81 | behind output in which no line starts with the prefix, a printed marker is found |
| `SentinelLaws.MarkerFits` | crates/frances-shell/src/proto.rs:40-47 | a printed marker fits the held-back bytes |
| `OutputReader.OutputReader.Ship` | crates/frances-shell/src/reader.rs:94-105 | sends what is new up to the given end, once, if there is a sink |
| `OutputReader.OutputReader.TakeMatch` | crates/frances-shell/src/reader.rs:195-209 | ships the rest of the output, drops the marker, keeps what follows |
| `OutputReader.OutputReader.TakeQuiet` | crates/frances-shell/src/reader.rs:211-218 | ships and returns everything buffered |
| `OutputReader.OutputReader.TakeEof` | crates/frances-shell/src/reader.rs:220-227 | ships and returns everything buffered at the end of the stream |
| `OutputReader.OutputReader.ReadUntilSentinel` | crates/frances-shell/src/reader.rs:131-193 | one call over its arrivals is the read loop of the reader's state, outcome, events and remaining arrivals included |
| `ReaderLaws.CallAccounts` | crates/frances-shell/src/reader.rs:131-227 | timers included, every byte is in the outcome, the marker or the buffer, and only the first marker ends the output |
| `ReaderLaws.OutcomeFromStream` | crates/frances-shell/src/reader.rs:131-193 | without timers, outcome and remaining bytes depend on the stream and not on its chunks |
| `ReaderLaws.DroppedCallResumes` | crates/frances-shell/src/reader.rs:120-193 | a call dropped while waiting is continued by the next as if never interrupted |
| `ReaderLaws.LoopShips` | crates/frances-shell/src/reader.rs:94-227 | however a call ends, the sink has received exactly the returned output, if the marker is covered |
| `ReaderEvents.CallTells` | crates/frances-shell/src/reader.rs:94-227 | with a sink, nothing but output is sent while a call waits, and its outcome is sent once, last, with its own exit code or reason; without a sink nothing is |
| `ReaderEvents.CallEndsWith` | crates/frances-shell/src/reader.rs:131-193 | a call takes arrivals up to the one that its outcome speaks of, a timer with its reason, the end of the stream or the marker's last bytes, and no more |
| `ReaderLaws.LeakFreeIff` | crates/frances-shell/src/reader.rs:94-130 | all chunkings ship exactly the output if and only if the marker is at most one byte longer than the reserve |
| `ReaderLaws.LongMarkerLeaks` | crates/frances-shell/src/reader.rs:94-130 | an exit code spelled with thirteen zeros is found as 0, is longer than that, and leaks when its bytes come one by one |
| `ReaderLaws.PrintedOutputShips` | crates/frances-shell/src/reader.rs:94-227 | output and printed marker: the call returns output and code, the sink has no marker byte, the rest is left |
| `ConfigValues.SameKeys` | crates/frances-config/src/value.rs:80-110 | looking up by folded key is looking up by the case-insensitive equality |
| `ConfigValues.SamePathKeys` | crates/frances-config/src/value.rs:80-110 | two paths have the same keys if and only if their segments are the same without case |
| `LayeredConfig.GroupEntries` | crates/frances-config/src/config.rs:103-116 | each child's group has that child's last values for every path below it |
| `LayeredConfig.UpdateSlot` | crates/frances-config/src/config.rs:165-174 | replaces one slot and caches the last slot that is not null |
| `LayeredConfig.ApplyChildren` | crates/frances-config/src/config.rs:123-146 | in any order of the children, each group is applied to its child, and dropping an empty child changes nothing that is read |
| `LayeredConfig.ApplyAtNode` | crates/frances-config/src/config.rs:98-161 | at every path the provider's slot becomes the batch's last value there, no other slot changes, every node's cached winner is right, and a changed node with neither value nor child is dropped |
| `LayeredConfig.AppliedBatch` | crates/frances-config/src/config.rs:87-94 | a whole batch does so for paths compared without case; and where no node below the root was empty, none is afterwards, if and only if the batch leaves none so: no missing node is on the way to an entry, without one of its own, while all that the batch touches below it is unset |
| `LayeredConfig.UnsetLeavesBare` | crates/frances-config/src/config.rs:98-161 | unsetting [a, b] in an empty tree leaves an empty node at [a] |
| `ConfigRuns.StepRefines` | crates/frances-config/src/config.rs:87-161 | the tree after a batch refines the flat maps after the batch |
| `ConfigRuns.ReadsWinner` | crates/frances-config/src/config.rs:46-66 | the cached winner is the highest provider's last setting that is not null |
| `ConfigRuns.BatchIsItsEvents` | crates/frances-config/src/config.rs:87-94 | a batch does what its events do one at a time |
| `ConfigRuns.SettingIsLatest` | crates/frances-config/src/config.rs:87-94 | a provider's setting is the last value it wrote, however its writes were cut into batches and whatever others wrote in between |
| `ConfigRuns.BatchingIsInvisible` | crates/frances-config/src/config.rs:76-94 | configurations whose providers wrote the same events, in whatever batches and turns, read alike |
| `ConfigRuns.ProvidersCommute` | crates/frances-config/src/config.rs:87-161 | batches of different providers commute, whatever comes before and after |
| `ConfigRuns.SamePathsReadAlike` | crates/frances-config/src/config.rs:54-61 | after any history, paths that are the same without case read alike |
| `ConfigRuns.ConfigHandle.ApplyBatch` | crates/frances-config/src/handle.rs:166-190 | the snapshot refines the history of batches; an emptied root is replaced by an empty configuration; empty nodes come from batches that leave them and from no other |
| `ConfigRuns.ConfigHandle.Get` | crates/frances-config/src/config.rs:54-66 | after any history, reading a path yields the value that the highest provider whose last value is not null wrote last at a path the same without case |
| `EntityStream.StepKeeps` | crates/frances-session/src/entities/mod.rs:235-338 | every step keeps numbering, storing and the subscription's phase consistent |
| `EntityStream.EmittedInOrder` | crates/frances-session/src/entities/mod.rs:281-332 | under every interleaving a subscription's items strictly increase |
| `EntityStream.LogIsAppended` | crates/frances-session/src/entities/mod.rs:235-259 | over every run the stream is what was appended, in order |
| `EntityStream.UnwatchedIsQuiet` | crates/frances-session/src/entities/mod.rs:249-251 | an entity that nobody watches emits nothing, whatever is appended, until someone subscribes |
| `EntityStream.StepInOrder` | crates/frances-session/src/entities/mod.rs:241-315 | over every step: whether the replay overtook the last item numbered before catching up is decided when the replay joins the database queue, and first come, first served keeps it so |
| `EntityStream.MissingIff` | crates/frances-session/src/entities/mod.rs:281-332 | a caught-up subscription misses an item if and only if, when its replay joined the database queue, the last item numbered before it began had no place there yet; it misses that item and no other |
| `EntityStream.SplitCanMiss` | crates/frances-session/src/entities/mod.rs:241-275 | an item is missed when its insertion queues behind the replay |
| `EntityStream.BreathKeeps` | crates/frances-session/src/entities/mod.rs:241-306 | when queueing follows without an await, no replay overtakes an item |
| `EntityStream.CatchUpIsExact` | crates/frances-session/src/entities/mod.rs:278-332 | then a caught-up subscription has received 1 to n, in order, each once |
| `EntityHub.EntityRecord.TakeNumber` | crates/frances-session/src/entities/mod.rs:235-259 | the locked section of an append: numbers the item and hands it to the buffer or the frontend; a settled entity takes none |
| `EntityHub.EntityRecord.Store` | crates/frances-session/src/entities/mod.rs:261-274 | stores the item whose turn at the database it is |
| `EntityHub.EntityRecord.BeginCatchUp` | crates/frances-session/src/entities/mod.rs:287-292 | starts buffering |
| `EntityHub.EntityRecord.SendRow` | crates/frances-session/src/entities/mod.rs:303-315 | emits one stored row and remembers its number |
| `EntityHub.EntityRecord.GoLive` | crates/frances-session/src/entities/mod.rs:318-331 | goes live and emits the buffered items that the replay did not cover |
| `EntityHub.EntityRecord.Follow` | crates/frances-session/src/entities/mod.rs:287-290 | tails without catching up |
| `ChatQueue.RunConserves` | crates/frances-llm/src/chat/session.rs:115-339 | under every interleaving the messages of the runs that are over, then those on their way, are the pushed ones, each once and in order |
| `ChatQueue.NothingIsLost` | crates/frances-llm/src/chat/session.rs:237-339 | delivered then queued messages are the pushed ones if and only if no run holding messages was dropped by its host |
| `ChatQueue.DroppedRunLoses` | crates/frances-session/src/runtime/driver.rs:396-405 | a run dropped by its host takes the message it drained with it |
| `ChatStorage.RowsAreMessages` | crates/frances-llm/src/chat/session.rs:115-137 | under every interleaving each row holds the message of its number |
| `ChatStorage.StepStoresOnceIff` | crates/frances-llm/src/chat/session.rs:115-137 | one step keeps the rows the first pushed messages, each once, with all that left the queue among them, if and only if it neither writes again what the last flush wrote without marking nor ends a run with messages its flush missed |
| `ChatStorage.StoredOnceIff` | crates/frances-llm/src/chat/session.rs:115-339 | over every run this holds throughout if and only if no step does either |
| `ChatStorage.SessionStoresOnceIff` | crates/frances-llm/src/chat/session.rs:115-339 | the same for every run of a new session, with the rows equal to a prefix of what was pushed |
| `ChatStorage.FlushedMarks` | crates/frances-llm/src/chat/session.rs:115-137 | a flush leaves unmarked the messages that system inputs pushed meanwhile have moved out of the marked places, unless stored before |
| `ChatStorage.SteadyNeverSlips` | crates/frances-llm/src/chat/session.rs:115-339 | a host that pushes no system input during a flush, nothing during a run's flush, and drops no flush, meets neither |
| `ChatStorage.EphemeralStoresNothing` | crates/frances-llm/src/chat/session.rs:115-137 | an ephemeral session stores nothing |
| `ChatStorage.SystemDuringFlushStoresTwice` | crates/frances-llm/src/chat/session.rs:115-137 | a system input pushed during a flush makes the message behind it be stored twice |
| `ChatStorage.PushDuringRunFlushIsNotStored` | crates/frances-llm/src/chat/session.rs:250-251 | a message pushed during a run's flush is delivered without being stored |
| `ChatQueue.StepLeadsIff` | crates/frances-llm/src/chat/session.rs:169-187 | one step keeps system inputs in front, in the queue and in what was drained, if and only if it is not a failed run putting messages back in front of a system input |
| `ChatQueue.SystemsLeadIff` | crates/frances-llm/src/chat/session.rs:169-337 | over every run they lead throughout if and only if no step is such a failure |
| `ChatQueue.CalmNeverStrands` | crates/frances-llm/src/chat/session.rs:169-337 | a host that pushes no system input during a run never meets it |
| `ChatQueue.SystemDuringRunTrails` | crates/frances-llm/src/chat/session.rs:326-337 | a system input pushed during a run that fails ends up behind the retried messages |
| `ChatQueue.StepKeepsSystems` | crates/frances-llm/src/chat/session.rs:169-187 | a system input goes behind those that are there, delivered ones included; a run that fails or is dropped takes its own with it; no other step changes their order |
| `ChatQueue.SystemsInOrder` | crates/frances-llm/src/chat/session.rs:169-339 | over every run without such an end, system inputs are delivered, and wait, in the order in which they were pushed |
| `ChatSessions.ChatSession.PushSystem` | crates/frances-llm/src/chat/session.rs:169-187 | inserts right behind the last system input and keeps the queue good |
| `ChatSessions.ChatSession.EnsureRow` | crates/frances-llm/src/chat/session.rs:193-210 | creates the row once; ephemeral sessions never have one |
| `ChatSessions.ChatSession.PersistPending` | crates/frances-llm/src/chat/session.rs:115-137 | stores and marks exactly what was not stored, or nothing when the row or the flush fails |
| `ChatSessions.ChatSession.Run` | crates/frances-llm/src/chat/session.rs:237-339 | drains after storing; a failed provider puts the messages back, a failed flush drains nothing |
| `ChatSessions.ChatSession.PersistPendingKeeps` | crates/frances-llm/src/chat/session.rs:115-137 | after a successful call everything pushed is stored |
| `ChatSessions.ChatSession.RunKeeps` | crates/frances-llm/src/chat/session.rs:237-339 | every run keeps the session good, and a successful one delivers the whole queue |
| `FrameHeaders.NoBlankBefore` | crates/frances-worker-protocol/src/frame.rs:165-183 | a printed header's only blank line is its end |
| `FrameHeaders.LinesReadBack` | crates/frances-worker-protocol/src/frame.rs:185-192 | trimming and splitting a printed header gives its lines back |
| `FrameHeaders.HeaderReadsBack` | crates/frances-worker-protocol/src/frame.rs:77-220 | a printed header, in front of anything, is found whole and read back, within the header limit |
| `Frames.Connection.WriteHeader` | crates/frances-worker-protocol/src/frame.rs:77-90 | appends the printed header |
| `Frames.HeaderText` | crates/frances-worker-protocol/src/frame.rs:77-92 | the header's text on the wire |
| `Frames.Connection.SendEncoded` | crates/frances-worker-protocol/src/frame.rs:44-75 | sends attachments then JSON; an attachment that is too large stops the message before it |
| `Frames.Connection.ReadHeader` | crates/frances-worker-protocol/src/frame.rs:165-220 | takes bytes up to the first blank line and parses them; a stream that ends before any byte ends cleanly |
| `Frames.Connection.ReceiveContent` | crates/frances-worker-protocol/src/frame.rs:128-163 | stores an attachment within the caps under a new number, or names the fault |
| `Frames.Connection.ReceiveRaw` | crates/frances-worker-protocol/src/frame.rs:94-126 | reads frames up to the next JSON and hands over exactly the attachments received for it |
| `FrameLaws.ContentReadsBack` | crates/frances-worker-protocol/src/frame.rs:57-75 | an attachment's frame is stored under its number with its bytes, whatever they are |
| `FrameLaws.MessageReadsBack` | crates/frances-worker-protocol/src/frame.rs:44-126 | a message within the caps is received as sent, and the next starts right behind it |
| `FrameLaws.SentIsReceivedIff` | crates/frances-worker-protocol/src/frame.rs:44-163 | what the sender sends is received as sent if and only if the JSON is within its cap and there are at most sixteen attachments; otherwise the error names the first of the two |
| `FrameLaws.ConversationReadsBack` | crates/frances-worker-protocol/src/frame.rs:44-126 | any list of messages is received as the same list and then a clean end |
| `FrameLaws.ReceivedAttachments` | crates/frances-worker-protocol/src/frame.rs:128-163 | a received message has exactly the sent attachments, by number |
| `FrameCuts.CutShort` | crates/frances-worker-protocol/src/frame.rs:94-183 | every proper prefix of a message is answered by where the cut is: a clean end in front of a frame, a broken attachment in its bytes, an unexpected end in a header or the JSON |
| `FrameCuts.NothingCutIsDelivered` | crates/frances-worker-protocol/src/frame.rs:94-183 | no proper prefix of a message is ever delivered; the end is clean if and only if the cut is between two frames |
| `FrameCuts.ConversationCut` | crates/frances-worker-protocol/src/frame.rs:94-183 | of a conversation cut short, the messages that came whole are received as sent |
| `FrameFaults.AttachmentRefused` | crates/frances-worker-protocol/src/frame.rs:128-145 | an attachment without number, too large, one too many or with a number already there is refused for the first of these reasons, and those before it stay |
| `FrameFaults.JsonFrameRefused` | crates/frances-worker-protocol/src/frame.rs:99-124 | an unknown type, a JSON frame with a number and one above its cap are refused |
| `FrameFaults.LongHeaderRefused` | crates/frances-worker-protocol/src/frame.rs:165-183 | a header that has not ended one byte behind the limit is refused there |
| `FrameFaults.NamesIgnoreCase` | crates/frances-worker-protocol/src/frame.rs:193-214 | field names are compared without case |
| `FrameFaults.ValuesAreTrimmed` | crates/frances-worker-protocol/src/frame.rs:189-193 | white space around a value does not count |
| `FrameFaults.LineRefused` | crates/frances-worker-protocol/src/frame.rs:189-214 | a line without a colon is malformed, and a name other than the three, whatever its case, is unknown |
| `Contents.EncodeNumbers` | crates/frances-worker-protocol/src/content.rs:134-150 | encoding fails if and only if a content was taken before, and numbers attachments 1, 2, 3 and so on |
| `Contents.EncodeInPlace` | crates/frances-worker-protocol/src/content.rs:134-150 | every piece is encoded in its place: a text as it is, a content as a reference to the attachment with its bytes |
| `Contents.DecodeEncoded` | crates/frances-worker-protocol/src/content.rs:172-212 | decoding what was encoded gives the value back and leaves no attachment |
| `Contents.DecodeIff` | crates/frances-worker-protocol/src/content.rs:152-212 | decoding succeeds if and only if every attachment is referred to once and nothing else is |
| `Contents.EncodedIsReceived` | crates/frances-worker-protocol/src/content.rs:172-212 | an encoded value within the caps travels through the frames as JSON, and decoding what was received gives it back |
| `Contents.Encode` | crates/frances-worker-protocol/src/content.rs:172-188 | the numbering context yields tokens and attachments in order, or the consumed error |
| `Contents.Decode` | crates/frances-worker-protocol/src/content.rs:190-212 | the claiming context yields the value, the first bad reference, or the number left unclaimed |
| `LineRanges.MergeRanges` | crates/frances-harness/src/tools/file.rs:155-189 | the first faulty range is the error; otherwise sorted ranges, never adjacent, covering exactly the requested lines of the file |
| `LineRanges.Join` | crates/frances-harness/src/tools/file.rs:175-187 | joins a range that starts inside or right behind the last one, up to the largest integer |
| `LineRanges.NormalUnique` | crates/frances-harness/src/tools/file.rs:173-189 | there is only one such list for a set of lines, so the order of requests does not matter |
| `LineRanges.MergeTwice` | crates/frances-harness/src/tools/file.rs:155-189 | merging merged ranges changes nothing |
| `EffortTiers.TierPoints` | crates/frances-models-llm/src/effort.rs:93-108 | the points in order, for any number of labels |
| `EffortTiers.InnerPoint` | crates/frances-models-llm/src/effort.rs:98-106 | inner points are from 1 to 99, within half of the ideal spacing |
| `EffortTiers.FewLabels` | crates/frances-models-llm/src/effort.rs:77-108 | two labels share the percentages evenly; of three the second sits in the middle |
| `EffortTiers.PointsGrow` | crates/frances-models-llm/src/effort.rs:93-108 | points never go down and stay within the percentages |
| `EffortTiers.EffortTiers.LabelFor` | crates/frances-models-llm/src/effort.rs:77-90 | a nearest label, the higher one of two that are as near |
| `EffortTiers.LabelsGrow` | crates/frances-models-llm/src/effort.rs:77-90 | more effort never gets a lower label |
| `EffortTiers.EndsAreReserved` | crates/frances-models-llm/src/effort.rs:77-108 | no effort gets the first label, full effort the last |

## Left out

- Line counts and offsets are unbounded: files of 2^32 lines or more, where the 32-bit line numbers would wrap, are not modelled.
- Errors of the anchor store, the database and the file system other than a failed write: they end the call.
- The rendered file and the rendered difference are not part of what the session methods return; the difference is modelled on its own in `DiffRender`, as entries rather than formatted text.
- Sessions over one store at the same time: after a commit, a second session with an old cache can see freed anchors, so uniqueness is claimed for one session.
- The detector of pasted anchors, the regular expression engine and the formatter are parameters.
- The diff algorithm and the hash functions: library code, modelled by the demands in `DiffScripts` and `Hashing`.
- `FakeStore` keeps rows as a sequence; the row numbers that the source stores are their positions.
- WordCodec.Decode: takes lists whose data bits a 32-bit counter holds and whose indices are in the dictionary; longer lists, where the counter would overflow, and foreign indices, which only a caller of the raw decoder could pass, are not modelled.
- Characters are Unicode scalar values: multi-byte encodings, and white space beyond ASCII where trimming is spelled out, are not modelled.
- The reader's read size, its timers' durations and the regular wake-ups are choices of the arrivals.
- A quiet timer while part of a marker is buffered drains that part; only conservation of bytes is claimed there.
- The wrapper script and its quoting.
- Configuration bindings, deserialisation, the and the original spelling of keys.
- Settling an entity during a catch-up, upserts, artifacts and the loading of rows at start.
- Unsubscribing or subscribing again during a catch-up: the splice goes live unconditionally.
- Truncation of long tool results before they are queued, the rows of replies, and the contents of provider requests.
- Frames.Connection.ReadHeader: header bytes above 127 count as ordinary bytes; that the source decodes headers as UTF-8 and rejects what is not is not modelled.
- Temporary files, cancellation in the middle of a frame, and the JSON syntax: a document is the list of its literals and references, and what parses it is a parameter.
- The loop guard's keys are recorded and cleared; what is hashed into them is not modelled.
