# Verified model of the GSM control plane

This project models the parts of a Go control plane around native GSM
processes whose correctness is hard to see from any single function, and proves
what they promise. `dafny verify dfyconfig.toml` checks everything.

## What is modelled

- **Reading the messages of one launch from a rotating log** (`LogFiles`,
  `LineWindow`, `SmsCursor`, `SmsOutcome`, `SmsSpan`, `SmsWindow`, `SmsSession`,
  `SmsRuns`, `SmsExamples`). Files are
  objects that are never reused and only grow; `current` and `backup` are the two
  names that can point to them. All bytes ever logged form a stream in which each
  file has a base. The reader's opens, stats, validations and copies are separate
  steps. An `Environment` says which collector steps happen before each of them,
  and `Faults` which of them fail; both are arbitrary. `SmsOutcome` says what one
  attempt must answer for every log, schedule and fault pattern, and the reader's
  loops are proved to answer exactly that. Every answer is scope-safe; it is exact
  unless the attempt was overtaken by a rotation, a condition on the log and the
  schedule that is proved to be the exact one. Sessions are then followed over
  whole runs.
- **Bounded retention** (`LogFiles`, `LogRetention`): append with rename rotation,
  every call of which may fail, and what the two files hold after any sequence of
  writes.
- **The readiness detector** (`ProcessLog`): streaming search equals search in
  everything written.
- **The tail of the call-record file** (`CdrTail`): a backward quote-toggle scan
  against files written as section 2 of RFC 4180 says.
- **Short-message text** (`Utf8`, `SmsRecord`, `SmsText`, `SmsWire`): UCS-2 user data
  (sections 4 and 6.2.3 of 3GPP TS 23.038, sections 9.2.3.16 and 9.2.3.24 of
  3GPP TS 23.040) to UTF-8 (section 3 of RFC 3629), to a hexadecimal log record,
  back to text.
- **The merge of log events** (`LogMerge`, `LogGenerations`): a one-pass loop with
  a map and parallel lists against a declarative meaning of each identity, with
  process generations found by binary search.
- **The subscriber registry** (`Registry`, `RegistrySnapshot`, `RegistryStore`,
  `BindingIndex`): guarded transactions on two tables with a native writer acting
  between the steps, the order-independent listing, and the one-to-one index that
  fills missing message parties.
- **Presets** (`PresetFile`, `PresetRuns`, `PresetStore`): memory and one file,
  every persistence step fallible, poisoning, the version-1 migration, crashes,
  restarts, and power losses that bring back a file whose replacement was not synced.
- **Radio parameters and configuration** (`RadioParams`, `RadioConfig`, `ConfigExample`): field
  validation, and a guarded batch of updates checked against what it produces.
- **The cell lifecycle** (`Lifecycle`, `LifecycleRuns`, `LifecycleExample`): start with deferred
  rollback, stop, and what holds over every run of them together with concurrent
  message reads. It uses the modelled session and configuration table.

`Common` and `Strings` hold shared vocabulary: lists, Go's string trimming, byte
lengths, decimal values and lexicographic order. Where the code and a specification
use the same function, a lemma says what that function means in other terms.

Failures, cancellation, process observations, native writes and identifiers are
parameters of the methods that meet them. Regular expressions are parameters
(`isRestart`) or inputs (the recognised events), except the field layout of the
structured record, which is concrete. JSON is a `Codec` assumed to read back what
it writes.

## Findings

- A message read can miss records that were logged before it began, without an error.
  `SmsExamples.StraddlingReadSkipsLine` is a read that a whole rotation overtakes between
  its two opens: a record in the middle is skipped. `SmsExamples.HalfRotatedReadLosesTail`
  is one whose second open falls between the rename and the creation of the new file: the
  newest record is not reached. `SmsWindow.MissesExactly` gives the exact condition: an
  answer misses something if and only if the session is still running, it began in the
  file that was the backup at the first open, the file after it was not empty when the
  read began, and a rename fell between the opens. A stopped session never misses
  anything, and the resample is judged by its own two opens.
- Consequently an untruncated answer of a running session may fail to extend an earlier
  one: `SmsExamples.ShrinkingReads` begins a session, lets the collector log two records
  and reads twice; the second read, which a rotation overtakes, lacks the second record.
  `SmsRuns.ReadsGrow` is exact: a later answer covers what an earlier one has shown if and
  only if it was not overtaken or the earlier one had shown nothing beyond the first file
  of the session, and then it extends it.
- A successful start leaves the session `running` if and only if no message read during
  the start ended both of its attempts with the boundary error; otherwise it leaves it
  `boundary_lost` (`Lifecycle.Manager.Start`). `SmsOutcome.BoundaryFails` says for each
  log, schedule and fault pattern when an attempt does, and
  `LifecycleExample.StartWithLostSession` is a successful start that ends so.
- Starting again after the cell has died by itself forgets the handles of the earlier
  children. `LifecycleRuns.ConservedIffTidy` shows that children are accounted for by
  handles in exactly the histories with a stop between any two successful starts, and
  `LifecycleRuns.UntidyRun` gives one without. In `LifecycleExample.RestartForgetsService`
  the forgotten child is a live service. Stop still sweeps such children by name.
- If another process changes the configuration table between the check of a batch and its
  transaction, the batch may leave an invalid configuration
  (`RadioConfig.ForeignWriteBreaksValidity`); it does so exactly if the foreign table with
  the requested values is not valid.

## Model

| member | source | states |
|---|---|---|
| LogFiles.LogDir.AppendLog | internal/logsink/sink.go:142-173 | whichever calls fail, the directory changes only by the listed steps; success is exactly one append with at most one rotation; an oversized record is refused untouched |
| LogFiles.AppendStepsEffect | internal/logsink/sink.go:147-172 | the calls of an error-free append have the effect that the two names are promised to have |
| LogFiles.FileInStream | internal/logsink/sink.go:147-162 | each file's contents are one contiguous piece of everything ever logged |
| LogFiles.StreamGrows | internal/logsink/sink.go:142-173 | under every interleaving of appends and rotations the stream only grows and file bases never move |
| LineWindow.WindowMeaning | internal/gsm/sms_session.go:264-312 | the trimmed answer is one contiguous piece of the span, at most the budget, made of exactly the complete lines that start at or after the cut |
| LineWindow.WindowAgree | internal/gsm/sms_session.go:264-312 | a text that agrees with an earlier one up to the end of its complete lines shows at least these lines |
| SmsCursor.ValidIffSameFile | internal/gsm/sms_session.go:65-77 | on append-only files a cursor validates on exactly the file it was taken from |
| SmsCursor.StartsLineMeans | internal/gsm/sms_session.go:254 | the anchor tells whether a session begins with a whole line: exactly if it begins at the front of its file or behind a newline of it |
| SmsCursor.SoundStable | internal/gsm/sms_session.go:26-77 | a recorded cursor stays valid, at the same place in the stream, whatever the collector does |
| SmsCursor.LinkedBefore | internal/logsink/sink.go:147-162 | a file that has lost both names never gets one back |
| SmsOutcome.OutcomeUnique | internal/gsm/sms_session.go:197-313 | log, schedule and faults determine the one result an attempt may have |
| SmsOutcome.FaultFreeAnswers | internal/gsm/sms_session.go:220-262 | without faults an attempt answers if and only if the files it opens hold the beginning and the end of the window, under every schedule |
| SmsOutcome.CalmCovers | internal/gsm/sms_session.go:205-243 | if nothing is renamed or removed during the opens, that is whether both files still have a name |
| SmsOutcome.AcceptedStable | internal/gsm/sms_session.go:302-312 | an answer stays a correct answer while the log grows |
| SmsSpan.OpenFiles | internal/gsm/sms_session.go:197-219 | the backup and then the active log are opened and measured; it fails exactly if a call that is reached fails |
| SmsSpan.SelectSegments | internal/gsm/sms_session.go:220-246 | the chosen segments run from the start cursor to the end cursor; the choice fails exactly if a boundary is not among the open files or a call that looks for it fails |
| SmsSpan.SpanInStream | internal/gsm/sms_session.go:220-262 | the bytes of the chosen segments are the session's bytes in the stream, but for the files between the first and the last one |
| SmsSpan.PreviousIsCut | internal/gsm/sms_session.go:262-284 | the byte examined in front of the cut, also when it lies in the previous segment, is the byte in front of the cut |
| SmsSpan.CopySegments | internal/gsm/sms_session.go:247-289 | skipping and copying segment by segment gives the line window of their concatenation; `truncated` says whether the budget was exceeded; it fails exactly if a call that is reached fails |
| SmsSpan.ReadSpanOnce | internal/gsm/sms_session.go:197-313 | the result is the one that log, schedule and faults determine: I/O error, boundary error, or the line window of exactly the described part of the stream |
| SmsWindow.ScopeSafe | internal/gsm/sms_session.go:183-313 | every returned byte lies at or after the start position, before the end position, and in append order |
| SmsWindow.ExactWindow | internal/gsm/sms_session.go:220-312 | unless the attempt was overtaken or skipped something, the answer is exactly the bytes of the complete lines, in the log itself, that begin among the last bytes of the session; the first of them counts if it begins at the front of its file or behind a newline; the session reaches at least what had been logged before, and `truncated` holds if and only if it is longer than the budget |
| SmsWindow.QuietExactWindow | internal/gsm/sms_session.go:205-312 | so it is whenever nothing is renamed between the two opens, and for every stopped session |
| SmsWindow.QuietIsWhole | internal/gsm/sms_session.go:205-219 | without a rename between the two opens, or for a stopped session, nothing is skipped and everything logged before is reached |
| SmsWindow.StoppedIsWhole | internal/gsm/sms_session.go:233-243 | a stopped session is read whole under every schedule |
| SmsWindow.MissesExactly | internal/gsm/sms_session.go:187-219 | an answer misses something logged before the attempt began if and only if the attempt was overtaken |
| SmsWindow.ContiguousExactly | internal/gsm/sms_session.go:205-219 | an answer is contiguous if and only if every file between the first and the last one read is empty |
| SmsExamples.StraddlingReadSkipsLine | internal/gsm/sms_session.go:187-219 | what the reader returns when a rotation falls between its opens: the middle record is missing |
| SmsExamples.HalfRotatedReadLosesTail | internal/gsm/sms_session.go:205-214 | what it returns when its second open falls between the rename and the creation: the newest record is missing |
| SmsExamples.BothOvertake | internal/gsm/sms_session.go:205-219 | both schedules meet the exact condition |
| SmsExamples.ShrinkingReads | internal/gsm/sms_session.go:145-175 | what two reads in a row return when a rotation overtakes the second: it does not extend the first |
| SmsExamples.SessionBehindRecords | internal/gsm/sms_session.go:87-175 | what a session answers that began when complete lines had been logged already: everything logged since, from its first byte on, and nothing of what was there before |
| SmsSession.ReadSpan | internal/gsm/sms_session.go:187-196 | a second attempt is made exactly after a boundary error, and the answer is that of the deciding attempt, with its exactness |
| SmsSession.MarkEnd | internal/gsm/sms_session.go:43-63 | the mark is that of the open file, a sound cursor at or after everything logged before the call; it succeeds exactly if the log can be opened and measured |
| SmsSession.SmsManager.BeginSession | internal/gsm/sms_session.go:87-106 | a new session starts at or after the end of the log as it was, exactly if no call fails; a failure leaves the session as it was, though the log may have been created |
| SmsSession.SmsManager.CommitSession | internal/gsm/sms_session.go:107-113 | only a starting session becomes running |
| SmsSession.SmsManager.EndSession | internal/gsm/sms_session.go:115-143 | a live session is stopped at a marked end exactly if its boundary is known and the log can be marked, and is lost otherwise; either way it has ended at the given time, and an ended session is not ended again |
| SmsSession.SmsManager.ClearSession | internal/gsm/sms_session.go:79-85 | afterwards there is no session |
| SmsSession.SmsManager.ReadCurrent | internal/gsm/sms_session.go:145-175 | the answer and the new state in every case: the reply is the one outcome that the deciding attempt may have, and the boundary becomes lost exactly if both attempts end with the boundary error |
| SmsRuns.LostIsFinal | internal/gsm/sms_session.go:145-175 | over every run a lost boundary is left only by a clear or a new begin, and until then reads are empty |
| SmsRuns.StoppedReadsAgree | internal/gsm/sms_session.go:115-175 | a stopped window gives the same bytes for the same budget on every later answered read, whatever is renamed meanwhile |
| SmsRuns.EarlierIsWhole | internal/gsm/sms_session.go:187-219 | an answer that is followed by another one of the same session skipped nothing |
| SmsRuns.ReadsGrow | internal/gsm/sms_session.go:145-175 | a later untruncated answer covers the piece of the stream that an earlier one has shown if and only if it was not overtaken or that piece ends in the first file of the session; then the earlier answer is a prefix of it |
| SmsRuns.CutsGrow | internal/gsm/sms_session.go:145-175 | a later answer covers everything an earlier one has seen if and only if it was not overtaken or the earlier one had not gone beyond the first file |
| SmsRuns.RunScope | internal/gsm/sms_session.go:79-175 | over every run each byte read was logged after the session began and, once ended, before the end was recorded, in order |
| LogRetention.Chunks | internal/logsink/writer.go:84-96 | the chunks are together the argument, all but the last of exactly 16 MiB and the last one not longer nor empty |
| LogRetention.Writer.constructor | internal/logsink/writer.go:20-76 | behind each of the two names are the last bytes, at most 16 MiB, of the file that had the name, and the active one exists; together they are within the retention invariant |
| LogRetention.Writer.Write | internal/logsink/writer.go:78-97 | a successful write appends every chunk in order; a failed one reports exactly the bytes of the chunks stored whole, which the directory has been given; a closed writer changes nothing |
| LogRetention.AppendRetains | internal/logsink/sink.go:142-173 | one append keeps the retention invariant |
| LogRetention.WritesRetain | internal/logsink/writer.go:20-97 | from the directory that the constructor leaves, after any writes of any size both files are within the limit, backup then current is a contiguous end of all bytes since adoption, and it is everything or longer than the limit |
| ProcessLog.ProcessLog.Write | internal/gsm/process_log.go:25-43 | one write, short writes included, is one observation of the accepted bytes, and the ready channel is closed at most once |
| ProcessLog.TailSuffices | internal/gsm/process_log.go:28-41 | looking at the retained tail and the new bytes finds the marker exactly when looking at everything does |
| ProcessLog.StreamingDetection | internal/gsm/process_log.go:25-43 | for every split into writes, seen holds if and only if the whole output contains the marker, and the tail stays shorter than the marker |
| ProcessLog.SeenExactly | internal/gsm/process_log.go:25-43 | readiness is reported exactly if "system ready" occurs in everything written so far |
| CdrTail.FirstSafeCsvBoundary | internal/telephony/telephony.go:250-269 | the scan finds the earliest newline with balanced quotes behind it, if there is one |
| CdrTail.HistoryTail | internal/telephony/telephony.go:135-179 | window, truncation flag and each error case of the tail window |
| CdrTail.BoundariesAreStarts | internal/telephony/telephony.go:250-269 | in a file of quoted records the scan's boundaries are exactly the beginnings of the records after the first |
| CdrTail.ForwardFindsStarts | internal/telephony/telephony.go:250-269 | a forward quote-state parse of the whole file finds the same record beginnings |
| CdrTail.TailKeepsWholeRecords | internal/telephony/telephony.go:154-179 | for every such file and every window, the kept bytes are exactly the records that begin strictly after the cut |
| Utf8.DecodeEncode | compat/patches/0006-smqueue-ucs2-decode.patch:16-59 | decoding undoes encoding, and every encoding is valid |
| Utf8.EncodeDecode | internal/parser/sms.go:175-199 | valid bytes are exactly the encodings of scalar values |
| Utf8.ScalarForm | compat/patches/0006-smqueue-ucs2-decode.patch:45-58 | the encodable values are the code points but the surrogates, and each has the bytes that the table of section 3 of RFC 3629 gives for its range |
| Utf8.ValidMeans | internal/parser/sms.go:186-189 | the test accepts exactly the concatenated encodings of such values |
| SmsText.DecodeUcs2 | compat/patches/0006-smqueue-ucs2-decode.patch:16-59 | the text is the UTF-8 form of the code units behind the header, and exactly the malformed user data is refused |
| SmsText.EmitObservation | compat/patches/0003-smqueue-keyed-sms-observation.patch:9-29 | a record is printed exactly when the four values are within the native caps, as the four named hexadecimal fields |
| SmsText.ParseStructuredSms | internal/parser/sms.go:175-199 | the loop accepts exactly the records whose fields all decode to valid text within the limits and whose key is not empty |
| SmsText.HexForm | compat/patches/0003-smqueue-keyed-sms-observation.patch:9-29 | hexadecimal digits read back to the same bytes |
| SmsText.MatchPrinted | internal/parser/sms.go:175-199 | matching undoes printing for every list of fields |
| SmsText.ObservationRoundTrip | internal/parser/sms.go:175-199 | parsing a printed record gives the same key, text and parties |
| SmsText.EndToEnd | compat/patches/0006-smqueue-ucs2-decode.patch:16-59 | from received user data to parsed text: the text is valid and decodes to exactly the code units |
| SmsWire.SentUnits | compat/patches/0006-smqueue-ucs2-decode.patch:17-42 | whatever code units are sent, each as its high and then its low octet, behind whatever header, they are the ones found in the user data |
| SmsWire.OnlySent | compat/patches/0006-smqueue-ucs2-decode.patch:17-42 | nothing is accepted but a header of the announced length and whole code units, within 140 octets |
| SmsWire.DecodeSent | compat/patches/0006-smqueue-ucs2-decode.patch:16-59 | the decoder on what was sent gives the UTF-8 form of the code units, or refuses it exactly if one of them is a surrogate |
| SmsWire.SentIsRead | compat/patches/0006-smqueue-ucs2-decode.patch:16-59 | from the sender to the application: the code units that were sent are the ones that are read |
| SmsWire.HexAt | compat/patches/0003-smqueue-keyed-sms-observation.patch:19-26 | each octet is printed as two lower-case hexadecimal digits, the high one first |
| SmsWire.PrintedIsLine | compat/patches/0003-smqueue-keyed-sms-observation.patch:16-28 | the record is the tag and the four named fields, in this order, each behind one space |
| SmsWire.MatchMeans | internal/parser/sms.go:29 | the pattern accepts exactly such a line of four tokens without white space, with nothing but white space behind it |
| SmsWire.UnhexMeans | internal/parser/sms.go:186-189 | a token is decoded exactly if it is an even number of hexadecimal digits of either case, and each octet is the value of its two digits |
| SmsWire.StructuredMeans | internal/parser/sms.go:175-199 | a message is a structured record exactly if it is such a line whose tokens, within their caps, carry valid text, the first one not empty; then it is built from these four texts |
| SmsWire.BuildMeans | internal/parser/sms.go:195-198 | the first text is the key, the second party is who sent and the third who receives, as identity or number, and the fourth is the message |
| SmsRecord.PartyMeans | internal/parser/sms.go:383-400 | an identity is "IMSI" and fifteen digits, a number two to fifteen digits behind an optional plus sign, and nothing is both |
| LogMerge.SortSpec | internal/parser/sms.go:50-56 | the sort orders by position, loses nothing and keeps the order of equal positions |
| LogMerge.FirstMeaning | internal/parser/sms.go:402-431 | the part chosen for a group is the first non-empty one |
| LogMerge.IdentitiesMeaning | internal/parser/sms.go:50-77 | each identity once, in the order of first appearance |
| LogMerge.MessageGrows | internal/parser/sms.go:402-431 | merging one more candidate changes the meaning of the group just as the loop changes its entry |
| LogMerge.MessageMeans | internal/parser/sms.go:402-431 | in terms of the sorted candidates of an identity: the first structured one decides every part but the time, which is the first one known up to it; without one, each part is the first one known |
| LogMerge.MessageUnique | internal/parser/sms.go:402-431 | the candidates of an identity say one message only |
| LogMerge.MergeCandidates | internal/parser/sms.go:50-77 | the loop outputs one message per identity, in order of first appearance, and each is what the candidates of its identity say, part by part |
| LogGenerations.RestartPositions | internal/parser/sms.go:353-373 | exactly the offsets of the restart lines, ascending |
| LogGenerations.GenerationAt | internal/parser/sms.go:375-377 | binary search counts the restarts at or before the event |
| LogGenerations.SameGeneration | internal/parser/sms.go:375-377 | two events share a generation if and only if no restart lies between them |
| LogGenerations.ScopedIdentityInjective | internal/parser/sms.go:379-381 | identities are equal exactly for equal generation and queue tag |
| LogGenerations.MergedIff | internal/parser/sms.go:353-381 | two events are merged exactly if they share a queue tag and no restart separates them |
| LogGenerations.ParseSmqueueLog | internal/parser/sms.go:50-77 | the whole parse, from recognised events to one message per scoped identity, each what the events of its identity say |
| Registry.Database.BindTransaction | internal/subscriber/store.go:153-177 | it succeeds exactly under the three guards if none of its eight statements fails, and then applies the binding; failure leaves both tables unchanged, and the later change counts cannot fail |
| Registry.Database.UnbindTransaction | internal/subscriber/store.go:203-216 | the same for releasing a number |
| Registry.BoundMeans | internal/subscriber/store.go:165-168 | a binding changes the rows of its identity in place and no other row, and adds a dial row exactly if the identity has none |
| Registry.UnboundMeans | internal/subscriber/store.go:209-211 | a release clears the number in the rows of its identity and changes nothing else |
| Registry.CountDialMeans | internal/subscriber/store.go:160 | the count is zero exactly if no row names the identity, and at most one exactly if no two rows do |
| Registry.BindKeepsOwnership | internal/subscriber/store.go:153-177 | a guarded bind keeps every number with one identity |
| Registry.UnbindKeepsOwnership | internal/subscriber/store.go:203-216 | so does an unbind |
| Registry.OwnershipInvariant | internal/subscriber/store.go:138-224 | ownership holds after every run of binds, unbinds and ownership-preserving native writes |
| Registry.ConflictBreaksOwnership | internal/subscriber/store.go:161-164 | without the conflict guard a bind would break ownership |
| RegistrySnapshot.SubscribersFromSnapshot | internal/subscriber/store.go:88-136 | success if and only if the rows are well formed, no identity repeats in a table and every dial row has a SIP row; the list is sorted and each entry follows from its own rows |
| RegistrySnapshot.ItemMeans | internal/subscriber/store.go:123-136 | with a dial row, a subscriber has the stripped extension as its number, none if that is empty, and is consistent exactly if its stripped caller ID is the same text |
| RegistrySnapshot.ItemWithoutDial | internal/subscriber/store.go:123-136 | without a dial row it has no number and is consistent exactly if its caller ID is blank |
| Strings.TrimMeans | internal/subscriber/store.go:124-125 | the trimmed text is the one that neither begins nor ends with white space and from which the whole text differs only by white space at its ends |
| Strings.LessIsByteOrder | internal/subscriber/store.go:109-113 | the order of the listing is the order of the UTF-8 bytes |
| RegistrySnapshot.SnapshotUnique | internal/subscriber/store.go:88-136 | the rows admit one verdict and one list |
| RegistrySnapshot.OrderIndependent | internal/subscriber/store.go:88-136 | every permutation of the rows gives the same verdict and list |
| RegistryStore.Get | internal/subscriber/store.go:62-87 | the lookup of one identity is the listing of its rows, or the right error, and never names another identity |
| RegistryStore.RowsMean | internal/subscriber/store.go:67-71 | the rows read for an identity are exactly its SIP rows, with an empty text for a missing caller ID, and its dial rows |
| RegistryStore.FoundMeans | internal/subscriber/store.go:62-136 | what a subscriber that was found says about the two tables: its number and whether its two rows agree |
| RegistryStore.FoundWithoutDial | internal/subscriber/store.go:62-136 | the same for an identity without a dial row |
| RegistryStore.StateErrorMeans | internal/subscriber/store.go:145-153 | not found without a SIP row, inconsistent with a repeated row, in use if another identity has the number, and fine otherwise |
| RegistryStore.Bind | internal/subscriber/store.go:138-194 | with native writes between any two steps, ownership is kept and nothing but a guarded binding is added; it succeeds exactly if it committed and the final tables read back as the binding, an early error is true of the tables at that moment, and undisturbed the answer is the first applicable error or the new binding |
| RegistryStore.Unbind | internal/subscriber/store.go:196-224 | the same for releasing a number; undisturbed, not found without rows, inconsistent with duplicates or an orphan, and otherwise the released subscriber |
| RegistryStore.ReadableExactly | internal/subscriber/store.go:62-136 | an identity can be read if and only if it has one SIP row and at most one dial row; otherwise it is not found or inconsistent |
| RegistryStore.BindThenGet | internal/subscriber/store.go:178-194 | a binding reads back as that number, consistently |
| RegistryStore.UnbindThenGet | internal/subscriber/store.go:217-224 | a release reads back as no number, consistently |
| BindingIndex.NewBindingIndex | internal/api/v1.go:556-575 | the index binds exactly the consistent, non-empty, non-service entries that share neither identity nor number with another |
| BindingIndex.ServiceCodeMeans | internal/api/v1.go:577-584 | the seven service codes, with or without a plus sign, and nothing else |
| BindingIndex.MutuallyInverse | internal/api/v1.go:551-575 | the two maps undo each other |
| BindingIndex.IndexUnique | internal/api/v1.go:556-575 | every order of the subscribers gives the same index |
| BindingIndex.CountsMeanOneToOne | internal/api/v1.go:557-571 | both counters are one exactly for the one-to-one entries |
| BindingIndex.ResolveParty | internal/api/v1.go:610-624 | at most the missing side is filled, exactly when the registry binds the observed side, and the label says so |
| BindingIndex.Message.Resolve | internal/api/v1.go:588-608 | both parties resolved and all four fields labelled, independently of each other |
| BindingIndex.LabelNames | internal/api/v1.go:588-608 | the names of the four labels and of their three values |
| BindingIndex.ObservedWins | internal/api/v1.go:586-608 | an observed value is never changed, one side at most is filled, and a field is labelled as a current binding exactly if it was filled (for the identity: in a registry without empty identities) |
| BindingIndex.ListedAreNamed | internal/subscriber/store.go:88-136 | a listing has no empty identities |
| RadioParams.ValidateDetailed | internal/gsm/gsm.go:42-95 | the issues name exactly the unacceptable fields, in order, each with its reason; there are none if and only if the parameters are valid |
| RadioParams.ValidMeans | internal/gsm/gsm.go:42-135 | which parameters are valid, in full: the channel ranges of both bands, the lengths and ranges of the codes, and the alphabets of the names |
| RadioParams.ReasonsMean | internal/gsm/gsm.go:45-93 | which reason is given: blank comes first, then anything but digits, then the range |
| Strings.ValueMeans | internal/gsm/gsm.go:57 | decimal digits have the value they denote, the most significant one first |
| RadioConfig.UpdateIsOverride | internal/gsm/db.go:93-99 | updating the rows and overriding the map of the rows agree for every reader |
| RadioConfig.RebuiltAfter | internal/gsm/db.go:93-110 | what a reader sees after the batch is what was validated before it |
| RadioConfig.RebuiltMeans | internal/gsm/db.go:93-102 | the row of each parameter; a missing one reads as empty |
| RadioConfig.RowMapMeans | internal/gsm/db.go:93-96 | of several rows with one key the last one counts |
| RadioConfig.RadioKeyMeans | internal/gsm/db.go:18-22 | the eight keys that may be changed |
| RadioConfig.UpdatedRows | internal/gsm/db.go:118-128 | a batch gives each row the last of its updates and leaves every other row as it was, in place |
| RadioConfig.ConfigTable.UpdateTransaction | internal/gsm/db.go:118-130 | it succeeds exactly if each requested key has one row and no statement fails, and then changes exactly the requested keys; any failure leaves the table unchanged |
| RadioConfig.ConfigTable.UpdateConfig | internal/gsm/db.go:72-111 | accepted exactly when the cell is stopped, the resulting configuration is valid as a whole, each key has one row and no statement fails; then a reader sees a valid configuration, unless the table has been changed meanwhile, for which the exact condition is given |
| RadioConfig.ForeignWriteBreaksValidity | internal/gsm/db.go:89-110 | an accepted batch that a foreign write makes invalid |
| ConfigExample.BandChangedMeanwhile | internal/gsm/db.go:89-110 | the same with two built-in configurations |
| RadioConfig.ConfigTable.ApplyConfig | internal/gsm/db.go:36-52 | it succeeds exactly if each of the eight settings has one row and no statement fails; then each named row carries its own parameter, a reader sees exactly the eight given parameters, and no other row changes |
| PresetFile.DefaultsAreValid | internal/gsm/preset_defaults.go:6-25 | the built-in presets are valid and have distinct IDs |
| PresetFile.ParsedIsWellFormed | internal/gsm/presets.go:256-268 | whatever loads has keys equal to IDs, valid items and at most 256 of them |
| PresetFile.ParseMeans | internal/gsm/presets.go:185-264 | which files load, in full, and as what: each item of the document under its own ID and nothing else |
| PresetFile.PresetMeans | internal/gsm/presets.go:66-82 | which presets are valid, in full: the alphabet of IDs, the lengths in UTF-8 bytes, a name that is not blank, and valid parameters |
| PresetFile.DefaultTable | internal/gsm/preset_defaults.go:6-25 | the five built-in presets, field by field |
| PresetFile.ImageLoads | internal/gsm/presets.go:334-346 | what persist writes loads as the same items and is never migrated |
| PresetRuns.StepMeans | internal/gsm/presets.go:113-175 | every step keeps a working store in agreement with its file and changes the file's meaning by exactly the committed edit |
| PresetRuns.RunMeaning | internal/gsm/presets.go:57-175 | after any run with failures, crashes, restarts and power losses, the file and the files that may come back mean exactly what the history says |
| PresetRuns.RunLogs | internal/gsm/presets.go:57-175 | unless a power loss undoes a replacement, the file means the initial items with exactly the committed edits |
| PresetRuns.UntouchedFile | internal/gsm/presets.go:46-48 | a file that was not understood, or that a migration would overfill, is never touched |
| PresetRuns.LaunchShowsLog | internal/gsm/presets.go:185-282 | a working store shows exactly the last committed map |
| PresetRuns.EditSurvives | internal/gsm/presets.go:334-393 | an acknowledged edit survives failures, crashes, restarts and power losses until its ID is edited again |
| PresetRuns.DeletedStaysDeleted | internal/gsm/preset_defaults.go:3-6 | a deleted preset, built-in or not, never returns unless it is created again |
| PresetRuns.UnsyncedMayBeUndone | internal/gsm/presets.go:386-391 | an edit that was not synced may be taken back by a power loss, and its store is poisoned |
| PresetRuns.PoisonedIsSilent | internal/gsm/presets.go:46-48 | until the process is restarted a poisoned store changes neither memory nor file |
| PresetRuns.MigrationAddsOnlyMissing | internal/gsm/presets.go:265-281 | a committed migration shows and writes every own item and every built-in preset whose ID is missing, and nothing else; it leaves the file untouched exactly if these would be more than 256 |
| PresetRuns.FirstLaunch | internal/gsm/presets.go:187-196 | without a file a committed launch shows and writes exactly the five built-in presets |
| PresetStore.PresetStore.constructor | internal/gsm/presets.go:57-64 | construction is one launch step, and works whenever nothing stands in its way |
| PresetStore.PresetStore.Load | internal/gsm/presets.go:185-282 | initialization, migration and loading of the file, with every failure poisoning the store |
| PresetStore.PresetStore.Persist | internal/gsm/presets.go:334-393 | the file is replaced completely or not at all; failure after the rename poisons; up to five failed renames do no harm |
| PresetStore.PresetStore.Create | internal/gsm/presets.go:113-135 | one step of the state machine; exactly a valid new preset with room for it is added, an error leaves the items as they were, and each refusal has its own error |
| PresetStore.PresetStore.Update | internal/gsm/presets.go:137-157 | one step; exactly a valid replacement of an existing preset replaces it, and an error leaves the items as they were |
| PresetStore.PresetStore.Delete | internal/gsm/presets.go:159-175 | one step; exactly an existing preset is removed, and an error leaves the items as they were |
| Lifecycle.Manager.StopReverse | internal/gsm/manager.go:590-594 | children are stopped in the reverse order of their launch |
| Lifecycle.Manager.Start | internal/gsm/manager.go:180-320 | it succeeds exactly if it is not refused by validation, cancellation or a running cell and no step that is reached fails; refused, it leaves everything untouched; any later failure stops exactly what this attempt has launched, a prefix of what was to be launched, in reverse and leaves no session; success has launched exactly the missing services in their order and then OpenBTS, holds exactly these, shows the applied parameters, and leaves the session running exactly if no concurrent read lost it |
| Lifecycle.Manager.Interfere | internal/gsm/sms_session.go:145-175 | concurrent reads change nothing but the state of a session, and that exactly if one of them ends both attempts with the boundary error |
| Lifecycle.CalmReadsLose | internal/gsm/sms_session.go:187-243 | calm and fault-free reads lose a session exactly if its first file has been rotated away when one of them begins |
| Lifecycle.Manager.StopCell | internal/gsm/manager.go:322-358 | every held child is stopped, the services last launched first and then OpenBTS, and the five programs are swept in their order; the session ends at the given time exactly if the shutdown was verified, stopped or lost under an exact condition |
| LifecycleExample.StartWithLostSession | internal/gsm/manager.go:312-320 | a successful start whose session a concurrent read has lost |
| LifecycleExample.LostWithDefaultPreset | internal/gsm/preset_defaults.go:6-13 | the same with a built-in preset |
| LifecycleExample.RestartForgetsService | internal/gsm/manager.go:236-318 | two starts after which a service launched by the first is neither stopped nor held |
| LifecycleRuns.SessionFollows | internal/gsm/manager.go:180-358 | over every run of starts, stops and reads the session is the one the history calls for: none, running, stopped or lost |
| LifecycleRuns.ChildrenBalanced | internal/gsm/manager.go:180-358 | no child is stopped twice or before its launch, and a handle is to a child not yet stopped |
| LifecycleRuns.ChildrenConserved | internal/gsm/manager.go:314-358 | the launched children are those stopped and those held, in every run without a forgetting start |
| LifecycleRuns.HandlesFollow | internal/gsm/manager.go:314-358 | handles are held exactly if the last start or stop was a start |
| LifecycleRuns.ConservedIffTidy | internal/gsm/manager.go:314-318 | that condition is exact |
| LifecycleRuns.UntidyRun | internal/gsm/manager.go:314-318 | a run that meets the other case |

## Left out

- HTTP routing, envelopes, authentication, origin checks and the web console: transport and presentation.
- Process execution, signals, process listing, iptables, device detection and the sqlite3 command line: foreign calls, of which only outcomes are parameters.
- Reuse of file identities by the operating system, and truncation or rewriting of logs by others: the anchor comparison is a heuristic there, so files are append-only and identities fresh.
- SmsWindow.ExactWindow: says nothing about overtaken reads, because the examples show that they may miss records; they are scope-safe, and what they miss is described exactly.
- PresetFile.ImageLoads: assumes a codec that reads back what it writes; JSON syntax, duplicate names and invalid UTF-8 in preset names are inside that assumption.
- LogGenerations.ParseSmqueueLog: takes the events that the two scanners recognise as inputs, because they are regular expressions over native log lines; the choice of a decoded text for a delivery and the scraping of SIP headers are not modelled.
- LogRetention.Writer.constructor: does not model I/O errors while an existing log is capped.
- RadioParams.ValidateDetailed: the reason for an illegal short-name character does not quote the character.
- RadioConfig.ConfigTable.UpdateConfig: with a foreign write between the check and the transaction, the result is described but need not be valid, as `RadioConfig.ForeignWriteBreaksValidity` shows.
- Lifecycle.Manager.Start: process liveness is an input at each check, so it is not proved that a stopped child is dead; pid files and the clearing of TMSIs have no modelled effect.
- RegistryStore.Bind: the projection into the TMSI cache, which is reported but never authoritative.
- The receive loop of the log collector, its socket, and the choice of a log file by tag.
- The single-item and listing reads of presets, profile files, time zones and timestamp formats, call-record fields, SGSN and TMSI text.
- Release, registry, publication and deployment scripts, configuration loading, and the other compatibility patches.
