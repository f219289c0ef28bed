# CrossTrace: verified model

CrossTrace validates signed handoffs that arrive over a faulty network, rebuilds the chain of
delegations that ends in one action, and lets a local gate issue a permit that can be used once.
This project models that logic in Dafny and proves what it promises, for every input and every run.

The pieces, bottom up:

- **Canonical text** (`CanonicalText`, `CanonicalJson`, `CanonicalShape`, `CanonicalGrammar`,
  `CanonicalReading`): the canonical JSON profile, its printer and what a print looks like, its strict
  parser, the grammar of RFC 8259 that the parser accepts exactly, and the domain-separated bytes
  under every identifier.
- **Delivery** (`Sorting`, `Partitions`, `Schedule`, `Compile`, `Projection`): partition release,
  the evaluator's schedule, and what one store has received by a cutoff.
- **Evidence validator** (`ParentGraph`, `Relation`, `Sequence`, `Endpoint`, `Receipts`,
  `Validation`, `Uniqueness`, `Encoding`): cycles in the parent graph, the memoised parent relation,
  equivocation, and the three encodings SL, CR and PR of the same handoffs. `Admission`, `Emission`,
  `CleanEvidence` and `Reporting` say what it does in the fields of the messages: which messages count,
  which views are emitted, when nothing is reported, and what each reported issue means.
- **Permit store** (`PermitStore`, `PermitRuns`): the transactions in place on a class, and whole
  runs of them by any number of callers. Transactions are serialised, so an interleaving is a
  sequence of calls.
- **Gate** (`ChainWalk`, `Gate`, `GateLaws`, `PauseLaws`, `AllowConsequences`, `Prepare`, `GateRuns`):
  preparing an input, evaluating it, reserving and consuming a permit; what ALLOW and what each reason
  of a PAUSE mean.
- **Chain assembly and driver** (`StrictChain`, `Harness`): the strict chain of a set of views, and
  the attempt loop.
- **Across the pieces** (`SelfReceipts`, `Authenticity`, `Invariance`, `EndToEnd`): when evidence makes
  validation raise, who signed what an allowed use rests on, what the gate can tell about the encoding
  of its evidence, and from slots to verdict.

`Common` and `Model` hold the shared values. Instants are integers, identifiers are naturals
(only their equality and order are used). A content identifier is a free term over its label and
content, and a signature a free term over key and content; that the *bytes* behind an identifier
determine label and content is proved in `CanonicalJson`. Code that works by loops and updates is
written as methods with loops, or as a class, and each is proved against a specification function;
the laws are then proved of the specification. Loops over sets and dictionaries are proved for
whatever enumeration order. A lemma whose name ends in `Meaning`, `Judged` or `Iff` says what a
function of the model decides in the fields of its arguments, with none of the tests that the code runs.

Places where code and intent differ, or where the code does more than it needs:

- A PR receipt may name one principal as both sender and receiver: the receipt parser accepts it,
  and building the neutral handoff then raises out of validation instead of being reported as an
  issue. `SelfReceipts.ReceiptToOneselfRaises` gives such an input. `SelfReceipts.RaisesIffSelfReceipt`
  says for which views it happens: exactly those with an admitted receipt to oneself that no other
  admitted receipt opposes and whose parent reference, if any, names such an unopposed receipt.
- Compiling can fail on inputs that pass every test of their own: a partition window accepts a name of
  up to 128 characters, but its fault tag adds a prefix of ten and is held to the same bound, and a
  delay can carry a delivery past the last instant of the calendar. `Compile.CompileSchedule` succeeds
  if and only if neither happens (`Compiles`), `Compile.LongPartitionNameFails` and
  `Compile.LateDeliveryFails` give such inputs, and `Compile.RoomyInputsCompile` is a condition that a
  caller can check beforehand.
- The gate's structural findings, its "expiry already past" branch and its bare internal-error
  branch cannot be reached; see `Prepare.StructureIsSettled` and `PauseLaws.PauseListsTheFaults`.
- Of the tests a schedule runs on itself, the final recompilation decides alone; see
  `Compile.RecompilationSettles`.

## Model

| member | source | states |
|---|---|---|
| CanonicalJson.RoundTrip | src/crosstrace_sketch/protocol.py:110-144 | strict parsing returns every profile value that was printed, whatever its nesting |
| CanonicalJson.PrintIsInjective | src/crosstrace_sketch/protocol.py:110-125 | two values of the profile that print alike are equal |
| CanonicalJson.DecodesExactlyThePrinted | preaward/crosstrace_sprint1/delivery.py:185-197 | the canonical decoder accepts a text exactly when it is the print of an object, and returns that object |
| CanonicalJson.DomainBytesAreInjective | src/crosstrace_sketch/protocol.py:147-154 | equal hash inputs come from equal labels and equal values, even for labels that contain the separator; an input is the fixed prefix, the label and the print, with a zero character after the first two |
| CanonicalReading.LoadsExactlySpellings | src/crosstrace_sketch/protocol.py:128-144 | strict loading accepts a text as a value if and only if the text spells that value in the JSON grammar, no object repeats a key, every integer in it lies within 2^53 - 1 of zero and every character is printable ASCII; a spelling of a value outside those bounds is refused as outside the profile |
| CanonicalReading.TreeRead | src/crosstrace_sketch/protocol.py:139-144 | the parser reads back every concrete syntax tree, whatever its spaces and escapes |
| CanonicalReading.TreeOf | src/crosstrace_sketch/protocol.py:139-144 | whatever profile value the parser reads was written as a concrete syntax tree of it |
| CanonicalJson.FillObject | src/crosstrace_sketch/protocol.py:131-137 | the pair hook's loop is the specification `ObjectPairs` |
| CanonicalJson.PairsMeaning | src/crosstrace_sketch/protocol.py:131-137 | pairs make an object if and only if no key repeats, and then the object holds exactly the pairs |
| CanonicalJson.PrintIsPrintable | src/crosstrace_sketch/protocol.py:92-95 | a print holds printable ASCII only, so no separator byte |
| CanonicalText.QuotedRoundTrip | src/crosstrace_sketch/protocol.py:119-125 | reading a quoted string back gives the string and exactly the text after it |
| CanonicalText.SortedTextsAscend | src/crosstrace_sketch/protocol.py:119-125 | of any two keys enumerated, they agree up to a place where the earlier one has ended or has the smaller character |
| CanonicalShape.PrintedObject | src/crosstrace_sketch/protocol.py:119-125 | an object prints as a brace, its fields in the ascending order of their keys with one comma between neighbours, each the quoted key, a colon and the printed value, and a brace, and nothing else |
| CanonicalShape.PrintedValue | src/crosstrace_sketch/protocol.py:119-125 | how words, signed numerals, quoted texts and comma-joined lists print |
| CanonicalText.EscapeMeaning | src/crosstrace_sketch/protocol.py:119-125 | quoting puts a backslash before each quote and backslash and changes nothing else |
| CanonicalText.NumeralMeaning | src/crosstrace_sketch/protocol.py:119-125 | a numeral is the decimal digits of the number with no idle zero in front |
| CanonicalShape.CanonicalMeaning | src/crosstrace_sketch/protocol.py:83-107 | a value is in the profile if and only if every integer, text, key and number anywhere inside it is |
| Partitions.PartitionRelease | preaward/crosstrace_sprint1/delivery.py:1493-1505 | the bounded loop always converges, with the release instant and the tags of the partitions met |
| Partitions.ReleaseIsFirstOpen | preaward/crosstrace_sprint1/delivery.py:1498-1504 | the release is the least instant at or after the candidate at which no window of the route has begun and not ended, and the only one |
| Partitions.JumpsAreFew | preaward/crosstrace_sprint1/delivery.py:1499-1505 | there are at most as many jumps as distinct windows |
| Partitions.ReleaseIsMonotone | preaward/crosstrace_sprint1/delivery.py:1493-1505 | a later candidate is never released earlier |
| Partitions.ReleaseSeesRouteOnly | preaward/crosstrace_sprint1/delivery.py:441-446 | origin and destination are all of the message that matters |
| Partitions.TagsHeldTheMessage | preaward/crosstrace_sprint1/delivery.py:1503-1504 | a partition is tagged only if a window of it held the route at an instant before the release |
| Partitions.ReleaseStops | preaward/crosstrace_sprint1/delivery.py:1498-1504 | the message stops at the candidate and then at the latest end of the windows that hold it, until none does; the partitions tagged are exactly those that hold it at a stop |
| Partitions.StopsUnique | preaward/crosstrace_sprint1/delivery.py:1498-1504 | there is only one such sequence of stops |
| Schedule.DecideCopy | preaward/crosstrace_sprint1/delivery.py:1546-1588 | disposition, delay and causes of one copy, withholding before override before the draws |
| Schedule.WriteCopy | preaward/crosstrace_sprint1/delivery.py:1589-1612 | release and tags of one copy; it fails exactly if the delivery is past the last instant or a tag is too long, with the first of the two |
| Schedule.ScheduleCopy | preaward/crosstrace_sprint1/delivery.py:1546-1612 | the whole outcome of one copy, or the reason it cannot be written |
| Schedule.BuildCopies | preaward/crosstrace_sprint1/delivery.py:1534-1612 | adds every due copy of one message in order, or reports the first that cannot be written |
| Schedule.BuildTransmissions | preaward/crosstrace_sprint1/delivery.py:1508-1613 | every due copy of every message in order, or the first problem: with the inputs, or else with a copy that cannot be written |
| Schedule.TransmissionsAreTheCopies | preaward/crosstrace_sprint1/delivery.py:1534-1612 | a transmission is built if and only if it is the outcome of a due copy of one of the messages |
| Schedule.TransmissionsAreDistinct | preaward/crosstrace_sprint1/delivery.py:649-653 | no two transmissions share an identifier |
| Schedule.CopiesMeaning | preaward/crosstrace_sprint1/delivery.py:1536-1545 | a copy is due if it is below the drawn count or an override names it or a later copy of its slot |
| Schedule.AtMostEightCopies | preaward/crosstrace_sprint1/delivery.py:1538-1545 | every message has between one and eight copies |
| Schedule.OutcomeMeaning | preaward/crosstrace_sprint1/delivery.py:1545-1612 | of one copy: withholding before the override, the override before the loss draw; arrival at the last stop after sending plus the override's delay or else the least delay plus the reduced hash; each tag if and only if its cause |
| Schedule.CopyCountMeaning | preaward/crosstrace_sprint1/delivery.py:1535-1543 | a copy is due below the drawn number, which is two exactly if the hash modulo one million is below the duplicate rate, or up to the highest an override of its slot names |
| Schedule.OverrideProblemMeaning | preaward/crosstrace_sprint1/delivery.py:1516-1530 | the first override that names an unknown slot or a copy named before decides the error |
| Compile.CompileSchedule | preaward/crosstrace_sprint1/delivery.py:1616-1661 | succeeds, with the sorted plan, if and only if the inputs are compilable and every copy can be written; a repeated message and otherwise the first problem of building are the errors; the schedule's own recompilation check never fails, and the plan is sound |
| Compile.MakePlan | preaward/crosstrace_sprint1/delivery.py:1333-1401 | a schedule object can be built if and only if its inputs compile, every copy can be written, and its transmissions are, in any order, the compiled ones |
| Compile.RoomyInputsCompile | preaward/crosstrace_sprint1/delivery.py:1589-1610 | if no partition's name is too long for a tag and nothing is sent within a year of the last instant, only the tests on the inputs decide |
| Compile.LongPartitionNameFails | preaward/crosstrace_sprint1/delivery.py:690-692 | valid inputs with a partition name of 119 to 128 characters that do not compile |
| Compile.LateDeliveryFails | preaward/crosstrace_sprint1/delivery.py:1589-1594 | valid inputs with a delivery one second past the last instant that do not compile |
| Compile.CompiledPlansAreSound | preaward/crosstrace_sprint1/delivery.py:1616-1661 | a compiled plan holds its transmissions in strictly ascending order of identifier, and each delivered one has an instant, which is what every projection asks of a plan |
| Compile.RecompilationSettles | preaward/crosstrace_sprint1/delivery.py:1371-1398 | the compiled transmissions pass every other test, and only they pass the recompilation |
| Compile.CompileForgetsOrder | preaward/crosstrace_sprint1/delivery.py:1616-1661 | permuting messages and overrides changes neither whether the inputs compile nor the plan |
| Compile.PlanLaws | preaward/crosstrace_sprint1/delivery.py:1534-1545 | the copies planned of a message are numbered exactly 0 to n-1, with n between one and eight |
| Compile.PlanIsRight | preaward/crosstrace_sprint1/delivery.py:1534-1612 | a transmission is in the plan if and only if it is the record of a due copy of a message whose disposition, arrival and tags are what the policy, the copy's own override and the seeded hash make of it, in their fields |
| Compile.PlanOrder | preaward/crosstrace_sprint1/delivery.py:1616-1661 | the plan keeps exactly its inputs and is strictly ascending in slots, in override slots and copies, and in transmission identifiers |
| Compile.CompilesMeaning | preaward/crosstrace_sprint1/delivery.py:1508-1661 | compiling succeeds if and only if slots and override copies do not repeat, every override and withheld slot is in use, and no due copy arrives past the last instant or meets a partition whose name is longer than 118 characters |
| Compile.ContentsDoNotMatter | preaward/crosstrace_sprint1/delivery.py:1508-1661 | changing payloads and kinds changes neither success nor the fate of any copy |
| Projection.DeliveredForStore | preaward/crosstrace_sprint1/delivery.py:1664-1698 | the filter loop and sort equal the specified projection |
| Projection.ProjectAudit | preaward/crosstrace_sprint1/delivery.py:1729-1764 | projecting a compiled plan for an audit store never fails the observation's checks |
| Projection.ProjectLocal | preaward/crosstrace_sprint1/delivery.py:1701-1726 | projecting a compiled plan for a local store fails only if the permit state is another store's or another instant's |
| Projection.MakeObservation | preaward/crosstrace_sprint1/delivery.py:1232-1246 | an audit observation is accepted if and only if its deliveries are distinct, of its store, and not in the future |
| Projection.MakeLocalObservation | preaward/crosstrace_sprint1/delivery.py:1100-1125 | a local observation also needs the permit state of its own permit store, captured at its own instant |
| Projection.ArrivesAtOneStore | preaward/crosstrace_sprint1/delivery.py:1673-1681 | a transmission appears in a store's projection exactly if it was delivered by the cutoff and that store is its destination |
| Projection.ProjectionMeaning | preaward/crosstrace_sprint1/delivery.py:1664-1698 | what a store is shown is exactly what was delivered to it by the cutoff, in the order of arrival instant and then identifier |
| Projection.ProjectionsGrow | preaward/crosstrace_sprint1/delivery.py:1664-1698 | the earlier projection and its deduplicated evidence are prefixes of the later ones |
| Projection.UniqueEvidence | preaward/crosstrace_sprint1/delivery.py:1175-1182 | the deduplication loop equals its specification |
| Projection.EvidenceIsFirstCopies | preaward/crosstrace_sprint1/delivery.py:1175-1182 | a delivery is kept if and only if no earlier one carried the same message |
| Projection.EvidenceKeepsEveryMessage | preaward/crosstrace_sprint1/delivery.py:1175-1182 | no delivered message is dropped |
| Projection.EvidenceIsOncePerMessage | preaward/crosstrace_sprint1/delivery.py:1175-1182 | no message is kept twice |
| ParentGraph.CycleNodes | preaward/crosstrace_sprint2/validation.py:1010-1031 | returns exactly the interactions that reach themselves by parent steps, for any start order, walking each node at most once |
| Relation.RelationFailure | preaward/crosstrace_sprint2/validation.py:1047-1094 | terminates on every candidate graph and returns the recursive definition of relation failure whatever was memoised before |
| Relation.EmitValidated | preaward/crosstrace_sprint2/validation.py:1034-1130 | emits exactly the candidates without a failure and reports exactly the failures of the others |
| Relation.EmittedIffRooted | preaward/crosstrace_sprint2/validation.py:1047-1094 | a candidate is emitted if and only if a path leads to it from a parentless delegation on which every parent is an accepted delegation, decided by the child's creation plus the skew, to the child's sender |
| Relation.EmittedClosed | preaward/crosstrace_sprint2/validation.py:1096-1130 | emission is closed under parents, and every emitted non-root hangs from an emitted, accepted delegation |
| Relation.FailureMeaning | preaward/crosstrace_sprint2/validation.py:1047-1094 | which failure a candidate is reported with, in the order of the tests: cycle, missing or invalid parent, parent not emitted or no accepted delegation, late, or from another party |
| Sequence.FindConflicts | preaward/crosstrace_sprint2/validation.py:487-505 | finds exactly the interactions that share a sender sequence slot with another |
| Endpoint.ValidateEndpointMessages | preaward/crosstrace_sprint2/validation.py:342-597 | candidates, tainted and seen interactions and issues are functions of the set of messages |
| Endpoint.Select | preaward/crosstrace_sprint2/validation.py:512-595 | pairing the records of one interaction equals its specification |
| Endpoint.CandidatesKeyed | preaward/crosstrace_sprint2/validation.py:570-595 | every candidate is filed under its own interaction |
| Receipts.ValidateReceiptMessages | preaward/crosstrace_sprint2/validation.py:754-1007 | the same for receipts; it raises if and only if an unopposed, linked receipt in view names one principal as both endpoints |
| Receipts.InverseResolves | preaward/crosstrace_sprint2/validation.py:945-975 | the receipt-to-interaction index finds the parent that was selected, and no other |
| Receipts.CandidatesKeyed | preaward/crosstrace_sprint2/validation.py:976-1007 | every candidate is filed under its own interaction |
| Receipts.RaisesExactly | preaward/crosstrace_sprint2/model.py:233-234 | some linked candidate is no valid handoff if and only if a receipt in view is to oneself, unopposed, and linked to an unopposed parent or none |
| Receipts.SelectedIsUnopposed | preaward/crosstrace_sprint2/validation.py:916-943 | a receipt is selected if and only if every other admitted message leaves its interaction and its sender slot alone |
| Admission.RecordJudged | preaward/crosstrace_sprint2/validation.py:355-463 | an endpoint message meets exactly the verdict of the first test it fails: form, registered signer, the holder's signature over the body, the holder's store, profile, sending time, cutoff; and counts if it fails none |
| Admission.ReceiptJudged | preaward/crosstrace_sprint2/validation.py:754-888 | the same for a receipt: form, both registered signers, the sender's signature over the proposal and the receiver's over that signature and its answer, exactly one of the two stores, nonce, sending time, cutoff |
| Emission.RecordCandidateIff | preaward/crosstrace_sprint2/validation.py:485-595 | a candidate of SL or CR is one sender's and one receiver's record of one handoff, in CR the second naming the digest of the first, with no other record of the interaction, no other interaction in the sender's slot and nothing out of profile against it |
| Emission.ReceiptCandidateIff | preaward/crosstrace_sprint2/validation.py:889-1007 | a candidate of PR is one receipt, alone in its interaction and its sender's slot, whose parent reference is none or the digest of another such receipt |
| Emission.ViewIffSupportedLine | preaward/crosstrace_sprint2/validation.py:1133-1200 | a view is emitted if and only if all handoff evidence is of the one representation and a line of supported handoffs, each delegated, accepted and handed on in time by the one before, leads from a parentless delegation to it; and the view says what that handoff says |
| CleanEvidence.NoIssueIff | preaward/crosstrace_sprint2/validation.py:1133-1200 | the report has no issue if and only if there is evidence, all of one representation, every message of it supports a handoff, and every supported handoff ends such a line |
| Reporting.AdmissionReported | preaward/crosstrace_sprint2/validation.py:342-1007 | each issue of admission, code by code, as a statement about the messages in view |
| Reporting.IssueIff | preaward/crosstrace_sprint2/validation.py:1133-1200 | an issue is in the report if and only if it is the kind mismatch, the missing evidence, an issue of admission, or a candidate's failed relation |
| Reporting.InvalidMeaning | preaward/crosstrace_sprint2/validation.py:506-597 | the interactions that count as invalid parents are those with authenticated evidence in view and no supported handoff |
| SelfReceipts.RaisesIffSelfReceipt | preaward/crosstrace_sprint2/validation.py:970-990 | validation raises if and only if the representation is PR and a receipt in view, alone in its interaction and its sender's slot, names one principal as both endpoints and as its parent nothing or another such receipt |
| SelfReceipts.NoSelfReceiptNoRaise | preaward/crosstrace_sprint2/validation.py:1133-1200 | a view without a receipt to oneself is always reported on |
| SelfReceipts.ReceiptToOneselfRaises | preaward/crosstrace_sprint2/model.py:233-234 | one properly signed, store-bound and timely receipt makes validation raise |
| Validation.ValidateObservation | preaward/crosstrace_sprint2/validation.py:1133-1200 | views and issues depend on the set of messages alone, and it raises only as receipts can |
| Uniqueness.ViewsNeverCollide | preaward/crosstrace_sprint2/validation.py:485-595 | two emitted handoffs that share an interaction or a sender sequence slot are the same, in all three representations |
| Uniqueness.OutOfProfileSilences | preaward/crosstrace_sprint2/validation.py:424-470 | an authenticated record outside the profile suppresses its whole interaction |
| Encoding.EncodedReceipt | preaward/crosstrace_sprint2/validation.py:1203-1275 | what an encoded receipt says of its handoff, its signatures and its parent |
| Encoding.EncodingFails | preaward/crosstrace_sprint2/validation.py:1203-1275 | encoding a receipt fails exactly on a parent too many or too few, a parent that is no neutral receipt or not the one named, or content that no receipt can carry |
| Encoding.TracesEncode | preaward/crosstrace_sprint2/validation.py:1203-1275 | every well-formed forest of handoffs can be encoded as receipts, parents first |
| Encoding.EndpointRoundTrip | preaward/crosstrace_sprint2/model.py:470-512 | decoding delivered SL or CR records gives back the trace's candidates and no issue |
| Encoding.ReceiptRoundTrip | preaward/crosstrace_sprint2/validation.py:889-1007 | decoding delivered receipts undoes the encoder, parent references included |
| Encoding.RecordsPreserveMeaning | preaward/crosstrace_sprint2/validation.py:342-597 | validating an SL or CR delivery reports exactly the trace's views and issues |
| Encoding.ReceiptsPreserveMeaning | preaward/crosstrace_sprint2/validation.py:754-1007 | validating a PR delivery reports exactly the trace's views and issues |
| Encoding.RepresentationsAgree | preaward/crosstrace_sprint2/model.py:1112-1137 | the three encodings of one trace give policy the same views and issues |
| PermitStore.NeutralPermitStore.constructor | preaward/crosstrace_sprint3/permit.py:98-106 | a new store is empty at revision 0 |
| PermitStore.NeutralPermitStore.Over | preaward/crosstrace_sprint3/permit.py:68-97 | a store over an existing database holds what was committed to it |
| PermitStore.Open | preaward/crosstrace_sprint3/permit.py:44-122 | opening fails exactly if the database belongs to another store identifier, and otherwise loses nothing |
| PermitStore.NeutralPermitStore.Snapshot | preaward/crosstrace_sprint3/permit.py:128-192 | one consistent picture of revision, observations and permits |
| PermitStore.NeutralPermitStore.InsertObservations | preaward/crosstrace_sprint3/permit.py:247-271 | inserts in order until one names another handoff |
| PermitStore.NeutralPermitStore.Reserve | preaward/crosstrace_sprint3/permit.py:194-311 | compare-and-swap, observations and permit, all or nothing on every error path; it succeeds if and only if the lifetime is nonempty, the revision is the expected one, no observation contradicts the table or another, and identifier and replay key are free |
| PermitStore.NeutralPermitStore.Consume | preaward/crosstrace_sprint3/permit.py:313-387 | moves a matching, live, reserved permit to attempted, and otherwise changes nothing |
| PermitStore.NeutralPermitStore.Finish | preaward/crosstrace_sprint3/permit.py:389-423 | closes an attempted permit once |
| PermitStore.ReserveMeaning | preaward/crosstrace_sprint3/permit.py:194-311 | for what each of the four refusals stands, in the fields of the request and the store; a refusal changes nothing |
| PermitStore.ReserveCommits | preaward/crosstrace_sprint3/permit.py:247-306 | a reserve that commits adds its observations and its permit, raises the revision by one, and changes nothing else |
| PermitStore.ConsumeMeaning | preaward/crosstrace_sprint3/permit.py:313-387 | a consume is allowed if and only if the permit is known for the tool, matches hash and nonce, is reserved and live; and for what each refusal stands |
| PermitStore.FinishMeaning | preaward/crosstrace_sprint3/permit.py:389-423 | finishing closes an attempted permit as succeeded or as failed, as told, and touches nothing else |
| PermitStore.AbsorbSucceeds | preaward/crosstrace_sprint3/permit.py:247-271 | insertion succeeds if and only if the observations agree with the table and with one another |
| PermitStore.AbsorbMeaning | preaward/crosstrace_sprint3/permit.py:247-271 | success adds exactly the observations and changes no earlier entry |
| PermitStore.AbsorbTwice | preaward/crosstrace_sprint3/permit.py:247-271 | inserting two batches one after the other is inserting them as one |
| PermitRuns.ReachableInvariant | preaward/crosstrace_sprint3/permit.py:237-305 | in every reachable state the revision is the sum of the permits' stages and replay keys are unique |
| PermitRuns.OneStep | preaward/crosstrace_sprint3/permit.py:194-423 | a call either commits and raises the revision by one, or leaves the whole state as it was |
| PermitRuns.RevisionsGrow | preaward/crosstrace_sprint3/permit.py:237-305 | along a run equal revisions mean equal states |
| PermitRuns.ReserveSeesItsSnapshot | preaward/crosstrace_sprint3/gate.py:816-831 | a successful reserve commits against exactly the contents that were snapshotted |
| PermitRuns.ExpectedRevisionsDiffer | preaward/crosstrace_sprint3/permit.py:237-245 | no two reserves succeed with the same expected revision |
| PermitRuns.RunsExtend | preaward/crosstrace_sprint3/permit.py:247-271 | observations are append-only, each key names one handoff for ever, and a permit changes only its stage, upwards |
| PermitRuns.ObservedForEver | preaward/crosstrace_sprint3/permit.py:247-271 | what a committed reserve observed stays as it was observed for the rest of the run |
| PermitRuns.PermitsAreBacked | preaward/crosstrace_sprint3/permit.py:272-305 | every permit in the store was granted by an earlier committed reserve |
| PermitRuns.ConsumesAreReserved | preaward/crosstrace_sprint3/permit.py:313-387 | an allowed consume uses what an earlier reserve put aside, within its lifetime |
| PermitRuns.ConsumedOnce | preaward/crosstrace_sprint3/permit.py:351-373 | at most one consume is ever allowed per tool, replay scope and nonce, in any interleaving |
| PermitRuns.SecondRoundNeedsNewScope | preaward/crosstrace_sprint3/permit.py:272-295 | the same tool and nonce can be reserved and consumed a second time, by any two requests that do not contradict each other, if and only if the second permit has another replay scope |
| PermitRuns.CommitsAccountForState | preaward/crosstrace_sprint3/permit.py:296-306 | the revision counts the committed calls and the permits count the committed reserves |
| ChainWalk.FileViews | preaward/crosstrace_sprint3/gate.py:506-514 | the filing loop puts each view under its interaction |
| ChainWalk.WalkChain | preaward/crosstrace_sprint3/gate.py:521-547 | the walk loop ends on every graph, as specified |
| ChainWalk.WalkIsLinear | preaward/crosstrace_sprint3/gate.py:521-552 | a walk that reaches a root has collected a linear chain |
| ChainWalk.WalkFindsTheChain | preaward/crosstrace_sprint3/gate.py:521-552 | if a linear chain ends in the leaf, the walk returns that chain |
| ChainWalk.WalkMeaning | preaward/crosstrace_sprint3/gate.py:521-552 | every walk climbs from parent to only parent without repeating an interaction, and ends at a root, a missing, an ambiguous or an already visited parent, as it says |
| Gate.Evaluate | preaward/crosstrace_sprint3/gate.py:449-772 | the evaluation computes the specified verdict, with its whole set of reasons or its whole grant |
| Gate.CheckChain | preaward/crosstrace_sprint3/gate.py:561-625 | the chain loops find exactly the specified reasons |
| Gate.ScanVersions | preaward/crosstrace_sprint3/gate.py:648-660 | the version scan finds a conflict exactly if a version has two statuses, and the highest version |
| Gate.CheckStatuses | preaward/crosstrace_sprint3/gate.py:627-695 | the status loops find exactly the specified reasons and the controlling status |
| GateLaws.AllowIffAuthorised | preaward/crosstrace_sprint3/gate.py:449-772 | ALLOW if and only if a chain and a status satisfy the authorisation written in fields: the registered verifier, stores and tool; one delegated chain with one leaf; agreement, lineage, times and handover at every place; all seven comparisons of scopes between every ancestor and descendant; operation, resource, currency and amount within every scope; and the one status on top of the lineage, active and fresh |
| GateLaws.StatusMeaning | preaward/crosstrace_sprint3/gate.py:644-690 | no status reason arises if and only if one status governs the chain |
| GateLaws.AttenuationComposes | preaward/crosstrace_sprint3/gate.py:358-369 | neighbourwise attenuation holds between every ancestor and descendant |
| GateLaws.WithinLeafIsWithinAll | preaward/crosstrace_sprint3/gate.py:372-378 | on an attenuated chain the action is within every scope if and only if it is within the leaf's |
| GateLaws.EveryPauseHasCause | preaward/crosstrace_sprint3/gate.py:697-734 | on a complete chain a pause lists exactly the chain's and the statuses' faults, never the internal error or the late expiry branch |
| PauseLaws.PauseListsTheFaults | preaward/crosstrace_sprint3/gate.py:554-734 | on a complete chain a reason is given if and only if its fault, a comparison of fields somewhere along the chain or in the status on top, is there; and at least one is |
| PauseLaws.PauseBeforeChain | preaward/crosstrace_sprint3/gate.py:449-520 | an unregistered verifier, store or tool, an outsized amount, what preparation found, no leaf and several leaves each make the gate pause for just that |
| PauseLaws.PauseOnTheClimb | preaward/crosstrace_sprint3/gate.py:521-552 | from the only leaf the gate climbs from parent to parent and pauses for a missing, an ambiguous or a repeated one exactly where there is one |
| AllowConsequences.DelegationIsBounded | preaward/crosstrace_sprint2/model.py:184-186 | an allowed chain has at most the root's redelegations plus one handoffs, so at most 33 |
| AllowConsequences.LeafExpiresFirst | preaward/crosstrace_sprint3/gate.py:718-725 | the least scope expiry of an attenuated chain is the leaf's |
| AllowConsequences.ExpiryIsLeafBound | preaward/crosstrace_sprint3/gate.py:714-734 | a permit expires at the least of lifetime, status freshness and leaf scope |
| AllowConsequences.AllowedAuthority | preaward/crosstrace_sprint3/gate.py:644-690 | ALLOW implies one status per version of the lineage and names the governing one |
| AllowConsequences.StatusOrderIrrelevant | preaward/crosstrace_sprint3/gate.py:627-660 | order and repetition of statuses do not change the evaluation |
| AllowConsequences.ViewOrderIrrelevant | preaward/crosstrace_sprint3/gate.py:506-552 | the order of the views does not change the evaluation |
| AllowConsequences.SameFactsSameVerdict | preaward/crosstrace_sprint3/gate.py:449-772 | inputs that hold the same views and statuses in any order, at any revision, get one verdict |
| AllowConsequences.RemovingOthersKeepsAllow | preaward/crosstrace_sprint3/gate.py:627-690 | removing any statuses but the controlling one keeps the ALLOW as it is |
| AllowConsequences.RivalForcesPause | preaward/crosstrace_sprint3/gate.py:652-666 | one more status of the same or a higher version forces a PAUSE |
| Prepare.PrepareCommonGateInput | preaward/crosstrace_sprint3/gate.py:266-355 | what the prepared input holds, exactly when preparation raises, and with which of its two errors |
| Prepare.PreparedMeaning | preaward/crosstrace_sprint3/gate.py:171-355 | the statuses passed on are exactly those signed by a key their issuer registered for statuses and sent from a store it may use, and each prior reason has its one cause |
| Prepare.StructureIsSettled | preaward/crosstrace_sprint3/gate.py:527-574 | for every prepared input the gate itself never reports a structural fault |
| Prepare.ChainObservationsAgree | preaward/crosstrace_sprint3/gate.py:735-761 | the observations derived from one prepared chain never contradict each other |
| GateRuns.Authorize | preaward/crosstrace_sprint3/gate.py:774-862 | evaluate, reserve, and map each refusal of the store |
| GateRuns.Consume | preaward/crosstrace_sprint3/gate.py:864-899 | consume with the action's own digest and nonce |
| GateRuns.Finish | preaward/crosstrace_sprint3/gate.py:901-906 | finish closes what the store says it closes |
| GateRuns.EventsAreCalls | preaward/crosstrace_sprint3/gate.py:774-906 | authorize, consume and finish change the store exactly as their transactions do, and succeed when those commit |
| GateRuns.AuthorizationMeaning | preaward/crosstrace_sprint3/gate.py:807-862 | an authorization is granted, or refused with the one reason that the store's refusal stands for |
| GateRuns.PermitRecordsTheChain | preaward/crosstrace_sprint3/gate.py:714-834 | an allowed authorization asks for a permit that names the leaf, the whole chain, the status, the replay scope, the action and the tool, and for exactly the two observations of each handoff of the chain |
| GateRuns.AllowedChainsAgree | preaward/crosstrace_sprint3/permit.py:247-271 | in any interleaved run, handoffs of the chains of two allowed authorizations that share an interaction or a sender's sequence number are the same handoff |
| GateRuns.TimeOfUse | preaward/crosstrace_sprint3/gate.py:707-734 | whenever a consume is allowed, an earlier ALLOW covered the same action and tool, and at that instant every scope is open, the status fresh and the lifetime not over |
| GateRuns.SecondUseNeedsNewAuthority | preaward/crosstrace_sprint3/gate.py:690-696 | two allowed consumes of one tool and nonce in a run stand under different lineages or authority versions |
| GateRuns.NewAuthorityReopensTheAction | preaward/crosstrace_sprint3/gate.py:690-696 | two authorised uses of one action and nonce both go through, if and only if their chains stand under different lineages or authority versions |
| Authenticity.ViewsAreSigned | preaward/crosstrace_sprint2/validation.py:342-1007 | every emitted view rests on messages in view in which the sender signed exactly that handoff and the receiver that handoff, its decision and its time, each under its registered key and from its own store, in CR over the digest of the sender's record; in PR one receipt carries both signatures, the second over the first, and names as parent a receipt in view |
| Authenticity.PreparedViewsAreSupported | preaward/crosstrace_sprint3/gate.py:266-355 | the views handed to the gate are exactly the ends of supported lines in the verifier's messages, under what is registered as of the decision time |
| Authenticity.AllowedChainsAreShort | preaward/crosstrace_sprint2/model.py:184-186 | on prepared inputs an authorised chain has at most the root's redelegations plus one handoffs, and never more than 33 |
| Authenticity.AllowedChainsAreSigned | preaward/crosstrace_sprint3/gate.py:266-355 | on prepared inputs every handoff of an authorised chain was signed by both parties and accepted, and the governing status signed by its issuer, in the messages prepared from |
| Authenticity.UsesAreSigned | preaward/crosstrace_sprint3/gate.py:707-734 | in a run of prepared inputs, every allowed consume goes back to an earlier ALLOW that still is in force, on a chain of at most 33 handoffs that both parties of each had signed in the messages that ALLOW was prepared from |
| Harness.TakeSnapshot | preaward/crosstrace_sprint3/permit.py:128-192 | a snapshot is refused exactly if a permit was issued after it |
| Harness.RunGateBranch | preaward/crosstrace_sprint4/harness.py:170-289 | for any number of attempts the adapter is called once if the verdict is ALLOW and never otherwise, mutations are three times the grants, and the loop raises if and only if preparation cannot succeed |
| Harness.PreparationRepeats | preaward/crosstrace_sprint4/harness.py:220-247 | preparing again from a later snapshot leads to the same verdict |
| StrictChain.AssembleStrictChain | preaward/crosstrace_sprint4/chain.py:43-93 | complete if and only if all the views form one chain to the matching intent, with that chain's order; otherwise the first defect in the order of the tests |
| StrictChain.DefectBeforeTheWalk | preaward/crosstrace_sprint4/chain.py:53-66 | a repeated interaction, no intent of the action, or several of them, as the defect says |
| StrictChain.DefectOfTheWalk | preaward/crosstrace_sprint4/chain.py:67-88 | from the only leaf, the defect is the first of: repeated or missing parent, root or intermediate that is no delegation, a view left over |
| StrictChain.FileById | preaward/crosstrace_sprint4/chain.py:53-56 | the dictionary by interaction has as many entries as views if and only if no interaction repeats |
| StrictChain.WalkById | preaward/crosstrace_sprint4/chain.py:67-81 | the walk loop equals the gate's walk, and never meets an ambiguous parent |
| StrictChain.FormedChainUnique | preaward/crosstrace_sprint4/chain.py:43-93 | the chain depends on the set of views, not on their order |
| StrictChain.GateWalksTheSameChain | preaward/crosstrace_sprint3/gate.py:506-552 | the gate's own leaf search and walk give the same chain |
| Invariance.EquivalentEvidence | preaward/crosstrace_sprint4/harness.py:469-491 | for every trace, delivered in any two encodings, the prepared inputs lead the gate to the same verdict with the same reasons or grant |
| EndToEnd.EvidenceIsWhatArrived | preaward/crosstrace_sprint1/delivery.py:1664-1698 | a message is evidence at a store exactly when one of its copies has arrived there |
| EndToEnd.ArrivedEvidence | preaward/crosstrace_sprint1/delivery.py:1664-1698 | once a copy of every message for the store has arrived, its evidence is exactly what was sent to it |
| EndToEnd.RecodedArrives | preaward/crosstrace_sprint4/harness.py:388-399 | slots filled with another encoding arrive as the original ones did |
| EndToEnd.EncodingsReachOneVerdict | preaward/crosstrace_sprint4/harness.py:469-491 | from slots to verdict: the same slots filled with two encodings of a trace, compiled with one seed, policy and overrides and all arrived, lead the gate to one verdict |
| Invariance.OneSidedPauses | preaward/crosstrace_sprint4/harness.py:457-467 | in SL and CR, when only one endpoint's record of an interaction is in view, the gate always pauses |
| Invariance.HonestEvidenceIsAllowed | preaward/crosstrace_sprint3/gate.py:449-772 | an unbroken line of accepted delegations to the intent, delivered in any encoding and meeting the gate's demands, is always allowed |
| Invariance.HonestLineFormsChain | preaward/crosstrace_sprint4/chain.py:43-93 | the views of such a line form a strict chain |

## Left out

- SQLite, files, write-ahead logging, locks and threads: transactions are one at a time and commit or roll back.
- Ed25519, SHA-256, HMAC process tags and random permit identifiers: free terms, an injective identifier function, and identifiers given by the caller. A forged signature is any term that is not the expected one.
- The seeded hash behind the delivery draws is an arbitrary function; only its reduction by the modulus is modelled. Seed length checks are left out.
- Calendar parsing and time-zone handling: instants are integers. Overflow past the last instant is modelled where a delivery is computed, and nowhere else.
- Identifier syntax and length bounds, except for the length of partition names, on which compiling can fail.
- Schemas and exact-field checks of `from_dict` and `to_dict`, and reserved evaluator fields in payloads: values here are already of the right shape, and a malformed payload is `OtherPayload`.
- Source message identifiers and source deliveries attached to issues, candidates and validated handoffs: provenance that no decision reads.
- Gate.Evaluate: a PAUSE keeps its reasons only; the leaf, chain, status and replay scope identifiers it carries for diagnosis are not modelled, because no later step reads them.
- Prepare.PrepareCommonGateInput: leaves the order of views and statuses open, where the source sorts both by their digests; AllowConsequences.SameFactsSameVerdict shows that no verdict depends on it.
- The gate's exception reasons for a broken permit store or clock (state unavailable, permit time invalid): they report failures outside the model.
- The `add` methods of the registries: a registry is the finite map it has become.
- Byte-level decoding before parsing (UTF-8, UTF-16 and UTF-32 detection, byte-order marks), the interpreter's recursion and integer-digit limits: a text is a sequence of characters.
- CanonicalText.LongEscape: refuses surrogate escapes on reading, where the source refuses the text they produce afterwards; the outcome of strict loading is the same.
- The contents of the permit state inside a local observation, and the audit cutoff arithmetic.
- The first permit store and action gate of the protocol sketch, the pilot's baselines and scoring, release runners and verifiers, fixture keys and the hand-written cases: weaker forms of the same machines, or finite data.
