# Pantheon, modelled and proved in Dafny

Pantheon is a control plane for coding agents. Its correctness rests on durable step machines that
survive crashes and retries, on a content-addressed changeset pipeline, and on pure rules for
ordering and selection. This project models those parts and proves what they promise.

| module | what it models |
|---|---|
| `ByteOrder`, `MachineIntegers`, `Sorting`, `Wrappers` | byte order, integer bounds, stable sorting and why a sort is canonical, `Option` and `Result` |
| `PathCodec`, `Canonical`, `Parse`, `ManifestText` | path spellings, canonical JSON text, the strict reader, the manifest document |
| `Artifact`, `Capture`, `Sealing` | patches and revisions, the confined tree walk, the sealing pipeline |
| `CommandKernel` | the durable command envelope, its ledger and the Event Journal, across restores |
| `SealIdentity`, `SealProtocol`, `SealPasses`, `SealMishaps` | derived command identities; a seal request from its row to its outcome, with any number of interleaved callers; what an undisturbed call achieves; a run in which it goes wrong |
| `Candidate`, `AgentControl`, `AgentEffects`, `AgentRuns`, `AgentRestores`, `Gateway` | Candidates, the request ledger, Artifact publication and Candidate submission (T6), what each leaves row by row and what each refusal means, all their runs, and the worker operations composed of them |
| `RunController`, `RunPasses`, `RivalControllers`, `Workspace`, `Cas` | the launch boundary, what one undisturbed pass achieves, what a second live controller changes, Workspace materialization and CAS publication, with a crash between any two steps |
| `Scheduling`, `CandidateSelection`, `ContextDrop` | the service order and bounded waiting, routing and selection, the optional drop |

## Conventions

- SHA-256, Git object naming and request hashes are collision-free. A digest is symbolic: it is the
  document it was taken over, or an injective function given as a parameter. `ManifestText` shows that
  the text a manifest digest is really taken over loses nothing.
- Calls into the repository, the CAS, backends, launchers and the file system are ports. A port's answer may
  depend on when it is asked and any call may fail. What honest ports answer is a named hypothesis
  (`Sealing.Trusted`, `Sealing.Smooth`, `CandidateSelection.CollisionFree`).
- The database is a class of map fields; a transaction is a method that commits everything or rolls
  back. The clock, random ids and whether the engine accepts a final Event are parameters.
- A protocol that must survive crashes is a small-step machine; a run is any sequence of steps,
  crashes and faults. Steps other components take are bounded by a stated rely condition
  (`AgentRuns.Rely`, `SealProtocol.Rely`).

## Where code and documentation disagree

- The entries of a diff need not be in path order when they reach `changeset_manifest`, although comments
  at crates/pantheon-engine/src/sealing.rs:755-756 and crates/pantheon-core/src/artifact.rs:525-528 say so: additions and
  modifications come first, deletions after (`Sealing.DiffOutOfOrder`; exactly when, `Sealing.DiffOrderIff`).
  Canonical order comes from the sort at crates/pantheon-core/src/artifact.rs:529-530, which the model keeps.
- Payloads are called durable before anything references them (crates/pantheon-engine/src/sealing.rs:12 and 656-658). The CAS
  answers without a directory sync when the object already exists (crates/pantheon-cas/src/lib.rs:168) or its link
  reports a rival (crates/pantheon-cas/src/lib.rs:140), and such an answer can be lost with power
  (`Cas.EarlyAnswerNotDurable`; exactly which survive, `Cas.SurvivesPowerLossIff` and `Cas.AnswerCertainIff`).
- The concurrency note at crates/pantheon-engine/src/workspace.rs:312-322 says that external state is never-Ready when two callers
  race. A Ready Workspace is discarded by a second caller that replays a shared identity
  (`Workspace.SharedIdentityDiscardsReady`) and by a caller that paused after its own marker, with nothing
  shared (`Workspace.PausedCallerDiscardsReady`); the exact condition is the row's phase at that moment
  (`Workspace.DisturbsReadyIff`).
- A retried seal is said to land on the same Artifact (crates/pantheon-engine/src/agent_control.rs:228-231), and a replayed publication to
  be reconciled by confirming that the row exists (crates/pantheon-engine/src/sealing.rs:893-896). The lookup only sets a flag: a retry
  that captured something else is answered `Executed`, and its request recorded SUCCEEDED, with a name nobody stored
  (`SealMishaps.SucceededNamesNothing`; exactly when, `SealProtocol.ReplayTruthfulIff` and `SealProtocol.ExecutedProducedIff`).
- Finding an outcome already recorded is called reconciliation (crates/pantheon-store/src/agent_control.rs:592). The recorded name is not
  compared: of two overlapping calls the later one can answer with a name the row does not hold
  (`SealMishaps.ExecutedUnanswered`; exactly when, `SealProtocol.ExecutedAnsweredIff`; never without overlap,
  `SealProtocol.OrderlyAnswered`).
- Only conclusions without a Candidate are called reachable (crates/pantheon-store/src/execution.rs:1038-1040). `conclude_run` is guarded
  by the revision alone, and the decision after an end reads a fresh one: a Run in Finalizing can be concluded as failed
  (`RunController.FinalizingRunConcluded`; exactly when, `RunController.ConcludesInactiveIff`).
- Validation and report commands promise `RevisionConflict` for a Workspace that does not exist
  (crates/pantheon-store/src/workspace.rs:414-416, 471-474); the row read inside the transaction answers `InvariantViolated`, which the
  model follows (`AgentControl.FenceRefusal`, `AgentControl.ReportRefusal`).
- T4b is said to bind the launch package to the verifier it carries (crates/pantheon-store/src/execution.rs:900). It compares
  revisions with the controller's refreshed view, not with the bearer in memory: two live controllers break it
  (`RivalControllers.TwoControllersLaunchTwice`; exactly when, `RivalControllers.StaleLaunchIff`).
- The candidate comparison looks at each candidate's own policy. It is an order exactly when policies of one
  name and priority agree (`CandidateSelection.ComparePreorderIff`); configuration guarantees it, because
  policy names are unique (crates/pantheon-core/src/config/compile.rs:260).
- Which backend a refused routing names depends on registration order as soon as two ids offend
  (`CandidateSelection.RefusalCanonicalIff`), and with it whether the scheduler records a backoff.
- The retry limit is checked only after an inspected end. The current lineage is read with
  `terminal = 0` (crates/pantheon-store/src/execution.rs:513), so the branch for a terminal lineage at
  crates/pantheon-engine/src/run.rs:384-386 is unreachable and `establish_attempt` never sees the limit
  (`RunController.RetryLimitBypassed`; exactly when, `RunController.RetryLimitIff`).
- The optional drop promises that mandatory sections are never dropped; `retain` ignores the inclusion class
  (`ContextDrop.ProtectedSurviveIff`).

## Model

| member | source | states |
|---|---|---|
| `PathCodec.EncodePath` | crates/pantheon-core/src/artifact.rs:185-197 | the loop spells a path literally when it is UTF-8 without `%`, otherwise as `%` and lowercase hex pairs; equals the specification the round trip is proved about |
| `PathCodec.DecodeManifestString` | crates/pantheon-core/src/artifact.rs:199-216 | the loop reads exactly the spellings the specification reads, refusing an odd or non-digit tail |
| `PathCodec.RoundTrip` | crates/pantheon-core/src/artifact.rs:185-216 | decode(encode(b)) = b for every byte string |
| `PathCodec.EncodeInjective` | crates/pantheon-core/src/artifact.rs:160-178 | no two byte strings share a spelling, across literal and hex forms |
| `PathCodec.EncodeIsUtf8` | crates/pantheon-core/src/artifact.rs:171-197 | every spelling is well-formed UTF-8 (section 4 of RFC 3629) |
| `PathCodec.ReverseRoundTrip` | crates/pantheon-core/src/artifact.rs:199-216 | for every text that decodes, re-encoding gives it back if and only if it is a canonical spelling; decode alone also accepts uppercase digits and needless escapes |
| `PathCodec.NeedlessEscapeDecodes` | crates/pantheon-core/src/artifact.rs:199-216 | a concrete spelling that is read but never written |
| `PathCodec.AcceptsExactlyValidPaths` | crates/pantheon-core/src/artifact.rs:98-138 | `from_bytes` accepts exactly the nonempty bounded relative paths of ordinary components |
| `PathCodec.RefusedFor` | crates/pantheon-core/src/artifact.rs:98-131 | why a path is refused: told by the whole path first, then by its first component that is not ordinary |
| `PathCodec.JoinComponents` | crates/pantheon-core/src/artifact.rs:119-134 | splitting at `/` loses nothing |
| `PathCodec.ComponentsSlashFree` | crates/pantheon-core/src/artifact.rs:119-134 | no component holds a slash |
| `PathCodec.ManifestRoundTrip` | crates/pantheon-core/src/artifact.rs:143-178 | every valid path survives the manifest spelling |
| `Canonical.WriteOnto` | crates/pantheon-core/src/config/canonical.rs:92-127 | pushing piece by piece appends exactly the canonical text of the value |
| `Canonical.QuoteOnto` | crates/pantheon-core/src/config/canonical.rs:168-194 | the character loop appends exactly the quoted text |
| `Canonical.CanonicalInjective` | crates/pantheon-core/src/config/canonical.rs:80-127 | two values with the same canonical text are the same value |
| `Canonical.WriteUnique` | crates/pantheon-core/src/config/canonical.rs:92-127 | a written value can be told apart from whatever legally follows it: the encoding is uniquely readable |
| `Canonical.EscapeUnique` | crates/pantheon-core/src/config/canonical.rs:168-194 | escapes form a prefix code: the character and the remaining text are determined |
| `Parse.DocumentRoundTrip` | crates/pantheon-core/src/config/parse.rs:50-62 | parsing the canonical text of any value (64-bit integers, keys in order) returns that value |
| `Parse.ValueRead` | crates/pantheon-core/src/config/parse.rs:105-117 | reading stops exactly where writing stopped, for every value and every legal continuation |
| `Parse.IntegerRead` | crates/pantheon-core/src/config/parse.rs:119-150 | every 64-bit integer is read back from its decimal text |
| `Parse.StringRead` | crates/pantheon-core/src/config/parse.rs:152-214 | every string is read back from its escaped text |
| `Parse.EntriesRead` | crates/pantheon-core/src/config/parse.rs:239-272 | an object whose keys are written in order is read back without a duplicate-key refusal, each entry appended |
| `Parse.EscapeCanonicalIff` | crates/pantheon-core/src/config/parse.rs:160-214 | for every escape the reader takes: it is spelled as the writer spells it if and only if it is one of five letters or a lower-case unicode form of another control; all other accepted spellings, plus signs and capitals included, are second spellings |
| `Parse.StringCanonicalIff` | crates/pantheon-core/src/config/parse.rs:152-214 | a string that is read is the writer's own text if and only if every escape in it is canonical |
| `ManifestText.ManifestTextInjective` | crates/pantheon-core/src/artifact.rs:519-547 | two changeset manifests with the same text are the same manifest, so a digest of the text names the manifest; sizes are unsigned 64-bit and written through a signed cast |
| `ManifestText.EntryValueInjective` | crates/pantheon-core/src/artifact.rs:398-405 | an entry is determined by its value |
| `ManifestText.StateValueInjective` | crates/pantheon-core/src/artifact.rs:280-290 | a before or after state is determined by its value |
| `ManifestText.AsI64Injective` | crates/pantheon-core/src/artifact.rs:280-290 | the wrapping cast writes no two unsigned 64-bit sizes alike |
| `ManifestText.ManifestReadsBack` | crates/pantheon-store/src/agent_control.rs:1139-1150 | the manifest the sealer stored always parses, to the value that was stored, whatever its sizes |
| `ManifestText.ManifestSays` | crates/pantheon-core/src/artifact.rs:519-547 | read back by key, the stored text says what was sealed: kind, schema version, repository, base commit, captured revision, and in order each entry's path, operation and two states |
| `ManifestText.ReferencesExact` | crates/pantheon-store/src/agent_control.rs:1144-1176 | the blob strings found under both sides of every entry of the parsed text are exactly the displayed digests of the blobs the manifest's entries name, and none fails to read |
| `ManifestText.EnsureArtifactComplete` | crates/pantheon-store/src/agent_control.rs:1139-1193 | the loops refuse a text that does not parse, has no entries or an unreadable reference, and otherwise accept exactly when every reference is a member |
| `Artifact.NewEntry` | crates/pantheon-core/src/artifact.rs:341-372 | an entry exists exactly when its operation agrees with its two states |
| `Artifact.NewRevisionState` | crates/pantheon-core/src/artifact.rs:434-457 | the result is the sorted listing; refusal exactly on inputs with a repeated path, naming one |
| `Artifact.RevisionStateCanonical` | crates/pantheon-core/src/artifact.rs:434-457 | permuted inputs are refused alike and give the same state |
| `Artifact.FindEntry` | crates/pantheon-core/src/artifact.rs:502-507 | the binary search agrees with a linear lookup, for present and absent paths |
| `Artifact.DescribesApplies` | crates/pantheon-core/src/artifact.rs:519-547 | entries that describe two trees, applied strictly to the first, yield exactly the second |
| `Artifact.DescribesReversed` | crates/pantheon-core/src/artifact.rs:519-547 | the undone entries describe the way back |
| `Artifact.SortKeepsExact` | crates/pantheon-core/src/artifact.rs:529-531 | sorting keeps an exact patch exact and puts it in path order |
| `Artifact.ManifestCanonical` | crates/pantheon-core/src/artifact.rs:519-547 | all exact patches between two trees sort to the same entries: the manifest is unique |
| `Capture.WalkDirectory` | crates/pantheon-git/src/capture.rs:184-449 | the loop over sorted names, with recursion into the sink, equals the walk function |
| `Capture.WalkFaithful` | crates/pantheon-git/src/capture.rs:184-449 | the walk succeeds exactly on capturable trees and then emits exactly the leaves outside the root `.git` |
| `Capture.WalkValid` | crates/pantheon-git/src/capture.rs:268-280 | even when it faults, what was emitted has representable, pairwise distinct paths |
| `Capture.WalkExplained` | crates/pantheon-git/src/capture.rs:184-449 | a walk ends with a ceiling fault only when something in the tree is too deep or too large, with any other only when something is unrepresentable, foreign or special |
| `Capture.WalkSame` | crates/pantheon-git/src/capture.rs:199-226 | the walk depends on the tree, not on the order directories are enumerated in |
| `Capture.CaptureTree` | crates/pantheon-git/src/capture.rs:127-178 | a root that is no directory is refused; otherwise the three facts together |
| `Capture.CapturedStateIsTree` | crates/pantheon-engine/src/sealing.rs:671-732 | the captured state the diff reads holds a path with some content exactly when the tree has that leaf |
| `Capture.SealedTree` | crates/pantheon-engine/src/sealing.rs:636-836 | end to end: the manifest sealed from the walk of a capturable tree, applied to the base, gives a tree with exactly that directory's leaves, and undone gives the base back |
| `Capture.SealDirectory` | crates/pantheon-engine/src/sealing.rs:636-836 | a seal over a directory tree succeeds only if the tree is capturable, and its manifest then carries the base to exactly that tree |
| `Capture.TreeNamesArtifact` | crates/pantheon-engine/src/sealing.rs:671-836 | seals of one tree, however its directories are enumerated, name one Artifact |
| `Capture.WalkOrderIsNotPathOrder` | crates/pantheon-git/src/capture.rs:226-229 | a tree whose walk order is not path-byte order |
| `Sealing.SealRun.CaptureAndSeal` | crates/pantheon-engine/src/sealing.rs:636-903 | whatever the ports do, bytes are published only for authorized paths, and an error is a fault of the walk or of a port, a ceiling that was exceeded, or the refusal of one path that is unrepresentable, outside the scope or without its preimage, a scope violation naming a path the scope does not authorize; on success every entry is authorized, every named blob was accepted by the CAS first, and members are exactly the named blobs; with honest ports the manifest is the exact patch from base to captured tree; with honest, unfaulted ports it succeeds if and only if no unauthorized path changed, and otherwise the error is a scope violation for the least unauthorized path written or, when there is none, the least one that vanished |
| `Sealing.SealRun.FlushIdentityBatch` | crates/pantheon-engine/src/sealing.rs:1048-1073 | names are recorded per path in order; the port's own fault is passed on and any answer of another length fails the seal as an unavailable base |
| `Sealing.SealRun.Batch` | crates/pantheon-engine/src/sealing.rs:717-737 | for every budget, identities plus pending batch equal naming each comparable entry on its own, and what is pending stays below the budget |
| `Sealing.SealRun.Retain` | crates/pantheon-engine/src/sealing.rs:700-716 | bytes are handed to the CAS exactly for authorized paths, the rest are noted as unpublished; a refusal or a wrong reference is told apart |
| `Sealing.SealRun.Sink` | crates/pantheon-engine/src/sealing.rs:677-738 | one captured entry keeps the whole bookkeeping; what would exceed a ceiling is refused as such, anything else only for a port's fault |
| `Sealing.SealRun.Capture` | crates/pantheon-engine/src/sealing.rs:676-753 | after the walk and the last flush the captured state, the unpublished set and the identities are those of all captured entries; each way to fail is told apart, the last flush never as a scope violation |
| `Sealing.SealRun.BeforeState` | crates/pantheon-engine/src/sealing.rs:909-929 | the preimage is in the CAS before it is named, and with honest ports the state is the base state |
| `Sealing.SealRun.DiffCaptured` | crates/pantheon-engine/src/sealing.rs:758-798 | one captured path: nothing, an addition or a modification, exactly as the two trees differ there; a refusal says whether the path is unrepresentable, outside the scope or without its preimage |
| `Sealing.SealRun.DiffDeleted` | crates/pantheon-engine/src/sealing.rs:799-816 | one vanished path: a deletion, or a refusal that says why |
| `Sealing.SealRun.DiffAllCaptured` | crates/pantheon-engine/src/sealing.rs:757-798 | a path-sorted run of additions and modifications, exactly where the two trees differ; with honest, unfaulted ports it refuses at the least path written outside the scope |
| `Sealing.SealRun.DiffAllDeleted` | crates/pantheon-engine/src/sealing.rs:799-816 | followed by a path-sorted run of deletions, no entry of the first run moving; with honest, unfaulted ports it refuses at the least path that vanished outside the scope |
| `Sealing.DiffOrderIff` | crates/pantheon-engine/src/sealing.rs:755-816 | the diff is in path order if and only if every written path sorts before every vanished one |
| `Sealing.DiffOutOfOrder` | crates/pantheon-engine/src/sealing.rs:755-816 | a base holding `a` and a capture holding `b`: every diff the loops build is out of path order |
| `Sealing.SealRun.CapturedRevision` | crates/pantheon-engine/src/sealing.rs:818-828 | the revision lists exactly the captured state, sorted and once per path |
| `Sealing.UniqueMembers` | crates/pantheon-engine/src/sealing.rs:839-855 | each blob named on either side of an entry is a member once, and nothing else is |
| `Sealing.UnchangedIsEqualState` | crates/pantheon-engine/src/sealing.rs:778-789 | the name test decides equality of base and captured state without reading a base blob |
| `Sealing.SealedPatchRoundTrip` | crates/pantheon-engine/src/sealing.rs:755-836 | a sealed manifest applied to the base gives the captured tree, and undone gives the base back |
| `Sealing.ArtifactDeterministic` | crates/pantheon-engine/src/sealing.rs:829-836 | two seals of one captured state over one base name the same Artifact and revision |
| `Sealing.CaptureOrderIrrelevant` | crates/pantheon-engine/src/sealing.rs:671-732 | the captured state does not depend on capture order |
| `CommandKernel.Store.Execute` | crates/pantheon-store/src/command.rs:144-183 | fence, ledger, mutation, sequence, Event and row commit together or leave the database as it was; `CommandKernel.ExecutingCommits` and `CommandKernel.ExecutingAnswers` say what is committed and answered |
| `CommandKernel.ExecutingCommits` | crates/pantheon-store/src/command.rs:144-345 | an executed command leaves the domain and answers the value its mutation gives on the old domain, one Event more, at the cursor the allocator held, with the drawn id and time, the command's own type and its identity, and its ledger row; any other answer leaves the database as it was |
| `CommandKernel.ExecutingAnswers` | crates/pantheon-store/src/command.rs:144-230 | which answer a command gets: stale epoch, replay, conflict, the mutation's own refusal, executed exactly when identity, Event and sequence can be stored, and a storage error otherwise |
| `CommandKernel.BookkeepingCommits` | crates/pantheon-store/src/command.rs:362-394 | a bookkeeping transaction leaves the domain its mutation gives and one Event of its type without command identity, or nothing |
| `CommandKernel.Store.Record` | crates/pantheon-store/src/command.rs:362-394 | an internal Event advances the same allocator and journal, or nothing changes and a constraint is an ordinary storage error |
| `CommandKernel.Store.AllocateSequence` | crates/pantheon-store/src/command.rs:243-266 | hands out the next cursor and advances the singleton allocator |
| `CommandKernel.Store.FenceEpoch` | crates/pantheon-store/src/command.rs:191-212 | passes exactly the current RestoreGeneration |
| `CommandKernel.Store.InsertEvent` | crates/pantheon-store/src/command.rs:269-330 | accepts exactly what the journal constraints allow |
| `CommandKernel.ExactlyOnce` | crates/pantheon-store/src/command.rs:144-230 | in every run of commands, retries, conflicts, internal Events and restores to any earlier state under an unused generation, each (epoch, id) runs its mutation at most once in total |
| `CommandKernel.RetryReplaysForever` | crates/pantheon-store/src/command.rs:144-230 | a retry at any later time changes nothing: the first cursor while its generation lasts, a stale-epoch refusal for ever after, a conflict when the hash differs, even when the ledger row was lost |
| `CommandKernel.JournalAndLedgerAgree` | crates/pantheon-store/src/command.rs:174-394 | in every reachable state each epoch uses exactly the sequences below its allocator, command rows correspond one to one with the Events carrying their identity and cursor, and each Event with its row is what one execution left: the type, hash and time its command was issued with |
| `CommandKernel.SlotNeverOccupied` | crates/pantheon-store/src/command.rs:298-325 | the occupied-slot answer is unreachable; an append fails only on exhaustion or a constraint |
| `CommandKernel.RestoreKeepsInvariant` | crates/pantheon-store/src/command.rs:185-212 | a restore under a never-used generation keeps every invariant although rows are lost |
| `SealIdentity.DerivedInjective` | crates/pantheon-engine/src/sealing.rs:1014-1037 | derived command identities tell Attempt, request, step, revision and claimed authority apart |
| `SealProtocol.DerivationFaithful` | crates/pantheon-engine/src/agent_control.rs:443-451 | so the sealer's identities are a scheme the protocol theorems hold for |
| `SealProtocol.RunKeeps` | crates/pantheon-engine/src/sealing.rs:462-633 | any number of callers from opening their request row to recording its outcome, crashes, other writers, workers and restores: rows, fences, callers and ledger agree after every step of every run |
| `SealProtocol.PublishedUnderFence` | crates/pantheon-engine/src/sealing.rs:857-903 | a publication executes only while the row is exactly as fenced at capture and the authority holds; with workers that keep the fence the tree on disk is still the one published |
| `SealProtocol.ReplayTruthfulIff` | crates/pantheon-engine/src/sealing.rs:891-897 | a replayed publication changes nothing, and its answer is the recorded production if and only if the tree captured now is the one the executed publication captured |
| `SealProtocol.ExecutedProducedIff` | crates/pantheon-engine/src/agent_control.rs:272-292 | in every run an answer `Executed` names what the call captured, and that is the Run's recorded production for the slot if and only if the call's own publication executed or the captured tree is the one the executed publication captured |
| `SealProtocol.AnswersAreProduced` | crates/pantheon-engine/src/agent_control.rs:225-292 | with workers that keep the fence, a call that captured under its fence answers with a stored Artifact that is the Run's production for the slot, executed or replayed |
| `SealProtocol.ExecutedAnsweredIff` | crates/pantheon-store/src/agent_control.rs:599-637 | in every run an answer `Executed` is what the request row records if and only if the row was STARTED when completed or already recorded that name |
| `SealProtocol.OrderlyAnswered` | crates/pantheon-engine/src/agent_control.rs:225-292 | in every run in which calls of one request do not overlap, crashes and retries included, an answer `Executed` is what the row records |
| `SealProtocol.FailedSealKeeps` | crates/pantheon-engine/src/sealing.rs:459-461 | in every run, no step of a call whose publication never executed changes anything but the fence on a Ready Workspace, its own request row, the ledger and the journal; every call that fails before completing is such a call |
| `SealPasses.SealGetsDone` | crates/pantheon-engine/src/agent_control.rs:238-292 | an undisturbed call that finds its session, a Ready Workspace and valid authority is answered with the Artifact of the tree on disk; the row is frozen one revision on, the Artifact stored and recorded as the slot's production, the request row SUCCEEDED with that name |
| `SealPasses.FailedCaptureTold` | crates/pantheon-engine/src/sealing.rs:605-633 | a capture that fails under its fence is reported as one `workspace.capture-failed` Event under the derived identity, then the request row is refused; nothing else of the store changes |
| `SealPasses.RefusedPublicationReported` | crates/pantheon-engine/src/sealing.rs:606-631 | a publication the store refuses changes nothing and is reported under the same fence |
| `SealMishaps.SucceededNamesNothing` | crates/pantheon-engine/src/sealing.rs:891-903 | a retry that captures after the row has moved on replays, answers `Executed` and leaves its row SUCCEEDED with an Artifact nobody stored; nobody crashed and no worker broke the fence |
| `SealMishaps.ExecutedUnanswered` | crates/pantheon-store/src/agent_control.rs:626-628 | the other call of the same request then answers `Executed` with an Artifact the row does not record |
| `Candidate.NewCandidate` | crates/pantheon-core/src/candidate.rs:141-180 | builds the normal form exactly for bounded, distinct slots; an invalid slot is reported first, the first one listed, and among repeated slots the least |
| `Candidate.CandidateIdentity` | crates/pantheon-core/src/candidate.rs:141-180 | two mappings are the same Candidate exactly when they hold the same outputs |
| `Candidate.ValidateAgainstSpec` | crates/pantheon-core/src/candidate.rs:248-267 | accepts exactly the mappings that supply every required slot and only declared ones; reports the first required slot that is missing, then the first that is not declared |
| `AgentControl.AgentStore.SubmitCandidate` | crates/pantheon-store/src/agent_control.rs:696-1064 | all of T6 or nothing: the committed tables are those of the specification, every refusal leaves every table unchanged |
| `AgentControl.AgentStore.CheckOutputs` | crates/pantheon-store/src/agent_control.rs:894-956 | the first failing output decides the refusal; no refusal exactly when every output is stored, of the declared kind, complete and produced by this Run for this slot; the declared slot always exists |
| `AgentControl.SubmitsIff` | crates/pantheon-store/src/agent_control.rs:696-1064 | a submission commits a new Candidate if and only if the session is authorized, the ledger does not already answer it, the whole lineage is live and current, revision, ids, specification and every output check out, the Run has no Candidate, and the engine takes the rows and the Event |
| `AgentEffects.CommitsIff` | crates/pantheon-store/src/agent_control.rs:696-1064 | the same condition told by rows: an active session of the generation in force with this verifier, a live Attempt that is current on an Active Run holding the slot, an Active Task naming the Run at the expected revision under a Goal in planning, active or evaluating, and so on |
| `AgentEffects.SubmitEffect` | crates/pantheon-store/src/agent_control.rs:974-1064 | what a committed submission leaves: the Run Finalizing towards Completed with this Candidate, its slot still held, one revision on; the Task Evaluating, same Goal, Run and specification, one revision on; the Candidate row, one row per output and the request row; every other row of every table as before, and nothing at all without a commit |
| `AgentEffects.ReconcilesIff` | crates/pantheon-store/src/agent_control.rs:704-750 | a submission is reconciled if and only if its own row records a stored Candidate of the same Run and content; the answer carries the revisions Task and Run have now |
| `AgentEffects.EarlyRefusals` | crates/pantheon-store/src/agent_control.rs:696-853 | exactly when a submission is unauthorized, conflicts with its request identity, or comes from an Attempt that holds no slot for a Task |
| `AgentEffects.HolderRefusals` | crates/pantheon-store/src/agent_control.rs:854-901 | for the holder of the slot: the Task's revision decides first, then the ids the Candidate names, then whether the specification is stored and met |
| `AgentEffects.OutputRefusals` | crates/pantheon-store/src/agent_control.rs:894-956 | the first output that is not supported decides: not stored under its declared kind, incomplete, or not produced by the Run for the slot |
| `AgentEffects.LastRefusals` | crates/pantheon-store/src/agent_control.rs:958-1064 | with every output supported, exactly a second Candidate of the Run and what the engine does not take are refused |
| `AgentControl.AgentStore.CheckSubmission` | crates/pantheon-store/src/agent_control.rs:753-972 | the read-only checks in their order; which refusal is reported is the first that fails |
| `AgentControl.AgentStore.ArtifactComplete` | crates/pantheon-store/src/agent_control.rs:1139-1193 | true exactly when every blob the manifest names is a member |
| `AgentControl.AgentStore.OpenAgentRequest` | crates/pantheon-store/src/agent_control.rs:538-582 | authenticate, then reconcile or create the STARTED row |
| `AgentControl.AgentStore.CompleteAgentRequest` | crates/pantheon-store/src/agent_control.rs:599-637 | only STARTED becomes SUCCEEDED |
| `AgentControl.AgentStore.FailAgentRequest` | crates/pantheon-store/src/agent_control.rs:642-664 | only STARTED becomes FAILED |
| `AgentEffects.OpenEffect` | crates/pantheon-store/src/agent_control.rs:538-582 | exactly when opening is unauthorized, a conflict, a reconciliation or new; a new row is STARTED under this Attempt, request and slot, and no other row changes |
| `AgentEffects.EndEffects` | crates/pantheon-store/src/agent_control.rs:599-664 | completing and failing change only a STARTED row, only in its state, to the named Artifact or code; a finished row is left alone |
| `AgentControl.AgentStore.CommitChangesetSeal` | crates/pantheon-store/src/artifacts.rs:149-345 | authority re-proven, immutable rows created once or reused, production recorded; every refusal leaves every table unchanged |
| `AgentEffects.PublishesIff` | crates/pantheon-store/src/artifacts.rs:149-345 | a publication commits if and only if the row is frozen at the fence, the authority holds, member sizes fit and agree with each other and with stored rows, the revision id is free, a stored Artifact of the digest is the same document, and the slot's production is free for a producer of the Run or already this one |
| `AgentEffects.PublishEffect` | crates/pantheon-store/src/artifacts.rs:149-345 | what it leaves: each member's blob row with its size, the revision row reused or new, the Artifact row, exactly the member rows, the production record with the revision it is recorded under; every other row of every table as before, and nothing at all without a commit |
| `AgentEffects.PublishRefusals` | crates/pantheon-store/src/artifacts.rs:149-339 | what a refused publication says, in the order it is found out |
| `AgentEffects.WriteRefusals` | crates/pantheon-store/src/artifacts.rs:208-411 | which constraint stops the writes, in the order they are made |
| `AgentControl.AgentStore.EnsureBlobs` | crates/pantheon-store/src/artifacts.rs:381-411 | every member row exists with its size, or the conflict is reported |
| `AgentControl.AuthorityRefusal` | crates/pantheon-store/src/seal.rs:63-224 | no refusal exactly when every re-read fact holds |
| `AgentEffects.AuthorityRefusedIff` | crates/pantheon-store/src/seal.rs:63-224 | with the companion rows in place a failed check is exactly invalid authority; a broken store is reported only when one of them is missing |
| `AgentControl.AgentStore.FreezeWorkspace` | crates/pantheon-store/src/workspace.rs:339-398 | a Ready, present Workspace under a valid authority and the expected revision is fenced at the next one; every refusal, in the order of the checks, leaves every table unchanged |
| `AgentEffects.FreezeEffect` | crates/pantheon-store/src/workspace.rs:339-398 | a freeze commits if and only if the Task's Workspace is Ready, present and at the expected revision under valid authority; exactly its row becomes Frozen, one revision on, and a refusal changes nothing |
| `AgentEffects.FreezeRefusals` | crates/pantheon-store/src/workspace.rs:339-398 | what a refused freeze says, in the order it is found out |
| `AgentControl.FenceRefusal` | crates/pantheon-store/src/workspace.rs:417-457 | revalidation passes exactly for a frozen, present Workspace of this Task at the expected revision under a valid authority |
| `AgentControl.ReportRefusal` | crates/pantheon-store/src/workspace.rs:475-500 | a capture failure is recordable exactly against a Workspace frozen at the expected revision |
| `AgentRuns.RunKept` | crates/pantheon-store/src/agent_control.rs:538-1064 | every run of ledger calls, publications, submissions and other activity keeps the invariant and never changes an immutable row |
| `AgentRuns.OneCandidatePerRun` | crates/pantheon-store/src/agent_control.rs:958-1064 | in every reachable state a Run has at most one Candidate and a Run with one is not Active |
| `AgentRuns.UnreachableRefusals` | crates/pantheon-store/src/agent_control.rs:958-1119 | CandidateExists, an incomplete Artifact and a content disagreement are unreachable; a storage refusal comes only from the request id or the final Event |
| `AgentRuns.RowOutcome` | crates/pantheon-store/src/agent_control.rs:1069-1119 | `load_committed_outcome` never errors |
| `AgentRuns.MatchingRowSucceeded` | crates/pantheon-store/src/agent_control.rs:741-750 | a row with a submission hash is a committed submission: the `prior_row` branch is never taken |
| `AgentRuns.LedgerAutomaton` | crates/pantheon-store/src/agent_control.rs:538-664 | SUCCEEDED and FAILED rows are absorbing, submit rows are only ever SUCCEEDED, immutable rows never change or vanish |
| `AgentRuns.ReplayIsStable` | crates/pantheon-engine/src/agent_control.rs:307-346 | after a committed submission the same outputs in any order, at any later time and under any expected revision, reconcile to the same Candidate and change nothing; other outputs under the same request id conflict and change nothing |
| `AgentRuns.SealToSubmitProvenance` | crates/pantheon-store/src/agent_control.rs:894-956 | each committed output has a production record for the same Run, slot and Artifact, the declared kind, and members covering every named blob |
| `AgentRuns.PublishedComplete` | crates/pantheon-engine/src/sealing.rs:839-888 | an Artifact published from the sealer passes the completeness check |
| `AgentRuns.PublicationNeverConflicts` | crates/pantheon-store/src/artifacts.rs:208-339 | a publication of the sealer never meets a contradicting Artifact or Blob row |
| `AgentRestores.HistorySound` | crates/pantheon-store/src/agent_control.rs:538-1064 | every state of every history that mixes these steps with restores to any earlier state is sound |
| `AgentRestores.OneCandidateAcrossRestores` | crates/pantheon-store/src/agent_control.rs:958-1064 | one Candidate per Run, on a Run that is not Active, however often the tables were restored |
| `AgentRestores.RestoreFencesForever` | crates/pantheon-store/src/agent_control.rs:220-290 | in every state of every history after a restore under an unused generation, further restores included, a session of any generation known before it is refused by all four ledger and submission calls, which change nothing |
| `AgentRestores.SnapshotStaysFenced` | crates/pantheon-store/src/agent_control.rs:220-290 | so every Attempt whose session survived in the snapshot stays fenced, whatever follows in that generation |
| `Gateway.SealArtifact` | crates/pantheon-engine/src/agent_control.rs:238-292 | an executed seal leaves the request SUCCEEDED with exactly the Artifact answered, and that is the Run's production for the slot if and only if the publication was new or had recorded the same name before; an error leaves at most the fence and the request's own row, refused with the code of that very error, and an error of capture or diff is what these failed on; a reconciled answer repeats the row, the code of a refusal included, and changes nothing; with an honest sealer every outcome keeps the whole-run invariant and all immutable rows |
| `Gateway.RefusalRecalled` | crates/pantheon-engine/src/agent_control.rs:461-493 | every code a seal records is told again to a retry as the same code; the code tells lost authority, a scope violation, a failed capture and a refusal of the store inside the sealer apart |
| `Gateway.DescribesIff` | crates/pantheon-store/src/agent_control.rs:401-523 | `describe` passes exactly an active session of the generation in force whose Attempt, Run and Task are live and whose specification is stored; slot and Goal are not looked at |
| `Gateway.PreliminaryIff` | crates/pantheon-engine/src/sealing.rs:472-490 | the sealer goes on exactly for an Active Task whose specification is stored and whose first output of the name is a changeset; an unusable Task comes before an invalid slot |
| `Gateway.CaptureAndPublish` | crates/pantheon-engine/src/sealing.rs:605-633 | a capture or diff that fails is told as what it failed on unless the report itself is refused; with honest, unfaulted ports a breach of scope is told so |
| `Gateway.Quiesce` | crates/pantheon-engine/src/sealing.rs:518-593 | the fence is established, replayed or revalidated: on success the row is frozen, present and at the returned revision; nothing but a Ready row becoming frozen ever changes; a Workspace that is neither Ready nor frozen and present is told apart from a refused command |
| `Gateway.PublishSealed` | crates/pantheon-engine/src/sealing.rs:857-903 | a new publication leaves the slot's production; a replay publishes nothing and still answers with what was captured now |
| `Gateway.DriveSeal` | crates/pantheon-engine/src/agent_control.rs:349-393 | authority, fence, capture, one publication: a failure leaves at most the fence, and bytes reach the CAS only for authorized paths; a success names the slot's production if and only if its publication was new or had recorded the same name before |
| `Gateway.SubmitResult` | crates/pantheon-engine/src/agent_control.rs:307-346 | equals the specification `AgentRuns.ReplayIsStable` is about: identities from the session, normalized outputs, T6 |
| `RunController.LaunchBoundary` | crates/pantheon-engine/src/run.rs:664-824 | with one controller at a time, a crash between any two steps and the Run taken out of Active by others at any moment: at most one `ensure_execution` per Attempt, after its durable contact marker, with the bearer whose verifier the session stores; no rekey after contact |
| `RunController.OnlyEvidenceEnds` | crates/pantheon-engine/src/run.rs:737-824 | failures and Unknown never end an Attempt, conclude the Run or make a new Attempt; only an Exited answer or an inspected absence does |
| `RunController.RunKeeps` | crates/pantheon-engine/src/run.rs:368-404 | rows, trace and controller memory agree after every step of every run |
| `RunController.RetryLimitIff` | crates/pantheon-engine/src/run.rs:828-854 | Attempts stay within the limit exactly as long as no step slips, crashes, faults and withdrawals elsewhere included; the first that slips leaves the Run Active, exhausted and idle |
| `RunController.LimitStepIff` | crates/pantheon-engine/src/run.rs:737-854 | one step breaks the limit's discipline if and only if it is a cut while deciding or concluding, or an Exited answer to the launch |
| `RunController.AnotherAttemptIff` | crates/pantheon-engine/src/run.rs:408-560 | an idle pass makes another Attempt if and only if the Run is Active and nothing is live, whatever the limit says |
| `RunController.RetryLimitBypassed` | crates/pantheon-engine/src/run.rs:737-752 | with a limit of one, an execution that exits at launch is followed by a second Attempt |
| `RunController.ConcludesInactiveIff` | crates/pantheon-engine/src/run.rs:828-854 | in every run, a conclusion that commits hits a Run already out of Active if and only if the Run was so when its revision was read; a pass that concludes because its gates fail never does |
| `RunController.FinalizingRunConcluded` | crates/pantheon-engine/src/run.rs:841-850 | a Run withdrawn while its Attempt is inspected, whose Attempt exited and whose limit is used up, is concluded nevertheless |
| `RivalControllers.TwoControllersLaunchTwice` | crates/pantheon-store/src/execution.rs:857-945 | two live controllers can launch one Attempt twice, once with a bearer the session no longer accepts |
| `RivalControllers.LaunchesAreAdmissions` | crates/pantheon-engine/src/run.rs:664-736 | over every interleaving of two controllers: launches made, pending or lost to a crash are the one executed T4b and the T4b steps that found the marker there |
| `RivalControllers.FurtherLaunchIff` | crates/pantheon-store/src/execution.rs:857-945 | an Attempt is launched again if and only if some T4b step found its marker already there, when no launch is pending or lost; and never without one |
| `RivalControllers.StaleLaunchIff` | crates/pantheon-store/src/execution.rs:895-910 | a launch carries a bearer the session does not store if and only if the revision the controller holds is not the session's credential revision |
| `RunController.LiveBelow` | crates/pantheon-store/src/execution.rs:502-575 | the current lineage is nonterminal; there is none exactly when all are terminal |
| `RunPasses.PassCreates` | crates/pantheon-engine/src/run.rs:408-560 | an undisturbed pass over an Active Run with nothing live, gates passing: exactly one Attempt more, uncontacted, its session active under the drawn verifier, whose bearer is held |
| `RunPasses.PassConcludes` | crates/pantheon-engine/src/run.rs:566-577 | when a gate fails the Run is concluded, its Attempts untouched |
| `RunPasses.PassLaunches` | crates/pantheon-engine/src/run.rs:664-778 | an undisturbed pass over an uncontacted Attempt whose bearer is held: the marker, then exactly one launch with that bearer, then what it answered recorded, terminal exactly when Exited |
| `RunPasses.PassRekeysAndLaunches` | crates/pantheon-engine/src/run.rs:664-778 | when the bearer is lost: one rekey, then the same with the new bearer |
| `RunPasses.PassInspects` | crates/pantheon-engine/src/run.rs:780-854 | an undisturbed pass over a contacted Attempt: one inspection, what it saw recorded; exited or absent the Attempt and its session end, and exactly with the limit used up the Run is concluded |
| `RunPasses.PassRests` | crates/pantheon-engine/src/run.rs:368-404 | a Run that is not Active is left alone |
| `Workspace.CrashSafety` | crates/pantheon-engine/src/workspace.rs:414-473 | with one caller at a time and crashes anywhere: no discard or materialize once the Workspace was Ready, none before the durable marker, always at the opened base; a recorded failure never claims Present |
| `Workspace.BaseNeverChanges` | crates/pantheon-store/src/workspace.rs:113-168 | in every later state the bound base is the one the Workspace was opened with |
| `Workspace.EnsureProgress` | crates/pantheon-engine/src/workspace.rs:329-473 | whatever earlier calls and crashes left, one undisturbed call brings a never-Ready Workspace to Ready at its base |
| `Workspace.FirstEnsureReachesReady` | crates/pantheon-engine/src/workspace.rs:329-473 | the first undisturbed call opens the row at the resolved base, marks, discards, builds and ends Ready, in that order |
| `Workspace.EnsureFails` | crates/pantheon-engine/src/workspace.rs:414-553 | a call whose discard or build fails leaves the row in Error, known absent or unknown and never present, with exactly one failure recorded |
| `Workspace.ReadyIffVerified` | crates/pantheon-store/src/workspace.rs:225-278 | a build becomes Ready if and only if what was verified is the bound base; otherwise nothing changes |
| `Workspace.EnsureLeavesAlone` | crates/pantheon-engine/src/workspace.rs:329-363 | a Workspace that was handed out, one requested otherwise, and a base that does not resolve: nothing changes |
| `Workspace.DisturbsReadyIff` | crates/pantheon-engine/src/workspace.rs:414-473 | in every interleaving of any number of callers, a discard or build hits a Workspace that has been Ready if and only if the row re-read at that moment is Ready, Frozen or Releasing |
| `Workspace.PausedCallerDiscardsReady` | crates/pantheon-engine/src/workspace.rs:312-322 | with no identity shared and no marker replayed, a caller paused after its own marker discards the Workspace another has made Ready |
| `Workspace.SharedIdentityDiscardsReady` | crates/pantheon-engine/src/workspace.rs:642-684 | two live callers sharing a command identity: the second discards a Ready Workspace |
| `Cas.ObjectIntegrity` | crates/pantheon-cas/src/lib.rs:129-214 | for any interleaving, death and power loss, every digest-named object holds the complete bytes hashing to its name and reads back |
| `Cas.PublishedReadable` | crates/pantheon-cas/src/lib.rs:159-214 | an answered publication is readable as exactly its bytes |
| `Cas.PublishNew` | crates/pantheon-cas/src/lib.rs:129-214 | new bytes, left alone: stored complete and synced under their digest, the name certain, nothing of the staging left and no other name touched |
| `Cas.PublishExisting` | crates/pantheon-cas/src/lib.rs:159-171 | bytes whose object is there are answered after one verified read, and no file changes |
| `Cas.ReadIff` | crates/pantheon-cas/src/lib.rs:96-126 | a read answers exactly the stored bytes when they are the referenced ones; other bytes there are corruption, no file is absence |
| `Cas.DurableForever` | crates/pantheon-cas/src/lib.rs:151-155 | an answer given after the directory sync survives every later power loss |
| `Cas.EarlyAnswerNotDurable` | crates/pantheon-cas/src/lib.rs:168-171 | an answer given because the object was already there can still be lost with power |
| `Cas.SurvivesPowerLossIff` | crates/pantheon-cas/src/lib.rs:129-171 | an answered publication survives every power loss if and only if a directory sync has made its name certain |
| `Cas.AnswerCertainIff` | crates/pantheon-cas/src/lib.rs:129-171 | the answer after the directory sync makes its name certain; the two that found the object there already, before staging or when linking, do if and only if somebody's sync has |
| `Cas.ReadVerified` | crates/pantheon-cas/src/lib.rs:96-126 | returned bytes have the size and digest of the reference |
| `Cas.StagingName` | crates/pantheon-cas/src/lib.rs:176-211 | the staging loop ends at the first free number for every finite set of leftovers |
| `Scheduling.ServiceOrder` | crates/pantheon-core/src/scheduling.rs:88-114 | every eligible Task once: Goals longest unserved first, never served before all, ties by id; within a Goal the longest eligible Task first, ties by id |
| `Scheduling.OrderCanonical` | crates/pantheon-core/src/scheduling.rs:88-114 | the order is the same for every permutation of rows that agree and of Tasks |
| `Scheduling.RowOrderIrrelevantIff` | crates/pantheon-core/src/scheduling.rs:96-100 | row order never shows if and only if rows naming one Goal agree |
| `Scheduling.ScheduleOnce` | crates/pantheon-engine/src/scheduling.rs:126-196 | a closed gate suppresses the cycle; otherwise a backoff is recorded for each Task passed over, and the walk ends at the first that routes, at a backoff it cannot record, or deferred; a Task is never chosen while a routable Task of its Goal has been eligible longer, or a routable one of a Goal unserved longer waits |
| `Scheduling.ChosenIsFirst` | crates/pantheon-engine/src/scheduling.rs:162-196 | the Task taken to T3 is the first of the order that routes; a cycle that takes none has none, or could not record a backoff ahead of it |
| `Scheduling.ChosenHasPrecedence` | crates/pantheon-engine/src/scheduling.rs:162-196 | told by eligibility, service and ids: nothing speaks for taking another routable Task first |
| `Scheduling.BackoffsExactly` | crates/pantheon-engine/src/scheduling.rs:162-196 | a backoff is recorded exactly for the passed-over Tasks whose refusal has a code, with that code |
| `Scheduling.BoundedWaiting` | crates/pantheon-engine/src/scheduling.rs:152-196 | a Goal that keeps a routable eligible Task waits for at most N - 1 commits, each to a different other Goal, within 64-bit service sequences |
| `Scheduling.BoundedTaskWaiting` | crates/pantheon-store/src/scheduling.rs:872-942 | a Task that stays eligible and routable: each service of its Goal before its own goes to a different older Task, and with k older Tasks and N Goals at most (k + 1) N - 1 commits come first |
| `Scheduling.AheadShrinks` | crates/pantheon-store/src/scheduling.rs:872-925 | each commit to another Goal removes exactly one Goal from those ahead |
| `CandidateSelection.ValidateCandidate` | crates/pantheon-core/src/execution.rs:620-750 | accepts exactly the compatible offers; rejects any other for the first reason that applies, in the order of the checks |
| `CandidateSelection.CompatibleIff` | crates/pantheon-core/src/execution.rs:620-751 | an offer is compatible if and only if none of the thirteen reasons to reject it applies |
| `CandidateSelection.FirstQuantity` | crates/pantheon-core/src/execution.rs:921-926 | a resource is supplied in the first quantity listed under its name |
| `CandidateSelection.ComparePreorderIff` | crates/pantheon-core/src/execution.rs:829-871 | the comparison is a total preorder on candidates of given policies if and only if policies of one name and priority agree on capacity and on the tie break |
| `CandidateSelection.EqualMeansSame` | crates/pantheon-core/src/execution.rs:858-871 | candidates that compare equal have the same digest, policy and offered terms |
| `CandidateSelection.SelectCandidate` | crates/pantheon-core/src/execution.rs:755-763 | selects none only from none; no candidate has a higher priority than the selected one, nor at that priority an earlier policy name; when policies of one name and priority agree, it is best field by field: capacity when the policy counts it, backend when it breaks ties, then agent, version, backend, descriptor revision and offer digest |
| `CandidateSelection.LeastIsBestIff` | crates/pantheon-core/src/execution.rs:829-871 | being least under the comparison is being best on the fields, for any candidates |
| `CandidateSelection.SelectionCanonical` | crates/pantheon-core/src/execution.rs:755-763 | the selected digest, policy and offered terms are the same for every permutation of the candidates |
| `CandidateSelection.Collect` | crates/pantheon-engine/src/routing.rs:283-316 | the nested loops compute the collection the next row is about, or the first backend failure |
| `CandidateSelection.CollectedExactly` | crates/pantheon-engine/src/routing.rs:283-316 | a candidate is collected if and only if some request, some enabled and available backend and some compatible offer of it make it |
| `CandidateSelection.CollectionFails` | crates/pantheon-engine/src/routing.rs:283-299 | collecting fails exactly when an asked backend fails, with the first failure: of the first request that meets one, the backend walked first |
| `CandidateSelection.AdmitBackends` | crates/pantheon-engine/src/routing.rs:253-277 | reports the first refusal in registration order, and none exactly when every id is registered and described once |
| `CandidateSelection.RefusalCanonicalIff` | crates/pantheon-engine/src/routing.rs:253-277 | every registration order is refused alike, or admitted alike, if and only if at most one id offends (unregistered, or registered and described twice) |
| `CandidateSelection.Route` | crates/pantheon-engine/src/routing.rs:240-344 | repeated and unregistered backends and a superseded configuration are refused; otherwise the candidate of highest priority and first policy name, best field by field when policies of one name and priority agree, is returned with the request it was validated against, and the final lookup never fails |
| `CandidateSelection.RoutingCanonical` | crates/pantheon-engine/src/routing.rs:278-344 | registering admitted backends in another order changes no answer |
| `CandidateSelection.BackendOrderCanonical` | crates/pantheon-engine/src/routing.rs:278-281 | distinct backend ids make the sorted walk the same for every registration order |
| `ContextDrop.ApplyOptionalDrop` | crates/pantheon-core/src/context.rs:550-586 | the nested loops terminate; each dropped section left a plan that was still too large, as the weakest of the first listed kind with any left, and in the end the plan fits or no listed kind has a preload section left |
| `ContextDrop.DropUniqueIff` | crates/pantheon-core/src/context.rs:550-586 | and the loops compute the only drop of which this is true |
| `ContextDrop.DropJustified` | crates/pantheon-core/src/context.rs:557-584 | a section leaves only while the plan is still too large, and is then the one of weakest stratum and greatest key of its kind, earlier kinds being exhausted |
| `ContextDrop.Partition` | crates/pantheon-core/src/context.rs:550-586 | with distinct kind-and-key pairs survivors and dropped partition the input, and only preload sections leave |
| `ContextDrop.DropExcept` | crates/pantheon-core/src/context.rs:574-575 | survivors are exactly the input without the dropped pairs, in place |
| `ContextDrop.TierOrder` | crates/pantheon-core/src/context.rs:562-569 | within a kind nothing leaves twice and sections leave in reverse total order |
| `ContextDrop.DropFollowsPolicy` | crates/pantheon-core/src/context.rs:557-584 | kinds leave in policy order |
| `ContextDrop.LaterTiersDiffer` | crates/pantheon-core/src/context.rs:557-584 | a kind whose turn is over loses nothing later |
| `ContextDrop.FitsOrExhausted` | crates/pantheon-core/src/context.rs:557-584 | in the end the plan fits or no preload section of a listed kind remains |
| `ContextDrop.ProtectedSurviveIff` | crates/pantheon-core/src/context.rs:574-575 | mandatory and on-demand sections survive every measurement if and only if none shares kind and key with a droppable section |
| `ContextDrop.DropPermuted` | crates/pantheon-core/src/context.rs:550-586 | the same sections drop in the same order whatever order they were supplied in |

## Left out

- HTTP transport, CLI, rendering, wire types and Unix sockets: field copying with easy properties only.
- Container and Git process spawning, the sterile profile, `git hash-object` output parsing: facts about external tools.
- One instant for the confined walk: its tree is what each inspection found, entries that change under it being faults; that these inspections describe one moment is the fence's promise (`SealProtocol.PublishedUnderFence`).
- Gateway.DriveSeal: as if nothing else ran between its transactions, with what the command envelope finds as a parameter; interleavings, derived identities and the ledger behind that parameter are `SealProtocol`, over one Workspace, with authority as the set of claims that would pass now.
- Scope compilation and the Workspace's repository binding before the fence: reads that can only refuse.
- Replay of a submission across a restore: the session fence refuses it (`AgentRestores.RestoreFencesForever`); the stable replay is proved within one generation.
- AgentControl.AgentStore.CommitChangesetSeal: the transaction inside the command envelope; the envelope and its replay are `CommandKernel` and `SealProtocol`, where the tables are reduced to the row, the Artifacts and the production records.
- Released Workspaces and a successor Workspace of the same Task.
- Agent resolution, request building and T3 revalidation: which of its facts moved is one flag of a scheduling cycle.
- `build_context_plan` apart from the optional drop.
- Rejection details (missing names, offsets, diagnostic text), the list of rejected offers a routing without candidates carries, and which of several storage constraints fires first.
- Configuration publication, sandbox provisioning, planning controllers, Python scripts.
- UTF-8 as bytes in the JSON writer and reader: text is a sequence of characters.
- RunController.LaunchBoundary: one Run at a time, and one RestoreGeneration; the session generation fence of T4a and T4b is `AgentRestores.RestoreFencesForever`.
- Capture.WalkFaithful: identity checks, opens and bounded reads that fail are one kind of entry, without their fault codes.
