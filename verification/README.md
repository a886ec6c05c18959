# Evidence chain: a model and its proofs

This project models, in Dafny, the code that decides what may be signed into an
evidence chain, commits to it, exports it and accepts it, and proves what that code
is for. Every theorem is about all inputs, all runs or all reachable states.

The layers, from the bottom:

- **Commitment.** `Merkle`, `MerkleBinding`, `Frontier`: the RFC 6962 tree as a
  recursive root, a recursive audit path, an index walk and a binary-counter
  frontier, and that the four agree for every size. `PowersOfTwo` and `Hex` serve them.
- **Signer.** `Receipts`, `Journal`, `StateDirectory`, `Signer`, `InitFromDb` are the
  operations; `SignerRuns` is the machine: a signature is a sequence of a journal
  append, flushes, a temporary file, a rename and a reply, and the process may be killed
  or the power cut between any two. `SignerSafety` proves what every step keeps,
  `SignerTheorems` what that means over whole runs, and `SignerRefines` that each call of
  the class is a run of the machine.
- **Verifier and exporter.** `Verifier` and `VerifyBundle` are the checks,
  `VerifierMeaning` what each of them asks of the lines of an export and what is reported;
  `ArtifactsIndex` is the comparison of step 9. `Archive` is the exporter and
  `ArchiveVerifies` that what it builds is accepted and complete. `PreviousExport`, and
  `VerifiedExports`, where the comparison with an earlier export is put together with
  verification; `StableSort` is the sort both exporter and anchoring rely on.
- **The claim from end to end.** `TamperEvidence`: what an accepted export says of the
  signer's chain. `SignersArchive`, the other way: everything the signer ever signs
  verifies, and an archive of its chain is accepted.
- **Anchoring in time.** `Anchoring` is the one-pass computation, `AnchorMeaning` its
  meaning over every pair of a receipt and a checkpoint.
- **Container.** `Crc32`, `Zip`, `ZipReader`, and `ZipDamage`: what a reader does with
  an archive damaged on the way.
- **State machines beside it.** `Framing` (lines out of chunks), `Checkpointer` (the
  chain of promises of the checkpoint runs) over `RunQueue` (the queue it stands for),
  `ConnectionWatch`, `WatchRuns`, `SharedGaps`, `ConnectionStatus` (the heartbeat),
  `Throttle`, `ThrottleHistory`, `SlidingWindow`.

`dafny verify dfyconfig.toml` checks all of it.

## How it is modelled

Code that changes things step by step is a class or a method with a loop, proved against
a specification function; what the source promises is proved of that function. Values are
datatypes. Times are integer milliseconds. A digest is 32 bytes, a hex string of the
source is the bytes it stands for, and `undefined` and `null` are `None`.

What is not looked into is a constant of function type of which nothing is known:
SHA-256, Ed25519, the canonical form of RFC 8785, JSON, UTF-8, deflate, decimal digits and
the sort of strings. The facts used of them are named predicates that the
theorems require: `CanonicalForms` (a canonical form determines its receipt or checkpoint,
and no receipt has the form of a checkpoint), `JsonLines` (a receipt is one line of JSON,
read back as written, no proper beginning of which parses), `Recovers` (inflate undoes
deflate, and a name survives UTF-8), `IsKeyPair` (what a private key signs, its public key
verifies), `Decimals` and `Sorts` (digits tell numbers apart, a sort keeps the strings and
depends on nothing else). SHA-256 is never assumed injective: a binding theorem
ends in two different messages with one digest, constructed. Signatures enter as a
hypothesis on the export at hand, `NoneForged`: what verifies in it under the signer's own
key is a digest the signer replied.

Files are modelled at the level of write, fsync, rename and the fsync of a directory. A
kill leaves everything written; a power cut leaves what was flushed and an arbitrary part
of the rest: any beginning of a journal's unflushed text, the journal's directory entry or
not, and any of the unflushed renames, in order. It is assumed that file names (a hash of the
system identifier) do not clash. What no power cut can take away of a system's chain is
`Durable`; the theorems about replies and exports are about that chain.

## Where the code promises less than its comments

- A reply can be lost. The comments of `apps/signer/src/signer.ts:82-86` say that the new
  state is on disk before a signature is returned, which is so for SIGN_RECEIPT. But a process
  killed after the rename and before the directory flush (`apps/signer/src/state.ts:281-282`)
  comes back with the new head in memory, and GET_HEAD, GET_RECEIPTS or CHECKPOINT then
  reply from a rename that a power cut may still undo. `HeadSurvivesIffSettled`,
  `CheckpointSurvivesIffSettled` and `ReceiptsSurviveIffSettled` are the exact conditions,
  `UnsettledReplyCanFork` and `ForkWithinReach` runs that reply two receipts at one position,
  and `NoForkUnderPowerCuts` needs no condition because without such a kill every reply is
  settled.
- A journal can lose its beginning. `record` flushes the journal's directory entry only when
  it creates the file (`apps/signer/src/state.ts:213-231`), so a process killed before that
  flush leaves it to the next `put`; a power cut between that rename and its flush may keep
  the state and lose the journal. `JournalBeginsLaterIff` is the exact condition;
  `GetReceiptsIsExact` says what GET_RECEIPTS then answers, and `RecoveryIsExact` that it is
  exact where no power cut does that.
- The artifacts index is compared as text: keys joined by newlines
  (`packages/verifier/src/verify.ts:327`), though a label may hold one, so an index can
  pass without listing exactly what the receipts declare (`:288-291`). `OneEntryPassesForTwo`
  is an input, within the schema for short labels; `IndexIsExact` says that where no label
  holds a newline it passes exactly when it lists that.
- `trustedKeyIds` compares 8-byte identifiers, and the key used is the one the manifest
  publishes (`packages/verifier/src/verify.ts:153-171, 262-280`). The end-to-end theorem
  therefore has a third outcome beside the genuine chain and a collision of digests:
  another public key with the same identifier.
- A full throttle forgets clients with nothing in the window "left to hold against them"
  (`apps/server/src/auth/throttle.ts:93-100`), and with them how often they were locked out,
  which would otherwise be held for `forgetAfterMs`: `EvictionForgetsLockouts` is an input.
  `ForgetsExactly` says who is forgotten, and `MatchesThroughoutIff` that memory stands for a
  client's history exactly when that client never was; `FewClientsAreKept` gives a condition
  that rules it out.
- With `maxLockoutMs` above `forgetAfterMs` a failed attempt can end a lockout:
  `FailureCanEndALockout` is an input, `LockedFailureChangesNothing` and
  `LockedFailureKeepsLockedIff` say exactly when.
- The allowance of gaps is kept by session identifier alone
  (`apps/server/src/connection/watch.ts:236-239`), so two systems whose sessions have one
  identifier share it: `AnotherSystemsGapsRefuse` is an input, `GapAcceptedIff` the exact
  condition.

## Model

| member | source | states |
|---|---|---|
| `Merkle.SplitPoint` | packages/core/src/merkle.ts:43-49 | the loop ends at the largest power of two strictly below n, for every n of at least 2 |
| `Merkle.MerkleRoot` | packages/core/src/merkle.ts:51-62 | the recursive method computes the tree hash of RFC 6962 section 2.1 of any list |
| `Merkle.InclusionProof` | packages/core/src/merkle.ts:65-77 | the audit path of RFC 6962 section 2.1.1 for an index in the tree, an error for any other |
| `Merkle.AuditPathLength` | packages/core/src/merkle.ts:80-86 | the number of steps of that path, from the index and the size alone |
| `Merkle.PathRebuildsRoot` | packages/core/src/merkle.ts:65-77 | an honest path, read by recursion on the split, rebuilds the root of every list at every index |
| `Merkle.WalkIsPathRoot` | packages/core/src/merkle.ts:114-131 | the index walk over the path of any subtree, wherever it lies in a larger tree, computes the recursive root and leaves both indices shifted by the height, right-edge promotion included |
| `Merkle.WalkRebuildsRoot` | packages/core/src/merkle.ts:97-134 | the loop over leafIndex and lastIndex refines the recursive verifier for every index, size and path of the expected length, and ends at the root |
| `Merkle.NeverAtTheTopEarly` | packages/core/src/merkle.ts:93-131 | the walk never reaches the root with steps left over |
| `Merkle.RootFromInclusionProof` | packages/core/src/merkle.ts:97-134 | the method answers the recursive root, or the first error: not in the tree, wrong length, a step that is no digest |
| `Merkle.HonestProofRebuildsRoot` | packages/core/src/merkle.ts:64-134 | every proof inclusionProof makes is accepted and rebuilds merkleRoot |
| `MerkleBinding.TreeCollision` | packages/core/src/merkle.ts:25-62 | from two different lists, of any two sizes, with one root: two different messages with one digest, constructed |
| `MerkleBinding.RootBinds` | packages/core/src/merkle.ts:6-10 | equal roots mean equal lists, or that collision is real |
| `MerkleBinding.PathCollision` | packages/core/src/merkle.ts:97-134 | from two different (entry, path) pairs that rebuild one root at one index and size: a collision, constructed |
| `MerkleBinding.AcceptedProofIsHonest` | packages/core/src/merkle.ts:88-134 | a proof accepted against a tree's root is the tree's own proof of the tree's own entry, or a collision is at hand |
| `Frontier.FrontierAppend` | packages/core/src/merkle-frontier.ts:47-57 | the carry loop adds one entry as specified, and throws only when nodes run out |
| `Frontier.FrontierRoot` | packages/core/src/merkle-frontier.ts:60-71 | the loop folds the nodes from the right |
| `Frontier.FoldIsRoot` | packages/core/src/merkle-frontier.ts:59-71 | the fold of the perfect-subtree roots of any list is its merkleRoot |
| `Frontier.CarryAppends` | packages/core/src/merkle-frontier.ts:42-57 | carrying through any number of trailing one bits turns the roots of one list into those of the list with the new entries |
| `Frontier.AppendIsFrontier` | packages/core/src/merkle-frontier.ts:47-57 | appending to the frontier of any list gives the frontier of the list one longer; the throw for too few nodes is unreachable |
| `Frontier.FrontierFold` | packages/core/src/merkle-frontier.ts:38-71 | from emptyFrontier, appending every entry and taking the root is merkleRoot of the entries |
| `Frontier.OneNodePerSetBit` | packages/core/src/merkle-frontier.ts:5-8 | a frontier holds exactly one node per set bit of its size |
| `Frontier.NodesArePerfectSubtrees` | packages/core/src/merkle-frontier.ts:5-8 | its nodes are the roots of perfect subtrees, each of a power of two, the largest first, one after the other over the leaves |
| `Frontier.CountSetBits` | packages/core/src/merkle-frontier.ts:32-36 | the counting loop of setBits |
| `Frontier.ParseSerialized` | packages/core/src/merkle-frontier.ts:73-106 | a serialized frontier is read back, unchanged, exactly when it holds as many nodes as its size has set bits |
| `Frontier.FrontierOfParses` | packages/core/src/merkle-frontier.ts:73-106 | so the frontier of every list is read back |
| `Hex.FromToHex` | packages/core/src/canonical.ts:45-62 | fromHex undoes toHex for every byte sequence |
| `Receipts.Hashes` | packages/core/src/receipt.ts:360-367 | the receipt hashes of a chain, position by position |
| `Journal.EntriesAfterTerminated` | apps/signer/src/state.ts:246-256 | text appended after a terminated journal is read apart from it |
| `Journal.PartialAppend` | apps/signer/src/state.ts:202-231 | whatever beginning of the appended text reaches the file, after any text, torn or not, it reads as that receipt or as nothing, and the whole of it as that receipt |
| `Journal.HoldsUnderAppend` | apps/signer/src/state.ts:202-212 | a record ahead of the state keeps the journal exact for the chain with and without it |
| `StateDirectory.StateFileRoundTrip` | apps/signer/src/state.ts:105-146 | a state file is read back, unchanged, exactly when its head, hash, seq and frontier agree |
| `StateDirectory.ChainStateRoundTrip` | apps/signer/src/state.ts:105-146 | the state of every chain is read back: open never rejects what put wrote |
| `StateDirectory.ReadsExactlyStates` | apps/signer/src/state.ts:118-146 | of any file: it is read exactly when it has the format and its members agree with each other, and as what it says |
| `StateDirectory.RefusalOfStateText` | apps/signer/src/state.ts:118-146 | otherwise the error names the first thing wrong: not a state, its frontier, its system, its seq, its hash, the size of its frontier |
| `StateDirectory.ReceiptsAreTheChain` | apps/signer/src/state.ts:233-267 | from a journal that holds the chain from some position on, the answer is exactly the window asked for, or of an older chain a contiguous beginning of it |
| `StateDirectory.ReadJournal` | apps/signer/src/state.ts:245-259 | the loop over lines keeps, per position, the last receipt of the system between from and the head |
| `StateDirectory.CollectFound` | apps/signer/src/state.ts:260-266 | the loop from the first position answers the longest contiguous run, at most limit long |
| `StateDirectory.StateDirectory.Open` | apps/signer/src/state.ts:164-187 | the whole new directory and memory: temporaries dropped and every state file read, or refused exactly when one is not what put could have written |
| `StateDirectory.StateDirectory.Record` | apps/signer/src/state.ts:213-231 | the whole new directory after a recorded receipt: appended, flushed, and its directory entry when the file is new |
| `StateDirectory.StateDirectory.Put` | apps/signer/src/state.ts:270-284 | the whole new directory and memory after a put: written, flushed, renamed, directory flushed, then remembered |
| `StateDirectory.AfterPut` | apps/signer/src/state.ts:269-284 | a put leaves one state file that no power cut can undo, no temporary and the journal as it was, and flushes every other name there was |
| `StateDirectory.AfterRecord` | apps/signer/src/state.ts:213-231 | a record leaves the text appended and flushed, and the name of a journal it began on disk |
| `StateDirectory.RenameNeedsTheFlush` | apps/signer/src/state.ts:270-284 | without the flush before the rename, open could refuse the file |
| `StateDirectory.StateDirectory.Receipts` | apps/signer/src/state.ts:240-267 | the method answers what the specification reads from the journal and the head |
| `Signer.AcceptsExactlyTheNext` | apps/signer/src/signer.ts:87-134 | the checks accept a receipt exactly when it is the next of its chain: this key, position, link, genesis at 0 only, within the tolerance of the clock, not before the last, system not retired |
| `Signer.RefusalsAreExact` | apps/signer/src/signer.ts:87-134 | which refusal a receipt meets: invalid exactly for what is wrong with it alone, sequence for its place in the chain or a retired system, clock for its time, in that order |
| `Signer.WhatIsSignedVerifies` | apps/signer/src/signer.ts:136-139 | what the signer answers is the receipt asked for, its signature over the receipt hash, and verifies under the public key |
| `Signer.NextIsStateOfLonger` | apps/signer/src/signer.ts:136-148 | what is remembered of an accepted receipt is the state of the chain one longer, and appending cannot throw |
| `Signer.ClockOrderKept` | apps/signer/src/signer.ts:121-134 | an accepted receipt keeps ts_received non-decreasing |
| `Signer.Signer.SignReceipt` | apps/signer/src/signer.ts:87-149 | a refusal changes nothing; an answer verifies under the key as the receipt asked for, and comes with the journal, the state file and memory all advanced |
| `Signer.Signer.Checkpoint` | apps/signer/src/signer.ts:152-168 | a checkpoint over the state, whose signature verifies under the key, for the system asked for, or unknown_system |
| `Signer.Signer.GetReceipts` | apps/signer/src/signer.ts:175-180 | the recorded receipts of a known chain, or unknown_system |
| `Signer.Signer.Head` | apps/signer/src/signer.ts:183-186 | the head of a known chain, or none |
| `Signer.CheckpointCoversChain` | apps/signer/src/signer.ts:152-168 | every checkpoint has tree_size seq + 1 and the Merkle root of all the receipt hashes of the chain |
| `InitFromDb.ValidRowsAreAStoredChain` | apps/signer/src/init-from-db.ts:56-83 | no row is refused exactly when the rows are one chain of the system, each stored and signed as it says |
| `InitFromDb.ChainStateOf` | apps/signer/src/init-from-db.ts:56-83 | the loop answers the state reached by signing those receipts one by one, exactly for a valid non-empty stored chain; for no rows it answers that there are none; otherwise the error of the first row that is refused, every row before it being valid |
| `SignerSafety.RestartSucceeds` | apps/signer/src/state.ts:164-187 | in every state a crash can leave, open succeeds and loads what the chain on disk stands for |
| `SignerSafety.StepKeeps` | apps/signer/src/signer.ts:87-149 | every step of a signature, kill, power cut and restart keeps the invariant that ties journal, state file, temporary and memory to one chain per system |
| `SignerSafety.CutKeeps` | apps/signer/src/state.ts:148-156 | whatever part of the unflushed writes survives a power cut, the files still hold one chain |
| `SignerTheorems.RunKeeps` | apps/signer/src/signer.ts:87-149 | the invariant, and with settled replies the record of everything replied, over every run |
| `SignerTheorems.DurableGrows` | apps/signer/src/state.ts:213-284 | the part of a chain no power cut can take away only ever grows |
| `SignerTheorems.NoFork` | apps/signer/src/signer.ts:82-149 | over every run with crashes at any step and settled replies: one receipt per system and position, each linked to the one before, in order of time, and none of a retired system |
| `SignerTheorems.NoForkUnderPowerCuts` | apps/signer/src/state.ts:270-284 | the same with no condition where the process is never killed by itself |
| `SignerTheorems.RestartRemembers` | apps/signer/src/state.ts:164-187 | after any crash of any run with settled replies the signer starts, and its head is at or past every receipt ever replied |
| `SignerTheorems.HeadSurvivesIffSettled` | apps/signer/src/state.ts:269-284 | a head read from memory survives every power cut that may follow if and only if the rename that made it visible was flushed when it was read |
| `SignerTheorems.CheckpointSurvivesIffSettled` | apps/signer/src/state.ts:269-284 | and so does a checkpoint: it is over the chain that lasts, whatever the power cut, exactly then |
| `SignerTheorems.ReceiptsSurviveIffSettled` | apps/signer/src/state.ts:233-267 | receipts answered survive every power cut exactly when the window answered stays within the part that is flushed |
| `SignerTheorems.UnsettledReplyCanFork` | apps/signer/src/state.ts:269-284 | otherwise, however many renames are unflushed, a reply, a power cut and a signature give two receipts at one position |
| `SignerTheorems.ForkWithinReach` | apps/signer/src/state.ts:269-284 | from every idle signer, for any two receipts that are both next, a concrete run replies both |
| `SignerTheorems.GetReceiptsIsExact` | apps/signer/src/state.ts:233-267 | in every reachable state, whatever crashes left in the journal, GET_RECEIPTS answers a contiguous beginning of the signed window from `from`, at most limit long and never past the head; all of it from any position the journal was begun at or before, and at the head |
| `SignerTheorems.JournalBeginsLaterIff` | apps/signer/src/state.ts:213-231 | a power cut makes a journal begin later exactly when it keeps a rename and loses the name of the journal |
| `SignerTheorems.RecoveryIsExact` | apps/signer/src/state.ts:233-267 | so over every run in which no power cut does that, GET_RECEIPTS is exactly the window of the chain from any position signed with the journal |
| `SignerTheorems.UninterruptedIsSignReceipt` | apps/signer/src/signer.ts:87-149 | the steps of a signature that nothing interrupts leave files, memory and replies as the contract of SignReceipt says |
| `SignerRefines.SignReceiptIsARun` | apps/signer/src/signer.ts:87-149 | a call of signReceipt is a run of the machine that keeps its invariant: no event where it refuses, a whole signature where it answers; it never fails |
| `SignerRefines.HeadIsARun` | apps/signer/src/signer.ts:182-186 | a head is what the event GET_HEAD exposes |
| `SignerRefines.GetReceiptsIsARun` | apps/signer/src/signer.ts:170-180 | the receipts answered are what the event GET_RECEIPTS exposes |
| `SignerRefines.CheckpointIsARun` | apps/signer/src/signer.ts:151-168 | the checkpoint answered is what the event CHECKPOINT issues |
| `SignerRefines.OpenIsRestart` | apps/signer/src/state.ts:164-187 | opening what any crash left is never refused, and is the event of a restart |
| `SignerTheorems.CheckpointsArePrefixes` | apps/signer/src/signer.ts:151-168 | any two checkpoints ever issued for a system are over two beginnings of the chain the signer keeps |
| `SignersArchive.EverySignatureVerifies` | apps/signer/src/signer.ts:136-168 | over every run: each receipt of a chain past the migrated ones, on disk or in memory, and each checkpoint issued names the key and verifies under it |
| `SignersArchive.EveryReplyVerifies` | apps/signer/src/signer.ts:136-149 | over every run: so does every receipt ever replied |
| `SignersArchive.SignersArchiveVerifies` | apps/server/src/export/archive.ts:104-239 | over every run: an archive of any window the signer signed of its own chain, with checkpoints it issued and its key published, is accepted, whether or not only that key is trusted |
| `Verifier.ParseLines` | packages/verifier/src/verify.ts:179-192 | every line parsed, or the check of the first that does not |
| `Verifier.ReadKeys` | packages/verifier/src/verify.ts:153-171 | the keys by identifier, exactly when each is 32 bytes under its own derived identifier |
| `Verifier.KeyMapIsDerived` | packages/verifier/src/verify.ts:159-170 | every key tried is one published under its own identifier |
| `Verifier.KeyIdsAreThePublished` | packages/verifier/src/verify.ts:569-577 | the key identifiers of the summary are exactly those published, each once |
| `Verifier.CheckReceipts` | packages/verifier/src/verify.ts:194-287 | the loops report the first rule the receipts break: system, range, sequence, genesis, link, key, signature |
| `Verifier.AllSigned` | packages/verifier/src/verify.ts:262-287 | no signature failure exactly when every receipt is signed by a published, expected key |
| `Verifier.FindInSequence` | packages/verifier/src/verify.ts:350-353 | in a checked sequence find answers the receipt at that position, or nothing |
| `Verifier.CheckIndex` | packages/verifier/src/verify.ts:289-333 | passes exactly when the sorted keys of what the receipts declare and of what is indexed join to one text; otherwise artifacts-index |
| `ArtifactsIndex.KeyTellsApart` | packages/verifier/src/verify.ts:292-297 | two artifacts have one key only if they are the same, at the same position |
| `ArtifactsIndex.IndexIsExact` | packages/verifier/src/verify.ts:288-333 | where no label holds a newline, the index passes exactly when it lists every artifact at its position as often as the receipt there declares it, and nothing else |
| `ArtifactsIndex.OneEntryPassesForTwo` | packages/verifier/src/verify.ts:327-333 | an input where it does not: for any receipt of two artifacts, an index of one entry passes, its label holding a newline |
| `Verifier.CheckOpenings` | packages/verifier/src/verify.ts:335-360 | every opening is of a salted digest here, and none twice |
| `Verifier.OpeningsOkIff` | packages/verifier/src/verify.ts:335-360 | they pass exactly when each names a receipt of the fourth version here whose digest of that role is salted, and no digest has two |
| `Verifier.CheckSubjects` | packages/verifier/src/verify.ts:362-381 | every identifier is for a token used here, and none twice |
| `VerifyBundle.CheckProofs` | packages/verifier/src/verify.ts:458-503 | every proof is of a receipt here and rebuilds the root |
| `VerifyBundle.CheckEntry` | packages/verifier/src/verify.ts:407-503 | the first rule a checkpoint breaks: system, key, signature, root, proof |
| `VerifyBundle.CheckCheckpoints` | packages/verifier/src/verify.ts:383-507 | all lines, the first failure, and every counter |
| `VerifyBundle.CheckManifest` | packages/verifier/src/verify.ts:509-567 | the manifest describes exactly what is here |
| `VerifyBundle.HighestIsTheMaximum` | packages/verifier/src/verify.ts:554-567 | the version the manifest must declare is one some receipt has, and none has a higher |
| `VerifyBundle.AcceptedManifestIsTrue` | packages/verifier/src/verify.ts:509-567 | of every accepted export each claim of the manifest is true: range, times, the three counts, and the highest version |
| `VerifyBundle.CountFromInSequence` | packages/verifier/src/verify.ts:582-585 | the receipts at or after the newest linked tree, in closed form |
| `VerifyBundle.VerifyBundle` | packages/verifier/src/verify.ts:137-592 | the loops answer the first failing check, or the summary, receipts and linked checkpoints, all of them |
| `VerifyBundle.VerifiesIffAcceptable` | packages/verifier/src/verify.ts:137-592 | an export verifies exactly when every rule holds of all of it |
| `VerifierMeaning.AcceptsWhereNoneIsBroken` | packages/verifier/src/verify.ts:137-592 | an export verifies exactly when none of the fifteen rules is broken, each said of its own lines: keys, lines, system, range, sequence, genesis, links, signatures, index, openings, subjects, checkpoints, manifest |
| `VerifierMeaning.TheFirstRuleBroken` | packages/verifier/src/verify.ts:137-567 | otherwise the check reported is of the first rule broken and, of a rule about every line, of what is wrong with the first line that breaks it |
| `VerifierMeaning.EntryCheckIs` | packages/verifier/src/verify.ts:407-503 | of one checkpoint: accepted exactly when its system, signature, tree and proofs hold, or the check of the first that does not |
| `VerifierMeaning.SummaryIsTrue` | packages/verifier/src/verify.ts:569-592 | every number of the summary of an accepted export counts what the export holds, and the linked checkpoints are exactly those something ties to its receipts |
| `VerifierMeaning.UnanchoredAre` | packages/verifier/src/verify.ts:582-585 | the unanchored receipts are those past every tied tree, and none where no tree is tied |
| `TamperEvidence.OnlyTheSignersKey` | packages/verifier/src/verify.ts:153-171 | the key tried under the signer's identifier is the signer's, or two keys share an 8-byte identifier |
| `TamperEvidence.AcceptedExportIsTheSignersChain` | packages/verifier/src/verify.ts:194-287 | over every run of the signer with settled replies: an export accepted with only its key trusted is, in every signed field, a contiguous window of the chain the signer keeps, every receipt one it replied and every checkpoint one it issued over a beginning of that chain, which holds all it ever replied; or a collision or a key of the same identifier is exhibited |
| `TamperEvidence.AcceptedExportUnderPowerCuts` | packages/verifier/src/verify.ts:393-507 | the same of the same chain, with no condition on replies, where the process is never killed by itself |
| `TamperEvidence.CheckpointPinsReceipts` | packages/verifier/src/verify.ts:438-503 | a checkpoint over a chain, tied to an export by a rebuilt root or a proof, pins every receipt up to the one it is tied at, whoever signed the export |
| `StableSort.SortIsInOrder` | apps/server/src/export/archive.ts:147-149 | the sort is in order of tree size |
| `StableSort.SortIsStable` | apps/server/src/export/archive.ts:147-149 | and keeps the order of equal sizes; the two determine it |
| `Archive.SelectRelevant` | apps/server/src/export/archive.ts:142-154 | the loop with its break picks the checkpoints as specified |
| `Archive.RelevantIsSelection` | apps/server/src/export/archive.ts:142-154 | they are, by size, the slice from the first that reaches past the first receipt to the first that reaches past the last |
| `Archive.InTreeOfWindow` | apps/server/src/export/archive.ts:96-98 | the receipts of a window under a tree |
| `Archive.BuildProofs` | apps/server/src/export/archive.ts:163-176 | the proofs carried for a checkpoint, or none without the leaves |
| `ArchiveVerifies.CarriedAreProven` | apps/server/src/export/archive.ts:91-176 | every checkpoint carried has proofs of the first and the last receipt under its tree, exactly where there is one and its leaves are at hand |
| `Archive.BuildEntries` | apps/server/src/export/archive.ts:156-188 | the checkpoint lines, with proofs and token files in place |
| `Archive.AnchorsAreTheTokens` | apps/server/src/export/archive.ts:178-187 | every token of a stored checkpoint is carried, in order, with its authority, its time and its own file |
| `ArchiveVerifies.ArchiveCarriesWhatIsStored` | apps/server/src/export/archive.ts:142-210 | no anchor is lost: the archive carries the selected checkpoints, each with all its tokens, the receipts and keys it was given, and a manifest that is true of them |
| `ArchiveVerifies.ArchiveDiscloses` | apps/server/src/export/archive.ts:120-201 | of the nonces and identifiers supplied exactly those of what is exported are disclosed, and the index is of the artifacts declared |
| `Archive.IndexIsDeclared` | apps/server/src/export/archive.ts:120-137 | the index names exactly the artifacts the receipts declare |
| `Archive.OpeningsKeptIff` | apps/server/src/export/archive.ts:192-197 | an opening supplied is kept exactly when a receipt of that position is exported |
| `Archive.SubjectsKeptIff` | apps/server/src/export/archive.ts:193-201 | an identifier supplied is kept exactly when an exported receipt uses its token |
| `Archive.BuildArchive` | apps/server/src/export/archive.ts:104-239 | nothing of an empty system; otherwise the bundle, and all that verifyBundle answers of it |
| `ArchiveVerifies.PositionsOfWindow` | apps/server/src/export/archive.ts:91-102 | two proofs, of the first and the last receipt under the tree, or one where they are the same |
| `ArchiveVerifies.HonestArchiveVerifies` | apps/server/src/export/archive.ts:104-239 | an archive of any window of a valid chain, every signing key published, is accepted, with or without the leaves, whichever of those keys are trusted |
| `ArchiveVerifies.HonestArchiveCounts` | apps/server/src/export/archive.ts:156-188 | with all leaves supplied: unlinked_checkpoints is 0, and roots_recomputed, inclusion_proofs and unanchored_receipts equal their closed forms |
| `PreviousExport.AgreeBackwards` | packages/verifier/src/verify.ts:247-260 | agreement of receipt hashes at one position forces agreement of the receipts at every earlier position both hold, or a collision is exhibited |
| `PreviousExport.CompareWithPrevious` | packages/verifier/src/verify.ts:664-713 | the first difference, in the order they are looked for |
| `PreviousExport.AcceptsExactlyContinuations` | packages/verifier/src/verify.ts:664-713 | of two runs of consecutive linked receipts, no difference exactly when they agree on all they share, the new one reaches as far, and overlaps or links |
| `PreviousExport.DifferenceMeans` | packages/verifier/src/verify.ts:664-713 | and which difference is reported otherwise: another system, then the first receipt rewritten, then an earlier end, then a distance, then a missing link |
| `PreviousExport.ContinuationIsOneChain` | packages/verifier/src/verify.ts:652-663 | then their union is one contiguous hash-linked chain reaching at least as far as before, holding every receipt of both, or a collision is exhibited |
| `PreviousExport.WindowsOfOneChainPass` | packages/verifier/src/verify.ts:652-663 | two windows of one chain pass whenever the new one reaches as far and does not start past the end of the old |
| `VerifiedExports.VerifiedIsSegment` | packages/verifier/src/verify.ts:194-260 | the receipts of an export that verifies are consecutive, linked, of its system and from its first position |
| `VerifiedExports.VerifiedComparison` | packages/verifier/src/verify.ts:664-713 | of two exports that verify, the comparison finds nothing exactly when the new one continues the old, and both are then of one system |
| `VerifiedExports.VerifiedContinuationIsOneChain` | packages/verifier/src/verify.ts:652-713 | two exports that verify, and between which it finds nothing, are one contiguous hash-linked chain reaching at least as far as before, or a collision is exhibited |
| `VerifiedExports.VerifiedAgreeBackwards` | packages/verifier/src/verify.ts:247-260 | two exports that verify and agree on a hash at one position agree on every earlier receipt both hold, or a collision is exhibited |
| `VerifiedExports.VerifiedCheckpointPins` | packages/verifier/src/verify.ts:438-503 | a checkpoint of an export that verifies, over a beginning of a chain, pins the export to that chain up to where it is tied |
| `PreviousExport.CompareAnchorsWithPrevious` | packages/verifier/src/verify.ts:738-780 | passes exactly when every checkpoint asked for, and every known token on it, is still there unchanged |
| `PreviousExport.AnchorsKeptIff` | packages/verifier/src/verify.ts:743-779 | of every old checkpoint that reaches past the first receipt, the first of that size in the new export has the same root and signature, and every token the old one held, from the same authority |
| `PreviousExport.AnchorsNeverShrink` | packages/verifier/src/verify.ts:725-737 | so a token that anchored a receipt of the new window anchors it still |
| `Anchoring.ProvenIsAll` | packages/core/src/anchoring.ts:109-121 | the list walked holds every checkpoint with an attested time and nothing else, by size |
| `AnchorMeaning.ProvenInOrder` | packages/core/src/anchoring.ts:109-121 | each of them once, in that order |
| `Anchoring.AttestedIsEarliest` | packages/core/src/anchoring.ts:112-117 | the proven time is the earliest its tokens attest, absent only when none parses |
| `Anchoring.WalkDown` | packages/core/src/anchoring.ts:151-180 | the downward loop with its running minimum computes the ranges and the anchor-time errors |
| `Anchoring.WalkUp` | packages/core/src/anchoring.ts:136-149 | the upward loop computes the anchor-order errors |
| `Anchoring.LongestGap` | packages/core/src/anchoring.ts:182-188 | the longest time between two consecutive attested times, the first of several |
| `Anchoring.LongestIsBetweenTwo` | packages/core/src/anchoring.ts:182-188 | it is the time between two consecutive attested times, none is longer, and none before it as long |
| `Anchoring.ComputeAnchorTimes` | packages/core/src/anchoring.ts:101-205 | the whole result |
| `AnchorMeaning.RangesPartitionTheExport` | packages/core/src/anchoring.ts:151-194 | ranges and unproven tile [firstSeq, lastSeq] exactly, and a position is in a range exactly when some proven tree includes it |
| `AnchorMeaning.RangesAreMinima` | packages/core/src/anchoring.ts:151-161 | each existedBy is the minimum attested time over all proven checkpoints with tree_size > seq |
| `AnchorMeaning.RangesAreOfTheSameTrees` | packages/core/src/anchoring.ts:151-161 | two positions share a range exactly when the same proven trees include them |
| `AnchorMeaning.ExistedByIsMonotone` | packages/core/src/anchoring.ts:151-152 | and never decreases with seq |
| `AnchorMeaning.NoTimeErrorsIffNoneLate` | packages/core/src/anchoring.ts:163-179 | no anchor-time error exactly when every receipt is within tolerance of every proven checkpoint that includes it |
| `AnchorMeaning.TimeErrorsAreExact` | packages/core/src/anchoring.ts:163-179 | of each range that holds a late receipt exactly one error, in order: the first such receipt, against the largest tree of the time the range is proven by |
| `AnchorMeaning.NoOrderErrorsIffInOrder` | packages/core/src/anchoring.ts:136-149 | no anchor-order error exactly when attested times are non-decreasing in tree-size order |
| `AnchorMeaning.OrderErrorsAreReal` | packages/core/src/anchoring.ts:136-149 | every order error names a checkpoint and a tree no larger that was dated later |
| `AnchorMeaning.OrderErrorsAreExact` | packages/core/src/anchoring.ts:136-149 | of each checkpoint dated back exactly one error, in order, against the latest before it, the last of several |
| `AnchorMeaning.LateLinesAreLate` | packages/core/src/anchoring.ts:123-134 | a delay warning exactly for a checkpoint dated too long after its own time |
| `AnchorMeaning.LateLinesInOrder` | packages/core/src/anchoring.ts:123-134 | of each of those exactly one warning, in order |
| `AnchorMeaning.AnchorTimesMean` | packages/core/src/anchoring.ts:101-205 | all of these at once, of the checkpoints as given, in any order |
| `Crc32.StepsLinear` | packages/core/src/zip.ts:41-43 | the shift register is linear |
| `Crc32.LookUp` | packages/core/src/zip.ts:49-55 | eight steps of the register are one table look-up and a shift |
| `Crc32.BuildTable` | packages/core/src/zip.ts:37-47 | every table entry is eight steps of the register |
| `Crc32.TapsAreTheGenerator` | packages/core/src/zip.ts:41-43 | the constant is the generator x^32 + x^26 + x^23 + ... + x + 1, reflected |
| `Crc32.CheckValue` | packages/core/test/zip.test.ts:18-24 | of the nine digits it is 0xcbf43926 |
| `Crc32.Crc32` | packages/core/src/zip.ts:49-55 | the table-driven loop computes the bit-serial CRC-32 of RFC 1952 section 8 of every byte sequence |
| `Crc32.FeedInjective` | packages/core/src/zip.ts:49-55 | equal registers after one payload were equal before it |
| `Crc32.BurstsAreCaught` | packages/core/src/zip.ts:251-253 | two payloads of one length that differ only inside a window of four consecutive bytes have different checksums |
| `Zip.CreateZip` | packages/core/src/zip.ts:61-138 | the failure of the first entry that cannot be written, or an archive in which every field of every record stands where the format puts it |
| `Zip.CleanIffUsable` | packages/core/src/zip.ts:68-70 | a name is taken exactly when it is not empty, does not begin with a slash and has no ".." anywhere |
| `Zip.EntryFailureIs` | packages/core/src/zip.ts:67-88 | why one entry cannot be written: its name, a duplicate, its size, or a field that does not fit, in that order |
| `Zip.FailsAsTheFirst` | packages/core/src/zip.ts:57-138 | createZip fails as the first entry that cannot be written does, and otherwise exactly when the directory does not fit its fields |
| `ZipReader.EndIsLast` | packages/core/src/zip.ts:140-150 | the end record found is the last signature within reach |
| `ZipReader.NoArchiveIff` | packages/core/src/zip.ts:140-176 | it is refused as no archive exactly when it is shorter than an end record, or no signature of one is within reach |
| `ZipReader.ReadZip` | packages/core/src/zip.ts:168-260 | the loop reads what the specification reads of any bytes, and refuses what it refuses |
| `ZipReader.ReadStaysWithin` | packages/core/src/zip.ts:161-212 | of any bytes: what is read has no name twice and stays within both limits |
| `ZipReader.ReadsExactlyWhatStands` | packages/core/src/zip.ts:184-256 | of any bytes: an entry is read exactly when a directory header, a local header and data of that method, size and checksum stand where they should, and it is that data |
| `ZipReader.ReadAllIsExact` | packages/core/src/zip.ts:168-260 | of any bytes: the archive is read exactly when every entry of the directory can be, no name twice, within the limits, and what is read is those entries |
| `ZipReader.RefusalsAreTrue` | packages/core/src/zip.ts:204-253 | every refusal of an entry is for what it says: encrypted, another name in the local header, cut short, a bad checksum |
| `ZipReader.OtherNameRefused` | packages/core/src/zip.ts:217-222 | a local header with another name than the directory gives is refused as that |
| `ZipReader.BadCrcIff` | packages/core/src/zip.ts:246-253 | data of the right method and size is refused for its checksum exactly when the checksum differs |
| `ZipDamage.BurstIsRefused` | packages/core/src/zip.ts:57-260 | an archive createZip wrote, changed anywhere inside four consecutive bytes of the data of a stored entry, is refused for its checksum |
| `ZipReader.RoundTrip` | packages/core/src/zip.ts:57-260 | readZip of createZip is the entries, for every list createZip takes, within the reader limits, given only that inflate undoes deflate and names decode |
| `ZipReader.OffsetsPointAtTheirHeaders` | packages/core/src/zip.ts:103-123 | every recorded offset points at its own local header, name and data |
| `RunQueue.StepKeeps` | apps/server/src/checkpoint/checkpointer.ts:140-228 | every step of every event keeps the safety of the queue: retries, shared and served requests, gaps |
| `RunQueue.WaitingRequestsShare` | apps/server/src/checkpoint/checkpointer.ts:161-177 | two calls of requestRun while none has begun are served by one run |
| `RunQueue.RunsAreQueued` | apps/server/src/checkpoint/checkpointer.ts:140-216 | a tick or a retry queues its run exactly when none is going |
| `RunQueue.FrontBegins` | apps/server/src/checkpoint/checkpointer.ts:161-194 | the front of the queue begins when it is its turn: a tick or a retry at once, a requested run when the gap since the last is over, which it sleeps out |
| `RunQueue.SleeperBegins` | apps/server/src/checkpoint/checkpointer.ts:165-172 | one that slept begins when it wakes, the gap over, and no longer covers new requests |
| `RunQueue.MissingTokensAreRetried` | apps/server/src/checkpoint/checkpointer.ts:210-216 | a run that left tokens missing is followed by a retry, exactly where the timer is on and none is armed |
| `RunQueue.RetryStaysArmed` | apps/server/src/checkpoint/checkpointer.ts:211-228 | over any run: an armed retry stays armed until it fires or the checkpointer is stopped |
| `RunQueue.StoppedStaysQuiet` | apps/server/src/checkpoint/checkpointer.ts:219-228 | over any run: after stop nothing is armed until it is started again |
| `Checkpointer.ChainRefinesQueue` | apps/server/src/checkpoint/checkpointer.ts:179-184 | whatever may happen to the chain of promises may happen to the queue, and does the same to it: a piece of work is called only once the one before it has settled, fulfilled or rejected |
| `Checkpointer.SafeIsOneAtATime` | apps/server/src/checkpoint/checkpointer.ts:179-194 | of all the pieces of work at most one is at work, and `running` says exactly when |
| `Checkpointer.NoneIsStuck` | apps/server/src/checkpoint/checkpointer.ts:179-184 | where none is at work, asleep or noting its end, the first that is pending is due, whatever was rejected before it |
| `Checkpointer.QueueIsSafe` | apps/server/src/checkpoint/checkpointer.ts:140-228 | over all interleavings: one run at a time and running exactly then; each request served by a run that begins after it; waiting requests share one; requested runs the gap apart; one retry timer at most, none after stop |
| `Checkpointer.Checkpointer.StartTimer` | apps/server/src/checkpoint/checkpointer.ts:140-150 | the whole new state after start, and the safety of the queue kept |
| `Checkpointer.Checkpointer.Request` | apps/server/src/checkpoint/checkpointer.ts:161-177 | the whole new state after requestRun, the job that serves it, and safety kept |
| `Checkpointer.Checkpointer.Enqueue` | apps/server/src/checkpoint/checkpointer.ts:179-184 | serially: the work waits for the promise that was the lock, and is the lock |
| `Checkpointer.Checkpointer.CallWork` | apps/server/src/checkpoint/checkpointer.ts:164-184 | work that is due is called: it begins, or waits out the gap; safety kept |
| `Checkpointer.Checkpointer.WakeUp` | apps/server/src/checkpoint/checkpointer.ts:165-170 | the gap is over: the requested run begins, and no longer covers new requests; safety kept |
| `Checkpointer.Checkpointer.WorkEnds` | apps/server/src/checkpoint/checkpointer.ts:187-194 | a run ends, or throws: no longer running either way; safety kept |
| `Checkpointer.Checkpointer.NoteEnd` | apps/server/src/checkpoint/checkpointer.ts:171-173 | when a requested run was over, for the gap; safety kept |
| `Checkpointer.Checkpointer.ScheduleRetry` | apps/server/src/checkpoint/checkpointer.ts:200-216 | a retry armed only if tokens are missing, the timer is on and none is armed; safety kept |
| `Checkpointer.Checkpointer.StopTimers` | apps/server/src/checkpoint/checkpointer.ts:219-228 | the whole new state after stop; safety kept |
| `Framing.Connection.OnData` | apps/signer/src/daemon.ts:139-169 | one chunk: the whole new state, and at most MAX_LINE_BYTES kept |
| `Framing.DrainTogether` | apps/signer/src/daemon.ts:139-169 | draining a buffer and then more is draining them together |
| `Framing.ChunkingDoesNotMatter` | apps/signer/src/daemon.ts:132-169 | any two ways of cutting a stream give the same lines in the same order to the same end |
| `Framing.SplitIsExact` | apps/signer/src/daemon.ts:142-146 | the split at 0x0a is the only one: no line holds a newline, and joined they are the stream |
| `Framing.DrainServesLines` | apps/signer/src/daemon.ts:142-168 | the loop serves a buffer as those lines: each up to and including MAX_LINE_BYTES, in order, up to the first longer one, which is never handled |
| `Framing.StreamIsServedAsLines` | apps/signer/src/daemon.ts:132-169 | so does a whole connection, whatever the chunks |
| `SlidingWindow.NoWindowHoldsMore` | apps/server/src/connection/watch.ts:284-292 | where every admission found room in its own window, no window of that length holds more than the most |
| `SlidingWindow.AdmitKeepsAllowance` | apps/server/src/connection/watch.ts:284-292 | using the pruned list keeps the allowance over all the times ever admitted |
| `ConnectionWatch.HeartbeatIsSound` | apps/server/src/connection/watch.ts:169-229 | every sequence of writes of a start, beat or stop leaves the row as its receipts say, one by one |
| `ConnectionWatch.BeatSaysWhatChanged` | apps/server/src/connection/watch.ts:221-228 | the exact writes of a beat of a known session: restored where it was not open, script_changed where the script first differs, and in any case an open row that remembers the beat |
| `ConnectionWatch.FirstBeatSaysWhatChanged` | apps/server/src/connection/watch.ts:204-220 | the exact writes of a first heartbeat: start, then power_off exactly when the latest session that told its boot was not closed and the boots are over two minutes apart, then script_changed exactly when the latest that told its script had another |
| `ConnectionWatch.FindsFirstScript` | apps/server/src/connection/watch.ts:208 | the session compared with is the most recently heard of that has a script |
| `ConnectionWatch.FindsFirstBoot` | apps/server/src/connection/watch.ts:211 | and the most recently heard of that has a boot |
| `ConnectionWatch.SameBootWithinDrift` | apps/server/src/connection/watch.ts:211-216 | two boots count as one exactly when they are at most two minutes apart |
| `ConnectionWatch.StopCloses` | apps/server/src/connection/watch.ts:200-203 | the exact writes of a stop: a closed row and a stop, or nothing where it is closed already |
| `ConnectionWatch.EndedEndsOpen` | apps/server/src/connection/watch.ts:175-184 | an ended is written exactly for an open session |
| `ConnectionWatch.GapSaysWhatWasReported` | apps/server/src/connection/watch.ts:240-243 | a sleep is written for a sleep and an offline for an offline, dated no earlier than the session and no later than now |
| `ConnectionWatch.HeartbeatIsStored` | apps/server/src/storage/store.ts:1344-1366 | what a heartbeat leaves stored is the row of its last write and its receipts in order, and nothing else changes |
| `ConnectionWatch.SaveAllIsConsistent` | apps/server/src/storage/store.ts:1344-1366 | sound writes keep every stored state the replay of its receipts |
| `ConnectionWatch.StartsOnce` | apps/server/src/connection/watch.ts:206-212 | start is written at most once a session, before everything else of it |
| `ConnectionWatch.RestoredAreSeparated` | apps/server/src/connection/watch.ts:222-224 | between two restored of a session there is a stop, a lost or an ended |
| `ConnectionWatch.ScriptChangesOnce` | apps/server/src/connection/watch.ts:225-227 | the in-session script_changed is written at most once |
| `WatchRuns.StepKeeps` | apps/server/src/connection/watch.ts:162-267 | every heartbeat, gap and sweep, whichever store writes fail, keeps the invariant |
| `WatchRuns.EverySessionIsItsReplay` | apps/server/src/connection/watch.ts:162-292 | over every interleaving: stored states are replays of legal receipts, and no hour holds more admissions of a system or gaps of a session than allowed |
| `WatchRuns.EventIsRecorded` | apps/server/src/connection/watch.ts:162-244 | every event writes exactly what it should, as far as the store takes the writes: a start, beat or stop of a session known or admitted, the end of an open one, a gap of one not closed while its hour has room |
| `WatchRuns.AdmittedIffRoom` | apps/server/src/connection/watch.ts:284-292 | a new session is admitted exactly while fewer than the most were in the last hour, of all ever admitted |
| `WatchRuns.NoHourHoldsMoreStarts` | apps/server/src/connection/watch.ts:284-292 | so no hour of a system's receipts holds more starts than it may open sessions |
| `WatchRuns.SweepLeavesNoneSilent` | apps/server/src/connection/watch.ts:251-267 | a sweep loses exactly the open sessions silent past the allowance and touches no other |
| `WatchRuns.SweepReports` | apps/server/src/connection/watch.ts:252-267 | each of those is reported once, in the order listed, as lost since its last beat; where the store fails, the first of them |
| `WatchRuns.RetryAfterSuffices` | apps/server/src/connection/watch.ts:286-289 | whoever waits as long as a refusal says is admitted, unless others were meanwhile |
| `WatchRuns.RetryAfterIsLeast` | apps/server/src/connection/watch.ts:286-289 | and no sooner: a second less is not enough |
| `SharedGaps.GapAcceptedIff` | apps/server/src/connection/watch.ts:233-244 | over every run, a gap is accepted exactly while the session's own gaps of the hour and those of other systems' sessions of that identifier are fewer than the most; its own allowance is whole exactly when there are none of the others |
| `SharedGaps.AnotherSystemsGapsRefuse` | apps/server/src/connection/watch.ts:236-239 | a run in which the first gap of a session is refused for another system's |
| `WatchRuns.Watcher.AdmitNewSession` | apps/server/src/connection/watch.ts:284-292 | the whole new state, whether admitted, and when to come back |
| `WatchRuns.Watcher.Beat` | apps/server/src/connection/watch.ts:162-230 | the whole new state after a start, beat or stop; it is refused exactly when a new session finds no room, and then writes nothing |
| `WatchRuns.Watcher.ReportGap` | apps/server/src/connection/watch.ts:233-244 | the whole new state after a gap |
| `WatchRuns.Watcher.SweepSilent` | apps/server/src/connection/watch.ts:252-267 | the whole new state after a sweep, and how many sessions it lost |
| `ConnectionStatus.LostIffOutstanding` | apps/server/src/connection/watch.ts:301-322 | the status is lost exactly while a loss no later session made up for is outstanding, since the earliest of those; otherwise it is of the latest session, open since it started or closed since its last beat |
| `Throttle.AttemptThrottle.IsLocked` | apps/server/src/auth/throttle.ts:60-63 | locked exactly until the remembered time |
| `Throttle.AttemptThrottle.RecordFailure` | apps/server/src/auth/throttle.ts:65-87 | the whole new state after a failure |
| `Throttle.AttemptThrottle.MakeRoomNow` | apps/server/src/auth/throttle.ts:94-106 | the whole new state after making room |
| `Throttle.AttemptThrottle.RecordSuccess` | apps/server/src/auth/throttle.ts:89-91 | the whole new state after a success |
| `Throttle.RoomIsMade` | apps/server/src/auth/throttle.ts:93-106 | room is made, only by forgetting, and where there is room nothing is forgotten |
| `Throttle.RoomIsMadeExactly` | apps/server/src/auth/throttle.ts:93-106 | who stays, and in what order: where there is no room the expendable go, then the oldest of the rest, as few as make room |
| `Throttle.ForgetsExactly` | apps/server/src/auth/throttle.ts:93-106 | a client is forgotten exactly when there is no room and it can be spared or is among the oldest of the rest |
| `Throttle.LockedFailureChangesNothing` | apps/server/src/auth/throttle.ts:65-76 | a failure while locked out changes nothing, exactly as long as the client is not past forgetAfterMs; always when maxLockoutMs is at most that |
| `Throttle.LockedFailureKeepsLockedIff` | apps/server/src/auth/throttle.ts:65-87 | after it the client is still locked out exactly then, or where one failure alone locks out |
| `Throttle.FailureCanEndALockout` | apps/server/src/auth/throttle.ts:65-76 | an input: a failure during a lockout that ends it |
| `ThrottleHistory.RunIsWellKept` | apps/server/src/auth/throttle.ts:45-107 | over any run, remembered clients never exceed maxEntries of at least 1, and no lockout outlasts maxLockoutMs |
| `ThrottleHistory.MemoryRefinesHistory` | apps/server/src/auth/throttle.ts:65-91 | under monotone time and with maxLockoutMs at most forgetAfterMs, every client not evicted stands in memory as its full failure history would have it |
| `ThrottleHistory.MatchesThroughoutIff` | apps/server/src/auth/throttle.ts:65-106 | a client stands so all along if and only if it was never evicted |
| `ThrottleHistory.EvictionForgetsLockouts` | apps/server/src/auth/throttle.ts:93-106 | an input: evicted between, a client's second lockout is not doubled |
| `ThrottleHistory.LockedIsOfHistory` | apps/server/src/auth/throttle.ts:60-63 | so isLocked answers from the whole history |
| `ThrottleHistory.NthLockoutLength` | apps/server/src/auth/throttle.ts:82-84 | the n-th lockout lasts min(lockoutMs * 2^min(n-1,30), maxLockoutMs) from the failure of that client that set it |
| `ThrottleHistory.LockoutsDouble` | apps/server/src/auth/throttle.ts:83 | each lockout is twice the one before until the most is reached |
| `ThrottleHistory.FewClientsAreKept` | apps/server/src/auth/throttle.ts:93-106 | no more clients than maxEntries: no client is ever evicted |

## Left out

- SHA-256, Ed25519, base64, deflate and RFC 8785 themselves: library code, used through the facts named above.
- The schemas of receipts, checkpoints, manifests and requests: lines and files enter as parsed values, with "not JSON" and "not of the schema" as outcomes. The bounds a schema sets (integers below 2^53, lengths) are not modelled; the guard of `signReceipt` against ill-formed Unicode is an unknown predicate.
- Error wording; the check a failure names is modelled.
- VerifyBundle.VerifyBundle: a failure names its check and not the file and line.
- Archive.BuildArchive: the zip, the report and the instructions made after its verification are not modelled, only the members a verifier reads.
- `openDigest`, timestamp tokens and their openssl checks, `formatDuration` and the texts of anchoring problems: attested times enter as integers.
- `initFromDatabase` around `chainStateOf`: its marker, its report and the administrative log. Its result is the initial world of the runs: each migrated chain settled, retired systems named, no journal.
- The dispatch of `handleLine`, the limit of connections and the stale socket: a request is an event of the signer's machine, and a signer that fails stops, as a kill does. In `Framing` which calls of handleLine throw is given from outside.
- Short writes, permissions and the umask, and operations on different systems interleaved inside one write: the daemon serves one request to its end before the next.
- `checkpointAll` and `timestampPending`: what a run of the queue does. Its end enters as a number of missing tokens or a failure.
- Sleeping out the gap is assumed to last as long as asked, on a clock that does not go back.
- The order in which the store lists sessions of equal last beat, deletion of a system's sessions, and a restart of the server, which forgets the heartbeat's allowances.
- The parsing of throttle settings from the environment; the settings are taken as positive integers.
- SDKs, the model gateway, web pages, sessions, tenancy and the daily export: they would add only easier members.
