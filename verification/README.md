# Mutation findings: a Dafny model

gomutant measures how well tests kill mutants and keeps the results as findings records: operator counts, survivors,
kills, evidence, and people's dispositions of surviving mutants. This project models everything that rewrites such a
record and proves that each rewrite stays faithful to the outcome vector it summarises, to the dispositions other
sessions make meanwhile, and to what is on disk. `dafny verify dfyconfig.toml` checks the whole of it.

- **Record accounting** - `Vectors` defines what a record of an outcome vector is. `Reconcile` and `Splicing` are the
  gates and the three assemblies (fresh, splice, extend) as the loops they are; `Resume` drains a run at any point and
  proves that resuming is measuring once. `Pins` follows the memory and timeout bounds over any history.
- **The validator and its closure** - `Validator` decides a declarative rule set with the source's running remainders;
  `Closure` proves that every rewrite, and any sequence of them, keeps it.
- **Dispositions under concurrency** - `Dispositions`, `Grafting`, `Merging` and `Annotation` are the record verbs, the
  graft and the document merge. `DispositionRuns` and `DocumentRuns` run them interleaved with other sessions,
  `Remerging` merges twice, and `RunLedger` accounts for what a run tells.
- **Storage** - `Overlay` is the machine-local directory and its writer; `Interned`, `Expanding`, `Placeholders` and
  `Positional` are the content-addressed document; `Bank` is the baseline bank many processes share.
- **Two threads and the engine** - `ProofUnits` is the reference counting of shared proofs; `Freshness` is the batched
  evidence check.
- **Text** - `EditBatch` and `AtomicBatch` are the exact-match edits, `Retarget` the rename, `SelectionText` the printed
  selections and verdicts.

A method carries the source's loops and updates; the function its `ensures` names says what they compute, and the lemmas
say what that means. `Sorting`, `Text`, `Records` and `Wrappers` are shared vocabulary.

## Assumptions

Each is a `requires` or a parameter, never an axiom: the candidates under a budget are the first of one fixed list with
distinct identities; an overlay path determines its key (`entryPath` truncates a hash, and the code takes it as
injective); serialisation is injective, while the content hash is any function at all; the engine's batched verdicts
agree with its single ones; a verdict the memory ceiling did not decide stands at larger ceilings; a whole-tree run
measures only what it discovered; document and bank locks make their critical sections atomic.

## Where the code falls short of the plain statement

Each with its exact condition, a concrete case, and where such an input comes from.

- A withdrawal can come back: the graft honours it but, when its recorded site differs from the fresh survivor's, drops
  it, so the run's next merge finds no withdrawal and attests the mutant again (`DispositionRuns.ResurrectedIffSiteMoved`,
  exactly then). The verbs themselves produce it.
- Merging twice is not always merging once (`Remerging.RemergeIsIdempotent`). One case is that same withdrawal, met by a
  disposition from before sites (`Remerging.MovedWithdrawalBreaksRemerge`). The other is a live disposition without a
  site that becomes the snapshot's own by adopting one (`Remerging.AdoptionBreaksRemerge`): it needs a sited disposition
  over a siteless survivor, which the validator admits and no writer modelled here makes, so a hand-edited document.
- Without a shed callback a mutant shed before the final merge is marked reported and told nowhere
  (`RunLedger.UnheardSheds`, `RunLedger.CommitShedGoesUnheard`). Both shipped faces set the callback
  (`internal/cmd/run.go:224`, `internal/mcpserver/server.go:1148`), so only a library caller meets it.
- The bank file does not always hold the newest baseline of a key: a failed write leaves its key pending, and a later one
  writes it over whatever newer deposit has landed (`Bank.LateLandingOverwrites`); and a process that opened before
  another's deposit of the same clock second rewrites the baseline it had read (`Bank.SameSecondOverwrites`). A landed
  persist does so exactly when it regresses, which can be seen beforehand (`Bank.NewestHeldIffNoOverwrite`). Both take
  two live processes on one bank, which the merge is there for.
- A record that predates kill attribution is to stay without one, but a splice that leaves it no kill leaves it complete,
  with an empty attribution (`Splicing.SpliceFindingCounts`, exactly then; `Splicing.SpliceCompletesUnattributed`). Such
  records are in old documents.
- Interning loses the manifest of an evidence row that is nothing but a manifest (`Expanding.RoundTripExact`,
  `Expanding.ManifestAloneIsLost`). Both decoders leave a zero fingerprint zero (`interned.go:234-247`,
  `findings.go:1130-1136`), so such a row comes only of a record a library caller builds.
- Under an accepted rename pair a row that records no package can come out spelling a different symbol from the one it is
  filed under (`Retarget.RenameKeepsCoherent`, `Retarget.PackagelessRowBreaks`). Discovery records packages: the row is a
  hand-edited one.
- The swapped pair restores every moved symbol, but not a row's halves after a rename that dropped the rest of its
  prefix behind the row's package, as from `p.T.` to `p.` (`Retarget.SwapRestoresRow`, exactly then;
  `Retarget.DroppedQualifierStaysDropped`). Any rename call can ask for it.
- The selection printer and parser are inverse only on tags and toolchains free of the separators and surrounding space
  (`SelectionText.SelectionKeyRoundTrip`, `SelectionText.CommaTagSharesKey`, `SelectionText.SemicolonKeyRefused`). Loading
  a tree refuses such a tag, and of such toolchains the spaced ones (`internal/engine/selection.go:38-46`); a semicolon in
  a toolchain is left to the go command.
- The verdict text is read back only when canonical (`SelectionText.VerdictsRoundTrip`,
  `Annotation.BlankReasonBreaksAnnotation`). The verbs refuse only the empty reason; the faces refuse every blank one.

## Model

| member | source | states |
|---|---|---|
| Vectors.CountUpdate | reconcile.go:558-567 | Replacing one candidate's outcome moves exactly one unit between that operator's counts: the arithmetic an in-place retract-and-rescore relies on |
| Vectors.CountConserved | findings.go:1904-2149 | Per operator, killed, survived and discarded of any vector prefix add up to the candidates generated |
| Vectors.AccountsUnique | run.go:3200-3222 | The vector determines the record: two records of one vector agree on every count, operator summary and survivor identity |
| Vectors.AccountsPrefix | reconcile.go:662-691 | A record of the first n outcomes is a record of any longer list and vector that share those n |
| Reconcile.CandidateIdentityIndex | reconcile.go:585-595 | Indexes every candidate by (position, operator), or refuses exactly when two candidates share an identity |
| Reconcile.Reidentify | reconcile.go:613-622 | Answers the index exactly when the regenerated list has the recorded count and length and no duplicate identity |
| Reconcile.FlaggedCandidateIndexes | reconcile.go:630-652 | Answers exactly the indexes evidence rows name, and refuses exactly when the list does not regenerate, a survivor is gone or a row names no runnable candidate |
| Reconcile.RepresentedIsServable | reconcile.go:613-652 | A record of the regenerated candidates always passes re-identification and flagging |
| Reconcile.ExtendedPrefixStands | reconcile.go:662-691 | True exactly when the recorded prefix regenerates: same counts, strictly more candidates, each operator's count in the prefix, every survivor inside it |
| Reconcile.RepresentedIsExtendable | reconcile.go:662-691 | A capped record of the same list always passes the prefix gate of a longer selection |
| Reconcile.SumOperatorTotals | reconcile.go:572-579 | The loop's three totals are the sums of the summaries' columns |
| Reconcile.SumsAreTotals | reconcile.go:572-579 | Summaries that tally a vector sum to the vector's totals, and killed, survived and discarded together to its length |
| Reconcile.Rescore | reconcile.go:558-567 | Retracting one candidate's recorded disposition and scoring its new one turns its operator's tally of the old vector into the tally of the updated one, and leaves every other operator's |
| Splicing.SummarizeOperators | reconcile.go:1263-1282 | The fresh summaries are strictly ascending by operator, name exactly the operators with candidates, and each tallies the outcome vector |
| Splicing.AssembleFresh | run.go:3200-3222 | A fresh record accounts for its outcome vector: counts, summaries, totals, survivor rows in candidate order and every kill with its killer |
| Splicing.CompletedEvidence | reconcile.go:104-133 | The evidence rows are those of executed runnable candidates with an incompleteness reason, in candidate order, each with its outcome |
| Splicing.EvidenceRowsRecord | reconcile.go:104-133 | Those rows name each candidate at most once and record its outcome |
| Splicing.SplicedEvidenceExact | reconcile.go:1124-1252 | The rows a splice keeps are exactly the rows its own re-execution produced: none lost, none invented, order kept |
| Splicing.SpliceFindingCounts | reconcile.go:1124-1252 | Over a record of vector o whose evidence flags exactly the re-executed candidates it never fails and its result represents o with the new outcomes at the flagged indexes: counts conserved, survivor rows exact, every kill attributed if they were. The attribution comes out complete exactly when it was, or when the new vector has no kill. In general it reports a missing operator summary exactly when a flagged candidate has none, and never returns a negative count |
| Splicing.SpliceCompletesUnattributed | reconcile.go:1132-1142 | A served record that predates attribution, its one kill flagged, whose re-execution survives: recorded incomplete, and no kill left to miss |
| Splicing.ServedTallies | reconcile.go:1159-1211 | The splice walk's in-place summaries, retracted and re-scored candidate by candidate through the operator index, tally the spliced vector |
| Splicing.ServedRows | reconcile.go:1159-1206 | The rows and attributions the walk appends are those of the spliced vector, recorded rows carried and re-executed ones new |
| Splicing.ExtendFindingCounts | reconcile.go:812-890 | Over a capped record of the first outcomes of o, the result is a record of the whole list with the suffix outcomes appended: recorded rows carried, summaries re-sorted, new operators joined, the attribution complete if and only if the prefix's was |
| Resume.Dispatch | run.go:2722-2763 | Whatever the pattern of stop checks, the dispatched set is exactly the executing candidates before the walk's end |
| Resume.TruncateWindow | run.go:2770-2805 | Each work is kept whole, capped at its handled prefix, or discarded, exactly as the walk's end and its mode decide |
| Resume.KeptWasDispatched | run.go:2722-2805 | Every executing candidate a drained window keeps was dispatched, and a capped record keeps no candidate at or past the stop |
| Resume.RunSession | run.go:2716-2805 | One session - serve, extend, measure, or drain - performs exactly the session step: a drained fresh walk commits a capped record of its prefix, a drained extension leaves the prior standing |
| Resume.CampaignStands | run.go:2770-2805 | After any sequence of interrupted or whole sessions, the standing record is a record of a prefix of the one outcome vector |
| Resume.ResumeEquivalence | run.go:2722-2805 | Any number of interruptions, then one whole session at least as wide: the record equals one uninterrupted measurement's in generated, killed, discarded, mutants, operators, kills and survivor identities |
| Dispositions.FindingCell.Attest | findings.go:871-900 | The in-place attest is the specified one: refused with the field unchanged, or the disposition appended at the survivor's site and any withdrawal of it dropped |
| Dispositions.FindingCell.Reattest | findings.go:906-933 | The in-place re-attest is the specified one: reason and site replaced in place, or refused with no change |
| Dispositions.FindingCell.Withdraw | findings.go:938-969 | The in-place withdrawal is the specified one: the disposition removed, a withdrawal with its reason recorded, or refused with no change |
| DispositionRuns.EditAt | findings.go:871-969 | An edit leaves every other mutant's disposition and withdrawal, keeps the survivors and keeps each list to one row per mutant |
| DispositionRuns.AttestRow | findings.go:871-933 | An attest or re-attest leaves its own mutant attested with the new reason at its survivor's site |
| DispositionRuns.WithdrawRow | findings.go:938-969 | A withdrawal leaves its own mutant unattested and withdrawn, with both reasons and the survivor's site or else the disposition's, and no other mutant moved |
| Dispositions.CarryAnchoredAttestations | reconcile.go:460-486 | Splits prior dispositions into kept, site-shed and gone in order, by the fresh survivors' sites |
| Dispositions.CarryAnchoredWithdrawn | reconcile.go:490-520 | Keeps the withdrawals that still name an unattested survivor at their site, each mutant once |
| Dispositions.GraftDispositionsAgainst | findings.go:2867-2976 | The three-pass graft over in-place maps equals the specified fold |
| Grafting.GraftAt | findings.go:2867-2976 | The graft's meaning mutant by mutant: attested, withdrawn or shed by one pointwise choice over the live, carried and withdrawn rows |
| Grafting.GraftDistinct | findings.go:2867-2976 | A graft names no mutant twice in any of its three lists |
| DispositionRuns.WithdrawalNeverResurrected | findings.go:2867-2976 | In any interleaving of sessions' edits and the run's merges, a withdrawal at no site or the fresh survivor's is never attested again |
| DispositionRuns.ResurrectedIffSiteMoved | findings.go:2885-2909 | Two merges after a withdrawal, the run's carry attests the mutant again if and only if the run carried it and the withdrawal's site is neither empty nor the fresh survivor's |
| DispositionRuns.NewDispositionReachesTheEnd | findings.go:2867-2976 | A disposition made during the run with a reason new since the snapshot is in the final record whenever its same-site mutant survives |
| DispositionRuns.RejectedDispositionSheds | findings.go:2910-2954 | A snapshot disposition the run did not carry is shed by the first merge and never comes back |
| DocumentRuns.MergeIsStep | findings.go:2776-3012 | What either merge method writes, the one that drops undiscovered records included, is one step of a run |
| DocumentRuns.RecordProjection | findings.go:2776-3012 | Over a whole document, each measured record goes through exactly its own events, whatever the others do, dropped records included |
| DocumentRuns.DocumentWithdrawalStands | epilogue.go:147-275 | The withdrawal property over a run of incremental commits and a final merge of a shared document, whole-tree or scoped, for a record that stood at the start or that the run's own commit first wrote |
| DocumentRuns.DocumentDispositionReachesTheEnd | epilogue.go:147-275 | The new-disposition property over any such run and record |
| DocumentRuns.DocumentDispositionSheds | epilogue.go:147-275 | The rejected-disposition property over any such run, with the shed told under the record's symbol |
| DocumentRuns.CarryMeetsRun | run.go:3256-3259 | A fresh record that carries its prior's dispositions by site carries only snapshot reasons: the runs' assumption |
| DocumentRuns.SpliceMeetsRun | reconcile.go:1222-1250 | A spliced record carries only snapshot reasons: the runs' assumption |
| DocumentRuns.ExtendMeetsRun | reconcile.go:877-889 | An extended record over a prior whose dispositions name its survivors carries only snapshot reasons: the runs' assumption |
| Merging.MergeFindings | findings.go:2776-2823 | The merge lists exactly the grafted records over the prior document, annotated, with the sheds in order |
| Merging.MergeWholeFindingsForSelection | findings.go:2993-3012 | Drops exactly the records of the selection whose symbol is no longer discovered, then merges |
| Merging.MergeIntoAt | findings.go:2776-2823 | The merge at one key: the measured record grafted onto the live one, or the live one untouched |
| Annotation.SelectionVerdictFrom | findings.go:2712-2743 | Another selection's verdict on a mutant: its kill, its survivor's attestation, or its survival at that site |
| Annotation.AnnotateSelectionVerdicts | findings.go:2656-2710 | The in-place annotation equals the specified one for every record and survivor |
| Annotation.AnnotatedIsBareEqual | findings.go:2656-2710 | Annotation changes nothing but survivors' advisory text |
| Annotation.VerdictsCanonical | findings.go:2656-2710 | Over records with trimmed single-line killers and reasons every annotation is canonical, so it parses back |
| Annotation.BlankReasonBreaksAnnotation | findings.go:353-366 | An all-blank reason, which the verbs admit and the faces refuse, would print an annotation that does not parse |
| Remerging.RemergeIsIdempotent | findings.go:2867-2976 | Merging the same fresh record again under the same snapshot changes nothing and sheds nothing if and only if no live disposition adopts its way into the snapshot and no honoured withdrawal is forgotten |
| Remerging.MovedWithdrawalBreaksRemerge | findings.go:2885-2975 | A concrete case the verbs produce: a disposition from before sites, carried by the run to the fresh site and withdrawn by a session at the live survivor's, after which the second merge is not the first |
| Remerging.AdoptionBreaksRemerge | findings.go:2927-2976 | A concrete case of the other condition: a sited disposition over a siteless survivor, re-attested with its own reason, which the second merge sheds |
| Remerging.ListingIndependent | findings.go:2656-2710 | Annotated records do not depend on the order records are listed in, nor on the text they came in with |
| Remerging.RemergeDocument | findings.go:2776-2823 | Re-merging a settled run into the document it produced sheds nothing and changes no annotated record |
| RunLedger.MutantKeyInjective | epilogue.go:409-411 | Ledger keys collide only where a symbol or a position holds the separator |
| RunLedger.DedupeAttestationSheds | findings.go:2749-2761 | Keeps the first shed of each mutant, in order |
| RunLedger.Ledger.constructor | epilogue.go:67-84 | The snapshot is each prior record's dispositions, and nothing is reported |
| RunLedger.Ledger.Contradict | epilogue.go:118-120 | A contradiction marks its mutant reported and tells nothing |
| RunLedger.Ledger.SiteShed | epilogue.go:124-127 | A site shed is recorded and delivered once |
| RunLedger.Ledger.Deliver | epilogue.go:129-138 | Tells a mutant's first report and marks it, nothing on a repeat |
| RunLedger.Ledger.Commit | epilogue.go:147-189 | A landed commit writes the merged document, delivers its sheds and refreshes its row; a failed write leaves document and reports as they were |
| RunLedger.Ledger.Finish | epilogue.go:245-333 | The final merge leaves the merged document, the unreported first sheds as residue, and rendered rows; a failed write tells nothing |
| RunLedger.ToldExactlyOnce | epilogue.go:118-189 | Over a whole run every shed mutant is told exactly once, its first shed, or never when a contradiction came first |
| RunLedger.UnheardSheds | epilogue.go:129-138 | Without a shed callback, a mutant mentioned before the final merge is marked reported and told nowhere |
| RunLedger.CommitShedGoesUnheard | epilogue.go:129-189 | One commit's shed and nothing more: told once through a callback, and neither told nor in the residue without one |
| RunLedger.RenderedFindings | findings.go:2631-2649 | Each row is the post-merge record under its key, its own skip note kept, or itself |
| RunLedger.RenderedIsWritten | findings.go:2631-2649 | What a response renders for a tracked record is what the document now holds |
| RunLedger.ContradictKilledDispositions | prepare.go:603-627 | Emits exactly the gone dispositions whose mutant the fresh record killed, with the killer, in order |
| Validator.ValidateFindingEncoding | findings.go:1904-2149 | The loops with running remainders and seen-sets accept a record exactly when it meets the declarative rules, and answer its evidence completeness |
| Validator.ValidateEvidence | findings.go:1917-1975 | Accepts exactly the evidence whose rows judge, are distinct, and share one runtime disposition when complete |
| Validator.ValidateOperators | findings.go:2045-2073 | Accepts exactly the ordered summaries that are self-consistent, match survivors per operator and add up to the finding's totals |
| Validator.ValidateKills | findings.go:1980-2004 | Accepts attribution exactly when it is absent, or covers every kill once and names no survivor |
| Closure.RepresentedIsValid | findings.go:1976-2148 | A record of any outcome vector passes every measurement rule of the validator |
| Closure.EditKeepsAccepted | findings.go:871-969 | Attest, re-attest and withdraw keep an accepted record accepted |
| Closure.GraftKeepsAccepted | findings.go:2867-2976 | A graft of an accepted live record keeps an accepted fresh one accepted, under any snapshot |
| Closure.AnnotateKeepsAccepted | findings.go:2656-2710 | Annotation keeps an accepted record accepted, given unique keys and single-line trimmed killers and reasons |
| Closure.SpliceKeepsAccepted | reconcile.go:1124-1252 | A splice keeps an accepted record accepted |
| Closure.ExtensionKeepsAccepted | reconcile.go:812-890 | An extension keeps an accepted record accepted |
| Closure.FreshAccepted | run.go:3200-3259 | A fresh measurement carrying an accepted prior's dispositions is accepted |
| Closure.SpliceRecorded | reconcile.go:1124-1252 | The splice method performs exactly the rewrite the closure is stated over |
| Closure.ExtendRecorded | reconcile.go:812-890 | The extension method performs exactly the rewrite the closure is stated over |
| Closure.RewritesKeepSound | findings.go:1904-2149 | Any sequence of edits, grafts, annotations, splices and extensions keeps a record accepted and true to its outcome vector |
| Overlay.Store.Load | store.go:611-738 | A read serves each key from its own path, else from the first name that holds it, and remembers every name |
| Overlay.ReadIsRead | store.go:611-738 | The read loop's map is exactly what the directory serves |
| Overlay.Store.RehomeParked | revise.go:317-352 | The fixpoint over pending destinations terminates and leaves every kept record parked in the way at its own path |
| Overlay.Store.RemoveServed | revise.go:376-390 | Removes a key from every name it was found under, except paths the write lands on |
| Overlay.Store.InstallAll | store.go:1069-1109 | Each installed path ends with its last install; every other path is untouched |
| Overlay.Store.ApplyOverlayEdits | revise.go:247-306 | After the write every installed key has one entry, at its own path with the new content, every removed key none, and every other key serves the record it served - through chains and swaps, parked entries and any order |
| Overlay.WriteIsExact | revise.go:247-306 | The key-by-key argument: re-homing, removal and install compose to exactly that state |
| Overlay.Store.Revise | revise.go:101-228 | A refused or checked revision changes neither layer; otherwise the document is the sorted image of the edit, or unchanged, and the overlay serves exactly the edit's image |
| Overlay.PlanRefusedIff | revise.go:110-177 | The plan refuses exactly when an edit fails or two kept records take one key |
| Overlay.ImageServed | revise.go:148-218 | A key serves r after the write exactly when some record of the read was edited into r |
| Interned.InternDocument | interned.go:90-194 | Succeeds exactly when no two contents share a key and no shaped record carries target evidence; its tables are the strictly sorted distinct contents and its rows name them |
| Interned.InternEvidence | interned.go:98-128 | One row: refused exactly when its manifest or its bytes collide with a different content already seen |
| Interned.TablesIgnoreOrder | interned.go:184-194 | The three tables are a function of the records as a set |
| Expanding.ExpandDocument | interned.go:204-293 | Accepts exactly the documents whose every entry sits under its own content's key once and whose every row resolves, and answers the inflated records |
| Expanding.RoundTrip | interned.go:78-293 | For every hash function: whatever the encoder writes the decoder accepts, and each record comes back, evidence that is a manifest alone becoming the zero row |
| Expanding.RoundTripExact | interned.go:78-293 | The decoded records equal the encoded ones if and only if no row is a manifest alone |
| Expanding.ManifestAloneIsLost | interned.go:234-247 | A concrete record, for every hash: it encodes, decodes, and comes back without its manifest |
| Placeholders.SubstitutionIsSound | findings.go:2178-2214 | Replacing manifests by an equality- and emptiness-preserving placeholder never changes the validator's verdict on a record, nor its completeness |
| Placeholders.KeyedIsSound | interned.go:234-247 | The keyed placeholders of any well-formed document preserve every record's verdict |
| Placeholders.ReadDocument | interned.go:347-406 | The reader that validates the placeholder form and answers the real one refuses exactly the documents whose real records are not readable |
| Positional.ExpandIndexed | findings.go:1116-1170 | Accepts exactly the documents whose every index resolves, and answers the records they spell |
| Positional.CanonicalPlaceholders | findings.go:1456-1491 | Each non-empty manifest becomes the placeholder of the first index that holds it |
| Positional.DecimalInjective | findings.go:1456-1491 | Printed indexes are injective |
| Positional.PositionalIsSound | findings.go:1456-1491 | The positional placeholders preserve every record's verdict |
| Positional.ValidateInternedRecords | findings.go:1456-1491 | Validating the placeholder form accepts exactly the documents whose real records are all admitted once each |
| Bank.MergeBaselines | bank.go:191-220 | Key by key: the run's own deposits win, otherwise the later measurement does |
| Bank.Evict | bank.go:225-241 | The loop terminates, evicts a (time, key)-earliest part, and evicts no more than needed |
| Bank.BaselineBank.constructor | bank.go:135-162 | An absent, oversized, unreadable or foreign file opens as an empty bank; a version-2 file without its test names |
| Bank.BaselineBank.Persist | bank.go:180-262 | The file becomes the merge of disk and memory, evicted below the ceiling; a write lost after the merge leaves the disk, keeps the merge in memory and the keys pending, and one that failed before it changes nothing |
| Bank.BaselineBank.Save | bank.go:164-173 | Over a usable file below the ceiling a flush is one persist step of the many-process model, with each of its three endings |
| Bank.BaselineBank.PutBaseline | bank.go:299-319 | A deposit is dirty until a persist lands it; below the ceiling it is one deposit step of the many-process model, with each of its three endings |
| Bank.NewestHeldIffNoOverwrite | bank.go:180-262 | Over every run of opens, deposits and flushes by any processes, failed writes included: the file holds the newest landed baseline of every key all along, if and only if no landed persist carries a pending key the file holds newer, or a differing baseline of the file's own time it did not deposit |
| Bank.NewestIsNewest | bank.go:180-262 | What newest means: the tracked baseline of a key was in the file at the start or was landed by some step, and none that was is newer |
| Bank.LateLandingOverwrites | bank.go:180-262 | A concrete run: a deposit's write is lost, another process lands a newer one, and the first process's flush then leaves the older one in the file |
| Bank.SameSecondOverwrites | bank.go:206-211 | A concrete run: another process's deposit of the same second is undone by a process that deposits a different key |
| Bank.CoverageKept | bank.go:212-219 | Over every run, whatever fails: the file's and every process's coverage entries stay the starting ones |
| Bank.BankConverges | bank.go:180-262 | For every interleaving of locked, landed persists below the ceiling at advancing times, the file holds the last deposit of every key and never loses coverage |
| ProofUnits.ProofUnit.Build | run.go:1406-1428 | The pass runs once: a built unit is left as it is, a failing pass leaves it built without a union |
| ProofUnits.ProofUnit.Release | freshness.go:637-642 | Drops the union and counts one release |
| ProofUnits.TargetDone | run.go:1390-1405 | The first terminal report of a target counts down its unit and releases it at the last; a repeat changes nothing |
| ProofUnits.StepInvariant | run.go:1365-1428 | Every step of either thread keeps each unit's counter equal to its targets still standing and its union held while it is needed |
| ProofUnits.UnitsAreSafe | run.go:1365-1500 | For every interleaving: each pass at most once, no union read after release, released exactly once and exactly when the last target is terminal, repeats included |
| Pins.TimeoutKillsReexecutable | freshness.go:1515-1532 | True exactly when every timeout kill has a candidate evidence row |
| Pins.CheckTimeoutPin | freshness.go:1505-1510 | Holds exactly when the pins are equal, or both are derived and every timeout kill is re-executable |
| Pins.GatedWindowCovers | execute.go:302-318 | A gated window keeps the recorded pins above every verdict's ceiling and budget, and exact for memory-decided verdicts |
| Pins.FreshCovers | execute.go:302-318 | A fresh measurement starts with its pins covering its verdicts |
| Pins.AssembliesMergeBounds | reconcile.go:812-890 | Splice and extension take exactly the merged bound facts |
| Pins.HistoryCovers | freshness.go:1465-1486 | After any gated history of serves, splices and extensions every verdict's ceiling is within the recorded pin, and memory-decided verdicts were measured exactly at it |
| Pins.UnstaleAgreesWithFresh | freshness.go:1481-1486 | A record the memory gate lets through has the outcomes of a fresh run under the current ceiling, given that undecided verdicts persist at larger ceilings |
| Pins.StaleCouldDiffer | freshness.go:1481-1486 | The gate is tight: for a refused pin of a different effective ceiling some covered record would differ |
| Pins.TimeoutKillsAreReexecuted | freshness.go:1515-1532 | The relaxed timeout pin holds exactly when every timeout-killed candidate is flagged for re-execution |
| Freshness.EvidencePrecheck | freshness.go:848-867 | True exactly when the row names the subject, its runtime state is the current verifiable one and its purity assertion matches |
| Freshness.EvidencePairsValid | freshness.go:886-937 | Without errors the batched check is true if and only if every pair prechecks and its own single verdict is accepted, repeated subjects and rows without observation facts included |
| Freshness.RuntimeMemo.Once | freshness.go:1727-1737 | Each manifest is read once; a repeat answers the first reading and counts the use |
| Freshness.RuntimeMemo.Verify | freshness.go:1741-1759 | True exactly when every manifest consulted more than once still reads as it did |
| EditBatch.OverlappingMatchStarts | ephemeral.go:923-936 | Counts every start position that matches, overlapping included; an empty pattern counts none |
| EditBatch.CountOneIsUnique | ephemeral.go:923-936 | The counter reads one exactly when the first match is the only one |
| EditBatch.ApplyEdits | ephemeral.go:888-916 | Applies the edits in order or reports the first empty, unmatched or ambiguous one by index |
| EditBatch.AppliedOneMeans | ephemeral.go:888-916 | One edit succeeds exactly when its pattern matches at one start, and replaces exactly there |
| EditBatch.ReplaceAll | editbatch.go:155-175 | The moving-cursor buffer equals simultaneous replacement of the intervals, and refuses exactly overlapping ones |
| EditBatch.BytesSurvive | editbatch.go:155-175 | Every byte outside the intervals is in the result |
| EditBatch.OrderSurvives | editbatch.go:155-175 | Surviving bytes keep their order |
| AtomicBatch.PrepareEditBatch | editbatch.go:95-182 | Succeeds exactly when every edit is sound, no file has two names, no intervals overlap and something changes; the output is the changed files sorted by name, each replaced at once |
| AtomicBatch.OrderIrrelevant | editbatch.go:95-182 | Success and what is replaced do not depend on the edits' order |
| AtomicBatch.OutputUnique | editbatch.go:95-182 | Nor does the output list |
| Retarget.SwappedPairIsValid | prepare.go:266-310 | A pair is accepted exactly when its swap is |
| Retarget.SwapRestores | lifecycle.go:186-198 | Rewriting back under the swapped pair restores every moved symbol |
| Retarget.PartsForm | lifecycle.go:232-245 | A prefix is its package part, its package part and a terminator, or package, dot and local |
| Retarget.RenameKeepsCoherent | lifecycle.go:268-375 | Under an accepted pair, a coherent row the call does not refuse stays coherent if and only if it did not move, records a package, or the pair's own package part is empty |
| Retarget.PackagelessRowBreaks | lifecycle.go:268-375 | A concrete package-less row a rename leaves incoherent |
| Retarget.RetargetFinding | lifecycle.go:268-375 | The in-place rewrite equals the specified one: every symbol-bearing field rewritten, or the first refusal |
| Retarget.RecordStaysCoherent | lifecycle.go:268-375 | A record's rows that record a package, the target's and every oracle's, come through coherent; survivors and dispositions ride unchanged |
| Retarget.SwapRestoresRow | lifecycle.go:268-375 | The swapped pair restores a moved coherent row that records a package, halves included, if and only if the rename did not end at that package and its dot |
| Retarget.DroppedQualifierStaysDropped | lifecycle.go:268-375 | A concrete pair that is not undone: the way back spells the dropped qualifier into the package half |
| Retarget.RewriteExemptions | lifecycle.go:489-511 | Succeeds exactly when no subject is ambiguous and no two entries land on one acceptance; the result is the entries rewritten in order |
| Retarget.CollisionIsMovedOntoUnmoved | lifecycle.go:489-511 | Two moved subjects never meet: a collision is a moved entry landing on one left alone |
| SelectionText.ParseSelectionKey | findings.go:707-743 | The parsing loop answers exactly the selection the key spells, or refuses |
| SelectionText.SelectionKeyRoundTrip | findings.go:692-743 | Parsing a printed selection gives its sorted, deduplicated form if and only if its tags are non-empty, trimmed and separator-free and its toolchain trimmed and separator-free |
| SelectionText.CommaTagSharesKey | findings.go:692-743 | A tag holding a comma prints the key of another selection, which is what parsing gives back |
| SelectionText.SemicolonKeyRefused | findings.go:692-743 | A semicolon in a tag or a toolchain prints a key the parser refuses |
| SelectionText.ParseSelectionVerdicts | findings.go:379-415 | The parsing loop answers exactly the verdicts the lines spell, or refuses |
| SelectionText.VerdictsRoundTrip | findings.go:353-415 | Parsing printed verdicts gives them back if and only if each is canonical: single-line, a parseable key or the empty key spelled "default", its killer or reason as its kind needs |
| SelectionText.DefaultIsNoKey | findings.go:379-415 | "default" spells no selection key, so the empty key's spelling is unambiguous |

## Left out

- The Go toolchain, test processes, coverage probes, git, symlinks, file modes and locks as such: foreign effects. The
  outcome of a candidate, a resolved path and a landed or failed write are inputs.
- Fingerprints, observations and the unions of runtime evidence: opaque values compared for equality.
- JSON decoding, unknown fields, nulls and the upgrade of legacy rows: records and documents are modelled after decoding,
  with absent and empty lists one value.
- Window gathering, ready-window choice and the confirmation stride: windows are any partition of the targets and the
  scored outcomes are those after confirmation.
- Context cancellation: an operation completes or refuses as a whole, except where the freshness check's answer depends
  on it.
- A crash between two writes of the overlay: only the completed write is claimed.
- The overlay's sidelining of entries in an older format, its parse cache and the routing of records between layers.
- Annotations of a symbol left with a single record: the source does not recompute them, and nothing is claimed of them.
- Progress events, guidance, estimates, posture lines, coverage buckets of survivors, promoted, demoted and dropped counts:
  advisory output.
- Durations are natural counts of nanoseconds or unparsed text.
- The fold over one candidate's oracle groups: a candidate's outcome and killer come from it whole.
- A bank persist that could not take its lock: the source then writes unlocked, and the convergence is claimed only of
  locked ones.
- A rename's listing of the surfaces it touched and the exemption record's own write.
- Renames, prunes and other revisions of the document while a run is under way: a run's interleavings hold the sessions'
  dispositions and the run's own merges.
- Refresh of a record's fingerprints when a spliced union is folded in: evidence rows of the splice are candidate rows only.
- Closure.AnnotateKeepsAccepted: asks for single-line trimmed killers and reasons, because the printed line format has no
  escape for anything else.
- Bank.BankConverges: is stated below the ceiling, because eviction above it forgets deposits by design; Bank.Evict says
  which.
- Bank.NewestHeldIffNoOverwrite: is stated below the ceiling for the same reason.
- Resume.ResumeEquivalence: claims survivor identities and not their advisory buckets, because a re-measured suffix may
  bucket a survivor differently; and supposes no candidate evidence, because the source never extends a record that has any.
- DispositionRuns.WithdrawalNeverResurrected: asks that no session touches the same mutant again, because a later attest
  would rightly attest it.
- Pins.StaleCouldDiffer: leaves out two written forms of one unlimited ceiling, which the gate tells apart though nothing
  could differ.
