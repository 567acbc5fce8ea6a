# Landed work, verified

A Dafny model of three parts of kenn-forge, with proofs.

**Landed work** (`landedwork/`). Given a pinned interval of a Git history and a provider's
candidates for what landed in it, the analysis decides which commits each landing (merge, squash,
rebase, fast-forward) or direct push introduced, and how far along the first-parent spine that
account can be certified. The object store is an immutable partial map whose answers, where there
are any, are exact; every read spends part of a shared budget, at most one unit, and fails once the
budget has. Each operation appears twice: as a function of the store, about which the theorems are
proved, and as a method with the loops, maps, in-place filters and budget charges of the program,
proved to compute that function while the budget lasts and to fail closed when it does not.

The main results:

- `Analysis.Analyze`: every report on a prepared interval accounts for each commit at most once,
  certifies exactly what it claims, loses no commit silently, and fails closed; a budget that covers
  the reads is enough.
- `Landings.LandsExactly`, `IntegratedExactly`, `GapsExactly`, `PushedExactly` and `MissedExactly`:
  every list of the report as a set defined by the evidence and the proofs alone.
- `Analysis.CandidateOrderIrrelevant` and `Candidates.CandidatesConserved`: the report does not
  depend on candidate order, and reports each candidate exactly once.
- `Soundness.ProofsAreSound`: what an accepted candidate owns. `Acceptance`, with
  `Ranges.RangeCompared`, `Merges.MergeExact` and `Sources.SourceBoundaryExact`: exactly which
  candidates each method accepts. `Refusals`: what the others are refused for.
- `Edits.EqualRunsEqualTexts`, `Correspondence.CorrespondingTreesAgree`, `Hunks.HunkRoundTrip`:
  comparing edits without their offsets loses nothing. `Comparison.ComparedExactly`,
  `Hunks.LineHunkAccepted`: exactly when two changes correspond, are refuted or stay open.
- `Preparation.Prepare`, `ShallowCheck.ShallowCheckSuffices`: what a prepared interval promises.
- `Streaming.ChunkInvariance`, `Streaming.StreamExactly`: the revision reader takes in exactly the
  lists that Git prints, however they are cut.

**Smaller protocols.** `Gate`: the shutdown gate around tmux session creation
(`cmd/e2e-server/main.go`) as a state machine of any number of creators and one stopper.
`Locking` and `Lifecycle`: the lock-and-recheck protocol of daemon mutations
(`cmd/kenn-forge/daemon_lifecycle.go`). `Pages`: draining a cursor-paged read (`platform/page.go`).

## A finding

The gate's script installs `trap 'rmdir ...' EXIT HUP INT TERM` (`cmd/e2e-server/main.go:1448`).
The handler does not exit, so a HUP, INT or TERM that the shell handles removes the creation lock
while the script goes on, and the exit trap then removes the directory a second time. A fatal
signal outside that list can end the shell during the command; a shell that then runs its exit trap
removes the lock while the session command goes on. `Gate.SignalBeforeBreaks`,
`Gate.SignalDuringBreaks` and `Gate.ExitDuringBreaks` give runs in which the kill meets a running
session command. `Gate.GateSafeExactly` states the exact condition for safety; a signal that comes
before the trap is installed, and a shell that dies without running a handler, are harmless and
always allowed.

## Reading guide

`Model` and `Store` hold the data and what a read returns; `Graph` and `Intervals` the history and
the spine. `Streaming`, `Metering`, `View` and `ShallowCheck` are the charged reads; `Text`,
`Edits`, `Hunks`, `TreeFiles`, `Inventories`, `TreeEdits`, `Correspondence` and `Comparison` the
edit comparison; `Sources`, `Ranges`, `Alternatives`, `Proofs`, `Merges`, `Acceptance`, `Refusals`
and `Soundness` the proof of one candidate, `Pacing` what it may read; `Overlaps`, `Blocking`,
`Direct`, `Origins` and `Resolution` the whole resolution; `Accounting` and `Validation` what inputs
and outputs cost and must be; `Finishing`, `Conservation`, `Preparation`, `Analysis`, `Candidates`
and `Landings` the two entry points and their theorems.

A sort through `slices.SortFunc` is not stable, so `Ordering.SortFunc` promises only an ordered
permutation; wherever the program relies on the result being determined, that is proved.

## Model

| member | source | states |
|---|---|---|
| Analysis.Analyze | landedwork/analyze.go:16-76 | Without exhaustion the outcome is the one the store determines: rejected arguments or evidence, a report, or a report withheld because it exceeds the output limits. Every report on a complete interval is sound (conserves commits, certifies exactly, holds only sound disjoint origins) and loses nothing, also when the budget ran out. It is complete only with a supported and complete inventory; without one it certifies only the base, records no push, and a gap over the whole interval gives the inventory's next commit and its reason. An exhausted run is never rejected nor complete and names the budget in a gap behind which nothing is certified or recorded; either nothing at all is, or every candidate was settled as without exhaustion and the pushes are a prefix of those found without it. Evidence that costs more than the limits exhausts the budget, and limits that cover the evidence and a stated number of reads are enough: then it is never exhausted. |
| Conservation.FinishedReportSound | landedwork/analyze.go:89-109 | The origins of a finished report never share a commit, stay inside reach(head) minus reach(base), and cover all of it when the report is complete; the certified head ends the longest held and unblocked prefix, which consists of whole origins accounting for exactly reach(certified head) minus reach(base); unattributed commits are the spine commits no origin holds. |
| Conservation.FinishLosesNothing | landedwork/analyze.go:94-109 | Every unattributed spine commit lies inside a reported gap, so a report is complete exactly when it has no gap. |
| Conservation.PrefixAccounted | landedwork/analyze.go:94-109 | Telescoping: whole origins that hold the first n spine positions together account for exactly what those positions bring in. |
| Conservation.CertifiedIsWhole | landedwork/analyze.go:94-109 | The certified prefix never ends inside a landing, although blocking works commit by commit. |
| Conservation.PrefixIsLongest | landedwork/analyze.go:94-109 | The certified prefix stops only at a commit that no origin holds or a gap blocks. |
| Conservation.FinishedGapsBlock | landedwork/analyze.go:43-48 | Filling in empty spans and sorting the gaps does not change which commits they block. |
| Conservation.OriginsSeparate | landedwork/analyze.go:89-99 | Landings and direct pushes of sound findings occupy separate stretches of the spine. |
| Analysis.CandidateOrderIrrelevant | landedwork/origins.go:56-104 | Any permutation of the evidence candidates is rejected or accepted alike and gives an equal report, list by list. |
| Analysis.FinishFailsClosed | landedwork/origins.go:79-103 | The gap that names the exhausted budget survives the finish and nothing from its start on is certified or recorded as a push; a cut before push classification certifies nothing and records no push. |
| Analysis.CompleteWithoutCandidates | landedwork/direct.go:5-31 | Without candidates, on a full inventory and a readable repository, a report is complete exactly when every commit of the interval is provably a push. |
| Analysis.FinishGoverned | landedwork/analyze.go:57-63 | Whatever was found and however far the budget went, a report on a partial inventory is not complete, certifies only the base and records no push, and its gap over the whole interval names the next commit and the reason. |
| Landings.LandsExactly | landedwork/origins.go:61-83 | The landings of a report are exactly the proofs of the candidates that share neither ID nor nonempty terminal with another, have their terminal on the spine, are proven, and claim no commit that another such candidate claims. |
| Landings.IntegratedExactly | landedwork/origins.go:84-158 | The integrated candidates are exactly those that stand alone off the spine, are labelled a merge or not at all, are proven, and whose terminal and introduced commits a merge of the report introduced, which is the one named. A squash, rebase or fast-forward off the spine never is. |
| Landings.GapsExactly | landedwork/origins.go:61-99 | The gaps that name candidates are exactly these: a conflict for each that shares its ID or terminal, or that is proven but collides; the refusal of its proof for each other one that is not proven, up to its terminal or over the whole interval; and terminal_outside_spine for one off the spine that came through no merge. |
| Landings.ConflictsExactly | landedwork/origins.go:65-83 | A candidate is named in a candidate_conflict gap exactly when it shares its ID or nonempty terminal with another, or is provable and collides. |
| Landings.PushedExactly | landedwork/direct.go:5-31 | The direct pushes are exactly those of the positions that no landing owns and no candidate's gap covers, on a full inventory, where the objects prove a push. |
| Landings.MissedExactly | landedwork/direct.go:5-31 | The gaps that name no candidate are exactly that of a partial inventory and one for each such position that is not provably a push, over that position alone. |
| Landings.ReportOrdered | landedwork/analyze.go:89-126 | Landings, pushes and unattributed commits are listed along the spine, integrated candidates by ID, gaps by candidate, reason, object and span. |
| Landings.UnreadReport | landedwork/analyze.go:64-73 | A repository that cannot be opened or fails the shallow check attributes and certifies nothing: besides that of a partial inventory one gap over the whole interval says why. |
| Landings.UnpreparedReport | landedwork/analyze.go:33-56 | The report on an interval that could not be prepared repeats its gaps and nothing else. |
| Validation.ValidateEvidence | landedwork/evidence.go:78-108 | The verdict is the first fault in candidate order, and the charge is exactly the entries and bytes up to it: the meter fails exactly when they exceed its balances, and otherwise the balances fall by them. |
| Validation.FaultIgnoresOrder | landedwork/evidence.go:85-106 | Whether evidence is faulty does not depend on candidate order. |
| Validation.AcceptedEvidenceExactly | landedwork/evidence.go:78-108 | Evidence is accepted exactly when it answers this query and every candidate is of the query's repository, has an ID and a known method, and names terminal, head and source by lower-case hexadecimal IDs of the head's length, or leaves them empty. |
| Validation.FirstFaultDecides | landedwork/evidence.go:93-105 | The first faulty candidate decides the error: its identity before its object IDs before its method. |
| Validation.EvidenceCharged | landedwork/evidence.go:83-107 | Accepted evidence is charged one record for each candidate, source commit, query commit and gap and the length of every string in it, once; faulty evidence the candidates up to and including the first faulty one. |
| Validation.BoundsExactly | landedwork/model.go:74-111 | The bounds are accepted exactly for a known provider with its host and repository ID, a head that is a commit name, and a base of the same length, or none when the interval starts at the root. |
| Accounting.ReportCharged | landedwork/accounting.go:32-57 | A report is charged the length of every string in it and one record for every entry that it lists, once each. |
| Accounting.QueryCharged | landedwork/accounting.go:24-30 | A query is charged the length of every string in it, once. |
| Analysis.FindOrigins | landedwork/analyze.go:58-75 | Opening, shallow check and resolution always leave sound, fully explained findings; after a spent budget they are closed by a gap through the head, the whole interval when push classification had not begun. It asks for a bounded number of reads. |
| Finishing.FinishCoverage | landedwork/analyze.go:89-126 | The scan and both in-place sorts compute the finished report, whatever orders the unstable sorts pick. |
| Finishing.ScanSpine | landedwork/analyze.go:94-109 | One pass finds the unattributed commits and the end of the longest owned, unblocked prefix. |
| Finishing.GapSortsAgree | landedwork/analyze.go:114-125 | The five-part gap key separates gaps, so the sorted gap list is determined. |
| Finishing.LandingSortsAgree | landedwork/analyze.go:110-113 | Disjoint landings have different terminals, so their order by position is determined. |
| Finishing.FinishIgnoresGapOrder | landedwork/analyze.go:110-125 | Findings that differ only in the order of their gaps finish as the same report. |
| Finishing.CertifiedFrom | landedwork/analyze.go:94-109 | The position returned ends the longest certifiable stretch. |
| Candidates.CandidatesConserved | landedwork/origins.go:56-104 | While the budget lasts, landings, integrated candidates and naming gaps together carry every candidate ID exactly once. |
| Candidates.ResolutionConserves | landedwork/origins.go:61-99 | The same for resolution itself, through the conflict, proof, overlap and off-spine stages. |
| Candidates.FirstPassConserves | landedwork/origins.go:61-82 | Each candidate is landed, put in a gap or deferred, exactly once. |
| Candidates.SecondPassConserves | landedwork/origins.go:85-98 | Each deferred candidate is integrated or put in a gap, exactly once. |
| Candidates.ContainedOnce | landedwork/origins.go:116-153 | Two surviving merges introduce disjoint histories, so no candidate is contained in both. |
| Candidates.IntegrationExact | landedwork/origins.go:106-158 | An off-spine candidate is integrated exactly when it is labelled a merge or not at all, is proven and a surviving merge contains it; that merge is then the only one, so the second-container branch is unreachable. |
| Resolution.ResolveOrigins | landedwork/origins.go:56-104 | Always sound and fully explained findings; equal to the order-free specification while the budget lasts. A cut before push classification closes the whole interval; a cut during it keeps every candidate settled alike and the pushes found so far. Its reads are bounded by those of the candidates and of the spine. |
| Resolution.ResolveCandidates | landedwork/origins.go:57-99 | Both candidate passes and the overlap check compute their lists and leave sound, disjoint landings that no gap cuts; a spent budget leaves a whole-interval gap. |
| Resolution.FirstPass | landedwork/origins.go:61-82 | Candidates in ID order; every landing sound, every gap anchored at the base. |
| Resolution.SecondPass | landedwork/origins.go:84-99 | Deferred candidates against the surviving landings. |
| Resolution.SettleCandidate | landedwork/origins.go:65-81 | One candidate: conflict, deferral, refusal or a sound landing. |
| Resolution.CandidateCounts | landedwork/analyze.go:78-87 | The two maps count nonempty terminals and all IDs. |
| Resolution.FindThrough | landedwork/origins.go:115-153 | The scan over outer landings finds the one that contains the inner landing. |
| Resolution.LandingOwners | landedwork/origins.go:28-36 | The owned IDs are those on some landing's spine. |
| Resolution.OverlapsSound | landedwork/origins.go:160-181 | After overlap rejection the landings are disjoint, every gap end is a known position, and no gap cuts a surviving landing. |
| Resolution.SkippedIsExplained | landedwork/direct.go:6-29 | Whatever push classification skips belongs to a landing or lies in an earlier gap. |
| Origins.EvidenceOrderIrrelevant | landedwork/origins.go:56-104 | Resolution gives equal landings, integrated candidates and pushes, and permuted gaps, for any candidate order. |
| Origins.OrdersAgree | landedwork/origins.go:57-60 | Any two orders by ID resolve alike, although the sort is unstable and IDs may repeat. |
| Origins.UncontestedOrder | landedwork/origins.go:57-68 | Only contested candidates share an ID, so every order by ID lists the uncontested ones alike. |
| Overlaps.RejectOverlaps | landedwork/origins.go:160-181 | In place, the slice ends up holding exactly the landings without clashes, in order, and each clashing landing yields one gap over its stretch. |
| Overlaps.FindConflicts | landedwork/origins.go:161-171 | A landing is marked exactly when it repeats a commit or shares one with another landing, although the owner map keeps only the first owner. |
| Overlaps.SurvivorsDisjoint | landedwork/origins.go:172-180 | Survivors repeat no commit and are pairwise disjoint. |
| Overlaps.SurvivorsAvoidRejected | landedwork/origins.go:172-180 | Survivors share nothing with rejected landings either. |
| Overlaps.OverlapsConserve | landedwork/origins.go:172-180 | Every landing is kept once or reported once. |
| Blocking.BlockedSpine | landedwork/origins.go:38-54 | The blocked set is what the spans cover; with known span ends the position table is never read at an unknown ID and the spine never out of range. |
| Blocking.Positions | landedwork/origins.go:39-42 | The position table holds exactly the base and the spine commits. |
| Blocking.BlockSpan | landedwork/origins.go:44-52 | One span blocks the positions after its start through its end, the whole interval when it is empty. |
| Blocking.BlockedIgnoresOrder | landedwork/origins.go:43-53 | The blocked set does not depend on gap order. |
| Blocking.CandidateGapCovers | landedwork/origins.go:13-22 | The gap of a refused candidate blocks exactly the positions up to its terminal when that is evidenced and on the spine and the budget did not end the proof, and otherwise every position; object and reason stay. |
| Blocking.SpanCovers | landedwork/origins.go:38-54 | A span from the commit before one position through a later one covers the positions between, both included, and no other. |
| Direct.ClassifyDirectPushes | landedwork/direct.go:5-31 | Pushes are sound, at distinct unskipped positions, and a prefix of those the store determines; every spine commit is skipped, a push, or inside a gap; a failure at one position leaves a gap from there through the head. |
| Direct.ReadPush | landedwork/direct.go:33-65 | One spine commit read through the meter is the push the store determines, or names the budget. |
| Direct.PushSound | landedwork/direct.go:40-64 | A push introduces exactly what its spine position brings in, root commit and merges included. |
| Acceptance.PushProvenExactly | landedwork/direct.go:33-65 | A spine commit is a direct push exactly when it is a readable root with nothing before it, or its readable first parent is the commit before it and every commit it brought in is listed and readable; the push then lists those. |
| Refusals.PushRefused | landedwork/direct.go:33-65 | A commit that is no push is named with its reason: unreadable, not following the commit before it, that one unreadable, its history unlisted, or the first listed commit that is unreadable. |
| Direct.PushGapReaches | landedwork/direct.go:16-19 | The gap of a position covers it, and one through the head covers all the rest. |
| Intervals.SpineGrows | landedwork/prepare.go:56-74 | History only grows along the first-parent spine. |
| Intervals.StretchesDisjoint | landedwork/proof.go:67-80 | Separate stretches of the spine bring in disjoint histories. |
| Intervals.ArrivalPosition | landedwork/proof.go:67-80 | Every commit that is new since the base came in at one spine position. |
| Intervals.LinearStretch | landedwork/range.go:96-105 | A stretch of single-parent commits brings in exactly those commits. |
| Intervals.LinearLandingSound | landedwork/range.go:96-105 | A landing that lists a linear stretch as its spine and as introduced owns that slice and nothing else. |
| Soundness.ProofsAreSound | landedwork/proof.go:10-81 | Whatever the method, an accepted candidate owns a contiguous slice of the spine ending at its terminal and starting after its boundary, and introduced exactly what the slice brings in; a refusal names it. |
| Soundness.RangeSound | landedwork/range.go:90-114 | A matching range that fits the interval is the slice of spine that ends at the terminal. |
| Soundness.SquashSound | landedwork/single_parent.go:106-111 | A squash owns its terminal's position. |
| Soundness.MergeSound | landedwork/proof.go:102-124 | A matching merge owns its terminal's position and introduced what that position brings in. |
| Soundness.SuffixIsSpine | landedwork/git.go:163-183 | The walked first-parent suffix, reversed, is a slice of the spine. |
| Soundness.ResolveSound | landedwork/alternatives.go:27-66 | Choosing between sound attempts yields a sound landing or a named refusal. |
| Soundness.VerdictNames | landedwork/proof.go:10-81 | Off the spine too, a refusal carries the candidate's ID and an acceptance its ID and terminal. |
| Merges.MergeExact | landedwork/proof.go:102-124 | With the reads answered, a merge matches exactly when the commits new at its first parent are the merge itself and the source commits that parent lacks. |
| Merges.CheckedSourcesDiffer | landedwork/proof.go:83-97 | Sources that pass the check are distinct. |
| Proofs.ReadProof | landedwork/proof.go:10-81 | Reading through the meter gives the verdict the store determines, or one that names the budget and the candidate. |
| Proofs.ReadRange | landedwork/range.go:9-36 | Likewise for the range proof. |
| Proofs.ReadRangeAlternatives | landedwork/range.go:90-114 | Likewise for the rebase and fast-forward attempts; a spent budget leaves the rebase attempt inconclusive, and for a fast-forward both. |
| Proofs.ReadSquash | landedwork/single_parent.go:47-78 | Likewise for the squash proof. |
| Proofs.ReadSingleParent | landedwork/single_parent.go:87-104 | Likewise for the unlabelled single-parent alternatives. |
| Proofs.CheckSources | landedwork/proof.go:83-97 | The seen-map loop refuses an empty, repeated or unreadable source commit, or a missing head. |
| Proofs.MergeCorrespondence | landedwork/proof.go:102-124 | The loop and sorts compare what was introduced with the sources the parent lacks. |
| Proofs.ReadMerge | landedwork/proof.go:54-81 | Merge proof through the meter. |
| Proofs.Topology | landedwork/proof.go:32-50 | For a merge or an unlabelled candidate the checks pass exactly for a supported merge of two parents whose second is the source head; for a squash exactly for a supported one with one parent. |
| Ranges.RangeExact | landedwork/range.go:41-88 | The outcome in terms of the verdicts on the pairs, a step towards RangeCompared: mismatch exactly when some pair is unequal or the suffix is too short; otherwise inconclusive exactly when a pair is ambiguous or two rewritten pairs carry the same edits; otherwise a match. |
| Ranges.RangeCompared | landedwork/range.go:41-88 | With all reads answered, by commit IDs and tree comparisons: refuted exactly when the target suffix is too short or some pair has different IDs and is a fast-forward's or compares as a mismatch; otherwise inconclusive exactly when the edits of a differing pair are ambiguous or two differing pairs carry the same edits; otherwise a match, identical exactly when all IDs agree. |
| Ranges.MatchesExactly | landedwork/range.go:41-88 | Whatever else can be read, a range that is not a fast-forward matches exactly when the suffix is as long as the source, its boundaries are readable, every pair is one commit or compares as one change, and no two changes are the same. |
| Ranges.RangeStops | landedwork/range.go:47-85 | The first pair that the comparison cannot go past decides the error and the commit it names: the unreadable boundary, or the source commit that is refuted or unreadable; a target that ends early is named by where it ends. |
| Ranges.RangeNames | landedwork/range.go:69-88 | An inconclusive range names the source commit nearest to the head whose edits are ambiguous or repeat those of one nearer to the head. |
| Ranges.WalkExact | landedwork/range.go:47-85 | The same from any point of the walk. |
| Ranges.RangeOwns | landedwork/range.go:86-87 | A match owns exactly as many commits as the source has, ending at the terminal, down to a readable boundary. |
| Ranges.WalkOwns | landedwork/range.go:47-87 | A walk without error owns every pair it was asked for, in spine order. |
| Ranges.IdenticalBelow | landedwork/range.go:59-61 | Below one identical pair every earlier pair is identical, down to equal boundaries. |
| Ranges.SuffixChain | landedwork/git.go:163-183 | Along the yielded suffix each commit's only parent is the next one. |
| Ranges.RangeCorrespondence | landedwork/range.go:41-88 | The backward loop with its pending error, rewritten list and final in-place reversal computes the walk. |
| Ranges.ReadPair | landedwork/range.go:53-85 | One pair, judged through the meter; fast-forward never reads trees. |
| Acceptance.MergeProvenExactly | landedwork/proof.go:10-81 | A candidate labelled a merge, or an unlabelled one without exactly one parent, is accepted exactly when terminal, method and complete nonempty source are stated and evidenced, merges are supported, its second parent is the source head, the source lists distinct readable commits with the head among them, its history can be read, and it brought in exactly those its first parent lacks. |
| Acceptance.SquashProvenExactly | landedwork/single_parent.go:47-78 | A squash is accepted exactly when it is stated and supported, its one parent and the commit before are readable, and its source is a complete linear chain whose whole change corresponds to the terminal's. |
| Acceptance.RebaseProvenExactly | landedwork/range.go:9-36 | A rebase is accepted exactly when it is stated and supported and its source is a complete linear chain that fits the interval and whose commits pair up with the target suffix: as many, each one commit or one change, no change twice. |
| Acceptance.RebasePairsOneWay | landedwork/range.go:59-85 | In a range that pairs up no rewritten source commit makes the change of another pair's target, so the pairing of the rewritten commits is the only one possible. |
| Acceptance.RebaseRefusals | landedwork/range.go:32-36 | A fitting rebase that is read is refused for lack of correspondence exactly when the target is too short or a pair is not one change, and otherwise for its edits exactly when some are ambiguous or occur twice. |
| Acceptance.AcceptedIsStated | landedwork/proof.go:13-50 | Whatever the objects say, nothing is accepted without a named and evidenced terminal, evidence for a stated method, a complete nonempty source with its head, and the provider's support for what it needs. |
| Acceptance.MergeLands | landedwork/proof.go:67-81 | An accepted merge owns its terminal on its first parent, is labelled a merge, and introduced, sorted and once each, all else that the terminal contains and that parent does not. |
| Acceptance.SquashLands | landedwork/single_parent.go:106-111 | An accepted squash owns and introduced its terminal alone, on its parent, and is labelled a squash. |
| Acceptance.RebaseLands | landedwork/range.go:90-114 | An accepted rebase owns and introduced as many commits back along first parents as it has sources, oldest first, on the last one's parent. |
| Acceptance.FastForwardLands | landedwork/range.go:90-114 | An accepted fast-forward owns and introduced its source, on the commit before it. |
| Acceptance.SingleParentProvenExactly | landedwork/single_parent.go:87-104 | An unlabelled candidate with one parent is accepted exactly when it is stated, the comparison is supported, its terminal is on the spine, its source is a complete linear chain, squash and range correspondence are both conclusive, at least one matches, a matching range fits the interval, and both match only for a single commit; the landing carries exactly the labels of the alternatives that matched, in strict order, and owns what they found. |
| Acceptance.OneCommitAgrees | landedwork/alternatives.go:68-76 | A squash and a matching range own the same origin exactly when the source is one commit. |
| Acceptance.FastForwardProvenExactly | landedwork/range.go:9-36 | A fast-forward is accepted exactly when it is stated and supported and its source is a complete linear chain that ends at the terminal and fits the interval; it then owns and introduced exactly its source, in order. |
| Acceptance.CheckedExactly | landedwork/proof.go:83-100 | The source check passes exactly for a list of distinct readable commits that contains the head. |
| Refusals.EvidenceRefused | landedwork/proof.go:13-24 | Evidence that is wanting is refused before any read: an unsupported range method, then the terminal, the method, the source. |
| Refusals.TerminalUnread | landedwork/proof.go:28-31 | A terminal of a merge, squash or unlabelled candidate that cannot be read is named as unavailable. |
| Refusals.ShapeRefused | landedwork/proof.go:32-50 | A readable terminal of the wrong shape is refused for the first test it fails, at the terminal. |
| Refusals.ChainRefused | landedwork/single_parent.go:9-45 | The first source commit that breaks the chain is named with what is wrong with it; a head elsewhere comes before that, an unreadable boundary after it. |
| Refusals.MergeSourceRefused | landedwork/proof.go:83-98 | A merge names its first empty, repeated or unreadable source commit, or a head that is not listed. |
| Refusals.MergeRefused | landedwork/proof.go:58-76 | A merge of a sound source is refused for the commit before it, for a read of its history, or because it brought in something else. |
| Refusals.SquashRefused | landedwork/single_parent.go:47-85 | A squash is refused for its source, for the commit before it, or by how the two changes compare. |
| Refusals.RangeRefused | landedwork/range.go:9-36 | A range is refused because it would cross the base, for its source, for the shape of the terminal, or by how it compares, naming the commit that the comparison names. |
| Refusals.SingleParentRefused | landedwork/single_parent.go:87-104 | An unlabelled candidate with one parent is refused for its source, for the commit before, by an inconclusive comparison, the squash's first, because the matching range crosses the base, because nothing matches, or as ambiguous when a longer source matches in both ways. |
| Sources.SourceBoundaryExact | landedwork/single_parent.go:9-45 | A boundary is accepted exactly for a complete linear chain of distinct readable commits on a readable boundary, and it is then the chain's first parent. |
| Sources.ReadSourceBoundary | landedwork/single_parent.go:9-45 | The loop through the meter finds that boundary, or names the budget. |
| Alternatives.AttemptOrderIrrelevant | landedwork/alternatives.go:25-66 | Any order of the attempts leaves the candidate unproven alike, or proves the same origin with the same labels and introduced set. |
| Alternatives.ResolveExactly | landedwork/alternatives.go:25-66 | A candidate is proven exactly when no alternative is inconclusive or crosses the base, some alternative matches and all that match own one origin; the landing is one of theirs and carries exactly all their labels, in strict order. |
| Alternatives.ResolveAlternatives | landedwork/alternatives.go:27-66 | The loops, sort and compact compute the chosen landing or refusal. |
| Alternatives.SortedEqualIffPermutation | landedwork/alternatives.go:68-76 | Comparing sorted copies tests equality as multisets. |
| Alternatives.AgreementIgnoresOrder | landedwork/alternatives.go:45-66 | Agreement with the first match does not depend on which match is first. |
| Edits.EqualRunsEqualTexts | landedwork/edits.go:30-40 | Two genuine patches of one text that are accepted with equal runs change it at equal positions and rewrite it to the same text. |
| Edits.RunsDetermineChanges | landedwork/edits.go:165-182 | Replaying offset-free runs performs exactly the changes of the hunks. |
| Edits.RunPlace | landedwork/edits.go:172-181 | The place found for one run is the place its hunk names. |
| Edits.InsertionPlace | landedwork/edits.go:197-219 | An insertion lies at the only occurrence of its neighbouring lines, after the line before it. |
| Text.UniqueBytesMeansOnce | landedwork/edits.go:192-195 | First and last index agree exactly when the part occurs once, and then there. |
| Text.LinesOccur | landedwork/edits.go:199-203 | A stretch of lines occurs at the offset of its first line. |
| Text.LinesJoin | landedwork/edits.go:199-203 | Splitting after newlines loses no byte. |
| Hunks.HunkRoundTrip | landedwork/edits.go:221-249 | Reading a printed hunk gives back the removed and added texts, for all texts, with or without final newlines. |
| Hunks.LineHunkFits | landedwork/edits.go:221-249 | A hunk that replaces whole lines removes exactly the text of the lines it names, at their offset. |
| Hunks.LineHunkAccepted | landedwork/edits.go:165-219 | For all texts and stretches of lines, the hunk that replaces them is accepted exactly when their text occurs once or, for an insertion, the old text is empty or the two neighbouring lines joined occur once; its run states both texts. |
| Hunks.RunExactly | landedwork/edits.go:165-219 | Any hunk yields a run exactly when its body reads and its removed text occurs once or its insertion can be placed; the anchor is the neighbourhood. |
| Hunks.BodyReadsExactly | landedwork/edits.go:221-249 | A body reads exactly when every line is removed or added, in the numbers the hunk names. |
| Comparison.FileEditsExactly | landedwork/edits.go:125-190 | The edits of a file are found exactly when both sides can be read and it is a submodule, a link or holds a zero byte, or its patch is one parsed section of accepted hunks, at least one where a present text changes; they are the object IDs alone, or one run for each hunk. Where all was read and they are not found, they are ambiguous. |
| Comparison.ComparedExactly | landedwork/edits.go:42-73 | Two changes correspond exactly when both are listed with the same nonempty paths and modes, all edits are found, and every pair of files replaces the same objects or has the same runs; they are refuted exactly when the names differ, or all edits are found and some pair differs. |
| Comparison.SameChangeCorresponds | landedwork/edits.go:42-73 | Equal changes whose objects can be read and whose texts are edited line by line, each hunk at the only place where it can apply, always correspond. |
| TreeEdits.ReadHunk | landedwork/edits.go:221-249 | The cursor loop reads the two sides of the body. |
| TreeEdits.ReadRuns | landedwork/edits.go:165-182 | Hunk by hunk, each removal unique, each insertion sited. |
| TreeEdits.ReadFileEdits | landedwork/edits.go:125-190 | One file's edits through the meter, binary sides included. |
| TreeEdits.ReadPairs | landedwork/edits.go:60-68 | The files of both trees, pair by pair. |
| TreeEdits.CompareTreeEdits | landedwork/edits.go:42-73 | The comparison through the meter is the one the store determines. |
| Correspondence.CorrespondingTreesAgree | landedwork/edits.go:42-73 | When two commits correspond they change the same paths between the same modes, and each pair of files is the same object replaced by the same object or the same runs replayed on both old texts, also where these differ; equal old contents end as equal new contents. |
| Correspondence.SameChangeNeverRefuted | landedwork/edits.go:42-73 | Two changes of the same files between the same objects with the same patches never count as a mismatch: only unreadable or ambiguous edits keep them from corresponding. |
| Correspondence.SameEditsSameRewrite | landedwork/edits.go:30-40 | The same for one pair of files: equal edits are the same objects, or one list of runs that rewrites both texts. |
| Correspondence.CommonTarget | landedwork/edits.go:42-73 | Two source changes that correspond to one target change carry the same edits. |
| Correspondence.CommonSource | landedwork/edits.go:42-73 | A source change has the same edits whichever target it corresponds to. |
| TreeFiles.ParseEditFiles | landedwork/edits.go:83-115 | The cut loop, sort and neighbour check compute the inventory by path, whatever order the unstable sort picks. |
| TreeFiles.PathOrdersAgree | landedwork/edits.go:108-114 | Any two path orders agree on whether a path repeats and, if none does, on the list. |
| TreeFiles.RepeatsAreNeighbours | landedwork/edits.go:109-113 | Checking neighbours finds every repeated path. |
| Inventories.FilesRoundTrip | landedwork/edits.go:83-115 | A printed inventory in any order parses to its entries in path order, and is refused exactly when a path repeats. |
| Inventories.EntryRoundTrip | landedwork/edits.go:86-107 | A printed entry followed by anything parses to itself and leaves the rest. |
| Inventories.EntryExactly | landedwork/edits.go:86-123 | An entry of five words and a path is accepted exactly when it has a path, a colon, two of the five modes, two full object names and one of the four statuses, and is then that change. |
| Preparation.Prepare | landedwork/prepare.go:12-83 | Invalid exactly for bad limits, repository, bounds or an empty path. A complete interval is the first-parent chain from the base to the head, its commits sorted and exactly reach(head) minus reach(base); otherwise one gap spans the interval. Its reason is the budget exactly when that was spent; otherwise it names the first read that failed: the view, the shallow check, the base, the commit where the walk along first parents stops or a root that is not the base, or the revision list. Without exhaustion the interval is complete exactly when everything it needs can be read. Limits that cover a stated number of reads are enough. A query beyond the output limits is withheld, and only such a one. |
| Preparation.PreparedFromFullHistory | landedwork/prepare.go:46-82 | The interval that a shallow clone prepares is the complete interval of the full history: its commits are the full reach(head) minus reach(base), its spine the full first-parent chain. |
| Preparation.PrepareView | landedwork/prepare.go:40-82 | The same after validation. |
| Preparation.WalkSpine | landedwork/prepare.go:56-74 | The walk ends because each read spends a node, with nothing assumed about cycles, and finds the spine exactly when there is a readable one; otherwise it names the unreadable commit, or a root that is not the base. In an acyclic history it reads no more commits than there are. |
| Preparation.WalkRepeatsNothing | landedwork/prepare.go:57-73 | A walk that stops at the first meeting with the base, or at the root, repeats no commit. |
| Preparation.TrailReadsOn | landedwork/prepare.go:57-70 | While a readable spine exists, no step of the walk is a dead end. |
| Preparation.DeadEndIsUnique | landedwork/prepare.go:56-71 | The walk stops short of the base in one way at most, so what is said of it is determined. |
| Preparation.SpineIsIntroduced | landedwork/prepare.go:75-81 | Every spine commit is one of the query's commits. |
| ShallowCheck.ShallowCheckSuffices | landedwork/shallow.go:31-65 | When the check passes, the clone's view shows the full history of base and head: no cut hides introduced or excluded ancestry. |
| ShallowCheck.ShallowCheckExactly | landedwork/shallow.go:33-65 | The check passes exactly when every shallow entry is an object name that is answered to be no ancestor of the base, where there is one, nor of the head. |
| ShallowCheck.ReadShallow | landedwork/shallow.go:33-65 | The nested loop over entries and ends computes that check. |
| Streaming.FeedAllIsReference | landedwork/stream.go:10-48 | Writes in any chunks succeed exactly when the whole text parses and fits the budget, leaving the same IDs, pending text and balances. |
| Streaming.ChunkInvariance | landedwork/stream.go:16-48 | Any two ways of splitting a byte stream into writes end alike. |
| Streaming.StreamRoundTrip | landedwork/stream.go:16-48 | Printed IDs come back through any chunks with nothing pending, exactly when the budget covers them. |
| Streaming.StreamExactly | landedwork/stream.go:16-48 | For any chunks, the stream takes in exactly a list of full object names, each on its line, and an unfinished line of no more than 64 bytes, within the budget, and spends a node and a record for each ID and every byte. |
| Streaming.CommitStream.Write | landedwork/stream.go:16-48 | One write moves the reader, and fails the meter exactly when the budget runs out. |
| Metering.Meter.Input | landedwork/budget.go:14-23 | Charges the bytes if they fit; otherwise takes nothing and fails for good. |
| Metering.Meter.Records | landedwork/budget.go:25-34 | Charges the records likewise. |
| Metering.Meter.Node | landedwork/budget.go:36-45 | Takes one node, or fails for good. |
| View.ObjectView.Run | landedwork/git.go:34-48 | A command succeeds only while the meter has not failed, a failed meter stays failed, and it spends no more than one unit of the budget. |
| View.ObjectView.Parents | landedwork/git.go:118-140 | The store's parents or an error; spends a node, and names the budget exactly when the meter has failed. |
| View.ObjectView.Introduced | landedwork/git.go:142-156 | The store's revision list, read back through the charging stream in any chunks, or an error. It spends no more than one unit of the budget whatever it prints. |
| View.ObjectView.Ancestor | landedwork/shallow.go:67-79 | The store's ancestry answer or an error. |
| Model.GraphReason | landedwork/prepare.go:85-93 | The reason tells a spent budget, a shallow boundary and every other failure apart. |
| Model.EditReason | landedwork/single_parent.go:80-85 | Unavailable edits have a reason of their own; every other failure keeps its reason. |
| Ordering.SortedPermutationsEqual | landedwork/analyze.go:110-125 | Two sorted arrangements of the same elements are equal when the order separates them. |
| Ordering.CompactAscends | landedwork/alternatives.go:63-64 | Compacting a sorted list keeps exactly its members, once each, in strict order. |
| Pages.CollectPages | platform/page.go:123-168 | For every provider and bound it ends without fetching a cursor twice; succeeds exactly when the chain reaches an exhausted page within the bound, with all items in order; reports a cycle exactly when a cursor recurs no later than on the call over the bound; stops at the bound exactly when that many fresh pages all continue to a fresh cursor; the two other errors exactly when the chain ends with them within the bound. |
| Pages.CycleNeverEnds | platform/page.go:139-147 | A chain that meets a cursor again never ends, so it never reaches an exhausted page. |
| Pages.CyclesOnce | platform/page.go:139-147 | The first recurrence is at one place of the chain. |
| Pages.RoundAndRound | platform/page.go:139-147 | After a recurrence every later cursor is one met before. |
| Gate.GateSafeExactly | cmd/e2e-server/main.go:1430-1492 | No session command runs during or after the kill, in every interleaving of any number of creators, exactly when no trapped signal is handled, no other signal makes a shell run its exit trap during the command, the marker is written and the stopper gets the lock. Shells that die without running a handler are always allowed. |
| Gate.GateIsSafe | cmd/e2e-server/main.go:1430-1492 | Every fault-free run is safe, shells dying at any moment included, and at most one creator is between mkdir and rmdir. |
| Gate.OnlyTheClearedStart | cmd/e2e-server/main.go:1449-1453 | After the marker is written no other command ever starts than one already cleared. |
| Gate.StopperGetsThrough | cmd/e2e-server/main.go:1473-1491 | While the lock's creator lives, its own steps let a waiting stopper reach the kill. |
| Gate.CreatorGetsThrough | cmd/e2e-server/main.go:1437-1453 | Without a marker a creator that tries for a free lock reaches its command by its own steps. |
| Gate.BlockedGetsThrough | cmd/e2e-server/main.go:1441-1453 | Without a marker a creator blocked by the lock of another, live one reaches its command by the steps of these two alone. |
| Gate.RefusedEnds | cmd/e2e-server/main.go:1437-1452 | Once the marker stands, a creator that has not passed its last look ends by its own steps without running its command, gives back a lock of its own and leaves any other alone. |
| Gate.StopperUnlocks | cmd/e2e-server/main.go:1474-1492 | The kill over, the stopper gives the lock back. |
| Gate.SignalBeforeBreaks | cmd/e2e-server/main.go:1448-1453 | A signal handled before the command removes the lock but does not end the script: a concrete run in which the kill meets a running command. |
| Gate.SignalDuringBreaks | cmd/e2e-server/main.go:1448-1453 | A signal handled after the command removes the directory twice, the second time another creator's: a concrete unsafe run of two creators. |
| Gate.ExitDuringBreaks | cmd/e2e-server/main.go:1448-1453 | A fatal signal outside the trap's list ends the shell during the command, and its exit trap removes the lock under the command: a concrete unsafe run. |
| Gate.NoMarkerBreaks | cmd/e2e-server/main.go:1469-1472 | A stopper that could not write its marker only delays a creator. |
| Gate.NoLockBreaks | cmd/e2e-server/main.go:1480-1491 | A stopper that gives up waiting kills under a running command. |
| Lifecycle.Mutator.PrepareConfigMutation | cmd/kenn-forge/daemon_lifecycle.go:305-390 | On success the held locks are exactly one each for the config, the prepared directory and the target's directory; that directory is the preferred identified runtime's or the locked config's, and the target the runtime that serves it, both read after the last lock was taken; the config's path had resolved to the locked one. On every error nothing is held. It ends once the outside stops changing, and in an unchanging world it succeeds exactly when every answer it needs is there. |
| Lifecycle.PreparesExactly | cmd/kenn-forge/daemon_lifecycle.go:305-435 | In an unchanging world a mutation is prepared exactly when the path resolves and its lock is granted, the config, or the identified runtime where that is preferred, names a first directory and once locked the one that counts, both can be made and locked with their runtimes', the latter has its node, and the locks of a different first one can be given back. |
| Lifecycle.SameRuntimeExactly | cmd/kenn-forge/daemon_lifecycle.go:641-655 | Two answers tell the same runtime exactly when both tell none, or they agree on directory, config path, process, source path, network, address, service and version. |
| Lifecycle.Mutator.TryMutation | cmd/kenn-forge/daemon_lifecycle.go:326-389 | One round: failure holds nothing, retry holds the config lock alone, success holds both kinds. |
| Lifecycle.Mutator.LockMutationConfig | cmd/kenn-forge/daemon_lifecycle.go:392-435 | The config lock held is the one for the path as re-resolved after locking; every other exit holds nothing. |
| Lifecycle.Mutator.AcquireMutationLocks | cmd/kenn-forge/daemon_lifecycle.go:673-692 | Takes the sorted, unique data locks on top of the config lock, or gives back every one it took. |
| Lifecycle.Mutator.ReleaseAll | cmd/kenn-forge/daemon_lifecycle.go:29-37 | Releases exactly the given locks, once each, the last taken first, also when a release fails. |
| Lifecycle.Mutator.LockTarget | cmd/kenn-forge/daemon_lifecycle.go:326-349 | The first half of a round holds the config lock and the data locks of the directory and its runtime, or nothing. |
| Lifecycle.Mutator.Recheck | cmd/kenn-forge/daemon_lifecycle.go:351-388 | The second half keeps every lock when nothing changed, the config lock alone to start over, and nothing on error. |
| Lifecycle.MutatorsNeverCircle | cmd/kenn-forge/daemon_lifecycle.go:305-435 | However any number of mutators interleave, as long as lock files exclude each other, their recorded acquisitions and releases form a run of the lock protocol that leaves each with the locks it holds, and they never wait in a circle. |
| Locking.NoCircle | cmd/kenn-forge/daemon_lifecycle.go:673-692 | In every reachable state of any number of mutators no chain of waits closes. |
| Locking.InterleavingIsRun | cmd/kenn-forge/daemon_lifecycle.go:673-692 | Any interleaving of the mutators' own traces in which a grant gives a free lock is a run of them together. |
| Locking.NeverStuck | cmd/kenn-forge/daemon_lifecycle.go:673-692 | Whenever someone waits, someone holding or asking for a lock can go on. |
| Locking.RunOrdered | cmd/kenn-forge/daemon_lifecycle.go:392-435 | Every run keeps each mutator's locks ascending, config before data, and no lock with two holders. |
| Locking.DataKeysAscend | cmd/kenn-forge/daemon_lifecycle.go:679-681 | Sorting and compacting the directories gives each once, in strict order. |

## Left out

- Running Git, the temporary directory, the copy of the shallow file, environment handling and the root check of the view (`landedwork/git.go:24-116`): process and file work. Opening the view either succeeds, fails, or spends the budget, and counts as one read.
- What Git answers: a read that is answered is assumed exact (`Store.Exact`), as the source relies on; a revision list command that fails may print anything.
- The go-diff parser and Git's diff algorithm: a patch is a list of hunk lists or unparsed. `Edits.Fits` and `Correspondence.GenuinePatches` state what is assumed of a genuine patch, only where a theorem needs it.
- Context deadlines and cancellation: they return an error and an empty result.
- Analysis.Analyze: how much each command prints is free up to a common maximum, so limits between the cost of the evidence and the stated number of full reads may or may not be enough; the deadline that the arguments must carry is left out with cancellation.
- Preparation.Prepare: the amount printed is free in the same way; making the path absolute and opening it are file work; a host is lower case when it has no ASCII capital.
- Proofs.ReadProof: an unknown method label is refused before the proof, as evidence validation does; the function refuses it too so as to be total.
- Metering.Meter.Input: the mutex of the meter is left out; each charge is atomic. The buffer that grows in place is not modelled, only its charge.
- TreeFiles.ParseEditFiles: splitting a header into fields knows ASCII white space only, which is all Git prints there.
- Shallow files are modelled as their list of entries; the size of the file is charged as part of a command.
- Integer widths: line counts and offsets in hunks are unbounded here, 32 bits in the parser.
- Gate.GateSafeExactly: the shell runs a trapped signal's handler after the command it waits for, as POSIX says; whether another fatal signal makes it run its exit trap differs between shells, and both are modelled. One stopper; commands that create no session pass the gate and are not modelled; an unexpected error of mkdir and the five-second fallback are both the stopper going on without the lock.
- Lifecycle.Mutator.PrepareConfigMutation: each query to the outside is one observation of a changing world; the source retries for as long as the world keeps changing, so the model lets it change only finitely often. Data directories are canonical strings, as the config loader and the runtime records provide them; two different ones are assumed to have different lock files.
- Lifecycle.Mutator.Release: a release that fails counts as the one release of that lock, as the source never retries it.
- Start, stop, restart and status of the daemon after preparation (`stopLocked`, `reconcileStartTarget`, `runtimeFromCandidates`): process signalling, authentication of a running daemon and removal of its record files.
- Pages.CollectPages: the provider is a function of the cursor on a finite set of cursors and fails elsewhere; an endless supply of fresh cursors without a page bound is not modelled.
- The handler registry of the end-to-end server, provider clients, federation, commands and the user interface.
- Text is a sequence of characters that each stand for one byte: the accounting, the limit of 64 bytes for an ID and the edit comparison all count bytes.
