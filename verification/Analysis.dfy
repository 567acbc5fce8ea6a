/** `Analyze`: the whole operation, with its deferred finish. */
module Analysis {
  import opened Model
  import opened Graph
  import opened Store
  import opened Metering
  import opened View
  import opened Intervals
  import opened ShallowCheck
  import opened Preparation
  import opened Accounting
  import opened Validation
  import opened Overlaps
  import opened Blocking
  import opened Direct
  import opened Origins
  import opened Resolution
  import opened Finishing
  import opened Conservation
  import opened Ordering

  datatype Outcome = Rejected(reason: string) | TooLarge | Returned(report: Report)

  // ----- the answer as a function of the store -----

  function InventoryReason(i: Inventory): string {
    if i.reason == "" then "inventory_unknown" else i.reason
  }

  /** The gaps known before any object is read. */
  function FirstGaps(p: Interval, i: Inventory): seq<Gap> {
    p.query.gaps + if i.supported && i.complete then [] else [Gap("", i.nextCommit, InventoryReason(i), NO_SPAN)]
  }

  function Unresolved(gaps: seq<Gap>, reason: string): Findings {
    Findings([], [], [], gaps + [Gap("", "", reason, NO_SPAN)])
  }

  function FindingsOf(st: Objects, p: Interval, e: Evidence): Findings {
    var gaps := FirstGaps(p, e.inventory);
    if !st.opens then Unresolved(gaps, GraphReason(Unavailable))
    else
      match CheckShallow(st, p.query.bounds)
      case Err(error) => Unresolved(gaps, GraphReason(error))
      case Ok(_) => ResolveAll(st, p, e.candidates, e.capabilities, gaps)
  }

  /** The report on an interval whose preparation was incomplete. */
  function BareReport(p: Interval, i: Inventory, gaps: seq<Gap>): Report {
    Report([], [], [], [], Coverage(p.query.bounds, i, false, p.query.bounds.base, Map(gaps, Fill(p))))
  }

  function ReportOn(st: Objects, p: Interval, e: Evidence): Report {
    if !p.query.complete then BareReport(p, e.inventory, p.query.gaps)
    else Finish(p, e.inventory, FindingsOf(st, p, e))
  }

  /** Why the arguments themselves are rejected, or "". */
  function ArgumentFault(p: Interval, limits: Limits): string {
    if !Positive(limits) then "landing limits must be positive"
    else if !ValidBounds(p.query.bounds) then "landing analysis requires repository identity and valid bounds"
    else ""
  }

  /** A report that is too large is withheld. */
  function Bounded(report: Report, limits: Limits): Outcome {
    if ReportFits(report, limits) then Returned(report) else Outcome.TooLarge
  }

  function AnalyzeSpec(st: Objects, p: Interval, e: Evidence, limits: Limits): Outcome {
    if ArgumentFault(p, limits) != "" then Rejected(ArgumentFault(p, limits))
    else if EvidenceFault(p, e) != "" then Rejected(EvidenceFault(p, e))
    else Bounded(ReportOn(st, p, e), limits)
  }

  // ----- the operation -----

  /** After the budget failed: the report is not complete, a gap names the budget, and nothing
      past the position where the gap starts is certified or recorded as a push.  Either nothing
      at all is, or all candidates were settled as without the failure and the pushes are the
      first of those found without it. */
  ghost predicate FailsClosed(p: Interval, r: Report, full: Report) {
    && !r.coverage.complete
    && (exists i, k :: 0 <= k < |r.coverage.gaps| && ClosedAt(p, r, i, r.coverage.gaps[k]))
    && (NothingCertified(p, r) || CutWhileClassifying(r, full))
  }

  ghost predicate ClosedAt(p: Interval, r: Report, i: int, gap: Gap) {
    && BudgetGap(p, gap, i)
    && (forall n :: CertifiesUpTo(p, r, n) && p.query.complete ==> n <= i)
    && (forall d :: d in r.directPushes ==> Position(p.spine, d.terminal) < i)
  }

  predicate NothingCertified(p: Interval, r: Report) {
    r.coverage.certifiedHead == p.query.bounds.base && r.directPushes == []
  }

  predicate CutWhileClassifying(r: Report, full: Report) {
    r.landings == full.landings && r.integrated == full.integrated && r.directPushes <= full.directPushes
  }

  /** A report repeats its bounds and its inventory.  Only a full inventory lets it be complete;
      without one nothing is certified and no push is recorded, whatever was read. */
  predicate Governed(p: Interval, i: Inventory, r: Report) {
    && r.coverage.bounds == p.query.bounds && r.coverage.inventory == i
    && (r.coverage.complete ==> i.supported && i.complete)
    && (!(i.supported && i.complete) ==> NothingCertified(p, r))
  }

  /** A gap over the whole interval says why the inventory is not full and where it stopped. */
  predicate InventoryNamed(p: Interval, i: Inventory, r: Report) {
    !(i.supported && i.complete) ==>
      Gap("", i.nextCommit, if i.reason == "" then "inventory_unknown" else i.reason,
          Span(p.query.bounds.base, p.query.bounds.head)) in r.coverage.gaps
  }

  /** What every report promises, whether or not it is small enough to be returned. */
  ghost predicate Trusted(st: Objects, p: Interval, e: Evidence, report: Report, exhausted: bool) {
    && (p.query.complete ==>
          ReportSound(st.graph, p, report) && NothingLost(p, report) && Governed(p, e.inventory, report))
    && (exhausted ==> FailsClosed(p, report, ReportOn(st, p, e)))
  }

  /** The findings of a run that the budget cut short, before or during resolution. */
  ghost predicate CutRun(p: Interval, f: Findings, gaps0: seq<Gap>) {
    (exists i :: ClosedFrom(p, f, i)) || f == Unresolved(gaps0, BUDGET_EXHAUSTED)
  }

  lemma UnresolvedSound(g: Ancestry, p: Interval, gaps: seq<Gap>, reason: string)
    requires FirstParentSpine(g, p) && AllWide(p, gaps)
    ensures SoundFindings(g, p, Unresolved(gaps, reason)) && Explained(p, Unresolved(gaps, reason))
  {
    WholeGapExplains(g, p, Unresolved(gaps, reason), |gaps|);
    var all := gaps + [Gap("", "", reason, NO_SPAN)];
    WideIsKnown(g, p, all);
    NoPushes(g, p, {});
    assert Owners([]) == {};
  }

  /** The reads that an analysis may ask for. */
  function AnalyzeReads(st: Objects, p: Interval, e: Evidence, width: nat): nat {
    1 + ShallowReads(st) + ResolveReads(p, e.candidates, width)
  }

  /** One of the balances does not cover that many reads. */
  predicate ReadsStarve(records: nat, nodes: nat, inputBytes: nat, width: nat, count: nat) {
    var all := (2 * width + 1) * count;
    records < all || nodes < all || inputBytes < all
  }

  lemma FaultlessMatches(p: Interval, e: Evidence)
    requires EvidenceFault(p, e) == ""
    ensures e.query == p.query
  {
  }

  lemma TrustedIsSound(st: Objects, p: Interval, e: Evidence, report: Report, exhausted: bool)
    requires Trusted(st, p, e, report, exhausted)
    ensures p.query.complete ==>
              ReportSound(st.graph, p, report) && NothingLost(p, report) && Governed(p, e.inventory, report)
  {
  }

  lemma EvidenceStarves(p: Interval, e: Evidence, limits: Limits, width: nat, count: nat)
    requires EvidenceCostsMore(p, e, limits)
    ensures AnalysisStarved(p, e, limits, width, count)
  {
    hide EvidenceRecords, EvidenceBytes;
    assert (2 * width + 1) * count >= 0;
  }

  lemma RestStarves(p: Interval, e: Evidence, limits: Limits, width: nat, count: nat, records: nat, inputBytes: nat)
    requires Positive(limits) && ReadsStarve(records, limits.nodes, inputBytes, width, count)
    requires records == limits.records - EvidenceRecords(p, e) && inputBytes == limits.inputBytes - EvidenceBytes(p, e)
    ensures AnalysisStarved(p, e, limits, width, count)
  {
    hide EvidenceRecords, EvidenceBytes;
  }

  /** One of the limits does not cover the evidence and that many reads. */
  predicate AnalysisStarved(p: Interval, e: Evidence, limits: Limits, width: nat, count: nat) {
    var all := (2 * width + 1) * count;
    || limits.records < EvidenceRecords(p, e) + all || limits.nodes < all
    || limits.inputBytes < EvidenceBytes(p, e) + all
  }

  /** The resolution step after validation, up to the finish. */
  method FindOrigins(v: ObjectView, p: Interval, e: Evidence) returns (f: Findings)
    requires Exact(v.store) && CompleteInterval(v.store.graph, p) && !v.meter.failed && Known(e.candidates)
    requires v.Paced()
    modifies v.meter
    ensures v.Paced() && v.meter.asked <= old(v.meter.asked) + AnalyzeReads(v.store, p, e, v.width)
    ensures SoundFindings(v.store.graph, p, f) && Explained(p, f) && FirstGaps(p, e.inventory) <= f.gaps
    ensures !v.meter.failed ==> SameFindings(f, FindingsOf(v.store, p, e))
    ensures v.meter.failed ==> CutRun(p, f, FirstGaps(p, e.inventory))
    ensures v.meter.failed ==> CutEarly(p, f, FirstGaps(p, e.inventory)) || ReachedPushes(f, FindingsOf(v.store, p, e))
  {
    hide ResolveAll, SoundFindings, ClosedFrom, Exact, FirstParentSpine, Explained;
    var gaps := FirstGaps(p, e.inventory);
    assert AllWide(p, gaps);
    var view := OpenView(v);
    if view.Err? {
      UnresolvedSound(v.store.graph, p, gaps, GraphReason(view.error));
      return Unresolved(gaps, GraphReason(view.error));
    }
    var clear := ReadShallow(v, p.query.bounds);
    if clear.Err? {
      UnresolvedSound(v.store.graph, p, gaps, GraphReason(clear.error));
      return Unresolved(gaps, GraphReason(clear.error));
    }
    f := ResolveOrigins(v, p, e.candidates, e.capabilities, gaps);
  }

  /** The evidence up to its first fault does not fit the limits. */
  predicate EvidenceCostsMore(p: Interval, e: Evidence, limits: Limits) {
    e.query == p.query && (EvidenceRecords(p, e) > limits.records || EvidenceBytes(p, e) > limits.inputBytes)
  }

  /** Findings cut off before any push could be classified. */
  ghost predicate CutEarly(p: Interval, f: Findings, gaps0: seq<Gap>) {
    ClosedFrom(p, f, 0) || f == Unresolved(gaps0, BUDGET_EXHAUSTED)
  }

  /** `width` is the most that one command prints.  A budget that covers the evidence and the reads
      is enough. */
  method Analyze(st: Objects, width: nat, p: Interval, e: Evidence, limits: Limits)
    returns (r: Outcome, ghost exhausted: bool)
    requires Exact(st) && Sized(st, width) && (p.query.complete ==> CompleteInterval(st.graph, p))
    ensures exhausted ==> AnalysisStarved(p, e, limits, width, AnalyzeReads(st, p, e, width))
    ensures !AnalysisStarved(p, e, limits, width, AnalyzeReads(st, p, e, width)) ==> r == AnalyzeSpec(st, p, e, limits)
    ensures r.Returned? && p.query.complete ==> ReportSound(st.graph, p, r.report) && NothingLost(p, r.report)
    ensures r.Returned? && p.query.complete ==> Governed(p, e.inventory, r.report)
    ensures r.Returned? && p.query.complete && !EvidenceCostsMore(p, e, limits) ==>
              InventoryNamed(p, e.inventory, r.report)
    ensures !exhausted ==> r == AnalyzeSpec(st, p, e, limits)
    ensures r.Returned? ==> Trusted(st, p, e, r.report, exhausted) && ReportFits(r.report, limits)
    ensures r.TooLarge? ==> exists report :: Trusted(st, p, e, report, exhausted) && !ReportFits(report, limits)
    ensures exhausted ==> !r.Rejected?
    ensures ArgumentFault(p, limits) == "" && EvidenceCostsMore(p, e, limits) ==> exhausted
  {
    hide ReportSound, NothingLost, FailsClosed, ReportOn, Exact, CompleteInterval, ReportFits, Trusted, EvidenceFault;
    hide Governed, InventoryNamed, ValidBounds, AnalyzeReads, AnalysisStarved, ReadsStarve, EvidenceRecords;
    hide EvidenceBytes;
    exhausted := false;
    if ArgumentFault(p, limits) != "" {
      return Rejected(ArgumentFault(p, limits)), exhausted;
    }
    var meter := new Meter(limits.records, limits.nodes, limits.inputBytes);
    var fault := ValidateEvidence(p, e, meter);
    if !meter.failed && fault != "" {
      return Rejected(fault), exhausted;
    }
    ghost var spent, records, inputBytes := meter.failed, meter.records, meter.inputBytes;
    var report := ReportAfterValidation(st, width, p, e, meter);
    if spent {
      EvidenceStarves(p, e, limits, width, AnalyzeReads(st, p, e, width));
    } else if meter.failed {
      FaultlessMatches(p, e);
      RestStarves(p, e, limits, width, AnalyzeReads(st, p, e, width), records, inputBytes);
    }
    exhausted := meter.failed;
    r := Bounded(report, limits);
    TrustedIsSound(st, p, e, report, exhausted);
  }

  /** The report on evidence whose validation found no fault or spent the budget. */
  method ReportAfterValidation(st: Objects, width: nat, p: Interval, e: Evidence, meter: Meter)
    returns (report: Report)
    requires Exact(st) && Sized(st, width) && meter.asked == 0 && (p.query.complete ==> CompleteInterval(st.graph, p))
    requires meter.failed || EvidenceFault(p, e) == ""
    modifies meter
    ensures old(meter.failed) ==> meter.failed
    ensures meter.failed && !old(meter.failed) ==>
              ReadsStarve(old(meter.records), old(meter.nodes), old(meter.inputBytes), width,
                          AnalyzeReads(st, p, e, width))
    ensures !meter.failed ==> report == ReportOn(st, p, e)
    ensures Trusted(st, p, e, report, meter.failed)
    ensures !old(meter.failed) && p.query.complete ==> InventoryNamed(p, e.inventory, report)
  {
    hide Trusted, Explained, SoundFindings, FindingsOf, Exact, CompleteInterval, ReportOn, SameFindings, Known;
    hide ReachedPushes, CutEarly, CutRun, AnalyzeReads, ReadsStarve, ObjectView.Paced, InventoryNamed, FirstGaps;
    if meter.failed {
      report := ReportExhausted(st, p, e, p.query.gaps);
      return;
    }
    if !p.query.complete {
      BareIsTrusted(st, p, e);
      return BareReport(p, e.inventory, p.query.gaps);
    }
    FaultlessIsKnown(p, e);
    var v := new ObjectView(st, meter, width);
    var f := FindOrigins(v, p, e);
    if meter.failed {
      ViewStarves(v, AnalyzeReads(st, p, e, width));
    }
    report := ReportFindings(st, p, e, f, meter.failed);
  }

  lemma BareIsTrusted(st: Objects, p: Interval, e: Evidence)
    requires !p.query.complete
    ensures BareReport(p, e.inventory, p.query.gaps) == ReportOn(st, p, e)
    ensures Trusted(st, p, e, ReportOn(st, p, e), false)
  {
  }

  lemma FaultlessIsKnown(p: Interval, e: Evidence)
    requires EvidenceFault(p, e) == ""
    ensures Known(e.candidates)
  {
    NoFaultIsKnown(p.query.bounds, e.candidates);
  }

  lemma ViewStarves(v: ObjectView, count: nat)
    requires v.Paced() && v.meter.failed && v.meter.asked <= count
    ensures ReadsStarve(v.records, v.nodes, v.inputBytes, v.width, count)
  {
    v.MoreIsShort(count);
  }

  /** The report that finishing makes of the findings, of a full run or of one that was cut. */
  method ReportFindings(st: Objects, p: Interval, e: Evidence, f: Findings, ghost cut: bool) returns (report: Report)
    requires Exact(st) && CompleteInterval(st.graph, p) && SoundFindings(st.graph, p, f) && Explained(p, f)
    requires FirstGaps(p, e.inventory) <= f.gaps
    requires !cut ==> SameFindings(f, FindingsOf(st, p, e))
    requires cut ==> CutRun(p, f, FirstGaps(p, e.inventory))
    requires cut ==> CutEarly(p, f, FirstGaps(p, e.inventory)) || ReachedPushes(f, FindingsOf(st, p, e))
    ensures !cut ==> report == ReportOn(st, p, e)
    ensures Trusted(st, p, e, report, cut) && InventoryNamed(p, e.inventory, report)
  {
    hide ReportSound, NothingLost, Explained, FailsClosed, SoundFindings, FindingsOf, Finish, Exact, CompleteInterval;
    hide ReachedPushes, CutEarly, CutRun, SameFindings, FirstGaps, Governed, InventoryNamed;
    CompleteHasSpine(st.graph, p);
    report := FinishCoverage(st.graph, p, e.inventory, f);
    ExactHistory(st);
    FinishedReportSound(st.graph, p, e.inventory, f);
    FinishLosesNothing(p, e.inventory, f);
    FinishGoverned(st, p, e, f);
    if cut {
      FinishFailsClosed(st, p, e, FirstGaps(p, e.inventory), f);
    } else {
      FinishIgnoresGapOrder(p, e.inventory, f, FindingsOf(st, p, e));
    }
  }

  /** A gap over the whole interval leaves nothing certified. */
  lemma WholeGapCertifiesNothing(g: Ancestry, p: Interval, f: Findings, k: int)
    requires FirstParentSpine(g, p) && 0 <= k < |f.gaps| && Effective(p, f.gaps[k].span) == FullSpan(p)
    ensures Certified(p, f) == 0
  {
    hide FirstParentSpine, Blocks, Owned;
    if p.spine != [] {
      WholeGapBlocks(g, p, f.gaps, k, 0);
      assert p.spine[0] in Blocked(p, f.gaps);
      assert !Certifiable(p, Owned(f), Blocked(p, f.gaps), 0);
    }
  }

  lemma {:induction false} SkippedPushNothing(st: Objects, p: Interval, skipped: set<Id>, i: nat)
    requires i <= |p.spine| && forall k :: 0 <= k < |p.spine| ==> p.spine[k] in skipped
    ensures PushesFrom(st, p, skipped, i) == []
    decreases |p.spine| - i
  {
    if i < |p.spine| {
      SkippedPushNothing(st, p, skipped, i + 1);
      assert PushStep(st, p, skipped, i) == [];
    }
  }

  /** With such a gap among the first ones no commit is even looked at as a push. */
  lemma WholeGapPushesNothing(st: Objects, p: Interval, e: Evidence, k: int)
    requires FirstParentSpine(st.graph, p) && 0 <= k < |FirstGaps(p, e.inventory)|
    requires Effective(p, FirstGaps(p, e.inventory)[k].span) == FullSpan(p)
    ensures FindingsOf(st, p, e).pushes == []
  {
    hide FirstParentSpine, Blocks, PushesFrom, PushGapsFrom, LandedBy, GappedBy, DeferredBy, StrandedBy, IntegratedBy;
    hide Survivors, OverlapGaps, Owners, CountsOf, CheckShallow, FirstGaps;
    var cs, gaps0 := Sort(e.candidates, ById), FirstGaps(p, e.inventory);
    var n := CountsOf(e.candidates);
    var landed := FlatMap(cs, LandedBy(st, p, n, e.capabilities));
    var deferred := FlatMap(cs, DeferredBy(p, n));
    var kept := Survivors(landed, |landed|);
    var gaps := gaps0 + FlatMap(cs, GappedBy(st, p, n, e.capabilities)) + OverlapGaps(landed, |landed|)
                + FlatMap(deferred, StrandedBy(st, p, e.capabilities, kept));
    assert gaps[k] == gaps0[k];
    forall i | 0 <= i < |p.spine| ensures p.spine[i] in Blocked(p, gaps) + Owners(kept) {
      WholeGapBlocks(st.graph, p, gaps, k, i);
      assert p.spine[i] in Blocked(p, gaps);
    }
    SkippedPushNothing(st, p, Blocked(p, gaps) + Owners(kept), 0);
  }

  lemma FirstGapsNameInventory(p: Interval, e: Evidence)
    requires p.query.gaps == []
    ensures var i := e.inventory;
      if i.supported && i.complete then FirstGaps(p, i) == []
      else FirstGaps(p, i) ==
           [Gap("", i.nextCommit, if i.reason == "" then "inventory_unknown" else i.reason, NO_SPAN)]
  {
  }

  lemma FinishGoverned(st: Objects, p: Interval, e: Evidence, f: Findings)
    requires CompleteInterval(st.graph, p) && SoundFindings(st.graph, p, f) && FirstGaps(p, e.inventory) <= f.gaps
    requires SameFindings(f, FindingsOf(st, p, e)) || CutEarly(p, f, FirstGaps(p, e.inventory))
             || ReachedPushes(f, FindingsOf(st, p, e))
    ensures var r := Finish(p, e.inventory, f);
      Governed(p, e.inventory, r) && InventoryNamed(p, e.inventory, r)
  {
    hide SoundFindings, Certified, FindingsOf, FirstGaps, CutEarly, UnownedFrom, Owned, GapBelow;
    CompleteHasSpine(st.graph, p);
    FirstGapsNameInventory(p, e);
    var i, r := e.inventory, Finish(p, e.inventory, f);
    if !(i.supported && i.complete) {
      WholeGapCertifiesNothing(st.graph, p, f, 0);
      WholeGapPushesNothing(st, p, e, 0);
      if CutEarly(p, f, FirstGaps(p, i)) {
        CutEarlyCertifiesNothing(st.graph, p, FirstGaps(p, i), f);
      }
      var m := FilledGapKept(p, f.gaps, r.coverage.gaps, 0);
      assert r.coverage.gaps[m] in r.coverage.gaps;
    }
  }

  lemma CompleteHasSpine(g: Ancestry, p: Interval)
    requires CompleteInterval(g, p)
    ensures FirstParentSpine(g, p) && p.query.gaps == [] && p.query.complete && Distinct(p.spine)
  {
  }

  lemma ExactHistory(st: Objects)
    requires Exact(st)
    ensures History(st.graph)
  {
  }

  /** The finish after validation itself spent the budget. */
  method ReportExhausted(st: Objects, p: Interval, e: Evidence, gaps: seq<Gap>) returns (r: Report)
    requires Exact(st) && (p.query.complete ==> CompleteInterval(st.graph, p)) && gaps == p.query.gaps
    ensures Trusted(st, p, e, r, true)
  {
    hide ReportSound, NothingLost, Explained, SoundFindings, Finish, Exact, CompleteInterval, FailsClosed, ReportOn;
    hide ClosedFrom;
    var f := Unresolved(gaps, BUDGET_EXHAUSTED);
    if p.query.complete {
      CompleteHasSpine(st.graph, p);
      UnresolvedSound(st.graph, p, gaps, BUDGET_EXHAUSTED);
      r := FinishCoverage(st.graph, p, e.inventory, f);
      ExactHistory(st);
      FinishedReportSound(st.graph, p, e.inventory, f);
      FinishLosesNothing(p, e.inventory, f);
      FinishFailsClosed(st, p, e, gaps, f);
      ExhaustedIsGoverned(st.graph, p, e.inventory, gaps);
    } else {
      BareFailsClosed(p, e.inventory, gaps, ReportOn(st, p, e));
      r := BareReport(p, e.inventory, f.gaps);
    }
  }

  lemma ExhaustedIsGoverned(g: Ancestry, p: Interval, i: Inventory, gaps: seq<Gap>)
    requires CompleteInterval(g, p) && SoundFindings(g, p, Unresolved(gaps, BUDGET_EXHAUSTED))
    ensures Governed(p, i, Finish(p, i, Unresolved(gaps, BUDGET_EXHAUSTED)))
  {
    hide SoundFindings, Certified, CompleteInterval;
    CutEarlyCertifiesNothing(g, p, gaps, Unresolved(gaps, BUDGET_EXHAUSTED));
  }

  lemma BareFailsClosed(p: Interval, inventory: Inventory, gaps: seq<Gap>, full: Report)
    requires !p.query.complete
    ensures FailsClosed(p, BareReport(p, inventory, Unresolved(gaps, BUDGET_EXHAUSTED).gaps), full)
  {
    var r := BareReport(p, inventory, Unresolved(gaps, BUDGET_EXHAUSTED).gaps);
    assert ClosedAt(p, r, 0, r.coverage.gaps[|gaps|]);
  }

  /** The budget gap of a cut-off run survives the finish, and blocks what lies behind it. */
  lemma FinishFailsClosed(st: Objects, p: Interval, e: Evidence, gaps0: seq<Gap>, f: Findings)
    requires History(st.graph) && CompleteInterval(st.graph, p) && SoundFindings(st.graph, p, f)
    requires CutRun(p, f, gaps0) && (CutEarly(p, f, gaps0) || ReachedPushes(f, FindingsOf(st, p, e)))
    ensures FailsClosed(p, Finish(p, e.inventory, f), ReportOn(st, p, e))
  {
    hide SoundFindings, ClosedFrom, Certified, Blocked, Owned, CutRun, BudgetGap, FindingsOf, CutEarly, UnownedFrom;
    var r := Finish(p, e.inventory, f);
    var i, k := BudgetPosition(p, gaps0, f);
    var m := FilledGapKept(p, f.gaps, r.coverage.gaps, k);
    BudgetBlocks(st.graph, p, f, k, i);
    forall n | CertifiesUpTo(p, r, n) ensures n <= i {
      PrevInjective(st.graph, p, n, Certified(p, f));
    }
    assert ClosedAt(p, r, i, r.coverage.gaps[m]);
    if CutEarly(p, f, gaps0) {
      CutEarlyCertifiesNothing(st.graph, p, gaps0, f);
    }
  }

  lemma CutEarlyCertifiesNothing(g: Ancestry, p: Interval, gaps0: seq<Gap>, f: Findings)
    requires CompleteInterval(g, p) && SoundFindings(g, p, f) && CutEarly(p, f, gaps0)
    ensures Certified(p, f) == 0 && f.pushes == []
  {
    hide Certified, KnownGaps, NothingCut, AllSound, Disjoint, Owners;
    var k := if f == Unresolved(gaps0, BUDGET_EXHAUSTED) then |gaps0| else EarlyGap(p, f);
    BudgetBlocks(g, p, f, k, 0);
    FirstPushHasPosition(g, p, f);
  }

  lemma FirstPushHasPosition(g: Ancestry, p: Interval, f: Findings)
    requires SoundFindings(g, p, f)
    ensures f.pushes == [] || 0 <= Position(p.spine, f.pushes[0].terminal)
  {
  }

  ghost function EarlyGap(p: Interval, f: Findings): (k: int)
    requires ClosedFrom(p, f, 0)
    ensures 0 <= k < |f.gaps| && BudgetGap(p, f.gaps[k], 0)
  {
    var k :| 0 <= k < |f.gaps| && BudgetGap(p, f.gaps[k], 0);
    k
  }

  lemma FilledGapKept(p: Interval, gaps: seq<Gap>, finished: seq<Gap>, k: int) returns (m: int)
    requires multiset(finished) == multiset(Map(gaps, Fill(p))) && 0 <= k < |gaps|
    ensures 0 <= m < |finished| && finished[m] == Fill(p)(gaps[k])
  {
    var filled := Map(gaps, Fill(p));
    MembersOfPermutation(finished, filled);
    assert filled[k] in filled;
    m :| 0 <= m < |finished| && finished[m] == filled[k];
  }

  lemma BudgetPosition(p: Interval, gaps0: seq<Gap>, f: Findings) returns (i: int, k: int)
    requires p.query.bounds.head != "" && CutRun(p, f, gaps0)
    ensures 0 <= k < |f.gaps| && BudgetGap(p, Fill(p)(f.gaps[k]), i)
    ensures forall m :: 0 <= m < |f.pushes| ==> Position(p.spine, f.pushes[m].terminal) < i
  {
    if f == Unresolved(gaps0, BUDGET_EXHAUSTED) {
      i, k := 0, |gaps0|;
    } else {
      i :| ClosedFrom(p, f, i);
      k :| 0 <= k < |f.gaps| && BudgetGap(p, f.gaps[k], i);
    }
  }

  /** A gap through the head ends the certified prefix no later than where it starts. */
  lemma BudgetBlocks(g: Ancestry, p: Interval, f: Findings, k: int, i: int)
    requires FirstParentSpine(g, p) && p.query.bounds.head != "" && 0 <= k < |f.gaps|
        && BudgetGap(p, Fill(p)(f.gaps[k]), i)
    ensures Certified(p, f) <= i
  {
    if i < |p.spine| {
      SpineIsAnchored(g, p);
      PositionOf(p, |p.spine| - 1);
      if i > 0 {
        PositionOf(p, i - 1);
      }
      assert Covers(p, f.gaps[k].span, i);
      assert Blocks(p, f.gaps, i);
      BlockedAt(p, f.gaps, i);
      CertifiedEnds(p, f);
      assert i < Certified(p, f) ==> Certifiable(p, Owned(f), Blocked(p, f.gaps), i);
    }
  }

  lemma PrevInjective(g: Ancestry, p: Interval, m: int, n: int)
    requires FirstParentSpine(g, p) && 0 <= m <= |p.spine| && 0 <= n <= |p.spine| && Prev(p, m) == Prev(p, n)
    ensures m == n
  {
    if m > 0 {
      assert p.spine[m - 1] in p.spine;
    }
    if n > 0 {
      assert p.spine[n - 1] in p.spine;
    }
  }

  // ----- the theorems about complete runs -----

  /** Listing the candidates in another order never changes the report. */
  lemma CandidateOrderIrrelevant(st: Objects, p: Interval, e: Evidence, candidates: seq<Candidate>, limits: Limits)
    requires multiset(candidates) == multiset(e.candidates)
    ensures var x := AnalyzeSpec(st, p, e, limits);
            var y := AnalyzeSpec(st, p, e.(candidates := candidates), limits);
            && (x.Rejected? <==> y.Rejected?)
            && (x.Returned? ==> x == y)
  {
    hide ResolveAll, Finish;
    FaultIgnoresOrder(p.query.bounds, e.candidates, candidates);
    EvidenceOrderIrrelevant(st, p, e.capabilities, e.candidates, candidates, FirstGaps(p, e.inventory));
    FinishIgnoresGapOrder(p, e.inventory, FindingsOf(st, p, e), FindingsOf(st, p, e.(candidates := candidates)));
  }

  /** No landing to explain: every commit of the interval is a push with a readable boundary. */
  predicate AllPushes(st: Objects, p: Interval) {
    forall i :: 0 <= i < |p.spine| ==> PushAt(st, Prev(p, i), p.spine[i]).gap.reason == ""
  }

  lemma OnePush(st: Objects, p: Interval, n: nat)
    requires Exact(st) && FirstParentSpine(st.graph, p) && n < |p.spine|
    requires PushAt(st, Prev(p, n), p.spine[n]).gap.reason == ""
    ensures PushGapsFrom(st, p, {}, n) == PushGapsFrom(st, p, {}, n + 1)
    ensures var d := PushAt(st, Prev(p, n), p.spine[n]).push;
      d.terminal == p.spine[n] && PushesFrom(st, p, {}, n) == [d] + PushesFrom(st, p, {}, n + 1)
  {
    PushSound(st, p, n);
    hide PushAt, Exact, FirstParentSpine;
    assert GapStep(st, p, {}, n) == [];
    assert [] + PushGapsFrom(st, p, {}, n + 1) == PushGapsFrom(st, p, {}, n + 1);
  }

  lemma OneGap(st: Objects, p: Interval, n: nat)
    requires n < |p.spine| && PushAt(st, Prev(p, n), p.spine[n]).gap.reason != ""
    ensures PushGapsFrom(st, p, {}, n) != []
  {
    hide PushAt;
    assert |GapStep(st, p, {}, n)| == 1;
  }

  ghost predicate PushesBehind(st: Objects, p: Interval, n: nat)
    requires n <= |p.spine|
  {
    forall i :: n <= i < |p.spine| ==> PushedAt(PushesFrom(st, p, {}, n), p.spine[i])
  }

  lemma {:induction false} PushesOfAll(st: Objects, p: Interval, n: nat)
    requires Exact(st) && FirstParentSpine(st.graph, p) && n <= |p.spine|
    ensures PushGapsFrom(st, p, {}, n) == [] <==>
            forall i :: n <= i < |p.spine| ==> PushAt(st, Prev(p, i), p.spine[i]).gap.reason == ""
    ensures PushGapsFrom(st, p, {}, n) == [] ==> PushesBehind(st, p, n)
    decreases |p.spine| - n
  {
    hide PushAt, Exact, FirstParentSpine, PushedAt, PushesFrom, PushGapsFrom;
    if n == |p.spine| {
      NoPushGaps(st, p);
    } else {
      PushesOfAll(st, p, n + 1);
      if PushAt(st, Prev(p, n), p.spine[n]).gap.reason == "" {
        OnePush(st, p, n);
        PushedFirst(PushAt(st, Prev(p, n), p.spine[n]).push, PushesFrom(st, p, {}, n + 1));
      } else {
        OneGap(st, p, n);
      }
    }
  }

  lemma NoPushGaps(st: Objects, p: Interval)
    ensures PushGapsFrom(st, p, {}, |p.spine|) == []
  {
  }

  lemma PushedFirst(d: DirectPush, rest: seq<DirectPush>)
    ensures PushedAt([d] + rest, d.terminal)
    ensures forall id :: PushedAt(rest, id) ==> PushedAt([d] + rest, id)
  {
    assert ([d] + rest)[0] == d;
    forall id | PushedAt(rest, id) ensures PushedAt([d] + rest, id) {
      PushedAppend([d], rest, id);
    }
  }

  lemma NoCandidatesResolved(st: Objects, p: Interval, caps: Capabilities)
    ensures ResolveAll(st, p, [], caps, []) == Findings([], [], PushesFrom(st, p, {}, 0), PushGapsFrom(st, p, {}, 0))
  {
    hide PushesFrom, PushGapsFrom, LandedBy, GappedBy, DeferredBy, StrandedBy, IntegratedBy, Blocked;
    NothingBlocked(p);
    var none: seq<Candidate> := [];
    var n := CountsOf(none);
    assert Sort(none, ById) == [];
    var landed := FlatMap(none, LandedBy(st, p, n, caps));
    var deferred := FlatMap(none, DeferredBy(p, n));
    assert landed == [] && deferred == [] && FlatMap(none, GappedBy(st, p, n, caps)) == [];
    assert Survivors(landed, |landed|) == [] && OverlapGaps(landed, |landed|) == [];
    assert FlatMap(deferred, StrandedBy(st, p, caps, [])) == []
        && FlatMap(deferred, IntegratedBy(st, p, caps, [])) == [];
    assert Owners([]) == {} && Blocked(p, []) + Owners([]) == {};
    var gaps: seq<Gap> := [] + FlatMap(none, GappedBy(st, p, n, caps)) + OverlapGaps(landed, |landed|)
                          + FlatMap(deferred, StrandedBy(st, p, caps, Survivors(landed, |landed|)));
    assert gaps == [];
    assert gaps + PushGapsFrom(st, p, {}, 0) == PushGapsFrom(st, p, {}, 0);
    var f := ResolveInOrder(st, p, n, caps, none, []);
    assert f.landings == [];
    assert f.integrated == [];
    assert f.pushes == PushesFrom(st, p, {}, 0);
    assert f.gaps == PushGapsFrom(st, p, {}, 0);
    assert ResolveAll(st, p, none, caps, []) == f;
  }

  /** Without candidates, on a full inventory and a readable repository, the report is complete
      exactly when every commit of the interval is provably a push. */
  lemma CompleteWithoutCandidates(st: Objects, p: Interval, e: Evidence)
    requires Exact(st) && CompleteInterval(st.graph, p)
    requires st.opens && CheckShallow(st, p.query.bounds).Ok?
    requires e.inventory.supported && e.inventory.complete && e.candidates == []
    ensures ReportOn(st, p, e).coverage.complete <==> AllPushes(st, p)
  {
    hide Exact, CheckShallow, PushAt, Certified, ResolveAll;
    CompleteHasSpine(st.graph, p);
    PushesOfAll(st, p, 0);
    NothingBlocked(p);
    var f := ResolveAll(st, p, [], e.capabilities, []);
    NoCandidatesResolved(st, p, e.capabilities);
    assert FirstGaps(p, e.inventory) == [];
    assert FindingsOf(st, p, e) == f;
    if f.gaps == [] {
      forall i | 0 <= i < |p.spine| ensures SettledAt(p, Owners(f.landings), f.pushes, f.gaps, i) {
        assert PushedAt(f.pushes, p.spine[i]);
      }
      assert Explained(p, f);
      FinishLosesNothing(p, e.inventory, f);
      FinishedGapsBlock(p, f.gaps, Finish(p, e.inventory, f).coverage.gaps);
    }
  }
}
