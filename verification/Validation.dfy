/** The checks on an operation's arguments, and on the evidence with what they charge. */
module Validation {
  import opened Model
  import opened Metering
  import opened Accounting
  import opened Ordering

  // ----- limits and bounds -----

  predicate Positive(l: Limits) {
    l.records > 0 && l.nodes > 0 && l.inputBytes > 0 && l.outputBytes > 0
  }

  predicate ValidRepository(r: Repository) {
    && (r.provider == "github" || r.provider == "gitlab" || r.provider == "forgejo" || r.provider == "gitea")
    && r.id != "" && r.host != ""
    && forall c :: c in r.host ==> c !in " /\t\r\n" && !('A' <= c <= 'Z')
  }

  predicate ValidBounds(b: Bounds) {
    && ValidRepository(b.repository) && ObjectId(b.head)
    && if b.fromRoot then b.base == "" else ObjectId(b.base) && |b.base| == |b.head|
  }

  // ----- the same, spelled out -----

  /** The name of a commit: 40 or 64 lower-case hexadecimal digits. */
  predicate CommitName(id: Id) {
    (|id| == 40 || |id| == 64) && forall k :: 0 <= k < |id| ==> '0' <= id[k] <= '9' || 'a' <= id[k] <= 'f'
  }

  lemma CommitNameExactly(id: Id)
    ensures ObjectId(id) <==> CommitName(id)
  {
    forall k | 0 <= k < |id| ensures id[k] in id {
    }
  }

  /** A host may hold no white space, no slash and no capital. */
  predicate HostName(host: string) {
    && host != ""
    && forall k :: 0 <= k < |host| ==>
         var c := host[k];
         c != ' ' && c != '/' && c != '\t' && c != '\r' && c != '\n' && (c < 'A' || c > 'Z')
  }

  lemma HostNameExactly(host: string)
    ensures HostName(host) <==> host != "" && forall c :: c in host ==> c !in " /\t\r\n" && !('A' <= c <= 'Z')
  {
    forall k | 0 <= k < |host| ensures host[k] in host {
    }
    var odd := " /\t\r\n";
    assert odd[0] == ' ' && odd[1] == '/' && odd[2] == '\t' && odd[3] == '\r' && odd[4] == '\n';
    assert forall c :: c in odd <==> c == ' ' || c == '/' || c == '\t' || c == '\r' || c == '\n';
  }

  /** The bounds are accepted exactly for a known provider with its host and repository ID, a head that
      is a commit name, and a base that is one of the same length, or none when the interval starts at
      the root. */
  lemma BoundsExactly(b: Bounds)
    ensures ValidBounds(b) <==>
            && b.repository.provider in {"github", "gitlab", "forgejo", "gitea"}
            && b.repository.id != "" && HostName(b.repository.host) && CommitName(b.head)
            && (b.base == "" <==> b.fromRoot) && (b.base != "" ==> CommitName(b.base) && |b.base| == |b.head|)
  {
    hide HostName, CommitName, ObjectId;
    HostNameExactly(b.repository.host);
    CommitNameExactly(b.head);
    CommitNameExactly(b.base);
    NamesAreNotEmpty();
  }

  lemma NamesAreNotEmpty()
    ensures !ObjectId("")
  {
  }

  // ----- evidence -----

  predicate ForeignId(b: Bounds, id: Id) {
    id != "" && (!ObjectId(id) || |id| != |b.head|)
  }

  /** Why a candidate is rejected outright, or "". */
  function CandidateFault(b: Bounds, c: Candidate): string {
    if c.repository != b.repository || c.id == "" then "candidate identity mismatch"
    else if ForeignId(b, c.terminal) || ForeignId(b, c.sourceHead) || exists id :: id in c.source && ForeignId(b, id)
    then "invalid candidate object ID"
    else if c.how.Unknown? then "invalid landing method"
    else ""
  }

  function FirstFault(b: Bounds, cs: seq<Candidate>): string {
    if cs == [] then ""
    else if CandidateFault(b, cs[0]) != "" then CandidateFault(b, cs[0])
    else FirstFault(b, cs[1..])
  }

  function EvidenceFault(p: Interval, e: Evidence): string {
    if e.query != p.query then "evidence does not match the prepared query"
    else FirstFault(p.query.bounds, e.candidates)
  }

  lemma {:induction false} NoFaultIsKnown(b: Bounds, cs: seq<Candidate>)
    ensures FirstFault(b, cs) == "" <==> forall c :: c in cs ==> CandidateFault(b, c) == ""
    ensures FirstFault(b, cs) == "" ==> forall k :: 0 <= k < |cs| ==> cs[k].id != "" && !cs[k].how.Unknown?
  {
    if cs != [] {
      NoFaultIsKnown(b, cs[1..]);
      assert forall c :: c in cs <==> c == cs[0] || c in cs[1..];
      if FirstFault(b, cs) == "" {
        assert forall k :: 0 <= k < |cs| ==> cs[k] in cs;
      }
    }
  }

  /** An object ID that may be missing, and otherwise has the form and the length of the head's. */
  predicate Native(id: Id, head: Id) {
    id == "" || (CommitName(id) && |id| == |head|)
  }

  lemma NativeExactly(b: Bounds, id: Id)
    ensures ForeignId(b, id) <==> !Native(id, b.head)
  {
    CommitNameExactly(id);
  }

  /** The candidate is of the repository, has an ID and a known method, and names its terminal, its
      head and its source by native object IDs. */
  predicate WellFormed(b: Bounds, c: Candidate) {
    && c.repository == b.repository && c.id != "" && !c.how.Unknown?
    && Native(c.terminal, b.head) && Native(c.sourceHead, b.head)
    && forall k :: 0 <= k < |c.source| ==> Native(c.source[k], b.head)
  }

  lemma WellFormedExactly(b: Bounds, c: Candidate)
    ensures CandidateFault(b, c) == "" <==> WellFormed(b, c)
  {
    hide ForeignId, Native;
    forall id ensures ForeignId(b, id) <==> !Native(id, b.head) { NativeExactly(b, id); }
    forall k | 0 <= k < |c.source| ensures c.source[k] in c.source {
    }
  }

  /** Evidence is accepted exactly when it answers this query and every candidate is well formed. */
  lemma AcceptedEvidenceExactly(p: Interval, e: Evidence)
    ensures EvidenceFault(p, e) == "" <==>
            && e.query == p.query
            && forall i :: 0 <= i < |e.candidates| ==> WellFormed(p.query.bounds, e.candidates[i])
  {
    hide WellFormed, CandidateFault;
    NoFaultIsKnown(p.query.bounds, e.candidates);
    forall c ensures CandidateFault(p.query.bounds, c) == "" <==> WellFormed(p.query.bounds, c) {
      WellFormedExactly(p.query.bounds, c);
    }
    forall i | 0 <= i < |e.candidates| ensures e.candidates[i] in e.candidates {
    }
  }

  /** The first faulty candidate, and it alone, decides what is reported. */
  lemma {:induction false} FirstFaultDecides(b: Bounds, cs: seq<Candidate>, i: nat)
    requires i < |cs| && CandidateFault(b, cs[i]) != ""
    requires forall k :: 0 <= k < i ==> CandidateFault(b, cs[k]) == ""
    ensures FirstFault(b, cs) ==
            if cs[i].repository != b.repository || cs[i].id == "" then "candidate identity mismatch"
            else if Native(cs[i].terminal, b.head) && Native(cs[i].sourceHead, b.head)
                    && (forall k :: 0 <= k < |cs[i].source| ==> Native(cs[i].source[k], b.head))
            then "invalid landing method"
            else "invalid candidate object ID"
  {
    if i == 0 {
      hide Native, ForeignId;
      forall id ensures ForeignId(b, id) <==> !Native(id, b.head) { NativeExactly(b, id); }
    } else {
      FirstFaultDecides(b, cs[1..], i - 1);
    }
  }

  /** The source commits of the candidates up to and including the first faulty one. */
  function SourcesSeen(b: Bounds, cs: seq<Candidate>): nat {
    if cs == [] then 0
    else |cs[0].source| + if CandidateFault(b, cs[0]) != "" then 0 else SourcesSeen(b, cs[1..])
  }

  /** The bytes of those candidates, and `rest` when none is faulty. */
  function BytesSeen(b: Bounds, cs: seq<Candidate>, rest: nat): nat {
    if cs == [] then rest
    else CandidateBytes(cs[0]) + if CandidateFault(b, cs[0]) != "" then 0 else BytesSeen(b, cs[1..], rest)
  }

  function EvidenceRecords(p: Interval, e: Evidence): nat {
    |e.candidates| + |e.query.commits| + |e.query.gaps| + SourcesSeen(p.query.bounds, e.candidates)
  }

  function EvidenceBytes(p: Interval, e: Evidence): nat {
    BytesSeen(p.query.bounds, e.candidates, QueryBytes(e.query) + InventoryBytes(e.inventory))
  }

  lemma {:induction false} SeenUpTo(b: Bounds, cs: seq<Candidate>, n: nat, rest: nat)
    requires n <= |cs| && forall k :: 0 <= k < n ==> CandidateFault(b, cs[k]) == ""
    requires n < |cs| ==> CandidateFault(b, cs[n]) != ""
    ensures var seen := if n < |cs| then cs[..n + 1] else cs;
      && SourcesSeen(b, cs) == |FlatMap(seen, SourceOf)|
      && BytesSeen(b, cs, rest) == Bytes(FlatMap(seen, CandidateStrings)) + if n < |cs| then 0 else rest
  {
    hide CandidateFault, CandidateBytes, CandidateStrings, Bytes;
    if cs == [] {
      BytesNone();
    } else {
      var seen := if n < |cs| then cs[..n + 1] else cs;
      assert seen == [cs[0]] + seen[1..];
      CandidatesCharged(seen[1..], cs[0]);
      if n == 0 {
        assert seen[1..] == [];
        BytesNone();
      } else {
        assert seen[1..] == if n < |cs| then cs[1..][..n] else cs[1..];
        SeenUpTo(b, cs[1..], n - 1, rest);
      }
    }
  }

  /** What the evidence costs: an entry for each candidate, query commit and gap and for each source
      commit, and the length of every string, once.  Faulty evidence is charged up to and including
      its first faulty candidate `n`, and not for its query and inventory. */
  lemma EvidenceCharged(p: Interval, e: Evidence, n: nat)
    requires n <= |e.candidates| && forall k :: 0 <= k < n ==> CandidateFault(p.query.bounds, e.candidates[k]) == ""
    requires n < |e.candidates| ==> CandidateFault(p.query.bounds, e.candidates[n]) != ""
    ensures var seen := if n < |e.candidates| then e.candidates[..n + 1] else e.candidates;
      && EvidenceRecords(p, e) ==
         |e.candidates| + |e.query.commits| + |e.query.gaps| + |FlatMap(seen, SourceOf)|
      && EvidenceBytes(p, e) ==
         Bytes(FlatMap(seen, CandidateStrings))
         + if n < |e.candidates| then 0 else Bytes(QueryStrings(e.query)) + Bytes(InventoryStrings(e.inventory))
  {
    hide CandidateFault, Bytes, FlatMap, QueryStrings, QueryBytes;
    SeenUpTo(p.query.bounds, e.candidates, n, QueryBytes(e.query) + InventoryBytes(e.inventory));
    QueryCharged(e.query);
    BytesThree(e.inventory.reason, e.inventory.nextCommit, e.inventory.nextPage);
  }

  /** Validation charges the evidence as it goes, up to the first fault; a spent budget ends it
      without a verdict. */
  method ValidateEvidence(p: Interval, e: Evidence, m: Meter) returns (fault: string)
    requires !m.failed
    modifies m
    ensures !m.failed ==> fault == EvidenceFault(p, e)
    ensures e.query != p.query ==> !m.failed && m.records == old(m.records) && m.inputBytes == old(m.inputBytes)
    ensures e.query == p.query ==>
              (m.failed <==> EvidenceRecords(p, e) > old(m.records) || EvidenceBytes(p, e) > old(m.inputBytes))
    ensures e.query == p.query && !m.failed ==>
              m.records == old(m.records) - EvidenceRecords(p, e)
                  && m.inputBytes == old(m.inputBytes) - EvidenceBytes(p, e)
    ensures m.nodes == old(m.nodes) && m.asked == old(m.asked)
  {
    hide CandidateFault, CandidateBytes, QueryBytes;
    if e.query != p.query {
      return "evidence does not match the prepared query";
    }
    var ok := m.Records(|e.candidates| + |e.query.commits| + |e.query.gaps|);
    if !ok {
      return "";
    }
    var b, cs := p.query.bounds, e.candidates;
    ghost var rest := QueryBytes(e.query) + InventoryBytes(e.inventory);
    assert cs[0..] == cs;
    for i := 0 to |cs|
      invariant !m.failed && m.nodes == old(m.nodes) && m.asked == old(m.asked)
      invariant FirstFault(b, cs) == FirstFault(b, cs[i..])
      invariant EvidenceRecords(p, e) == old(m.records) - m.records + SourcesSeen(b, cs[i..])
      invariant EvidenceBytes(p, e) == old(m.inputBytes) - m.inputBytes + BytesSeen(b, cs[i..], rest)
    {
      assert cs[i..][0] == cs[i] && cs[i..][1..] == cs[i + 1..];
      var c := cs[i];
      ok := m.Records(|c.source|);
      if !ok {
        return "";
      }
      ok := m.Input(CandidateBytes(c));
      if !ok {
        return "";
      }
      if CandidateFault(b, c) != "" {
        return CandidateFault(b, c);
      }
    }
    ok := m.Input(QueryBytes(e.query) + InventoryBytes(e.inventory));
    fault := "";
  }

  /** Whether evidence is faulty does not depend on the order of its candidates. */
  lemma FaultIgnoresOrder(b: Bounds, one: seq<Candidate>, other: seq<Candidate>)
    requires multiset(one) == multiset(other)
    ensures FirstFault(b, one) == "" <==> FirstFault(b, other) == ""
  {
    assert forall c :: c in one <==> c in multiset(one);
    assert forall c :: c in other <==> c in multiset(other);
    NoFaultIsKnown(b, one);
    NoFaultIsKnown(b, other);
  }
}
