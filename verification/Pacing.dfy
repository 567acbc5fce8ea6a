/** How many reads the proofs of a list of candidates may ask for. */
module Pacing {
  import opened Model
  import opened Ordering
  import opened Proofs

  function AllReads(cs: seq<Candidate>, width: nat): nat {
    if cs == [] then 0 else ProofReads(cs[0], width) + AllReads(cs[1..], width)
  }

  lemma {:induction false} AllReadsConcat(a: seq<Candidate>, b: seq<Candidate>, width: nat)
    ensures AllReads(a + b, width) == AllReads(a, width) + AllReads(b, width)
  {
    hide ProofReads;
    if a == [] {
      assert a + b == b;
    } else {
      assert (a + b)[1..] == a[1..] + b;
      AllReadsConcat(a[1..], b, width);
    }
  }

  lemma AllReadsOne(c: Candidate, width: nat)
    ensures AllReads([c], width) == ProofReads(c, width)
  {
    assert [c][1..] == [];
  }

  lemma AllReadsNone(width: nat)
    ensures AllReads([], width) == 0
  {
  }

  /** One candidate more, and what the rest may still ask for. */
  lemma AllReadsStep(cs: seq<Candidate>, i: nat, width: nat)
    requires i < |cs|
    ensures AllReads(cs[..i + 1], width) == AllReads(cs[..i], width) + ProofReads(cs[i], width)
    ensures AllReads(cs[..i + 1], width) <= AllReads(cs, width)
  {
    hide ProofReads, AllReads;
    AllReadsConcat(cs[..i], [cs[i]], width);
    AllReadsOne(cs[i], width);
    assert cs[..i + 1] == cs[..i] + [cs[i]];
    AllReadsConcat(cs[..i + 1], cs[i + 1..], width);
    assert cs == cs[..i + 1] + cs[i + 1..];
  }

  lemma {:induction false} AllReadsPermute(a: seq<Candidate>, b: seq<Candidate>, width: nat)
    requires multiset(a) == multiset(b)
    ensures AllReads(a, width) == AllReads(b, width)
  {
    hide ProofReads;
    if a == [] {
      assert |multiset(b)| == 0;
    } else {
      var left, right := TakeOut(a, b);
      AllReadsPermute(a[1..], left + right, width);
      AllReadsConcat(left + [a[0]], right, width);
      AllReadsConcat(left, [a[0]], width);
      AllReadsConcat(left, right, width);
      AllReadsOne(a[0], width);
    }
  }
}
