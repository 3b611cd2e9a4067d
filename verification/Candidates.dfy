/**
 The choice of the best candidate among the face hits of a search: the name
 hits are folded into a best score per identity, and one pass over the face hits
 keeps the first one of strictly greatest combined confidence.
 */
module Candidates {
  import opened Domain
  import opened Scoring

  datatype Hit = Hit(id: string, score: real)

  /** A face hit together with the answer of its metadata lookup (None: the lookup failed). */
  datatype Lookup = Lookup(hit: Hit, meta: Option<IdentityMetadata>)

  datatype Candidate = Candidate(id: string, face: real, name: real, demo: bool)

  const NOBODY := Candidate("", 0.0, 0.0, false)

  predicate Eligible(l: Lookup) {
    l.hit.id != "" && l.meta.Some?
  }

  /** The score the pass uses for an identity: its best name hit, never below zero. */
  function NameScore(names: seq<Hit>, id: string): real {
    if names == [] then 0.0
    else
      var rest := NameScore(names[..|names| - 1], id);
      var last := names[|names| - 1];
      if last.id == id && last.score > rest then last.score else rest
  }

  function CandidateOf(l: Lookup, names: seq<Hit>, hash: string): Candidate
    requires Eligible(l)
  {
    Candidate(l.hit.id, l.hit.score, NameScore(names, l.hit.id), l.meta.value.demographicHash == hash)
  }

  function ConfidenceOf(c: Candidate): FourPlaces {
    Confidence(c.face, c.name, c.demo)
  }

  function Combined(l: Lookup, names: seq<Hit>, hash: string): real
    requires Eligible(l)
  {
    ConfidenceOf(CandidateOf(l, names, hash))
  }

  /** The running state of the pass: the best candidate so far and its combined confidence. */
  function Pass(ls: seq<Lookup>, names: seq<Hit>, hash: string): (Candidate, real) {
    if ls == [] then (NOBODY, -1.0)
    else
      var (best, combined) := Pass(ls[..|ls| - 1], names, hash);
      var l := ls[|ls| - 1];
      if Eligible(l) && Combined(l, names, hash) > combined
      then (CandidateOf(l, names, hash), Combined(l, names, hash))
      else (best, combined)
  }

  function Best(ls: seq<Lookup>, names: seq<Hit>, hash: string): Candidate {
    Pass(ls, names, hash).0
  }

  /** What the choice is meant to be, said without the pass: the hit at `i` is
      eligible, no eligible hit beats it and every earlier one is strictly worse. */
  ghost predicate IsEarliestBest(ls: seq<Lookup>, names: seq<Hit>, hash: string, i: nat) {
    && i < |ls| && Eligible(ls[i])
    && (forall j | 0 <= j < |ls| && Eligible(ls[j]) :: Combined(ls[j], names, hash) <= Combined(ls[i], names, hash))
    && (forall j | 0 <= j < i && Eligible(ls[j]) :: Combined(ls[j], names, hash) < Combined(ls[i], names, hash))
  }

  ghost predicate NoneEligible(ls: seq<Lookup>) {
    forall j | 0 <= j < |ls| :: !Eligible(ls[j])
  }

  /** The name score is the maximum of 0 and the scores of all name hits of the identity. */
  lemma {:induction false} NameScoreIsMax(names: seq<Hit>, id: string)
    ensures NameScore(names, id) >= 0.0
    ensures forall h | h in names && h.id == id :: h.score <= NameScore(names, id)
    ensures NameScore(names, id) == 0.0 || Hit(id, NameScore(names, id)) in names
  {
    if names != [] {
      var init, last := names[..|names| - 1], names[|names| - 1];
      assert names == init + [last];
      NameScoreIsMax(init, id);
    }
  }

  /** The order and repetition of name hits do not matter: lists with the same
      hits give every identity the same score. */
  lemma NameScoreOfSameHits(a: seq<Hit>, b: seq<Hit>, id: string)
    requires forall h :: h in a <==> h in b
    ensures NameScore(a, id) == NameScore(b, id)
  {
    NameScoreIsMax(a, id);
    NameScoreIsMax(b, id);
  }

  lemma CombinedInUnit(l: Lookup, names: seq<Hit>, hash: string)
    requires Eligible(l)
    ensures 0.0 <= Combined(l, names, hash) <= 1.0
  {
    var c := CandidateOf(l, names, hash);
    var _ := ConfidenceGrid(c.face, c.name, c.demo);
  }

  /** The pass returns the earliest eligible hit of maximal combined confidence,
      and nobody exactly when no hit is eligible. */
  lemma {:induction false} BestIsEarliest(ls: seq<Lookup>, names: seq<Hit>, hash: string) returns (i: nat)
    ensures Best(ls, names, hash).id == "" <==> NoneEligible(ls)
    ensures NoneEligible(ls) ==> Pass(ls, names, hash) == (NOBODY, -1.0)
    ensures !NoneEligible(ls) ==> IsEarliestBest(ls, names, hash, i)
    ensures !NoneEligible(ls) ==>
              Pass(ls, names, hash) == (CandidateOf(ls[i], names, hash), Combined(ls[i], names, hash))
  {
    i := 0;
    if ls != [] {
      var init, l := ls[..|ls| - 1], ls[|ls| - 1];
      var k := BestIsEarliest(init, names, hash);
      assert forall j | 0 <= j < |init| :: ls[j] == init[j];
      if Eligible(l) {
        CombinedInUnit(l, names, hash);
        i := if Combined(l, names, hash) > Pass(init, names, hash).1 then |init| else k;
      } else {
        i := k;
        assert NoneEligible(init) ==> NoneEligible(ls);
      }
    }
  }

  /** Name hits may come in any order. */
  lemma {:induction false} NameOrderIrrelevant(ls: seq<Lookup>, a: seq<Hit>, b: seq<Hit>, hash: string)
    requires multiset(a) == multiset(b)
    ensures Pass(ls, a, hash) == Pass(ls, b, hash)
  {
    if ls != [] {
      NameOrderIrrelevant(ls[..|ls| - 1], a, b, hash);
      assert forall h :: h in a <==> h in multiset(a);
      assert forall h :: h in b <==> h in multiset(b);
      NameScoreOfSameHits(a, b, ls[|ls| - 1].hit.id);
    }
  }

  /** Face hits may come in any order as far as the best confidence goes. */
  lemma FaceOrderKeepsConfidence(a: seq<Lookup>, b: seq<Lookup>, names: seq<Hit>, hash: string)
    requires multiset(a) == multiset(b)
    ensures Pass(a, names, hash).1 == Pass(b, names, hash).1
    ensures Best(a, names, hash).id == "" <==> Best(b, names, hash).id == ""
  {
    var i := BestIsEarliest(a, names, hash);
    var j := BestIsEarliest(b, names, hash);
    SameMembers(a, b);
    if !NoneEligible(a) {
      assert a[i] in b;
      assert !NoneEligible(b);
      assert b[j] in a;
    } else {
      assert NoneEligible(b);
    }
  }

  lemma SameMembers(a: seq<Lookup>, b: seq<Lookup>)
    requires multiset(a) == multiset(b)
    ensures forall k | 0 <= k < |a| :: a[k] in b
    ensures forall k | 0 <= k < |b| :: b[k] in a
  {
    forall k | 0 <= k < |a| ensures a[k] in b {
      assert a[k] in multiset(b);
    }
    forall k | 0 <= k < |b| ensures b[k] in a {
      assert b[k] in multiset(a);
    }
  }

  function OnlyEligible(ls: seq<Lookup>): seq<Lookup> {
    if ls == [] then []
    else OnlyEligible(ls[..|ls| - 1]) + if Eligible(ls[|ls| - 1]) then [ls[|ls| - 1]] else []
  }

  /** Hits without an identity or without metadata, orphan vectors among them, never change the result. */
  lemma {:induction false} IneligibleIrrelevant(ls: seq<Lookup>, names: seq<Hit>, hash: string)
    ensures Pass(OnlyEligible(ls), names, hash) == Pass(ls, names, hash)
  {
    if ls != [] {
      var init, l := ls[..|ls| - 1], ls[|ls| - 1];
      IneligibleIrrelevant(init, names, hash);
      if Eligible(l) {
        assert (OnlyEligible(init) + [l])[..|OnlyEligible(init)|] == OnlyEligible(init);
      } else {
        assert OnlyEligible(ls) == OnlyEligible(init);
      }
    }
  }

  /** The two loops of the service: a best-score map over the name hits, then the pass over the face hits. */
  method BestCandidate(ls: seq<Lookup>, names: seq<Hit>, hash: string) returns (best: Candidate)
    ensures best == Best(ls, names, hash)
    ensures best.id == "" <==> NoneEligible(ls)
    ensures best.id != "" ==> exists i: nat ::
              IsEarliestBest(ls, names, hash, i) && best == CandidateOf(ls[i], names, hash)
  {
    var nameScores: map<string, real> := map[];
    for k := 0 to |names|
      invariant forall id | id != "" ::
          (if id in nameScores then nameScores[id] else 0.0) == NameScore(names[..k], id)
    {
      var n := names[k];
      assert names[..k + 1][..k] == names[..k];
      if n.id != "" && n.score > (if n.id in nameScores then nameScores[n.id] else 0.0) {
        nameScores := nameScores[n.id := n.score];
      }
    }
    assert names[..|names|] == names;

    best := NOBODY;
    var bestCombined := -1.0;
    for k := 0 to |ls|
      invariant (best, bestCombined) == Pass(ls[..k], names, hash)
    {
      assert ls[..k + 1][..k] == ls[..k];
      var f := ls[k].hit;
      if f.id != "" && ls[k].meta.Some? {
        var nameScore := if f.id in nameScores then nameScores[f.id] else 0.0;
        var demoMatch := ls[k].meta.value.demographicHash == hash;
        var combined := Confidence(f.score, nameScore, demoMatch);
        if combined > bestCombined {
          bestCombined := combined;
          best := Candidate(f.id, f.score, nameScore, demoMatch);
        }
      }
    }
    assert ls[..|ls|] == ls;
    var i := BestIsEarliest(ls, names, hash);
  }
}
