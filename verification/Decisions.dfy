/**
 The decision tables of enrolment and verification, and what the choice of the
 best candidate makes of them on every list of search results.
 */
module Decisions {
  import opened Domain
  import opened Scoring
  import opened Candidates

  datatype Thresholds = Thresholds(faceDup: real, faceMatch: real, nameMatch: real, partialFace: real)

  /** The least face score and name score that can still round to full confidence. */
  const FACE_SLACK := 1.0 - 0.00005 / 0.65
  const NAME_SLACK := 0.9998

  predicate IsDuplicate(th: Thresholds, best: Candidate) {
    best.id != "" && best.face >= th.faceDup
  }

  /** ALREADY_EXISTS, overridden when only the name or only the demographics agree. */
  function EnrollDecision(th: Thresholds, best: Candidate): Decision {
    if !IsDuplicate(th, best) then NewUser
    else
      var first := if !best.demo && best.name >= th.nameMatch then PotentialFraud else AlreadyExists;
      if best.name < th.nameMatch && best.demo then PartialMatch else first
  }

  function VerifyDecision(th: Thresholds, best: Candidate, live: bool): Decision {
    if best.id != "" && live && best.face >= th.faceMatch && best.name >= th.nameMatch && best.demo
    then Matched
    else if best.id != "" && live && best.face >= th.partialFace && (best.name >= 0.55 || best.demo)
    then PartialMatch
    else NoMatch
  }

  /** The order of the two overrides does not matter: each verdict has its own condition on which of the
      name and the demographics agree with the duplicate face. */
  lemma EnrollTable(th: Thresholds, best: Candidate)
    ensures var d, named := EnrollDecision(th, best), best.name >= th.nameMatch;
            && (d == NewUser <==> best.id == "" || best.face < th.faceDup)
            && (d == PotentialFraud <==> d != NewUser && named && !best.demo)
            && (d == PartialMatch <==> d != NewUser && !named && best.demo)
            && (d == AlreadyExists <==> d != NewUser && (named <==> best.demo))
  {
  }

  /** A verification is MATCHED only for a live person, a known candidate, and full agreement; short of that it is a partial
      match for a live person with a face above the partial threshold and either a similar name or the same demographics.
      With a partial threshold below the full one nothing but the partial condition is needed for more than NO_MATCH. */
  lemma VerifyTable(th: Thresholds, best: Candidate, live: bool)
    ensures var d := VerifyDecision(th, best, live);
            && d in {Matched, PartialMatch, NoMatch}
            && (d == PartialMatch <==>
                  d != Matched && best.id != "" && live && best.face >= th.partialFace && (best.name >= 0.55 || best.demo))
            && (!live || best.id == "" ==> d == NoMatch)
            && (d == Matched <==> best.id != "" && live && best.demo && best.face >= th.faceMatch && best.name >= th.nameMatch)
            && (th.partialFace <= th.faceMatch ==>
                  (d == NoMatch <==> !live || best.id == "" || best.face < th.partialFace || (best.name < 0.55 && !best.demo)))
  {
  }

  ghost predicate AtMostOne(ls: seq<Lookup>, names: seq<Hit>) {
    && (forall l | l in ls :: l.hit.score <= 1.0)
    && (forall h | h in names :: h.score <= 1.0)
  }

  /** Both searches return the identity with score 1 and its stored demographics match. */
  ghost predicate Perfect(ls: seq<Lookup>, names: seq<Hit>, hash: string, id: string) {
    && id != "" && Hit(id, 1.0) in names
    && exists l :: l in ls && l.hit == Hit(id, 1.0) && l.meta.Some? && l.meta.value.demographicHash == hash
  }

  /** Whoever is chosen in the presence of a perfect hit matches the demographics
      and has face and name scores within the rounding slack of 1. */
  lemma PerfectHitWins(ls: seq<Lookup>, names: seq<Hit>, hash: string, id: string)
    requires AtMostOne(ls, names) && Perfect(ls, names, hash, id)
    ensures var best := Best(ls, names, hash);
            best.id != "" && best.demo && best.face >= FACE_SLACK && best.name >= NAME_SLACK
  {
    var l :| l in ls && l.hit == Hit(id, 1.0) && l.meta.Some? && l.meta.value.demographicHash == hash;
    var k :| 0 <= k < |ls| && ls[k] == l;
    var i := BestIsEarliest(ls, names, hash);
    var best := CandidateOf(ls[i], names, hash);
    NameScoreIsMax(names, id);
    NameScoreIsMax(names, best.id);
    assert ls[i] in ls;
    FullConfidenceIff(1.0, 1.0, true);
    assert Combined(ls[k], names, hash) == 1.0;
    var _ := ConfidenceGrid(best.face, best.name, best.demo);
    FullConfidenceIff(best.face, best.name, best.demo);
  }

  /** Repeating a stored enrolment is recognised, whatever else the searches return,
      exactly when the two thresholds leave room for a rounding tie. */
  lemma ReenrolRecognisedIff(th: Thresholds)
    ensures (forall ls, names, hash, id | AtMostOne(ls, names) && Perfect(ls, names, hash, id) ::
               EnrollDecision(th, Best(ls, names, hash)) == AlreadyExists)
            <==> th.faceDup <= FACE_SLACK && th.nameMatch <= NAME_SLACK
  {
    if th.faceDup <= FACE_SLACK && th.nameMatch <= NAME_SLACK {
      forall ls, names, hash, id | AtMostOne(ls, names) && Perfect(ls, names, hash, id)
        ensures EnrollDecision(th, Best(ls, names, hash)) == AlreadyExists
      {
        PerfectHitWins(ls, names, hash, id);
      }
    } else {
      var ls, names := Rival(if th.nameMatch > NAME_SLACK then 1.0 else FACE_SLACK,
                             if th.nameMatch > NAME_SLACK then NAME_SLACK else 1.0);
      assert EnrollDecision(th, Best(ls, names, "h")) != AlreadyExists;
    }
  }

  /** The same for verification with liveness passed. */
  lemma ReverifyMatchedIff(th: Thresholds)
    ensures (forall ls, names, hash, id | AtMostOne(ls, names) && Perfect(ls, names, hash, id) ::
               VerifyDecision(th, Best(ls, names, hash), true) == Matched)
            <==> th.faceMatch <= FACE_SLACK && th.nameMatch <= NAME_SLACK
  {
    if th.faceMatch <= FACE_SLACK && th.nameMatch <= NAME_SLACK {
      forall ls, names, hash, id | AtMostOne(ls, names) && Perfect(ls, names, hash, id)
        ensures VerifyDecision(th, Best(ls, names, hash), true) == Matched
      {
        PerfectHitWins(ls, names, hash, id);
      }
    } else {
      var ls, names := Rival(if th.nameMatch > NAME_SLACK then 1.0 else FACE_SLACK,
                             if th.nameMatch > NAME_SLACK then NAME_SLACK else 1.0);
      assert VerifyDecision(th, Best(ls, names, "h"), true) != Matched;
    }
  }

  /** A perfect hit "x" behind a hit "y" that rounds to the same full confidence: "y" is chosen. */
  lemma Rival(face: real, name: real) returns (ls: seq<Lookup>, names: seq<Hit>)
    requires 0.0 <= face <= 1.0 && 0.0 <= name <= 1.0
    requires 0.65 * (1.0 - face) + 0.25 * (1.0 - name) <= 0.00005
    ensures AtMostOne(ls, names) && Perfect(ls, names, "h", "x")
    ensures Best(ls, names, "h") == Candidate("y", face, name, true)
  {
    var meta := IdentityMetadata("", "", "h", "", 0, 0, "");
    var y, x := Lookup(Hit("y", face), Some(meta)), Lookup(Hit("x", 1.0), Some(meta));
    ls, names := [y, x], [Hit("y", name), Hit("x", 1.0)];
    assert x in ls;
    NameScoresOfTwo(name, 1.0);
    FullConfidenceIff(face, name, true);
    FullConfidenceIff(1.0, 1.0, true);
    FirstOfTwo(y, x, names, "h");
  }

  lemma NameScoresOfTwo(y: real, x: real)
    requires y >= 0.0 && x >= 0.0
    ensures NameScore([Hit("y", y), Hit("x", x)], "y") == y
    ensures NameScore([Hit("y", y), Hit("x", x)], "x") == x
  {
    var first := [Hit("y", y)];
    assert (first + [Hit("x", x)])[..1] == first && first[..0] == [];
    assert "x"[0] != "y"[0];
    assert NameScore(first, "y") == y && NameScore(first, "x") == 0.0;
    assert [Hit("y", y), Hit("x", x)] == first + [Hit("x", x)];
  }

  lemma FirstOfTwo(a: Lookup, b: Lookup, names: seq<Hit>, hash: string)
    requires Eligible(a) && Eligible(b) && Combined(a, names, hash) >= Combined(b, names, hash)
    ensures Best([a, b], names, hash) == CandidateOf(a, names, hash)
  {
    var i := BestIsEarliest([a, b], names, hash);
    assert [a, b][0] == a && [a, b][1] == b;
  }

  /** A hit with the given face score, name score and demographics is among the results. */
  ghost predicate Shows(ls: seq<Lookup>, names: seq<Hit>, hash: string, face: real, name: real, demo: bool) {
    exists k: nat :: k < |ls| && Eligible(ls[k]) && CandidateOf(ls[k], names, hash) == Candidate(ls[k].hit.id, face, name, demo)
  }

  /** The confidences from which on a hit cannot lose to one below the duplicate threshold: the best such rival has a
      perfect name and matching demographics, may gain 0.00005 by rounding, and is at 0 when its sum is negative. */
  predicate Blocking(th: Thresholds, confidence: real) {
    var bound := 0.65 * th.faceDup + 0.35;
    if bound > 0.0 then confidence >= bound + 0.00005 else confidence > 0.0
  }

  /** A hit prevents a new identity, whatever else the searches return, exactly when its confidence is that high. */
  lemma HitBlocksIff(th: Thresholds, face: real, name: real, demo: bool)
    requires face <= 1.0 && 0.0 <= name <= 1.0
    ensures (forall ls, names, hash | AtMostOne(ls, names) && Shows(ls, names, hash, face, name, demo) ::
               EnrollDecision(th, Best(ls, names, hash)) != NewUser)
            <==> Blocking(th, Confidence(face, name, demo))
  {
    if Blocking(th, Confidence(face, name, demo)) {
      forall ls, names, hash | AtMostOne(ls, names) && Shows(ls, names, hash, face, name, demo)
        ensures EnrollDecision(th, Best(ls, names, hash)) != NewUser
      {
        BlockingHitWins(th, ls, names, hash, face, name, demo);
      }
    } else {
      var ls, names := WinningRival(th, face, name, demo);
    }
  }

  lemma BlockingHitWins(th: Thresholds, ls: seq<Lookup>, names: seq<Hit>, hash: string, face: real, name: real, demo: bool)
    requires Blocking(th, Confidence(face, name, demo))
    requires AtMostOne(ls, names) && Shows(ls, names, hash, face, name, demo)
    ensures EnrollDecision(th, Best(ls, names, hash)) != NewUser
  {
    var i := BestIsEarliest(ls, names, hash);
    var best := CandidateOf(ls[i], names, hash);
    NameScoreIsMax(names, best.id);
    assert ConfidenceOf(best) >= Confidence(face, name, demo);
    var w := Weighted(best.face, best.name, best.demo);
    assert w <= 0.65 * best.face + 0.35;
    var _ := ConfidenceGrid(best.face, best.name, best.demo);
  }

  /** In front of a hit of lower confidence stands one below the threshold that is chosen. */
  lemma WinningRival(th: Thresholds, face: real, name: real, demo: bool) returns (ls: seq<Lookup>, names: seq<Hit>)
    requires face <= 1.0 && 0.0 <= name <= 1.0 && !Blocking(th, Confidence(face, name, demo))
    ensures AtMostOne(ls, names) && Shows(ls, names, "h", face, name, demo)
    ensures EnrollDecision(th, Best(ls, names, "h")) == NewUser
  {
    var c: real := Confidence(face, name, demo);
    var k := ConfidenceGrid(face, name, demo);
    var rival := if 0.65 * th.faceDup + 0.35 > 0.0 then (c - 0.35005) / 0.65 else th.faceDup - 1.0;
    assert rival < th.faceDup;
    RoundsUpTo(k, Clamp01(Weighted(rival, 1.0, true)));
    var meta := IdentityMetadata("", "", "h", "", 0, 0, "");
    var y := Lookup(Hit("y", rival), Some(meta));
    var x := Lookup(Hit("x", face), Some(if demo then meta else meta.(demographicHash := "g")));
    ls, names := [y, x], [Hit("y", 1.0), Hit("x", name)];
    NameScoresOfTwo(1.0, name);
    assert "h"[0] != "g"[0];
    assert Eligible(ls[1]) && CandidateOf(ls[1], names, "h") == Candidate("x", face, name, demo);
    FirstOfTwo(y, x, names, "h");
  }

  /** A value at most half a place below a grid point rounds at least to it. */
  lemma RoundsUpTo(k: nat, v: real)
    requires v >= 0.0 && v >= k as real / 10000.0 - 0.00005
    ensures Round4(v) >= k as real / 10000.0
  {
    FloorMonotone(k as real, v * 10000.0 + 0.5);
  }

  /** So a perfect hit prevents a new identity exactly when the threshold is within the rounding slack of 1. */
  lemma PerfectHitBlocksIff(th: Thresholds)
    ensures (forall ls, names, hash | AtMostOne(ls, names) && Shows(ls, names, hash, 1.0, 1.0, true) ::
               EnrollDecision(th, Best(ls, names, hash)) != NewUser)
            <==> th.faceDup <= FACE_SLACK
  {
    HitBlocksIff(th, 1.0, 1.0, true);
    FullConfidenceIff(1.0, 1.0, true);
  }

  /** Passing the threshold alone prevents nothing: wherever a score can pass it at all, some
      hit that does loses to a better combined candidate below it. */
  lemma DuplicateHitBlocksIff(th: Thresholds)
    ensures (forall ls, names, hash, l | AtMostOne(ls, names) && l in ls && Eligible(l) && l.hit.score >= th.faceDup ::
               EnrollDecision(th, Best(ls, names, hash)) != NewUser)
            <==> th.faceDup > 1.0
  {
    if th.faceDup <= 1.0 {
      var face := th.faceDup - 0.1;
      var meta := IdentityMetadata("", "", "h", "", 0, 0, "");
      var y := Lookup(Hit("y", face), Some(meta));
      var x := Lookup(Hit("x", th.faceDup), Some(meta.(demographicHash := "g")));
      var names := [Hit("y", 1.0), Hit("x", 0.0)];
      NameScoresOfTwo(1.0, 0.0);
      assert Weighted(face, 1.0, true) >= Weighted(th.faceDup, 0.0, false);
      Round4Monotone(Clamp01(Weighted(th.faceDup, 0.0, false)), Clamp01(Weighted(face, 1.0, true)));
      FirstOfTwo(y, x, names, "h");
      var ls := [y, x];
      assert x in ls && AtMostOne(ls, names);
      assert EnrollDecision(th, Best(ls, names, "h")) == NewUser;
    }
  }

  /** Every decision that names a stored person carries at least the confidence its
      thresholds stand for; name scores never being negative makes this hold. */
  lemma DecisionConfidenceFloor(th: Thresholds, ls: seq<Lookup>, names: seq<Hit>, hash: string, live: bool)
    requires 0.0 <= th.faceDup <= 1.0 && 0.0 <= th.faceMatch <= 1.0 && 0.0 <= th.nameMatch <= 1.0
    ensures var best := Best(ls, names, hash);
            && (EnrollDecision(th, best) != NewUser ==> ConfidenceOf(best) >= Round4(0.65 * th.faceDup))
            && (VerifyDecision(th, best, live) == Matched ==>
                  ConfidenceOf(best) >= Round4(0.65 * th.faceMatch + 0.25 * th.nameMatch + 0.10))
  {
    var best := Best(ls, names, hash);
    var i := BestIsEarliest(ls, names, hash);
    if best.id != "" {
      NameScoreIsMax(names, best.id);
      var c := Clamp01(Weighted(best.face, best.name, best.demo));
      if EnrollDecision(th, best) != NewUser {
        Round4Monotone(0.65 * th.faceDup, c);
      }
      if VerifyDecision(th, best, live) == Matched {
        Round4Monotone(0.65 * th.faceMatch + 0.25 * th.nameMatch + 0.10, c);
      }
    }
  }
}
