/** The publisher of job events: one message posted again and again until its fate is decided. */
module Publisher {
  import opened Domain

  datatype OffsetResult = OffsetResult(errorCode: int, error: string)

  /** A reply body: nothing but white space, not of the known form, or a list of offsets. */
  datatype Body = Blank | Unrecognised | Offsets(offsets: seq<OffsetResult>)

  /** What one post comes to. */
  datatype Outcome = Broken(error: string) | Replied(status: int, body: Body)

  predicate Success(o: Outcome) {
    o.Replied? && 200 <= o.status < 300
  }

  /** A body without the known form passes; a known one needs offsets, none of them with an error. */
  ghost predicate BodyValid(b: Body) {
    b.Offsets? ==> b.offsets != [] && forall i | 0 <= i < |b.offsets| :: b.offsets[i] == OffsetResult(0, "")
  }

  ghost predicate Delivered(o: Outcome) {
    Success(o) && BodyValid(o.body)
  }

  predicate Rejected(o: Outcome) {
    o.Replied? && 400 <= o.status < 500
  }

  /** The answers by the hundreds of their status: success, rejection, and anything else, which is retried. */
  lemma OutcomeClasses(o: Outcome)
    ensures Success(o) <==> o.Replied? && o.status / 100 == 2
    ensures Rejected(o) <==> o.Replied? && o.status / 100 == 4
    ensures !Decisive(o) <==> o.Broken? || o.status / 100 !in {2, 4} || (o.status / 100 == 2 && !BodyValid(o.body))
  {
  }

  ghost predicate Decisive(o: Outcome) {
    Delivered(o) || Rejected(o)
  }

  /** The first decisive attempt, or one past the last when there is none. */
  ghost predicate DecidedAt(server: nat -> Outcome, retries: nat, n: nat) {
    && 1 <= n <= retries + 1
    && (forall i | 1 <= i < n :: !Decisive(server(i)))
    && (n <= retries ==> Decisive(server(n)))
  }

  method ValidateProduceResponse(b: Body) returns (ok: bool)
    ensures ok <==> BodyValid(b)
  {
    if !b.Offsets? {
      return true;
    }
    if b.offsets == [] {
      return false;
    }
    for i := 0 to |b.offsets|
      invariant forall j | 0 <= j < i :: b.offsets[j] == OffsetResult(0, "")
    {
      if b.offsets[i].errorCode != 0 || b.offsets[i].error != "" {
        return false;
      }
    }
    return true;
  }

  /** The constructor allows at least one attempt. */
  function Attempts(configured: int): (retries: nat)
    ensures retries >= 1 && (configured >= 1 ==> retries == configured) && (configured < 1 ==> retries == 1)
  {
    if configured < 1 then 1 else configured
  }

  /** The pauses of the first `m` retried attempts, in milliseconds. */
  function Pauses(m: nat): nat {
    if m == 0 then 0 else Pauses(m - 1) + 750 * m
  }

  lemma {:induction false} PausesSum(m: nat)
    ensures 2 * Pauses(m) == 750 * (m * (m + 1))
  {
    if m > 0 {
      PausesSum(m - 1);
      assert m * (m + 1) == (m - 1) * m + 2 * m;
    }
  }

  /** The answer of attempt `i` is `server(i)`. The publish succeeds exactly when the first decisive outcome
      of the allowed attempts is a delivery; every post carries the same message, every undecided attempt, the last
      one included, is followed by its pause, and a reported failure is that of the last post. */
  method Publish(message: string, configured: int, server: nat -> Outcome)
    returns (ok: bool, failure: Option<Outcome>, posts: seq<string>, waited: nat)
    ensures var retries := Attempts(configured);
            exists n: nat :: DecidedAt(server, retries, n)
                        && (ok <==> n <= retries && Delivered(server(n)))
                        && |posts| == (if n <= retries then n else retries)
                        && 2 * waited == 750 * ((n - 1) * n)
    ensures forall i | 0 <= i < |posts| :: posts[i] == message
    ensures !ok ==> posts != [] && failure == Some(server(|posts|))
  {
    var retries := Attempts(configured);
    failure, posts, waited := None, [], 0;
    var attempt := 1;
    while attempt <= retries
      invariant 1 <= attempt <= retries + 1
      invariant |posts| == attempt - 1 && forall i | 0 <= i < |posts| :: posts[i] == message
      invariant waited == Pauses(attempt - 1)
      invariant attempt > 1 ==> failure == Some(server(attempt - 1))
      invariant forall i | 1 <= i < attempt :: !Decisive(server(i))
    {
      posts := posts + [message];
      var outcome := server(attempt);
      PausesSum(attempt - 1);
      if Success(outcome) {
        var valid := ValidateProduceResponse(outcome.body);
        if valid {
          assert DecidedAt(server, retries, attempt);
          return true, None, posts, waited;
        }
      }
      failure := Some(outcome);
      if outcome.Replied? && 400 <= outcome.status < 500 {
        assert DecidedAt(server, retries, attempt);
        return false, failure, posts, waited;
      }
      waited := waited + attempt * 750;
      attempt := attempt + 1;
    }
    PausesSum(attempt - 1);
    assert DecidedAt(server, retries, attempt);
    return false, failure, posts, waited;
  }
}
