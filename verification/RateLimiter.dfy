/**
 The per-key fixed-window rate limiter. A window opens with the first call
 after the previous one has passed; its end still belongs to it.
 */
module RateLimiter {
  import opened Domain

  datatype Bucket = Bucket(count: int, reset: Time)

  datatype Call = Call(key: string, at: Time)

  // ---------- the limiter as a function of its history ----------

  function Slot(window: Time, b: Option<Bucket>, now: Time): Bucket {
    if b.None? || now > b.value.reset then Bucket(0, now + window) else b.value
  }

  function After(limit: int, slot: Bucket): Bucket {
    if slot.count >= limit then slot else slot.(count := slot.count + 1)
  }

  /** The bucket of a key after a history of calls. */
  function State(limit: int, window: Time, log: seq<Call>, key: string): Option<Bucket> {
    if log == [] then None
    else
      var before := State(limit, window, log[..|log| - 1], key);
      var last := log[|log| - 1];
      if last.key == key then Some(After(limit, Slot(window, before, last.at))) else before
  }

  /** Whether a call of the key at this time, after this history, is admitted. */
  predicate Admits(limit: int, window: Time, log: seq<Call>, c: Call) {
    Slot(window, State(limit, window, log, c.key), c.at).count < limit
  }

  /** The number of admitted calls of a key at times in [lo, hi]. */
  function Admitted(limit: int, window: Time, log: seq<Call>, key: string, lo: Time, hi: Time): nat {
    if log == [] then 0
    else
      var init, last := log[..|log| - 1], log[|log| - 1];
      Admitted(limit, window, init, key, lo, hi)
      + if last.key == key && lo <= last.at <= hi && Admits(limit, window, init, last) then 1 else 0
  }

  /** The number of all calls of a key at times in [lo, hi]. */
  function Calls(log: seq<Call>, key: string, lo: Time, hi: Time): nat {
    if log == [] then 0
    else
      Calls(log[..|log| - 1], key, lo, hi)
      + if log[|log| - 1].key == key && lo <= log[|log| - 1].at <= hi then 1 else 0
  }

  /** The calls that are counted. */
  function Counted(log: seq<Call>, key: string, lo: Time, hi: Time): set<int> {
    set i | 0 <= i < |log| && log[i].key == key && lo <= log[i].at <= hi
  }

  /** The calls that are counted and were admitted, each after the history before it. */
  function CountedIn(limit: int, window: Time, log: seq<Call>, key: string, lo: Time, hi: Time): set<int> {
    set i | 0 <= i < |log| && log[i].key == key && lo <= log[i].at <= hi && Admits(limit, window, log[..i], log[i])
  }

  /** The recursive counts are the numbers of these calls. */
  lemma {:induction false} CallsAreCounted(log: seq<Call>, key: string, lo: Time, hi: Time)
    ensures Calls(log, key, lo, hi) == |Counted(log, key, lo, hi)|
  {
    if log != [] {
      var n := |log| - 1;
      var init, last := log[..n], log[n];
      CallsAreCounted(init, key, lo, hi);
      var before, now := Counted(init, key, lo, hi), last.key == key && lo <= last.at <= hi;
      assert Counted(log, key, lo, hi) == if now then before + {n} else before;
    }
  }

  lemma {:induction false} AdmissionsAreCounted(limit: int, window: Time, log: seq<Call>, key: string, lo: Time, hi: Time)
    ensures Admitted(limit, window, log, key, lo, hi) == |CountedIn(limit, window, log, key, lo, hi)|
  {
    if log != [] {
      AdmissionsAreCounted(limit, window, log[..|log| - 1], key, lo, hi);
      CountedOneMore(limit, window, log, key, lo, hi);
      hide Admits, CountedIn;
    }
  }

  lemma CountedOneMore(limit: int, window: Time, log: seq<Call>, key: string, lo: Time, hi: Time)
    requires log != []
    ensures var n := |log| - 1;
            var before := CountedIn(limit, window, log[..n], key, lo, hi);
            && n !in before
            && CountedIn(limit, window, log, key, lo, hi)
               == before + if log[n].key == key && lo <= log[n].at <= hi && Admits(limit, window, log[..n], log[n]) then {n} else {}
  {
    hide Admits;
    var n := |log| - 1;
    forall i | 0 <= i < n ensures log[..n][i] == log[i] && log[..n][..i] == log[..i] {
    }
  }

  /** The clock never runs backwards. */
  ghost predicate Ordered(log: seq<Call>) {
    forall i, j | 0 <= i <= j < |log| :: log[i].at <= log[j].at
  }

  // ---------- the limiter ----------

  class RateLimiter {
    const limit: int
    const window: Time
    var buckets: map<string, Bucket>
    ghost var log: seq<Call>

    ghost predicate Valid()
      reads this
    {
      forall key :: (if key in buckets then Some(buckets[key]) else None) == State(limit, window, log, key)
    }

    constructor (limit: int, window: Time)
      ensures Valid() && this.limit == limit && this.window == window && log == []
    {
      this.limit, this.window := limit, window;
      buckets, log := map[], [];
    }

    method Allow(key: string, now: Time) returns (ok: bool)
      requires Valid()
      modifies this
      ensures Valid() && log == old(log) + [Call(key, now)]
      ensures ok == Admits(limit, window, old(log), Call(key, now))
    {
      assert (log + [Call(key, now)])[..|log|] == log;
      var b := Bucket(0, 0);
      if key in buckets {
        b := buckets[key];
      }
      if key !in buckets || now > b.reset {
        b := Bucket(0, now + window);
      }
      log := log + [Call(key, now)];
      if b.count >= limit {
        buckets := buckets[key := b];
        return false;
      }
      b := b.(count := b.count + 1);
      buckets := buckets[key := b];
      return true;
    }
  }

  // ---------- windows ----------

  /** The current window of a key opened at one of its calls, no call is after its end,
      and it never counts more than the limit. */
  lemma {:induction false} StateBounds(limit: int, window: Time, log: seq<Call>, key: string)
    requires Ordered(log) && window >= 0
    ensures var b := State(limit, window, log, key);
            && (b.None? <==> forall i | 0 <= i < |log| :: log[i].key != key)
            && (b.Some? ==>
                  && (exists i :: 0 <= i < |log| && log[i] == Call(key, b.value.reset - window))
                  && (forall i | 0 <= i < |log| && log[i].key == key :: log[i].at <= b.value.reset)
                  && (limit >= 1 ==> 1 <= b.value.count <= limit)
                  && (limit <= 0 ==> b.value.count == 0))
  {
    if log != [] {
      var init, last := log[..|log| - 1], log[|log| - 1];
      StateBounds(limit, window, init, key);
      var before, after := State(limit, window, init, key), State(limit, window, log, key);
      assert forall i | 0 <= i < |init| :: log[i] == init[i];
      if last.key == key {
        assert log[|log| - 1].key == key;
        var slot := Slot(window, before, last.at);
        if before.None? || last.at > before.value.reset {
          assert last == Call(key, slot.reset - window);
        } else {
          var i :| 0 <= i < |init| && init[i] == Call(key, before.value.reset - window);
          assert log[i] == Call(key, slot.reset - window);
        }
      } else if before.Some? {
        var i :| 0 <= i < |init| && init[i] == Call(key, before.value.reset - window);
        assert log[i] == Call(key, after.value.reset - window);
      }
    }
  }

  lemma {:induction false} NoneAdmittedFrom(limit: int, window: Time, log: seq<Call>, key: string, lo: Time, hi: Time)
    requires forall i | 0 <= i < |log| && log[i].key == key :: log[i].at < lo
    ensures Admitted(limit, window, log, key, lo, hi) == 0
  {
    if log != [] {
      assert forall i | 0 <= i < |log| - 1 :: log[..|log| - 1][i] == log[i];
      NoneAdmittedFrom(limit, window, log[..|log| - 1], key, lo, hi);
    }
  }

  /** The count of the current window is the number of calls admitted since it opened. */
  lemma {:induction false} CountIsExact(limit: int, window: Time, log: seq<Call>, key: string, hi: Time)
    requires Ordered(log) && window >= 0 && forall i | 0 <= i < |log| :: log[i].at <= hi
    ensures var b := State(limit, window, log, key);
            b.Some? ==> b.value.count == Admitted(limit, window, log, key, b.value.reset - window, hi)
  {
    if log != [] {
      var init, last := log[..|log| - 1], log[|log| - 1];
      assert forall i | 0 <= i < |init| :: log[i] == init[i];
      CountIsExact(limit, window, init, key, hi);
      StateBounds(limit, window, init, key);
      var before := State(limit, window, init, key);
      if last.key == key {
        if before.None? || last.at > before.value.reset {
          NoneAdmittedFrom(limit, window, init, key, last.at, hi);
        } else {
          var i :| 0 <= i < |init| && init[i] == Call(key, before.value.reset - window);
        }
      }
    }
  }

  /** A refused call finds exactly `limit` calls of its key admitted since the opening of the
      current window, which lies at most one window length back. */
  lemma RefusalMeansFull(limit: int, window: Time, log: seq<Call>, c: Call) returns (opening: Time)
    requires limit >= 1 && window >= 0 && Ordered(log + [c]) && !Admits(limit, window, log, c)
    ensures c.at - window <= opening <= c.at
    ensures Admitted(limit, window, log, c.key, opening, c.at) == limit
  {
    assert forall i | 0 <= i < |log| :: log[i] == (log + [c])[i];
    assert (log + [c])[|log|] == c;
    StateBounds(limit, window, log, c.key);
    CountIsExact(limit, window, log, c.key, c.at);
    opening := State(limit, window, log, c.key).value.reset - window;
    var i :| 0 <= i < |log| && log[i] == Call(c.key, opening);
  }

  lemma {:induction false} CallsGrow(log: seq<Call>, n: nat, key: string, lo: Time, hi: Time, hi': Time)
    requires n <= |log| && hi <= hi'
    ensures Calls(log[..n], key, lo, hi) <= Calls(log, key, lo, hi')
    decreases |log|
  {
    if n < |log| {
      assert log[..|log| - 1][..n] == log[..n];
      CallsGrow(log[..|log| - 1], n, key, lo, hi, hi');
    } else if log != [] {
      assert log[..n] == log;
      CallsGrow(log[..|log| - 1], n - 1, key, lo, hi, hi');
      assert log[..|log| - 1][..n - 1] == log[..|log| - 1];
    }
  }

  lemma {:induction false} AdmittedAreCalls(limit: int, window: Time, log: seq<Call>, key: string, lo: Time, hi: Time)
    ensures Admitted(limit, window, log, key, lo, hi) <= Calls(log, key, lo, hi)
  {
    if log != [] {
      AdmittedAreCalls(limit, window, log[..|log| - 1], key, lo, hi);
    }
  }

  /** A key with at most `limit` calls in every closed interval of one window length is never refused. */
  lemma SteadyKeyIsNeverRefused(limit: int, window: Time, log: seq<Call>, key: string, i: nat)
    requires limit >= 1 && window >= 0 && Ordered(log)
    requires forall lo, hi | hi == lo + window :: Calls(log, key, lo, hi) <= limit
    requires i < |log| && log[i].key == key
    ensures Admits(limit, window, log[..i], log[i])
  {
    if !Admits(limit, window, log[..i], log[i]) {
      assert log[..i] + [log[i]] == log[..i + 1];
      var opening := RefusalMeansFull(limit, window, log[..i], log[i]);
      AdmittedAreCalls(limit, window, log[..i], key, opening, log[i].at);
      assert log[..i + 1][..i] == log[..i];
      assert Calls(log[..i + 1], key, opening, log[i].at) >= limit + 1;
      CallsGrow(log, i + 1, key, opening, log[i].at, opening + window);
      assert false;
    }
  }

  /** The calls of one key. */
  function Only(log: seq<Call>, key: string): seq<Call> {
    if log == [] then []
    else Only(log[..|log| - 1], key) + if log[|log| - 1].key == key then [log[|log| - 1]] else []
  }

  /** Calls of other keys never change the bucket of a key, hence none of its answers. */
  lemma {:induction false} KeysAreIndependent(limit: int, window: Time, log: seq<Call>, c: Call)
    ensures State(limit, window, Only(log, c.key), c.key) == State(limit, window, log, c.key)
    ensures Admits(limit, window, Only(log, c.key), c) == Admits(limit, window, log, c)
  {
    if log != [] {
      var init, last := log[..|log| - 1], log[|log| - 1];
      KeysAreIndependent(limit, window, init, c);
      if last.key == c.key {
        assert (Only(init, c.key) + [last])[..|Only(init, c.key)|] == Only(init, c.key);
      } else {
        assert Only(log, c.key) == Only(init, c.key);
      }
    }
  }

  // ---------- how much an interval admits ----------

  /** The windows of a key with calls in [lo, hi], counted while the calls come in: `k` of them, the
      first one `early` when it opened before `lo` and so spent an admission outside the interval. */
  lemma {:induction false} CountWindows(limit: int, window: Time, log: seq<Call>, key: string, lo: Time, hi: Time)
    returns (k: nat, early: bool)
    requires limit >= 1 && window > 0 && Ordered(log) && forall i | 0 <= i < |log| :: log[i].at <= hi
    ensures var a, b := Admitted(limit, window, log, key, lo, hi), State(limit, window, log, key);
            if k == 0 then a == 0 && forall i | 0 <= i < |log| && log[i].key == key :: log[i].at < lo
            else log != [] && log[|log| - 1].at >= lo && b.Some? && Progress(limit, window, a, b.value, lo, k, early)
  {
    hide Progress;
    k, early := 0, false;
    if log != [] {
      var init, last := log[..|log| - 1], log[|log| - 1];
      assert forall i | 0 <= i < |init| :: log[i] == init[i];
      k, early := CountWindows(limit, window, init, key, lo, hi);
      StateBounds(limit, window, init, key);
      if last.key == key && last.at >= lo {
        var a, before := Admitted(limit, window, init, key, lo, hi), State(limit, window, init, key);
        var opens := before.None? || last.at > before.value.reset;
        var slot := Slot(window, before, last.at);
        if k == 0 {
          k, early := 1, !opens;
          assert slot.reset - window >= lo - window && (opens ==> slot.reset - window >= lo);
          FirstCall(limit, window, slot, lo, early);
        } else if opens {
          WindowOpens(limit, window, a, before.value, last.at, lo, k, early);
          k := k + 1;
        } else {
          WindowContinues(limit, window, a, slot, lo, k, early);
        }
      }
    }
  }

  /** After `k` windows: at most `limit` admissions for each earlier one and the count of the
      current one, less the one spent outside; and how far the windows have advanced from `lo`. */
  predicate Progress(limit: int, window: Time, a: int, b: Bucket, lo: Time, k: int, early: bool) {
    && k >= 1 && a <= limit * (k - 1) + b.count - (if early then 1 else 0)
    && var opening := b.reset - window;
      if early then
        if k == 1 then opening >= lo - window else opening > lo + (k - 2) * window
      else
        if k == 1 then opening >= lo else opening > lo + (k - 1) * window
  }

  lemma FirstCall(limit: int, window: Time, slot: Bucket, lo: Time, early: bool)
    requires slot.reset - window >= if early then lo - window else lo
    requires if early then 1 <= slot.count <= limit else slot.count == 0 && limit >= 1
    ensures Progress(limit, window, if slot.count < limit then 1 else 0, After(limit, slot), lo, 1, early)
  {
  }

  lemma WindowContinues(limit: int, window: Time, a: int, b: Bucket, lo: Time, k: int, early: bool)
    requires Progress(limit, window, a, b, lo, k, early)
    ensures Progress(limit, window, a + 1, b.(count := b.count + 1), lo, k, early)
  {
  }

  lemma WindowOpens(limit: int, window: Time, a: int, b: Bucket, at: Time, lo: Time, k: int, early: bool)
    requires limit >= 1 && window > 0 && Progress(limit, window, a, b, lo, k, early) && b.count <= limit && at > b.reset
    ensures Progress(limit, window, a, Bucket(0, at + window), lo, k + 1, early)
    ensures Progress(limit, window, a + 1, Bucket(1, at + window), lo, k + 1, early)
  {
    assert limit * (k - 1) + limit == limit * k;
    assert (k - 2) * window + window == (k - 1) * window;
    assert (k - 1) * window + window == k * window;
  }

  function CeilDiv(l: nat, window: Time): nat
    requires window > 0
  {
    (l + window - 1) / window
  }

  lemma CeilDivCovers(l: nat, window: Time, m: int)
    requires window > 0
    ensures CeilDiv(l, window) * window >= l
    ensures m * window < l ==> m < CeilDiv(l, window)
    ensures CeilDiv(l, window) == 0 <==> l == 0
  {
    var n := l + window - 1;
    assert n == (n / window) * window + n % window;
    if m >= CeilDiv(l, window) {
      assert m * window >= CeilDiv(l, window) * window;
    }
  }

  /** In any closed interval of positive length L a key gets at most limit * (ceil(L / W) + 1) - 1
      calls admitted, and at most `limit` in an instant; in particular at most 2 * limit - 1 in W. */
  lemma {:induction false} IntervalBound(limit: int, window: Time, log: seq<Call>, key: string, lo: Time, hi: Time)
    requires limit >= 1 && window > 0 && Ordered(log) && lo <= hi
    ensures Admitted(limit, window, log, key, lo, hi)
            <= limit * (CeilDiv(hi - lo, window) + 1) - (if lo < hi then 1 else 0)
  {
    if log != [] && log[|log| - 1].at > hi {
      IntervalBound(limit, window, log[..|log| - 1], key, lo, hi);
    } else {
      var k, early := CountWindows(limit, window, log, key, lo, hi);
      StateBounds(limit, window, log, key);
      BoundFromProgress(limit, window, log, key, lo, hi, k, early);
    }
  }

  lemma BoundFromProgress(limit: int, window: Time, log: seq<Call>, key: string, lo: Time, hi: Time, k: nat, early: bool)
    requires limit >= 1 && window > 0 && lo <= hi
    requires var a, b := Admitted(limit, window, log, key, lo, hi), State(limit, window, log, key);
             if k == 0 then a == 0
             else b.Some? && Progress(limit, window, a, b.value, lo, k, early)
                  && b.value.count <= limit && b.value.reset - window <= hi
    ensures Admitted(limit, window, log, key, lo, hi)
            <= limit * (CeilDiv(hi - lo, window) + 1) - (if lo < hi then 1 else 0)
  {
    if k > 0 {
      BoundOfProgress(limit, window, Admitted(limit, window, log, key, lo, hi),
                      State(limit, window, log, key).value, lo, hi, k, early);
    } else {
      assert limit * (CeilDiv(hi - lo, window) + 1) >= limit;
    }
  }

  lemma BoundOfProgress(limit: int, window: Time, a: int, b: Bucket, lo: Time, hi: Time, k: int, early: bool)
    requires limit >= 1 && window > 0 && lo <= hi && Progress(limit, window, a, b, lo, k, early)
    requires b.count <= limit && b.reset - window <= hi
    ensures a <= limit * (CeilDiv(hi - lo, window) + 1) - (if lo < hi then 1 else 0)
  {
    var c := CeilDiv(hi - lo, window);
    CeilDivCovers(hi - lo, window, k - 2);
    CeilDivCovers(hi - lo, window, k - 1);
    hide CeilDiv;
    assert a <= limit * k - (if early then 1 else 0) by {
      assert limit * (k - 1) + limit == limit * k;
    }
    var top := if early then c + 1 else if c == 0 then 1 else c;
    assert k <= top;
    MulMonotone(limit, k, top);
    assert limit * (c + 1) == limit * c + limit;
  }

  lemma MulMonotone(n: int, a: int, b: int)
    requires n >= 0 && a <= b
    ensures n * a <= n * b
  {
  }

  // ---------- the bound is reached ----------

  /** What one more call of the key does to its bucket and to the count of an interval around it. */
  lemma OneMore(limit: int, window: Time, log: seq<Call>, c: Call, lo: Time, hi: Time)
    requires lo <= c.at <= hi
    ensures var slot := Slot(window, State(limit, window, log, c.key), c.at);
            && State(limit, window, log + [c], c.key) == Some(After(limit, slot))
            && Admitted(limit, window, log + [c], c.key, lo, hi)
               == Admitted(limit, window, log, c.key, lo, hi) + if slot.count < limit then 1 else 0
  {
    assert (log + [c])[..|log|] == log;
  }

  lemma StaysOrdered(log: seq<Call>, c: Call)
    requires Ordered(log) && (log == [] || log[|log| - 1].at <= c.at)
    ensures Ordered(log + [c])
  {
  }

  function Burst(log: seq<Call>, c: Call, n: nat): seq<Call> {
    if n == 0 then log else Burst(log, c, n - 1) + [c]
  }

  /** Calls at one time that fit into the current window are all admitted. */
  lemma {:induction false} BurstAdmitted(limit: int, window: Time, log: seq<Call>, c: Call, n: nat, lo: Time, hi: Time)
    requires Ordered(log) && log != [] && log[|log| - 1].at <= c.at && lo <= c.at <= hi
    requires State(limit, window, log, c.key).Some?
    requires var b := State(limit, window, log, c.key).value; c.at <= b.reset && b.count + n <= limit
    ensures var b, more := State(limit, window, log, c.key).value, Burst(log, c, n);
            && Ordered(more) && more != [] && more[|more| - 1].at <= c.at
            && State(limit, window, more, c.key) == Some(b.(count := b.count + n))
            && Admitted(limit, window, more, c.key, lo, hi) == Admitted(limit, window, log, c.key, lo, hi) + n
  {
    hide State, Admitted, Ordered;
    if n > 0 {
      BurstAdmitted(limit, window, log, c, n - 1, lo, hi);
      OneMore(limit, window, Burst(log, c, n - 1), c, lo, hi);
      StaysOrdered(Burst(log, c, n - 1), c);
    }
  }

  /** For every limit and window there is a history that admits 2 * limit - 1 calls within one window length. */
  lemma BoundIsReached(limit: int, window: Time, key: string) returns (log: seq<Call>)
    requires limit >= 1 && window > 0
    ensures Ordered(log) && Admitted(limit, window, log, key, 1, 1 + window) == 2 * limit - 1
  {
    var first := [Call(key, 0)];
    assert first[..0] == [];
    assert State(limit, window, first, key) == Some(Bucket(1, window));
    assert Admitted(limit, window, first, key, 1, 1 + window) == 0;
    hide State, Admitted, Ordered;
    BurstAdmitted(limit, window, first, Call(key, window), limit - 1, 1, 1 + window);
    var second := Burst(first, Call(key, window), limit - 1);
    var third := second + [Call(key, 1 + window)];
    OneMore(limit, window, second, Call(key, 1 + window), 1, 1 + window);
    StaysOrdered(second, Call(key, 1 + window));
    BurstAdmitted(limit, window, third, Call(key, 1 + window), limit - 1, 1, 1 + window);
    log := Burst(third, Call(key, 1 + window), limit - 1);
  }
}
