/** The shared sliding-window rate limiter of internal/util/ratelimit.go. Times are in nanoseconds. */
module RateLimit {
  import opened Bytes

  const MINUTE := 60_000_000_000
  const HOUR := 3600_000_000_000

  // ---- the limiter ----

  datatype Limiter = Limiter(limits: map<string, seq<int>>, lastSweep: Option<int>)

  const Empty := Limiter(map[], None)

  /** The times strictly after cutoff, in order. */
  function After(ts: seq<int>, cutoff: int): seq<int> {
    if ts == [] then []
    else After(ts[..|ts| - 1], cutoff) + if ts[|ts| - 1] > cutoff then [ts[|ts| - 1]] else []
  }

  /** At most limit elements from the front. */
  function Take(ts: seq<int>, limit: int): seq<int> {
    if |ts| <= limit then ts else if limit < 0 then [] else ts[..limit]
  }

  predicate SweepDue(s: Limiter, now: int) {
    s.lastSweep == None || now - s.lastSweep.value > MINUTE
  }

  function Sweep(s: Limiter, cutoff: int, now: int): Limiter {
    Limiter(map k | k in s.limits && After(s.limits[k], cutoff) != [] :: s.limits[k], Some(now))
  }

  function Stored(s: Limiter, key: string): seq<int> {
    if key in s.limits then s.limits[key] else []
  }

  /** One call: its key, limit and window, and when it is made. */
  datatype Call = Call(key: string, limit: int, window: int, now: int)

  function Swept(s: Limiter, c: Call): Limiter {
    if SweepDue(s, c.now) then Sweep(s, c.now - c.window, c.now) else s
  }

  function Valid(s: Limiter, c: Call): seq<int> {
    Take(After(Stored(Swept(s, c), c.key), c.now - c.window), c.limit)
  }

  predicate Admits(s: Limiter, c: Call) {
    |Valid(s, c)| < c.limit
  }

  function Next(s: Limiter, c: Call): Limiter {
    var valid := Valid(s, c);
    var swept := Swept(s, c);
    swept.(limits := swept.limits[c.key := if Admits(s, c) then valid + [c.now] else valid])
  }

  /** The filter loop: times after cutoff, stopping once limit of them were found. */
  method Collect(times: seq<int>, cutoff: int, limit: int) returns (valid: seq<int>)
    ensures valid == Take(After(times, cutoff), limit)
  {
    valid := [];
    var i := 0;
    while i < |times| && |valid| < limit
      invariant i <= |times| && valid == After(times[..i], cutoff)
      invariant |valid| <= limit || valid == []
    {
      assert times[..i + 1][..i] == times[..i];
      if times[i] > cutoff {
        valid := valid + [times[i]];
      }
      i := i + 1;
    }
    AfterPrefix(times, i, cutoff);
    assert times[..|times|] == times;
  }

  class RateLimiter {
    var limits: map<string, seq<int>>
    var lastSweep: Option<int>

    ghost function Value(): Limiter
      reads this
    {
      Limiter(limits, lastSweep)
    }

    constructor ()
      ensures Value() == Empty
    {
      limits, lastSweep := map[], None;
    }

    method Allow(key: string, limit: int, window: int, now: int) returns (admit: bool)
      modifies this
      ensures Value() == Next(old(Value()), Call(key, limit, window, now))
      ensures admit == Admits(old(Value()), Call(key, limit, window, now))
    {
      hide After, Take;
      ghost var s0, c := Value(), Call(key, limit, window, now);
      var cutoff := now - window;
      if lastSweep == None || now - lastSweep.value > MINUTE {
        lastSweep := Some(now);
        DropIdle(cutoff);
      }
      assert Value() == Swept(s0, c);
      var times := if key in limits then limits[key] else [];
      var valid := Collect(times, cutoff, limit);
      admit := |valid| < limit;
      if admit {
        valid := valid + [now];
      }
      limits := limits[key := valid];
    }

    /** The sweep: deletes the keys with no time after cutoff. */
    method DropIdle(cutoff: int)
      modifies this`limits
      ensures limits == map k | k in old(limits) && After(old(limits)[k], cutoff) != [] :: old(limits)[k]
    {
      var todo := limits.Keys;
      while todo != {}
        invariant todo <= old(limits).Keys
        invariant limits == map k | k in old(limits) && (k in todo || After(old(limits)[k], cutoff) != []) :: old(limits)[k]
        decreases |todo|
      {
        var k :| k in todo;
        var ts, keep, i := limits[k], false, 0;
        while i < |ts| && !keep
          invariant i <= |ts| && keep == (After(ts[..i], cutoff) != [])
        {
          assert ts[..i + 1][..i] == ts[..i];
          keep := ts[i] > cutoff;
          i := i + 1;
        }
        AfterPrefix(ts, i, cutoff);
        assert ts[..|ts|] == ts;
        if !keep {
          limits := limits - {k};
        }
        todo := todo - {k};
      }
    }
  }

  /** Filtering more of a list only appends. */
  lemma {:induction false} AfterPrefix(ts: seq<int>, i: nat, cutoff: int)
    requires i <= |ts|
    ensures After(ts[..i], cutoff) <= After(ts, cutoff)
  {
    if i < |ts| {
      AfterPrefix(ts[..|ts| - 1], i, cutoff);
      assert ts[..|ts| - 1][..i] == ts[..i];
    } else {
      assert ts[..i] == ts;
    }
  }

  // ---- runs against the full history ----

  function Run(calls: seq<Call>): Limiter {
    if calls == [] then Empty else Next(Run(calls[..|calls| - 1]), calls[|calls| - 1])
  }

  /** The times of all admitted calls on a key, oldest first: the history the limiter does not keep. */
  function History(calls: seq<Call>, key: string): seq<int> {
    if calls == [] then []
    else
      var before, c := calls[..|calls| - 1], calls[|calls| - 1];
      History(before, key) + if c.key == key && Admits(Run(before), c) then [c.now] else []
  }

  /** A monotone clock, and one limit and window for the calls on the key. Other keys may use any windows. */
  predicate Ruled(calls: seq<Call>, key: string, limit: int, window: int) {
    && (forall i, j :: 0 <= i <= j < |calls| ==> calls[i].now <= calls[j].now)
    && (forall i :: 0 <= i < |calls| && calls[i].key == key ==> calls[i].limit == limit && calls[i].window == window)
  }

  /**
   * A call on another key sweeps, and all of the key's live times (those in its own window) are older than
   * the caller's window, so the sweep deletes them.
   */
  predicate Forgets(s: Limiter, c: Call, key: string, window: int) {
    && c.key != key && SweepDue(s, c.now)
    && After(Stored(s, key), c.now - window) != [] && After(Stored(s, key), c.now - c.window) == []
  }

  predicate NothingForgotten(calls: seq<Call>, key: string, window: int) {
    forall k :: 0 <= k < |calls| ==> !Forgets(Run(calls[..k]), calls[k], key, window)
  }

  lemma {:induction false} AfterConcat(a: seq<int>, b: seq<int>, cutoff: int)
    ensures After(a + b, cutoff) == After(a, cutoff) + After(b, cutoff)
  {
    if b == [] {
      assert a + b == a;
    } else {
      assert (a + b)[..|a + b| - 1] == a + b[..|b| - 1];
      AfterConcat(a, b[..|b| - 1], cutoff);
    }
  }

  lemma {:induction false} AfterAfter(ts: seq<int>, early: int, late: int)
    requires early <= late
    ensures After(After(ts, early), late) == After(ts, late)
    ensures |After(ts, late)| <= |After(ts, early)| <= |ts|
  {
    if ts != [] {
      var n := |ts| - 1;
      AfterAfter(ts[..n], early, late);
      AfterOne(ts[n], early);
      AfterOne(ts[n], late);
      assert ts == ts[..n] + [ts[n]];
      AfterConcat(ts[..n], [ts[n]], early);
      AfterConcat(ts[..n], [ts[n]], late);
      hide After;
      AfterConcat(After(ts[..n], early), After([ts[n]], early), late);
      AfterNil(late);
    }
  }

  lemma AfterNil(cutoff: int)
    ensures After([], cutoff) == []
  {
  }

  lemma AfterOne(t: int, cutoff: int)
    ensures After([t], cutoff) == if t > cutoff then [t] else []
  {
    assert [t][..0] == [];
  }

  /** What a key's entry and its history agree on. */
  ghost predicate Agrees(stored: seq<int>, history: seq<int>, limit: int, from: int) {
    && (forall cutoff :: cutoff >= from ==> After(stored, cutoff) == After(history, cutoff))
    && (|stored| <= limit || stored == [])
  }

  /** A sweep for a key's own window deletes nothing that its next filtering would keep. */
  lemma OwnSweepAgrees(s: Limiter, c: Call, history: seq<int>, from: int)
    requires Agrees(Stored(s, c.key), history, c.limit, from) && c.now - c.window <= from
    ensures Agrees(Stored(Swept(s, c), c.key), history, c.limit, from)
  {
    var stored := Stored(s, c.key);
    if Stored(Swept(s, c), c.key) != stored {
      forall cutoff | cutoff >= from ensures After(history, cutoff) == [] {
        AfterAfter(stored, c.now - c.window, cutoff);
      }
    }
  }

  /** What another key's call does to the entry: nothing, unless it sweeps. */
  lemma OtherCallEffect(s: Limiter, c: Call, key: string)
    requires c.key != key
    ensures Stored(Next(s, c), key)
         == if SweepDue(s, c.now) && After(Stored(s, key), c.now - c.window) == [] then [] else Stored(s, key)
  {
    hide After, Valid, Admits;
  }

  /** A call on another key keeps the agreement on the key's window if and only if it does not forget. */
  lemma OtherCallForgets(s: Limiter, c: Call, key: string, history: seq<int>, limit: int, window: int)
    requires Agrees(Stored(s, key), history, limit, c.now - window) && c.key != key
    ensures Agrees(Stored(Next(s, c), key), history, limit, c.now - window) <==> !Forgets(s, c, key, window)
  {
    OtherCallEffect(s, c, key);
    hide Next;
    var stored := Stored(s, key);
    var cut := c.now - window;
    assert After(stored, cut) == After(history, cut);
    AfterNil(cut);
    if SweepDue(s, c.now) && After(stored, c.now - c.window) == [] && After(stored, cut) == [] {
      forall cutoff | cutoff >= cut ensures After([], cutoff) == After(history, cutoff) {
        AfterNil(cutoff);
        AfterAfter(stored, cut, cutoff);
      }
    }
  }

  /** A call on the key itself. */
  lemma OwnCallAgrees(s: Limiter, c: Call, history: seq<int>)
    requires Agrees(Stored(s, c.key), history, c.limit, c.now - c.window)
    ensures Admits(s, c) <==> |After(history, c.now - c.window)| < c.limit
    ensures Agrees(Stored(Next(s, c), c.key), if Admits(s, c) then history + [c.now] else history,
                   c.limit, c.now - c.window)
  {
    hide *;
    var cut := c.now - c.window;
    var stored := Stored(Swept(s, c), c.key);
    OwnSweepAgrees(s, c, history, cut);
    AfterAfter(stored, cut, cut);
    FilteredAgrees(stored, history, c.now, c.limit, cut);
    AgreesAt(stored, history, c.limit, cut);
    AfterNil(cut);
    ValidIs(s, c);
    StoredNext(s, c);
  }

  lemma ValidIs(s: Limiter, c: Call)
    ensures var live := After(Stored(Swept(s, c), c.key), c.now - c.window);
            |live| <= c.limit || live == [] ==> Valid(s, c) == live
    ensures Admits(s, c) <==> |Valid(s, c)| < c.limit
  {
    hide After, Swept, Stored;
  }

  lemma StoredNext(s: Limiter, c: Call)
    ensures Stored(Next(s, c), c.key) == if Admits(s, c) then Valid(s, c) + [c.now] else Valid(s, c)
  {
    hide Valid;
  }

  lemma AgreesAt(stored: seq<int>, history: seq<int>, limit: int, from: int)
    requires Agrees(stored, history, limit, from)
    ensures After(stored, from) == After(history, from) && (|stored| <= limit || stored == [])
  {
  }

  /** Filtering an entry and recording a new admission keeps the agreement. */
  lemma FilteredAgrees(stored: seq<int>, history: seq<int>, now: int, limit: int, cut: int)
    requires Agrees(stored, history, limit, cut)
    ensures Agrees(After(stored, cut), history, limit, cut)
    ensures |After(stored, cut)| < limit ==> Agrees(After(stored, cut) + [now], history + [now], limit, cut)
  {
    var valid := After(stored, cut);
    AfterAfter(stored, cut, cut);
    forall cutoff | cutoff >= cut
      ensures After(valid, cutoff) == After(history, cutoff)
      ensures After(valid + [now], cutoff) == After(history + [now], cutoff)
    {
      AfterAfter(stored, cut, cutoff);
      AfterConcat(valid, [now], cutoff);
      AfterConcat(history, [now], cutoff);
    }
    hide After;
    AfterNil(cut);
  }

  lemma RuledPrefix(calls: seq<Call>, key: string, limit: int, window: int)
    requires Ruled(calls, key, limit, window) && calls != []
    ensures Ruled(calls[..|calls| - 1], key, limit, window)
    ensures |calls| > 1 ==> calls[|calls| - 2].now <= calls[|calls| - 1].now
    ensures var c := calls[|calls| - 1]; c.key == key ==> c.limit == limit && c.window == window
  {
  }

  lemma ForgottenPrefix(calls: seq<Call>, c: Call, key: string, window: int)
    ensures NothingForgotten(calls + [c], key, window)
       <==> NothingForgotten(calls, key, window) && !Forgets(Run(calls), c, key, window)
  {
    hide Run, Forgets;
    assert forall k | 0 <= k <= |calls| :: (calls + [c])[..k] == calls[..k];
    assert calls[..|calls|] == calls;
  }

  lemma AgreesLater(stored: seq<int>, history: seq<int>, limit: int, from: int, later: int)
    requires Agrees(stored, history, limit, from) && from <= later
    ensures Agrees(stored, history, limit, later)
  {
  }

  /** As long as nothing is forgotten, entry and history agree on everything a call can still ask for. */
  lemma {:induction false} RunAgrees(calls: seq<Call>, key: string, limit: int, window: int, from: int)
    requires Ruled(calls, key, limit, window) && NothingForgotten(calls, key, window)
    requires calls != [] ==> calls[|calls| - 1].now - window <= from
    ensures Agrees(Stored(Run(calls), key), History(calls, key), limit, from)
  {
    hide *;
    if calls == [] {
      NothingStored(key, limit, from);
    } else {
      var before, c := calls[..|calls| - 1], calls[|calls| - 1];
      assert calls == before + [c];
      RuledPrefix(calls, key, limit, window);
      ForgottenPrefix(before, c, key, window);
      RunAgrees(before, key, limit, window, c.now - window);
      RunSnoc(before, c, key);
      assert History(before, key) + [] == History(before, key);
      if c.key == key {
        OwnCallAgrees(Run(before), c, History(before, key));
      } else {
        OtherCallForgets(Run(before), c, key, History(before, key), limit, window);
      }
      AgreesLater(Stored(Run(calls), key), History(calls, key), limit, c.now - window, from);
    }
  }

  lemma NothingStored(key: string, limit: int, from: int)
    ensures Agrees(Stored(Run([]), key), History([], key), limit, from)
  {
  }

  /**
   * The limiter refines the full-history sliding window, whatever limits and windows other keys use, for as
   * long as no call forgets: a call is admitted iff fewer than limit admissions lie in (now - window, now].
   * An entry never holds more than limit times.
   */
  lemma {:induction false} AllowIsSlidingWindow(calls: seq<Call>, c: Call)
    requires Ruled(calls + [c], c.key, c.limit, c.window) && NothingForgotten(calls, c.key, c.window)
    ensures Admits(Run(calls), c) <==> |After(History(calls, c.key), c.now - c.window)| < c.limit
    ensures |Stored(Run(calls), c.key)| <= (if c.limit > 0 then c.limit else 0)
  {
    RuledPrefix(calls + [c], c.key, c.limit, c.window);
    assert (calls + [c])[..|calls|] == calls;
    assert calls != [] ==> (calls + [c])[|calls| - 1] == calls[|calls| - 1];
    hide After, Next, Admits, Ruled, NothingForgotten;
    RunAgrees(calls, c.key, c.limit, c.window, c.now - c.window);
    OwnCallAgrees(Run(calls), c, History(calls, c.key));
  }

  /** A call without a shorter window forgets nothing, whatever the state. */
  lemma LongerWindowForgetsNothing(s: Limiter, c: Call, key: string, window: int)
    requires c.window >= window
    ensures !Forgets(s, c, key, window)
  {
    AfterAfter(Stored(s, key), c.now - c.window, c.now - window);
    hide After;
    AfterNil(c.now - window);
  }

  /** In a run without forgetting, the next call forgets exactly if entry and history then disagree on the window. */
  lemma {:induction false} ForgettingDisagrees(calls: seq<Call>, c: Call, key: string, limit: int, window: int)
    requires Ruled(calls + [c], key, limit, window) && NothingForgotten(calls, key, window)
    ensures Forgets(Run(calls), c, key, window)
       <==> !Agrees(Stored(Run(calls + [c]), key), History(calls + [c], key), limit, c.now - window)
  {
    RuledPrefix(calls + [c], key, limit, window);
    assert (calls + [c])[..|calls|] == calls;
    assert calls != [] ==> (calls + [c])[|calls| - 1] == calls[|calls| - 1];
    hide After, Next, Admits, Ruled, NothingForgotten, Agrees;
    RunAgrees(calls, key, limit, window, c.now - window);
    assert History(calls, key) + [] == History(calls, key);
    if c.key == key {
      OwnCallAgrees(Run(calls), c, History(calls, key));
    } else {
      OtherCallForgets(Run(calls), c, key, History(calls, key), limit, window);
    }
  }

  // ---- no window is ever overfull ----

  /** How many of ts lie in (end - window, end]. */
  function InWindow(ts: seq<int>, end: int, window: int): nat {
    if ts == [] then 0
    else InWindow(ts[..|ts| - 1], end, window) + if end - window < ts[|ts| - 1] <= end then 1 else 0
  }

  lemma {:induction false} InWindowBound(ts: seq<int>, end: int, window: int, cutoff: int)
    requires cutoff <= end - window
    ensures InWindow(ts, end, window) <= |After(ts, cutoff)|
  {
    if ts != [] {
      InWindowBound(ts[..|ts| - 1], end, window, cutoff);
    }
  }

  lemma {:induction false} AdmissionFits(calls: seq<Call>, c: Call, end: int)
    requires Ruled(calls + [c], c.key, c.limit, c.window) && NothingForgotten(calls, c.key, c.window)
    requires Admits(Run(calls), c) && c.now <= end
    ensures InWindow(History(calls, c.key), end, c.window) < c.limit
  {
    hide Ruled, NothingForgotten, Admits, After, InWindow;
    AllowIsSlidingWindow(calls, c);
    InWindowBound(History(calls, c.key), end, c.window, c.now - c.window);
  }

  lemma InWindowSnoc(ts: seq<int>, t: int, end: int, window: int)
    ensures InWindow(ts + [t], end, window)
         == InWindow(ts, end, window) + if end - window < t <= end then 1 else 0
  {
    assert (ts + [t])[..|ts|] == ts;
  }

  /** As long as nothing is forgotten, no half-open interval of length window holds more than limit admissions. */
  lemma {:induction false} NoWindowOverfull(calls: seq<Call>, key: string, limit: int, window: int, end: int)
    requires Ruled(calls, key, limit, window) && NothingForgotten(calls, key, window)
    ensures InWindow(History(calls, key), end, window) <= if limit > 0 then limit else 0
  {
    if calls != [] {
      var before, c := calls[..|calls| - 1], calls[|calls| - 1];
      assert before + [c] == calls;
      RuledPrefix(calls, key, limit, window);
      ForgottenPrefix(before, c, key, window);
      hide Ruled, NothingForgotten, Forgets, Admits, After, InWindow;
      NoWindowOverfull(before, key, limit, window, end);
      assert History(before, key) + [] == History(before, key);
      InWindowSnoc(History(before, key), c.now, end, window);
      if c.key == key && Admits(Run(before), c) && c.now <= end {
        AdmissionFits(before, c, end);
      }
    }
  }

  // ---- what forgetting does ----

  /** n calls on the key at one instant. */
  function Burst(key: string, limit: int, window: int, now: int, n: nat): seq<Call> {
    if n == 0 then [] else Burst(key, limit, window, now, n - 1) + [Call(key, limit, window, now)]
  }

  /** Nothing stored but n times `now`, and no sweep due. */
  predicate Refilled(s: Limiter, key: string, now: int, n: nat) {
    Stored(s, key) == Times(now, n) && s.lastSweep == Some(now)
  }

  function Times(now: int, n: nat): (ts: seq<int>)
    ensures |ts| == n
  {
    seq(n, _ => now)
  }

  lemma {:induction false} AfterTimes(now: int, n: nat, cutoff: int)
    requires cutoff < now
    ensures After(Times(now, n), cutoff) == Times(now, n)
  {
    if n > 0 {
      assert Times(now, n)[..n - 1] == Times(now, n - 1);
      AfterTimes(now, n - 1, cutoff);
      assert Times(now, n - 1) + [now] == Times(now, n);
    }
  }

  lemma RefillOne(s: Limiter, key: string, limit: int, window: int, now: int, n: nat)
    requires Refilled(s, key, now, n) && n < limit && window > 0
    ensures var c := Call(key, limit, window, now);
            Admits(s, c) && Refilled(Next(s, c), key, now, n + 1)
  {
    var c := Call(key, limit, window, now);
    AfterTimes(now, n, now - window);
    assert Swept(s, c) == s;
    ValidIs(s, c);
    StoredNext(s, c);
    assert Times(now, n) + [now] == Times(now, n + 1);
    hide After, Valid, Stored;
  }

  lemma NextSweepTime(s: Limiter, c: Call)
    ensures Next(s, c).lastSweep == if SweepDue(s, c.now) then Some(c.now) else s.lastSweep
  {
    hide After, Valid;
  }

  /** After the entry was deleted, a whole burst of limit calls is admitted. */
  lemma {:induction false} BurstAdmitted(calls: seq<Call>, key: string, limit: int, window: int, now: int, n: nat)
    requires Refilled(Run(calls), key, now, 0) && n <= limit && window > 0
    ensures var all := calls + Burst(key, limit, window, now, n);
            Refilled(Run(all), key, now, n) && History(all, key) == History(calls, key) + Times(now, n)
  {
    hide *;
    BurstUnfold(calls, key, limit, window, now, n);
    TimesGrow(History(calls, key), now, n);
    if n > 0 {
      var before := calls + Burst(key, limit, window, now, n - 1);
      var c := Call(key, limit, window, now);
      BurstAdmitted(calls, key, limit, window, now, n - 1);
      RefillOne(Run(before), key, limit, window, now, n - 1);
      RunSnoc(before, c, key);
    }
  }

  lemma BurstUnfold(calls: seq<Call>, key: string, limit: int, window: int, now: int, n: nat)
    ensures n == 0 ==> calls + Burst(key, limit, window, now, n) == calls
    ensures n > 0 ==> calls + Burst(key, limit, window, now, n) ==
                      calls + Burst(key, limit, window, now, n - 1) + [Call(key, limit, window, now)]
  {
  }

  lemma TimesGrow(ts: seq<int>, now: int, n: nat)
    ensures n == 0 ==> ts + Times(now, n) == ts
    ensures n > 0 ==> ts + Times(now, n) == ts + Times(now, n - 1) + [now]
  {
  }

  lemma {:induction false} HistoryPast(calls: seq<Call>, key: string, now: int)
    requires forall i :: 0 <= i < |calls| ==> calls[i].now <= now
    ensures forall i :: 0 <= i < |History(calls, key)| ==> History(calls, key)[i] <= now
  {
    hide Admits;
    if calls != [] {
      HistoryPast(calls[..|calls| - 1], key, now);
    }
  }

  lemma {:induction false} InWindowOfPast(ts: seq<int>, now: int, window: int)
    requires forall i :: 0 <= i < |ts| ==> ts[i] <= now
    ensures InWindow(ts, now, window) == |After(ts, now - window)|
  {
    if ts != [] {
      InWindowOfPast(ts[..|ts| - 1], now, window);
    }
  }

  lemma {:induction false} InWindowTimes(ts: seq<int>, now: int, window: int, n: nat)
    requires window > 0
    ensures InWindow(ts + Times(now, n), now, window) == InWindow(ts, now, window) + n
  {
    hide InWindow;
    if n == 0 {
      assert ts + Times(now, 0) == ts;
    } else {
      InWindowTimes(ts, now, window, n - 1);
      InWindowSnoc(ts + Times(now, n - 1), now, now, window);
      assert ts + Times(now, n - 1) + [now] == ts + Times(now, n);
    }
  }

  lemma {:induction false} AfterSome(ts: seq<int>, now: int, cutoff: int)
    requires After(ts, cutoff) != [] && forall i :: 0 <= i < |ts| ==> ts[i] <= now
    ensures cutoff < now
  {
    if ts[|ts| - 1] <= cutoff {
      AfterSome(ts[..|ts| - 1], now, cutoff);
    }
  }

  /** A forgetting call finds live admissions in the history. */
  lemma ForgottenLive(calls: seq<Call>, c: Call, key: string, limit: int, window: int)
    requires Ruled(calls, key, limit, window) && NothingForgotten(calls, key, window)
    requires forall i :: 0 <= i < |calls| ==> calls[i].now <= c.now
    requires Forgets(Run(calls), c, key, window)
    ensures limit > 0 && window > 0 && InWindow(History(calls, key), c.now, window) > 0
  {
    hide *;
    HistoryPast(calls, key, c.now);
    RunAgrees(calls, key, limit, window, c.now - window);
    AgreesAt(Stored(Run(calls), key), History(calls, key), limit, c.now - window);
    ForgetsMeans(Run(calls), c, key, window);
    EntryBound(Stored(Run(calls), key), limit);
    AfterSome(History(calls, key), c.now, c.now - window);
    InWindowOfPast(History(calls, key), c.now, window);
  }

  lemma EntryBound(stored: seq<int>, limit: int)
    ensures stored != [] && |stored| <= limit ==> limit > 0
  {
  }

  /** What it leaves: an empty entry, and the history as it was. */
  lemma ForgottenState(calls: seq<Call>, c: Call, key: string, window: int)
    requires Forgets(Run(calls), c, key, window)
    ensures Refilled(Run(calls + [c]), key, c.now, 0) && History(calls + [c], key) == History(calls, key)
  {
    hide *;
    ForgetsMeans(Run(calls), c, key, window);
    RunSnoc(calls, c, key);
  }

  lemma PastCalls(calls: seq<Call>, c: Call, key: string, limit: int, window: int)
    requires Ruled(calls + [c], key, limit, window)
    ensures Ruled(calls, key, limit, window)
    ensures forall i :: 0 <= i < |calls| ==> calls[i].now <= c.now
  {
    var all := calls + [c];
    assert all[|calls|] == c;
    forall i | 0 <= i < |calls| ensures calls[i].now <= c.now {
      assert calls[i] == all[i] && all[i].now <= all[|calls|].now;
    }
    forall i, j | 0 <= i <= j < |calls| ensures calls[i].now <= calls[j].now {
      assert calls[i] == all[i] && calls[j] == all[j];
    }
    forall i | 0 <= i < |calls| && calls[i].key == key ensures calls[i].limit == limit && calls[i].window == window {
      assert calls[i] == all[i];
    }
  }

  lemma ForgetsMeans(s: Limiter, c: Call, key: string, window: int)
    requires Forgets(s, c, key, window)
    ensures c.key != key && Refilled(Next(s, c), key, c.now, 0) && Stored(s, key) != []
    ensures After(Stored(s, key), c.now - window) != []
  {
    OtherCallEffect(s, c, key);
    NextSweepTime(s, c);
    AfterNil(c.now - window);
    hide Next, After;
  }

  lemma {:induction false} BurstRuled(calls: seq<Call>, key: string, limit: int, window: int, now: int, n: nat)
    requires Ruled(calls, key, limit, window) && NothingForgotten(calls, key, window)
    requires calls != [] && calls[|calls| - 1].now == now
    ensures var all := calls + Burst(key, limit, window, now, n);
            && Ruled(all, key, limit, window) && NothingForgotten(all, key, window)
            && all != [] && all[|all| - 1].now == now
  {
    hide *;
    BurstUnfold(calls, key, limit, window, now, n);
    if n > 0 {
      BurstRuled(calls, key, limit, window, now, n - 1);
      var before, c := calls + Burst(key, limit, window, now, n - 1), Call(key, limit, window, now);
      RuledSnoc(before, c, key, limit, window);
      ForgottenPrefix(before, c, key, window);
      OwnCallForgetsNothing(Run(before), c, window);
    }
  }

  lemma OwnCallForgetsNothing(s: Limiter, c: Call, window: int)
    ensures !Forgets(s, c, c.key, window)
  {
  }

  lemma RuledSnoc(calls: seq<Call>, c: Call, key: string, limit: int, window: int)
    requires Ruled(calls, key, limit, window) && calls != [] && calls[|calls| - 1].now <= c.now
    requires c.key == key && c.limit == limit && c.window == window
    ensures Ruled(calls + [c], key, limit, window)
  {
  }

  /**
   * Forgetting is exactly what breaks the limit. In a run without it, the next call forgets iff calls on the
   * key alone, made right after it, can fill some window with more than limit admissions.
   */
  lemma {:induction false} ForgettingIsWhatOverfills(calls: seq<Call>, c: Call, key: string, limit: int, window: int)
    requires Ruled(calls + [c], key, limit, window) && NothingForgotten(calls, key, window)
    ensures Forgets(Run(calls), c, key, window)
       <==> exists n, end :: Overfull(calls + [c] + Burst(key, limit, window, c.now, n), key, limit, window, end)
  {
    hide Run, History, InWindow, Ruled, NothingForgotten, Forgets, Refilled, After;
    if Forgets(Run(calls), c, key, window) {
      PastCalls(calls, c, key, limit, window);
      ForgottenLive(calls, c, key, limit, window);
      ForgottenState(calls, c, key, window);
      BurstAdmitted(calls + [c], key, limit, window, c.now, limit);
      InWindowTimes(History(calls + [c], key), c.now, window, limit);
      assert Overfull(calls + [c] + Burst(key, limit, window, c.now, limit), key, limit, window, c.now);
    } else {
      ForgottenPrefix(calls, c, key, window);
      forall n: nat, end: int
        ensures !Overfull(calls + [c] + Burst(key, limit, window, c.now, n), key, limit, window, end)
      {
        BurstRuled(calls + [c], key, limit, window, c.now, n);
        NoWindowOverfull(calls + [c] + Burst(key, limit, window, c.now, n), key, limit, window, end);
      }
    }
  }

  predicate Overfull(calls: seq<Call>, key: string, limit: int, window: int, end: int) {
    InWindow(History(calls, key), end, window) > if limit > 0 then limit else 0
  }

  lemma RunSnoc(calls: seq<Call>, c: Call, key: string)
    ensures Run([]) == Empty && History([], key) == []
    ensures Run(calls + [c]) == Next(Run(calls), c)
    ensures History(calls + [c], key)
         == History(calls, key) + if c.key == key && Admits(Run(calls), c) then [c.now] else []
  {
    assert (calls + [c])[..|calls|] == calls;
  }

  /**
   * With the windows in use (one hour for applying an update, one minute elsewhere on the same limiter) the
   * hourly limit of 2 fails: two admissions, a minute later any other call, and a third is admitted.
   */
  lemma HourlyLimitForgotten()
    ensures var calls := [Call("update-apply", 2, HOUR, 0), Call("update-apply", 2, HOUR, 1),
                          Call("errors", 30, MINUTE, 2 * MINUTE)];
            && History(calls, "update-apply") == [0, 1]
            && Admits(Run(calls), Call("update-apply", 2, HOUR, 2 * MINUTE))
  {
    TwoAdmittedThenForgotten("update-apply", "errors", 30);
  }

  lemma TwoAdmittedThenForgotten(k: string, other: string, limit: int)
    requires other != k
    ensures var calls := [Call(k, 2, HOUR, 0), Call(k, 2, HOUR, 1), Call(other, limit, MINUTE, 2 * MINUTE)];
            && History(calls, k) == [0, 1] && Admits(Run(calls), Call(k, 2, HOUR, 2 * MINUTE))
  {
    var c0, c1, c2 := Call(k, 2, HOUR, 0), Call(k, 2, HOUR, 1), Call(other, limit, MINUTE, 2 * MINUTE);
    assert [] + [c0] == [c0] && [c0] + [c1] == [c0, c1] && [c0, c1] + [c2] == [c0, c1, c2];
    hide *;
    RunSnoc([], c0, k);
    RunSnoc([c0], c1, k);
    RunSnoc([c0, c1], c2, k);
    FirstAdmission(k, 2, HOUR);
    SecondAdmission(Run([c0]), k, HOUR);
    assert [] + [0] == [0] && [0] + [1] == [0, 1] && [0, 1] + [] == [0, 1];
    ForgottenAfterAMinute(Run([c0, c1]), k, other, limit);
  }

  lemma FirstAdmission(k: string, limit: int, window: int)
    requires limit > 0
    ensures var c := Call(k, limit, window, 0);
            Admits(Empty, c) && Stored(Next(Empty, c), k) == [0] && Next(Empty, c).lastSweep == Some(0)
  {
    var c := Call(k, limit, window, 0);
    assert Stored(Swept(Empty, c), k) == [] && SweepDue(Empty, c.now);
    hide *;
    AfterNil(0 - window);
    ValidIs(Empty, c);
    StoredNext(Empty, c);
    NextSweepTime(Empty, c);
    assert [] + [0] == [0];
  }

  lemma SecondAdmission(s: Limiter, k: string, window: int)
    requires Stored(s, k) == [0] && s.lastSweep == Some(0) && window > 1
    ensures var c := Call(k, 2, window, 1);
            Admits(s, c) && Stored(Next(s, c), k) == [0, 1] && Next(s, c).lastSweep == Some(0)
  {
    var c := Call(k, 2, window, 1);
    assert Swept(s, c) == s && !SweepDue(s, c.now);
    hide *;
    AfterOne(0, 1 - window);
    ValidIs(s, c);
    StoredNext(s, c);
    NextSweepTime(s, c);
    assert [0] + [1] == [0, 1];
  }

  lemma ForgottenAfterAMinute(s: Limiter, k: string, other: string, limit: int)
    requires Stored(s, k) == [0, 1] && s.lastSweep == Some(0) && other != k
    ensures Admits(Next(s, Call(other, limit, MINUTE, 2 * MINUTE)), Call(k, 2, HOUR, 2 * MINUTE))
  {
    var c, again := Call(other, limit, MINUTE, 2 * MINUTE), Call(k, 2, HOUR, 2 * MINUTE);
    AfterOne(0, MINUTE);
    AfterOne(1, MINUTE);
    AfterConcat([0], [1], MINUTE);
    assert [0] + [1] == [0, 1];
    OtherCallEffect(s, c, k);
    NextSweepTime(s, c);
    hide After, Next;
    var t := Next(s, c);
    assert Stored(t, k) == [] && Swept(t, again) == t;
    AfterNil(2 * MINUTE - HOUR);
    ValidIs(t, again);
  }

  // ---- idle keys ----

  /** No sweep ever happened later than the last call. */
  predicate SweptBefore(s: Limiter, now: int) {
    s.lastSweep.Some? ==> s.lastSweep.value <= now
  }

  lemma {:induction false} SweepsInThePast(calls: seq<Call>)
    requires forall i, j :: 0 <= i <= j < |calls| ==> calls[i].now <= calls[j].now
    ensures calls != [] ==> SweptBefore(Run(calls), calls[|calls| - 1].now) && Run(calls).lastSweep.Some?
  {
    if calls != [] {
      hide Next;
      var n := |calls| - 1;
      SweepsInThePast(calls[..n]);
      NextSweepTime(Run(calls[..n]), calls[n]);
    }
  }

  lemma KeysAfter(s: Limiter, c: Call, key: string)
    requires c.key != key
    ensures key in Next(s, c).limits <==>
              key in s.limits && !(SweepDue(s, c.now) && After(s.limits[key], c.now - c.window) == [])
    ensures key in Next(s, c).limits ==> Next(s, c).limits[key] == s.limits[key]
  {
    hide After, Valid, Admits;
  }

  /**
   * Idle keys go: a call that comes more than a minute after the one before it leaves no other key whose times
   * are all older than its own window.
   */
  lemma {:induction false} IdleKeysDropped(calls: seq<Call>, c: Call, key: string)
    requires forall i, j :: 0 <= i <= j < |calls| ==> calls[i].now <= calls[j].now
    requires calls != [] ==> c.now - calls[|calls| - 1].now > 60_000_000_000
    requires key != c.key && key in Next(Run(calls), c).limits
    ensures After(Next(Run(calls), c).limits[key], c.now - c.window) != []
  {
    SweepsInThePast(calls);
    if calls == [] {
      assert Run([]) == Empty;
    }
    hide Run, After, Next;
    KeysAfter(Run(calls), c, key);
  }

  /** And no more than one call a minute drops any: after a call that did, those within a minute drop none. */
  lemma {:induction false} OneSweepAMinute(s: Limiter, c: Call, later: seq<Call>, gone: string, key: string)
    requires gone != c.key && gone in s.limits && gone !in Next(s, c).limits
    requires forall i :: 0 <= i < |later| ==> later[i].now - c.now <= 60_000_000_000
    requires key in Next(s, c).limits
    ensures var t := RunFrom(Next(s, c), later); key in t.limits && t.lastSweep == Some(c.now)
  {
    hide After, Next;
    if later == [] {
      KeysAfter(s, c, gone);
      NextSweepTime(s, c);
    } else {
      var n := |later| - 1;
      OneSweepAMinute(s, c, later[..n], gone, key);
      var t := RunFrom(Next(s, c), later[..n]);
      NextSweepTime(t, later[n]);
      if later[n].key == key {
        OwnKeyStays(t, later[n]);
      } else {
        KeysAfter(t, later[n], key);
      }
    }
  }

  lemma OwnKeyStays(s: Limiter, c: Call)
    ensures c.key in Next(s, c).limits
  {
    hide After, Valid, Admits;
  }

  function RunFrom(s: Limiter, calls: seq<Call>): Limiter {
    if calls == [] then s else Next(RunFrom(s, calls[..|calls| - 1]), calls[|calls| - 1])
  }
}
