/** What the risk checks guarantee: a bound on approvals in every window of one second, and the exact set of acceptable prices. */
module RiskRules {
  import opened Types
  import opened RiskManagers

  // ---------- Every window ----------

  datatype Call = Call(req: RiskRequest, now: int)

  /** How many of `times` lie in the closed interval from `lo` to `hi`. */
  ghost function CountIn(times: seq<int>, lo: int, hi: int): nat {
    if times == [] then 0
    else CountIn(times[..|times| - 1], lo, hi) + (if lo <= times[|times| - 1] <= hi then 1 else 0)
  }

  /** The times at which a run of checks, under fixed limits, approved a request. */
  ghost function ApprovedTimes(s: RiskState, calls: seq<Call>): seq<int> {
    if calls == [] then []
    else
      var call := calls[|calls| - 1];
      var before := ApprovedTimes(s, calls[..|calls| - 1]);
      if Decide(StateAfter(s, calls[..|calls| - 1]), call.req, call.now).1.None? then before + [call.now] else before
  }

  ghost function StateAfter(s: RiskState, calls: seq<Call>): RiskState {
    if calls == [] then s
    else
      var call := calls[|calls| - 1];
      Decide(StateAfter(s, calls[..|calls| - 1]), call.req, call.now).0
  }

  ghost predicate Nondecreasing(calls: seq<Call>) {
    forall i, j | 0 <= i < j < |calls| :: calls[i].now <= calls[j].now
  }

  /** The recorded approvals are the latest ones of `times`: everything dropped is more than a second older than `now`. */
  ghost predicate RecordsLatest(times: seq<int>, recent: seq<int>, now: int) {
    && |recent| <= |times| && recent == times[|times| - |recent|..]
    && (forall i | 0 <= i < |times| - |recent| :: times[i] < now - SECOND)
    && (forall i | 0 <= i < |times| :: times[i] <= now)
  }

  lemma {:induction false} CountSplit(a: seq<int>, b: seq<int>, lo: int, hi: int)
    ensures CountIn(a + b, lo, hi) == CountIn(a, lo, hi) + CountIn(b, lo, hi)
  {
    if b == [] {
      assert a + b == a;
    } else {
      assert (a + b)[..|a + b| - 1] == a + b[..|b| - 1];
      CountSplit(a, b[..|b| - 1], lo, hi);
    }
  }

  lemma {:induction false} CountNone(times: seq<int>, lo: int, hi: int)
    requires forall i | 0 <= i < |times| :: times[i] < lo
    ensures CountIn(times, lo, hi) == 0
  {
    if times != [] { CountNone(times[..|times| - 1], lo, hi); }
  }

  lemma {:induction false} CountAtMost(times: seq<int>, lo: int, hi: int)
    ensures CountIn(times, lo, hi) <= |times|
    ensures (forall i | 0 <= i < |times| :: lo <= times[i] <= hi) ==> CountIn(times, lo, hi) == |times|
  {
    if times != [] { CountAtMost(times[..|times| - 1], lo, hi); }
  }

  /** Dropping from the front keeps the latest approvals, and keeps all of the last second. */
  lemma {:induction false} KeptRecordsLatest(times: seq<int>, recent: seq<int>, last: int, now: int)
    requires RecordsLatest(times, recent, last) && last <= now
    ensures RecordsLatest(times, Kept(recent, now), now)
    decreases |recent|
  {
    if recent != [] && recent[0] < now - SECOND {
      var at := |times| - |recent|;
      assert recent[0] == times[at];
      assert recent[1..] == times[at + 1..];
      KeptRecordsLatest(times, recent[1..], now, now);
    }
  }

  lemma {:induction false} KeptStartsInWindow(recent: seq<int>, now: int)
    ensures var kept := Kept(recent, now); kept != [] ==> kept[0] >= now - SECOND
  {
    if recent != [] && recent[0] < now - SECOND { KeptStartsInWindow(recent[1..], now); }
  }

  ghost predicate Sorted(times: seq<int>) {
    forall i, j | 0 <= i < j < |times| :: times[i] <= times[j]
  }

  /** With a clock that never runs backwards, what is kept is exactly the approvals of the last second. */
  lemma KeptCountsTheWindow(times: seq<int>, recent: seq<int>, last: int, now: int)
    requires RecordsLatest(times, recent, last) && Sorted(times) && last <= now
    ensures |Kept(recent, now)| == CountIn(times, now - SECOND, now)
    ensures RecordsLatest(times, Kept(recent, now), now)
  {
    hide Kept, CountIn;
    KeptRecordsLatest(times, recent, last, now);
    KeptStartsInWindow(recent, now);
    RecordsCountTheWindow(times, Kept(recent, now), now);
  }

  lemma RecordsCountTheWindow(times: seq<int>, kept: seq<int>, now: int)
    requires RecordsLatest(times, kept, now) && Sorted(times) && (kept != [] ==> kept[0] >= now - SECOND)
    ensures |kept| == CountIn(times, now - SECOND, now)
  {
    hide CountIn;
    var n := |times| - |kept|;
    var dropped := times[..n];
    assert times == dropped + kept;
    CountSplit(dropped, kept, now - SECOND, now);
    CountNone(dropped, now - SECOND, now);
    forall i | 0 <= i < |kept| ensures now - SECOND <= kept[i] <= now {
      assert kept[i] == times[n + i] && kept[0] == times[n];
    }
    CountAtMost(kept, now - SECOND, now);
  }

  /** What one more call does to the state and to the approval times. */
  lemma OneMoreCall(s: RiskState, before: seq<Call>, call: Call)
    ensures StateAfter(s, []) == s && ApprovedTimes(s, []) == []
    ensures var (state', error) := Decide(StateAfter(s, before), call.req, call.now);
            && StateAfter(s, before + [call]) == state'
            && ApprovedTimes(s, before + [call]) == ApprovedTimes(s, before) + (if error.None? then [call.now] else [])
  {
    hide Decide;
    assert (before + [call])[..|before|] == before;
  }

  /** Every outcome of a check changes nothing but the recorded approvals, and records an approval at the end of what is kept. */
  lemma DecideKeepsKept(s: RiskState, req: RiskRequest, now: int)
    ensures var (state', error) := Decide(s, req, now);
            && state' == s.(recentOrders := state'.recentOrders)
            && (error.None? ==> state'.recentOrders == Kept(s.recentOrders, now) + [now] && |Kept(s.recentOrders, now)| < s.limits.maxOrdersPerSecond)
            && (error.Some? ==> state'.recentOrders == s.recentOrders || state'.recentOrders == Kept(s.recentOrders, now))
  {
    hide EarlierError, Kept;
  }

  lemma RecordingKeepsRecords(times: seq<int>, kept: seq<int>, now: int)
    requires RecordsLatest(times, kept, now) && Sorted(times)
    ensures RecordsLatest(times + [now], kept + [now], now) && Sorted(times + [now])
  {
    assert times + [now] == times[..|times| - |kept|] + (kept + [now]);
  }

  lemma NothingRecorded(now: int)
    ensures RecordsLatest([], [], now) && Sorted([])
  {}

  /** Later, the recorded approvals still include all of the last second. */
  lemma RecordsLater(times: seq<int>, recent: seq<int>, last: int, now: int)
    requires RecordsLatest(times, recent, last) && last <= now
    ensures RecordsLatest(times, recent, now)
  {}

  /** What a run leaves: sorted approval times, the latest of them recorded, and everything else as it began. */
  lemma {:induction false} RunRecordsLatest(s: RiskState, calls: seq<Call>, now: int)
    requires s.recentOrders == [] && Nondecreasing(calls)
    requires calls != [] ==> calls[|calls| - 1].now <= now
    ensures var times, after := ApprovedTimes(s, calls), StateAfter(s, calls);
            && RecordsLatest(times, after.recentOrders, now) && Sorted(times)
            && after == s.(recentOrders := after.recentOrders)
    decreases |calls|
  {
    hide Decide, Kept, StateAfter, ApprovedTimes, RecordsLatest, Sorted;
    if calls == [] {
      NothingRecorded(now);
      OneMoreCall(s, [], Call(RiskRequest("", Buy, Market, 0, 0), 0));
    } else {
      var n := |calls| - 1;
      var before, call := calls[..n], calls[n];
      assert calls == before + [call];
      assert before != [] ==> before[|before| - 1] == calls[n - 1];
      RunRecordsLatest(s, before, call.now);
      OneMoreCall(s, before, call);
      var times, state := ApprovedTimes(s, before), StateAfter(s, before);
      DecideKeepsRecords(times, state, call);
      RecordsLater(ApprovedTimes(s, calls), StateAfter(s, calls).recentOrders, call.now, now);
    }
  }

  lemma DecideKeepsRecords(times: seq<int>, state: RiskState, call: Call)
    requires RecordsLatest(times, state.recentOrders, call.now) && Sorted(times)
    ensures var (state', error) := Decide(state, call.req, call.now);
            var times' := times + (if error.None? then [call.now] else []);
            RecordsLatest(times', state'.recentOrders, call.now) && Sorted(times') && state' == state.(recentOrders := state'.recentOrders)
  {
    hide Decide, Kept, RecordsLatest, Sorted;
    DecideKeepsKept(state, call.req, call.now);
    KeptRecordsLatest(times, state.recentOrders, call.now, call.now);
    RecordingKeepsRecords(times, Kept(state.recentOrders, call.now), call.now);
    if Decide(state, call.req, call.now).1.Some? {
      assert times + [] == times;
    }
  }

  /** A rate rejection happens exactly when the second ending now already holds as many approvals as allowed; an earlier failure uses no budget. */
  lemma RejectsIffWindowIsFull(s: RiskState, calls: seq<Call>, req: RiskRequest, now: int)
    requires s.recentOrders == [] && Nondecreasing(calls)
    requires calls != [] ==> calls[|calls| - 1].now <= now
    ensures var state := StateAfter(s, calls);
            var (state', error) := Decide(state, req, now);
            && (EarlierError(state, req).Some? ==> state' == state && error == EarlierError(state, req))
            && (EarlierError(state, req).None? ==>
                  (error == Some(RiskBreachRateLimit) <==>
                     CountIn(ApprovedTimes(s, calls), now - SECOND, now) >= s.limits.maxOrdersPerSecond)
                  && (error != Some(RiskBreachRateLimit) ==> error == None))
  {
    hide EarlierError, Kept, StateAfter, ApprovedTimes;
    RunRecordsLatest(s, calls, now);
    KeptCountsTheWindow(ApprovedTimes(s, calls), StateAfter(s, calls).recentOrders, now, now);
  }

  /** The bound: over any run with a clock that never runs backwards, every closed window of one second holds at most the allowed number of approvals. */
  lemma {:induction false} EveryWindowIsBounded(s: RiskState, calls: seq<Call>, start: int)
    requires s.recentOrders == [] && Nondecreasing(calls)
    ensures CountIn(ApprovedTimes(s, calls), start, start + SECOND) <= Max(0, s.limits.maxOrdersPerSecond)
  {
    hide Decide, StateAfter, ApprovedTimes;
    if calls == [] {
      OneMoreCall(s, [], Call(RiskRequest("", Buy, Market, 0, 0), 0));
    } else {
      var n := |calls| - 1;
      var before, call := calls[..n], calls[n];
      assert calls == before + [call];
      EveryWindowIsBounded(s, before, start);
      RunRecordsLatest(s, before, call.now);
      OneMoreCall(s, before, call);
      assert ApprovedTimes(s, before) + [] == ApprovedTimes(s, before);
      LastWindowIsBounded(ApprovedTimes(s, before), StateAfter(s, before), call, start);
    }
  }

  /** The window that a new approval falls into: all its other approvals are still recorded. */
  lemma LastWindowIsBounded(times: seq<int>, state: RiskState, call: Call, start: int)
    requires RecordsLatest(times, state.recentOrders, call.now) && Sorted(times)
    requires CountIn(times, start, start + SECOND) <= Max(0, state.limits.maxOrdersPerSecond)
    ensures Decide(state, call.req, call.now).1.None? ==>
              CountIn(times + [call.now], start, start + SECOND) <= Max(0, state.limits.maxOrdersPerSecond)
  {
    hide Decide, Kept;
    DecideKeepsKept(state, call.req, call.now);
    var kept := Kept(state.recentOrders, call.now);
    KeptRecordsLatest(times, state.recentOrders, call.now, call.now);
    assert (times + [call.now])[..|times|] == times;
    if start <= call.now <= start + SECOND {
      RecentWindow(times, start, start + SECOND, kept, call.now);
    }
  }

  /** Every approval of a window that reaches up to now is among the recorded ones. */
  lemma RecentWindow(times: seq<int>, lo: int, hi: int, kept: seq<int>, now: int)
    requires RecordsLatest(times, kept, now) && lo >= now - SECOND
    ensures CountIn(times, lo, hi) <= |kept|
  {
    var dropped := times[..|times| - |kept|];
    assert times == dropped + kept;
    CountSplit(dropped, kept, lo, hi);
    CountNone(dropped, lo, hi);
    CountAtMost(kept, lo, hi);
  }

  // ---------- Clocks that step back ----------

  ghost predicate WindowBounded(s: RiskState, calls: seq<Call>, start: int) {
    CountIn(ApprovedTimes(s, calls), start, start + SECOND) <= Max(0, s.limits.maxOrdersPerSecond)
  }

  lemma RecentIsIrrelevant(a: RiskState, b: RiskState, req: RiskRequest)
    requires b == a.(recentOrders := b.recentOrders)
    ensures EarlierError(a, req) == EarlierError(b, req)
  {}

  function Repeated<T>(x: T, n: nat): seq<T> {
    seq(n, _ => x)
  }

  /** As many requests at time `a` as the limit allows, then one at `hi`, and one after the clock stepped back to `lo`. */
  function BackwardRun(req: RiskRequest, limit: nat, a: int, hi: int, lo: int): seq<Call> {
    Repeated(Call(req, a), limit) + [Call(req, hi)] + [Call(req, lo)]
  }

  lemma {:induction false} KeptNothing(recent: seq<int>, now: int)
    requires forall i | 0 <= i < |recent| :: recent[i] < now - SECOND
    ensures Kept(recent, now) == []
  {
    if recent != [] { KeptNothing(recent[1..], now); }
  }

  /** A limit's worth of requests at one time is approved. */
  lemma {:induction false} RepeatedAreApproved(s: RiskState, req: RiskRequest, a: int, k: nat)
    requires s.recentOrders == [] && EarlierError(s, req).None? && k <= s.limits.maxOrdersPerSecond
    ensures StateAfter(s, Repeated(Call(req, a), k)) == s.(recentOrders := Repeated(a, k))
    ensures ApprovedTimes(s, Repeated(Call(req, a), k)) == Repeated(a, k)
  {
    hide EarlierError, StateAfter, ApprovedTimes;
    var call := Call(req, a);
    if k == 0 {
      assert Repeated(call, 0) == [] && Repeated(a, 0) == [];
      OneMoreCall(s, [], call);
    } else {
      RepeatedAreApproved(s, req, a, k - 1);
      assert Repeated(call, k) == Repeated(call, k - 1) + [call] && Repeated(a, k) == Repeated(a, k - 1) + [a];
      OneMoreCall(s, Repeated(call, k - 1), call);
      var state := s.(recentOrders := Repeated(a, k - 1));
      RecentIsIrrelevant(s, state, req);
      assert Kept(state.recentOrders, a) == state.recentOrders;
    }
  }

  /** The run with the clock stepping back from `hi` to `lo`: one approval more than allowed from `a` on. */
  lemma BackwardRunIsApproved(s: RiskState, req: RiskRequest, a: int, hi: int, lo: int)
    requires s.recentOrders == [] && EarlierError(s, req).None? && s.limits.maxOrdersPerSecond >= 2
    requires a <= lo <= a + SECOND < hi
    ensures ApprovedTimes(s, BackwardRun(req, s.limits.maxOrdersPerSecond, a, hi, lo))
         == Repeated(a, s.limits.maxOrdersPerSecond) + [hi] + [lo]
  {
    hide EarlierError, StateAfter, ApprovedTimes;
    var limit := s.limits.maxOrdersPerSecond;
    var first := Repeated(Call(req, a), limit);
    var s1, s2 := s.(recentOrders := Repeated(a, limit)), s.(recentOrders := [hi]);
    RepeatedAreApproved(s, req, a, limit);
    RecentIsIrrelevant(s, s1, req);
    KeptNothing(s1.recentOrders, hi);
    OneMoreCall(s, first, Call(req, hi));
    assert [] + [hi] == [hi];
    RecentIsIrrelevant(s, s2, req);
    OneMoreCall(s, first + [Call(req, hi)], Call(req, lo));
  }

  lemma CountBackward(a: int, n: nat, hi: int, lo: int)
    requires a <= lo <= a + SECOND < hi
    ensures CountIn(Repeated(a, n) + [hi] + [lo], a, a + SECOND) == n + 1
  {
    hide CountIn;
    CountSplit(Repeated(a, n) + [hi], [lo], a, a + SECOND);
    CountSplit(Repeated(a, n), [hi], a, a + SECOND);
    CountAtMost(Repeated(a, n), a, a + SECOND);
    CountOne(hi, a, a + SECOND);
    CountOne(lo, a, a + SECOND);
  }

  lemma CountOne(t: int, lo: int, hi: int)
    ensures CountIn([t], lo, hi) == if lo <= t <= hi then 1 else 0
  {
    assert [t][..0] == [];
  }

  /**
  The bound needs the clock: under any limit of two or more, every step back of the clock, from any time to any earlier one,
  breaks it in a run in which the clock does not step back otherwise.
  */
  lemma EveryStepBackBreaksTheBound(s: RiskState, req: RiskRequest, hi: int, lo: int)
    requires s.recentOrders == [] && EarlierError(s, req).None? && s.limits.maxOrdersPerSecond >= 2
    requires lo < hi
    ensures var limit := s.limits.maxOrdersPerSecond;
            var a := Min(lo, hi - SECOND - 1);
            var calls := BackwardRun(req, limit, a, hi, lo);
            && |calls| == limit + 2 && calls[limit].now == hi && calls[limit + 1].now == lo
            && Nondecreasing(calls[..limit + 1])
            && CountIn(ApprovedTimes(s, calls), a, a + SECOND) == limit + 1
  {
    hide EarlierError, CountIn, ApprovedTimes;
    var limit, a := s.limits.maxOrdersPerSecond, Min(lo, hi - SECOND - 1);
    BackwardRunIsApproved(s, req, a, hi, lo);
    CountBackward(a, limit, hi, lo);
  }

  /** For example three approvals in one second under a limit of two. */
  lemma BackwardsClockBreaksTheBound(s: RiskState, req: RiskRequest)
    requires s.recentOrders == [] && s.limits.maxOrdersPerSecond == 2 && EarlierError(s, req).None?
    ensures var calls := [Call(req, 0), Call(req, 0), Call(req, 5 * SECOND), Call(req, SECOND / 2)];
            CountIn(ApprovedTimes(s, calls), 0, SECOND) == 3
  {
    hide EarlierError, CountIn, ApprovedTimes;
    BackwardRunIsApproved(s, req, 0, 5 * SECOND, SECOND / 2);
    CountBackward(0, 2, 5 * SECOND, SECOND / 2);
    assert BackwardRun(req, 2, 0, 5 * SECOND, SECOND / 2)
        == [Call(req, 0), Call(req, 0), Call(req, 5 * SECOND), Call(req, SECOND / 2)];
  }

  /** Any two times are more than a second apart, the later one recorded later. */
  ghost predicate Spaced(times: seq<int>) {
    forall i, j | 0 <= i < j < |times| :: times[i] + SECOND < times[j]
  }

  lemma {:induction false} SpacedCount(times: seq<int>, start: int)
    requires Spaced(times)
    ensures CountIn(times, start, start + SECOND) <= 1
  {
    if times != [] {
      var n := |times| - 1;
      if start <= times[n] <= start + SECOND {
        CountNone(times[..n], start, start + SECOND);
      } else {
        SpacedCount(times[..n], start);
      }
    }
  }

  /** Under a limit of one only the last approval is recorded, and under less there is none. */
  ghost predicate RecordsLast(times: seq<int>, recent: seq<int>, limit: int) {
    if times == [] then recent == []
    else limit == 1 && recent == [times[|times| - 1]] && Spaced(times)
  }

  lemma OneMoreUnderOne(times: seq<int>, state: RiskState, call: Call)
    requires state.limits.maxOrdersPerSecond <= 1 && RecordsLast(times, state.recentOrders, state.limits.maxOrdersPerSecond)
    ensures var (state', error) := Decide(state, call.req, call.now);
            state'.limits == state.limits
            && RecordsLast(times + (if error.None? then [call.now] else []), state'.recentOrders, state.limits.maxOrdersPerSecond)
  {
    hide EarlierError, Kept;
    var recent, kept := state.recentOrders, Kept(state.recentOrders, call.now);
    KeptOfAtMostOne(recent, call.now);
    if Decide(state, call.req, call.now).1.Some? {
      assert times + [] == times;
    } else {
      assert kept == [] && kept + [call.now] == [call.now];
    }
  }

  lemma KeptOfAtMostOne(recent: seq<int>, now: int)
    requires |recent| <= 1
    ensures Kept(recent, now) == if recent != [] && recent[0] < now - SECOND then [] else recent
  {}

  lemma {:induction false} RunUnderOne(s: RiskState, calls: seq<Call>)
    requires s.recentOrders == [] && s.limits.maxOrdersPerSecond <= 1
    ensures StateAfter(s, calls).limits == s.limits
    ensures RecordsLast(ApprovedTimes(s, calls), StateAfter(s, calls).recentOrders, s.limits.maxOrdersPerSecond)
  {
    hide Decide, StateAfter, ApprovedTimes;
    if calls == [] {
      OneMoreCall(s, [], Call(RiskRequest("", Buy, Market, 0, 0), 0));
    } else {
      var n := |calls| - 1;
      assert calls == calls[..n] + [calls[n]];
      RunUnderOne(s, calls[..n]);
      OneMoreCall(s, calls[..n], calls[n]);
      OneMoreUnderOne(ApprovedTimes(s, calls[..n]), StateAfter(s, calls[..n]), calls[n]);
    }
  }

  /** Exactly which limits bound every window whatever the clock does: those of at most one. */
  lemma BoundNeedsNoClockIff(s: RiskState, req: RiskRequest)
    requires s.recentOrders == [] && EarlierError(s, req).None?
    ensures (forall calls, start :: WindowBounded(s, calls, start)) <==> s.limits.maxOrdersPerSecond <= 1
  {
    hide EarlierError, StateAfter, ApprovedTimes, CountIn, BackwardRun;
    var limit := s.limits.maxOrdersPerSecond;
    if limit >= 2 {
      EveryStepBackBreaksTheBound(s, req, 1, 0);
      assert !WindowBounded(s, BackwardRun(req, limit, -SECOND, 1, 0), -SECOND);
    } else {
      forall calls, start ensures WindowBounded(s, calls, start) {
        RunUnderOne(s, calls);
        if ApprovedTimes(s, calls) == [] {
          CountNone([], start, start + SECOND);
        } else {
          SpacedCount(ApprovedTimes(s, calls), start);
        }
      }
    }
  }

  // ---------- Exact price sets ----------

  const INT64_MAX: int := 0x7FFF_FFFF_FFFF_FFFF

  /** How far a price may be from `ref` under a limit in basis points. */
  function Width(ref: Price, bps: int): int {
    ref * bps / 10000
  }

  /** The cross-multiplied comparison is exactly an interval of integers around the reference. */
  lemma CrossMultipliedIsInterval(price: Price, ref: Price, bps: int)
    ensures Abs(price - ref) * 10000 <= ref * bps <==> ref - Width(ref, bps) <= price <= ref + Width(ref, bps)
  {
    ScaledComparison(Abs(price - ref), ref * bps);
  }

  lemma ScaledComparison(diff: int, product: int)
    ensures diff * 10000 <= product <==> diff <= product / 10000
  {}

  /** The exchange's standard tick table. */
  function TseBands(): seq<TickBand> {
    [TickBand(0, 3000, 1), TickBand(3001, 5000, 5), TickBand(5001, 30000, 10), TickBand(30001, 50000, 50),
     TickBand(50001, 300000, 100), TickBand(300001, 500000, 500), TickBand(500001, 3000000, 1000),
     TickBand(3000001, INT64_MAX, 10000)]
  }

  function TseTick(price: Price): Price {
    if price <= 3000 then 1
    else if price <= 5000 then 5
    else if price <= 30000 then 10
    else if price <= 50000 then 50
    else if price <= 300000 then 100
    else if price <= 500000 then 500
    else if price <= 3000000 then 1000
    else 10000
  }

  /** Which row of the table is for a price. */
  function TseRow(price: Price): (k: nat)
    ensures k < 8
  {
    if price <= 3000 then 0 else if price <= 5000 then 1 else if price <= 30000 then 2 else if price <= 50000 then 3
    else if price <= 300000 then 4 else if price <= 500000 then 5 else if price <= 3000000 then 6 else 7
  }

  /** The table partitions the non-negative 64-bit prices: exactly one band contains each, and it has that price's tick. */
  lemma TseBandsArePartition(price: Price)
    requires 0 <= price <= INT64_MAX
    ensures |TseBands()| == 8 && TseBands()[TseRow(price)].tick == TseTick(price)
    ensures forall j | 0 <= j < 8 :: Contains(TseBands()[j], price) <==> j == TseRow(price)
  {
    forall j | 0 <= j < 8 ensures Contains(TseBands()[j], price) <==> j == TseRow(price) {
      if j < 4 { TseLowBands(price, j); } else { TseHighBands(price, j); }
    }
  }

  lemma TseLowBands(price: Price, j: nat)
    requires 0 <= price <= INT64_MAX && j < 4
    ensures Contains(TseBands()[j], price) <==> j == TseRow(price)
  {}

  lemma TseHighBands(price: Price, j: nat)
    requires 0 <= price <= INT64_MAX && 4 <= j < 8
    ensures Contains(TseBands()[j], price) <==> j == TseRow(price)
  {}

  ghost predicate Contains(band: TickBand, price: Price) {
    band.low <= price <= band.high
  }

  /** Band `k` is the first that contains the price, and the price is a multiple of its tick. */
  ghost predicate AcceptedBy(bands: seq<TickBand>, k: nat, price: Price) {
    && k < |bands| && Contains(bands[k], price) && (forall j | 0 <= j < k :: !Contains(bands[j], price))
    && bands[k].tick > 0 && price % bands[k].tick == 0
  }

  lemma {:induction false} TickCheckIsExact(bands: seq<TickBand>, price: Price)
    ensures BandError(bands, price).None? <==> exists k: nat :: AcceptedBy(bands, k, price)
  {
    if bands == [] {
    } else if Contains(bands[0], price) {
      if BandError(bands, price).None? { assert AcceptedBy(bands, 0, price); }
    } else {
      var rest := bands[1..];
      TickCheckIsExact(rest, price);
      hide AcceptedBy;
      if k: nat :| AcceptedBy(rest, k, price) {
        FirstBandOfAll(bands, k, price);
      }
      if k: nat :| AcceptedBy(bands, k, price) {
        FirstBandOfRest(bands, k, price);
      }
    }
  }

  lemma FirstBandOfAll(bands: seq<TickBand>, k: nat, price: Price)
    requires bands != [] && AcceptedBy(bands[1..], k, price) && !Contains(bands[0], price)
    ensures AcceptedBy(bands, k + 1, price)
  {
    forall j | 0 <= j < k + 1 ensures !Contains(bands[j], price) {
      if j > 0 { assert !Contains(bands[1..][j - 1], price); }
    }
  }

  lemma FirstBandOfRest(bands: seq<TickBand>, k: nat, price: Price)
    requires AcceptedBy(bands, k, price) && !Contains(bands[0], price)
    ensures k > 0 && AcceptedBy(bands[1..], k - 1, price)
  {
    forall j | 0 <= j < k - 1 ensures !Contains(bands[1..][j], price) {
      assert !Contains(bands[j + 1], price);
    }
  }

  /** Around a positive reference price, if the symbol has one. */
  ghost predicate InBand(s: RiskState, symbol: Symbol, price: Price) {
    symbol in s.referencePrices && s.referencePrices[symbol] > 0 ==>
      var ref := s.referencePrices[symbol];
      ref - Width(ref, s.limits.priceBandBps) <= price <= ref + Width(ref, s.limits.priceBandBps)
  }

  /** Around the previous close, if the symbol is configured with a daily limit. */
  ghost predicate InDailyLimit(s: RiskState, symbol: Symbol, price: Price) {
    symbol in s.configs && s.configs[symbol].previousClose > 0 && s.configs[symbol].dailyLimitBps > 0 ==>
      var config := s.configs[symbol];
      var width := Width(config.previousClose, config.dailyLimitBps);
      config.previousClose - width <= price <= config.previousClose + width
  }

  ghost predicate OnTick(s: RiskState, symbol: Symbol, price: Price) {
    symbol in s.configs && s.configs[symbol].tickBands != [] ==> exists k: nat :: AcceptedBy(s.configs[symbol].tickBands, k, price)
  }

  /** The exact set of limit prices that pass the band, daily limit and tick checks: two intervals of integers, and the ticks. */
  lemma AcceptedPricesAreExact(s: RiskState, req: RiskRequest)
    requires req.orderType.Limit?
    ensures PriceBandError(s, req).None? && DailyLimitError(s, req).None? && TickSizeError(s, req).None?
        <==> InBand(s, req.symbol, req.price) && InDailyLimit(s, req.symbol, req.price) && OnTick(s, req.symbol, req.price)
  {
    hide InBand, InDailyLimit, OnTick, WholeLots, PriceBandError, DailyLimitError, TickSizeError, LotSizeError;
    PriceChecksAreExact(s, req);
  }

  ghost predicate WholeLots(s: RiskState, req: RiskRequest) {
    req.symbol in s.configs && s.configs[req.symbol].lotSize > 0 ==> req.quantity % s.configs[req.symbol].lotSize == 0
  }

  /** What is asked of a request whatever the time and the requests before it, in this order, and the error for what it breaks. */
  ghost function Rules(s: RiskState, req: RiskRequest): (r: seq<(bool, OemsError)>)
    ensures |r| == 9
  {
    var limit := req.orderType.Limit?;
    [(req.quantity > 0, InvalidQuantity),
     (req.symbol != "", InvalidSymbol),
     (limit ==> req.price > 0, InvalidPrice),
     (req.quantity <= s.limits.maxOrderQty, RiskBreachMaxQty),
     (limit ==> req.price * req.quantity <= s.limits.maxNotional, RiskBreachNotional),
     (limit ==> InBand(s, req.symbol, req.price), RiskBreachPriceBand),
     (WholeLots(s, req), RiskBreachLotSize),
     (limit ==> OnTick(s, req.symbol, req.price), RiskBreachTickSize),
     (limit ==> InDailyLimit(s, req.symbol, req.price), RiskBreachDailyLimit)]
  }

  ghost predicate WithinLimits(s: RiskState, req: RiskRequest) {
    forall k | 0 <= k < 9 :: Rules(s, req)[k].0
  }

  /** Rule `k` is broken, and no earlier one. */
  ghost predicate FirstBroken(rules: seq<(bool, OemsError)>, k: nat) {
    k < |rules| && !rules[k].0 && forall j | 0 <= j < k :: rules[j].0
  }

  /** The price checks one by one, each as the set of prices it accepts. */
  lemma PriceChecksAreExact(s: RiskState, req: RiskRequest)
    ensures req.orderType.Limit? ==> PriceBandError(s, req) == if InBand(s, req.symbol, req.price) then None else Some(RiskBreachPriceBand)
    ensures TickSizeError(s, req) == if req.orderType.Limit? ==> OnTick(s, req.symbol, req.price) then None else Some(RiskBreachTickSize)
    ensures DailyLimitError(s, req) == if req.orderType.Limit? ==> InDailyLimit(s, req.symbol, req.price) then None else Some(RiskBreachDailyLimit)
    ensures LotSizeError(s, req) == if WholeLots(s, req) then None else Some(RiskBreachLotSize)
  {
    hide Width, BandError, AcceptedBy;
    if req.symbol in s.referencePrices {
      CrossMultipliedIsInterval(req.price, s.referencePrices[req.symbol], s.limits.priceBandBps);
    }
    if req.symbol in s.configs {
      var config := s.configs[req.symbol];
      CrossMultipliedIsInterval(req.price, config.previousClose, config.dailyLimitBps);
      TickCheckIsExact(config.tickBands, req.price);
      TickErrors(config.tickBands, req.price);
    }
  }

  lemma {:induction false} TickErrors(bands: seq<TickBand>, price: Price)
    ensures BandError(bands, price).Some? ==> BandError(bands, price) == Some(RiskBreachTickSize)
  {
    if bands != [] { TickErrors(bands[1..], price); }
  }

  lemma NoEarlierErrorIff(s: RiskState, req: RiskRequest)
    ensures EarlierError(s, req).None? <==> WithinLimits(s, req)
    ensures forall k: nat :: FirstBroken(Rules(s, req), k) ==> EarlierError(s, req) == Some(Rules(s, req)[k].1)
  {
    EarlierErrorByRules(s, req);
    hide Rules, EarlierError;
    var r := Rules(s, req);
    forall k: nat | FirstBroken(r, k) ensures EarlierError(s, req) == Some(r[k].1) {
      assert forall j | 0 <= j < k :: r[j].0;
    }
  }

  lemma EarlierErrorByRules(s: RiskState, req: RiskRequest)
    ensures var r := Rules(s, req);
            EarlierError(s, req)
            == if !r[0].0 then Some(r[0].1) else if !r[1].0 then Some(r[1].1) else if !r[2].0 then Some(r[2].1)
               else if !r[3].0 then Some(r[3].1) else if !r[4].0 then Some(r[4].1) else if !r[5].0 then Some(r[5].1)
               else if !r[6].0 then Some(r[6].1) else if !r[7].0 then Some(r[7].1) else if !r[8].0 then Some(r[8].1) else None
  {
    hide InBand, InDailyLimit, OnTick, WholeLots, PriceBandError, DailyLimitError, TickSizeError, LotSizeError;
    PriceChecksAreExact(s, req);
  }

  lemma SomeRuleIsFirstBroken(s: RiskState, req: RiskRequest) returns (k: nat)
    requires !WithinLimits(s, req)
    ensures FirstBroken(Rules(s, req), k)
  {
    hide Rules;
    var rules := Rules(s, req);
    k := 0;
    while rules[k].0
      invariant 0 <= k < 9 && forall j | 0 <= j < k :: rules[j].0
      decreases 9 - k
    {
      assert k < 8 by { if k == 8 { assert forall j | 0 <= j < 9 :: rules[j].0; } }
      k := k + 1;
    }
  }

  lemma RulesHaveDistinctErrors(s: RiskState, req: RiskRequest)
    ensures forall j, k | 0 <= j < 9 && 0 <= k < 9 && Rules(s, req)[j].1 == Rules(s, req)[k].1 :: j == k
    ensures forall k | 0 <= k < 9 :: Rules(s, req)[k].1 != RiskBreachRateLimit
  {
    hide InBand, InDailyLimit, OnTick, WholeLots;
  }

  /**
  Which answer a request gets, for every answer: the error of a rule exactly when that rule is the first it breaks, and the
  rate limit's error exactly when it breaks none but the second ending now is full. A broken rule changes nothing.
  */
  lemma AnswerIff(s: RiskState, calls: seq<Call>, req: RiskRequest, now: int)
    requires s.recentOrders == [] && Nondecreasing(calls)
    requires calls != [] ==> calls[|calls| - 1].now <= now
    ensures var state := StateAfter(s, calls);
            var (state', answer) := Decide(state, req, now);
            var room := CountIn(ApprovedTimes(s, calls), now - SECOND, now) < s.limits.maxOrdersPerSecond;
            && (forall k: nat | k < 9 :: answer == Some(Rules(s, req)[k].1) <==> FirstBroken(Rules(s, req), k))
            && (answer == Some(RiskBreachRateLimit) <==> WithinLimits(s, req) && !room)
            && (answer == None <==> WithinLimits(s, req) && room)
            && (!WithinLimits(s, req) ==> state' == state)
  {
    hide EarlierError, Kept, StateAfter, ApprovedTimes, WithinLimits, CountIn, Rules;
    RunRecordsLatest(s, calls, now);
    RejectsIffWindowIsFull(s, calls, req, now);
    RecentIsIrrelevant(s, StateAfter(s, calls), req);
    NoEarlierErrorIff(s, req);
    RulesHaveDistinctErrors(s, req);
    if WithinLimits(s, req) {
      NothingBroken(s, req);
    } else {
      var k := SomeRuleIsFirstBroken(s, req);
    }
  }

  lemma NothingBroken(s: RiskState, req: RiskRequest)
    requires WithinLimits(s, req)
    ensures forall k: nat :: !FirstBroken(Rules(s, req), k)
  {
    hide Rules;
  }

  /**
  Exactly which requests are approved during a run under fixed limits: those within the limits for which the second ending
  now still has room.
  */
  lemma ApprovedIff(s: RiskState, calls: seq<Call>, req: RiskRequest, now: int)
    requires s.recentOrders == [] && Nondecreasing(calls)
    requires calls != [] ==> calls[|calls| - 1].now <= now
    ensures Decide(StateAfter(s, calls), req, now).1.None?
        <==> WithinLimits(s, req) && CountIn(ApprovedTimes(s, calls), now - SECOND, now) < s.limits.maxOrdersPerSecond
  {
    hide Decide, StateAfter, ApprovedTimes, WithinLimits, CountIn, Rules;
    AnswerIff(s, calls, req, now);
  }

  /** Under the exchange's table the ticks are the multiples of the tick of the one band that contains the price. */
  lemma TseTicksAreExact(price: Price)
    requires 0 <= price <= INT64_MAX
    ensures BandError(TseBands(), price).None? <==> price % TseTick(price) == 0
  {
    hide BandError, TseTick, TseBands, TseRow;
    TickCheckIsExact(TseBands(), price);
    TseBandsArePartition(price);
    TickIsPositive(price);
    if price % TseTick(price) == 0 {
      assert AcceptedBy(TseBands(), TseRow(price), price);
    }
  }

  lemma TickIsPositive(price: Price)
    ensures TseTick(price) > 0
  {}

  /** No product of the checks leaves 128 bits, and the 64-bit differences do not overflow. */
  lemma ProductsFit(price: Price, ref: Price, quantity: Quantity, bps: int)
    requires 0 < price <= INT64_MAX && 0 < ref <= INT64_MAX && 0 < quantity <= INT64_MAX
    requires -0x8000_0000 <= bps <= 0x7FFF_FFFF
    ensures Abs(price - ref) <= INT64_MAX
    ensures 0 <= price * quantity < 0x8000_0000_0000_0000_0000_0000_0000_0000
    ensures 0 <= Abs(price - ref) * 10000 < 0x8000_0000_0000_0000_0000_0000_0000_0000
    ensures -0x8000_0000_0000_0000_0000_0000_0000_0000 < ref * bps < 0x8000_0000_0000_0000_0000_0000_0000_0000
  {
    ProductBound(price, quantity, INT64_MAX, INT64_MAX);
    ProductBound(ref, Abs(bps), INT64_MAX, 0x8000_0000);
    if bps < 0 { assert ref * bps == -(ref * -bps); }
  }

  lemma ProductBound(a: int, b: int, m: int, n: int)
    requires 0 <= a <= m && 0 <= b <= n
    ensures 0 <= a * b <= m * n
  {
    assert a * b <= a * n;
    assert a * n <= m * n;
  }
}
