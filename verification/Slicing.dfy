/** Splitting a parent order into scheduled child orders: equal slices (TWAP) and volume-weighted slices (VWAP). */
module Slicing {
  import opened Types
  import opened Lifecycle
  import opened RiskManagers

  /** The duration is in whole seconds; times count nanoseconds. */
  datatype AlgoParams = AlgoParams(parent: NewOrderRequest, duration: int, numSlices: int)

  datatype ChildSlice = ChildSlice(request: NewOrderRequest, scheduledAt: int)

  // ---------- Common parts ----------

  /** Division of the source language: truncation toward zero. */
  function TruncDiv(a: int, n: int): int
    requires n > 0
  {
    if a >= 0 then a / n else -((-a) / n)
  }

  /** The child number `i` with quantity `qty`, at its place in the schedule. */
  function Child(params: AlgoParams, start: int, i: nat, qty: Quantity): ChildSlice
    requires params.numSlices > 0
  {
    ChildSlice(params.parent.(quantity := qty), start + TruncDiv(params.duration, params.numSlices) * i * SECOND)
  }

  function TotalQuantity(slices: seq<ChildSlice>): int {
    if slices == [] then 0
    else TotalQuantity(slices[..|slices| - 1]) + slices[|slices| - 1].request.quantity
  }

  lemma TotalOfOneMore(slices: seq<ChildSlice>, child: ChildSlice)
    ensures TotalQuantity(slices + [child]) == TotalQuantity(slices) + child.request.quantity
  {
    assert (slices + [child])[..|slices|] == slices;
  }

  /** Every slice of a split is the parent but for its quantity, placed on the schedule. */
  ghost predicate OnSchedule(params: AlgoParams, start: int, slices: seq<ChildSlice>) {
    && params.numSlices > 0 && |slices| == params.numSlices
    && forall i | 0 <= i < |slices| :: slices[i] == Child(params, start, i, slices[i].request.quantity)
  }

  /** For a positive duration the schedule never goes back, starts at once, and ends before the duration is over. */
  lemma ScheduleFitsTheDuration(params: AlgoParams, start: int, slices: seq<ChildSlice>)
    requires OnSchedule(params, start, slices) && params.duration > 0
    ensures slices[0].scheduledAt == start
    ensures forall i, j | 0 <= i <= j < |slices| :: slices[i].scheduledAt <= slices[j].scheduledAt
    ensures forall i | 0 <= i < |slices| :: start <= slices[i].scheduledAt < start + params.duration * SECOND
  {
    hide TruncDiv;
    var n, step := params.numSlices, TruncDiv(params.duration, params.numSlices);
    StepFits(params.duration, n);
    forall i, j | 0 <= i <= j < n ensures slices[i].scheduledAt <= slices[j].scheduledAt {
      MulMonotone(step, i, j);
    }
    forall i | 0 <= i < n ensures start <= slices[i].scheduledAt < start + params.duration * SECOND {
      MulMonotone(step, 0, i);
      MulMonotone(step, i, n - 1);
    }
  }

  lemma StepFits(duration: int, n: int)
    requires duration > 0 && n > 0
    ensures TruncDiv(duration, n) >= 0 && TruncDiv(duration, n) * (n - 1) < duration
  {
    QuotientFits(duration, n, duration / n);
  }

  lemma QuotientFits(duration: int, n: int, step: int)
    requires duration > 0 && n > 0 && step == duration / n
    ensures step >= 0 && step * (n - 1) < duration
  {
    assert step * (n - 1) == step * n - step;
    assert step * n == duration - duration % n;
  }

  lemma MulMonotone(step: int, i: int, j: int)
    requires step >= 0 && i <= j
    ensures step * i <= step * j
  {
    assert step * (j - i) >= 0;
  }

  /** Truncating division leaves a remainder smaller than the divisor, on the dividend's side of zero. */
  lemma TruncDivTruncates(a: int, n: int)
    requires n > 0
    ensures var r := a - TruncDiv(a, n) * n;
            if a >= 0 then 0 <= r < n else -n < r <= 0
  {}

  /**
  A split of the parent: each child has the parent's client order id, symbol, side, type and price; the first is due at the
  start, and each next one a truncated share of the duration, in whole seconds, later.
  */
  ghost predicate FollowsParent(params: AlgoParams, start: int, slices: seq<ChildSlice>)
    requires params.numSlices > 0
  {
    var parent := params.parent;
    && |slices| == params.numSlices && slices[0].scheduledAt == start
    && (forall i, j | 0 <= i < |slices| && j == i + 1 < |slices| ::
          slices[j].scheduledAt == slices[i].scheduledAt + TruncDiv(params.duration, params.numSlices) * 1_000_000_000)
    && forall i | 0 <= i < |slices| ::
         var child := slices[i].request;
         && child.clientOrderId == parent.clientOrderId && child.symbol == parent.symbol && child.side == parent.side
         && child.orderType == parent.orderType && child.price == parent.price
  }

  lemma ScheduledFollowsParent(params: AlgoParams, start: int, slices: seq<ChildSlice>)
    requires OnSchedule(params, start, slices)
    ensures FollowsParent(params, start, slices)
  {
    hide TruncDiv;
    var step := TruncDiv(params.duration, params.numSlices);
    forall i, j | 0 <= i < |slices| && j == i + 1 < |slices|
      ensures slices[j].scheduledAt == slices[i].scheduledAt + step * 1_000_000_000
    {
      assert step * j == step * i + step;
    }
  }

  // ---------- Equal slices ----------

  function TwapQuantity(params: AlgoParams, i: nat): Quantity
    requires params.numSlices > 0
  {
    params.parent.quantity / params.numSlices
    + if i == params.numSlices - 1 then params.parent.quantity % params.numSlices else 0
  }

  function TwapSlices(params: AlgoParams, start: int): seq<ChildSlice> {
    if params.numSlices <= 0 || params.parent.quantity <= 0 then []
    else seq(params.numSlices, i requires 0 <= i < params.numSlices => Child(params, start, i, TwapQuantity(params, i)))
  }

  method GenerateTwapSlices(params: AlgoParams, start: int) returns (slices: seq<ChildSlice>)
    ensures slices == TwapSlices(params, start)
  {
    slices := [];
    if params.numSlices <= 0 || params.parent.quantity <= 0 {
      return;
    }
    var perSlice := params.parent.quantity / params.numSlices;
    var remainder := params.parent.quantity % params.numSlices;
    var step := TruncDiv(params.duration, params.numSlices);
    for i := 0 to params.numSlices
      invariant slices == TwapSlices(params, start)[..i]
    {
      var qty := perSlice;
      if i == params.numSlices - 1 {
        qty := qty + remainder;
      }
      slices := slices + [ChildSlice(params.parent.(quantity := qty), start + step * i * SECOND)];
    }
  }

  lemma {:induction false} FirstTwapSlicesAreEqual(params: AlgoParams, start: int, k: nat)
    requires params.numSlices > 0 && params.parent.quantity > 0 && k < params.numSlices
    ensures TotalQuantity(TwapSlices(params, start)[..k]) == k * (params.parent.quantity / params.numSlices)
  {
    if k > 0 {
      FirstTwapSlicesAreEqual(params, start, k - 1);
      var all := TwapSlices(params, start);
      assert all[..k] == all[..k - 1] + [all[k - 1]];
      TotalOfOneMore(all[..k - 1], all[k - 1]);
    }
  }

  /** The slices add up to the parent exactly, differ by less than their number, and follow the schedule. */
  lemma TwapConservesQuantity(params: AlgoParams, start: int)
    requires params.numSlices > 0 && params.parent.quantity > 0
    ensures var slices := TwapSlices(params, start);
            && OnSchedule(params, start, slices) && TotalQuantity(slices) == params.parent.quantity
            && (forall i, j | 0 <= i < |slices| && 0 <= j < |slices| ::
                  slices[i].request.quantity - slices[j].request.quantity < params.numSlices)
  {
    var slices, n := TwapSlices(params, start), params.numSlices;
    FirstTwapSlicesAreEqual(params, start, n - 1);
    assert slices == slices[..n - 1] + [slices[n - 1]];
    TotalOfOneMore(slices[..n - 1], slices[n - 1]);
    assert slices[n - 1].request.quantity == params.parent.quantity / n + params.parent.quantity % n;
    DivisionIsExact(params.parent.quantity, n);
  }

  /** Every slice is the quotient, and the last takes the remainder as well. */
  lemma TwapSlicesAreQuotients(params: AlgoParams, start: int, i: nat)
    requires params.numSlices > 0 && params.parent.quantity > 0 && i < params.numSlices
    ensures var q, n, slices := params.parent.quantity, params.numSlices, TwapSlices(params, start);
            |slices| == n && slices[i].request.quantity == if i < n - 1 then q / n else q - (n - 1) * (q / n)
  {
    DivisionIsExact(params.parent.quantity, params.numSlices);
  }

  lemma DivisionIsExact(q: int, n: int)
    requires n > 0
    ensures (n - 1) * (q / n) + (q / n + q % n) == q
  {}

  /** There are slices exactly for a positive number of them and a positive quantity, and they follow the parent. */
  lemma TwapFollowsParent(params: AlgoParams, start: int)
    ensures var slices := TwapSlices(params, start);
            if params.numSlices <= 0 || params.parent.quantity <= 0 then slices == [] else FollowsParent(params, start, slices)
  {
    if params.numSlices > 0 && params.parent.quantity > 0 {
      TwapConservesQuantity(params, start);
      ScheduledFollowsParent(params, start, TwapSlices(params, start));
    }
  }

  /** Every child passes the order manager's validation exactly when the parent does and has at least one unit a slice. */
  lemma TwapChildrenAreValidIff(params: AlgoParams, start: int)
    requires params.numSlices > 0 && params.parent.quantity > 0
    ensures (forall i | 0 <= i < params.numSlices :: Validate(TwapSlices(params, start)[i].request).None?)
        <==> Validate(params.parent).None? && params.parent.quantity >= params.numSlices
  {
    var slices, q, n := TwapSlices(params, start), params.parent.quantity, params.numSlices;
    if q < n {
      SmallQuotient(q, n);
      assert slices[0].request.quantity == 0;
    } else {
      PositiveQuotient(q, n);
      forall i | 0 <= i < n ensures Validate(slices[i].request) == Validate(params.parent) {}
      assert Validate(slices[0].request) == Validate(params.parent);
    }
  }

  lemma SmallQuotient(q: int, n: int)
    requires 0 < q < n
    ensures q / n == 0
  {}

  lemma PositiveQuotient(q: int, n: int)
    requires 0 < n <= q
    ensures q / n > 0
  {}

  // ---------- Volume-weighted slices ----------

  /** Rounding to the nearest integer, halves away from zero. */
  function RoundHalfAway(x: real): int {
    if x >= 0.0 then (x + 0.5).Floor else -((0.5 - x).Floor)
  }

  function Total(ws: seq<real>): real {
    if ws == [] then 0.0 else Total(ws[..|ws| - 1]) + ws[|ws| - 1]
  }

  lemma TotalOfPrefix(ws: seq<real>, k: nat)
    requires k < |ws|
    ensures Total(ws[..k + 1]) == Total(ws[..k]) + ws[k]
  {
    assert ws[..k + 1][..k] == ws[..k];
  }

  /** Each weight divided by `sum`. */
  function Divided(ws: seq<real>, sum: real): seq<real>
    requires sum != 0.0
  {
    seq(|ws|, i requires 0 <= i < |ws| => ws[i] / sum)
  }

  lemma {:induction false} TotalOfDivided(ws: seq<real>, sum: real, k: nat)
    requires sum != 0.0 && k <= |ws|
    ensures Total(Divided(ws, sum)[..k]) == Total(ws[..k]) / sum
  {
    if k > 0 {
      TotalOfDivided(ws, sum, k - 1);
      TotalOfPrefix(ws, k - 1);
      TotalOfPrefix(Divided(ws, sum), k - 1);
      SumOfQuotients(Total(ws[..k - 1]), ws[k - 1], sum);
    }
  }

  lemma SumOfQuotients(a: real, b: real, sum: real)
    requires sum != 0.0
    ensures a / sum + b / sum == (a + b) / sum
  {}

  /** Dividing by their total makes weights add up to one. */
  lemma NormalisedTotalIsOne(ws: seq<real>)
    requires Total(ws) != 0.0
    ensures Total(Divided(ws, Total(ws))) == 1.0
  {
    hide Total;
    TotalOfDivided(ws, Total(ws), |ws|);
    assert ws[..|ws|] == ws;
    assert Divided(ws, Total(ws))[..|ws|] == Divided(ws, Total(ws));
    SelfQuotient(Total(ws));
  }

  lemma SelfQuotient(a: real)
    requires a != 0.0
    ensures a / a == 1.0
  {}

  lemma {:induction false} TotalIsPositive(ws: seq<real>, k: nat)
    requires k <= |ws| && forall i | 0 <= i < |ws| :: ws[i] > 0.0
    ensures Total(ws[..k]) >= 0.0 && (k > 0 ==> Total(ws[..k]) > 0.0)
  {
    if k > 0 {
      TotalIsPositive(ws, k - 1);
      TotalOfPrefix(ws, k - 1);
    }
  }

  method Accumulate(ws: seq<real>) returns (sum: real)
    ensures sum == Total(ws)
  {
    sum := 0.0;
    for i := 0 to |ws|
      invariant sum == Total(ws[..i])
    {
      TotalOfPrefix(ws, i);
      sum := sum + ws[i];
    }
    assert ws[..|ws|] == ws;
  }

  method Normalise(ws: seq<real>, sum: real) returns (divided: seq<real>)
    requires sum != 0.0
    ensures divided == Divided(ws, sum)
  {
    divided := ws;
    for i := 0 to |ws|
      invariant |divided| == |ws|
      invariant forall j | 0 <= j < |ws| :: divided[j] == if j < i then ws[j] / sum else ws[j]
    {
      divided := divided[i := divided[i] / sum];
    }
  }

  /** The square of half the width, plus one: the parabola's scale. */
  function Spread(buckets: int): (r: real)
    ensures r >= 1.0
  {
    var mid := (buckets - 1) as real / 2.0;
    SquareIsNonNegative(mid);
    mid * mid + 1.0
  }

  lemma SquareIsNonNegative(x: real)
    ensures x * x >= 0.0
  {}

  /** The weight of bucket `i` before normalising: a parabola that is lowest in the middle. */
  function RawWeight(buckets: int, i: int): (w: real)
    ensures w >= 1.0
  {
    var x := i as real - (buckets - 1) as real / 2.0;
    SquareIsNonNegative(x);
    QuotientIsNonNegative(x * x, Spread(buckets));
    1.0 + x * x / Spread(buckets)
  }

  lemma QuotientIsNonNegative(a: real, b: real)
    requires a >= 0.0 && b > 0.0
    ensures a / b >= 0.0
  {}

  function RawProfile(buckets: nat): seq<real> {
    seq(buckets, i requires 0 <= i < buckets => RawWeight(buckets, i))
  }

  lemma RawProfileIsPositive(buckets: nat)
    requires buckets > 0
    ensures Total(RawProfile(buckets)) > 0.0
  {
    TotalIsPositive(RawProfile(buckets), buckets);
    assert RawProfile(buckets)[..buckets] == RawProfile(buckets);
  }

  function UShape(buckets: nat): seq<real>
    requires buckets > 0
  {
    RawProfileIsPositive(buckets);
    Divided(RawProfile(buckets), Total(RawProfile(buckets)))
  }

  /**
  The default profile. A negative number of buckets is an error of the container (`None`): its capacity is reserved before
  the number is looked at.
  */
  method DefaultVolumeProfile(buckets: int) returns (weights: Option<seq<real>>)
    ensures weights.None? <==> buckets < 0
    ensures buckets == 0 ==> weights == Some([])
    ensures buckets > 0 ==> weights == Some(UShape(buckets))
  {
    hide RawWeight;
    if buckets < 0 {
      return None;
    }
    if buckets <= 0 {
      return Some([]);
    }
    var raw: seq<real> := [];
    for i := 0 to buckets
      invariant raw == RawProfile(buckets)[..i]
    {
      raw := raw + [RawWeight(buckets, i)];
    }
    assert raw == RawProfile(buckets);
    RawProfileIsPositive(buckets);
    var sum := Accumulate(raw);
    var divided := Normalise(raw, sum);
    weights := Some(divided);
  }

  /** The default profile is a distribution: positive weights that add up to one, the same read from either end. */
  lemma UShapeIsADistribution(buckets: nat)
    requires buckets > 0
    ensures var ws := UShape(buckets);
            && |ws| == buckets && Total(ws) == 1.0
            && forall i | 0 <= i < buckets :: ws[i] > 0.0 && ws[i] == ws[buckets - 1 - i]
  {
    var raw := RawProfile(buckets);
    RawProfileIsPositive(buckets);
    NormalisedTotalIsOne(raw);
    forall i | 0 <= i < buckets ensures UShape(buckets)[i] > 0.0 && UShape(buckets)[i] == UShape(buckets)[buckets - 1 - i] {
      QuotientIsPositive(raw[i], Total(raw));
      RawWeightIsSymmetric(buckets, i);
    }
  }

  /** The default weights are in the proportions of a parabola with its lowest point in the middle. */
  lemma UShapeIsAParabola(buckets: nat, i: nat, j: nat)
    requires i < buckets && j < buckets
    ensures var ws, mid := UShape(buckets), (buckets - 1) as real / 2.0;
            var x, y := i as real - mid, j as real - mid;
            && |ws| == buckets && mid * mid + 1.0 > 0.0
            && ws[i] * (1.0 + y * y / (mid * mid + 1.0)) == ws[j] * (1.0 + x * x / (mid * mid + 1.0))
  {
    hide Total, RawWeight;
    var raw, sum := RawProfile(buckets), Total(RawProfile(buckets));
    RawProfileIsPositive(buckets);
    SquareIsNonNegative((buckets - 1) as real / 2.0);
    RawWeightIs(buckets, i);
    RawWeightIs(buckets, j);
    assert UShape(buckets)[i] == raw[i] / sum && UShape(buckets)[j] == raw[j] / sum;
    CrossQuotients(raw[i], raw[j], sum);
  }

  lemma RawWeightIs(buckets: int, i: int)
    ensures var mid := (buckets - 1) as real / 2.0;
            mid * mid + 1.0 > 0.0 && RawWeight(buckets, i) == 1.0 + (i as real - mid) * (i as real - mid) / (mid * mid + 1.0)
  {
    SquareIsNonNegative((buckets - 1) as real / 2.0);
  }

  lemma CrossQuotients(a: real, b: real, sum: real)
    requires sum > 0.0
    ensures (a / sum) * b == (b / sum) * a
  {
    var x, y := a / sum, b / sum;
    assert a == x * sum && b == y * sum;
    assert x * (y * sum) == y * (x * sum);
  }

  lemma QuotientIsPositive(a: real, b: real)
    requires a > 0.0 && b > 0.0
    ensures a / b > 0.0
  {}

  lemma RawWeightIsSymmetric(buckets: int, i: int)
    ensures RawWeight(buckets, i) == RawWeight(buckets, buckets - 1 - i)
  {
    hide Spread;
    var x := i as real - (buckets - 1) as real / 2.0;
    var y := (buckets - 1 - i) as real - (buckets - 1) as real / 2.0;
    assert y == -x;
    assert x * x == y * y;
  }

  /** The profile that a call uses. */
  function ChosenProfile(params: AlgoParams, profile: seq<real>): seq<real>
    requires params.numSlices > 0
  {
    if profile == [] then UShape(params.numSlices) else profile
  }

  ghost predicate VwapApplies(params: AlgoParams, profile: seq<real>) {
    && params.numSlices > 0 && params.parent.quantity > 0
    && |ChosenProfile(params, profile)| == params.numSlices && Total(ChosenProfile(params, profile)) > 0.0
  }

  /** The exact share of slice `i`. */
  function Ideal(quantity: Quantity, profile: seq<real>, i: nat): real
    requires i < |profile| && Total(profile) > 0.0
  {
    quantity as real * (profile[i] / Total(profile))
  }

  /** What the slices before the last one get together: each its share, rounded. */
  function Given(quantity: Quantity, profile: seq<real>, k: nat): int
    requires k <= |profile| && Total(profile) > 0.0
  {
    if k == 0 then 0 else Given(quantity, profile, k - 1) + RoundHalfAway(Ideal(quantity, profile, k - 1))
  }

  /** The rounded share, but for the last slice, which takes what is left. */
  function VwapQuantity(quantity: Quantity, profile: seq<real>, i: nat): Quantity
    requires i < |profile| && Total(profile) > 0.0
  {
    if i < |profile| - 1 then RoundHalfAway(Ideal(quantity, profile, i)) else quantity - Given(quantity, profile, i)
  }

  ghost function VwapSlices(params: AlgoParams, start: int, profile: seq<real>): seq<ChildSlice> {
    if !VwapApplies(params, profile) then []
    else
      var ws := ChosenProfile(params, profile);
      seq(params.numSlices, i requires 0 <= i < params.numSlices =>
        Child(params, start, i, VwapQuantity(params.parent.quantity, ws, i)))
  }

  lemma OneMoreVwapSlice(params: AlgoParams, start: int, profile: seq<real>, i: nat)
    requires VwapApplies(params, profile) && i < params.numSlices
    ensures var all, ws := VwapSlices(params, start, profile), ChosenProfile(params, profile);
            && |all| == params.numSlices
            && all[..i + 1] == all[..i] + [Child(params, start, i, VwapQuantity(params.parent.quantity, ws, i))]
  {
    hide Child, VwapQuantity;
  }

  method GenerateVwapSlices(params: AlgoParams, start: int, profile: seq<real>) returns (slices: seq<ChildSlice>)
    ensures slices == VwapSlices(params, start, profile)
  {
    hide RoundHalfAway, UShape, Total;
    slices := [];
    if params.numSlices <= 0 || params.parent.quantity <= 0 {
      return;
    }
    var weights := profile;
    if weights == [] {
      var fallback := DefaultVolumeProfile(params.numSlices);
      weights := fallback.value;
    }
    ghost var ws := ChosenProfile(params, profile);
    if |weights| != params.numSlices {
      return;
    }
    var sum := Accumulate(weights);
    if sum <= 0.0 {
      return;
    }
    weights := Normalise(weights, sum);
    var step := TruncDiv(params.duration, params.numSlices);
    assert |VwapSlices(params, start, profile)| == params.numSlices;
    hide TruncDiv, VwapSlices, ChosenProfile;
    var given := 0;
    for i := 0 to params.numSlices
      invariant |VwapSlices(params, start, profile)| == params.numSlices
      invariant slices == VwapSlices(params, start, profile)[..i]
      invariant given == Given(params.parent.quantity, ws, if i < params.numSlices then i else params.numSlices - 1)
    {
      var qty := 0;
      if i < params.numSlices - 1 {
        assert params.parent.quantity as real * weights[i] == Ideal(params.parent.quantity, ws, i);
        qty := RoundHalfAway(params.parent.quantity as real * weights[i]);
        given := given + qty;
      } else {
        qty := params.parent.quantity - given;
      }
      assert qty == VwapQuantity(params.parent.quantity, ws, i);
      assert Child(params, start, i, qty) == ChildSlice(params.parent.(quantity := qty), start + step * i * SECOND);
      OneMoreVwapSlice(params, start, profile, i);
      slices := slices + [ChildSlice(params.parent.(quantity := qty), start + step * i * SECOND)];
    }
  }

  // ---------- What the volume-weighted split guarantees ----------

  lemma RoundIsNearest(x: real)
    ensures -0.5 <= RoundHalfAway(x) as real - x <= 0.5
    ensures x >= 0.0 ==> RoundHalfAway(x) >= 0
    ensures RoundHalfAway(x) as real - x == 0.5 ==> x > 0.0
    ensures RoundHalfAway(x) as real - x == -0.5 ==> x < 0.0
  {}

  /** The exact share of the first `k` slices together. */
  function Share(quantity: Quantity, profile: seq<real>, k: nat): real
    requires k <= |profile| && Total(profile) > 0.0
  {
    quantity as real * (Total(profile[..k]) / Total(profile))
  }

  /** The drift of the first `k` slices together is at most half a unit a slice. */
  lemma {:induction false} GivenDrift(quantity: Quantity, profile: seq<real>, k: nat)
    requires k <= |profile| && Total(profile) > 0.0
    ensures -0.5 * k as real <= Given(quantity, profile, k) as real - Share(quantity, profile, k) <= 0.5 * k as real
  {
    hide RoundHalfAway, Ideal, Share, Total;
    if k == 0 {
      NothingShared(quantity, profile);
    } else {
      GivenDrift(quantity, profile, k - 1);
      OneMoreShare(quantity, profile, k - 1);
      assert k as real == (k - 1) as real + 1.0;
    }
  }

  lemma NothingShared(quantity: Quantity, profile: seq<real>)
    requires Total(profile) > 0.0
    ensures Share(quantity, profile, 0) == 0.0
  {}

  lemma OneMoreShare(quantity: Quantity, profile: seq<real>, k: nat)
    requires k < |profile| && Total(profile) > 0.0
    ensures var exact := Share(quantity, profile, k + 1) - Share(quantity, profile, k);
            exact == Ideal(quantity, profile, k) && -0.5 <= RoundHalfAway(exact) as real - exact <= 0.5
  {
    hide RoundHalfAway, Total;
    TotalOfPrefix(profile, k);
    RoundIsNearest(Ideal(quantity, profile, k));
    SumOfShares(quantity as real, Total(profile[..k]), profile[k], Total(profile));
  }

  lemma SumOfShares(q: real, a: real, b: real, sum: real)
    requires sum != 0.0
    ensures q * ((a + b) / sum) == q * (a / sum) + q * (b / sum)
  {
    SumOfQuotients(a, b, sum);
  }

  lemma {:induction false} FirstVwapSlicesTotal(params: AlgoParams, start: int, profile: seq<real>, k: nat)
    requires VwapApplies(params, profile) && k < params.numSlices
    ensures TotalQuantity(VwapSlices(params, start, profile)[..k]) == Given(params.parent.quantity, ChosenProfile(params, profile), k)
  {
    hide RoundHalfAway, UShape, Total, Ideal;
    if k > 0 {
      FirstVwapSlicesTotal(params, start, profile, k - 1);
      var all := VwapSlices(params, start, profile);
      assert all[..k] == all[..k - 1] + [all[k - 1]];
      TotalOfOneMore(all[..k - 1], all[k - 1]);
    }
  }

  /** The slices add up to the parent exactly and follow the schedule. */
  lemma VwapConservesQuantity(params: AlgoParams, start: int, profile: seq<real>)
    requires VwapApplies(params, profile)
    ensures var slices := VwapSlices(params, start, profile);
            OnSchedule(params, start, slices) && TotalQuantity(slices) == params.parent.quantity
  {
    hide RoundHalfAway, UShape, Total, Ideal, Given;
    var slices, n := VwapSlices(params, start, profile), params.numSlices;
    FirstVwapSlicesTotal(params, start, profile, n - 1);
    assert slices == slices[..n - 1] + [slices[n - 1]];
    TotalOfOneMore(slices[..n - 1], slices[n - 1]);
  }

  /**
  There are slices exactly for a positive number of them, a positive quantity, and a profile that is empty, or has one weight
  a slice and a positive total; and they follow the parent.
  */
  lemma VwapFollowsParent(params: AlgoParams, start: int, profile: seq<real>)
    ensures var slices := VwapSlices(params, start, profile);
            if params.numSlices <= 0 || params.parent.quantity <= 0
               || (profile != [] && (|profile| != params.numSlices || Total(profile) <= 0.0)) then slices == []
            else FollowsParent(params, start, slices)
  {
    hide Total, Ideal, Given, RoundHalfAway, RawWeight, FollowsParent, OnSchedule;
    if params.numSlices > 0 && profile == [] { UShapeIsADistribution(params.numSlices); }
    if VwapApplies(params, profile) {
      VwapConservesQuantity(params, start, profile);
      ScheduledFollowsParent(params, start, VwapSlices(params, start, profile));
    }
  }

  /** Every slice but the last is within half a unit of its exact share; the last within half a unit for each slice before it. */
  lemma VwapDriftIsBounded(params: AlgoParams, start: int, profile: seq<real>, i: nat)
    requires VwapApplies(params, profile) && i < params.numSlices
    ensures var ws := ChosenProfile(params, profile);
            var exact := params.parent.quantity as real * (ws[i] / Total(ws));
            var drift := VwapSlices(params, start, profile)[i].request.quantity as real - exact;
            var bound := (if i < params.numSlices - 1 then 1 else params.numSlices - 1) as real / 2.0;
            -bound <= drift <= bound
  {
    hide VwapSlices, Total, ChosenProfile, Ideal;
    DriftFromIdeal(params, start, profile, i);
    IdealIs(params.parent.quantity, ChosenProfile(params, profile), i);
  }

  lemma DriftFromIdeal(params: AlgoParams, start: int, profile: seq<real>, i: nat)
    requires VwapApplies(params, profile) && i < params.numSlices
    ensures |VwapSlices(params, start, profile)| == params.numSlices
    ensures var drift := VwapSlices(params, start, profile)[i].request.quantity as real
                         - Ideal(params.parent.quantity, ChosenProfile(params, profile), i);
            var bound := (if i < params.numSlices - 1 then 1 else params.numSlices - 1) as real / 2.0;
            -bound <= drift <= bound
  {
    hide RoundHalfAway, UShape, Total, Given, Share, Ideal;
    var ws, q, n := ChosenProfile(params, profile), params.parent.quantity, params.numSlices;
    if i < n - 1 {
      RoundIsNearest(Ideal(q, ws, i));
    } else {
      GivenDrift(q, ws, n - 1);
      OneMoreShare(q, ws, n - 1);
      EverythingShared(q, ws);
    }
  }

  lemma IdealIs(quantity: Quantity, profile: seq<real>, i: nat)
    requires i < |profile| && Total(profile) > 0.0
    ensures Ideal(quantity, profile, i) == quantity as real * (profile[i] / Total(profile))
  {
    hide Total;
  }

  lemma EverythingShared(quantity: Quantity, profile: seq<real>)
    requires Total(profile) > 0.0
    ensures Share(quantity, profile, |profile|) == quantity as real
  {
    hide Total;
    assert profile[..|profile|] == profile;
    SelfQuotient(Total(profile));
  }

  lemma RoundIsPositiveIff(x: real)
    ensures RoundHalfAway(x) > 0 <==> x >= 0.5
  {}

  /**
  For every profile: every child passes the order manager's validation exactly when the parent does, every exact share but
  the last is at least half a unit, and the rounded shares leave something for the last slice.
  */
  lemma VwapChildrenAreValidIff(params: AlgoParams, start: int, profile: seq<real>)
    requires VwapApplies(params, profile)
    ensures var q, n, ws := params.parent.quantity, params.numSlices, ChosenProfile(params, profile);
            (forall i | 0 <= i < n :: Validate(VwapSlices(params, start, profile)[i].request).None?)
            <==> Validate(params.parent).None? && (forall i | 0 <= i < n - 1 :: Ideal(q, ws, i) >= 0.5) && Given(q, ws, n - 1) < q
  {
    hide RoundHalfAway, UShape, Total, Ideal, Given;
    var q, n, ws, slices := params.parent.quantity, params.numSlices, ChosenProfile(params, profile), VwapSlices(params, start, profile);
    forall i | 0 <= i < n - 1 ensures slices[i].request.quantity > 0 <==> Ideal(q, ws, i) >= 0.5 {
      RoundIsPositiveIff(Ideal(q, ws, i));
    }
    assert slices[n - 1].request.quantity == q - Given(q, ws, n - 1);
    forall i | 0 <= i < n ensures Validate(slices[i].request).None? <==> Validate(params.parent).None? && slices[i].request.quantity > 0 {}
    if forall i | 0 <= i < n :: Validate(slices[i].request).None? {
      assert Validate(slices[n - 1].request).None?;
      forall i | 0 <= i < n - 1 ensures Ideal(q, ws, i) >= 0.5 { assert Validate(slices[i].request).None?; }
    }
  }

  /**
  For every profile: the last slice is negative, and the others together exceed the parent, exactly when the rounded
  shares of the others do. An exact last share of half a unit for every other slice rules it out.
  */
  lemma LastSliceIsNegativeIff(params: AlgoParams, start: int, profile: seq<real>)
    requires VwapApplies(params, profile)
    ensures var q, n, ws, slices := params.parent.quantity, params.numSlices, ChosenProfile(params, profile), VwapSlices(params, start, profile);
            && (slices[n - 1].request.quantity < 0 <==> Given(q, ws, n - 1) > q)
            && (slices[n - 1].request.quantity < 0 <==> TotalQuantity(slices[..n - 1]) > q)
            && (Ideal(q, ws, n - 1) >= 0.5 * (n - 1) as real ==> slices[n - 1].request.quantity >= 0)
  {
    hide RoundHalfAway, UShape, Total, Ideal, Given;
    FirstVwapSlicesTotal(params, start, profile, params.numSlices - 1);
    IdealIs(params.parent.quantity, ChosenProfile(params, profile), params.numSlices - 1);
    VwapDriftIsBounded(params, start, profile, params.numSlices - 1);
  }

  /** The exact weights of the default profile before normalising, for ten slices. */
  lemma RawWeightsOfTen(i: nat)
    requires i < 10
    ensures var x := i as real - 4.5; RawWeight(10, i) == 1.0 + x * x / 21.25
  {
    assert Spread(10) == 21.25 by { assert (10 - 1) as real / 2.0 == 4.5; }
  }

  lemma RawWeightOfTenIsAtMostTwo(i: nat)
    requires i < 10
    ensures 1.0 <= RawWeight(10, i) <= 2.0
  {
    RawWeightsOfTen(i);
    SquareIsAtMost(i as real - 4.5);
  }

  lemma SquareIsAtMost(x: real)
    requires -4.5 <= x <= 4.5
    ensures 0.0 <= x * x <= 20.25
  {
    ProductIsNonNegative(4.5 - x, 4.5 + x);
    SquareIsNonNegative(x);
  }

  lemma ProductIsNonNegative(a: real, b: real)
    requires a >= 0.0 && b >= 0.0
    ensures a * b >= 0.0
  {}

  lemma RawTotalOfTen()
    ensures 13.0 <= Total(RawProfile(10)) <= 14.0
  {
    hide Total, RawWeight;
    var raw := RawProfile(10);
    EmptyTotal(raw);
    forall i | 0 <= i < 10 ensures Total(raw[..i + 1]) == Total(raw[..i]) + raw[i] { TotalOfPrefix(raw, i); }
    forall i | 0 <= i < 10 ensures raw[i] == 1.0 + (i as real - 4.5) * (i as real - 4.5) / 21.25 { RawWeightsOfTen(i); }
    assert Total(raw[..0 + 1]) == raw[0];
    assert Total(raw[..5]) == raw[0] + raw[1] + raw[2] + raw[3] + raw[4];
    assert Total(raw[..10]) == Total(raw[..5]) + raw[5] + raw[6] + raw[7] + raw[8] + raw[9];
    assert raw[..10] == raw;
  }

  lemma EmptyTotal(ws: seq<real>)
    ensures Total(ws[..0]) == 0.0
  {}

  lemma SevenOverTen(i: nat)
    requires i < 10
    ensures |UShape(10)| == 10 && Total(UShape(10)) > 0.0 && RoundHalfAway(Ideal(7, UShape(10), i)) == 1
  {
    hide Total, RawWeight, RoundHalfAway;
    var raw := RawProfile(10);
    RawTotalOfTen();
    RawWeightOfTenIsAtMostTwo(i);
    NormalisedTotalIsOne(raw);
    assert Ideal(7, UShape(10), i) == 7.0 * (raw[i] / Total(raw));
    ShareBounds(raw[i], Total(raw));
    RoundsToOne(Ideal(7, UShape(10), i));
  }

  lemma ShareBounds(w: real, sum: real)
    requires 1.0 <= w <= 2.0 && 13.0 <= sum <= 14.0
    ensures 0.5 <= 7.0 * (w / sum) < 1.5
  {
    QuotientBounds(w, sum, 1.0 / 14.0, 3.0 / 14.0);
  }

  lemma QuotientBounds(w: real, sum: real, lo: real, hi: real)
    requires sum > 0.0 && lo * sum <= w < hi * sum
    ensures lo <= w / sum < hi
  {
    var part := w / sum;
    assert part * sum == w;
    assert part < lo ==> part * sum < lo * sum;
    assert part >= hi ==> part * sum >= hi * sum;
  }

  lemma RoundsToOne(x: real)
    requires 0.5 <= x < 1.5
    ensures RoundHalfAway(x) == 1
  {}

  lemma {:induction false} GivenOnes(quantity: Quantity, profile: seq<real>, k: nat)
    requires k <= |profile| && Total(profile) > 0.0
    requires forall i | 0 <= i < k :: RoundHalfAway(Ideal(quantity, profile, i)) == 1
    ensures Given(quantity, profile, k) == k
  {
    hide RoundHalfAway, Ideal, Total;
    if k > 0 { GivenOnes(quantity, profile, k - 1); }
  }

  /** The default profile is no exception: seven units over ten slices become nine slices of one and a last slice of minus two. */
  lemma DefaultProfileCanOverfill(params: AlgoParams, start: int)
    requires params.numSlices == 10 && params.parent.quantity == 7
    ensures var slices := VwapSlices(params, start, []);
            && |slices| == 10 && (forall i | 0 <= i < 9 :: slices[i].request.quantity == 1)
            && slices[9].request.quantity == -2 && TotalQuantity(slices[..9]) == 9
  {
    hide Total, UShape, Ideal, RoundHalfAway, Given;
    forall i | 0 <= i < 10 ensures |UShape(10)| == 10 && Total(UShape(10)) > 0.0 && RoundHalfAway(Ideal(7, UShape(10), i)) == 1 {
      SevenOverTen(i);
    }
    SevenOverTen(0);
    GivenOnes(7, UShape(10), 9);
    FirstVwapSlicesTotal(params, start, [], 9);
  }

  // ---------- Scaling and equal weights ----------

  /** Only the proportions matter: scaling every weight by the same positive factor changes no slice. */
  lemma ScalingChangesNothing(params: AlgoParams, start: int, profile: seq<real>, scaled: seq<real>, factor: real)
    requires factor > 0.0 && profile != [] && |scaled| == |profile|
    requires forall i | 0 <= i < |profile| :: scaled[i] == profile[i] * factor
    ensures VwapSlices(params, start, scaled) == VwapSlices(params, start, profile)
  {
    hide RoundHalfAway, UShape, Total, Given, Ideal;
    TotalOfScaled(profile, scaled, factor, |profile|);
    assert profile[..|profile|] == profile && scaled[..|profile|] == scaled;
    SameSign(Total(profile), factor);
    if VwapApplies(params, profile) {
      var q := params.parent.quantity;
      forall i | 0 <= i < |profile| ensures Ideal(q, scaled, i) == Ideal(q, profile, i) {
        ScaledIdeal(q, profile, scaled, factor, i);
      }
      forall i | 0 <= i < |profile| ensures VwapQuantity(q, scaled, i) == VwapQuantity(q, profile, i) {
        SameIdealsSameGiven(q, profile, scaled, i);
      }
    }
  }

  lemma {:induction false} TotalOfScaled(profile: seq<real>, scaled: seq<real>, factor: real, k: nat)
    requires k <= |profile| == |scaled| && forall i | 0 <= i < |profile| :: scaled[i] == profile[i] * factor
    ensures Total(scaled[..k]) == Total(profile[..k]) * factor
  {
    if k > 0 {
      TotalOfScaled(profile, scaled, factor, k - 1);
      hide Total;
      TotalOfPrefix(profile, k - 1);
      TotalOfPrefix(scaled, k - 1);
    }
  }

  lemma SameSign(a: real, factor: real)
    requires factor > 0.0
    ensures a * factor > 0.0 <==> a > 0.0
  {}

  lemma ScaledIdeal(quantity: Quantity, profile: seq<real>, scaled: seq<real>, factor: real, i: nat)
    requires i < |profile| == |scaled| && factor > 0.0 && scaled[i] == profile[i] * factor
    requires Total(profile) > 0.0 && Total(scaled) == Total(profile) * factor && Total(scaled) > 0.0
    ensures Ideal(quantity, scaled, i) == Ideal(quantity, profile, i)
  {
    hide Total;
    CommonFactor(profile[i], Total(profile), factor);
  }

  lemma CommonFactor(a: real, b: real, factor: real)
    requires b > 0.0 && factor > 0.0 && b * factor > 0.0
    ensures (a * factor) / (b * factor) == a / b
  {
    var x := a / b;
    assert a == x * b;
    assert a * factor == x * (b * factor);
  }

  lemma {:induction false} SameIdealsSameGiven(quantity: Quantity, ws: seq<real>, vs: seq<real>, k: nat)
    requires k <= |ws| == |vs| && Total(ws) > 0.0 && Total(vs) > 0.0
    requires forall i | 0 <= i < |ws| :: Ideal(quantity, vs, i) == Ideal(quantity, ws, i)
    ensures Given(quantity, vs, k) == Given(quantity, ws, k)
  {
    hide RoundHalfAway, Ideal, Total;
    if k > 0 { SameIdealsSameGiven(quantity, ws, vs, k - 1); }
  }

  /** The quotient rounded up from a half: what each slice but the last gets under equal weights. */
  function RoundedQuotient(quantity: Quantity, n: int): int
    requires n > 0
  {
    if 2 * (quantity % n) < n then quantity / n else quantity / n + 1
  }

  ghost predicate EqualWeights(profile: seq<real>) {
    profile != [] && forall i | 0 <= i < |profile| :: profile[i] == profile[0] > 0.0
  }

  lemma {:induction false} TotalOfEqual(profile: seq<real>, k: nat)
    requires EqualWeights(profile) && k <= |profile|
    ensures Total(profile[..k]) == k as real * profile[0]
  {
    if k > 0 {
      TotalOfEqual(profile, k - 1);
      hide Total;
      TotalOfPrefix(profile, k - 1);
      assert k as real == (k - 1) as real + 1.0;
    }
  }

  lemma EqualShare(quantity: Quantity, profile: seq<real>, i: nat)
    requires EqualWeights(profile) && i < |profile| && quantity > 0
    ensures Total(profile) > 0.0
    ensures RoundHalfAway(Ideal(quantity, profile, i)) == RoundedQuotient(quantity, |profile|)
  {
    hide RoundHalfAway, RoundedQuotient, Total, Ideal;
    var n := |profile|;
    IdealOfEqual(quantity, profile, i);
    assert Ideal(quantity, profile, i) == quantity as real * (1.0 / n as real);
    RoundQuotient(quantity, n);
  }

  lemma IdealOfEqual(quantity: Quantity, profile: seq<real>, i: nat)
    requires EqualWeights(profile) && i < |profile|
    ensures Total(profile) > 0.0
    ensures Ideal(quantity, profile, i) == quantity as real * (1.0 / |profile| as real)
  {
    hide Total;
    var n := |profile|;
    TotalOfEqual(profile, n);
    assert profile[..n] == profile;
    SameSign(n as real, profile[0]);
    CommonFactor(1.0, n as real, profile[0]);
    assert profile[i] == 1.0 * profile[0];
  }

  lemma RoundQuotient(q: int, n: int)
    requires q > 0 && n > 0
    ensures RoundHalfAway(q as real * (1.0 / n as real)) == RoundedQuotient(q, n)
  {
    var k, r := q / n, q % n;
    var part := r as real * (1.0 / n as real);
    assert q == k * n + r;
    ExactQuotient(q, n, k, r);
    FractionBounds(r, n);
    RoundSplit(k, part);
    QuotientNotNegative(q, n);
  }

  lemma QuotientNotNegative(q: int, n: int)
    requires q >= 0 && n > 0
    ensures q / n >= 0
  {}

  lemma ExactQuotient(q: int, n: int, k: int, r: int)
    requires n > 0 && q == k * n + r
    ensures q as real * (1.0 / n as real) == k as real + r as real * (1.0 / n as real)
  {
    var inverse := 1.0 / n as real;
    assert n as real * inverse == 1.0;
    assert q as real == k as real * n as real + r as real;
    assert k as real * n as real * inverse == k as real * (n as real * inverse);
  }

  lemma FractionBounds(r: int, n: int)
    requires 0 <= r < n
    ensures var part := r as real * (1.0 / n as real);
            0.0 <= part < 1.0 && (2 * r < n <==> part < 0.5)
  {
    FractionOf(r as real, n as real);
    assert 2 * r < n <==> 2.0 * r as real < n as real;
  }

  lemma FractionOf(r: real, n: real)
    requires 0.0 <= r < n
    ensures var part := r * (1.0 / n);
            0.0 <= part < 1.0 && (2.0 * r < n <==> part < 0.5)
  {
    var part := r * (1.0 / n);
    assert part * n == r;
    if part < 0.5 { assert (0.5 - part) * n > 0.0; } else { assert (part - 0.5) * n >= 0.0; }
  }

  lemma RoundSplit(k: int, part: real)
    requires 0.0 <= part < 1.0
    ensures k >= 0 ==> RoundHalfAway(k as real + part) == if part < 0.5 then k else k + 1
  {}

  /** Under equal weights every slice but the last gets the rounded quotient, and the last what is left. */
  lemma EqualWeightsSplit(params: AlgoParams, start: int, profile: seq<real>)
    requires EqualWeights(profile) && |profile| == params.numSlices && params.parent.quantity > 0
    ensures var n, q, slices := params.numSlices, params.parent.quantity, VwapSlices(params, start, profile);
            && OnSchedule(params, start, slices)
            && (forall i | 0 <= i < n - 1 :: slices[i].request.quantity == RoundedQuotient(q, n))
            && slices[n - 1].request.quantity == q - (n - 1) * RoundedQuotient(q, n)
  {
    hide RoundHalfAway, UShape, Total, Given, Ideal, RoundedQuotient;
    var n, q := params.numSlices, params.parent.quantity;
    forall i | 0 <= i < n ensures Total(profile) > 0.0 && RoundHalfAway(Ideal(q, profile, i)) == RoundedQuotient(q, n) {
      EqualShare(q, profile, i);
    }
    EqualShare(q, profile, 0);
    EqualGiven(q, profile, n - 1);
  }

  lemma {:induction false} EqualGiven(quantity: Quantity, profile: seq<real>, k: nat)
    requires EqualWeights(profile) && k <= |profile| && quantity > 0 && Total(profile) > 0.0
    ensures Given(quantity, profile, k) == k * RoundedQuotient(quantity, |profile|)
  {
    hide RoundHalfAway, Total, Ideal, RoundedQuotient;
    if k > 0 {
      EqualGiven(quantity, profile, k - 1);
      EqualShare(quantity, profile, k - 1);
      assert k * RoundedQuotient(quantity, |profile|) == (k - 1) * RoundedQuotient(quantity, |profile|) + RoundedQuotient(quantity, |profile|);
    }
  }

  /** Equal weights give the equal-slice split exactly when the remainder is less than half a slice each, or there is one slice. */
  lemma EqualWeightsAreTwapIff(params: AlgoParams, start: int, profile: seq<real>)
    requires EqualWeights(profile) && |profile| == params.numSlices && params.parent.quantity > 0
    ensures VwapSlices(params, start, profile) == TwapSlices(params, start)
        <==> params.numSlices == 1 || 2 * (params.parent.quantity % params.numSlices) < params.numSlices
  {
    hide VwapSlices;
    var n, q := params.numSlices, params.parent.quantity;
    EqualWeightsSplit(params, start, profile);
    var vwap, twap := VwapSlices(params, start, profile), TwapSlices(params, start);
    DivisionIsExact(q, n);
    if n == 1 || 2 * (q % n) < n {
      assert RoundedQuotient(q, n) == q / n || n == 1;
      forall i | 0 <= i < n ensures vwap[i] == twap[i] {
        assert vwap[i].request.quantity == TwapQuantity(params, i);
      }
    } else {
      assert vwap[0].request.quantity == q / n + 1 && twap[0].request.quantity == q / n;
    }
  }

  /**
  Under equal weights the last slice is negative exactly when the remainder is at least half a slice each and, with the
  quotient, still short of one unit for every other slice. The other slices together then exceed the parent.
  */
  lemma EqualWeightsLastIsNegativeIff(params: AlgoParams, start: int, profile: seq<real>)
    requires EqualWeights(profile) && |profile| == params.numSlices && params.parent.quantity > 0
    ensures var n, q, slices := params.numSlices, params.parent.quantity, VwapSlices(params, start, profile);
            && |slices| == n
            && (slices[n - 1].request.quantity < 0 <==> 2 * (q % n) >= n && q / n + q % n < n - 1)
            && (slices[n - 1].request.quantity < 0 <==> TotalQuantity(slices[..n - 1]) > q)
  {
    hide VwapSlices, Total, RoundedQuotient;
    var n, q := params.numSlices, params.parent.quantity;
    EqualWeightsSplit(params, start, profile);
    LastOfEqualIsNegativeIff(q, n);
    var slices := VwapSlices(params, start, profile);
    EqualShare(q, profile, 0);
    assert VwapApplies(params, profile);
    VwapConservesQuantity(params, start, profile);
    assert slices == slices[..n - 1] + [slices[n - 1]];
    TotalOfOneMore(slices[..n - 1], slices[n - 1]);
  }

  lemma LastOfEqualIsNegativeIff(q: int, n: int)
    requires q > 0 && n > 0
    ensures q - (n - 1) * RoundedQuotient(q, n) < 0 <==> 2 * (q % n) >= n && q / n + q % n < n - 1
  {
    var k, r := q / n, q % n;
    DivisionIsExact(q, n);
    QuotientNotNegative(q, n);
    assert (n - 1) * (k + 1) == (n - 1) * k + (n - 1);
  }

  /**
  The bound on the last slice's drift is reached by every even number of equal slices: half as many units as slices become
  one each, and the last slice takes back what is too much. Two units over four slices become 1, 1, 1 and -1.
  */
  lemma DriftBoundIsReached(params: AlgoParams, start: int, profile: seq<real>)
    requires EqualWeights(profile) && |profile| == params.numSlices == 2 * params.parent.quantity
    ensures var n, q, slices := params.numSlices, params.parent.quantity, VwapSlices(params, start, profile);
            && |slices| == n && Total(profile) > 0.0
            && (forall i | 0 <= i < n - 1 :: slices[i].request.quantity == 1) && slices[n - 1].request.quantity == 1 - q
            && Ideal(q, profile, n - 1) - slices[n - 1].request.quantity as real == 0.5 * (n - 1) as real
  {
    hide VwapSlices, Total, Ideal;
    var n, q := params.numSlices, params.parent.quantity;
    EqualWeightsSplit(params, start, profile);
    EqualShare(q, profile, n - 1);
    HalfQuotient(q);
    IdealOfEqual(q, profile, n - 1);
    HalfShare(q);
  }

  lemma HalfQuotient(q: int)
    requires q > 0
    ensures RoundedQuotient(q, 2 * q) == 1
  {}

  lemma HalfShare(q: int)
    requires q > 0
    ensures q as real * (1.0 / (2 * q) as real) == 0.5
  {
    var x := 1.0 / (2 * q) as real;
    assert (2 * q) as real * x == 1.0;
    assert (2 * q) as real == 2.0 * q as real;
  }
}
