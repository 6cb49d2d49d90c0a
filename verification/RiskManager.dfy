/** Pre-trade risk: the checks in their order, and the sliding one-second window of the rate limit. */
module RiskManagers {
  import opened Types

  /** One second of the clock, which counts nanoseconds. */
  const SECOND: int := 1_000_000_000

  datatype RiskLimits = RiskLimits(maxOrderQty: Quantity, maxNotional: Price, priceBandBps: int, maxOrdersPerSecond: int)

  datatype TickBand = TickBand(low: Price, high: Price, tick: Price)

  datatype SymbolConfig = SymbolConfig(lotSize: Quantity, previousClose: Price, dailyLimitBps: int, tickBands: seq<TickBand>)

  datatype RiskRequest = RiskRequest(symbol: Symbol, side: Side, orderType: OrderType, price: Price, quantity: Quantity)

  datatype RiskState = RiskState(
    limits: RiskLimits,
    referencePrices: map<Symbol, Price>,
    configs: map<Symbol, SymbolConfig>,
    recentOrders: seq<int>)

  function Abs(x: int): int {
    if x >= 0 then x else -x
  }

  // ---------- The read-only checks ----------

  function PriceBandError(s: RiskState, req: RiskRequest): Option<OemsError> {
    if req.symbol !in s.referencePrices then None
    else
      var ref := s.referencePrices[req.symbol];
      if ref <= 0 then None
      else if Abs(req.price - ref) * 10000 > ref * s.limits.priceBandBps then Some(RiskBreachPriceBand)
      else None
  }

  function LotSizeError(s: RiskState, req: RiskRequest): Option<OemsError> {
    if req.symbol !in s.configs then None
    else
      var lot := s.configs[req.symbol].lotSize;
      if lot <= 0 then None
      else if req.quantity % lot != 0 then Some(RiskBreachLotSize)
      else None
  }

  /** The first band that contains the price decides. */
  function BandError(bands: seq<TickBand>, price: Price): Option<OemsError> {
    if bands == [] then Some(RiskBreachTickSize)
    else if bands[0].low <= price <= bands[0].high then
      if bands[0].tick <= 0 || price % bands[0].tick != 0 then Some(RiskBreachTickSize) else None
    else BandError(bands[1..], price)
  }

  function TickSizeError(s: RiskState, req: RiskRequest): Option<OemsError> {
    if req.orderType.Market? || req.symbol !in s.configs || s.configs[req.symbol].tickBands == [] then None
    else BandError(s.configs[req.symbol].tickBands, req.price)
  }

  function DailyLimitError(s: RiskState, req: RiskRequest): Option<OemsError> {
    if req.orderType.Market? || req.symbol !in s.configs then None
    else
      var config := s.configs[req.symbol];
      if config.previousClose <= 0 || config.dailyLimitBps <= 0 then None
      else
        var diff := if req.price >= config.previousClose then req.price - config.previousClose else config.previousClose - req.price;
        if diff * 10000 > config.previousClose * config.dailyLimitBps then Some(RiskBreachDailyLimit) else None
  }

  /** All checks before the rate limit, in their order; the first failure is reported. */
  function EarlierError(s: RiskState, req: RiskRequest): Option<OemsError> {
    if req.quantity <= 0 then Some(InvalidQuantity)
    else if req.symbol == "" then Some(InvalidSymbol)
    else if req.orderType.Limit? && req.price <= 0 then Some(InvalidPrice)
    else if req.quantity > s.limits.maxOrderQty then Some(RiskBreachMaxQty)
    else if req.orderType.Limit? && req.price * req.quantity > s.limits.maxNotional then Some(RiskBreachNotional)
    else if req.orderType.Limit? && PriceBandError(s, req).Some? then PriceBandError(s, req)
    else if LotSizeError(s, req).Some? then LotSizeError(s, req)
    else if TickSizeError(s, req).Some? then TickSizeError(s, req)
    else DailyLimitError(s, req)
  }

  // ---------- The rate limit ----------

  /** What is left of the recent approvals once those older than a second are dropped from the front. */
  function Kept(recent: seq<int>, now: int): seq<int> {
    if recent != [] && recent[0] < now - SECOND then Kept(recent[1..], now) else recent
  }

  /** The whole check at time `now`: the earlier checks, then the rate limit, which records an approval. */
  function Decide(s: RiskState, req: RiskRequest, now: int): (RiskState, Option<OemsError>) {
    if EarlierError(s, req).Some? then (s, EarlierError(s, req))
    else
      var kept := Kept(s.recentOrders, now);
      if |kept| >= s.limits.maxOrdersPerSecond then (s.(recentOrders := kept), Some(RiskBreachRateLimit))
      else (s.(recentOrders := kept + [now]), None)
  }

  class RiskManager {
    var limits: RiskLimits
    var referencePrices: map<Symbol, Price>
    var configs: map<Symbol, SymbolConfig>
    var recentOrders: seq<int>

    ghost function State(): RiskState
      reads this
    {
      RiskState(limits, referencePrices, configs, recentOrders)
    }

    constructor (limits: RiskLimits)
      ensures State() == RiskState(limits, map[], map[], [])
    {
      this.limits := limits;
      referencePrices, configs, recentOrders := map[], map[], [];
    }

    method SetLimits(limits: RiskLimits)
      modifies this
      ensures State() == old(State()).(limits := limits)
    {
      this.limits := limits;
    }

    method SetReferencePrice(symbol: Symbol, price: Price)
      modifies this
      ensures State() == old(State()).(referencePrices := old(referencePrices)[symbol := price])
    {
      referencePrices := referencePrices[symbol := price];
    }

    method SetSymbolConfig(symbol: Symbol, config: SymbolConfig)
      modifies this
      ensures State() == old(State()).(configs := old(configs)[symbol := config])
    {
      configs := configs[symbol := config];
    }

    /** Run all checks on a request at time `now`; the error, if any, is the first one met. */
    method Check(req: RiskRequest, now: int) returns (error: Option<OemsError>)
      modifies this`recentOrders
      ensures (State(), error) == Decide(old(State()), req, now)
    {
      hide Kept;
      ghost var s := State();
      if req.quantity <= 0 {
        return Some(InvalidQuantity);
      }
      if req.symbol == "" {
        return Some(InvalidSymbol);
      }
      if req.orderType.Limit? && req.price <= 0 {
        return Some(InvalidPrice);
      }
      if req.quantity > limits.maxOrderQty {
        return Some(RiskBreachMaxQty);
      }
      if req.orderType.Limit? {
        if req.price * req.quantity > limits.maxNotional {
          return Some(RiskBreachNotional);
        }
        error := CheckPriceBand(req);
        if error.Some? {
          return;
        }
      }
      error := CheckLotSize(req);
      if error.Some? {
        return;
      }
      error := CheckTickSize(req);
      if error.Some? {
        return;
      }
      error := CheckDailyLimit(req);
      if error.Some? {
        return;
      }
      assert EarlierError(s, req).None?;
      error := CheckRateLimit(now);
    }

    method CheckPriceBand(req: RiskRequest) returns (error: Option<OemsError>)
      ensures error == PriceBandError(State(), req)
    {
      if req.symbol !in referencePrices {
        return None;
      }
      var ref := referencePrices[req.symbol];
      if ref <= 0 {
        return None;
      }
      var diff := Abs(req.price - ref);
      error := if diff * 10000 > ref * limits.priceBandBps then Some(RiskBreachPriceBand) else None;
    }

    method CheckLotSize(req: RiskRequest) returns (error: Option<OemsError>)
      ensures error == LotSizeError(State(), req)
    {
      if req.symbol !in configs {
        return None;
      }
      var lot := configs[req.symbol].lotSize;
      if lot <= 0 {
        return None;
      }
      error := if req.quantity % lot != 0 then Some(RiskBreachLotSize) else None;
    }

    method CheckTickSize(req: RiskRequest) returns (error: Option<OemsError>)
      ensures error == TickSizeError(State(), req)
    {
      if req.orderType.Market? {
        return None;
      }
      if req.symbol !in configs {
        return None;
      }
      var bands := configs[req.symbol].tickBands;
      if bands == [] {
        return None;
      }
      for k := 0 to |bands|
        invariant BandError(bands, req.price) == BandError(bands[k..], req.price)
      {
        var band := bands[k];
        assert bands[k..][0] == band && bands[k..][1..] == bands[k + 1..];
        if req.price >= band.low && req.price <= band.high {
          if band.tick <= 0 || req.price % band.tick != 0 {
            return Some(RiskBreachTickSize);
          }
          return None;
        }
      }
      error := Some(RiskBreachTickSize);
    }

    method CheckDailyLimit(req: RiskRequest) returns (error: Option<OemsError>)
      ensures error == DailyLimitError(State(), req)
    {
      if req.orderType.Market? {
        return None;
      }
      if req.symbol !in configs {
        return None;
      }
      var config := configs[req.symbol];
      if config.previousClose <= 0 || config.dailyLimitBps <= 0 {
        return None;
      }
      var diff := if req.price >= config.previousClose then req.price - config.previousClose else config.previousClose - req.price;
      error := if diff * 10000 > config.previousClose * config.dailyLimitBps then Some(RiskBreachDailyLimit) else None;
    }

    method CheckRateLimit(now: int) returns (error: Option<OemsError>)
      modifies this`recentOrders
      ensures var kept := Kept(old(recentOrders), now);
              if |kept| >= limits.maxOrdersPerSecond
              then error == Some(RiskBreachRateLimit) && recentOrders == kept
              else error == None && recentOrders == kept + [now]
    {
      var windowStart := now - SECOND;
      while recentOrders != [] && recentOrders[0] < windowStart
        invariant Kept(recentOrders, now) == Kept(old(recentOrders), now)
        decreases |recentOrders|
      {
        recentOrders := recentOrders[1..];
      }
      if |recentOrders| >= limits.maxOrdersPerSecond {
        return Some(RiskBreachRateLimit);
      }
      recentOrders := recentOrders + [now];
      error := None;
    }
  }
}
