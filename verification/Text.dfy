/** Text the system writes: decimal numbers, error names, and what a C string keeps of a string. */
module Text {
  import opened Types

  function DigitChar(d: nat): (c: char)
    requires d < 10
    ensures '0' <= c <= '9' && c as int - '0' as int == d
  {
    ('0' as int + d) as char
  }

  /** Decimal digits of a natural number, without leading zeros. */
  function Digits(n: nat): (s: string)
    ensures |s| >= 1 && forall i | 0 <= i < |s| :: '0' <= s[i] <= '9'
  {
    if n < 10 then [DigitChar(n)] else Digits(n / 10) + [DigitChar(n % 10)]
  }

  function Decimal(n: int): string {
    if n < 0 then "-" + Digits(-n) else Digits(n)
  }

  predicate NulFree(s: string) {
    '\0' !in s
  }

  /** What is left of a string that is passed on by its start address only: everything before its first NUL. */
  function CString(s: string): (r: string)
    ensures r == s <==> NulFree(s)
    ensures NulFree(r) && |r| <= |s| && r == s[..|r|]
    ensures |r| < |s| ==> s[|r|] == '\0'
  {
    if s == [] || s[0] == '\0' then [] else [s[0]] + CString(s[1..])
  }

  lemma CStringTwice(s: string)
    ensures CString(CString(s)) == CString(s)
  {}

  function ErrorName(e: OemsError): string {
    match e
    case InvalidQuantity => "InvalidQuantity"
    case InvalidPrice => "InvalidPrice"
    case InvalidSymbol => "InvalidSymbol"
    case InvalidSide => "InvalidSide"
    case InvalidOrderType => "InvalidOrderType"
    case OrderNotFound => "OrderNotFound"
    case DuplicateOrder => "DuplicateOrder"
    case InvalidStateTransition => "InvalidStateTransition"
    case RiskBreachMaxQty => "RiskBreachMaxQty"
    case RiskBreachNotional => "RiskBreachNotional"
    case RiskBreachPriceBand => "RiskBreachPriceBand"
    case RiskBreachRateLimit => "RiskBreachRateLimit"
    case RiskBreachLotSize => "RiskBreachLotSize"
    case RiskBreachTickSize => "RiskBreachTickSize"
    case RiskBreachDailyLimit => "RiskBreachDailyLimit"
    case BookNotFound => "BookNotFound"
    case NoLiquidity => "NoLiquidity"
    case FixParseError => "FixParseError"
    case FixSessionError => "FixSessionError"
    case FixInvalidMsgType => "FixInvalidMsgType"
    case DatabaseError => "DatabaseError"
    case HttpParseError => "HttpParseError"
    case RouteNotFound => "RouteNotFound"
  }

  predicate IsRiskError(e: OemsError) {
    e.RiskBreachMaxQty? || e.RiskBreachNotional? || e.RiskBreachPriceBand? || e.RiskBreachRateLimit?
    || e.RiskBreachLotSize? || e.RiskBreachTickSize? || e.RiskBreachDailyLimit?
  }

  predicate IsOrderError(e: OemsError) {
    e.InvalidQuantity? || e.InvalidPrice? || e.InvalidSymbol? || e.InvalidSide? || e.InvalidOrderType?
    || e.OrderNotFound? || e.DuplicateOrder? || e.InvalidStateTransition?
  }

  lemma RiskErrorNamesAreNulFree(e: OemsError)
    requires IsRiskError(e)
    ensures NulFree(ErrorName(e))
  {}

  lemma OrderErrorNamesAreNulFree(e: OemsError)
    requires IsOrderError(e)
    ensures NulFree(ErrorName(e))
  {}

  lemma OtherErrorNamesAreNulFree(e: OemsError)
    requires !IsRiskError(e) && !IsOrderError(e)
    ensures NulFree(ErrorName(e))
  {}

  /** A name tells which error it is. */
  lemma ErrorNamesAreDistinct(a: OemsError, b: OemsError)
    requires ErrorName(a) == ErrorName(b)
    ensures a == b
  {
    var x, y := ErrorName(a), ErrorName(b);
    assert |x| == |y| && forall i | 0 <= i < |x| :: x[i] == y[i];
  }

  lemma ErrorNamesAreNulFree(e: OemsError)
    ensures NulFree(ErrorName(e))
  {
    hide ErrorName;
    if IsRiskError(e) {
      RiskErrorNamesAreNulFree(e);
    } else if IsOrderError(e) {
      OrderErrorNamesAreNulFree(e);
    } else {
      OtherErrorNamesAreNulFree(e);
    }
  }

  lemma DecimalIsNulFree(n: int)
    ensures NulFree(Decimal(n))
  {}
}
