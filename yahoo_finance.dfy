/**
 * The quote service the gateway consults (app/gateway/yahoo_finance_service.py):
 * the ticker acceptance rule, the batch lookup, the shape of the offline fallback
 * quote and the "no answer on error" rule of the single lookup. Every call into the
 * market-data library is an oracle parameter: its outcome is given, not computed.
 */
module YahooFinance {
  import opened Wrappers

  /** A quote record as the service returns it. `fallback` is true only on records made offline. */
  datatype Info = Info(
    ticker: string,
    preco_atual: real,
    preco_anterior: real,
    variacao_dia: real,
    variacao_percentual: real,
    volume: int,
    moeda: string,
    nome: string,
    fallback: bool)

  /** What a call into the market-data library did: raised, or returned a value. */
  datatype Attempt<+T> = Raised | Returned(result: T)

  // ------------------------------------------------------------ single lookup

  /**
   * `get_ticker_info`: whatever the library calls inside it do, an exception never
   * leaves the function; it is turned into "no quote".
   */
  function GetTickerInfo(attempt: Attempt<Option<Info>>): (r: Option<Info>)
    ensures attempt.Raised? ==> r.None?
    ensures attempt.Returned? ==> r == attempt.result
  {
    match attempt
    case Raised => None
    case Returned(info) => info
  }

  // ------------------------------------------------------------ batch lookup

  /**
   * `get_multiple_tickers`: one lookup per requested ticker, in order, each stored
   * under its ticker. `lookups[i]` is what the lookup of `tickers[i]` returned; when a
   * ticker is requested twice the later answer replaces the earlier one.
   */
  method GetMultipleTickers(tickers: seq<string>, lookups: seq<Option<Info>>)
    returns (resultado: map<string, Option<Info>>)
    requires |lookups| == |tickers|
    ensures resultado.Keys == set i | 0 <= i < |tickers| :: tickers[i]
    ensures forall i :: 0 <= i < |tickers| && LastOccurrence(tickers, i) ==> resultado[tickers[i]] == lookups[i]
  {
    resultado := map[];
    for i := 0 to |tickers|
      invariant resultado.Keys == set j | 0 <= j < i :: tickers[j]
      invariant forall j :: 0 <= j < i && LastOccurrence(tickers[..i], j) ==> resultado[tickers[j]] == lookups[j]
    {
      resultado := resultado[tickers[i] := lookups[i]];
      forall j | 0 <= j < i + 1 && LastOccurrence(tickers[..i + 1], j)
        ensures resultado[tickers[j]] == lookups[j]
      {
        if j < i {
          assert tickers[..i + 1][i] == tickers[i];
          assert LastOccurrence(tickers[..i], j);
        }
      }
    }
    assert tickers[..|tickers|] == tickers;
  }

  /** No later position of `tickers` repeats the ticker at position `i`. */
  predicate LastOccurrence(tickers: seq<string>, i: int)
    requires 0 <= i < |tickers|
  {
    forall j :: i < j < |tickers| ==> tickers[j] != tickers[i]
  }

  // ------------------------------------------------------------ ticker acceptance

  /** The tickers accepted when the market-data library cannot confirm them. */
  const Allowlist: set<string> :=
    {"AAPL", "MSFT", "PETR4.SA", "^BVSP", "^GSPC", "^DJI", "^IXIC", "BTC-USD", "ETH-USD"}

  /** `str.upper()` on the ASCII letters. */
  function UpperChar(c: char): (u: char)
    ensures 'a' <= c <= 'z' ==> u as int == c as int - 32
    ensures !('a' <= c <= 'z') ==> u == c
  {
    if 'a' <= c <= 'z' then (c as int - 32) as char else c
  }

  function Upper(s: string): (u: string)
    ensures |u| == |s|
    ensures forall i :: 0 <= i < |s| ==> u[i] == UpperChar(s[i])
  {
    if s == [] then [] else [UpperChar(s[0])] + Upper(s[1..])
  }

  /** Upper-casing twice is upper-casing once. */
  lemma UpperIdempotent(s: string)
    ensures Upper(Upper(s)) == Upper(s)
  {
    var u := Upper(s);
    assert forall i :: 0 <= i < |u| ==> UpperChar(u[i]) == u[i];
  }

  /** The one-day history the library reported: it raised, or it had `rows` rows. */
  datatype History = HistoryRaised | HistoryRows(rows: nat)

  /**
   * `validar_ticker`: a ticker with a non-empty one-day history is valid; otherwise
   * (empty history or an error) the ticker is valid exactly when its upper-case form
   * is on the allowlist.
   */
  function ValidarTicker(ticker: string, history: History): (valid: bool)
    ensures history.HistoryRows? && history.rows > 0 ==> valid
    ensures !(history.HistoryRows? && history.rows > 0) ==> (valid <==> Upper(ticker) in Allowlist)
  {
    (history.HistoryRows? && history.rows > 0) || Upper(ticker) in Allowlist
  }

  /**
   * Offline the decision ignores letter case: a ticker is accepted exactly when its
   * upper-case form is.
   */
  lemma {:induction false} OfflineIgnoresCase(ticker: string, history: History)
    requires !(history.HistoryRows? && history.rows > 0)
    ensures ValidarTicker(ticker, history) == ValidarTicker(Upper(ticker), history)
  {
    UpperIdempotent(ticker);
  }

  /** Offline, a known ticker is accepted in lower case. */
  lemma OfflineAcceptsLowerCase()
    ensures ValidarTicker("aapl", HistoryRaised)
    ensures ValidarTicker("btc-usd", HistoryRows(0))
  {
    assert Upper("aapl") == "AAPL";
    assert Upper("btc-usd") == "BTC-USD";
  }

  /** Offline, a ticker off the allowlist is rejected. */
  lemma OfflineRejectsUnknown()
    ensures !ValidarTicker("INVALID", HistoryRaised)
  {
    assert Upper("INVALID") == "INVALID";
  }

  // ------------------------------------------------------------ offline fallback quote

  /** The fixed reference prices of the known tickers. */
  const BaseMap: map<string, real> := map[
    "^BVSP" := 128000.0, "^GSPC" := 5200.0, "^DJI" := 39200.0, "^IXIC" := 17800.0,
    "BTC-USD" := 47000.0, "ETH-USD" := 2400.0,
    "AAPL" := 190.0, "MSFT" := 380.0, "PETR4.SA" := 38.0]

  /**
   * The three numbers drawn, in order, from the generator seeded with the ticker and
   * the day: the default price spread (always drawn, even for a known ticker, since
   * the default argument is evaluated before the lookup), the daily drift and the
   * volume's normal draw.
   */
  datatype Draws = Draws(spread: real, drift: real, volumeDraw: real)

  /** The ranges the two uniform draws come from. */
  predicate InRange(d: Draws) {
    -10.0 <= d.spread <= 10.0 && -0.02 <= d.drift <= 0.02
  }

  /** The seed string: the ticker, a dash and the ISO date of the day. */
  function Seed(ticker: string, isoDay: string): (seed: string)
    ensures |seed| == |ticker| + 1 + |isoDay|
    ensures seed[..|ticker|] == ticker
  {
    ticker + "-" + isoDay
  }

  /** On one day, two tickers share a seed exactly when they are the same ticker. */
  lemma SeedSeparatesTickers(t1: string, t2: string, isoDay: string)
    ensures Seed(t1, isoDay) == Seed(t2, isoDay) <==> t1 == t2
  {
    if Seed(t1, isoDay) == Seed(t2, isoDay) {
      assert |t1| == |t2|;
      assert t1 == Seed(t1, isoDay)[..|t1|];
    }
  }

  /** The price a fallback quote starts from. */
  function BasePrice(ticker: string, d: Draws): (p: real)
    ensures ticker in BaseMap ==> p == BaseMap[ticker]
    ensures ticker !in BaseMap ==> p == 100.0 + d.spread
  {
    if ticker in BaseMap then BaseMap[ticker] else 100.0 + d.spread
  }

  /** `int(abs(x))`: truncation toward zero of a non-negative number is its floor. */
  function TruncAbs(x: real): (n: int)
    ensures n >= 0
    ensures n as real <= (if x < 0.0 then -x else x) < n as real + 1.0
  {
    (if x < 0.0 then -x else x).Floor
  }

  /** `get_fallback_info`, with the generator's draws given and without rounding. */
  function FallbackInfo(ticker: string, d: Draws): (r: Info)
    ensures r.ticker == ticker && r.nome == ticker
    ensures r.moeda == "USD" && r.fallback
    ensures r.preco_anterior == BasePrice(ticker, d)
    ensures r.preco_atual == r.preco_anterior * (1.0 + d.drift)
    ensures r.variacao_percentual == d.drift * 100.0
    ensures r.variacao_dia == r.preco_atual * (r.variacao_percentual / 100.0)
    ensures r.volume == TruncAbs(d.volumeDraw)
  {
    var base := BasePrice(ticker, d);
    var precoAtual := base * (1.0 + d.drift);
    var variacaoPercentual := d.drift * 100.0;
    Info(ticker, precoAtual, base, precoAtual * (variacaoPercentual / 100.0),
         variacaoPercentual, TruncAbs(d.volumeDraw), "USD", ticker, true)
  }

  /**
   * With draws from their ranges the fallback quote is a positive price within 2% of
   * a positive reference price, its percentage change is at most 2 either way and its
   * volume is never negative.
   */
  lemma FallbackWithinTwoPercent(ticker: string, d: Draws)
    requires InRange(d)
    ensures FallbackInfo(ticker, d).preco_anterior >= 38.0 || ticker !in BaseMap
    ensures FallbackInfo(ticker, d).preco_anterior >= 90.0 || ticker in BaseMap
    ensures 0.98 * FallbackInfo(ticker, d).preco_anterior <= FallbackInfo(ticker, d).preco_atual <= 1.02 * FallbackInfo(ticker, d).preco_anterior
    ensures FallbackInfo(ticker, d).preco_atual > 0.0
    ensures -2.0 <= FallbackInfo(ticker, d).variacao_percentual <= 2.0
    ensures FallbackInfo(ticker, d).volume >= 0
  {
    var r, base := FallbackInfo(ticker, d), BasePrice(ticker, d);
    assert base > 0.0;
    MulBounds(base, 1.0 + d.drift);
    assert r.preco_anterior == base && r.preco_atual == base * (1.0 + d.drift);
  }

  /**
   * `get_fallback_info(ticker)` on the day `isoDay`. `gen` is the seeded generator: the
   * three draws `random.Random(seed)` produces for a seed string, the same whenever the
   * seed is the same.
   */
  function DailyFallback(gen: string -> Draws, ticker: string, isoDay: string): Info {
    FallbackInfo(ticker, gen(Seed(ticker, isoDay)))
  }

  /**
   * The daily stability the fallback promises: on one day a ticker always gets the same
   * quote, and a known ticker's reference price is the same on every day. The first
   * clause holds because `gen` is a function: it rests on the assumption that
   * `random.Random` seeded with the same string makes the same draws. The other two
   * hold whatever the generator does.
   */
  lemma DailyFallbackStable(gen: string -> Draws, ticker: string, isoDay: string, ticker': string, isoDay': string)
    ensures ticker == ticker' && isoDay == isoDay' ==> DailyFallback(gen, ticker, isoDay) == DailyFallback(gen, ticker', isoDay')
    ensures ticker == ticker' && ticker in BaseMap ==>
      DailyFallback(gen, ticker, isoDay).preco_anterior == DailyFallback(gen, ticker', isoDay').preco_anterior
    ensures DailyFallback(gen, ticker, isoDay).ticker == ticker && DailyFallback(gen, ticker, isoDay).fallback
  {
  }

  /** When the generator draws from the documented ranges, every day's quote stays within 2% of its base. */
  lemma DailyFallbackWithinTwoPercent(gen: string -> Draws, ticker: string, isoDay: string)
    requires InRange(gen(Seed(ticker, isoDay)))
    ensures var r := DailyFallback(gen, ticker, isoDay);
      && 0.98 * r.preco_anterior <= r.preco_atual <= 1.02 * r.preco_anterior
      && r.preco_atual > 0.0
      && -2.0 <= r.variacao_percentual <= 2.0
      && r.volume >= 0
  {
    FallbackWithinTwoPercent(ticker, gen(Seed(ticker, isoDay)));
  }

  lemma MulBounds(base: real, factor: real)
    requires base > 0.0 && 0.98 <= factor <= 1.02
    ensures 0.98 * base <= base * factor <= 1.02 * base
    ensures base * factor > 0.0
  {
  }
}
