/**
 * The gateway's market analysis route (`GET /analises/mercado/{ticker}` in
 * app/gateway/main.py) and the process-wide quote cache it keeps: a quote fetched less
 * than 60 seconds ago is answered from the cache; otherwise the quote service is asked,
 * then its offline fallback, and whatever non-empty quote comes back is cached with the
 * current time. The clock and both service calls are parameters.
 */
module MarketCache {
  import opened Wrappers
  import opened YahooFinance

  /** How long a cached quote is served without asking the quote service again. */
  const CacheTtlSeconds: real := 60.0

  /** A cache entry: the quote and the time it was stored. */
  datatype Entry = Entry(info: Info, ts: real)

  /** The route's answer. */
  datatype AnaliseMercado = AnaliseMercado(
    ticker: string,
    preco_atual: real,
    variacao_dia: real,
    variacao_percentual: real,
    volume: int,
    historico_disponivel: bool)

  /** The answer when there is no quote: zeros, and no history. */
  function Zeroed(ticker: string): AnaliseMercado {
    AnaliseMercado(ticker, 0.0, 0.0, 0.0, 0, false)
  }

  /** The answer built from a quote. */
  function FromInfo(ticker: string, info: Info): AnaliseMercado {
    AnaliseMercado(ticker, info.preco_atual, info.variacao_dia, info.variacao_percentual, info.volume, true)
  }

  /** A cached quote for `ticker` younger than the time-to-live at `now`. */
  predicate Fresh(entries: map<string, Entry>, ticker: string, now: real) {
    ticker in entries && now - entries[ticker].ts < CacheTtlSeconds
  }

  /**
   * Reference definition of one request: the answer and the cache afterwards, given the
   * cache before, the clock, and what the quote service and its fallback would do if
   * called. An exception anywhere answers zeros and leaves the cache as it was.
   */
  function Mercado(entries: map<string, Entry>, ticker: string, now: real,
                   fetch: Attempt<Option<Info>>, fallback: Attempt<Option<Info>>)
    : (map<string, Entry>, AnaliseMercado)
  {
    if Fresh(entries, ticker, now) then
      (entries, FromInfo(ticker, entries[ticker].info))
    else if fetch.Raised? then
      (entries, Zeroed(ticker))
    else if fetch.result.None? && fallback.Raised? then
      (entries, Zeroed(ticker))
    else
      var info := if fetch.result.Some? then fetch.result else fallback.result;
      match info
      case None => (entries, Zeroed(ticker))
      case Some(i) => (entries[ticker := Entry(i, now)], FromInfo(ticker, i))
  }

  /** `MARKET_CACHE`: quotes by ticker, each with the time it was stored. */
  class QuoteCache {
    var entries: map<string, Entry>

    constructor()
      ensures entries == map[]
    {
      entries := map[];
    }

    /**
     * `analise_mercado`. `fetch` is what `get_ticker_info` does and `fallback` what
     * `get_fallback_info` does, each consulted only when the code reaches it.
     */
    method AnalisarMercado(ticker: string, now: real,
                           fetch: Attempt<Option<Info>>, fallback: Attempt<Option<Info>>)
      returns (r: AnaliseMercado)
      modifies this
      ensures (entries, r) == Mercado(old(entries), ticker, now, fetch, fallback)
    {
      var info: Option<Info>;
      if ticker in entries && now - entries[ticker].ts < CacheTtlSeconds {
        info := Some(entries[ticker].info);
      } else {
        if fetch.Raised? {
          return Zeroed(ticker);
        }
        info := fetch.result;
        if info.None? {
          if fallback.Raised? {
            return Zeroed(ticker);
          }
          info := fallback.result;
        }
        if info.Some? {
          entries := entries[ticker := Entry(info.value, now)];
        }
      }
      if info.None? {
        return Zeroed(ticker);
      }
      r := FromInfo(ticker, info.value);
    }
  }

  // ------------------------------------------------------------ properties of one request

  /** A fresh cached quote is answered as stored, whatever the quote service would do. */
  lemma FreshEntryNeedsNoFetch(entries: map<string, Entry>, ticker: string, now: real,
                               fetch: Attempt<Option<Info>>, fallback: Attempt<Option<Info>>,
                               fetch': Attempt<Option<Info>>, fallback': Attempt<Option<Info>>)
    requires Fresh(entries, ticker, now)
    ensures Mercado(entries, ticker, now, fetch, fallback) == Mercado(entries, ticker, now, fetch', fallback')
    ensures Mercado(entries, ticker, now, fetch, fallback).0 == entries
    ensures Mercado(entries, ticker, now, fetch, fallback).1.historico_disponivel
    ensures Mercado(entries, ticker, now, fetch, fallback).1.preco_atual == entries[ticker].info.preco_atual
  {
  }

  /**
   * A request changes at most the requested ticker's entry, and only by storing a
   * quote stamped with the current time.
   */
  lemma OnlyRequestedTickerChanges(entries: map<string, Entry>, ticker: string, now: real,
                                   fetch: Attempt<Option<Info>>, fallback: Attempt<Option<Info>>)
    ensures var after := Mercado(entries, ticker, now, fetch, fallback).0;
      && after.Keys == entries.Keys + (if after == entries then {} else {ticker})
      && (forall t :: t in entries && t != ticker ==> after[t] == entries[t])
      && (after != entries ==> after[ticker].ts == now && !Fresh(entries, ticker, now))
  {
  }

  /**
   * The answer says "no history" exactly when no quote was obtained, and then every
   * number in it is zero; a stored quote always answers with history.
   */
  lemma ZeroedExactlyWithoutQuote(entries: map<string, Entry>, ticker: string, now: real,
                                  fetch: Attempt<Option<Info>>, fallback: Attempt<Option<Info>>)
    ensures var (after, r) := Mercado(entries, ticker, now, fetch, fallback);
      && r.ticker == ticker
      && (!r.historico_disponivel <==> r == Zeroed(ticker))
      && (!r.historico_disponivel <==>
            !Fresh(entries, ticker, now) &&
            (fetch.Raised? || (fetch.result.None? && (fallback.Raised? || fallback.result.None?))))
      && (r.historico_disponivel ==> Fresh(after, ticker, now) && r == FromInfo(ticker, after[ticker].info))
  {
  }

  /**
   * Once a request has answered with a quote, any request for the same ticker within
   * the time-to-live of the stored entry gets the same answer and leaves the cache
   * alone, whatever the quote service would do then.
   */
  lemma {:induction false} RepeatWithinTtl(entries: map<string, Entry>, ticker: string, now: real,
                         fetch: Attempt<Option<Info>>, fallback: Attempt<Option<Info>>,
                         later: real, fetch': Attempt<Option<Info>>, fallback': Attempt<Option<Info>>)
    requires Mercado(entries, ticker, now, fetch, fallback).1.historico_disponivel
    requires var after := Mercado(entries, ticker, now, fetch, fallback).0;
      ticker in after && later - after[ticker].ts < CacheTtlSeconds
    ensures var (after, r) := Mercado(entries, ticker, now, fetch, fallback);
      Mercado(after, ticker, later, fetch', fallback') == (after, r)
  {
    ZeroedExactlyWithoutQuote(entries, ticker, now, fetch, fallback);
  }

  /** An entry 60 seconds old or older is no longer served: the quote service is asked again. */
  lemma ExpiredEntryIsRefetched(entries: map<string, Entry>, ticker: string, now: real, newInfo: Info,
                                fallback: Attempt<Option<Info>>)
    requires ticker in entries && now - entries[ticker].ts >= CacheTtlSeconds
    ensures Mercado(entries, ticker, now, Returned(Some(newInfo)), fallback)
         == (entries[ticker := Entry(newInfo, now)], FromInfo(ticker, newInfo))
  {
  }

  /**
   * With the quote service as written (its lookup never raises, and its fallback always
   * produces a quote) the route always answers with history.
   */
  lemma ServiceAlwaysAnswers(entries: map<string, Entry>, ticker: string, now: real,
                             lookup: Attempt<Option<Info>>, gen: string -> Draws, isoDay: string)
    ensures Mercado(entries, ticker, now, Returned(GetTickerInfo(lookup)),
                    Returned(Some(DailyFallback(gen, ticker, isoDay)))).1.historico_disponivel
  {
  }

  /**
   * While the quote service has no quote, every request of one day that the cache does
   * not answer gets the day's fallback quote, whatever the cache held and whenever in
   * the day it is asked.
   */
  lemma OfflineAnswerStableWithinDay(entries: map<string, Entry>, entries': map<string, Entry>, ticker: string,
                                     now: real, now': real, gen: string -> Draws, isoDay: string)
    requires !Fresh(entries, ticker, now) && !Fresh(entries', ticker, now')
    ensures var offline := Returned(Some(DailyFallback(gen, ticker, isoDay)));
      && Mercado(entries, ticker, now, Returned(None), offline).1
         == Mercado(entries', ticker, now', Returned(None), offline).1
      && Mercado(entries, ticker, now, Returned(None), offline).1 == FromInfo(ticker, DailyFallback(gen, ticker, isoDay))
  {
  }
}
