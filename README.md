# Client and investment services: a verified model

The system is a small banking back office in two services.

- **Storage service.** Keeps a `clients` table and an `investments` table in SQLite.
- **Gateway.** Fetches from the storage service and computes derived views: the credit score, the return projection, the net worth and the portfolio breakdown by type. It also answers market-quote requests through a 60-second cache in front of a quote service.
- **Browser form.** Formats the balance field as Brazilian currency ("R$ 1.234,56") and turns the form into the JSON body of a client.

This project models the logic of those pieces in Dafny and proves what each one promises.

| file | module | what it models |
|---|---|---|
| `wrappers.dfy` | `Wrappers` | `Option` and `Result` |
| `sums.dfy` | `Sums` | a sum over a finite set, the SQL `SUM` and the sums of a dictionary's values |
| `sql_columns.dfy` | `SqlColumns` | a boolean stored in an INTEGER column as 1 or 0, shared by both tables |
| `client_models.dfy` | `ClientModels` | the client payload bounds, shared by the storage service and the gateway, which declare the same ones |
| `client_repository.dfy` | `ClientRepository` | the `clients` table as a class over a map from id to row, with its create, read, update and delete operations |
| `investment_repository.dfy` | `InvestmentRepository`, `InvestmentProperties` | the `investments` table as a class, the update's SET list, the newest-first listings and the active-amount total |
| `gateway.dfy` | `Gateway` | the score, projection and net-worth views, and the portfolio analysis loop |
| `yahoo_finance.dfy` | `YahooFinance` | ticker acceptance, the batch lookup, the offline fallback quote and the single lookup's error rule |
| `market_cache.dfy` | `MarketCache` | the quote cache and the market analysis route |
| `frontend.dfy` | `Frontend` | `formatCurrency` and `formToPayload` |

Modelling choices:

- **Tables.** Each table is the map from id to stored row. The `clients` table's AUTOINCREMENT counter is an explicit `lastId` field. The `investments` table is assumed to number its rows the same way. The UNIQUE constraint on `telefone` is an integrity error that leaves the table unchanged.
- **Outside calls.** HTTP responses, quote-library outcomes and the clock are parameters. The seeded random generator is a parameter too: a function from the seed string to its draws.
- **Amounts.** Amounts are exact `real`s. Money typed into the browser is an integer number of cents.

Where a test and the code disagree, the model follows the code. The projection test at app/tests/gateway/test_gateway_investments_analytics.py:200 expects the balance to be included in the base of the projection. app/gateway/main.py:352 uses the invested total alone, and so does `Gateway.ProjecaoRetorno`.

## Model

| member | source | states |
|---|---|---|
| ClientModels.UpdateBoundsMatchCreate | app/storage/models.py:15-20 | a patch is checked with the create bounds on the fields it names: a create payload is valid exactly when the patch naming all its fields is; the all-None patch is valid (the bounds themselves are the predicates `ValidName`, 1 to 255 characters, and `ValidOptionalAmount`, absent or ≥ 0, shared with app/gateway/models.py:5-20) |
| ClientRepository.MaxId | app/storage/repository.py:61-67 | `SELECT MAX(id)`: no value exactly for the empty table, otherwise an id of the table that no other id exceeds |
| ClientRepository.ClientTable.constructor | app/storage/db.py:49-50 | the freshly created table is empty and its AUTOINCREMENT counter is 0 |
| ClientRepository.ClientTable.GetClient | app/storage/repository.py:32-44 | None exactly when no row has the id; otherwise the record carries the requested id |
| ClientRepository.ClientTable.ListClients | app/storage/repository.py:16-29 | every row's record, each exactly once and converted by `_row_to_client`, and nothing else |
| ClientRepository.ClientTable.CreateClient | app/storage/repository.py:48-70 | a repeated phone is refused and nothing changes; otherwise the new row gets the next AUTOINCREMENT id, larger than every earlier id and absent before; the returned record is the payload under that id, it is what `get_client` then returns, and, with requests served one at a time, the read-back through `MAX(id)` finds it; the table invariant (ids, 0/1 flags, unique phones) is kept; a valid payload keeps every stored record within the payload bounds |
| ClientRepository.ClientTable.UpdateClient | app/storage/repository.py:72-93 | an unknown id answers None and changes nothing; a phone held by another row is refused and changes nothing; otherwise only that row changes, it becomes the merge of the record and the patch, and that merge is returned; a valid patch keeps every stored record within the payload bounds |
| ClientRepository.ClientTable.DeleteClient | app/storage/repository.py:96-108 | true exactly when the id existed; exactly that row is removed, `get_client` then finds nothing, and records within the bounds stay so |
| ClientRepository.CreatedRecordRoundTrip | app/storage/repository.py:5-13 | the row the INSERT writes, read back by `_row_to_client`, is the payload with the id: None amounts stay None and the stored 0/1 reads back as the boolean given; it validates exactly when the payload does |
| ClientRepository.UpdatedRecordRoundTrip | app/storage/repository.py:83-90 | writing the five data columns of a merged record and reading the row back gives the merged record |
| ClientRepository.MergeFieldwise | app/storage/repository.py:76 | a field that is None in the patch keeps its value, a present one replaces it, the id never changes, and a stored amount can never be cleared to None |
| ClientRepository.MergeIdentityAndIdempotence | app/storage/repository.py:76 | the all-None patch changes nothing, and applying a patch twice is the same as applying it once |
| ClientRepository.MergePreservesValidity | app/storage/repository.py:76 | a valid patch merged into a valid record gives a valid record |
| InvestmentRepository.Newest | app/storage/investment_repository.py:67 | picks a row of the set whose application time no other row of the set exceeds |
| InvestmentRepository.SelectNewestFirst | app/storage/investment_repository.py:58-84 | the rows of the selected ids, each exactly once, converted, ordered by application time, newest first |
| InvestmentRepository.SetList | app/storage/investment_repository.py:180-205 | one SET entry per non-None field, at most five; the list is empty exactly for the all-None patch; executed on any row, it gives the row with exactly the non-None fields replaced |
| InvestmentRepository.InvestmentTable.GetById | app/storage/investment_repository.py:87-126 | None exactly when no investment has the id; otherwise the record carries that id |
| InvestmentRepository.InvestmentTable.Create | app/storage/investment_repository.py:12-55 | inserts one row under a fresh id larger than every earlier one (under the assumed AUTOINCREMENT numbering; larger than every id present under either rule); the returned record carries the given client, type, ticker, amount and active flag, a missing `rentabilidade` as 0.0, and the insert time; `get_by_id` then returns it |
| InvestmentRepository.InvestmentTable.GetAll | app/storage/investment_repository.py:58-84 | every investment exactly once, newest first |
| InvestmentRepository.InvestmentTable.GetByCliente | app/storage/investment_repository.py:129-170 | exactly the investments of that client, each once, newest first |
| InvestmentRepository.InvestmentTable.Update | app/storage/investment_repository.py:173-216 | the all-None patch writes nothing and returns the current record (or None); an unknown id changes nothing and answers None; otherwise only that row changes, it gets exactly the non-None fields, and the new record is returned |
| InvestmentRepository.InvestmentTable.Delete | app/storage/investment_repository.py:219-230 | true exactly when the row existed; exactly that row is removed, and `get_by_id` then finds nothing |
| InvestmentRepository.InvestmentTable.GetTotalInvestidoCliente | app/storage/investment_repository.py:233-258 | the sum of `valor_investido` over the client's active rows (the SUM of the SELECT) |
| InvestmentProperties.AssignmentsKeepIdentity | app/storage/investment_repository.py:184-214 | no SET list changes the id, the owning client or the application time |
| InvestmentProperties.TotalAfterInsert | app/storage/investment_repository.py:238-258 | a new row raises its client's total by its amount when it is active, and changes no other total |
| InvestmentProperties.TotalAfterDelete | app/storage/investment_repository.py:238-258 | removing a row lowers its client's total by its amount when it was active |
| InvestmentProperties.TotalAfterReplace | app/storage/investment_repository.py:238-258 | replacing a row changes a client's total by the new contribution minus the old one |
| InvestmentProperties.TotalWithoutActive | app/storage/investment_repository.py:238-258 | a client with no active investment totals 0.0 (the COALESCE), whatever its inactive rows hold |
| InvestmentProperties.DeactivateLowersTotal | app/storage/investment_repository.py:200-216 | setting `ativo` to false through an update takes exactly that investment's amount out of its client's total |
| InvestmentProperties.ExampleTotalExcludesInactive | app/tests/storage/test_investments.py:129-152 | 1000.0 and 500.0 active with 300.0 inactive total 1500.0 |
| Gateway.ScoreCreditoSpec | app/gateway/main.py:210-225 | a 404 answers "not found"; otherwise the score is present exactly when the balance is, and is a tenth of it; for a non-negative balance the score is non-negative and not larger (the `ScoreOut` of app/gateway/models.py:26-30) |
| Gateway.ProjecaoRetornoSpec | app/gateway/main.py:324-380 | a 404 answers "not found"; the projection is the invested total times the rate, with the rate reported in percent; the rate is 8, 12 or 18 for CONSERVADOR, MODERADO or ARROJADO, 8 for a missing profile, and always one of the three; a 404 on the total projects 0.0 |
| Gateway.CalcularPatrimonioSpec | app/gateway/main.py:383-423 | a 404 answers "not found"; the net worth is the balance plus the investable balance plus the invested total, each 0 when missing; a 404 on the total leaves the two balances |
| Gateway.AnaliseCarteira | app/gateway/main.py:426-478 | "not found" on a 404 and an error on other failures; the request fails with a TypeError exactly when some investment has a null amount; otherwise the count is the listing's length, the total is every amount (active or not), the types are those of the grouping, and each type reports its count, total, active count and share of the total (0 when the total is not positive); a listing that does not answer 200 counts as empty |
| Gateway.Percentuais | app/gateway/main.py:462-471 | the second pass gives every type of `por_tipo`, and no other, its count, total, active count and share of the overall total, the share being 0 when that total is not positive |
| Gateway.GroupKeys | app/gateway/main.py:448-460 | the groups are exactly the types that occur; every group is non-empty and has no more active entries than entries |
| Gateway.GroupCountsAddUp | app/gateway/main.py:448-460 | the per-type counts add up to the number of investments |
| Gateway.GroupTotalsAddUp | app/gateway/main.py:448-460 | the per-type totals add up to the overall total |
| Gateway.PercentagesAddUp | app/gateway/main.py:463-471 | with a positive overall total the per-type shares add up to 100; otherwise every share is 0 |
| Gateway.AnaliseCarteiraConsistent | app/gateway/main.py:448-476 | in the portfolio answer: active counts never exceed counts; an investment without a type key puts "DESCONHECIDO" among the types, one with a null type puts None there, apart from it; with a positive total the shares add up to 100 |
| YahooFinance.GetMultipleTickers | app/gateway/yahoo_finance_service.py:202-217 | the keys are exactly the requested tickers; each holds its own lookup's answer (the last one when a ticker is requested twice) |
| YahooFinance.ValidarTicker | app/gateway/yahoo_finance_service.py:220-239 | a non-empty one-day history accepts; an empty history or an error accepts exactly when the upper-cased ticker is on the nine-entry allowlist |
| YahooFinance.OfflineIgnoresCase | app/gateway/yahoo_finance_service.py:236-239 | without history a ticker is accepted exactly when its upper-case form is |
| YahooFinance.OfflineAcceptsLowerCase | app/gateway/yahoo_finance_service.py:230-239 | without history "aapl" and "btc-usd" are accepted |
| YahooFinance.OfflineRejectsUnknown | app/gateway/yahoo_finance_service.py:230-239 | without history "INVALID" is rejected |
| YahooFinance.SeedSeparatesTickers | app/gateway/yahoo_finance_service.py:11-18 | on one day two tickers share a seed exactly when they are equal, so different tickers draw from differently seeded generators |
| YahooFinance.DailyFallbackStable | app/gateway/yahoo_finance_service.py:11-53 | the fallback is a daily snapshot: the same ticker on the same day gets the same quote (given that the seeded generator is deterministic, see "## Left out"); whatever the generator does, a known ticker's reference price is the same every day, and the quote echoes the ticker and is flagged as fallback |
| YahooFinance.DailyFallbackWithinTwoPercent | app/gateway/yahoo_finance_service.py:35-41 | when the seeded generator draws from the documented ranges, each day's quote is positive and within 2% of its reference price, its change is within ±2% and its volume is never negative |
| YahooFinance.FallbackWithinTwoPercent | app/gateway/yahoo_finance_service.py:35-41 | with draws from their ranges the price stays within 2% of a positive base price, is positive, the change is within ±2% and the volume is never negative |
| MarketCache.QuoteCache.constructor | app/gateway/main.py:22 | the cache starts empty |
| MarketCache.QuoteCache.AnalisarMercado | app/gateway/main.py:481-532 | the answer and the new cache are those of one request of `Mercado`, which the lemmas below characterise |
| MarketCache.FreshEntryNeedsNoFetch | app/gateway/main.py:493-495 | a cached quote younger than 60 s is answered as stored, with history, whatever the quote service would do, and the cache stays as it was |
| MarketCache.OnlyRequestedTickerChanges | app/gateway/main.py:496-502 | a request changes at most the requested ticker's entry, only when that entry was not fresh, and only by storing a quote stamped with the current time |
| MarketCache.ZeroedExactlyWithoutQuote | app/gateway/main.py:504-532 | the answer is the zeroed one without history exactly when no fresh entry exists and the lookup raised, or it and then the fallback gave nothing or raised; an answer with history is the one for the quote now cached under the ticker |
| MarketCache.RepeatWithinTtl | app/gateway/main.py:493-502 | once a request has answered with a quote, a repeat within 60 s of the stored time gets the same answer and leaves the cache unchanged |
| MarketCache.ExpiredEntryIsRefetched | app/gateway/main.py:493-502 | an entry 60 s old or older is replaced by a fresh lookup's quote, stamped with the current time |
| MarketCache.ServiceAlwaysAnswers | app/gateway/main.py:496-502 | with the quote service as written (`get_ticker_info` turns errors into "no quote", the daily fallback always builds a quote) the route always answers with history |
| MarketCache.OfflineAnswerStableWithinDay | app/gateway/main.py:496-502 | while the quote service has nothing, every request of one day that the cache does not answer gets that day's fallback quote, whatever the cache held and whatever the time |
| Frontend.FirstThousandDot | app/gateway/frontend/app.js:63 | finds the leftmost match of `(\d)(\d{3}\.)` at or after a position, or reports that none exists |
| Frontend.FormatCurrencyEmpty | app/gateway/frontend/app.js:56-57 | the result is "" exactly when the input has no digit |
| Frontend.FormattedDigits | app/gateway/frontend/app.js:54-65 | the digits of a formatted amount spell its integer part followed by exactly two cent digits |
| Frontend.FormattedCents | app/gateway/frontend/app.js:59-61 | the digits of a formatted amount read back as the same number of cents |
| Frontend.DisplayDependsOnDigitsOnly | app/gateway/frontend/app.js:56-59 | the display depends only on the digits typed: stripping every other character changes nothing, nor do zeros typed before an amount |
| Frontend.FormatCurrencyIdempotent | app/gateway/frontend/app.js:148-151 | formatting a formatted value changes nothing, so reformatting the field on every input event is stable |
| Frontend.TypingADigit | app/gateway/frontend/app.js:148-151 | typing a digit after the formatted value shifts the amount one place left and makes the digit the last cent |
| Frontend.DeletingADigit | app/gateway/frontend/app.js:148-151 | deleting the last character of the formatted value leaves a tenth of the amount, rounded down |
| Frontend.GroupedForm | app/gateway/frontend/app.js:62-63 | the corrected grouping of any integer part has the thousands form: 1 to 3 digits, then groups of a dot and three digits |
| Frontend.FormRecoversGrouping | app/gateway/frontend/app.js:62-63 | a text in the thousands form is the corrected grouping of its own digits, so the corrected formatting is the only well-grouped rendering |
| Frontend.WrittenMatchesGrouped | app/gateway/frontend/app.js:62-63 | up to nine integer digits the two replacements as written group exactly as intended |
| Frontend.WrittenGroupingBreaksForm | app/gateway/frontend/app.js:62-63 | from ten integer digits on, the grouping as written is not in the thousands form |
| Frontend.LongAmountsMisgrouped | app/gateway/frontend/app.js:54-65 | from R$ 1.000.000.000,00 on, the field as written shows a different text from the intended one |
| Frontend.OneBillionShown | app/gateway/frontend/app.js:62-63 | one billion's integer part is written "1000.000.000", where "1.000.000.000" is intended |
| Frontend.IndexOf | app/gateway/frontend/app.js:49 | the first position of a character, or none when it does not occur |
| Frontend.NumberOf | app/gateway/frontend/app.js:49 | `Number` of a digit string is its decimal value; a string with a comma is NaN |
| Frontend.ParseSaldo | app/gateway/frontend/app.js:47-49 | the balance is null exactly when no digit or comma is left after stripping |
| Frontend.FormToPayload | app/gateway/frontend/app.js:30-52 | rejects a non-integer or under-18 age first, then a missing phone, then a phone without exactly 11 digits; it succeeds exactly otherwise, and the payload object then has the form's fields as text, plus the age, the phone's digits as a number, the account-holder flag and the converted balance (null or a number) |
| Frontend.Stringified | app/gateway/frontend/app.js:11 | what `JSON.stringify` writes for a payload value is never `NaN`; `SubmittedBalance` and `ParseSaldoSecondComma` show what it writes for the balance |
| Frontend.PhoneNumberExact | app/gateway/frontend/app.js:40-44 | an accepted phone number is below 10^11, so it is held exactly as a number |
| Frontend.SaldoReadsFormattedAmount | app/gateway/frontend/app.js:46-49 | a field formatted for n cents gives the payload n / 100, with the formatting as written and with the corrected one |
| Frontend.SubmittedBalance | app/gateway/frontend/app.js:46-49 | what the balance field gives the payload for whatever was typed: null without a digit, otherwise the typed digits read as cents over 100, a finite number that reaches the request body unchanged |
| Frontend.ParseSaldoNothing | app/gateway/frontend/app.js:47-49 | "" and "abc" give the payload null |
| Frontend.ParseSaldoComma | app/gateway/frontend/app.js:48-49 | "12,5" gives the payload 12.5: the comma is read as the decimal point |
| Frontend.ParseSaldoSecondComma | app/gateway/frontend/app.js:48-49 | "1,2,3" gives the payload NaN, since only the first comma becomes a point; `JSON.stringify` sends it as null |

## Left out

- **Connections.** Opening and closing connections, the `should_close` bookkeeping, the PostgreSQL branches and the schema DDL are not modelled. The model is the SQLite behaviour, with the AUTOINCREMENT ids and the UNIQUE `telefone` constraint of the `clients` table.
- ClientRepository.ClientTable.CreateClient: requests are modelled one at a time. A concurrent insert between the commit and `SELECT MAX(id)` (app/storage/repository.py:59-61) would make `create_client` return the other client's row; that interleaving is not modelled.
- **Email uniqueness.** The UNIQUE constraint on `email` is not modelled, because no modelled operation writes an email.
- **Creating investments.** An investment's insert cannot fail in the model: no constraint on the `investments` table is part of this model.
- InvestmentRepository.InvestmentTable.Create: the `investments` table's schema is not part of this model. The ids are assumed to follow AUTOINCREMENT, as for `clients`. Under plain rowid numbering an id freed by deleting the newest row could be handed out again; the clause that the new id exceeds every id present holds under both rules.
- Gateway.AnaliseCarteira: `alocacao_por_tipo` is a map, so the order of first appearance in which the source lists the types is not modelled. How the JSON encoder writes the None key of a null type is not modelled either.
- **Investment types.** The `TipoInvestimento` enumeration is not part of this model. Its four values are taken from the tests.
- **Transport.** HTTP routing, status-code mapping and the HTTP client are not modelled; the storage answers the gateway reads are parameters. This covers the gateway's CRUD proxies, its static files, and its registration, login and password routes.
- **Rounding.** `round(…, 2)` in the gateway views and in the fallback quote is not modelled. Amounts are exact reals, so float rounding error is not modelled either.
- **Quote library.** Calls into the quote library are oracle parameters: the lookup's outcome, the one-day history and the fallback's three random draws. The clock is a parameter too. The inner branches of `get_ticker_info`, `get_historico` and `calcular_rentabilidade` are not modelled.
- YahooFinance.UpperChar: upper-cases ASCII letters only, not the full Unicode case mapping of `str.upper()`.
- YahooFinance.DailyFallback: the generator is a parameter, a function from the seed string to its three draws. That `random.Random` yields the same draws for the same seed is assumed, not modelled; the draws' distributions are not modelled either.
- **Browser.** The DOM, `fetch`, event wiring and app/gateway/static/app.js are not modelled.
- Frontend.FormToPayload: the age arrives as the number that `Number` produced for its text. The JavaScript number grammar for that text is not modelled.
- Frontend.NumberOf: models `Number` only on the strings the balance conversion can produce: digits, dots and commas. Signs, exponents, whitespace and hexadecimal are not modelled.
- Frontend.ToFixed2: `(Number(num) / 100).toFixed(2)` is modelled exactly on the integer number of cents. The browser divides in double precision, and from 2^46 reais (about 7·10^15 cents) half a unit in the last place exceeds half a cent, so the cents shown can differ: 7036874417766401 cents shows ",02" where the model gives ",01". From 10^21 reais `toFixed` writes an exponent, and from about 309 digits `Number` gives Infinity, so the field shows "R$ Infinity" and the balance is sent as null. None of this is modelled.
- Frontend.FormattedCents: holds for the browser only below 2^46 reais (about 7·10^15 cents); see `Frontend.ToFixed2`.
- Frontend.SaldoReadsFormattedAmount: holds for the browser only below 2^46 reais (about 7·10^15 cents); see `Frontend.ToFixed2`.
- Frontend.SubmittedBalance: holds for the browser only below 2^46 reais (about 7·10^15 cents); see `Frontend.ToFixed2`.
- **Missing balance field.** A form without a balance field is treated like an empty one (`FieldOr`).

## Findings

| source | as written | input that shows it | evidently intended | confidence | as-written member | corrected member |
|---|---|---|---|---|---|---|
| app/gateway/frontend/app.js:62-63 | the two `replace` calls insert at most two thousands separators, so from ten integer digits on the first group keeps four or more digits | typing the digits "100000000000" shows "R$ 1000.000.000,00" | "R$ 1.000.000.000,00": a separator before every group of three | not executed | Frontend.LongAmountsMisgrouped | Frontend.FormRecoversGrouping |

The as-written side is `Frontend.FormatCents`. `Frontend.WrittenGroupingBreaksForm` and `Frontend.OneBillionShown` exhibit the discrepancy.

The corrected side is `Frontend.FormatCentsGrouped` and `Frontend.FormatCurrencyGrouped`. For these, `Frontend.GroupedForm` and `Frontend.FormRecoversGrouping` prove the grouping is correct, and `Frontend.FormattedCents` and `Frontend.SaldoReadsFormattedAmount` prove the round trip. `Frontend.WrittenMatchesGrouped` shows the two versions agree up to nine integer digits, which covers every amount below one billion.
