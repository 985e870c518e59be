# CoinPriceNotifier, modelled in Dafny

CoinPriceNotifier watches the coin tickers of a feixiaohao.com account. On every
scheduler tick it does four things:

1. It fetches the user's ticker page.
2. It keeps the table rows whose coin-type cell contains one of the configured
   coin types.
3. It turns each kept row into a price record.
4. It decides, per record, whether to send an SMS. That decision depends on the
   time since that coin's last SMS, two percent thresholds, and the swing from
   the percent last seen.

The task context stores, per coin, the time of the last SMS and the last percent
seen, and updates both in place.

This project models that core:

- **Wrappers** (`wrappers.dfy`): `Option`. `None` stands for a Go error result.
- **GoStrings** (`gostrings.dfy`): the parts of Go's `strings` package the core
  relies on:
  - `TrimSpace`, which trims Unicode white space as `unicode.IsSpace` defines it;
  - `Trim` with a cutset;
  - `Contains`, where the empty substring is always contained.
  Both trims are one `TrimFunc` over a first-order `Cutset`.
- **GoStrconv** (`gostrconv.dfy`): the decimal subset of
  `strconv.ParseFloat(s, 32)`. It covers an optional sign, digits with at most
  one point and at least one digit, and the range error for magnitudes from
  2^128 − 2^103 upwards (half an ulp past the largest float32).
- **Feixiaohao** (`feixiaohao.dfy`): the scraper side, from
  `feixiaohao/login.go`:
  - the `CoinFilter` and `CoinPriceMeta` records;
  - `StringListContains` as a loop;
  - the row loop of `GetUserTicket`, which reads the page as rows of cell texts
    and fills each record from cells 1, 2, 3 and 6.

  The fetched page is an input: either `RequestFailed` or the table rows.
- **CoinNotify** (`notifier.dfy`): the scheduler side, from `main.go`:
  - `ConvertPercent2Float`;
  - `NeedNotify`. Its checks after the percent conversion are `Decide`.
  - the `TaskContext` class with its two maps and the `Task` method.

  The clock is the parameter `now`. The SMS gateway is the sequence of
  `SmsContent` values that `Task` returns.

The specification of a tick is given by functions over *sightings*:

- A sighting is a record paired with its converted percent, so a sighting's
  `Verdict` is `NeedNotify` on the record (`SightingsVerdict`).
- `AfterTick` is the state after handling the sightings in order. Each one sees
  the updates made by those before it.
- `NotifiedAt` is the verdict for one sighting.
- `Notices` is the sequence of messages sent.

`Task` is proved to leave exactly `AfterTick` and to return exactly `Notices`.
The lemmas then say what those two mean.

The task context keeps one invariant: every coin with a stamp also has a
record. The constructor establishes it and every tick keeps it. As a result,
the amplitude check never falls back to the zero default for a missing record
(`UnrecordedCoinIsDue`). That path is reachable only in a context built by hand.

## Model

| member | source | states |
|---|---|---|
| GoStrings.TrimFunc | main.go:109-112 | The result is no longer than the input and starts and ends with a character outside the cutset. |
| GoStrings.TrimSpace | main.go:109 | `strings.TrimSpace`: the result is no longer than the input and has no white space at either end. `TrimFuncUnique` pins it down exactly. |
| GoStrings.Trim | main.go:112 | `strings.Trim(s, "%")`: the result is no longer than the input and has no cutset character at either end. `TrimFuncUnique` pins it down exactly. |
| GoStrings.TrimFuncUnique | main.go:109-112 | Trimming `p + m + q` gives exactly `m` when `p` and `q` consist of cut characters and `m` has none at its edges. This characterises `strings.TrimSpace` and `strings.Trim`. |
| GoStrings.TrimFuncIdempotent | main.go:109-112 | Trimming twice is trimming once. |
| GoStrings.TrimLeftSkipsCut | main.go:109-112 | A prefix made of cut characters is skipped entirely by the left trim. |
| GoStrings.TrimRightSkipsCut | main.go:109-112 | A suffix made of cut characters is dropped entirely by the right trim. |
| GoStrings.Contains | feixiaohao/login.go:109 | `strings.Contains`: `sub` occurs at some offset of the text. Only a substring no longer than the text can be contained. `ContainsEmpty` and `ContainsInfix` give the cases the filter relies on. |
| GoStrings.ContainsEmpty | feixiaohao/login.go:109 | Every string contains the empty string, as `strings.Contains` does. |
| GoStrings.ContainsInfix | feixiaohao/login.go:109 | `a + sub + b` contains `sub`. |
| GoStrings.LongerNotContained | feixiaohao/login.go:109 | A substring longer than the text is never contained. |
| GoStrconv.DigitsValue | main.go:114 | The value of n decimal digits is below 10^n. |
| GoStrconv.Fraction | main.go:114 | Digits after the point are worth at least 0 and less than 1. |
| GoStrconv.IndexOf | main.go:114 | The decimal point found is the first one, or the length when there is none. |
| GoStrconv.ParseUnsigned | main.go:114 | An unsigned decimal, digits with at most one point, is never negative. What it accepts is `ParseUnsignedAccepts`, what it yields is `ParseUnsignedPoint`. |
| GoStrconv.ParseDecimal | main.go:114 | An optional sign then an unsigned decimal: only a leading minus gives a negative value. `ParseDecimalMinus` and `ParseDecimalUnsigned` give the two sign cases. |
| GoStrconv.ParseDecimalMinus | main.go:114 | A leading minus negates the unsigned parse of the rest, errors included. |
| GoStrconv.ParseDecimalUnsigned | main.go:114 | Without a sign, the decimal parse is the unsigned parse. |
| GoStrconv.ParseFloat32InRange | main.go:114-118 | A decimal value inside the float32 range is returned unchanged. |
| GoStrconv.ParseFloat32 | main.go:114-117 | A successful parse lies strictly between minus and plus the float32 overflow bound. |
| GoStrconv.ParseFloat32Accepts | main.go:114-117 | A successful parse has a non-empty input with at least one digit, only digits, points and signs, at most one point, and a sign only in first position. So empty input, white space and `%` are errors. |
| GoStrconv.ParseUnsignedAccepts | main.go:114-117 | An unsigned parse succeeds only on digits and at most one point, with at least one digit. |
| GoStrconv.Pow10Monotone | main.go:114 | Powers of ten grow with the exponent. |
| GoStrconv.ShortDigitsInRange | main.go:114-117 | An integer part of at most 38 digits, even with a fraction added, stays below the float32 overflow bound. So such a percent never fails with a range error. |
| GoStrconv.ParseRejectsChar | main.go:114-117 | Any character outside the decimal grammar makes the parse an error. |
| GoStrconv.ParseDigits | main.go:114-118 | A plain run of digits within range parses to its value. |
| GoStrconv.ParseUnsignedPoint | main.go:114 | `whole.frac` reads as whole plus the fraction. |
| GoStrconv.ParseFloat32Point | main.go:114-118 | In range, `whole.frac` parses to whole plus the fraction. |
| GoStrconv.ParseFloat32NegativePoint | main.go:114-118 | In range, `-whole.frac` parses to the negated value. |
| GoStrconv.ParseFloat32Minus | main.go:114-118 | A leading minus negates an in-range unsigned value. |
| GoStrconv.IndexOfAbsent | main.go:114 | A string without a point has its index at its length. |
| GoStrconv.IndexOfAfter | main.go:114 | The first point of `w + "." + f`, with `w` point-free, is the one right after `w`. |
| CoinNotify.ConvertPercentLayout | main.go:107-119 | However much white space and however many `%` signs surround a number with bare edges, the conversion parses exactly that number. |
| CoinNotify.ConvertPercent2Float | main.go:107-119 | Trims white space, then `%`, then parses. A successful conversion lies strictly within the float32 range. `ConvertPercentLayout` characterises what it parses, and `SpaceBeforePercentRejected` shows an error case. |
| CoinNotify.ConvertPercentPlain | main.go:107-119 | "5.2%" converts to 5.2. |
| CoinNotify.ConvertPercentNegative | main.go:107-119 | "-3.1%" converts to -3.1. |
| CoinNotify.SpaceBeforePercentRejected | main.go:107-119 | "5.2 %" is an error: spaces are trimmed before `%`, so the inner space stays. |
| CoinNotify.SpacedPercentTrimmed | main.go:108-112 | The two trims turn "5.2 %" into "5.2 ": the space inside stays. |
| CoinNotify.TrailingSpaceRejected | main.go:114-117 | "5.2 " is a parse error. |
| CoinNotify.ParsesFivePointTwo | main.go:114-118 | "5.2" parses to 5.2. |
| CoinNotify.ParsesMinusThreePointOne | main.go:114-118 | "-3.1" parses to -3.1. |
| CoinNotify.NeedNotify | main.go:82-105 | A conversion error gives (false, 0). Otherwise the percent is returned, and the verdict is true exactly when the coin is due (stamp 0, or a positive stamp at least a period old), or the percent reaches either threshold, or it moved at least the amplitude from the last record. The order of the checks does not change the verdict. |
| CoinNotify.Decide | main.go:88-104 | The checks after the conversion: `None` gives (false, 0); a percent is returned with a verdict that is true exactly when the coin is due, outside the band or swung. |
| CoinNotify.FirstSightNotifies | main.go:89-92 | A coin with no stamp, whose percent converts, is notified with that percent. |
| CoinNotify.NegativeStampNeverDue | main.go:89-102 | With a negative stored stamp, only the thresholds and the amplitude can fire. |
| CoinNotify.MissingRecordIsZero | main.go:99-104 | A coin with no record is compared with 0 for the amplitude. This needs a stamp without a record, so it arises only in a context built by hand with a stamp and no record (see `UnrecordedCoinIsDue`). |
| CoinNotify.NeedNotifyLocal | main.go:82-105 | The verdict reads only the observed coin's entries and the filter. |
| CoinNotify.ZeroThresholdsAlwaysNotify | main_test.go:12-76 | With the zero thresholds of the unit test, every parseable percent is notified, whatever the stamps say. |
| CoinNotify.FreshContextNotifiesFivePointTwo | main_test.go:13-36 | A first "5.2%" in a fresh context gives (true, 5.2). |
| CoinNotify.SightingsVerdict | main.go:59-61 | The tick's verdict on each sighting equals `NeedNotify` on the record it came from. |
| CoinNotify.Step | main.go:61-78 | Handling one observation keeps the filter, gives the coin a record, adds no other record and adds a stamp for that coin at most. `StepSetsStamp`, `StepKeepsNow` and `StepKeepsStamp` say which stamp it holds. |
| CoinNotify.AfterTick | main.go:59-79 | The state after the observations in order keeps the filter. `AfterTickKeys`, `AfterTickRecord`, `AfterTickStampSet` and `AfterTickStampKept` characterise its maps. |
| CoinNotify.TickStep | main.go:59-79 | One more observation is one more step and at most one more message. |
| CoinNotify.AfterTickKeys | main.go:59-79 | A tick keeps the filter. It gives every observed coin a record and creates no other record. Stamps are only added, and only for observed coins. |
| CoinNotify.AfterTickUntouched | main.go:59-79 | A coin not observed in the tick keeps its stamp and its record, or its lack of them. |
| CoinNotify.AfterTickRecord | main.go:78 | A coin's record after the tick is the percent returned for its last observation, and 0 when that did not convert. |
| CoinNotify.StepSetsStamp | main.go:61-76 | A positive verdict stamps the coin with `now`. |
| CoinNotify.StepKeepsNow | main.go:61-76 | A stamp equal to `now` stays `now`. |
| CoinNotify.StepKeepsStamp | main.go:61-76 | Any other coin, or the same coin on a negative verdict, keeps its stamp. |
| CoinNotify.NotifiedAtPrefix | main.go:59-61 | A verdict is the same in a prefix of the tick as in the whole tick. |
| CoinNotify.AfterTickStampSet | main.go:61-76 | A coin with a positive verdict anywhere in the tick ends it stamped `now`. |
| CoinNotify.AfterTickStampKept | main.go:61-76 | A coin with no positive verdict keeps its stamp, or its lack of one. |
| CoinNotify.NoticesSound | main.go:61-68 | Every message sent belongs to an observation with a positive verdict and carries its platform, coin type, price and percent. |
| CoinNotify.NoticesComplete | main.go:61-68 | Every observation with a positive verdict sends its message. |
| CoinNotify.Notices | main.go:59-68 | A tick sends at most one message per observation. `NoticesSound` and `NoticesComplete` say which ones. |
| CoinNotify.AfterTickKeepsStampsRecorded | main.go:59-79 | "Every stamped coin has a record" holds after a tick when it held before. |
| CoinNotify.SecondSightingThrottled | main.go:59-79 | For observations `j < k` of the same coin in one tick, with a positive period and a non-zero clock read once for the whole tick: if `j` was notified, `k` is not notified unless it reaches a threshold or swings by the amplitude from the record left by the observations before it. |
| CoinNotify.ZeroPeriodRenotifies | main.go:59-92 | With a period of 0 or less and a positive clock, a coin notified earlier in a tick is notified again at every later observation whose percent converts. |
| CoinNotify.UnrecordedCoinIsDue | main.go:89-100 | Under the task-context invariant, a coin with no record is due. So a context built by the constructor and ticks never reaches the zero-record amplitude check. |
| CoinNotify.TaskContext.constructor | main.go:151-157 | A new context has empty maps, which satisfy the invariant. |
| CoinNotify.TaskContext.Task | main.go:51-80 | After a tick, the maps are `AfterTick` of the old state over the sightings of the fetched records. The messages sent are `Notices` of them. The invariant that every stamped coin has a record is required and kept. |
| Feixiaohao.WatchedIff | feixiaohao/login.go:106-114 | The recursive membership test holds exactly when some listed coin type is a substring of the text. |
| Feixiaohao.Watched | feixiaohao/login.go:106-114 | The recursive membership test: when it holds, some listed coin type is a substring of the text. `WatchedIff` gives both directions. |
| Feixiaohao.StringListContains | feixiaohao/login.go:106-114 | The loop answers true exactly when some entry of the list is a substring of the element. |
| Feixiaohao.EmptyListWatchesNothing | feixiaohao/login.go:106-114 | An empty coin-type list keeps no row. |
| Feixiaohao.EmptyEntryWatchesAll | feixiaohao/login.go:106-114 | A list containing "" keeps every row. |
| Feixiaohao.WatchedByContainment | feixiaohao/login.go:106-114 | A listed type inside the cell text makes the row kept, e.g. "BTC" keeps "BTC/USDT". |
| Feixiaohao.FillMeta | feixiaohao/login.go:84-96 | The record holds the trimmed texts of cells 1, 2, 3 and 6 as coin type, platform, price and percent. A missing cell gives "". |
| Feixiaohao.RowMeta | feixiaohao/login.go:84-96 | The record of a row has no white space at the ends of its coin type, platform, price and percent. `RowMetaTrimmed` says which cell each field comes from. |
| Feixiaohao.Ticket | feixiaohao/login.go:63-103 | A failed fetch gives no records. Otherwise there are at most as many records as rows. |
| Feixiaohao.GetUserTicket | feixiaohao/login.go:63-103 | A failed fetch returns no records and an error. Otherwise the records are those of the kept rows, in page order. |
| Feixiaohao.SelectedStep | feixiaohao/login.go:80-100 | One more row adds its record exactly when it is kept. |
| Feixiaohao.Selected | feixiaohao/login.go:80-100 | The records of the kept rows, in row order: never more than the rows. `SelectedSound` and `SelectedComplete` say which ones. |
| Feixiaohao.SelectedAppend | feixiaohao/login.go:80-100 | Selecting from two pieces of a page is selecting from each and concatenating. |
| Feixiaohao.SelectedSound | feixiaohao/login.go:80-100 | Every returned record comes from a kept row. |
| Feixiaohao.SelectedComplete | feixiaohao/login.go:80-100 | Every kept row contributes its record. |
| Feixiaohao.SelectedLength | feixiaohao/login.go:80-100 | Never more records than rows. Exactly as many when every row is kept, and none when no row is kept. |
| Feixiaohao.RowMetaTrimmed | feixiaohao/login.go:85-96 | White space around cells 1, 2, 3 and 6 does not reach the record's coin type, platform, price and percent. |
| Feixiaohao.UntrimmedMembership | feixiaohao/login.go:83-88 | The filter tests the untrimmed cell while the record stores it trimmed. A coin cell " BTC " is kept by the entry " BTC", yet the stored coin type "BTC" no longer matches that entry. |
| Feixiaohao.PaddedCellKept | feixiaohao/login.go:83-88 | A row whose coin cell is " BTC " is kept by the entry " BTC". |
| Feixiaohao.PaddedCellTrimmed | feixiaohao/login.go:85-88 | The same row's record has coin type "BTC". |
| Feixiaohao.ShorterNotWatched | feixiaohao/login.go:106-114 | List entries all longer than the text keep nothing. |

## Left out

- Float32 rounding: percents, thresholds and amplitudes are exact reals.
  - `GoStrconv.ParseFloat32` keeps the overflow error but not the rounding to float32, nor the float32/float64 conversions in `NeedNotify`.
  - `GoStrconv.ParseFloat32` does not model the exponent, hexadecimal, underscore, `Inf` and `NaN` spellings that `strconv.ParseFloat` also accepts. It rejects them.
- `CoinNotify.TaskContext.Task`: timestamps are unbounded integers, so int64 wrap-around is not modelled.
- `CoinNotify.TaskContext.Task`: the clock is read once per tick (`now`). The source calls `time.Now()` per record, within the same tick.
- `CoinNotify.SecondSightingThrottled` rests on that single clock reading. In the source, `NeedNotify` reads `time.Now()` on line 90 of `main.go` after the stamp of line 75 was taken. A `SendSMS` that stalls for a whole period between two observations of one coin can make the second one due again.
- `CoinNotify.TaskContext.Task`: the outcome of `aliyun.SendSMS` is left out. In the source it only feeds the error channel, so it changes no state. The model returns the messages sent instead.
- The error channel and its goroutines are left out, along with the slip on line 71 of `main.go`, which sends the fetch error `err` instead of the SMS error `errs`.
- The HTTP request, cookies, login (`Login`, `RenewCookies`), HTML parsing and CSS selection are left out. The page is an input value: a failed fetch, or the table rows as cell texts.
- `Feixiaohao.GetUserTicket`: a failed fetch is one outcome, covering both the HTTP error and the HTML parse error. The nil-response dereference on line 73 of `feixiaohao/login.go` is not modelled.
- `Start`, signal handling, the ticker loop, the command line and configuration (`option.go`), and the SMS client (`aliyun/sms.go`) are not part of this model.
- `TaskContext` fields `Cookies` and `AliyunCtx` are not modelled. They do not affect the decision.
