/**
 * The notification-decision engine of the price notifier: turning a scraped
 * percent into a number, deciding per observation whether to send an SMS, and
 * the scheduler tick that walks the fetched observations and updates the
 * per-coin state. Wall-clock time is the parameter `now`, one value per tick;
 * the SMS sink is the sequence of messages a tick hands out.
 */
module CoinNotify {

  import opened Wrappers
  import opened GoStrings
  import opened GoStrconv
  import opened Feixiaohao

  // Percent parsing

  /** Trims white space, then every leading and trailing `%`, then parses; `None` is the parse error. */
  function ConvertPercent2Float(percent: string): (r: Option<real>)
    ensures r.Some? ==> -Float32Overflow < r.value < Float32Overflow
  {
    ParseFloat32(Trim(TrimSpace(percent), "%"))
  }

  /** A string whose edges are neither white space nor `%`. */
  predicate BareNumber(d: string) {
    Bare(Whitespace, d) && Bare(Chars("%"), d)
  }

  /**
   * Whatever white space surrounds the text and whatever run of `%` signs
   * precedes or follows the number, what is parsed is the number alone.
   */
  lemma ConvertPercentLayout(w1: string, p1: string, d: string, p2: string, w2: string)
    requires AllCut(Whitespace, w1) && AllCut(Whitespace, w2)
    requires AllCut(Chars("%"), p1) && AllCut(Chars("%"), p2)
    requires BareNumber(d)
    ensures ConvertPercent2Float(w1 + p1 + d + p2 + w2) == ParseFloat32(d)
  {
    var m := p1 + d + p2;
    assert Bare(Whitespace, m) by {
      if m != [] {
        assert m[0] == (if p1 != [] then p1[0] else if d != [] then d[0] else p2[0]);
        assert m[|m| - 1] == (if p2 != [] then p2[|p2| - 1] else if d != [] then d[|d| - 1] else p1[|p1| - 1]);
      }
    }
    assert w1 + p1 + d + p2 + w2 == w1 + m + w2;
    TrimFuncUnique(w1, m, w2, Whitespace);
    TrimFuncUnique(p1, d, p2, Chars("%"));
  }

  lemma ParsesFivePointTwo()
    ensures ParseFloat32("5.2") == Some(5.2)
  {
    assert DigitsValue("5") == 5;
    assert Fraction("2") == 0.2;
    ParseFloat32Point("5", "2");
    assert "5" + "." + "2" == "5.2";
  }

  lemma ParsesMinusThreePointOne()
    ensures ParseFloat32("-3.1") == Some(-3.1)
  {
    assert DigitsValue("3") == 3;
    assert Fraction("1") == 0.1;
    ParseFloat32NegativePoint("3", "1");
    assert "-" + ("3" + "." + "1") == "-3.1";
  }

  /** "5.2%" reads as 5.2. */
  lemma ConvertPercentPlain()
    ensures ConvertPercent2Float("5.2%") == Some(5.2)
  {
    ParsesFivePointTwo();
    ConvertPercentLayout("", "", "5.2", "%", "");
    assert "" + "" + "5.2" + "%" + "" == "5.2%";
  }

  /** A leading minus sign is kept: "-3.1%" reads as -3.1. */
  lemma ConvertPercentNegative()
    ensures ConvertPercent2Float("-3.1%") == Some(-3.1)
  {
    ParsesMinusThreePointOne();
    ConvertPercentLayout("", "", "-3.1", "%", "");
    assert "" + "" + "-3.1" + "%" + "" == "-3.1%";
  }

  /**
   * White space is trimmed before `%`, so a space between the number and its
   * `%` stays in the text and the parse fails.
   */
  lemma SpaceBeforePercentRejected()
    ensures ConvertPercent2Float("5.2 %") == None
  {
    SpacedPercentTrimmed();
    TrailingSpaceRejected();
  }

  lemma SpacedPercentTrimmed()
    ensures Trim(TrimSpace("5.2 %"), "%") == "5.2 "
  {
    TrimFuncUnique("", "5.2 %", "", Whitespace);
    assert "" + "5.2 %" + "" == "5.2 %";
    TrimFuncUnique("", "5.2 ", "%", Chars("%"));
    assert "" + "5.2 " + "%" == "5.2 %";
  }

  lemma TrailingSpaceRejected()
    ensures ParseFloat32("5.2 ").None?
  {
    var s := "5.2 ";
    assert s[3] == ' ';
    assert !IsDecimalChar(' ');
    ParseRejectsChar(s, 3);
  }

  // The decision

  /** The part of the task context that `NeedNotify` reads; Go passes it by value. */
  datatype Context = Context(lastNotifyTime: map<string, int>, lastRecord: map<string, real>, filter: CoinFilter)

  /** A Go map read: a missing key yields the zero value. */
  function Get<V>(m: map<string, V>, key: string, zero: V): V {
    if key in m then m[key] else zero
  }

  function Abs(x: real): real {
    if x < 0.0 then -x else x
  }

  /**
   * Whether to notify for one observation, and the percent to record. Checks in
   * priority order: parse failure, first sighting or elapsed period, the
   * thresholds, the amplitude. Without regard to that order: a parse failure
   * gives (false, 0); otherwise the percent is returned and the verdict is true
   * exactly when the coin is due, outside the band, or swung.
   */
  function NeedNotify(meta: CoinPriceMeta, ctx: Context, now: int): (r: (bool, real))
    ensures ConvertPercent2Float(meta.percent).None? ==> r == (false, 0.0)
    ensures ConvertPercent2Float(meta.percent).Some? ==>
      var p := ConvertPercent2Float(meta.percent).value;
      && r.1 == p
      && (r.0 <==>
            || Due(Get(ctx.lastNotifyTime, meta.coinType, 0), now, ctx.filter.timePeriod)
            || OutsideBand(p, ctx.filter)
            || Swung(Get(ctx.lastRecord, meta.coinType, 0.0), p, ctx.filter))
  {
    Decide(ConvertPercent2Float(meta.percent), meta.coinType, ctx, now)
  }

  /** The checks of `NeedNotify` once the percent has been converted (`None` is a conversion error). */
  function Decide(percent: Option<real>, coin: string, ctx: Context, now: int): (r: (bool, real))
    ensures percent.None? ==> r == (false, 0.0)
    ensures percent.Some? ==>
      && r.1 == percent.value
      && (r.0 <==>
            || Due(Get(ctx.lastNotifyTime, coin, 0), now, ctx.filter.timePeriod)
            || OutsideBand(percent.value, ctx.filter)
            || Swung(Get(ctx.lastRecord, coin, 0.0), percent.value, ctx.filter))
  {
    match percent
    case None => (false, 0.0)
    case Some(percentf) =>
      var last := Get(ctx.lastNotifyTime, coin, 0);
      if Due(last, now, ctx.filter.timePeriod) then (true, percentf)
      else if OutsideBand(percentf, ctx.filter) then (true, percentf)
      else if Swung(Get(ctx.lastRecord, coin, 0.0), percentf, ctx.filter) then (true, percentf)
      else (false, percentf)
  }

  /** Never notified (or stored as 0), or a positive stamp at least a period old. */
  predicate Due(last: int, now: int, period: int) {
    last == 0 || (last > 0 && now - last >= period)
  }

  /** The percent reaches a threshold; both are inclusive. */
  predicate OutsideBand(p: real, filter: CoinFilter) {
    p >= filter.high || p <= filter.low
  }

  /** The percent moved at least the amplitude away from the last record. */
  predicate Swung(record: real, p: real, filter: CoinFilter) {
    Abs(record - p) >= filter.amplitude
  }

  /** A coin seen for the first time, with a parseable percent, is always notified. */
  lemma FirstSightNotifies(meta: CoinPriceMeta, ctx: Context, now: int)
    requires meta.coinType !in ctx.lastNotifyTime
    requires ConvertPercent2Float(meta.percent).Some?
    ensures NeedNotify(meta, ctx, now) == (true, ConvertPercent2Float(meta.percent).value)
  {
  }

  /** A negative stored time never counts as due: only the thresholds and the amplitude can fire. */
  lemma NegativeStampNeverDue(meta: CoinPriceMeta, ctx: Context, now: int)
    requires Get(ctx.lastNotifyTime, meta.coinType, 0) < 0
    requires ConvertPercent2Float(meta.percent).Some?
    ensures var p := ConvertPercent2Float(meta.percent).value;
      NeedNotify(meta, ctx, now).0 <==> OutsideBand(p, ctx.filter) || Swung(Get(ctx.lastRecord, meta.coinType, 0.0), p, ctx.filter)
  {
  }

  /** A coin with no record yet is compared against 0 for the amplitude. */
  lemma MissingRecordIsZero(meta: CoinPriceMeta, ctx: Context, now: int)
    requires meta.coinType !in ctx.lastRecord
    requires Get(ctx.lastNotifyTime, meta.coinType, 0) != 0 && !Due(Get(ctx.lastNotifyTime, meta.coinType, 0), now, ctx.filter.timePeriod)
    requires ConvertPercent2Float(meta.percent).Some?
    requires !OutsideBand(ConvertPercent2Float(meta.percent).value, ctx.filter)
    ensures NeedNotify(meta, ctx, now).0 <==> Abs(ConvertPercent2Float(meta.percent).value) >= ctx.filter.amplitude
  {
  }

  /** The verdict for a coin reads only that coin's entries. */
  lemma NeedNotifyLocal(meta: CoinPriceMeta, ctx: Context, ctx': Context, now: int)
    requires ctx.filter == ctx'.filter
    requires Get(ctx.lastNotifyTime, meta.coinType, 0) == Get(ctx'.lastNotifyTime, meta.coinType, 0)
    requires Get(ctx.lastRecord, meta.coinType, 0.0) == Get(ctx'.lastRecord, meta.coinType, 0.0)
    ensures NeedNotify(meta, ctx, now) == NeedNotify(meta, ctx', now)
  {
  }

  /**
   * With the thresholds left at their zero value, every parseable percent is
   * outside the band (it is either >= 0 or <= 0), so every observation notifies,
   * whatever the stamps and records say.
   */
  lemma ZeroThresholdsAlwaysNotify(meta: CoinPriceMeta, ctx: Context, now: int)
    requires ctx.filter.high == 0.0 && ctx.filter.low == 0.0
    requires ConvertPercent2Float(meta.percent).Some?
    ensures NeedNotify(meta, ctx, now) == (true, ConvertPercent2Float(meta.percent).value)
  {
  }

  /** A first observation of "5.2%" in a fresh context notifies and records 5.2. */
  lemma FreshContextNotifiesFivePointTwo(meta: CoinPriceMeta, filter: CoinFilter, now: int)
    requires meta.percent == "5.2%"
    ensures NeedNotify(meta, Context(map[], map[], filter), now) == (true, 5.2)
  {
    ConvertPercentPlain();
    FirstSightNotifies(meta, Context(map[], map[], filter), now);
  }

  // The scheduler tick

  /** What one SMS carries: the observation's platform, coin type, price and percent texts. */
  datatype SmsContent = SmsContent(platform: string, coinType: string, price: string, percent: string)

  function SmsOf(meta: CoinPriceMeta): SmsContent {
    SmsContent(meta.platform, meta.coinType, meta.price, meta.percent)
  }

  /**
   * One observation as the tick handles it: the scraped record and its
   * converted percent, whose verdict is that of `NeedNotify` on the record.
   */
  datatype Sighting = Sighting(meta: CoinPriceMeta, percent: Option<real>)

  function Sightings(metas: seq<CoinPriceMeta>): seq<Sighting> {
    seq(|metas|, i requires 0 <= i < |metas| => Sighting(metas[i], ConvertPercent2Float(metas[i].percent)))
  }

  function Verdict(ctx: Context, s: Sighting, now: int): (bool, real) {
    Decide(s.percent, s.meta.coinType, ctx, now)
  }

  /** The tick's verdict on each sighting is `NeedNotify` on the record it came from. */
  lemma SightingsVerdict(metas: seq<CoinPriceMeta>, ctx: Context, now: int, i: int)
    requires 0 <= i < |metas|
    ensures |Sightings(metas)| == |metas| && Sightings(metas)[i].meta == metas[i]
    ensures Verdict(ctx, Sightings(metas)[i], now) == NeedNotify(metas[i], ctx, now)
  {
  }

  /** The state after handling one observation: the stamp is set on a positive verdict, the percent always. */
  function Step(ctx: Context, s: Sighting, now: int): (r: Context)
    ensures r.filter == ctx.filter
    ensures r.lastRecord.Keys == ctx.lastRecord.Keys + {s.meta.coinType}
    ensures ctx.lastNotifyTime.Keys <= r.lastNotifyTime.Keys <= ctx.lastNotifyTime.Keys + {s.meta.coinType}
  {
    var (notify, percentf) := Verdict(ctx, s, now);
    ctx.(lastNotifyTime := if notify then ctx.lastNotifyTime[s.meta.coinType := now] else ctx.lastNotifyTime,
         lastRecord := ctx.lastRecord[s.meta.coinType := percentf])
  }

  /** The state after handling the observations in order, each seeing the updates of those before it. */
  function AfterTick(ctx: Context, sights: seq<Sighting>, now: int): (r: Context)
    ensures r.filter == ctx.filter
    decreases |sights|
  {
    if sights == [] then ctx
    else Step(AfterTick(ctx, sights[..|sights| - 1], now), sights[|sights| - 1], now)
  }

  /** The verdict for observation `j`, taken in the state left by the observations before it. */
  predicate NotifiedAt(ctx: Context, sights: seq<Sighting>, now: int, j: int)
    requires 0 <= j < |sights|
  {
    Verdict(AfterTick(ctx, sights[..j], now), sights[j], now).0
  }

  /** The messages a tick sends, in observation order. */
  function Notices(ctx: Context, sights: seq<Sighting>, now: int): (r: seq<SmsContent>)
    ensures |r| <= |sights|
    decreases |sights|
  {
    if sights == [] then []
    else
      var init, last := sights[..|sights| - 1], sights[|sights| - 1];
      Notices(ctx, init, now) + (if Verdict(AfterTick(ctx, init, now), last, now).0 then [SmsOf(last.meta)] else [])
  }

  /** Handling one more sighting of the tick: one more step, and at most one more SMS. */
  lemma TickStep(ctx: Context, sights: seq<Sighting>, now: int, i: int)
    requires 0 <= i < |sights|
    ensures AfterTick(ctx, sights[..i + 1], now) == Step(AfterTick(ctx, sights[..i], now), sights[i], now)
    ensures Notices(ctx, sights[..i + 1], now)
         == Notices(ctx, sights[..i], now)
            + (if Verdict(AfterTick(ctx, sights[..i], now), sights[i], now).0 then [SmsOf(sights[i].meta)] else [])
  {
    assert sights[..i + 1][..i] == sights[..i];
  }

  /** The coin types a tick observed. */
  function CoinsOf(sights: seq<Sighting>): set<string> {
    set i | 0 <= i < |sights| :: sights[i].meta.coinType
  }

  lemma CoinsOfSnoc(sights: seq<Sighting>)
    requires sights != []
    ensures CoinsOf(sights) == CoinsOf(sights[..|sights| - 1]) + {sights[|sights| - 1].meta.coinType}
  {
    var init := sights[..|sights| - 1];
    assert forall i :: 0 <= i < |init| ==> init[i] == sights[i];
    assert sights[|sights| - 1].meta.coinType in CoinsOf(sights);
  }

  /**
   * A tick keeps the filter, gives every observed coin a record, creates no
   * other entries and deletes none.
   */
  lemma {:induction false} AfterTickKeys(ctx: Context, sights: seq<Sighting>, now: int)
    ensures AfterTick(ctx, sights, now).filter == ctx.filter
    ensures AfterTick(ctx, sights, now).lastRecord.Keys == ctx.lastRecord.Keys + CoinsOf(sights)
    ensures ctx.lastNotifyTime.Keys <= AfterTick(ctx, sights, now).lastNotifyTime.Keys <= ctx.lastNotifyTime.Keys + CoinsOf(sights)
    decreases |sights|
  {
    if sights != [] {
      AfterTickKeys(ctx, sights[..|sights| - 1], now);
      CoinsOfSnoc(sights);
    }
  }

  /** The entries of coins a tick did not observe are left as they were. */
  lemma {:induction false} AfterTickUntouched(ctx: Context, sights: seq<Sighting>, now: int, coin: string)
    requires coin !in CoinsOf(sights)
    ensures (coin in AfterTick(ctx, sights, now).lastRecord) == (coin in ctx.lastRecord)
    ensures Get(AfterTick(ctx, sights, now).lastRecord, coin, 0.0) == Get(ctx.lastRecord, coin, 0.0)
    ensures (coin in AfterTick(ctx, sights, now).lastNotifyTime) == (coin in ctx.lastNotifyTime)
    ensures Get(AfterTick(ctx, sights, now).lastNotifyTime, coin, 0) == Get(ctx.lastNotifyTime, coin, 0)
    decreases |sights|
  {
    if sights != [] {
      CoinsOfSnoc(sights);
      AfterTickUntouched(ctx, sights[..|sights| - 1], now, coin);
    }
  }

  /**
   * A coin's record after the tick is the percent returned for its last
   * observation in the tick, which is 0 when that percent did not parse.
   */
  lemma {:induction false} AfterTickRecord(ctx: Context, sights: seq<Sighting>, now: int, j: int)
    requires 0 <= j < |sights|
    requires forall k :: j < k < |sights| ==> sights[k].meta.coinType != sights[j].meta.coinType
    ensures sights[j].meta.coinType in AfterTick(ctx, sights, now).lastRecord
    ensures AfterTick(ctx, sights, now).lastRecord[sights[j].meta.coinType]
         == Verdict(AfterTick(ctx, sights[..j], now), sights[j], now).1
    decreases |sights|
  {
    var init := sights[..|sights| - 1];
    if j < |sights| - 1 {
      assert init[j] == sights[j];
      assert init[..j] == sights[..j];
      AfterTickRecord(ctx, init, now, j);
    } else {
      assert sights[..j] == init;
    }
  }

  /** A positive verdict stamps the coin with `now`. */
  lemma StepSetsStamp(ctx: Context, s: Sighting, now: int)
    requires Verdict(ctx, s, now).0
    ensures s.meta.coinType in Step(ctx, s, now).lastNotifyTime
    ensures Step(ctx, s, now).lastNotifyTime[s.meta.coinType] == now
  {
  }

  /** A stamp already equal to `now` stays `now`, whatever the verdict. */
  lemma StepKeepsNow(ctx: Context, s: Sighting, now: int, coin: string)
    requires coin in ctx.lastNotifyTime && ctx.lastNotifyTime[coin] == now
    ensures coin in Step(ctx, s, now).lastNotifyTime
    ensures Step(ctx, s, now).lastNotifyTime[coin] == now
  {
  }

  /** Any other coin, or the same coin under a negative verdict, keeps its stamp. */
  lemma StepKeepsStamp(ctx: Context, s: Sighting, now: int, coin: string)
    requires coin != s.meta.coinType || !Verdict(ctx, s, now).0
    ensures (coin in Step(ctx, s, now).lastNotifyTime) == (coin in ctx.lastNotifyTime)
    ensures Get(Step(ctx, s, now).lastNotifyTime, coin, 0) == Get(ctx.lastNotifyTime, coin, 0)
  {
  }

  /** A verdict inside a prefix of the tick is the verdict inside the whole tick. */
  lemma NotifiedAtPrefix(ctx: Context, sights: seq<Sighting>, now: int, j: int, n: int)
    requires 0 <= j < n <= |sights|
    ensures NotifiedAt(ctx, sights[..n], now, j) == NotifiedAt(ctx, sights, now, j)
  {
    assert sights[..n][j] == sights[j];
    assert sights[..n][..j] == sights[..j];
  }

  /** A coin with a positive verdict somewhere in the tick ends the tick stamped with `now`. */
  lemma {:induction false} AfterTickStampSet(ctx: Context, sights: seq<Sighting>, now: int, j: int)
    requires 0 <= j < |sights| && NotifiedAt(ctx, sights, now, j)
    ensures sights[j].meta.coinType in AfterTick(ctx, sights, now).lastNotifyTime
    ensures AfterTick(ctx, sights, now).lastNotifyTime[sights[j].meta.coinType] == now
    decreases |sights|
  {
    var n := |sights| - 1;
    var init := sights[..n];
    if j < n {
      NotifiedAtPrefix(ctx, sights, now, j, n);
      assert init[j] == sights[j];
      AfterTickStampSet(ctx, init, now, j);
      assert sights[..n] == init;
      StepKeepsNow(AfterTick(ctx, init, now), sights[n], now, sights[j].meta.coinType);
    } else {
      assert sights[..j] == init;
      StepSetsStamp(AfterTick(ctx, init, now), sights[n], now);
    }
  }

  /** A coin with no positive verdict in the tick keeps its stamp, or its lack of one. */
  lemma {:induction false} AfterTickStampKept(ctx: Context, sights: seq<Sighting>, now: int, coin: string)
    requires forall j :: 0 <= j < |sights| && sights[j].meta.coinType == coin ==> !NotifiedAt(ctx, sights, now, j)
    ensures (coin in AfterTick(ctx, sights, now).lastNotifyTime) == (coin in ctx.lastNotifyTime)
    ensures Get(AfterTick(ctx, sights, now).lastNotifyTime, coin, 0) == Get(ctx.lastNotifyTime, coin, 0)
    decreases |sights|
  {
    if sights != [] {
      var n := |sights| - 1;
      var init := sights[..n];
      forall j | 0 <= j < n && init[j].meta.coinType == coin
        ensures !NotifiedAt(ctx, init, now, j)
      {
        NotifiedAtPrefix(ctx, sights, now, j, n);
      }
      AfterTickStampKept(ctx, init, now, coin);
      assert sights[..n] == init;
      StepKeepsStamp(AfterTick(ctx, init, now), sights[n], now, coin);
    }
  }

  /** Every SMS of a tick belongs to an observation with a positive verdict. */
  lemma {:induction false} NoticesSound(ctx: Context, sights: seq<Sighting>, now: int, x: SmsContent)
    requires x in Notices(ctx, sights, now)
    ensures exists j :: 0 <= j < |sights| && NotifiedAt(ctx, sights, now, j) && x == SmsOf(sights[j].meta)
    decreases |sights|
  {
    var n := |sights| - 1;
    var init := sights[..n];
    if x in Notices(ctx, init, now) {
      NoticesSound(ctx, init, now, x);
      var j :| 0 <= j < n && NotifiedAt(ctx, init, now, j) && x == SmsOf(init[j].meta);
      NotifiedAtPrefix(ctx, sights, now, j, n);
      assert init[j] == sights[j];
    } else {
      assert sights[..n] == init;
      assert NotifiedAt(ctx, sights, now, n) && x == SmsOf(sights[n].meta);
    }
  }

  /** Every observation with a positive verdict sends its SMS. */
  lemma {:induction false} NoticesComplete(ctx: Context, sights: seq<Sighting>, now: int, j: int)
    requires 0 <= j < |sights| && NotifiedAt(ctx, sights, now, j)
    ensures SmsOf(sights[j].meta) in Notices(ctx, sights, now)
    decreases |sights|
  {
    var n := |sights| - 1;
    var init := sights[..n];
    if j < n {
      NotifiedAtPrefix(ctx, sights, now, j, n);
      assert init[j] == sights[j];
      NoticesComplete(ctx, init, now, j);
    } else {
      assert sights[..n] == init;
    }
  }

  /**
   * The state invariant of the task context: every coin with a stamp has a
   * record. The empty start has it, and every tick keeps it.
   */
  predicate StampsRecorded(ctx: Context) {
    ctx.lastNotifyTime.Keys <= ctx.lastRecord.Keys
  }

  lemma {:induction false} AfterTickKeepsStampsRecorded(ctx: Context, sights: seq<Sighting>, now: int)
    requires StampsRecorded(ctx)
    ensures StampsRecorded(AfterTick(ctx, sights, now))
    decreases |sights|
  {
    if sights != [] {
      AfterTickKeepsStampsRecorded(ctx, sights[..|sights| - 1], now);
    }
  }

  /**
   * In a context where every stamped coin has a record, a coin without a
   * record has no stamp either, so it is due: the amplitude check never reads
   * the zero default for a missing record.
   */
  lemma UnrecordedCoinIsDue(ctx: Context, coin: string, now: int)
    requires StampsRecorded(ctx) && coin !in ctx.lastRecord
    ensures Due(Get(ctx.lastNotifyTime, coin, 0), now, ctx.filter.timePeriod)
  {
  }

  /**
   * Within one tick, a coin notified at observation `j` is not notified again
   * at a later observation `k` that neither reaches a threshold nor swings from
   * the record left by the observations before it: the stamp set at `j` is
   * `now`, so with a positive period and a non-zero clock the coin is not due.
   */
  lemma SecondSightingThrottled(ctx: Context, sights: seq<Sighting>, now: int, j: int, k: int)
    requires 0 <= j < k < |sights|
    requires now != 0 && ctx.filter.timePeriod > 0
    requires sights[j].meta.coinType == sights[k].meta.coinType
    requires NotifiedAt(ctx, sights, now, j)
    requires sights[k].percent.Some?
    requires !OutsideBand(sights[k].percent.value, ctx.filter)
    requires !Swung(Get(AfterTick(ctx, sights[..k], now).lastRecord, sights[k].meta.coinType, 0.0),
                    sights[k].percent.value, ctx.filter)
    ensures !NotifiedAt(ctx, sights, now, k)
  {
    NotifiedAtPrefix(ctx, sights, now, j, k);
    assert sights[..k][j] == sights[j];
    AfterTickStampSet(ctx, sights[..k], now, j);
    var mid := AfterTick(ctx, sights[..k], now);
    assert Get(mid.lastNotifyTime, sights[k].meta.coinType, 0) == now;
    assert NotifiedAt(ctx, sights, now, k) == Verdict(mid, sights[k], now).0;
    AfterTickKeys(ctx, sights[..k], now);
  }

  /**
   * With a zero (or negative) period and a positive clock, the stamp just set
   * is already due again, so every later parseable observation of the coin in
   * the same tick is notified too.
   */
  lemma ZeroPeriodRenotifies(ctx: Context, sights: seq<Sighting>, now: int, j: int, k: int)
    requires 0 <= j < k < |sights|
    requires now > 0 && ctx.filter.timePeriod <= 0
    requires sights[j].meta.coinType == sights[k].meta.coinType
    requires NotifiedAt(ctx, sights, now, j)
    requires sights[k].percent.Some?
    ensures NotifiedAt(ctx, sights, now, k)
  {
    NotifiedAtPrefix(ctx, sights, now, j, k);
    assert sights[..k][j] == sights[j];
    AfterTickStampSet(ctx, sights[..k], now, j);
    var mid := AfterTick(ctx, sights[..k], now);
    assert Get(mid.lastNotifyTime, sights[k].meta.coinType, 0) == now;
    assert NotifiedAt(ctx, sights, now, k) == Verdict(mid, sights[k], now).0;
    AfterTickKeys(ctx, sights[..k], now);
  }

  // The task context

  /**
   * The scheduler's state: per coin, when it was last notified (Unix seconds)
   * and the percent last seen, plus the filter, which a tick does not change.
   * The session cookies and the SMS account settings are not modelled.
   */
  class TaskContext {
    var lastNotifyTime: map<string, int>
    var lastRecord: map<string, real>
    const filter: CoinFilter

    /** The value `NeedNotify` receives when the task passes `*ctx`. */
    function View(): Context
      reads this
    {
      Context(lastNotifyTime, lastRecord, filter)
    }

    ghost predicate Valid()
      reads this
    {
      StampsRecorded(View())
    }

    /** Both maps start empty. */
    constructor (filter: CoinFilter)
      ensures Valid()
      ensures View() == Context(map[], map[], filter)
    {
      lastNotifyTime := map[];
      lastRecord := map[];
      this.filter := filter;
    }

    /**
     * One tick: take the records of the fetched page (none when the fetch
     * failed), and for each in turn decide, send an SMS on a positive verdict
     * and update the two maps in place.
     */
    method Task(page: Page, now: int) returns (sms: seq<SmsContent>)
      modifies this
      requires Valid()
      ensures View() == AfterTick(old(View()), Sightings(Ticket(page, filter.coinType)), now)
      ensures sms == Notices(old(View()), Sightings(Ticket(page, filter.coinType)), now)
      ensures Valid()
    {
      var pricemeta, _ := GetUserTicket(page, filter);
      ghost var start := View();
      ghost var sights := Sightings(pricemeta);
      sms := [];
      for i := 0 to |pricemeta|
        invariant View() == AfterTick(start, sights[..i], now)
        invariant sms == Notices(start, sights[..i], now)
      {
        var meta := pricemeta[i];
        TickStep(start, sights, now, i);
        SightingsVerdict(pricemeta, View(), now, i);
        var (notify, percentf) := NeedNotify(meta, View(), now);
        if notify {
          sms := sms + [SmsOf(meta)];
          lastNotifyTime := lastNotifyTime[meta.coinType := now];
        }
        lastRecord := lastRecord[meta.coinType := percentf];
      }
      assert sights[..|pricemeta|] == sights;
      AfterTickKeepsStampsRecorded(start, sights, now);
    }
  }

}
