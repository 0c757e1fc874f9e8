/** The coin-age columns: how long, on average, the coins in circulation have
    lain unspent, and what share of all coin-age ever accumulated has been
    destroyed by spending. The chains table (`handle_chains`), the block list
    of one chain (`handle_chain`) and the block page (`_show_block`) each
    compute them from the stored satoshi-seconds. Floating point is taken as
    exact rational arithmetic and `'%5g'` rendering is left to the caller. */
module CoinAge {
  import opened Prelude

  const SecondsPerDay: int := 86400

  // ---------------------------------------------------------------------------
  // The chains table

  /** The columns of one chain's row; `None` is the blank cell `&nbsp;`. */
  datatype ChainsCells = ChainsCells(
    started: int,                   // `nTime - seconds`, when the chain's first block was made
    chainAge: real,                 // seconds from `started` to now
    satoshis: int,                  // coins in circulation, with the marker -1 shown as 0
    avgAge: Option<real>,           // average coin age in days
    percentDestroyed: Option<real>) // share of coin-age destroyed, in percent

  datatype CoinAgeError = DivisionByZero  // Python raises `ZeroDivisionError`

  /** The satoshi-seconds the chain's coins gain between its last block and
      `now`, the server clock (`time.time()`, fractional seconds). */
  function Accrued(now: real, nTime: int, satoshis: int): real
  {
    (now - nTime as real) * (if satoshis == -1 then 0 else satoshis) as real
  }

  /** The coin-age cells of the chains table, as written: `ss` and `total_ss`
      read NULL as 0; the percentage divides by `total_ss + more` after a
      guard that only checks `total_ss`. */
  function ChainsRow(now: real, nTime: int, seconds: int, satoshis: int, ss: Option<int>, totalSs: Option<int>)
    : (r: Result<ChainsCells, CoinAgeError>)
    ensures r.Err? <==> now - (nTime - seconds) as real > 0.0 && GetOr(totalSs, 0) > 0 &&
                        GetOr(totalSs, 0) as real + Accrued(now, nTime, satoshis) == 0.0
    ensures r.Ok? ==> r.value.started == nTime - seconds && r.value.chainAge == now - r.value.started as real
    ensures r.Ok? ==> r.value.satoshis == (if satoshis == -1 then 0 else satoshis)
    ensures r.Ok? ==> (r.value.avgAge.None? <==> satoshis == 0 || satoshis == -1)
    ensures r.Ok? && r.value.avgAge.Some? ==>
              r.value.avgAge.value * (SecondsPerDay as real) * (satoshis as real)
              == GetOr(ss, 0) as real + (now - nTime as real) * satoshis as real
    ensures r.Ok? ==> (r.value.percentDestroyed.None? <==> r.value.chainAge <= 0.0 || GetOr(totalSs, 0) <= 0)
  {
    var ss := GetOr(ss, 0);
    var totalSs := GetOr(totalSs, 0);
    var started := nTime - seconds;
    var chainAge := now - started as real;
    var sinceBlock := now - nTime as real;
    var (avgAge, satoshis) :=
      if satoshis == 0 || satoshis == -1 then (None, 0)
      else (Some(AvgAgeDays(ss, satoshis, sinceBlock)), satoshis);
    if chainAge <= 0.0 || totalSs <= 0 then Ok(ChainsCells(started, chainAge, satoshis, avgAge, None))
    else
      var more := sinceBlock * satoshis as real;
      if totalSs as real + more == 0.0 then Err(DivisionByZero)
      else
        var percent := 100.0 - 100.0 * (ss as real + more) / (totalSs as real + more);
        Ok(ChainsCells(started, chainAge, satoshis, avgAge, Some(percent)))
  }

  /** `(float(ss) / satoshis + since_block) / 86400.0`: the coin-age per coin
      at the last block plus the time since, in days. */
  function AvgAgeDays(ss: int, satoshis: int, sinceBlock: real): (days: real)
    requires satoshis != 0
    ensures days * (SecondsPerDay as real) * (satoshis as real) == ss as real + sinceBlock * satoshis as real
  {
    var perCoin := ss as real / satoshis as real;
    assert perCoin * satoshis as real == ss as real;
    (perCoin + sinceBlock) / SecondsPerDay as real
  }

  /** A block dated after the server's clock makes `more` negative, and the
      guard lets `total_ss + more == 0` through to the division. */
  lemma ChainsRowFutureBlockDividesByZero()
    ensures ChainsRow(100.0, 110, 20, 10, Some(0), Some(100)) == Err(DivisionByZero)
  {
    assert Accrued(100.0, 110, 10) == -100.0;
  }

  /** The chains table with the guard on the divisor itself: a row whose
      accrued coin-age cancels the total shows a blank percentage. */
  function ChainsRowGuarded(now: real, nTime: int, seconds: int, satoshis: int, ss: Option<int>, totalSs: Option<int>)
    : (r: ChainsCells)
    ensures ChainsRow(now, nTime, seconds, satoshis, ss, totalSs).Ok? ==>
              r == ChainsRow(now, nTime, seconds, satoshis, ss, totalSs).value
    ensures r.percentDestroyed.None? <==>
              r.chainAge <= 0.0 || GetOr(totalSs, 0) <= 0 ||
              GetOr(totalSs, 0) as real + Accrued(now, nTime, satoshis) == 0.0
  {
    match ChainsRow(now, nTime, seconds, satoshis, ss, totalSs)
    case Ok(cells) => cells
    case Err(_) =>
      var started := nTime - seconds;
      var avgAge := if satoshis == 0 || satoshis == -1 then None
                    else Some(AvgAgeDays(GetOr(ss, 0), satoshis, now - nTime as real));
      ChainsCells(started, now - started as real, if satoshis == -1 then 0 else satoshis, avgAge, None)
  }

  /** More coin-age on the same coins means an older average: with the
      satoshis fixed and positive, a larger `ss` shows a larger average age. */
  lemma ChainsAvgAgeIncreasing(now: real, nTime: int, seconds: int, satoshis: int,
                               ss1: int, ss2: int, totalSs: Option<int>)
    requires satoshis > 0 && ss1 < ss2
    requires ChainsRow(now, nTime, seconds, satoshis, Some(ss1), totalSs).Ok?
    requires ChainsRow(now, nTime, seconds, satoshis, Some(ss2), totalSs).Ok?
    ensures ChainsRow(now, nTime, seconds, satoshis, Some(ss1), totalSs).value.avgAge.value
            < ChainsRow(now, nTime, seconds, satoshis, Some(ss2), totalSs).value.avgAge.value
  {
    var a1 := ChainsRow(now, nTime, seconds, satoshis, Some(ss1), totalSs).value.avgAge.value;
    var a2 := ChainsRow(now, nTime, seconds, satoshis, Some(ss2), totalSs).value.avgAge.value;
    var k := (SecondsPerDay as real) * (satoshis as real);
    assert a1 * k < a2 * k;
    ScaledOrder(a1, a2, k);
  }

  /** Dividing out a positive factor keeps a strict order. */
  lemma ScaledOrder(a: real, b: real, k: real)
    requires k > 0.0 && a * k < b * k
    ensures a < b
  {
  }

  /** The accrued coin-age cancels out of the destroyed share: the percentage
      is the destroyed satoshi-seconds over all satoshi-seconds, both counted
      up to now. */
  lemma ChainsPercentIsShare(now: real, nTime: int, seconds: int, satoshis: int, ss: Option<int>, totalSs: Option<int>)
    requires ChainsRow(now, nTime, seconds, satoshis, ss, totalSs).Ok?
    requires ChainsRow(now, nTime, seconds, satoshis, ss, totalSs).value.percentDestroyed.Some?
    ensures var total := GetOr(totalSs, 0) as real + Accrued(now, nTime, satoshis);
            var p := ChainsRow(now, nTime, seconds, satoshis, ss, totalSs).value.percentDestroyed.value;
            total != 0.0 && p * total == 100.0 * (GetOr(totalSs, 0) - GetOr(ss, 0)) as real
  {
    var t := GetOr(totalSs, 0);
    var s := GetOr(ss, 0);
    var more := Accrued(now, nTime, satoshis);
    assert more == (now - nTime as real) * (if satoshis == -1 then 0 else satoshis) as real;
    ShareCancels(s as real, t as real, more);
  }

  /** `100 - 100 (s + m) / (t + m)` is `100 (t - s) / (t + m)`. */
  lemma ShareCancels(s: real, t: real, m: real)
    requires t + m != 0.0
    ensures (100.0 - 100.0 * (s + m) / (t + m)) * (t + m) == 100.0 * (t - s)
  {
    var q := (s + m) / (t + m);
    assert q * (t + m) == s + m;
    assert (100.0 - 100.0 * q) * (t + m) == 100.0 * (t + m) - 100.0 * (q * (t + m));
  }

  /** With the unspent coin-age `ss` between nothing and the total, and coins
      aging forward, the chains table shows a percentage between 0 and 100. */
  lemma ChainsPercentBounded(now: real, nTime: int, seconds: int, satoshis: int, ss: Option<int>, totalSs: Option<int>)
    requires 0 <= GetOr(ss, 0) <= GetOr(totalSs, 0)
    requires Accrued(now, nTime, satoshis) >= 0.0
    ensures ChainsRow(now, nTime, seconds, satoshis, ss, totalSs).Ok?
    ensures var p := ChainsRow(now, nTime, seconds, satoshis, ss, totalSs).value.percentDestroyed;
            p.Some? ==> 0.0 <= p.value <= 100.0
  {
    var r := ChainsRow(now, nTime, seconds, satoshis, ss, totalSs);
    if r.Ok? && r.value.percentDestroyed.Some? {
      ChainsPercentIsShare(now, nTime, seconds, satoshis, ss, totalSs);
      var total := GetOr(totalSs, 0) as real + Accrued(now, nTime, satoshis);
      ShareBounded(r.value.percentDestroyed.value, total, (GetOr(totalSs, 0) - GetOr(ss, 0)) as real);
    }
  }

  /** A share `p` of a positive whole, `p * w == 100 * part`, lies in
      `[0, 100]` when the part lies in `[0, w]`. */
  lemma ShareBounded(p: real, w: real, part: real)
    requires w > 0.0 && 0.0 <= part <= w && p * w == 100.0 * part
    ensures 0.0 <= p <= 100.0
  {
  }

  // ---------------------------------------------------------------------------
  // The block list of one chain

  /** The percentage cell of the block list: blank, the `'0%'` an exception
      handler writes, or a value. */
  datatype PercentCell = Blank | ZeroPercent | Percent(value: real)

  /** The average coin age of the block list: `ss / satoshis` is Python 2
      integer division, floored before the conversion to days. */
  function ChainAvgAge(satoshis: Option<int>, ss: Option<int>): (r: Option<real>)
    ensures r.None? <==> GetOr(satoshis, 0) == 0
    ensures r.Some? ==> r.value * (SecondsPerDay as real) == FloorDiv(GetOr(ss, 0), GetOr(satoshis, 0)) as real
  {
    var satoshis := GetOr(satoshis, 0);
    if satoshis == 0 then None
    else Some(FloorDiv(GetOr(ss, 0), satoshis) as real / SecondsPerDay as real)
  }

  /** The floored average of the block list never decreases with `ss`. */
  lemma ChainAvgAgeMonotone(satoshis: int, ss1: int, ss2: int)
    requires satoshis > 0 && ss1 <= ss2
    ensures ChainAvgAge(Some(satoshis), Some(ss1)).value <= ChainAvgAge(Some(satoshis), Some(ss2)).value
  {
    QuotientOrder(FloorDiv(ss1, satoshis), FloorDiv(ss2, satoshis), satoshis, ss1, ss2);
  }

  /** Quotients by the same positive divisor keep the order of the dividends. */
  lemma QuotientOrder(q1: int, q2: int, d: int, a: int, b: int)
    requires d > 0 && d * q1 <= a <= b < d * q2 + d
    ensures q1 <= q2
  {
    assert d * (q2 + 1 - q1) == d * q2 + d - d * q1;
    PositiveFactor(d, q2 + 1 - q1);
  }

  lemma PositiveFactor(d: int, x: int)
    requires d > 0 && d * x > 0
    ensures x > 0
  {
  }

  /** The percentage of the block list: blank when the chain's age is not
      positive; a zero total raises inside `try` and shows `'0%'`. */
  function ChainPercent(seconds: int, ss: Option<int>, totalSs: Option<int>): (r: PercentCell)
    ensures r.Blank? <==> seconds <= 0
    ensures r.ZeroPercent? <==> seconds > 0 && GetOr(totalSs, 0) == 0
    ensures r.Percent? ==>
              r.value * (GetOr(totalSs, 0) as real) == 100.0 * (GetOr(totalSs, 0) - GetOr(ss, 0)) as real
  {
    var ss := GetOr(ss, 0);
    var totalSs := GetOr(totalSs, 0);
    if seconds <= 0 then Blank
    else if totalSs == 0 then ZeroPercent
    else
      ShareCancels(ss as real, totalSs as real, 0.0);
      Percent(100.0 - 100.0 * ss as real / totalSs as real)
  }

  /** Flooring before the conversion to days loses less than one second:
      the block list's average age is below the exact one by under 1/86400
      of a day. */
  lemma ChainAvgAgeFloors(satoshis: int, ss: int)
    requires satoshis != 0
    ensures var exact := (ss as real / satoshis as real) / (SecondsPerDay as real);
            var shown := ChainAvgAge(Some(satoshis), Some(ss)).value;
            shown <= exact < shown + 1.0 / (SecondsPerDay as real)
  {
    var q := FloorDiv(ss, satoshis);
    FloorDivReal(ss, satoshis);
    var x := ss as real / satoshis as real;
    assert q as real <= x < q as real + 1.0;
    DividePreservesOrder(q as real, x, q as real + 1.0, SecondsPerDay as real);
  }

  /** Python's floored quotient is the real quotient rounded down. */
  lemma FloorDivReal(a: int, b: int)
    requires b != 0
    ensures var q := FloorDiv(a, b);
            q as real <= a as real / b as real < q as real + 1.0
  {
    var q := FloorDiv(a, b);
    RealOfProduct(b, q);
    if b > 0 {
      QuotientBetween(a as real, b as real, q as real);
    } else {
      QuotientBetween(-a as real, -b as real, q as real);
      assert (-a) as real / (-b) as real == a as real / b as real;
    }
  }

  lemma RealOfProduct(a: int, b: int)
    ensures (a * b) as real == a as real * b as real
  {
  }

  /** A quotient whose remainder lies in `[0, b)` is within one of `q`. */
  lemma QuotientBetween(a: real, b: real, q: real)
    requires b > 0.0 && b * q <= a < b * q + b
    ensures q <= a / b < q + 1.0
  {
    var x := a / b;
    assert x * b == a;
    UnitFraction(x - q, b, a - b * q);
  }

  lemma UnitFraction(u: real, b: real, r: real)
    requires b > 0.0 && u * b == r && 0.0 <= r < b
    ensures 0.0 <= u < 1.0
  {
  }

  lemma DividePreservesOrder(a: real, b: real, c: real, d: real)
    requires d > 0.0 && a <= b < c
    ensures a / d <= b / d < c / d && c / d == a / d + (c - a) / d
  {
  }

  // ---------------------------------------------------------------------------
  // The block page

  /** The coin-age lines of one block's page; `None` leaves the line out. */
  datatype BlockCells = BlockCells(
    avgAge: Option<real>,              // average coin age in days
    daysDestroyed: Option<int>,        // coin-days destroyed, in satoshi-days
    cumulativeDestroyed: Option<real>) // share of all coin-age destroyed so far, in percent

  /** `int(x)` of a quotient: Python truncates toward zero. */
  function TruncDiv(a: int, b: int): (q: int)
    requires b > 0
    ensures a >= 0 ==> q == a / b
    ensures a < 0 ==> q == -((-a) / b)
  {
    if a >= 0 then a / b else -((-a) / b)
  }

  /** The block page's coin-age lines: the average age needs non-zero coins
      and a known `ss`; the destroyed days pass through `format_satoshis`,
      which truncates the quotient to an integer; the cumulative share needs
      a non-zero total and reads a missing `ss` as 0. */
  function BlockCoinAge(satoshis: Option<int>, ss: Option<int>, totalSs: Option<int>, destroyed: Option<int>)
    : (r: BlockCells)
    ensures r.avgAge.Some? <==> GetOr(satoshis, 0) != 0 && ss.Some?
    ensures r.avgAge.Some? ==>
              r.avgAge.value * (SecondsPerDay as real) * (satoshis.value as real) == ss.value as real
    ensures r.daysDestroyed.Some? <==> destroyed.Some?
    ensures r.daysDestroyed.Some? ==> r.daysDestroyed.value == TruncDiv(destroyed.value, SecondsPerDay)
    ensures r.daysDestroyed.Some? && destroyed.value >= 0 ==>
              r.daysDestroyed.value * SecondsPerDay <= destroyed.value < (r.daysDestroyed.value + 1) * SecondsPerDay
    ensures r.cumulativeDestroyed.Some? <==> GetOr(totalSs, 0) != 0
    ensures r.cumulativeDestroyed.Some? ==>
              r.cumulativeDestroyed.value * (totalSs.value as real)
              == 100.0 * (totalSs.value - GetOr(ss, 0)) as real
  {
    var avgAge := if GetOr(satoshis, 0) != 0 && ss.Some?
                  then Some(ss.value as real / SecondsPerDay as real / satoshis.value as real) else None;
    var days := if destroyed.Some? then Some(TruncDiv(destroyed.value, SecondsPerDay)) else None;
    var cumulative :=
      if GetOr(totalSs, 0) != 0
      then ShareCancels(GetOr(ss, 0) as real, totalSs.value as real, 0.0);
           Some(100.0 * (1.0 - GetOr(ss, 0) as real / totalSs.value as real))
      else None;
    BlockCells(avgAge, days, cumulative)
  }

  /** The block page and the block list agree on the destroyed share of a
      block with a known, non-zero total. */
  lemma BlockAgreesWithList(seconds: int, satoshis: Option<int>, ss: Option<int>, totalSs: Option<int>, destroyed: Option<int>)
    requires seconds > 0 && GetOr(totalSs, 0) != 0
    ensures BlockCoinAge(satoshis, ss, totalSs, destroyed).cumulativeDestroyed
            == Some(ChainPercent(seconds, ss, totalSs).value)
  {
    var t := GetOr(totalSs, 0) as real;
    var s := GetOr(ss, 0) as real;
    assert 100.0 * (1.0 - s / t) == 100.0 - 100.0 * s / t;
  }
}
