/** The network hash-rate estimator: `q_nethash` samples every INTERVAL-th
    main-chain block between START and STOP and reports, for each sampled
    block after the first, the work done and the time taken since the
    previous sample; `q_hashrate` keeps only the last such estimate over the
    last N blocks. Negative arguments count back from the last block. */
module RateEstimator {
  import opened Prelude
  import opened Decimal
  import opened Externals

  // ---------------------------------------------------------------------------
  // Path arguments

  /** The next segment of the request path, as `shift_path_info` hands it out. */
  datatype Segment = Absent | Text(text: string)

  /** `path_info_int(page, default)`: the next segment read as an integer; the
      default when there is none or it is not an integer. */
  function PathInfoInt(seg: Segment, default: Option<int>): (r: Option<int>)
    ensures seg.Absent? ==> r == default
    ensures seg.Text? && ParseInt(seg.text).Some? ==> r == ParseInt(seg.text)
    ensures seg.Text? && ParseInt(seg.text).None? ==> r == default
  {
    match seg
    case Absent => default
    case Text(s) => if ParseInt(s).Some? then ParseInt(s) else default
  }

  /** `path_info_uint(page, default)`: as `path_info_int`, but a negative
      number also gives the default. */
  function PathInfoUint(seg: Segment, default: Option<int>): (r: Option<int>)
    ensures r == default || (r.Some? && r.value >= 0 && r == PathInfoInt(seg, None))
    ensures PathInfoInt(seg, None).Some? && PathInfoInt(seg, None).value >= 0 ==> r == PathInfoInt(seg, None)
  {
    var n := PathInfoInt(seg, None);
    if n.None? || n.value < 0 then default else n
  }

  /** Every integer written in decimal comes back from the path unchanged. */
  lemma PathInfoIntReadsNumbers(n: int, default: Option<int>)
    ensures PathInfoInt(Text(IntToString(n)), default) == Some(n)
  {
    ParseIntOfIntToString(n);
  }

  // ---------------------------------------------------------------------------
  // Normalising INTERVAL, START and STOP

  datatype RateError =
    | Refused(message: string)  // the page answers with this text
    | NoTip                     // no last block: `start += None` raises `TypeError`
    | ZeroInterval              // a division by an INTERVAL of 0 raises `ZeroDivisionError`
    | Unbound                   // `ret` is read before any row assigned it (`UnboundLocalError`)

  /** The sampling the query asks the store for: heights `start + n * interval`
      for every main-chain height `n`, with `n <= stopIx` when present. */
  datatype Plan = Plan(interval: int, start: int, stopIx: Option<int>)

  /** The argument handling shared by `q_nethash` and `q_hashrate`. `tip` is
      the height of the last main-chain block (`get_max_block_height`), if any;
      `refusal` is the handler's text for a negative INTERVAL with a START. */
  function Normalize(interval: int, start: int, stop: Option<int>, tip: Option<int>, refusal: string)
    : Result<Plan, RateError>
  {
    var stop := if stop == Some(0) then None else stop;
    if interval < 0 && start != 0 then Err(Refused(refusal))
    else if (interval < 0 || start < 0 || (stop.Some? && stop.value < 0)) && tip.None? then Err(NoTip)
    else
      var count := if tip.Some? then tip.value else 0;
      var start := if start < 0 then start + count else start;
      var stop := if stop.Some? && stop.value < 0 then Some(stop.value + count) else stop;
      var (interval, start) :=
        if interval < 0 then (-interval, count - FloorDiv(count, -interval) * -interval)
        else (interval, start);
      if stop.None? then Ok(Plan(interval, start, None))
      else if interval == 0 then Err(ZeroInterval)
      else Ok(Plan(interval, start, Some(FloorDiv(stop.value - start, interval))))
  }

  /** The outcomes of the normalisation: which arguments are refused, which
      fail for want of a last block or divide by an INTERVAL of 0, and the
      plan otherwise. */
  lemma NormalizeOutcomes(interval: int, start: int, stop: Option<int>, tip: Option<int>, refusal: string)
    ensures var r := Normalize(interval, start, stop, tip, refusal);
            && (r.Err? && r.error.Refused? <==> interval < 0 && start != 0)
            && (r.Err? && r.error.Refused? ==> r.error.message == refusal)
            && (r.Err? && r.error.NoTip? <==>
                  !(interval < 0 && start != 0) && tip.None? &&
                  (interval < 0 || start < 0 || (stop.Some? && stop.value < 0)))
            && (r.Err? && r.error.ZeroInterval? <==>
                  !(interval < 0 && start != 0) && interval == 0 && stop.Some? && stop.value != 0 &&
                  !(tip.None? && (start < 0 || stop.value < 0)))
            && (r.Err? ==> r.error.Refused? || r.error.NoTip? || r.error.ZeroInterval?)
            && (r.Ok? ==> r.value.interval == (if interval < 0 then -interval else interval))
            && (r.Ok? && r.value.stopIx.Some? ==> stop.Some? && stop.value != 0)
            && (r.Ok? && (stop.None? || stop == Some(0)) ==> r.value.stopIx.None?)
            && (r.Ok? && interval >= 0 && start >= 0 ==> r.value.start == start)
            && (r.Ok? && interval >= 0 && start < 0 ==> tip.Some? && r.value.start == start + tip.value)
            && (r.Ok? && interval < 0 ==>
                  tip.Some? && r.value.start == tip.value - FloorDiv(tip.value, -interval) * -interval)
            && (r.Ok? && stop.Some? && stop.value != 0 ==> r.value.stopIx.Some?)
            && (r.Ok? && r.value.stopIx.Some? && stop.value > 0 ==>
                  r.value.stopIx.value == FloorDiv(stop.value - r.value.start, r.value.interval))
            && (r.Ok? && r.value.stopIx.Some? && stop.value < 0 ==>
                  tip.Some? &&
                  r.value.stopIx.value == FloorDiv(stop.value + tip.value - r.value.start, r.value.interval))
  {
  }

  // ---------------------------------------------------------------------------
  // The sampled blocks

  /** The heights the query returns for the integers `n`, `n + 1`, ...,
      `tip` (the main-chain heights), in the order of the integers; `h` is
      `start + n * interval`, the height integer `n` asks for. It is returned
      when it lies on the main chain and `n` is within STOP. */
  function Sampled(p: Plan, tip: int, n: nat, h: int): (hs: seq<int>)
    ensures forall i :: 0 <= i < |hs| ==> 0 <= hs[i] <= tip
    decreases tip + 1 - n
  {
    if n > tip then []
    else
      var here := if 0 <= h <= tip && (p.stopIx.None? || n <= p.stopIx.value) then [h] else [];
      here + Sampled(p, tip, n + 1, h + p.interval)
  }

  /** The heights the query returns for plan `p`. */
  function Samples(p: Plan, tip: int): seq<int>
  {
    Sampled(p, tip, 0, p.start)
  }

  /** The height integer `m` of the `ints` table asks for, counted up from
      START one INTERVAL at a time. */
  function Ask(p: Plan, m: nat): int
  {
    if m == 0 then p.start else Ask(p, m - 1) + p.interval
  }

  /** It is the join's `ints.block_height * interval + start`. */
  lemma {:induction false} AskIsLinear(p: Plan, m: nat)
    ensures Ask(p, m) == p.start + m * p.interval
  {
    if m > 0 {
      AskIsLinear(p, m - 1);
      assert (m - 1) * p.interval + p.interval == m * p.interval;
    }
  }

  /** Whether integer `m` yields a row: the height it asks for lies on the
      main chain and `m` is within STOP. */
  predicate Selected(p: Plan, tip: int, m: nat)
  {
    0 <= Ask(p, m) <= tip && (p.stopIx.None? || m <= p.stopIx.value)
  }

  /** A height is returned exactly when some integer up to the last height
      selects it. */
  lemma SampledMembers(p: Plan, tip: int, n: nat, x: int)
    ensures x in Sampled(p, tip, n, Ask(p, n)) <==>
            exists m: nat :: n <= m <= tip && Selected(p, tip, m) && x == Ask(p, m)
  {
    if x in Sampled(p, tip, n, Ask(p, n)) {
      SampledFrom(p, tip, n, x);
    }
    if exists m: nat :: n <= m <= tip && Selected(p, tip, m) && x == Ask(p, m) {
      var m: nat :| n <= m <= tip && Selected(p, tip, m) && x == Ask(p, m);
      SampledHas(p, tip, n, m);
    }
  }

  /** Every returned height was asked for by a selected integer. */
  lemma {:induction false} SampledFrom(p: Plan, tip: int, n: nat, x: int)
    requires x in Sampled(p, tip, n, Ask(p, n))
    ensures exists m: nat :: n <= m <= tip && Selected(p, tip, m) && x == Ask(p, m)
    decreases tip + 1 - n
  {
    var rest := Sampled(p, tip, n + 1, Ask(p, n) + p.interval);
    var here := if Selected(p, tip, n) then [Ask(p, n)] else [];
    assert Sampled(p, tip, n, Ask(p, n)) == here + rest;
    if x in here {
      assert n <= n <= tip && Selected(p, tip, n) && x == Ask(p, n);
    } else {
      assert Ask(p, n + 1) == Ask(p, n) + p.interval;
      SampledFrom(p, tip, n + 1, x);
    }
  }

  /** Every selected integer's height is returned. */
  lemma {:induction false} SampledHas(p: Plan, tip: int, n: nat, m: nat)
    requires n <= m <= tip && Selected(p, tip, m)
    ensures Ask(p, m) in Sampled(p, tip, n, Ask(p, n))
    decreases m - n
  {
    assert Ask(p, n + 1) == Ask(p, n) + p.interval;
    if m > n {
      SampledHas(p, tip, n + 1, m);
    }
  }

  predicate StrictlyIncreasing(s: seq<int>)
  {
    forall i, j :: 0 <= i < j < |s| ==> s[i] < s[j]
  }

  /** With a positive INTERVAL the heights come out strictly increasing, each
      at least the height asked for first. */
  lemma {:induction false} SampledIncreasing(p: Plan, tip: int, n: nat, h: int)
    requires p.interval > 0
    ensures StrictlyIncreasing(Sampled(p, tip, n, h))
    ensures forall x :: x in Sampled(p, tip, n, h) ==> x >= h
    decreases tip + 1 - n
  {
    if n <= tip {
      SampledIncreasing(p, tip, n + 1, h + p.interval);
      var tail := Sampled(p, tip, n + 1, h + p.interval);
      if Sampled(p, tip, n, h) != tail {
        ConsIncreasing(h, tail);
      }
    }
  }

  lemma ConsIncreasing(h: int, tail: seq<int>)
    requires StrictlyIncreasing(tail) && forall x :: x in tail ==> x > h
    ensures StrictlyIncreasing([h] + tail)
  {
    var hs := [h] + tail;
    forall i, j | 0 <= i < j < |hs| ensures hs[i] < hs[j] {
      assert hs[j] == tail[j - 1] && hs[j] in tail;
      if i > 0 {
        assert hs[i] == tail[i - 1];
      }
    }
  }

  /** Nothing is returned once the height asked for is past the last block. */
  lemma {:induction false} SampledPastTip(p: Plan, tip: int, n: nat, h: int)
    requires p.interval >= 0 && h > tip
    ensures Sampled(p, tip, n, h) == []
    decreases tip + 1 - n
  {
    if n <= tip {
      SampledPastTip(p, tip, n + 1, h + p.interval);
    }
  }

  /** `count` evenly spaced heights from `first`. */
  function Progression(first: int, step: int, count: nat): (r: seq<int>)
    ensures |r| == count && (count > 0 ==> r[0] == first)
    decreases count
  {
    if count == 0 then [] else [first] + Progression(first + step, step, count - 1)
  }

  lemma {:induction false} ProgressionLast(first: int, step: int, count: nat)
    requires count > 0
    ensures Progression(first, step, count)[count - 1] == first + (count - 1) * step
    decreases count
  {
    if count > 1 {
      ProgressionLast(first + step, step, count - 1);
      assert first + step + (count - 2) * step == first + (count - 1) * step;
    }
  }

  /** At least one whole `d` in `k` copies of it. */
  lemma {:induction false} MulAtLeast(k: int, d: int)
    requires k >= 1 && d > 0
    ensures k * d >= d
    decreases k
  {
    if k > 1 {
      MulAtLeast(k - 1, d);
      assert k * d == (k - 1) * d + d;
    }
  }

  /** Euclidean division is determined by its bounds. */
  lemma DivUnique(a: int, d: int, q: int)
    requires d > 0 && q * d <= a < q * d + d
    ensures a / d == q
  {
    var r := a / d;
    assert r * d <= a < r * d + d;
    if r < q {
      MulAtLeast(q - r, d);
    } else if r > q {
      MulAtLeast(r - q, d);
    }
  }

  /** Counting on: one step further leaves one height fewer to the last block. */
  lemma StepsLeft(a: int, d: int)
    requires d > 0 && a >= d
    ensures a / d == (a - d) / d + 1
  {
    var q := (a - d) / d;
    assert q * d <= a - d < q * d + d;
    DivUnique(a, d, q + 1);
  }

  /** From a height on the main chain with a positive INTERVAL and no STOP,
      the heights returned are evenly spaced up to the last block. */
  lemma {:induction false} SampledIsProgression(p: Plan, tip: int, n: nat, h: int)
    requires p.interval > 0 && p.stopIx.None? && h >= 0 && h >= n
    ensures Sampled(p, tip, n, h)
            == Progression(h, p.interval, if h > tip then 0 else (tip - h) / p.interval + 1)
    decreases tip + 1 - n
  {
    if h > tip {
      SampledPastTip(p, tip, n, h);
    } else {
      var next := h + p.interval;
      SampledIsProgression(p, tip, n + 1, next);
      if next > tip {
        DivUnique(tip - h, p.interval, 0);
      } else {
        StepsLeft(tip - h, p.interval);
      }
    }
  }

  /** With an INTERVAL of 0 every integer asks for the same height, START. */
  lemma {:induction false} SampledAtZeroInterval(p: Plan, tip: int, n: nat)
    requires p.interval == 0 && 0 <= p.start <= tip && p.stopIx.None?
    ensures Sampled(p, tip, n, p.start) == Repeat(p.start, Max(0, tip + 1 - n))
    decreases tip + 1 - n
  {
    if n <= tip {
      SampledAtZeroInterval(p, tip, n + 1);
      assert [p.start] + Repeat(p.start, Max(0, tip - n)) == Repeat(p.start, tip + 1 - n);
    }
  }

  // ---------------------------------------------------------------------------
  // Rows and report lines

  /** A main-chain block as the store keeps it. */
  datatype Block = Block(nTime: int, chainWork: int, nBits: int)

  /** A result row: the height, `block_nTime + 28800`, the stored cumulative
      work and the compact target. */
  datatype Row = Row(height: int, time: int, chainWork: int, nBits: int)

  /** `get_max_block_height`: the last height of a non-empty main chain. */
  function MaxHeight(blocks: seq<Block>): Option<int>
  {
    if blocks == [] then None else Some(|blocks| - 1)
  }

  function RowAt(blocks: seq<Block>, h: int): Row
    requires 0 <= h < |blocks|
  {
    Row(h, blocks[h].nTime + 28800, blocks[h].chainWork, blocks[h].nBits)
  }

  /** The rows the sampling query returns, ordered by height. */
  function Rows(blocks: seq<Block>, p: Plan): (rows: seq<Row>)
    ensures |rows| == |Samples(p, |blocks| - 1)|
  {
    var hs := Samples(p, |blocks| - 1);
    seq(|hs|, i requires 0 <= i < |hs| => RowAt(blocks, hs[i]))
  }

  /** `netHashPerSecond`: "Infinity" when no time passed, otherwise work per second. */
  datatype Rate = Infinity | HashesPerSecond(value: real)

  /** One output line, before `%`-formatting. */
  datatype Line = Line(
    height: int, time: int, target: int, avgTarget: int, difficulty: real,
    work: int, secondsPerBlock: real, nethash: Rate)

  /** The cumulative work up to, but not including, the row's block. */
  function WorkBefore(d: Difficulty, row: Row): int
  {
    row.chainWork - d.targetToWork(d.calculateTarget(row.nBits))
  }

  /** The line for `row`, the previous sample being `prev`. */
  function LineFor(d: Difficulty, interval: int, prev: Row, row: Row): (l: Line)
    requires interval != 0
    ensures var work := WorkBefore(d, row) - WorkBefore(d, prev);
            var seconds := row.time - prev.time;
            && l.height == row.height && l.time == row.time
            && l.target == d.calculateTarget(row.nBits)
            && l.difficulty == d.targetToDifficulty(l.target)
            && l.work == d.targetToWork(l.target)
            && l.avgTarget == d.workToTarget(FloorDiv(work, interval))
            && l.secondsPerBlock * (interval as real) == seconds as real
            && (l.nethash.Infinity? <==> seconds <= 0)
            && (l.nethash.HashesPerSecond? ==> l.nethash.value * (seconds as real) == work as real)
  {
    var target := d.calculateTarget(row.nBits);
    var work := d.targetToWork(target);
    var intervalWork := WorkBefore(d, row) - WorkBefore(d, prev);
    var seconds := row.time - prev.time;
    var nethash := if seconds <= 0 then Infinity else HashesPerSecond(intervalWork as real / seconds as real);
    Line(row.height, row.time, target, d.workToTarget(FloorDiv(intervalWork, interval)),
         d.targetToDifficulty(target), work, seconds as real / interval as real, nethash)
  }

  /** What the row loop of `q_nethash` produces: one line for each pair of
      consecutive rows; a second row with an INTERVAL of 0 divides by zero. */
  function NethashLines(d: Difficulty, interval: int, rows: seq<Row>): (r: Result<seq<Line>, RateError>)
    ensures r.Err? <==> |rows| >= 2 && interval == 0
    ensures r.Ok? ==> |r.value| == Max(0, |rows| - 1)
  {
    if |rows| >= 2 && interval == 0 then Err(ZeroInterval)
    else Ok(seq(Max(0, |rows| - 1), k requires 0 <= k < |rows| - 1 => LineFor(d, interval, rows[k], rows[k + 1])))
  }

  /** The row loop of `q_nethash`: each row after the first gives a line built
      from the previous row's time and work. */
  method NethashLoop(d: Difficulty, interval: int, rows: seq<Row>) returns (r: Result<seq<Line>, RateError>)
    ensures r == NethashLines(d, interval, rows)
  {
    var lines: seq<Line> := [];
    var prevTime, prevWork := 0, 0;
    var i := 0;
    while i < |rows|
      invariant 0 <= i <= |rows|
      invariant i > 0 ==> prevTime == rows[i - 1].time && prevWork == WorkBefore(d, rows[i - 1])
      invariant i > 1 ==> interval != 0
      invariant |lines| == Max(0, i - 1)
      invariant forall k :: 0 <= k < |lines| ==> lines[k] == LineFor(d, interval, rows[k], rows[k + 1])
    {
      var row := rows[i];
      var target := d.calculateTarget(row.nBits);
      var work := d.targetToWork(target);
      var chainWork := row.chainWork - work;
      if i > 0 {
        var intervalWork := chainWork - prevWork;
        if interval == 0 {
          return Err(ZeroInterval);
        }
        var avgTarget := d.workToTarget(FloorDiv(intervalWork, interval));
        var seconds := row.time - prevTime;
        var nethash := if seconds <= 0 then Infinity else HashesPerSecond(intervalWork as real / seconds as real);
        lines := lines + [Line(row.height, row.time, target, avgTarget, d.targetToDifficulty(target),
                               work, seconds as real / interval as real, nethash)];
      }
      prevTime, prevWork := row.time, chainWork;
      i := i + 1;
    }
    if |rows| >= 2 {
      assert interval != 0;
    }
    var expected := NethashLines(d, interval, rows).value;
    assert |expected| == |lines|;
    assert forall k :: 0 <= k < |lines| ==> expected[k] == lines[k];
    assert expected == lines;
    r := Ok(lines);
  }

  /** The rate of the last line; reading `ret` fails when there is none. */
  function LastRate(lines: Result<seq<Line>, RateError>): (r: Result<Rate, RateError>)
    ensures r.Ok? <==> lines.Ok? && lines.value != []
    ensures r.Ok? ==> r.value == lines.value[|lines.value| - 1].nethash
    ensures lines.Err? ==> r == Err(lines.error)
    ensures lines == Ok([]) ==> r == Err(Unbound)
  {
    match lines
    case Err(e) => Err(e)
    case Ok(ls) => if ls == [] then Err(Unbound) else Ok(ls[|ls| - 1].nethash)
  }

  /** The row loop of `q_hashrate`: the same computation, keeping only the
      last rate; with fewer than two rows `ret` is never assigned. */
  method HashrateLoop(d: Difficulty, interval: int, rows: seq<Row>) returns (r: Result<Rate, RateError>)
    ensures r == LastRate(NethashLines(d, interval, rows))
  {
    var ret: Option<Rate> := None;
    var prevTime, prevWork := 0, 0;
    var i := 0;
    while i < |rows|
      invariant 0 <= i <= |rows|
      invariant i > 0 ==> prevTime == rows[i - 1].time && prevWork == WorkBefore(d, rows[i - 1])
      invariant i > 1 ==> interval != 0
      invariant ret.None? <==> i < 2
      invariant i >= 2 ==> ret == Some(LineFor(d, interval, rows[i - 2], rows[i - 1]).nethash)
    {
      var row := rows[i];
      var work := d.targetToWork(d.calculateTarget(row.nBits));
      var chainWork := row.chainWork - work;
      if i > 0 {
        var intervalWork := chainWork - prevWork;
        if interval == 0 {
          return Err(ZeroInterval);
        }
        var seconds := row.time - prevTime;
        ret := Some(if seconds <= 0 then Infinity else HashesPerSecond(intervalWork as real / seconds as real));
      }
      prevTime, prevWork := row.time, chainWork;
      i := i + 1;
    }
    if ret.None? {
      return Err(Unbound);
    }
    r := Ok(ret.value);
  }

  /** The work a line accounts for: its rate times the seconds since the
      previous sample, taken at `prevTime`; nothing for an "Infinity" line. */
  function LineWork(l: Line, prevTime: int): real
  {
    match l.nethash
    case Infinity => 0.0
    case HashesPerSecond(v) => v * (l.time - prevTime) as real
  }

  /** The work the report accounts for, line by line; `t0` is the time of
      the first sample, which has no line of its own. */
  function ReportedWork(lines: seq<Line>, t0: int): real
    decreases |lines|
  {
    if lines == [] then 0.0
    else ReportedWork(lines[..|lines| - 1], t0)
         + LineWork(lines[|lines| - 1], if |lines| == 1 then t0 else lines[|lines| - 2].time)
  }

  /** Line `k` closes the interval from row `k` to row `k + 1` and accounts
      for the work done in it. */
  predicate Accounts(d: Difficulty, lines: seq<Line>, rows: seq<Row>)
  {
    && |lines| + 1 == |rows|
    && (forall k :: 0 <= k < |lines| ==> lines[k].time == rows[k + 1].time)
    && (forall k :: 0 <= k < |lines| ==>
          LineWork(lines[k], rows[k].time) == (WorkBefore(d, rows[k + 1]) - WorkBefore(d, rows[k])) as real)
  }

  /** Lines that each account for their interval account, together, for the
      work between the first and the last row. */
  lemma {:induction false} AccountedWorkTelescopes(d: Difficulty, lines: seq<Line>, rows: seq<Row>)
    requires Accounts(d, lines, rows)
    ensures ReportedWork(lines, rows[0].time) == (WorkBefore(d, rows[|rows| - 1]) - WorkBefore(d, rows[0])) as real
    decreases |lines|
  {
    var m := |lines|;
    if m > 0 {
      AccountsPrefix(d, lines, rows);
      AccountedWorkTelescopes(d, lines[..m - 1], rows[..m]);
    }
  }

  /** Dropping the last line and the last row keeps the accounting. */
  lemma AccountsPrefix(d: Difficulty, lines: seq<Line>, rows: seq<Row>)
    requires Accounts(d, lines, rows) && |lines| > 0
    ensures Accounts(d, lines[..|lines| - 1], rows[..|lines|])
    ensures rows[..|lines|][0] == rows[0] && rows[..|lines|][|lines| - 1] == rows[|lines| - 1]
  {
  }

  /** A line over an interval that took time accounts for the interval's work. */
  lemma LineWorkIsIntervalWork(d: Difficulty, interval: int, prev: Row, row: Row)
    requires interval != 0 && prev.time < row.time
    ensures LineWork(LineFor(d, interval, prev, row), prev.time)
            == (WorkBefore(d, row) - WorkBefore(d, prev)) as real
  {
  }

  /** When every interval took time, the rates reported, each multiplied by
      its interval, add up to the work done between the first and the last
      sample: the interval works telescope. */
  lemma ReportedWorkTelescopes(d: Difficulty, interval: int, rows: seq<Row>)
    requires |rows| >= 1 && NethashLines(d, interval, rows).Ok?
    requires forall k :: 0 <= k < |rows| - 1 ==> rows[k].time < rows[k + 1].time
    ensures ReportedWork(NethashLines(d, interval, rows).value, rows[0].time)
            == (WorkBefore(d, rows[|rows| - 1]) - WorkBefore(d, rows[0])) as real
  {
    var lines := NethashLines(d, interval, rows).value;
    forall k | 0 <= k < |lines|
      ensures lines[k].time == rows[k + 1].time
      ensures LineWork(lines[k], rows[k].time) == (WorkBefore(d, rows[k + 1]) - WorkBefore(d, rows[k])) as real
    {
      LineWorkIsIntervalWork(d, interval, rows[k], rows[k + 1]);
    }
    AccountedWorkTelescopes(d, lines, rows);
  }

  // ---------------------------------------------------------------------------
  // The two pages

  /** `q_nethash` for a known chain: the lines following `NETHASH_HEADER`. */
  function NethashPage(d: Difficulty, blocks: seq<Block>, a: Segment, b: Segment, c: Segment)
    : Result<seq<Line>, RateError>
  {
    var interval := PathInfoInt(a, Some(144)).value;
    var start := PathInfoInt(b, Some(0)).value;
    var stop := PathInfoInt(c, None);
    match Normalize(interval, start, stop, MaxHeight(blocks), "ERROR: Negative INTERVAL requires 0 START.")
    case Err(e) => Err(e)
    case Ok(p) => NethashLines(d, p.interval, Rows(blocks, p))
  }

  method QNethash(d: Difficulty, blocks: seq<Block>, a: Segment, b: Segment, c: Segment)
    returns (r: Result<seq<Line>, RateError>)
    ensures r == NethashPage(d, blocks, a, b, c)
  {
    var interval := PathInfoInt(a, Some(144)).value;
    var start := PathInfoInt(b, Some(0)).value;
    var stop := PathInfoInt(c, None);
    var plan := Normalize(interval, start, stop, MaxHeight(blocks), "ERROR: Negative INTERVAL requires 0 START.");
    if plan.Err? {
      return Err(plan.error);
    }
    r := NethashLoop(d, plan.value.interval, Rows(blocks, plan.value));
  }

  /** `q_hashrate` for a known chain: the estimate over the last N blocks. */
  function HashratePage(d: Difficulty, blocks: seq<Block>, a: Segment): Result<Rate, RateError>
  {
    HashrateOver(d, blocks, PathInfoInt(a, Some(1440)).value)
  }

  /** The estimate over the last `n` blocks: every `n`-th block from `n`
      before the last one. */
  function HashrateOver(d: Difficulty, blocks: seq<Block>, n: int): Result<Rate, RateError>
  {
    match Normalize(n, -n, None, MaxHeight(blocks), "ERROR: Negative N!")
    case Err(e) => Err(e)
    case Ok(p) => LastRate(NethashLines(d, p.interval, Rows(blocks, p)))
  }

  method QHashrate(d: Difficulty, blocks: seq<Block>, a: Segment) returns (r: Result<Rate, RateError>)
    ensures r == HashratePage(d, blocks, a)
  {
    var interval := PathInfoInt(a, Some(1440)).value;
    var plan := Normalize(interval, -interval, None, MaxHeight(blocks), "ERROR: Negative N!");
    if plan.Err? {
      return Err(plan.error);
    }
    r := HashrateLoop(d, plan.value.interval, Rows(blocks, plan.value));
    HashrateOverPlan(d, blocks, interval, plan.value);
  }

  lemma HashrateOverPlan(d: Difficulty, blocks: seq<Block>, n: int, p: Plan)
    requires Normalize(n, -n, None, MaxHeight(blocks), "ERROR: Negative N!") == Ok(p)
    ensures HashrateOver(d, blocks, n) == LastRate(NethashLines(d, p.interval, Rows(blocks, p)))
  {
  }

  /** A negative INTERVAL without START or STOP counts back from the last
      block: the samples are evenly spaced and the last one is the last block. */
  lemma NegativeIntervalEndsAtTip(k: int, tip: nat)
    requires k > 0
    ensures Normalize(-k, 0, None, Some(tip), "").Ok?
    ensures var hs := Samples(Normalize(-k, 0, None, Some(tip), "").value, tip);
            hs == Progression(tip % k, k, tip / k + 1) && hs[|hs| - 1] == tip
  {
    var p := Normalize(-k, 0, None, Some(tip), "").value;
    CountBackPlan(k, tip);
    RemainderSteps(k, tip);
    SampledIsProgression(p, tip, 0, tip % k);
    ProgressionLast(tip % k, k, tip / k + 1);
  }

  /** Counting back from the last block starts at the remainder. */
  lemma CountBackPlan(k: int, tip: nat)
    requires k > 0
    ensures Normalize(-k, 0, None, Some(tip), "") == Ok(Plan(k, tip % k, None))
  {
    assert FloorDiv(tip, k) == tip / k;
    assert tip - tip / k * k == tip % k;
  }

  /** From the remainder, `tip / k` further steps reach the last block. */
  lemma RemainderSteps(k: int, tip: nat)
    requires k > 0
    ensures (tip - tip % k) / k == tip / k
    ensures tip % k + (tip / k + 1 - 1) * k == tip
  {
    DivUnique(tip - tip % k, k, tip / k);
  }

  /** `q_hashrate` with N > 0 asks for every N-th block, starting N before
      the last one. */
  lemma HashratePlan(n: int, tip: nat, refusal: string)
    requires n > 0
    ensures Normalize(n, -n, None, Some(tip), refusal) == Ok(Plan(n, tip - n, None))
  {
  }

  /** Over N blocks, 0 < N <= last height, it samples exactly the block N
      back and the last block. */
  lemma HashrateSamples(n: int, tip: nat)
    requires 0 < n <= tip
    ensures Samples(Plan(n, tip - n, None), tip) == [tip - n, tip]
  {
    SampledIsProgression(Plan(n, tip - n, None), tip, 0, tip - n);
    DivUnique(n, n, 1);
  }

  /** With N beyond the last height at most the last block is sampled. */
  lemma HashrateTooFew(n: int, tip: nat)
    requires n > tip
    ensures |Samples(Plan(n, tip - n, None), tip)| <= 1
  {
    var p := Plan(n, tip - n, None);
    assert Samples(p, tip) == Sampled(p, tip, 1, tip);
    if tip >= 1 {
      SampledPastTip(p, tip, 2, tip + n);
      assert Sampled(p, tip, 1, tip) == [tip] + Sampled(p, tip, 2, tip + n);
    }
  }

  /** The page reads N from the path, 1440 when it is missing or not a number. */
  lemma HashratePageReadsN(d: Difficulty, blocks: seq<Block>, n: int)
    ensures HashratePage(d, blocks, Text(IntToString(n))) == HashrateOver(d, blocks, n)
    ensures HashratePage(d, blocks, Absent) == HashrateOver(d, blocks, 1440)
  {
    PathInfoIntReadsNumbers(n, Some(1440));
  }

  /** `q_hashrate` refuses a negative N. */
  lemma HashrateRefusesNegative(d: Difficulty, blocks: seq<Block>, n: int)
    requires n < 0
    ensures HashrateOver(d, blocks, n) == Err(Refused("ERROR: Negative N!"))
  {
  }

  /** For 0 < N <= last height, `q_hashrate` gives the rate between the block
      N back and the last block. */
  lemma HashrateOverN(d: Difficulty, blocks: seq<Block>, n: int)
    requires 0 < n < |blocks|
    ensures HashrateOver(d, blocks, n)
            == Ok(LineFor(d, n, RowAt(blocks, |blocks| - 1 - n), RowAt(blocks, |blocks| - 1)).nethash)
  {
    var tip := |blocks| - 1;
    HashratePlan(n, tip, "ERROR: Negative N!");
    HashrateSamples(n, tip);
    var rows := Rows(blocks, Plan(n, tip - n, None));
    assert rows[0] == RowAt(blocks, tip - n) && rows[1] == RowAt(blocks, tip);
  }

  /** With N past the last height fewer than two blocks are sampled and
      `ret` is read unassigned. */
  lemma HashrateBeyondChain(d: Difficulty, blocks: seq<Block>, n: int)
    requires blocks != [] && n >= |blocks|
    ensures HashrateOver(d, blocks, n) == Err(Unbound)
  {
    HashratePlan(n, |blocks| - 1, "ERROR: Negative N!");
    HashrateTooFew(n, |blocks| - 1);
  }

  /** N = 0 gives START -0 = 0, so the genesis block is sampled once per
      height: two or more blocks divide by the INTERVAL of 0, a single block
      leaves `ret` unassigned. */
  lemma HashrateZero(d: Difficulty, blocks: seq<Block>)
    requires blocks != []
    ensures |blocks| >= 2 ==> HashrateOver(d, blocks, 0) == Err(ZeroInterval)
    ensures |blocks| == 1 ==> HashrateOver(d, blocks, 0) == Err(Unbound)
  {
    var p := Plan(0, 0, None);
    assert Normalize(0, 0, None, Some(|blocks| - 1), "ERROR: Negative N!") == Ok(p);
    SampledAtZeroInterval(p, |blocks| - 1, 0);
  }
}
