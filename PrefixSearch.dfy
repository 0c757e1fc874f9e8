/** Search by partial identifier. `search_address_prefix` manufactures a scan
    range over the pubkey-hash index from a partial Base58 address, narrowing
    the padded length one character per pass, and re-encodes every candidate
    so that only true prefix matches are returned ("approximate range, exact
    verify"). `search_hash_prefix` does the same for hexadecimal prefixes of
    transaction, block and pubkey hashes. */
module PrefixSearch {
  import opened Prelude
  import opened Hex
  import opened Externals

  /** `is_address_version`: only one-byte versions are valid address versions. */
  predicate IsAddressVersion(v: seq<byte>)
  {
    |v| == 1
  }

  // ---------------------------------------------------------------------------
  // incr_str: big-endian increment of a byte string

  /** The number a byte string denotes, most significant byte first. */
  function BigEndian(s: seq<byte>): nat
  {
    if s == [] then 0 else BigEndian(s[..|s| - 1]) * 256 + s[|s| - 1]
  }

  /** `incr_str(s)`: add one to the last byte that is not `'\xff'` and zero every
      byte after it; when every byte is `'\xff'` the result is `'\1'` followed by
      `len(s)` zero bytes. */
  function IncrStr(s: seq<byte>): (r: seq<byte>)
    ensures |r| == |s| || |r| == |s| + 1
  {
    if s == [] then [1]
    else if s[|s| - 1] != 255 then s[..|s| - 1] + [s[|s| - 1] + 1]
    else IncrStr(s[..|s| - 1]) + [0]
  }

  /** The increment adds exactly one to the big-endian value. */
  lemma {:induction false} IncrStrValue(s: seq<byte>)
    ensures BigEndian(IncrStr(s)) == BigEndian(s) + 1
    decreases |s|
  {
    if s != [] {
      var p := s[..|s| - 1];
      var r := IncrStr(s);
      assert r[..|r| - 1] == if s[|s| - 1] != 255 then p else IncrStr(p);
      if s[|s| - 1] == 255 {
        IncrStrValue(p);
      }
    }
  }

  /** The carry: the last byte below `0xff` goes up by one, the bytes before it
      are kept, the bytes after it become zero, and the length is kept. */
  lemma {:induction false} IncrStrCarry(s: seq<byte>, i: nat)
    requires i < |s| && s[i] != 255
    requires forall j :: i < j < |s| ==> s[j] == 255
    ensures IncrStr(s) == s[..i] + [s[i] + 1] + Repeat(0, |s| - i - 1)
    decreases |s|
  {
    var p := s[..|s| - 1];
    if i < |s| - 1 {
      assert p[..i] == s[..i] && p[i] == s[i];
      IncrStrCarry(p, i);
      assert Repeat(0, |s| - i - 2) + [0] == Repeat(0, |s| - i - 1);
    } else {
      assert s[..i] == p;
    }
  }

  /** The overflow case: all `0xff` gives `'\1'` and `len(s)` zero bytes. */
  lemma {:induction false} IncrStrOverflow(s: seq<byte>)
    requires forall j :: 0 <= j < |s| ==> s[j] == 255
    ensures IncrStr(s) == [1] + Repeat(0, |s|)
    decreases |s|
  {
    if s != [] {
      IncrStrOverflow(s[..|s| - 1]);
      assert Repeat(0, |s| - 1) + [0] == Repeat(0, |s|);
    }
  }

  // ---------------------------------------------------------------------------
  // search_address_prefix

  /** A scan of the pubkey-hash index: `BETWEEN lo AND hi` or its negation. */
  datatype RangeQuery = Between(lo: seq<byte>, hi: seq<byte>) | NotBetween(lo: seq<byte>, hi: seq<byte>)

  /** The scan for decoded bounds `hl`, `hh`: kept in order, or swapped and
      negated (`" NOT"`) when they come out inverted. */
  function OrderedRange(hl: seq<byte>, hh: seq<byte>): (q: RangeQuery)
    ensures LexLe(q.lo, q.hi)
    ensures q.Between? <==> LexLe(hl, hh)
    ensures q.Between? ==> q.lo == hl && q.hi == hh
    ensures q.NotBetween? ==> q.lo == hh && q.hi == hl
  {
    if LexLe(hl, hh) then Between(hl, hh)
    else
      LexTotal(hl, hh);
      NotBetween(hh, hl)
  }

  /** What one search needs: the partial address, the address codec and the
      pubkey-hash index (rows come back as raw 160-bit hashes). */
  datatype Search = Search(ap: string, codec: AddressCodec, scan: RangeQuery -> seq<seq<byte>>)

  datatype SearchError = UnboundVersion  // `process` reads `v` before assigning it

  /** The first candidate length, `max(35, len(ap))`. */
  function StartLen(ap: string): int
  {
    Max(35, |ap|)
  }

  /** The shortest candidate length tried, `max(len(ap), 24)`. */
  function MinLen(ap: string): int
  {
    Max(|ap|, 24)
  }

  /** The first bounds: `ap` right-padded to the first candidate length with
      `'1'` (`al`) or with `'z'` (`ah`), the least and greatest Base58 digits. */
  function Padded(ap: string, c: char): (b: string)
    ensures |b| == StartLen(ap) && StartsWith(b, ap)
    ensures forall i :: |ap| <= i < |b| ==> b[i] == c
  {
    var b := ap + Repeat(c, StartLen(ap) - |ap|);
    assert b[..|ap|] == ap;
    b
  }

  /** A verified hit: the address begins with the prefix and is the encoding
      of some hash under a one-byte version. */
  ghost predicate Verified(cx: Search, a: string)
  {
    StartsWith(a, cx.ap) &&
    exists v, h :: IsAddressVersion(v) && a == cx.codec.hashToAddress(v, h)
  }

  datatype RowOutcome = Keep(address: string) | Skip | Unbound

  /** `process(row)` for one candidate hash: encode with `vl`; failing the
      prefix, encode with `vh` if it differs; keep one-byte versions only. */
  function ProcessRow(cx: Search, vl: seq<byte>, vh: seq<byte>, hash: seq<byte>): (r: RowOutcome)
    ensures r.Unbound? <==> !StartsWith(cx.codec.hashToAddress(vl, hash), cx.ap) && vh == vl
    ensures r.Keep? ==> StartsWith(r.address, cx.ap)
    ensures r.Keep? ==>
              || (r.address == cx.codec.hashToAddress(vl, hash) && IsAddressVersion(vl))
              || (r.address == cx.codec.hashToAddress(vh, hash) && IsAddressVersion(vh))
  {
    var address := cx.codec.hashToAddress(vl, hash);
    if StartsWith(address, cx.ap) then
      if IsAddressVersion(vl) then Keep(address) else Skip
    else if vh != vl then
      var address' := cx.codec.hashToAddress(vh, hash);
      if !StartsWith(address', cx.ap) then Skip
      else if IsAddressVersion(vh) then Keep(address') else Skip
    else Unbound
  }

  /** `filter(None, map(process, rows))`: the first unbound `v` aborts the whole search. */
  function ProcessRows(cx: Search, vl: seq<byte>, vh: seq<byte>, rows: seq<seq<byte>>): (r: Result<seq<string>, SearchError>)
    ensures r.Err? <==> exists i :: 0 <= i < |rows| && ProcessRow(cx, vl, vh, rows[i]).Unbound?
    ensures r.Ok? ==> |r.value| <= |rows|
    ensures r.Ok? ==> forall a :: a in r.value ==> Verified(cx, a)
  {
    if rows == [] then Ok([])
    else
      var rest := ProcessRows(cx, vl, vh, rows[1..]);
      assert forall i :: 1 <= i < |rows| ==> rows[i] == rows[1..][i - 1];
      match ProcessRow(cx, vl, vh, rows[0])
      case Unbound => Err(UnboundVersion)
      case Skip => rest
      case Keep(a) =>
        if rest.Err? then rest
        else
          assert Verified(cx, a) by {
            if a == cx.codec.hashToAddress(vl, rows[0]) && IsAddressVersion(vl) {
              assert IsAddressVersion(vl) && a == cx.codec.hashToAddress(vl, rows[0]);
            } else {
              assert IsAddressVersion(vh) && a == cx.codec.hashToAddress(vh, rows[0]);
            }
          }
          Ok([a] + rest.value)
  }

  /** The SQL `LIMIT n`. */
  function Limit<T>(rows: seq<T>, n: nat): (r: seq<T>)
    ensures |r| <= n && |r| <= |rows| && r == rows[..|r|]
  {
    if |rows| <= n then rows else rows[..n]
  }

  datatype PassOutcome = Stop | Retry | Scanned(found: seq<string>) | RowError(error: SearchError)

  /** One pass of the loop body for bounds `al`, `ah`: decode both, apply the
      three guards (`break`, `break`, `continue`), then scan and verify. */
  function Pass(cx: Search, al: string, ah: string): (p: PassOutcome)
    ensures p.Scanned? ==> |p.found| <= 100 && forall a :: a in p.found ==> Verified(cx, a)
  {
    var (vl, hl) := cx.codec.decodeAddress(al);
    var (vh, hh) := cx.codec.decodeAddress(ah);
    var ones := LeadingRun(cx.ap, '1');
    var probe := cx.codec.hashToAddress([0], hh);
    if ones > 0 && ones < |cx.ap| && ones < |probe| && probe[ones] == '1' then Stop
    else if ones == 0 && vh == [0] then Stop
    else if ones == 0 && vh != vl && vh != IncrStr(vl) then Retry
    else
      match ProcessRows(cx, vl, vh, Limit(cx.scan(OrderedRange(hl, hh)), 100))
      case Ok(found) => Scanned(found)
      case Err(e) => RowError(e)
  }

  datatype SearchOutcome = Done(found: seq<string>) | Diverged | Raised(error: SearchError)

  /** Results of earlier passes in front of the outcome of the rest. */
  function Prepend(found: seq<string>, o: SearchOutcome): SearchOutcome
  {
    if o.Done? then Done(found + o.found) else o
  }

  /** The loop `while l >= minlen` on bounds `al`, `ah` (of length `l`), given
      the pass the body performs, with `fuel` passes left: a scanned pass
      drops the last character of both bounds. `Diverged` stands for a loop
      that has not finished after `fuel` passes: the `continue` branch leaves
      `l`, `al` and `ah` as they were, so once it is taken the source never
      leaves the loop (see `RetryDiverges`). */
  function Run(pass: (string, string) -> PassOutcome, minlen: int, al: string, ah: string, fuel: nat): SearchOutcome
    decreases fuel
  {
    if |al| < minlen then Done([])
    else if fuel == 0 then Diverged
    else
      match pass(al, ah)
      case Stop => Done([])
      case Retry => Run(pass, minlen, al, ah, fuel - 1)
      case RowError(e) => Raised(e)
      case Scanned(found) =>
        if |al| == 0 || |ah| == 0 then Done(found)  // unreachable: both bounds have length `l >= 24`
        else Prepend(found, Run(pass, minlen, al[..|al| - 1], ah[..|ah| - 1], fuel - 1))
  }

  /** `search_address_prefix(ap)` given `fuel` passes: every address it
      returns begins with `ap` and encodes a hash under a one-byte version. */
  function SearchFrom(cx: Search, fuel: nat): (r: SearchOutcome)
    ensures r.Done? ==> forall a :: a in r.found ==> Verified(cx, a)
  {
    RunVerified(cx, Padded(cx.ap, '1'), Padded(cx.ap, 'z'), fuel);
    Run(PassOf(cx), MinLen(cx.ap), Padded(cx.ap, '1'), Padded(cx.ap, 'z'), fuel)
  }

  /** The loop body's pass, as a function of the current bounds. */
  function PassOf(cx: Search): (string, string) -> PassOutcome
  {
    (al, ah) => Pass(cx, al, ah)
  }

  lemma {:induction false} RunVerified(cx: Search, al: string, ah: string, fuel: nat)
    ensures var r := Run(PassOf(cx), MinLen(cx.ap), al, ah, fuel);
            r.Done? ==> forall a :: a in r.found ==> Verified(cx, a)
    decreases fuel
  {
    var pass := PassOf(cx);
    if |al| >= MinLen(cx.ap) && fuel > 0 {
      var p := Pass(cx, al, ah);
      assert pass(al, ah) == p;
      if p.Retry? {
        RunVerified(cx, al, ah, fuel - 1);
      } else if p.Scanned? && |al| > 0 && |ah| > 0 {
        RunVerified(cx, al[..|al| - 1], ah[..|ah| - 1], fuel - 1);
      }
    }
  }

  /** The search is not complete: a pass sees only the first 100 rows of its
      scan, so two indexes that agree on those give the same pass, whatever
      matching hashes lie beyond them. */
  lemma PassIgnoresRowsPastLimit(cx1: Search, cx2: Search, al: string, ah: string)
    requires cx1.ap == cx2.ap && cx1.codec == cx2.codec
    requires forall q :: Limit(cx1.scan(q), 100) == Limit(cx2.scan(q), 100)
    ensures Pass(cx1, al, ah) == Pass(cx2, al, ah)
  {
    var (vl, hl) := cx1.codec.decodeAddress(al);
    var (vh, hh) := cx1.codec.decodeAddress(ah);
    var q := OrderedRange(hl, hh);
    assert Limit(cx1.scan(q), 100) == Limit(cx2.scan(q), 100);
    ProcessRowsOnlyReadsCodec(cx1, cx2, vl, vh, Limit(cx1.scan(q), 100));
  }

  /** Processing rows reads only the prefix and the codec of the search. */
  lemma {:induction false} ProcessRowsOnlyReadsCodec(cx1: Search, cx2: Search, vl: seq<byte>, vh: seq<byte>,
                                                     rows: seq<seq<byte>>)
    requires cx1.ap == cx2.ap && cx1.codec == cx2.codec
    ensures ProcessRows(cx1, vl, vh, rows) == ProcessRows(cx2, vl, vh, rows)
    decreases |rows|
  {
    if rows != [] {
      ProcessRowsOnlyReadsCodec(cx1, cx2, vl, vh, rows[1..]);
      assert ProcessRow(cx1, vl, vh, rows[0]) == ProcessRow(cx2, vl, vh, rows[0]);
    }
  }

  /** Each scanned length contributes at most 100 addresses, so a finished
      run over bounds of length `l` returns at most `100 * (l - minlen + 1)`. */
  lemma {:induction false} RunFindsAtMost(cx: Search, al: string, ah: string, fuel: nat)
    ensures var r := Run(PassOf(cx), MinLen(cx.ap), al, ah, fuel);
            r.Done? ==> |r.found| <= 100 * Max(0, |al| - MinLen(cx.ap) + 1)
    decreases fuel
  {
    var pass := PassOf(cx);
    if |al| >= MinLen(cx.ap) && fuel > 0 {
      var p := Pass(cx, al, ah);
      assert pass(al, ah) == p;
      if p.Retry? {
        RunFindsAtMost(cx, al, ah, fuel - 1);
      } else if p.Scanned? && |al| > 0 && |ah| > 0 {
        RunFindsAtMost(cx, al[..|al| - 1], ah[..|ah| - 1], fuel - 1);
      }
    }
  }

  /** A finished search returns at most 100 addresses for each length from
      `max(35, len(ap))` down to `max(len(ap), 24)`: any further matching
      addresses are not found. */
  lemma SearchFindsAtMost(cx: Search, fuel: nat)
    ensures SearchFrom(cx, fuel).Done? ==>
              |SearchFrom(cx, fuel).found| <= 100 * (StartLen(cx.ap) - MinLen(cx.ap) + 1)
  {
    var al := Padded(cx.ap, '1');
    RunFindsAtMost(cx, al, Padded(cx.ap, 'z'), fuel);
    assert SearchFrom(cx, fuel) == Run(PassOf(cx), MinLen(cx.ap), al, Padded(cx.ap, 'z'), fuel);
    assert Max(0, |al| - MinLen(cx.ap) + 1) == StartLen(cx.ap) - MinLen(cx.ap) + 1;
  }

  /** `search_address_prefix(ap)`, run for at most `fuel` passes. */
  method SearchAddressPrefix(cx: Search, fuel: nat) returns (r: SearchOutcome)
    ensures r == SearchFrom(cx, fuel)
    ensures r.Done? ==> forall a :: a in r.found ==> Verified(cx, a)
  {
    var ap := cx.ap;
    var l := Max(35, |ap|);
    var al := ap + Repeat('1', l - |ap|);
    var ah := ap + Repeat('z', l - |ap|);
    assert al == Padded(ap, '1') && ah == Padded(ap, 'z');
    r := NarrowingLoop(PassOf(cx), Max(|ap|, 24), al, ah, fuel);
  }

  /** The loop `while l >= minlen`: one pass on the current bounds, then on
      a scan drop the last character of both (`l -= 1`, `al = al[:-1]`,
      `ah = ah[:-1]`); `break` ends it, `continue` repeats the pass unchanged. */
  method NarrowingLoop(pass: (string, string) -> PassOutcome, minlen: int, al0: string, ah0: string, fuel: nat)
    returns (r: SearchOutcome)
    requires 0 < minlen && |al0| == |ah0|
    ensures r == Run(pass, minlen, al0, ah0, fuel)
  {
    var al, ah := al0, ah0;
    var l := |al|;
    var ret: seq<string> := [];
    var left: nat := fuel;
    PrependNothing(Run(pass, minlen, al, ah, left));
    while l >= minlen
      invariant l == |al| == |ah|
      invariant Prepend(ret, Run(pass, minlen, al, ah, left)) == Run(pass, minlen, al0, ah0, fuel)
      decreases left
    {
      if left == 0 {
        return Diverged;
      }
      var p := pass(al, ah);
      RunStep(pass, minlen, al, ah, left);
      if p.Stop? {
        break;
      } else if p.RowError? {
        return Raised(p.error);
      } else if p.Retry? {
        left := left - 1;
      } else {
        PrependTwice(ret, p.found, Run(pass, minlen, al[..l - 1], ah[..l - 1], left - 1));
        ret := ret + p.found;
        l := l - 1;
        al := al[..l];
        ah := ah[..l];
        left := left - 1;
      }
    }
    PrependDone(ret);
    r := Done(ret);
  }

  /** One iteration of the loop, unfolded. */
  lemma RunStep(pass: (string, string) -> PassOutcome, minlen: int, al: string, ah: string, fuel: nat)
    requires |al| >= minlen && |al| > 0 && |ah| > 0 && fuel > 0
    ensures var p := pass(al, ah);
            Run(pass, minlen, al, ah, fuel) ==
              if p.Stop? then Done([])
              else if p.RowError? then Raised(p.error)
              else if p.Retry? then Run(pass, minlen, al, ah, fuel - 1)
              else Prepend(p.found, Run(pass, minlen, al[..|al| - 1], ah[..|ah| - 1], fuel - 1))
  {
  }

  lemma PrependNothing(o: SearchOutcome)
    ensures Prepend([], o) == o
  {
    if o.Done? {
      assert [] + o.found == o.found;
    }
  }

  lemma PrependTwice(a: seq<string>, b: seq<string>, o: SearchOutcome)
    ensures Prepend(a, Prepend(b, o)) == Prepend(a + b, o)
  {
    if o.Done? {
      assert a + (b + o.found) == (a + b) + o.found;
    }
  }

  lemma PrependDone(a: seq<string>)
    ensures Prepend(a, Done([])) == Done(a)
  {
    assert a + [] == a;
  }

  /** Once the `continue` branch is taken the loop never finishes, however
      many passes it is given. */
  lemma {:induction false} RetryDiverges(pass: (string, string) -> PassOutcome, minlen: int, al: string, ah: string, fuel: nat)
    requires minlen <= |al| && pass(al, ah) == Retry
    ensures Run(pass, minlen, al, ah, fuel) == Diverged
    decreases fuel
  {
    if fuel > 0 {
      RetryDiverges(pass, minlen, al, ah, fuel - 1);
    }
  }

  /** Fuel is only a bound: a loop that finished with some fuel gives the
      same outcome with more. */
  lemma {:induction false} FuelMonotone(pass: (string, string) -> PassOutcome, minlen: int, al: string, ah: string, fuel: nat, more: nat)
    requires Run(pass, minlen, al, ah, fuel) != Diverged && fuel <= more
    ensures Run(pass, minlen, al, ah, more) == Run(pass, minlen, al, ah, fuel)
    decreases fuel
  {
    if |al| >= minlen && fuel > 0 {
      if pass(al, ah).Retry? {
        FuelMonotone(pass, minlen, al, ah, fuel - 1, more - 1);
      } else if pass(al, ah).Scanned? && |al| > 0 && |ah| > 0 {
        FuelMonotone(pass, minlen, al[..|al| - 1], ah[..|ah| - 1], fuel - 1, more - 1);
      }
    }
  }

  /** If no pass takes the `continue` branch, one pass per length suffices
      and the loop finishes. */
  lemma {:induction false} NoRetryFinishes(pass: (string, string) -> PassOutcome, minlen: int, al: string, ah: string, fuel: nat)
    requires 0 < minlen && |al| == |ah|
    requires forall k :: minlen <= k <= |al| ==> pass(al[..k], ah[..k]) != Retry
    requires fuel > |al| - minlen
    ensures Run(pass, minlen, al, ah, fuel) != Diverged
    decreases fuel
  {
    if |al| >= minlen {
      assert al[..|al|] == al && ah[..|ah|] == ah;
      if pass(al, ah).Scanned? {
        var al', ah' := al[..|al| - 1], ah[..|ah| - 1];
        forall k | minlen <= k <= |al'| ensures pass(al'[..k], ah'[..k]) != Retry {
          assert al'[..k] == al[..k] && ah'[..k] == ah[..k];
        }
        NoRetryFinishes(pass, minlen, al', ah', fuel - 1);
      }
    }
  }

  // ---------------------------------------------------------------------------
  // search_hash_prefix and is_hash_prefix

  datatype HashTable = TxTable | BlockTable | PubkeyTable

  /** Hexadecimal width of the hashes a table holds: 160-bit pubkey hashes, 256-bit otherwise. */
  function Width(t: HashTable): nat
  {
    if t == PubkeyTable then 40 else 64
  }

  function LowerChar(c: char): char
  {
    if 'A' <= c <= 'Z' then (c as int + 32) as char else c
  }

  /** `s.lower()` on ASCII text. */
  function Lower(s: string): (r: string)
    ensures |r| == |s| && forall i :: 0 <= i < |s| ==> r[i] == LowerChar(s[i])
  {
    if s == [] then [] else [LowerChar(s[0])] + Lower(s[1..])
  }

  predicate IsHexText(s: string)
  {
    forall i :: 0 <= i < |s| ==> HexValue(s[i]).Some?
  }

  /** `is_hash_prefix(s)`: between 6 and 64 hexadecimal digits of either case. */
  predicate IsHashPrefix(s: string)
  {
    IsHexText(s) && 6 <= |s| <= 64
  }

  /** The scan bounds `search_hash_prefix` uses for table `t`: the lower-cased
      prefix padded with `'0'` and with `'f'` to the table's width; pubkey
      hashes are skipped (`None`) for prefixes longer than 40 digits. A longer
      prefix on the other tables is used unpadded, as `'0' * (64 - len(q))` is
      empty there. */
  function HashPrefixBounds(q: string, t: HashTable): (r: Option<(string, string)>)
    ensures r.None? <==> t == PubkeyTable && |q| > 40
    ensures r.Some? ==> StartsWith(r.value.0, Lower(q)) && StartsWith(r.value.1, Lower(q))
    ensures r.Some? ==> |r.value.0| == |r.value.1| == Max(|q|, Width(t))
  {
    var lq := Lower(q);
    if t == PubkeyTable && |lq| > 40 then None
    else
      var pad := if |lq| <= Width(t) then Width(t) - |lq| else 0;
      var lo := lq + Repeat('0', pad);
      var hi := lq + Repeat('f', pad);
      assert lo[..|lq|] == lq && hi[..|lq|] == lq;
      Some((lo, hi))
  }

  /** Every digit of lower-cased hexadecimal text is a lower-case hexadecimal digit. */
  lemma LowerHexText(q: string)
    requires IsHexText(q)
    ensures IsLowerHex(Lower(q))
  {
    forall i | 0 <= i < |q| ensures IsLowerHexChar(Lower(q)[i]) {
      assert HexValue(q[i]).Some?;
    }
  }

  /** On codes: a sequence lies between `p + L` and `p + H`, where it is
      pointwise between `L` and `H` after position `|p|`, exactly when it starts with `p`. */
  lemma {:induction false} PaddedRange(p: seq<int>, lo: seq<int>, hi: seq<int>, x: seq<int>)
    requires |lo| == |hi| && |x| == |p| + |lo|
    requires forall j :: 0 <= j < |lo| ==> lo[j] <= x[|p| + j] <= hi[j]
    ensures LexLe(p + lo, x) && LexLe(x, p + hi) <==> x[..|p|] == p
    decreases |p|
  {
    if p == [] {
      assert p + lo == lo && p + hi == hi;
      LexPointwise(lo, x);
      LexPointwise(x, hi);
    } else {
      assert (p + lo)[0] == p[0] && (p + hi)[0] == p[0];
      assert (p + lo)[1..] == p[1..] + lo && (p + hi)[1..] == p[1..] + hi;
      if x[0] == p[0] {
        PaddedRange(p[1..], lo, hi, x[1..]);
        assert x[..|p|] == [x[0]] + x[1..][..|p| - 1];
        assert p == [p[0]] + p[1..];
      } else {
        assert x[..|p|][0] != p[0];
      }
    }
  }

  /** The range is exact: a full-width lower-case hash lies between the bounds
      if and only if it begins with the lower-cased prefix. */
  lemma HashPrefixBoundsExact(q: string, t: HashTable, h: string)
    requires IsHexText(q) && |q| <= Width(t)
    requires |h| == Width(t) && IsLowerHex(h)
    ensures HashPrefixBounds(q, t).Some?
    ensures StrLe(HashPrefixBounds(q, t).value.0, h) && StrLe(h, HashPrefixBounds(q, t).value.1)
            <==> StartsWith(h, Lower(q))
  {
    PaddedBounds(q, t);
    PaddedHexRange(Lower(q), h);
  }

  /** Within the table's width the bounds are the padded prefix. */
  lemma PaddedBounds(q: string, t: HashTable)
    requires |q| <= Width(t)
    ensures HashPrefixBounds(q, t) == Some((Lower(q) + Repeat('0', Width(t) - |q|), Lower(q) + Repeat('f', Width(t) - |q|)))
  {
  }

  /** A lower-case hexadecimal string lies between `p` padded with `'0'` and
      `p` padded with `'f'` to its own length exactly when it starts with `p`. */
  lemma PaddedHexRange(p: string, h: string)
    requires |p| <= |h| && IsLowerHex(h)
    ensures var k := |h| - |p|;
            StrLe(p + Repeat('0', k), h) && StrLe(h, p + Repeat('f', k)) <==> StartsWith(h, p)
  {
    var z := Repeat('0', |h| - |p|);
    var f := Repeat('f', |h| - |p|);
    CodesAppend(p, z);
    CodesAppend(p, f);
    HexTailBetween(h, |p|);
    PaddedRange(Codes(p), Codes(z), Codes(f), Codes(h));
    CodesPrefix(h, p);
  }

  /** Past position `n`, a lower-case hexadecimal string lies digit by digit
      between a run of `'0'` and a run of `'f'`. */
  lemma HexTailBetween(h: string, n: nat)
    requires n <= |h| && IsLowerHex(h)
    ensures var k := |h| - n;
            forall j :: 0 <= j < k ==>
              Codes(Repeat('0', k))[j] <= Codes(h)[n + j] <= Codes(Repeat('f', k))[j]
  {
    var k := |h| - n;
    forall j | 0 <= j < k
      ensures Codes(Repeat('0', k))[j] <= Codes(h)[n + j] <= Codes(Repeat('f', k))[j]
    {
      assert IsLowerHexChar(h[n + j]);
    }
  }

  /** Prefixes agree on codes exactly when they agree on characters. */
  lemma CodesPrefix(h: string, p: string)
    requires |p| <= |h|
    ensures Codes(h)[..|p|] == Codes(p) <==> StartsWith(h, p)
  {
    if h[..|p|] != p {
      var i :| 0 <= i < |p| && h[i] != p[i];
      assert Codes(h)[..|p|][i] != Codes(p)[i];
    }
  }

  /** What `is_hash_prefix` admits, the transaction and block scans cover
      exactly: their bounds are 64 digits wide and bracket precisely the
      hashes with that prefix. */
  lemma HashPrefixScanIsExact(q: string, t: HashTable, h: string)
    requires IsHashPrefix(q) && t != PubkeyTable
    requires |h| == 64 && IsLowerHex(h)
    ensures HashPrefixBounds(q, t).Some?
    ensures |HashPrefixBounds(q, t).value.0| == 64
    ensures StrLe(HashPrefixBounds(q, t).value.0, h) && StrLe(h, HashPrefixBounds(q, t).value.1)
            <==> StartsWith(h, Lower(q))
  {
    HashPrefixBoundsExact(q, t, h);
  }
}
