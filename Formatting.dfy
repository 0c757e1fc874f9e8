/** The explorer's text rendering: amounts in fixed-point coins
    (`format_satoshis`), the thousands grouping of a difficulty
    (`format_difficulty`) and the flattening of nested HTML fragments into one
    string (`flatten`). */
module Formatting {
  import opened Prelude
  import opened Decimal

  // ---------------------------------------------------------------------------
  // Amounts

  /** `LOG10COIN` and `COIN`: the explorer shows amounts in units of 10^6 satoshis. */
  const Log10Coin: nat := 6
  const Coin: nat := 1000000

  lemma CoinIsPow10()
    ensures Pow10(Log10Coin) == Coin
  {
    assert Pow10(3) == 1000;
  }

  /** `s.rstrip(c)`: `s` without its trailing run of `c`. */
  function RStrip(s: string, c: char): (r: string)
    ensures |r| <= |s| && r == s[..|r|]
    ensures r == [] || r[|r| - 1] != c
  {
    if s != [] && s[|s| - 1] == c then RStrip(s[..|s| - 1], c) else s
  }

  /** The fractional part: a dot and the six-digit remainder, less its
      trailing zeros, and no dot at all for a whole amount. */
  function FracText(frac: nat): string
    requires frac < Coin
  {
    RStrip(RStrip("." + ZeroPad(frac, Log10Coin), '0'), '.')
  }

  /** `format_satoshis(satoshis, chain)` on an integer amount: a minus sign
      for a negative amount, then the whole coins and the fraction. */
  function FormatAmount(v: int): (s: string)
    decreases if v < 0 then 1 else 0
  {
    if v < 0 then "-" + FormatAmount(-v)
    else FormatUnsigned(v)
  }

  function FormatUnsigned(v: nat): string
  {
    NatToString(v / Coin) + FracText(v % Coin)
  }

  /** `format_satoshis`: an absent amount is the empty string. */
  function FormatSatoshis(v: Option<int>): (s: string)
    ensures v.None? <==> s == []
  {
    if v.None? then "" else FormatAmount(v.value)
  }

  /** The shape of the fraction: nothing for a whole amount, otherwise a dot
      and one to six digits, the last not zero, that scaled back to six
      places give the remainder. */
  lemma FracTextShape(frac: nat)
    requires frac < Coin
    ensures frac == 0 ==> FracText(frac) == []
    ensures frac > 0 ==> 2 <= |FracText(frac)| <= 1 + Log10Coin && FracText(frac)[0] == '.'
    ensures frac > 0 ==> AllDigits(FracText(frac)[1..]) && FracText(frac)[|FracText(frac)| - 1] != '0'
    ensures frac > 0 ==> DigitsValue(FracText(frac)[1..]) * Pow10(Log10Coin - (|FracText(frac)| - 1)) == frac
  {
    var z := ZeroPad(frac, Log10Coin);
    var d := RStrip(z, '0');
    StrippedPad(frac);
    StripBehindDot(z);
    assert FracText(frac) == if d == [] then [] else "." + d;
    if frac != 0 {
      var t := "." + d;
      assert t[1..] == d;
      assert t[|t| - 1] == d[|d| - 1];
    }
  }

  /** The six-digit remainder less its trailing zeros: empty exactly for a
      whole amount, and otherwise digits ending in a non-zero one that,
      scaled back to six places, give the remainder. */
  lemma StrippedPad(frac: nat)
    requires frac < Coin
    ensures var z := ZeroPad(frac, Log10Coin);
            var d := RStrip(z, '0');
            AllDigits(z) && AllDigits(d) && |d| <= Log10Coin && (d == [] <==> frac == 0) &&
            DigitsValue(d) * Pow10(Log10Coin - |d|) == frac
  {
    CoinIsPow10();
    ZeroPadLength(frac, Log10Coin);
    ZeroPadValue(frac, Log10Coin);
    var z := ZeroPad(frac, Log10Coin);
    var d := RStrip(z, '0');
    var k := |z| - |d|;
    RStripSplit(z, '0');
    PrefixDigits(z, |d|);
    ZerosValue(k);
    DigitsValueAppend(d, Repeat('0', k));
    PositiveTail(d);
    ZeroProduct(DigitsValue(d), Pow10(k));
  }

  /** The stripped text followed by the stripped run gives the text back. */
  lemma {:induction false} RStripSplit(s: string, c: char)
    ensures s == RStrip(s, c) + Repeat(c, |s| - |RStrip(s, c)|)
    decreases |s|
  {
    if s != [] && s[|s| - 1] == c {
      var p := s[..|s| - 1];
      RStripSplit(p, c);
      var r := RStrip(p, c);
      assert s == p + [c];
      assert Repeat(c, |s| - |r|) == Repeat(c, |p| - |r|) + [c];
    }
  }

  lemma PrefixDigits(z: string, n: nat)
    requires AllDigits(z) && n <= |z|
    ensures AllDigits(z[..n])
  {
    forall i | 0 <= i < n ensures IsDigit(z[..n][i]) {
      assert z[..n][i] == z[i];
    }
  }

  /** Stripping zeros from a dot and digits strips only the digits. */
  lemma StripBehindDot(z: string)
    requires AllDigits(z)
    ensures RStrip("." + z, '0') == "." + RStrip(z, '0')
    ensures RStrip("." + RStrip(z, '0'), '.') == (if RStrip(z, '0') == [] then [] else "." + RStrip(z, '0'))
    decreases |z|
  {
    if z != [] && z[|z| - 1] == '0' {
      assert ("." + z)[..|z|] == "." + z[..|z| - 1];
      StripBehindDot(z[..|z| - 1]);
    }
    var d := RStrip(z, '0');
    if d == [] {
      assert RStrip(".", '.') == RStrip([], '.');
    }
  }

  /** A run of digits that ends in a non-zero digit has a positive value. */
  lemma PositiveTail(d: string)
    requires AllDigits(d) && (d == [] || d[|d| - 1] != '0')
    ensures d != [] ==> DigitsValue(d) >= 1
  {
  }

  lemma ZeroProduct(a: nat, b: nat)
    requires b >= 1
    ensures a * b == 0 <==> a == 0
  {
  }

  /** Reading an amount back, as a person would: an optional minus sign, whole
      coins, and an optional fraction of one to six digits. */
  function ParseAmount(t: string): Option<int>
  {
    if t != [] && t[0] == '-' then
      match ParseUnsigned(t[1..])
      case None => None
      case Some(v) => Some(-v)
    else ParseUnsigned(t)
  }

  /** The position of the first `'.'`, or the length when there is none. */
  function DotIndex(t: string): (k: nat)
    ensures k <= |t| && (k < |t| ==> t[k] == '.')
  {
    if t == [] then 0 else if t[0] == '.' then 0 else 1 + DotIndex(t[1..])
  }

  function ParseUnsigned(t: string): Option<int>
  {
    var k := DotIndex(t);
    var whole := t[..k];
    if whole == [] || !AllDigits(whole) then None
    else if k == |t| then Some(DigitsValue(whole) * Coin)
    else
      var frac := t[k + 1..];
      if frac == [] || |frac| > Log10Coin || !AllDigits(frac) then None
      else Some(DigitsValue(whole) * Coin + DigitsValue(frac) * Pow10(Log10Coin - |frac|))
  }

  /** Round trip: every amount reads back from its rendering. */
  lemma ParseFormatAmount(v: int)
    ensures ParseAmount(FormatAmount(v)) == Some(v)
  {
    if v < 0 {
      ParseFormatUnsigned(-v);
      ParseNegative(FormatUnsigned(-v));
    } else {
      ParseFormatUnsigned(v);
      ParseUnsignedText(FormatUnsigned(v));
    }
  }

  lemma ParseNegative(u: string)
    requires ParseUnsigned(u).Some?
    ensures ParseAmount("-" + u) == Some(-ParseUnsigned(u).value)
  {
    assert ("-" + u)[0] == '-' && ("-" + u)[1..] == u;
  }

  lemma ParseUnsignedText(t: string)
    requires t != [] && t[0] != '-'
    ensures ParseAmount(t) == ParseUnsigned(t)
  {
  }

  lemma ParseFormatUnsigned(v: nat)
    ensures FormatUnsigned(v) != [] && FormatUnsigned(v)[0] != '-'
    ensures ParseUnsigned(FormatUnsigned(v)) == Some(v)
  {
    var w := NatToString(v / Coin);
    var f := FracText(v % Coin);
    FracTextShape(v % Coin);
    NatToStringValue(v / Coin);
    ParseDigitsThenFraction(w, f);
    assert FormatUnsigned(v) == w + f;
    assert (if f == [] then 0 else DigitsValue(f[1..]) * Pow10(Log10Coin - (|f| - 1))) == v % Coin;
    assert (v / Coin) * Coin + v % Coin == v;
  }

  /** Whole digits followed by nothing or by a dot and one to six digits read
      as the whole coins plus the fraction scaled to six places. */
  lemma ParseDigitsThenFraction(w: string, f: string)
    requires w != [] && AllDigits(w)
    requires f == [] || (f[0] == '.' && 2 <= |f| <= 1 + Log10Coin && AllDigits(f[1..]))
    ensures ParseUnsigned(w + f)
            == Some(DigitsValue(w) * Coin + (if f == [] then 0 else DigitsValue(f[1..]) * Pow10(Log10Coin - (|f| - 1))))
  {
    var t := w + f;
    DotAfterDigits(w, f);
    assert t[..|w|] == w;
    if f != [] {
      assert t[|w| + 1..] == f[1..];
    }
  }

  lemma {:induction false} DotAfterDigits(w: string, f: string)
    requires AllDigits(w) && (f == [] || f[0] == '.')
    ensures DotIndex(w + f) == |w|
    decreases |w|
  {
    if w == [] {
      assert w + f == f;
    } else {
      var t := w + f;
      assert t[0] == w[0] && IsDigit(w[0]);
      assert t[1..] == w[1..] + f;
      assert AllDigits(w[1..]);
      DotAfterDigits(w[1..], f);
    }
  }

  /** A whole amount is written without a fraction, and the sign of the text
      is the sign of the amount. */
  lemma FormatAmountWhole(v: int)
    ensures v % Coin == 0 && v >= 0 ==> FormatAmount(v) == NatToString(v / Coin)
    ensures FormatAmount(v) != [] && (FormatAmount(v)[0] == '-' <==> v < 0)
  {
    if v >= 0 {
      FracTextShape(v % Coin);
    } else {
      ParseFormatUnsigned(-v);
    }
  }

  // ---------------------------------------------------------------------------
  // Difficulty

  /** The integer part `format_difficulty` writes: groups of three digits
      separated by spaces, the first group as `str` writes it. */
  function Grouped(n: int): (s: string)
    decreases if n > 999 then n else 0
  {
    if n <= 999 then IntToString(n) else Grouped(n / 1000) + " " + ZeroPad(n % 1000, 3)
  }

  /** The grouping loop of `format_difficulty`; `frac` is the already
      rendered `'.%03d'` fraction, whose rounding of a float is not modelled. */
  method FormatDifficulty(idiff0: int, frac: string) returns (s: string)
    ensures s == Grouped(idiff0) + frac
  {
    var idiff := idiff0;
    var ret := frac;
    while idiff > 999
      invariant Grouped(idiff0) + frac == Grouped(idiff) + ret
      decreases idiff
    {
      GroupedStep(idiff, ret);
      ret := " " + ZeroPad(idiff % 1000, 3) + ret;
      idiff := idiff / 1000;
    }
    s := IntToString(idiff) + ret;
  }

  lemma GroupedStep(n: int, rest: string)
    requires n > 999
    ensures Grouped(n) + rest == Grouped(n / 1000) + (" " + ZeroPad(n % 1000, 3) + rest)
  {
  }

  /** `s` without its spaces. */
  function RemoveSpaces(s: string): (r: string)
    ensures |r| <= |s|
  {
    if s == [] then [] else (if s[0] == ' ' then [] else [s[0]]) + RemoveSpaces(s[1..])
  }

  lemma {:induction false} RemoveSpacesAppend(a: string, b: string)
    ensures RemoveSpaces(a + b) == RemoveSpaces(a) + RemoveSpaces(b)
    decreases |a|
  {
    if a != [] {
      assert (a + b)[0] == a[0] && (a + b)[1..] == a[1..] + b;
      RemoveSpacesAppend(a[1..], b);
    } else {
      assert a + b == b;
    }
  }

  lemma {:induction false} RemoveSpacesOfDigits(s: string)
    requires AllDigits(s)
    ensures RemoveSpaces(s) == s
    decreases |s|
  {
    if s != [] {
      RemoveSpacesOfDigits(s[1..]);
    }
  }

  /** The groups spell the number: with the spaces taken out, the grouped
      text of a non-negative difficulty is `str` of it. */
  lemma {:induction false} GroupedDigits(n: nat)
    ensures RemoveSpaces(Grouped(n)) == NatToString(n)
    decreases n
  {
    if n <= 999 {
      RemoveSpacesOfDigits(NatToString(n));
    } else {
      var z := ZeroPad(n % 1000, 3);
      GroupedDigits(n / 1000);
      RemoveSpacesAppend(Grouped(n / 1000) + " ", z);
      RemoveSpacesAppend(Grouped(n / 1000), " ");
      RemoveSpacesOfDigits(z);
      ThousandsSplit(n);
    }
  }

  /** `str(n)` is `str(n / 1000)` followed by the last three digits. */
  lemma ThousandsSplit(n: nat)
    requires n > 999
    ensures NatToString(n / 1000) + ZeroPad(n % 1000, 3) == NatToString(n)
  {
    var a := NatToString(n / 1000);
    var z := ZeroPad(n % 1000, 3);
    var s := a + z;
    assert Pow10(3) == 1000;
    ZeroPadLength(n % 1000, 3);
    ZeroPadValue(n % 1000, 3);
    NatToStringValue(n / 1000);
    DigitsValueAppend(a, z);
    assert DigitsValue(s) == n;
    assert s[0] == a[0];
    CanonicalIsNatToString(s);
  }

  // ---------------------------------------------------------------------------
  // HTML fragments

  /** A page body as the handlers build it: strings, numbers, nested lists,
      and Python's `None`. */
  datatype Html = Str(text: string) | Num(n: int) | Items(items: seq<Html>) | NoneValue

  predicate HasNone(h: Html)
  {
    match h
    case NoneValue => true
    case Items(items) => exists i :: 0 <= i < |items| && HasNone(items[i])
    case _ => false
  }

  /** `flatten(l)`: the concatenated text; `None` anywhere raises. */
  function Flatten(h: Html): (r: Option<string>)
    ensures r.None? <==> HasNone(h)
    decreases h, 1
  {
    match h
    case Str(t) => Some(t)
    case Num(n) => Some(IntToString(n))
    case NoneValue => None
    case Items(items) => FlattenAll(items)
  }

  /** `''.join(map(flatten, items))`. */
  function FlattenAll(items: seq<Html>): (r: Option<string>)
    ensures r.None? <==> exists i :: 0 <= i < |items| && HasNone(items[i])
    decreases items, 0
  {
    if items == [] then Some("")
    else
      var last := items[|items| - 1];
      assert last < Items(items);
      match FlattenAll(items[..|items| - 1])
      case None => None
      case Some(init) =>
        match Flatten(last)
        case None => None
        case Some(t) => Some(init + t)
  }

  /** Flattening a list of fragments concatenates their flattenings. */
  lemma {:induction false} FlattenConcat(a: seq<Html>, b: seq<Html>)
    requires !HasNone(Items(a)) && !HasNone(Items(b))
    ensures FlattenAll(a + b) == Some(FlattenAll(a).value + FlattenAll(b).value)
    decreases |b|
  {
    if b == [] {
      assert a + b == a;
      assert FlattenAll(b) == Some("");
      assert FlattenAll(a).value + "" == FlattenAll(a).value;
    } else {
      var b' := b[..|b| - 1];
      assert (a + b)[..|a + b| - 1] == a + b';
      assert (a + b)[|a + b| - 1] == b[|b| - 1];
      assert !HasNone(Items(b')) by {
        forall i | 0 <= i < |b'| ensures !HasNone(b'[i]) {
          assert b'[i] == b[i];
        }
      }
      assert !HasNone(b[|b| - 1]);
      FlattenConcat(a, b');
      var x := FlattenAll(a).value;
      var y := FlattenAll(b').value;
      var z := Flatten(b[|b| - 1]).value;
      assert FlattenAll(b) == Some(y + z);
      assert FlattenAll(a + b) == Some((x + y) + z);
      assert (x + y) + z == x + (y + z);
    }
  }

  /** Nesting does not change the text: a list inside a list flattens to
      the same string as its items spliced in. */
  lemma FlattenNested(a: seq<Html>, inner: seq<Html>, b: seq<Html>)
    requires !HasNone(Items(a)) && !HasNone(Items(inner)) && !HasNone(Items(b))
    ensures FlattenAll(a + [Items(inner)] + b) == FlattenAll(a + inner + b)
  {
    var nested := [Items(inner)];
    assert !HasNone(Items(nested)) by {
      assert forall i :: 0 <= i < |nested| ==> nested[i] == Items(inner);
    }
    NoNoneConcat(a, nested);
    NoNoneConcat(a, inner);
    FlattenConcat(a + nested, b);
    FlattenConcat(a, nested);
    FlattenConcat(a + inner, b);
    FlattenConcat(a, inner);
    FlattenSingle(Items(inner));
  }

  lemma FlattenSingle(h: Html)
    ensures FlattenAll([h]) == Flatten(h)
  {
    var one := [h];
    assert one[..0] == [];
    if Flatten(h).Some? {
      assert "" + Flatten(h).value == Flatten(h).value;
    }
  }

  lemma NoNoneConcat(a: seq<Html>, b: seq<Html>)
    requires !HasNone(Items(a)) && !HasNone(Items(b))
    ensures !HasNone(Items(a + b))
  {
    forall i | 0 <= i < |a + b| ensures !HasNone((a + b)[i]) {
      if i < |a| {
        assert (a + b)[i] == a[i];
      } else {
        assert (a + b)[i] == b[i - |a|];
      }
    }
  }
}
