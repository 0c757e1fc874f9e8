/** The `shortlink-type` setting of the explorer and the short address link
    it selects on the address page. */
module Config {
  import opened Prelude
  import opened Decimal

  /** How the address page abbreviates an address: by the store's "firstbits"
      or by keeping its first `n` characters. */
  datatype ShortlinkType = Firstbits | Length(n: nat)

  /** The `ValueError`s the setting can raise: text `int` rejects, or a
      length under the two-character minimum. */
  datatype ConfigError = NotAnInteger(text: string) | TooShort(n: int)

  /** The length used when firstbits is not requested or not available. */
  const NonFirstbitsLength: nat := 10

  /** The smallest accepted prefix length. */
  const MinimumLength: int := 2

  /** The setting chosen when none is given, or when "firstbits" is given. */
  function Fallback(useFirstbits: bool): (t: ShortlinkType)
    ensures t.Firstbits? <==> useFirstbits
    ensures t.Length? ==> t.n == NonFirstbitsLength
  {
    if useFirstbits then Firstbits else Length(NonFirstbitsLength)
  }

  /** The normalisation done when the explorer starts: `arg` is the configured
      value, `useFirstbits` whether the database keeps firstbits. */
  function ShortlinkSetting(arg: Option<string>, useFirstbits: bool): (r: Result<ShortlinkType, ConfigError>)
    ensures r.Ok? && r.value.Firstbits? ==> useFirstbits
    ensures r.Ok? && r.value.Length? ==> r.value.n >= MinimumLength
    ensures r.Err? <==>
      (arg.Some? && arg.value != "firstbits" &&
       (ParseInt(arg.value).None? || ParseInt(arg.value).value < MinimumLength))
    ensures r == Ok(Firstbits) <==> useFirstbits && (arg.None? || arg == Some("firstbits"))
    ensures !useFirstbits && (arg.None? || arg == Some("firstbits")) ==> r == Ok(Length(NonFirstbitsLength))
  {
    match arg
    case None => Ok(Fallback(useFirstbits))
    case Some(s) =>
      if s != "firstbits" then
        match ParseInt(s)
        case None => Err(NotAnInteger(s))
        case Some(n) => if n < MinimumLength then Err(TooShort(n)) else Ok(Length(n))
      else Ok(Fallback(useFirstbits))
  }

  /** Any length of at least two, written as a decimal number, is accepted as
      given, whether or not the database keeps firstbits. */
  lemma NumericSetting(n: int, useFirstbits: bool)
    requires n >= MinimumLength
    ensures ShortlinkSetting(Some(IntToString(n)), useFirstbits) == Ok(Length(n))
  {
    var s := IntToString(n);
    assert s == NatToString(n);
    assert s[0] != 'f' by { assert IsDigit(s[0]); }
    ParseIntOfIntToString(n);
  }

  /** A number below two written as a decimal is refused as too short. */
  lemma ShortNumberRefused(n: int, useFirstbits: bool)
    requires n < MinimumLength
    ensures ShortlinkSetting(Some(IntToString(n)), useFirstbits) == Err(TooShort(n))
  {
    var s := IntToString(n);
    assert s != "firstbits" by {
      if n < 0 {
        assert s[0] == '-';
      } else {
        assert s == NatToString(n);
        assert IsDigit(s[0]);
      }
    }
    ParseIntOfIntToString(n);
  }

  /** `s.replace(a, b)` for single characters. */
  function ReplaceChar(s: string, a: char, b: char): (r: string)
    ensures |r| == |s|
    ensures forall i :: 0 <= i < |s| ==> r[i] == if s[i] == a then b else s[i]
  {
    if s == [] then [] else ReplaceChar(s[..|s| - 1], a, b) + [if s[|s| - 1] == a then b else s[|s| - 1]]
  }

  /** The short link shown for `address`: its firstbits (`found`, from the
      store) with every 'l' written 'L', the whole address when the store has
      none, or the first `n` characters. */
  function AddressLink(address: string, t: ShortlinkType, found: Option<string>): (link: string)
    ensures t.Length? ==> StartsWith(address, link) && |link| == Min(t.n, |address|)
    ensures t.Firstbits? && (found.None? || found.value == "") ==> link == address
    ensures t.Firstbits? && found.Some? && found.value != "" ==>
      |link| == |found.value| && 'l' !in link &&
      forall i :: 0 <= i < |link| ==> link[i] == found.value[i] || (found.value[i] == 'l' && link[i] == 'L')
  {
    match t
    case Firstbits =>
      if found.Some? && found.value != "" then ReplaceChar(found.value, 'l', 'L') else address
    case Length(n) => Slice(address, 0, n)
  }

  /** With a normalised setting, a link of the prefix kind keeps at least two
      characters of any address that long. */
  lemma LinkKeepsTwo(arg: Option<string>, useFirstbits: bool, address: string, found: Option<string>)
    requires ShortlinkSetting(arg, useFirstbits).Ok?
    requires ShortlinkSetting(arg, useFirstbits).value.Length?
    ensures |AddressLink(address, ShortlinkSetting(arg, useFirstbits).value, found)| >= Min(MinimumLength, |address|)
  {
  }
}
