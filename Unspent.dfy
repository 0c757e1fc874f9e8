/** The unspent-outputs service (`do_unspent`): the `|`-separated address
    list and its size bound, the addresses that decode, the set of spent
    outputs, and the received outputs that are not in it. */
module Unspent {
  import opened Prelude
  import opened Decimal

  /** How many addresses `/unspent/ADDR|ADDR|...` accepts. */
  const MaxUnspentAddresses := 200

  const CountMessage := "Number of addresses must be between 1 and " + NatToString(MaxUnspentAddresses)
  const InvalidMessage := "Error getting unspent outputs"
  const TooManyMessage := "ERROR: too many records to process"

  /** The position of the first `c` in `s`, or `|s|` when there is none. */
  function Find(s: string, c: char): (k: nat)
    ensures k <= |s| && c !in s[..k]
    ensures k < |s| ==> s[k] == c
  {
    if s == [] then 0
    else if s[0] == c then 0
    else
      assert s[..Find(s[1..], c) + 1] == [s[0]] + s[1..][..Find(s[1..], c)];
      Find(s[1..], c) + 1
  }

  /** `s.split(sep)`: the pieces between the separators, at least one. */
  function Split(s: string, sep: char): (parts: seq<string>)
    decreases |s|
  {
    var k := Find(s, sep);
    if k == |s| then [s] else [s[..k]] + Split(s[k + 1..], sep)
  }

  /** `sep.join(parts)`. */
  function Join(parts: seq<string>, sep: char): string
  {
    if parts == [] then ""
    else if |parts| == 1 then parts[0]
    else parts[0] + [sep] + Join(parts[1..], sep)
  }

  /** The number of times `c` occurs in `s`. */
  function Occurrences(s: string, c: char): nat
  {
    if s == [] then 0 else (if s[0] == c then 1 else 0) + Occurrences(s[1..], c)
  }

  /** No piece holds the separator, and there is one piece more than there
      are separators. */
  lemma {:induction false} SplitShape(s: string, sep: char)
    ensures |Split(s, sep)| == Occurrences(s, sep) + 1
    ensures forall k :: 0 <= k < |Split(s, sep)| ==> sep !in Split(s, sep)[k]
    decreases |s|
  {
    var k := Find(s, sep);
    var parts := Split(s, sep);
    OccurrencesSplitAt(s, sep, k);
    if k < |s| {
      var rest := s[k + 1..];
      SplitShape(rest, sep);
      assert parts == [s[..k]] + Split(rest, sep);
      forall j | 0 <= j < |parts|
        ensures sep !in parts[j]
      {
        if j > 0 {
          assert parts[j] == Split(rest, sep)[j - 1];
        }
      }
    } else {
      assert parts == [s] && s[..k] == s;
    }
  }

  lemma {:induction false} OccurrencesSplitAt(s: string, sep: char, k: nat)
    requires k <= |s| && sep !in s[..k]
    ensures k < |s| ==> Occurrences(s, sep) == Occurrences(s[k..], sep)
    ensures k == |s| ==> Occurrences(s, sep) == 0
    ensures k < |s| && s[k] == sep ==> Occurrences(s, sep) == 1 + Occurrences(s[k + 1..], sep)
  {
    if k > 0 {
      assert s[1..][..k - 1] == s[..k][1..];
      OccurrencesSplitAt(s[1..], sep, k - 1);
      assert s[1..][k - 1..] == s[k..];
      if k < |s| {
        assert s[1..][k..] == s[k + 1..];
      }
    } else if k < |s| {
      assert s[k..] == s;
    }
  }

  /** Joining the pieces gives back the text. */
  lemma {:induction false} JoinSplit(s: string, sep: char)
    ensures Join(Split(s, sep), sep) == s
    decreases |s|
  {
    var k := Find(s, sep);
    if k < |s| {
      var rest := s[k + 1..];
      JoinSplit(rest, sep);
      SplitShape(rest, sep);
      assert s == s[..k] + [sep] + rest;
    }
  }

  /** Splitting a join of separator-free pieces gives back the pieces. */
  lemma {:induction false} SplitJoin(parts: seq<string>, sep: char)
    requires parts != []
    requires forall k :: 0 <= k < |parts| ==> sep !in parts[k]
    ensures Split(Join(parts, sep), sep) == parts
    decreases |parts|
  {
    var s := Join(parts, sep);
    var p := parts[0];
    if |parts| > 1 {
      var rest := Join(parts[1..], sep);
      assert s == p + ([sep] + rest);
      FindAfterClean(p, sep, [sep] + rest);
      SplitJoin(parts[1..], sep);
      assert s[|p| + 1..] == rest;
      assert s[..|p|] == p;
      assert parts == [p] + parts[1..];
    } else {
      FindAfterClean(p, sep, []);
      assert s == p + [];
    }
  }

  /** The first separator after a separator-free head is the one right after it. */
  lemma {:induction false} FindAfterClean(p: string, sep: char, rest: string)
    requires sep !in p
    requires rest == [] || rest[0] == sep
    ensures Find(p + rest, sep) == |p|
  {
    if p != [] {
      assert (p + rest)[1..] == p[1..] + rest;
      FindAfterClean(p[1..], sep, rest);
    }
  }

  /** The address list of the request: none at all without a path segment,
      else its `|`-separated pieces. */
  function Addresses(arg: Option<string>): seq<string>
  {
    match arg
    case None => []
    case Some(s) => Split(s, '|')
  }

  /** The count bound rejects exactly a missing segment and a segment with
      200 or more separators: an empty segment still names one address. */
  lemma CountBound(arg: Option<string>)
    ensures var n := |Addresses(arg)|;
            !(1 <= n <= MaxUnspentAddresses) <==>
              arg.None? || Occurrences(arg.value, '|') >= MaxUnspentAddresses
  {
    if arg.Some? {
      SplitShape(arg.value, '|');
    }
  }

  /** The addresses that `bc_address_to_hash_160` accepts, in order. */
  function Decodable(addrs: seq<string>, hash160: string -> Option<seq<byte>>): (good: seq<string>)
  {
    if addrs == [] then []
    else
      var rest := Decodable(addrs[..|addrs| - 1], hash160);
      if hash160(addrs[|addrs| - 1]).Some? then rest + [addrs[|addrs| - 1]] else rest
  }

  /** The kept addresses are exactly those of the list that decode. */
  lemma {:induction false} DecodableKeeps(addrs: seq<string>, hash160: string -> Option<seq<byte>>, a: string)
    ensures a in Decodable(addrs, hash160) <==> a in addrs && hash160(a).Some?
  {
    if addrs != [] {
      var p := addrs[..|addrs| - 1];
      DecodableKeeps(p, hash160, a);
      LastSplit(addrs);
      assert a in addrs <==> a in p || a == addrs[|addrs| - 1];
    }
  }

  /** The loop over the addresses: each one that decodes is kept, with its
      hash; the others are passed over. */
  method DecodeAddresses(addrs: seq<string>, hash160: string -> Option<seq<byte>>)
    returns (hashes: seq<seq<byte>>, good: seq<string>)
    ensures good == Decodable(addrs, hash160)
    ensures |hashes| == |good|
    ensures forall k :: 0 <= k < |good| ==> hash160(good[k]) == Some(hashes[k])
  {
    hashes, good := [], [];
    var i := 0;
    while i < |addrs|
      invariant 0 <= i <= |addrs|
      invariant good == Decodable(addrs[..i], hash160)
      invariant |hashes| == |good|
      invariant forall k :: 0 <= k < |good| ==> hash160(good[k]) == Some(hashes[k])
    {
      PrefixSnoc(addrs, i);
      assert addrs[..i + 1][..i] == addrs[..i];
      var h := hash160(addrs[i]);
      if h.Some? {
        hashes := hashes + [h.value];
        good := good + [addrs[i]];
      }
      i := i + 1;
    }
    AppendEmpty(addrs);
  }

  /** An output paying one of the addresses on a chain of the request:
      `txout_id`, `chain_id`, then what the reply lists. */
  datatype ReceivedRow = ReceivedRow(txoutId: int, chainId: int, txHash: seq<byte>, pos: int,
                                     script: seq<byte>, value: int, height: int)

  /** `row[2:]`: the transaction, output position, script, value and height. */
  datatype Output = Output(txHash: seq<byte>, pos: int, script: seq<byte>, value: int, height: int)

  function Key(r: ReceivedRow): (int, int)
  {
    (r.txoutId, r.chainId)
  }

  function Listing(r: ReceivedRow): Output
  {
    Output(r.txHash, r.pos, r.script, r.value, r.height)
  }

  /** The loop that collects the `(txout_id, chain_id)` pairs spent by an
      input on the longest chain. */
  method SpentSet(spentRows: seq<(int, int)>) returns (spent: set<(int, int)>)
    ensures forall key :: key in spent <==> key in spentRows
  {
    spent := {};
    var i := 0;
    while i < |spentRows|
      invariant 0 <= i <= |spentRows|
      invariant forall key :: key in spent <==> key in spentRows[..i]
    {
      PrefixSnoc(spentRows, i);
      spent := spent + {spentRows[i]};
      i := i + 1;
    }
    AppendEmpty(spentRows);
  }

  /** The received outputs whose key is not spent, in their order. */
  function Unspents(received: seq<ReceivedRow>, spent: set<(int, int)>): seq<Output>
  {
    if received == [] then []
    else
      var rest := Unspents(received[..|received| - 1], spent);
      var r := received[|received| - 1];
      if Key(r) in spent then rest else rest + [Listing(r)]
  }

  /** An output is listed exactly when some received row with an unspent
      key lists it. */
  lemma {:induction false} UnspentsListed(received: seq<ReceivedRow>, spent: set<(int, int)>, o: Output)
    ensures o in Unspents(received, spent) <==>
            exists k :: 0 <= k < |received| && Key(received[k]) !in spent && Listing(received[k]) == o
  {
    if received != [] {
      var p := received[..|received| - 1];
      UnspentsListed(p, spent, o);
      var n := |received| - 1;
      if exists k :: 0 <= k < |p| && Key(p[k]) !in spent && Listing(p[k]) == o {
        var k :| 0 <= k < |p| && Key(p[k]) !in spent && Listing(p[k]) == o;
        assert received[k] == p[k];
      }
      if exists k :: 0 <= k < |received| && Key(received[k]) !in spent && Listing(received[k]) == o {
        var k :| 0 <= k < |received| && Key(received[k]) !in spent && Listing(received[k]) == o;
        if k < n {
          assert p[k] == received[k];
        }
      }
    }
  }

  /** The listing is never longer than the received rows, and lists them
      all when nothing is spent. */
  lemma {:induction false} UnspentsBound(received: seq<ReceivedRow>, spent: set<(int, int)>)
    ensures |Unspents(received, spent)| <= |received|
    ensures spent == {} ==> |Unspents(received, spent)| == |received|
  {
    if received != [] {
      UnspentsBound(received[..|received| - 1], spent);
    }
  }

  /** The loop over the received rows, skipping those whose key is spent. */
  method FilterUnspent(received: seq<ReceivedRow>, spent: set<(int, int)>) returns (rows: seq<Output>)
    ensures rows == Unspents(received, spent)
  {
    rows := [];
    var i := 0;
    while i < |received|
      invariant 0 <= i <= |received|
      invariant rows == Unspents(received[..i], spent)
    {
      PrefixSnoc(received, i);
      assert received[..i + 1][..i] == received[..i];
      if Key(received[i]) !in spent {
        rows := rows + [Listing(received[i])];
      }
      i := i + 1;
    }
    AppendEmpty(received);
  }

  /** What the service answers. */
  datatype Reply =
    | CountError                       // the count message
    | InvalidAddresses                 // no address decodes
    | TooManyRecords                   // more received rows than the limit
    | NoFreeOutputs(addrs: string)     // `'No free outputs to spend [' + addrs + ']'`
    | Outputs(rows: seq<Output>)       // the JSON list of unspent outputs

  /** The text of the replies that are plain messages. */
  function Message(r: Reply): (m: string)
    requires !r.Outputs?
    ensures r.NoFreeOutputs? ==> StartsWith(m, "No free outputs to spend [") && m[|m| - 1] == ']'
  {
    match r
    case CountError => CountMessage
    case InvalidAddresses => InvalidMessage
    case TooManyRecords => TooManyMessage
    case NoFreeOutputs(a) =>
      var m := "No free outputs to spend [" + a + "]";
      assert m[..26] == "No free outputs to spend [";
      m
  }

  /** `do_unspent` with the default implementation: the address list is
      checked and decoded, then the spent pairs and received rows of the
      decoded addresses' hashes (given here as the database's answers) are
      combined; `maxRows` is `address_history_rows_max`, negative for no
      limit. */
  method DoUnspent(arg: Option<string>, hash160: string -> Option<seq<byte>>, maxRows: int,
                   spentRows: seq<(int, int)>, received: seq<ReceivedRow>)
    returns (r: Reply)
    ensures r.CountError? <==> !(1 <= |Addresses(arg)| <= MaxUnspentAddresses)
    ensures r.InvalidAddresses? <==>
            1 <= |Addresses(arg)| <= MaxUnspentAddresses && Decodable(Addresses(arg), hash160) == []
    ensures r.TooManyRecords? <==>
            1 <= |Addresses(arg)| <= MaxUnspentAddresses && Decodable(Addresses(arg), hash160) != [] &&
            0 <= maxRows < |received|
    ensures r.NoFreeOutputs? || r.Outputs? ==>
              var spent := set k | 0 <= k < |spentRows| :: spentRows[k];
              Unspents(received, spent) == (if r.Outputs? then r.rows else [])
    ensures r.NoFreeOutputs? ==> r.addrs == Join(Decodable(Addresses(arg), hash160), '|')
    ensures r.Outputs? ==> r.rows != []
  {
    var addrs := Addresses(arg);
    if |addrs| < 1 || |addrs| > MaxUnspentAddresses {
      return CountError;
    }
    var hashes, good := DecodeAddresses(addrs, hash160);
    if |hashes| == 0 {
      return InvalidAddresses;
    }
    var spent := SpentSet(spentRows);
    if maxRows >= 0 && |received| > maxRows {
      return TooManyRecords;
    }
    ghost var spent' := set k | 0 <= k < |spentRows| :: spentRows[k];
    assert spent == spent' by {
      forall key | key in spent' ensures key in spent {
        var k :| 0 <= k < |spentRows| && spentRows[k] == key;
      }
    }
    var rows := FilterUnspent(received, spent);
    if |rows| == 0 {
      return NoFreeOutputs(Join(good, '|'));
    }
    return Outputs(rows);
  }
}
