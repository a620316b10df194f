/**
 The session id as a cookie carries it: 32 bytes in hexadecimal. A cookie value is its
 UTF-8 bytes.
 */
module SessionHex {
  import opened Wrappers
  import opened UrlCodec

  const ID_LENGTH := 32

  /** Slicing a text inside a character panics, so that is an outcome of its own. */
  datatype Outcome = Parsed(id: Bytes) | Refused | Panicked

  function LowerDigit(n: int): Byte
    requires 0 <= n < 16
  {
    if n < 10 then 0x30 + n else 0x61 + n - 10
  }

  predicate IsLowerDigit(b: Byte) { IsDigit(b) || 0x61 <= b <= 0x66 }

  function HexPair(b: Byte): (pair: Bytes)
    ensures |pair| == 2
  {
    [LowerDigit(b / 16), LowerDigit(b % 16)]
  }

  function ToHex(id: Bytes): Bytes {
    if id == [] then [] else HexPair(id[0]) + ToHex(id[1..])
  }

  method BytesToHex(id: Bytes) returns (out: Bytes)
    ensures out == ToHex(id)
  {
    out := [];
    for i := 0 to |id|
      invariant out + ToHex(id[i..]) == ToHex(id)
    {
      assert id[i..][1..] == id[i + 1..];
      var pair := HexPair(id[i]);
      assert out + (pair + ToHex(id[i + 1..])) == (out + pair) + ToHex(id[i + 1..]);
      out := out + pair;
    }
  }

  const PLUS: Byte := 0x2B

  /** Two characters as an unsigned number in base 16; a plus sign may stand first. */
  function PairVal(first: Byte, second: Byte): Option<int> {
    if first == PLUS then HexVal(second)
    else if HexVal(first).Some? && HexVal(second).Some? then Some(HexVal(first).value * 16 + HexVal(second).value)
    else None
  }

  /** The byte continues a character begun before it. */
  predicate Continuation(b: Byte) { 0x80 <= b < 0xC0 }

  function ParsePairs(s: Bytes): (r: Outcome)
    requires |s| % 2 == 0
    ensures r.Parsed? ==> |r.id| * 2 == |s|
  {
    if s == [] then Parsed([])
    else if |s| > 2 && Continuation(s[2]) then Panicked
    else if PairVal(s[0], s[1]).None? then Refused
    else
      var rest := ParsePairs(s[2..]);
      if rest.Parsed? then Parsed([PairVal(s[0], s[1]).value] + rest.id) else rest
  }

  function FromHex(s: Bytes): (r: Outcome)
    ensures r.Parsed? ==> |r.id| == ID_LENGTH
  {
    if |s| != 2 * ID_LENGTH then Refused else ParsePairs(s)
  }

  /** The pair of characters at `k` is a number. */
  predicate PairAt(s: Bytes, k: int) {
    0 <= k && 2 * k + 1 < |s| && PairVal(s[2 * k], s[2 * k + 1]).Some?
  }

  predicate AllPairs(s: Bytes) {
    forall k | 0 <= k < |s| / 2 :: PairAt(s, k)
  }

  lemma AllPairsStep(s: Bytes)
    requires |s| % 2 == 0 && s != []
    ensures AllPairs(s) <==> PairVal(s[0], s[1]).Some? && AllPairs(s[2..])
  {
    var rest := s[2..];
    assert PairAt(s, 0) <==> PairVal(s[0], s[1]).Some?;
    forall k | 0 <= k < |rest| / 2 ensures PairAt(rest, k) <==> PairAt(s, k + 1) {
    }
    if AllPairs(rest) && PairAt(s, 0) {
      forall k | 0 <= k < |s| / 2 ensures PairAt(s, k) {
        if k > 0 { assert PairAt(rest, k - 1); }
      }
    }
  }

  lemma {:induction false} ParsesIffAllPairs(s: Bytes)
    requires |s| % 2 == 0
    ensures ParsePairs(s).Parsed? <==> AllPairs(s)
  {
    if s != [] {
      AllPairsStep(s);
      ParsesIffAllPairs(s[2..]);
      assert |s| > 2 && Continuation(s[2]) ==> !PairAt(s, 1);
    }
  }

  /** A pair is two hexadecimal digits in either case, or a plus sign and one. */
  lemma PairsAreRead(first: Byte, second: Byte)
    ensures
      var digit := (b: Byte) => || '0' as int <= b <= '9' as int || 'a' as int <= b <= 'f' as int
                                || 'A' as int <= b <= 'F' as int;
      PairVal(first, second).Some? <==> digit(second) && (digit(first) || first == '+' as int)
    ensures PairVal(first, second).Some? ==>
      PairVal(first, second).value ==
        (if first == '+' as int then 0 else HexVal(first).value * 16) + HexVal(second).value
  {
  }

  lemma {:induction false} ParsedByPairs(s: Bytes, k: nat)
    requires |s| % 2 == 0 && ParsePairs(s).Parsed? && k < |s| / 2
    ensures PairVal(s[2 * k], s[2 * k + 1]) == Some(ParsePairs(s).id[k])
  {
    if k > 0 {
      ParsedByPairs(s[2..], k - 1);
      assert s[2..][2 * (k - 1)] == s[2 * k] && s[2..][2 * (k - 1) + 1] == s[2 * k + 1];
    }
  }

  /** Each byte of the id is the number of its pair. */
  lemma IdIsReadByPairs(s: Bytes, k: nat)
    requires FromHex(s).Parsed? && k < 32
    ensures |s| == 64 && |FromHex(s).id| == 32
    ensures PairVal(s[2 * k], s[2 * k + 1]) == Some(FromHex(s).id[k])
  {
    ParsedByPairs(s, k);
  }

  /** A cookie names a session exactly when it is 32 pairs of hexadecimal digits, in either
      case, where a plus sign may stand in for the first digit of a pair. */
  lemma AcceptedIff(s: Bytes)
    ensures FromHex(s).Parsed? <==> |s| == 64 && AllPairs(s)
  {
    if |s| == 2 * ID_LENGTH { ParsesIffAllPairs(s); }
  }

  /** The pair at `k` would begin inside a character, and every pair before the one it
      follows has been read. */
  predicate CutAt(s: Bytes, k: int) {
    && 1 <= k && 2 * k < |s| && Continuation(s[2 * k])
    && forall j | 0 <= j < k - 1 :: PairAt(s, j)
  }

  /** Parsing panics exactly when a character straddles the end of a pair that is reached;
      never on ASCII. */
  lemma {:induction false} PanicsIffCut(s: Bytes)
    requires |s| % 2 == 0
    ensures ParsePairs(s).Panicked? <==> exists k :: CutAt(s, k)
    ensures (forall i | 0 <= i < |s| :: s[i] < 0x80) ==> !ParsePairs(s).Panicked?
  {
    if s == [] {
    } else if |s| > 2 && Continuation(s[2]) {
      assert CutAt(s, 1);
    } else {
      var rest := s[2..];
      PanicsIffCut(rest);
      assert !CutAt(s, 1);
      forall k | k >= 2 ensures CutAt(s, k) <==> PairAt(s, 0) && CutAt(rest, k - 1) {
        CutFurther(s, k);
      }
      if k :| CutAt(rest, k) && PairAt(s, 0) { assert CutAt(s, k + 1); }
    }
  }

  lemma CutFurther(s: Bytes, k: int)
    requires |s| % 2 == 0 && s != [] && k >= 2
    ensures CutAt(s, k) <==> PairAt(s, 0) && CutAt(s[2..], k - 1)
  {
    var rest := s[2..];
    forall j | 0 <= j ensures PairAt(rest, j) <==> PairAt(s, j + 1) {
    }
    if PairAt(s, 0) && CutAt(rest, k - 1) {
      forall j | 0 <= j < k - 1 ensures PairAt(s, j) {
        if j > 0 { assert PairAt(rest, j - 1); }
      }
    }
  }

  lemma HexPairReads(b: Byte)
    ensures PairVal(HexPair(b)[0], HexPair(b)[1]) == Some(b)
    ensures !Continuation(HexPair(b)[0])
  {
    assert b / 16 * 16 + b % 16 == b;
  }

  lemma {:induction false} ParsePairsOfHex(id: Bytes)
    ensures |ToHex(id)| == 2 * |id|
    ensures id != [] ==> ToHex(id)[0] == HexPair(id[0])[0]
    ensures ParsePairs(ToHex(id)) == Parsed(id)
  {
    if id != [] {
      ParsePairsOfHex(id[1..]);
      HexPairReads(id[0]);
      if |id| > 1 { HexPairReads(id[1]); }
      var s := ToHex(id);
      assert s[0] == HexPair(id[0])[0] && s[1] == HexPair(id[0])[1] && s[2..] == ToHex(id[1..]);
      assert [id[0]] + id[1..] == id;
    }
  }

  /** A session id comes back from the cookie it was put into. */
  lemma CookieGivesIdBack(id: Bytes)
    requires |id| == ID_LENGTH
    ensures FromHex(ToHex(id)) == Parsed(id)
  {
    ParsePairsOfHex(id);
  }

  lemma LowerPair(first: Byte, second: Byte)
    requires PairVal(first, second).Some?
    ensures 0 <= PairVal(first, second).value < 256
    ensures HexPair(PairVal(first, second).value) == [first, second] <==> IsLowerDigit(first) && IsLowerDigit(second)
  {
    var low := HexVal(second).value;
    if first == PLUS {
      assert low / 16 == 0;
    } else {
      var high := HexVal(first).value;
      assert (high * 16 + low) / 16 == high && (high * 16 + low) % 16 == low;
    }
  }

  lemma SamePairs(pair: Bytes, rest: Bytes, s: Bytes)
    requires |pair| == 2 && |s| >= 2
    ensures pair + rest == s <==> pair == [s[0], s[1]] && rest == s[2..]
  {
    assert s == [s[0], s[1]] + s[2..];
    assert (pair + rest)[..2] == pair && (pair + rest)[2..] == rest;
    assert s[..2] == [s[0], s[1]];
  }

  predicate Lowercase(s: Bytes) {
    forall i | 0 <= i < |s| :: IsLowerDigit(s[i])
  }

  lemma LowercaseSplits(s: Bytes)
    requires |s| >= 2
    ensures Lowercase(s) <==> IsLowerDigit(s[0]) && IsLowerDigit(s[1]) && Lowercase(s[2..])
  {
    forall i | 2 <= i < |s| ensures s[i] == s[2..][i - 2] {
    }
    if IsLowerDigit(s[0]) && IsLowerDigit(s[1]) && Lowercase(s[2..]) {
      forall i | 0 <= i < |s| ensures IsLowerDigit(s[i]) {
        if i >= 2 { assert IsLowerDigit(s[2..][i - 2]); }
      }
    }
  }

  lemma ToHexSplits(id: Bytes, v: Byte, rest: Bytes)
    requires id == [v] + rest
    ensures ToHex(id) == HexPair(v) + ToHex(rest)
  {
    assert id[1..] == rest;
  }

  lemma {:induction false} KeptIffLowerPairs(s: Bytes)
    requires |s| % 2 == 0 && ParsePairs(s).Parsed?
    ensures ToHex(ParsePairs(s).id) == s <==> Lowercase(s)
  {
    if s != [] {
      var rest := s[2..];
      KeptIffLowerPairs(rest);
      LowerPair(s[0], s[1]);
      LowercaseSplits(s);
      var v, id := PairVal(s[0], s[1]).value, ParsePairs(rest).id;
      assert ParsePairs(s).id == [v] + id;
      ToHexSplits(ParsePairs(s).id, v, id);
      SamePairs(HexPair(v), ToHex(id), s);
    }
  }

  /** Several cookies name one session; it is written back as received exactly when every
      digit is in lower case. */
  lemma CookieIsKeptIffLowercase(s: Bytes)
    requires FromHex(s).Parsed?
    ensures ToHex(FromHex(s).id) == s <==> Lowercase(s)
  {
    KeptIffLowerPairs(s);
  }
}
