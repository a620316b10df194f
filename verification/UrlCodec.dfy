/**
 Percent-encoding and the urlencoded token field. Texts are their UTF-8 bytes; bytes that
 are not valid UTF-8 never reach the encoders, and what the decoder's lossy conversion does
 to them is not modelled.
 */
module UrlCodec {
  import opened Wrappers
  import Text

  type Byte = x: int | 0 <= x < 256
  type Bytes = seq<Byte>

  const PERCENT: Byte := 0x25
  const AMPERSAND: Byte := 0x26
  const SLASH: Byte := 0x2F
  const EQUALS: Byte := 0x3D
  /** The bytes of `csrf`. */
  const TOKEN_FIELD: Bytes := [0x63, 0x73, 0x72, 0x66]

  predicate IsDigit(b: Byte) { 0x30 <= b <= 0x39 }

  /** Letters, digits, `-`, `.`, `_` and `~`: section 2.3 of RFC 3986. */
  predicate Unreserved(b: Byte) {
    IsDigit(b) || 0x41 <= b <= 0x5A || 0x61 <= b <= 0x7A || b in {0x2D, 0x2E, 0x5F, 0x7E}
  }

  /** Where an encoded text goes; a query value also keeps its slashes. */
  datatype Place = QueryValue | PathSegment

  predicate Kept(place: Place, b: Byte) {
    Unreserved(b) || (place.QueryValue? && b == SLASH)
  }

  /** The upper-case hexadecimal digit for `n`. */
  function HexDigit(n: int): Byte
    requires 0 <= n < 16
  {
    if n < 10 then 0x30 + n else 0x41 + n - 10
  }

  function HexVal(b: Byte): Option<int> {
    if IsDigit(b) then Some(b - 0x30)
    else if 0x61 <= b <= 0x66 then Some(b - 0x61 + 10)
    else if 0x41 <= b <= 0x46 then Some(b - 0x41 + 10)
    else None
  }

  function Escape(b: Byte): Bytes {
    [PERCENT, HexDigit(b / 16), HexDigit(b % 16)]
  }

  function EncodeByte(place: Place, b: Byte): Bytes {
    if Kept(place, b) then [b] else Escape(b)
  }

  function Encode(place: Place, s: Bytes): Bytes {
    if s == [] then [] else EncodeByte(place, s[0]) + Encode(place, s[1..])
  }

  /** An escape starts the text. */
  predicate Escaped(t: Bytes) {
    |t| > 2 && t[0] == PERCENT && HexVal(t[1]).Some? && HexVal(t[2]).Some?
  }

  function EscapedByte(t: Bytes): Byte
    requires Escaped(t)
  {
    HexVal(t[1]).value * 16 + HexVal(t[2]).value
  }

  function Decode(t: Bytes): Bytes {
    if t == [] then []
    else if Escaped(t) then [EscapedByte(t)] + Decode(t[3..])
    else [t[0]] + Decode(t[1..])
  }

  lemma {:induction false} EncodeSnoc(place: Place, s: Bytes, b: Byte)
    ensures Encode(place, s + [b]) == Encode(place, s) + EncodeByte(place, b)
  {
    if s == [] {
      assert [b][1..] == [];
    } else {
      assert (s + [b])[1..] == s[1..] + [b];
      EncodeSnoc(place, s[1..], b);
    }
  }

  method EncodeQueryValue(s: Bytes) returns (out: Bytes)
    ensures out == Encode(QueryValue, s)
  {
    out := [];
    for i := 0 to |s|
      invariant out == Encode(QueryValue, s[..i])
    {
      var b := s[i];
      assert s[..i + 1] == s[..i] + [b];
      EncodeSnoc(QueryValue, s[..i], b);
      if Unreserved(b) || b == SLASH {
        out := out + [b];
      } else {
        out := out + [PERCENT, HexDigit(b / 16), HexDigit(b % 16)];
      }
    }
    assert s[..|s|] == s;
  }

  method EncodePathSegment(s: Bytes) returns (out: Bytes)
    ensures out == Encode(PathSegment, s)
  {
    out := [];
    for i := 0 to |s|
      invariant out == Encode(PathSegment, s[..i])
    {
      var b := s[i];
      assert s[..i + 1] == s[..i] + [b];
      EncodeSnoc(PathSegment, s[..i], b);
      if Unreserved(b) {
        out := out + [b];
      } else {
        out := out + [PERCENT, HexDigit(b / 16), HexDigit(b % 16)];
      }
    }
    assert s[..|s|] == s;
  }

  lemma DecodeEscape(t: Bytes, i: nat, out: Bytes)
    requires i <= |t| && Escaped(t[i..])
    ensures out + Decode(t[i..]) == out + [EscapedByte(t[i..])] + Decode(t[i + 3..])
  {
    assert t[i..][3..] == t[i + 3..];
  }

  lemma DecodePlain(t: Bytes, i: nat, out: Bytes)
    requires i < |t| && !Escaped(t[i..])
    ensures out + Decode(t[i..]) == out + [t[i]] + Decode(t[i + 1..])
  {
    assert t[i..][1..] == t[i + 1..];
  }

  method UrlDecode(t: Bytes) returns (out: Bytes)
    ensures out == Decode(t)
  {
    out := [];
    var i := 0;
    while i < |t|
      invariant 0 <= i <= |t|
      invariant out + Decode(t[i..]) == Decode(t)
    {
      if t[i] == PERCENT && i + 2 < |t| && HexVal(t[i + 1]).Some? && HexVal(t[i + 2]).Some? {
        var h, l := HexVal(t[i + 1]).value, HexVal(t[i + 2]).value;
        DecodeEscape(t, i, out);
        out := out + [h * 16 + l];
        i := i + 3;
      } else {
        DecodePlain(t, i, out);
        out := out + [t[i]];
        i := i + 1;
      }
    }
  }

  /** Exactly letters, digits, `-`, `.`, `_`, `~`, and in a query value `/`, go as they are;
      every other byte becomes a percent sign and two upper-case hexadecimal digits. */
  lemma BytesGoAs(place: Place, b: Byte)
    ensures
      var plain := || 0x41 <= b <= 0x5A || 0x61 <= b <= 0x7A || 0x30 <= b <= 0x39
                   || b in {0x2D, 0x2E, 0x5F, 0x7E} || (place == QueryValue && b == 0x2F);
      var digits := "0123456789ABCDEF";
      Encode(place, [b]) == if plain then [b] else [0x25, digits[b / 16] as int, digits[b % 16] as int]
  {
    assert Encode(place, [b]) == EncodeByte(place, b) by { assert [b][1..] == []; }
    DigitIs(b / 16);
    DigitIs(b % 16);
  }

  lemma DigitIs(n: int)
    requires 0 <= n < 16
    ensures HexDigit(n) == "0123456789ABCDEF"[n] as int
  {
  }

  /** Hexadecimal digits are read in either case, and nothing else is. */
  lemma DigitsAreRead(b: Byte)
    ensures HexVal(b) ==
              if '0' as int <= b <= '9' as int then Some(b - '0' as int)
              else if 'A' as int <= b <= 'F' as int then Some(10 + b - 'A' as int)
              else if 'a' as int <= b <= 'f' as int then Some(10 + b - 'a' as int)
              else None
  {
  }

  /** An escape starts at `i`. */
  predicate EscapeAt(t: Bytes, i: int) {
    0 <= i && i + 2 < |t| && t[i] == 0x25 && HexVal(t[i + 1]).Some? && HexVal(t[i + 2]).Some?
  }

  /** What is not an escape is kept as it is: a text that holds none, be its bytes plain, a
      plus sign, or a percent sign with fewer than two digits after it, decodes to itself. */
  lemma {:induction false} NoEscapeNoChange(t: Bytes)
    requires forall i :: !EscapeAt(t, i)
    ensures Decode(t) == t
  {
    if t != [] {
      assert !EscapeAt(t, 0);
      forall i ensures !EscapeAt(t[1..], i) {
        assert !EscapeAt(t, i + 1);
      }
      NoEscapeNoChange(t[1..]);
    }
  }

  /** Decoding goes from left to right: what stands before the first escape is kept, the
      escape becomes its byte, and decoding goes on behind it. */
  lemma {:induction false} FirstEscapeIsRead(t: Bytes, i: nat)
    requires EscapeAt(t, i) && forall j | 0 <= j < i :: !EscapeAt(t, j)
    ensures Decode(t) == t[..i] + [HexVal(t[i + 1]).value * 16 + HexVal(t[i + 2]).value] + Decode(t[i + 3..])
  {
    if i > 0 {
      assert !EscapeAt(t, 0);
      forall j | 0 <= j < i - 1 ensures !EscapeAt(t[1..], j) {
        assert !EscapeAt(t, j + 1);
      }
      FirstEscapeIsRead(t[1..], i - 1);
      assert t[1..][i + 2..] == t[i + 3..];
      assert t[..i] == [t[0]] + t[1..][..i - 1];
    }
  }

  lemma EscapeIsDecoded(b: Byte, rest: Bytes)
    ensures Escaped(Escape(b) + rest)
    ensures Decode(Escape(b) + rest) == [b] + Decode(rest)
  {
    var t := Escape(b) + rest;
    assert t[3..] == rest;
    assert b / 16 * 16 + b % 16 == b;
  }

  /** Decoding undoes both encoders, on every text. */
  lemma {:induction false} DecodeUndoesEncode(place: Place, s: Bytes)
    ensures Decode(Encode(place, s)) == s
  {
    if s != [] {
      var rest := Encode(place, s[1..]);
      DecodeUndoesEncode(place, s[1..]);
      if Kept(place, s[0]) {
        assert ([s[0]] + rest)[1..] == rest;
      } else {
        EscapeIsDecoded(s[0], rest);
      }
    }
  }

  /** An encoded text holds only kept bytes and percent signs, so none that ends a value,
      a field or a segment. */
  lemma {:induction false} EncodedIsPlain(place: Place, s: Bytes)
    ensures forall b | b in Encode(place, s) :: b == PERCENT || Kept(place, b)
    ensures AMPERSAND !in Encode(place, s) && EQUALS !in Encode(place, s)
    ensures place.PathSegment? ==> SLASH !in Encode(place, s)
  {
    if s != [] { EncodedIsPlain(place, s[1..]); }
  }

  /** Texts an encoder can have written: kept bytes, and escapes in upper case of bytes
      that are not kept. */
  predicate Canonical(place: Place, t: Bytes) {
    t == [] ||
    if Escaped(t) then !Kept(place, EscapedByte(t)) && t[..3] == Escape(EscapedByte(t)) && Canonical(place, t[3..])
    else Kept(place, t[0]) && Canonical(place, t[1..])
  }

  lemma {:induction false} EncodedIsCanonical(place: Place, s: Bytes)
    ensures Canonical(place, Encode(place, s))
  {
    if s != [] {
      var t, rest := Encode(place, s), Encode(place, s[1..]);
      EncodedIsCanonical(place, s[1..]);
      if Kept(place, s[0]) {
        assert t[1..] == rest;
      } else {
        EscapeIsDecoded(s[0], rest);
        assert t[3..] == rest && t[..3] == Escape(s[0]);
        assert EscapedByte(t) == s[0];
      }
    }
  }

  lemma {:induction false} CanonicalIsReencoded(place: Place, t: Bytes)
    requires Canonical(place, t)
    ensures Encode(place, Decode(t)) == t
  {
    if t == [] {
    } else if Escaped(t) {
      CanonicalIsReencoded(place, t[3..]);
      assert Decode(t)[1..] == Decode(t[3..]);
      assert t == t[..3] + t[3..];
    } else {
      CanonicalIsReencoded(place, t[1..]);
      assert Decode(t)[1..] == Decode(t[1..]);
    }
  }

  /** Encoding undoes decoding exactly on the texts an encoder can have written. */
  lemma EncodeUndoesDecodeIffCanonical(place: Place, t: Bytes)
    ensures Encode(place, Decode(t)) == t <==> Canonical(place, t)
  {
    if Canonical(place, t) { CanonicalIsReencoded(place, t); }
    EncodedIsCanonical(place, Decode(t));
  }

  // The token field of a query or of a urlencoded body.

  /** Where `b` first stands in `s`. */
  function IndexOf(s: Bytes, b: Byte): (r: Option<nat>)
    ensures r.None? ==> b !in s
    ensures r.Some? ==> r.value < |s| && s[r.value] == b && b !in s[..r.value]
  {
    if s == [] then None
    else if s[0] == b then Some(0)
    else
      match IndexOf(s[1..], b)
      case None => None
      case Some(i) => assert s[..i + 1] == [s[0]] + s[1..][..i]; Some(i + 1)
  }

  lemma {:induction false} FirstAt(s: Bytes, b: Byte, i: nat)
    requires i < |s| && s[i] == b && b !in s[..i]
    ensures IndexOf(s, b) == Some(i)
  {
    if i > 0 {
      assert s[1..][..i - 1] == s[..i][1..];
      FirstAt(s[1..], b, i - 1);
    }
  }

  /** The value of the first pair that starts with `csrf=`, decoded. */
  function TokenAmong(pairs: seq<Bytes>): Option<Bytes> {
    if pairs == [] then None
    else if TOKEN_FIELD + [EQUALS] <= pairs[0] then Some(Decode(pairs[0][5..]))
    else TokenAmong(pairs[1..])
  }

  /** The field's name. */
  lemma TokenFieldIs()
    ensures |TOKEN_FIELD| == 4
    ensures forall i | 0 <= i < 4 :: TOKEN_FIELD[i] == "csrf"[i] as int
  {
  }

  lemma {:induction false} TokenIsTheFirst(pairs: seq<Bytes>)
    ensures TokenAmong(pairs).None? <==> forall i | 0 <= i < |pairs| :: !(TOKEN_FIELD + [EQUALS] <= pairs[i])
    ensures forall i | 0 <= i < |pairs| && TOKEN_FIELD + [EQUALS] <= pairs[i]
                    && (forall j | 0 <= j < i :: !(TOKEN_FIELD + [EQUALS] <= pairs[j])) ::
              TokenAmong(pairs) == Some(Decode(pairs[i][5..]))
  {
    if pairs != [] { TokenIsTheFirst(pairs[1..]); }
  }

  function TokenIn(s: Bytes): Option<Bytes> {
    TokenAmong(Text.Split(s, AMPERSAND))
  }

  /** The part before the first `=` is `csrf` exactly when the pair starts with `csrf=`. */
  lemma KeyIsPrefix(pair: Bytes)
    ensures var eq := IndexOf(pair, EQUALS);
            TOKEN_FIELD + [EQUALS] <= pair <==> eq.Some? && pair[..eq.value] == TOKEN_FIELD
    ensures TOKEN_FIELD + [EQUALS] <= pair ==> IndexOf(pair, EQUALS) == Some(4)
  {
    if TOKEN_FIELD + [EQUALS] <= pair {
      assert pair[..4] == TOKEN_FIELD;
      FirstAt(pair, EQUALS, 4);
    }
  }

  method CsrfFromQuery(query: Option<Bytes>) returns (token: Option<Bytes>)
    ensures token == TokenIn(if query.Some? then query.value else [])
  {
    var pairs := Text.Split(if query.Some? then query.value else [], AMPERSAND);
    for i := 0 to |pairs|
      invariant TokenAmong(pairs[i..]) == TokenAmong(pairs)
    {
      assert pairs[i..][1..] == pairs[i + 1..];
      KeyIsPrefix(pairs[i]);
      var eq := IndexOf(pairs[i], EQUALS);
      if eq.Some? && pairs[i][..eq.value] == TOKEN_FIELD {
        var value := UrlDecode(pairs[i][eq.value + 1..]);
        return Some(value);
      }
    }
    return None;
  }

  /** The media type of a urlencoded form, `application/x-www-form-urlencoded`. */
  const FORM_TYPE: string := "application/x-www-form-urlencoded"

  method CsrfFromFormBody(body: Bytes, contentType: Option<string>) returns (token: Option<Bytes>)
    ensures contentType.Some? && "application/x-www-form-urlencoded" <= contentType.value ==> token == TokenIn(body)
    ensures contentType.None? || !("application/x-www-form-urlencoded" <= contentType.value) ==> token == None
  {
    var ct := if contentType.Some? then contentType.value else "";
    if !(FORM_TYPE <= ct) { return None; }
    var pairs := Text.Split(body, AMPERSAND);
    for i := 0 to |pairs|
      invariant TokenAmong(pairs[i..]) == TokenAmong(pairs)
    {
      assert pairs[i..][1..] == pairs[i + 1..];
      KeyIsPrefix(pairs[i]);
      var eq := IndexOf(pairs[i], EQUALS);
      if eq.None? { continue; }
      if pairs[i][..eq.value] == TOKEN_FIELD {
        var value := UrlDecode(pairs[i][eq.value + 1..]);
        return Some(value);
      }
    }
    return None;
  }

  /** A form field before encoding. */
  datatype Field = Field(key: Bytes, value: Bytes)

  function EncodeField(field: Field): Bytes {
    Encode(QueryValue, field.key) + [EQUALS] + Encode(QueryValue, field.value)
  }

  function EncodeFields(fields: seq<Field>): seq<Bytes> {
    if fields == [] then [] else [EncodeField(fields[0])] + EncodeFields(fields[1..])
  }

  /** The value of the first field named `csrf`. */
  function TokenOf(fields: seq<Field>): Option<Bytes> {
    if fields == [] then None
    else if fields[0].key == TOKEN_FIELD then Some(fields[0].value)
    else TokenOf(fields[1..])
  }

  lemma TokenFieldIsPlain()
    ensures Encode(QueryValue, TOKEN_FIELD) == TOKEN_FIELD
  {
    assert TOKEN_FIELD[1..] == [0x73, 0x72, 0x66];
    assert TOKEN_FIELD[1..][1..] == [0x72, 0x66];
    assert TOKEN_FIELD[1..][1..][1..] == [0x66];
    assert TOKEN_FIELD[1..][1..][1..][1..] == [];
  }

  lemma EncodedFieldIsFound(field: Field)
    ensures AMPERSAND !in EncodeField(field)
    ensures TOKEN_FIELD + [EQUALS] <= EncodeField(field) <==> field.key == TOKEN_FIELD
    ensures field.key == TOKEN_FIELD ==> Decode(EncodeField(field)[5..]) == field.value
  {
    var key, value := Encode(QueryValue, field.key), Encode(QueryValue, field.value);
    EncodedIsPlain(QueryValue, field.key);
    EncodedIsPlain(QueryValue, field.value);
    TokenFieldIsPlain();
    DecodeUndoesEncode(QueryValue, field.key);
    DecodeUndoesEncode(QueryValue, TOKEN_FIELD);
    DecodeUndoesEncode(QueryValue, field.value);
    var pair := EncodeField(field);
    assert pair[..|key|] == key;
    FirstAt(pair, EQUALS, |key|);
    KeyIsPrefix(pair);
    if field.key == TOKEN_FIELD {
      assert pair[5..] == value;
    }
  }

  lemma {:induction false} TokenAmongEncoded(fields: seq<Field>)
    ensures TokenAmong(EncodeFields(fields)) == TokenOf(fields)
    ensures |EncodeFields(fields)| == |fields|
    ensures forall p | p in EncodeFields(fields) :: AMPERSAND !in p
  {
    if fields != [] {
      TokenAmongEncoded(fields[1..]);
      EncodedFieldIsFound(fields[0]);
      assert EncodeFields(fields)[1..] == EncodeFields(fields[1..]);
    }
  }

  /** From a query built of encoded fields, whatever they hold, comes back the value of the
      first one named `csrf`. */
  lemma BuiltQueryGivesTokenBack(fields: seq<Field>)
    ensures TokenIn(Text.Join(EncodeFields(fields), AMPERSAND)) == TokenOf(fields)
  {
    TokenAmongEncoded(fields);
    if fields == [] {
      assert Text.Split<Byte>([], AMPERSAND)[1..] == [];
    } else {
      Text.SplitJoined(EncodeFields(fields), AMPERSAND);
    }
  }

  // Comparison without an early exit.

  method ConstantTimeEq(a: seq<bv8>, b: seq<bv8>) returns (equal: bool)
    ensures equal <==> a == b
  {
    if |a| != |b| { return false; }
    var diff: bv8 := 0;
    for i := 0 to |a|
      invariant diff == 0 <==> a[..i] == b[..i]
    {
      assert a[..i + 1] == a[..i] + [a[i]] && b[..i + 1] == b[..i] + [b[i]];
      DiffersAt(diff, a[i], b[i]);
      diff := diff | (a[i] ^ b[i]);
    }
    assert a == a[..|a|] && b == b[..|b|];
    return diff == 0;
  }

  lemma DiffersAt(diff: bv8, x: bv8, y: bv8)
    ensures diff | (x ^ y) == 0 <==> diff == 0 && x == y
  {
  }

  /** `CsrfToken::verify` on what base64 decoding gave; nothing if that failed. */
  method VerifyToken(token: seq<bv8>, decoded: Option<seq<bv8>>) returns (ok: bool)
    ensures ok <==> decoded == Some(token)
  {
    if decoded.None? || |decoded.value| != |token| { return false; }
    var diff: bv8 := 0;
    for i := 0 to |token|
      invariant diff == 0 <==> token[..i] == decoded.value[..i]
    {
      assert token[..i + 1] == token[..i] + [token[i]];
      assert decoded.value[..i + 1] == decoded.value[..i] + [decoded.value[i]];
      DiffersAt(diff, token[i], decoded.value[i]);
      diff := diff | (token[i] ^ decoded.value[i]);
    }
    assert token == token[..|token|] && decoded.value == decoded.value[..|token|];
    return diff == 0;
  }
}
