/**
 Whitespace trimming, as `str::trim` defines it (Unicode White_Space), and splitting at a
 separator.
 */
module Text {

  predicate IsWhite(c: char) {
    || '\t' <= c <= '\r' || c == ' ' || c == '\U{0085}' || c == '\U{00A0}' || c == '\U{1680}'
    || '\U{2000}' <= c <= '\U{200A}' || c == '\U{2028}' || c == '\U{2029}' || c == '\U{202F}'
    || c == '\U{205F}' || c == '\U{3000}'
  }

  function TrimStart(s: string): string {
    if s != "" && IsWhite(s[0]) then TrimStart(s[1..]) else s
  }

  function TrimEnd(s: string): string {
    if s != "" && IsWhite(s[|s| - 1]) then TrimEnd(s[..|s| - 1]) else s
  }

  function Trim(s: string): string {
    TrimEnd(TrimStart(s))
  }

  predicate Trimmed(s: string) {
    s != "" ==> !IsWhite(s[0]) && !IsWhite(s[|s| - 1])
  }

  predicate Blank(s: string) {
    forall i | 0 <= i < |s| :: IsWhite(s[i])
  }

  lemma {:induction false} TrimEndKeepsStart(s: string)
    requires s != "" ==> !IsWhite(s[0])
    ensures Trimmed(TrimEnd(s))
  {
    if s != "" && IsWhite(s[|s| - 1]) {
      TrimEndKeepsStart(s[..|s| - 1]);
    }
  }

  lemma {:induction false} TrimStartStarts(s: string)
    ensures TrimStart(s) != "" ==> !IsWhite(TrimStart(s)[0])
    ensures TrimStart(s) == "" <==> Blank(s)
  {
    if s != "" && IsWhite(s[0]) {
      TrimStartStarts(s[1..]);
      assert forall i | 1 <= i < |s| :: s[i] == s[1..][i - 1];
    }
  }

  /** Trimming leaves no white space at either end. */
  lemma TrimIsTrimmed(s: string)
    ensures Trimmed(Trim(s))
  {
    TrimStartStarts(s);
    TrimEndKeepsStart(TrimStart(s));
  }

  lemma {:induction false} TrimEndBlank(s: string)
    requires s != "" ==> !IsWhite(s[0])
    ensures TrimEnd(s) == "" <==> s == ""
  {
    if s != "" && IsWhite(s[|s| - 1]) {
      TrimEndBlank(s[..|s| - 1]);
    }
  }

  /** A text trims to nothing exactly when it is all white space. */
  lemma TrimBlank(s: string)
    ensures Trim(s) == "" <==> Blank(s)
  {
    TrimStartStarts(s);
    TrimEndBlank(TrimStart(s));
  }

  lemma {:induction false} TrimStartTakesWhite(s: string) returns (i: nat)
    ensures i <= |s| && Blank(s[..i]) && TrimStart(s) == s[i..]
  {
    i := 0;
    if s != "" && IsWhite(s[0]) {
      var rest := TrimStartTakesWhite(s[1..]);
      i := rest + 1;
      assert s[i..] == s[1..][rest..];
      forall k | 0 <= k < i ensures IsWhite(s[..i][k]) {
        if k > 0 { assert s[..i][k] == s[1..][..rest][k - 1]; }
      }
    }
  }

  lemma {:induction false} TrimEndTakesWhite(s: string) returns (j: nat)
    ensures j <= |s| && Blank(s[j..]) && TrimEnd(s) == s[..j]
  {
    j := |s|;
    if s != "" && IsWhite(s[|s| - 1]) {
      var init := s[..|s| - 1];
      j := TrimEndTakesWhite(init);
      assert s[..j] == init[..j];
      forall k | 0 <= k < |s[j..]| ensures IsWhite(s[j..][k]) {
        if k < |s| - 1 - j { assert s[j..][k] == init[j..][k]; }
      }
    }
  }

  /** A text is white space, then what trimming leaves, then white space. */
  lemma TrimTakesWhiteOnly(s: string) returns (front: string, back: string)
    ensures s == front + Trim(s) + back && Blank(front) && Blank(back)
  {
    var i := TrimStartTakesWhite(s);
    var j := TrimEndTakesWhite(s[i..]);
    front, back := s[..i], s[i..][j..];
    assert s == s[..i] + s[i..] && s[i..] == s[i..][..j] + s[i..][j..];
  }

  /** The code points with the White_Space property. */
  lemma WhiteSpaceIs(c: char)
    ensures IsWhite(c) <==>
              || 9 <= c as int <= 13 || 0x2000 <= c as int <= 0x200A
              || c as int in {0x20, 0x85, 0xA0, 0x1680, 0x2028, 0x2029, 0x202F, 0x205F, 0x3000}
  {
  }

  /** Trimming a trimmed text changes nothing. */
  lemma TrimTrimmed(s: string)
    requires Trimmed(s)
    ensures Trim(s) == s
  {
  }

  /** The pieces between the separators; one more than there are separators. */
  function Split<T(==)>(s: seq<T>, sep: T): (pieces: seq<seq<T>>)
    ensures pieces != []
  {
    if s == [] then [[]] else Prepend(s[0], Split(s[1..], sep), sep)
  }

  /** One more element before the pieces: it starts a new piece or lengthens the first. */
  function Prepend<T(==)>(x: T, pieces: seq<seq<T>>, sep: T): (more: seq<seq<T>>)
    requires pieces != []
    ensures more != []
  {
    if x == sep then [[]] + pieces else [[x] + pieces[0]] + pieces[1..]
  }

  lemma PrependBeside<T>(x: T, left: seq<seq<T>>, right: seq<seq<T>>, sep: T)
    requires left != []
    ensures Prepend(x, left + right, sep) == Prepend(x, left, sep) + right
  {
    assert (left + right)[1..] == left[1..] + right;
  }

  function Join<T>(pieces: seq<seq<T>>, sep: T): seq<T> {
    if pieces == [] then []
    else if |pieces| == 1 then pieces[0]
    else pieces[0] + [sep] + Join(pieces[1..], sep)
  }

  /** A separator splits a text into what each side splits into. */
  lemma {:induction false} SplitAround<T>(a: seq<T>, b: seq<T>, sep: T)
    ensures Split(a + [sep] + b, sep) == Split(a, sep) + Split(b, sep)
  {
    var s := a + [sep] + b;
    if a == [] {
      assert s[1..] == b;
    } else {
      assert s[1..] == a[1..] + [sep] + b;
      SplitAround(a[1..], b, sep);
      PrependBeside(a[0], Split(a[1..], sep), Split(b, sep), sep);
    }
  }

  lemma {:induction false} SplitUnbroken<T>(s: seq<T>, sep: T)
    requires sep !in s
    ensures Split(s, sep) == [s]
  {
    if s != [] {
      SplitUnbroken(s[1..], sep);
      assert [s[0]] + s[1..] == s;
    }
  }

  /** Splitting takes apart exactly what joining put together. */
  lemma {:induction false} SplitJoined<T>(pieces: seq<seq<T>>, sep: T)
    requires pieces != [] && forall p | p in pieces :: sep !in p
    ensures Split(Join(pieces, sep), sep) == pieces
  {
    SplitUnbroken(pieces[0], sep);
    if |pieces| > 1 {
      SplitJoined(pieces[1..], sep);
      SplitAround(pieces[0], Join(pieces[1..], sep), sep);
    }
  }
}
