/** String helpers the core relies on: Go's `strings.TrimSpace`, UTF-8 bytes and the table's title cut. */
module Text {

  // ---------------------------------------------------------------------------
  // strings.TrimSpace

  /** Go's `unicode.IsSpace`: the Latin-1 spaces plus the Unicode White_Space characters. */
  predicate IsSpace(c: char)
  {
    || c == '\t' || c == '\n' || c == '\U{000B}' || c == '\U{000C}' || c == '\r' || c == ' '
    || c == '\U{0085}' || c == '\U{00A0}' || c == '\U{1680}'
    || ('\U{2000}' <= c <= '\U{200A}')
    || c == '\U{2028}' || c == '\U{2029}' || c == '\U{202F}' || c == '\U{205F}' || c == '\U{3000}'
  }

  predicate AllSpace(s: string)
  {
    forall k :: 0 <= k < |s| ==> IsSpace(s[k])
  }

  /** Drops the leading white space. */
  function TrimLeft(s: string): string
    decreases |s|
  {
    if |s| > 0 && IsSpace(s[0]) then TrimLeft(s[1..]) else s
  }

  /** Drops the trailing white space. */
  function TrimRight(s: string): string
    decreases |s|
  {
    if |s| > 0 && IsSpace(s[|s| - 1]) then TrimRight(s[..|s| - 1]) else s
  }

  function TrimSpace(s: string): string
  {
    TrimRight(TrimLeft(s))
  }

  /** What `TrimLeft` keeps is a suffix that starts with a non-space; what it drops is all white space. */
  lemma {:induction false} TrimLeftIsSuffix(s: string)
    ensures var r := TrimLeft(s);
      && |r| <= |s| && r == s[|s| - |r|..]
      && (r != [] ==> !IsSpace(r[0]))
      && AllSpace(s[..|s| - |r|])
    decreases |s|
  {
    if |s| > 0 && IsSpace(s[0]) {
      TrimLeftIsSuffix(s[1..]);
      var r := TrimLeft(s[1..]);
      assert s[1..][|s| - 1 - |r|..] == s[|s| - |r|..];
      var dropped := s[..|s| - |r|];
      assert dropped == [s[0]] + s[1..][..|s| - 1 - |r|];
    }
  }

  /** What `TrimRight` keeps is a prefix that ends in a non-space; what it drops is all white space. */
  lemma {:induction false} TrimRightIsPrefix(s: string)
    ensures var r := TrimRight(s);
      && |r| <= |s| && r == s[..|r|]
      && (r != [] ==> !IsSpace(r[|r| - 1]))
      && AllSpace(s[|r|..])
    decreases |s|
  {
    if |s| > 0 && IsSpace(s[|s| - 1]) {
      var t := s[..|s| - 1];
      TrimRightIsPrefix(t);
      var r := TrimRight(t);
      assert t[..|r|] == s[..|r|];
      assert s[|r|..] == t[|r|..] + [s[|s| - 1]];
    }
  }

  lemma {:induction false} TrimLeftOfBlank(s: string)
    requires AllSpace(s)
    ensures TrimLeft(s) == ""
    decreases |s|
  {
    if |s| > 0 {
      TrimLeftOfBlank(s[1..]);
    }
  }

  /** The trimmed input is empty exactly when every character of the input is white space. */
  lemma TrimSpaceEmptyIffBlank(s: string)
    ensures TrimSpace(s) == "" <==> AllSpace(s)
  {
    var l := TrimLeft(s);
    TrimLeftIsSuffix(s);
    TrimRightIsPrefix(l);
    if TrimSpace(s) == "" {
      assert l[0..] == l;
      assert l == [];
      assert s[..|s|] == s;
    }
    if AllSpace(s) {
      TrimLeftOfBlank(s);
    }
  }

  /**
   * The trimmed text is the slice of the input between its leading and its
   * trailing white space, and neither starts nor ends with white space.
   */
  lemma TrimSpaceIsInnerSlice(s: string)
    ensures |TrimLeft(s)| <= |s|
    ensures var r, i := TrimSpace(s), |s| - |TrimLeft(s)|;
      && i + |r| <= |s| && r == s[i..i + |r|]
      && (r != [] ==> !IsSpace(r[0]) && !IsSpace(r[|r| - 1]))
      && AllSpace(s[..i]) && AllSpace(s[i + |r|..])
  {
    var l := TrimLeft(s);
    var r := TrimRight(l);
    var i := |s| - |l|;
    TrimLeftIsSuffix(s);
    TrimRightIsPrefix(l);
    assert r == l[..|r|];
    assert l[..|r|] == s[i..i + |r|];
    assert r != [] ==> r[0] == l[0];
  }

  // ---------------------------------------------------------------------------
  // UTF-8

  type Byte = b: int | 0 <= b < 256

  /** Number of UTF-8 bytes of one character. */
  function RuneLen(c: char): (n: nat)
    ensures 1 <= n <= 4
  {
    if c as int < 0x80 then 1
    else if c as int < 0x800 then 2
    else if c as int < 0x10000 then 3
    else 4
  }

  /** The UTF-8 encoding of one character. */
  function EncodeRune(c: char): (r: seq<Byte>)
    ensures |r| == RuneLen(c)
  {
    var n := c as int;
    if n < 0x80 then [n]
    else if n < 0x800 then [0xC0 + n / 64, 0x80 + n % 64]
    else if n < 0x10000 then [0xE0 + n / 4096, 0x80 + (n / 64) % 64, 0x80 + n % 64]
    else [0xF0 + n / 262144, 0x80 + (n / 4096) % 64, 0x80 + (n / 64) % 64, 0x80 + n % 64]
  }

  /** The bytes of a Go string holding `s`. */
  function Utf8(s: string): seq<Byte>
    decreases |s|
  {
    if |s| == 0 then [] else EncodeRune(s[0]) + Utf8(s[1..])
  }

  lemma {:induction false} Utf8Append(a: string, b: string)
    ensures Utf8(a + b) == Utf8(a) + Utf8(b)
    decreases |a|
  {
    if |a| > 0 {
      assert (a + b)[1..] == a[1..] + b;
      Utf8Append(a[1..], b);
    } else {
      assert a + b == b;
    }
  }

  predicate IsContinuation(b: Byte)
  {
    0x80 <= b < 0xC0
  }

  /** Byte sequences made of whole UTF-8 characters: a lead byte followed by its continuation bytes. */
  predicate WellFormed(b: seq<Byte>)
    decreases |b|
  {
    if |b| == 0 then true
    else if b[0] < 0x80 then WellFormed(b[1..])
    else if 0xC0 <= b[0] < 0xE0 then
      |b| >= 2 && IsContinuation(b[1]) && WellFormed(b[2..])
    else if 0xE0 <= b[0] < 0xF0 then
      |b| >= 3 && IsContinuation(b[1]) && IsContinuation(b[2]) && WellFormed(b[3..])
    else if 0xF0 <= b[0] < 0xF8 then
      |b| >= 4 && IsContinuation(b[1]) && IsContinuation(b[2]) && IsContinuation(b[3])
      && WellFormed(b[4..])
    else false
  }

  /** A whole character in front of any bytes does not change whether they are well formed. */
  lemma EncodeRuneThenWellFormed(c: char, rest: seq<Byte>)
    ensures WellFormed(EncodeRune(c) + rest) == WellFormed(rest)
  {
    var e := EncodeRune(c);
    assert (e + rest)[|e|..] == rest;
  }

  /** The encoding of any string is well formed. */
  lemma {:induction false} Utf8WellFormed(s: string)
    ensures WellFormed(Utf8(s))
    decreases |s|
  {
    if |s| > 0 {
      Utf8WellFormed(s[1..]);
      EncodeRuneThenWellFormed(s[0], Utf8(s[1..]));
    }
  }

  lemma {:induction false} Utf8Length(s: string)
    ensures |Utf8(s)| >= |s|
    ensures (forall k :: 0 <= k < |s| ==> s[k] as int < 0x80) ==> |Utf8(s)| == |s|
    decreases |s|
  {
    if |s| > 0 {
      Utf8Length(s[1..]);
    }
  }

  // ---------------------------------------------------------------------------
  // The title cell of a table row

  const TitleColWidth: nat := 40

  /**
   * The title cut as the table row does it, on bytes: a title longer than
   * `TitleColWidth - 2` bytes keeps its first `TitleColWidth - 5` bytes and gets "...".
   */
  function TruncateTitleBytes(b: seq<Byte>): (r: seq<Byte>)
    ensures |b| <= TitleColWidth - 2 ==> r == b
    ensures |b| > TitleColWidth - 2 ==>
      |r| == TitleColWidth - 2 && r[..TitleColWidth - 5] == b[..TitleColWidth - 5]
      && r[TitleColWidth - 5..] == Utf8("...")
  {
    if |b| > TitleColWidth - 2 then b[..TitleColWidth - 5] + Utf8("...") else b
  }

  /** A title of three-byte characters only (CJK text, for one) longer than 38 bytes. */
  predicate ThreeByteTitle(t: string)
  {
    |t| >= 13 && forall k :: 0 <= k < |t| ==> 0x800 <= t[k] as int < 0x10000
  }

  lemma {:induction false} ThreeByteUtf8Length(t: string)
    requires forall k :: 0 <= k < |t| ==> 0x800 <= t[k] as int < 0x10000
    ensures |Utf8(t)| == 3 * |t|
    decreases |t|
  {
    if |t| > 0 {
      ThreeByteUtf8Length(t[1..]);
    }
  }

  lemma {:induction false} WholeCharactersThenWellFormed(u: string, rest: seq<Byte>)
    ensures WellFormed(Utf8(u) + rest) == WellFormed(rest)
    decreases |u|
  {
    if |u| > 0 {
      var e, tail := EncodeRune(u[0]), Utf8(u[1..]) + rest;
      assert Utf8(u) == e + Utf8(u[1..]);
      assert Utf8(u) + rest == e + tail;
      EncodeRuneThenWellFormed(u[0], tail);
      assert WellFormed(e + tail) == WellFormed(tail);
      WholeCharactersThenWellFormed(u[1..], rest);
      assert WellFormed(tail) == WellFormed(rest);
    } else {
      assert Utf8(u) + rest == rest;
    }
  }

  /**
   * The byte cut lands inside the twelfth character of a three-byte title, so the
   * cell holds a broken character before "...".
   */
  lemma ByteCutSplitsCharacter(t: string)
    requires ThreeByteTitle(t)
    ensures !WellFormed(TruncateTitleBytes(Utf8(t)))
  {
    var head, tail := t[..11], t[11..];
    assert t == head + tail;
    Utf8Append(head, tail);
    ThreeByteUtf8Length(t);
    ThreeByteUtf8Length(head);
    assert Utf8(tail) == EncodeRune(t[11]) + Utf8(tail[1..]);
    var e := EncodeRune(t[11]);
    var cut := TruncateTitleBytes(Utf8(t));
    assert cut == Utf8(head) + (e[..2] + Utf8("..."));
    WholeCharactersThenWellFormed(head, e[..2] + Utf8("..."));
    assert Utf8("...") == [46, 46, 46];
    assert (e[..2] + Utf8("..."))[2] == 46;
  }

  /** Thirteen times U+4E2D: 39 bytes, cut to 35 bytes that end inside a character. */
  lemma ChineseTitleIsCutMidCharacter()
    ensures !WellFormed(TruncateTitleBytes(Utf8(seq(13, _ => '\U{4E2D}'))))
  {
    ByteCutSplitsCharacter(seq(13, _ => '\U{4E2D}'));
  }

  /** The longest prefix of `t` whose encoding fits in `n` bytes. */
  function FitPrefix(t: string, n: nat): (r: string)
    ensures |r| <= |t| && r == t[..|r|]
    ensures |Utf8(r)| <= n
    ensures |r| < |t| ==> |Utf8(r)| + RuneLen(t[|r|]) > n
    decreases |t|
  {
    if |t| > 0 && RuneLen(t[0]) <= n then
      var rest := FitPrefix(t[1..], n - RuneLen(t[0]));
      assert ([t[0]] + rest)[1..] == rest;
      [t[0]] + rest
    else []
  }

  /**
   * The title cut at a character boundary: a title longer than 38 bytes keeps the
   * longest run of whole characters that fits in 35 bytes and gets "...".
   */
  function TruncateTitle(t: string): (r: string)
    ensures |Utf8(r)| <= TitleColWidth - 2
    ensures |Utf8(t)| <= TitleColWidth - 2 ==> r == t
    ensures |Utf8(t)| > TitleColWidth - 2 ==>
      var k := |r| - 3;
      && 0 <= k < |t| && r == t[..k] + "..."
      && |Utf8(t[..k])| <= TitleColWidth - 5 < |Utf8(t[..k])| + RuneLen(t[k])
  {
    if |Utf8(t)| > TitleColWidth - 2 then
      var p := FitPrefix(t, TitleColWidth - 5);
      Utf8Append(p, "...");
      assert |p| == |t| ==> p == t;
      p + "..."
    else t
  }

  /** The cut always yields whole characters. */
  lemma TruncateTitleWellFormed(t: string)
    ensures WellFormed(Utf8(TruncateTitle(t)))
  {
    Utf8WellFormed(TruncateTitle(t));
  }

  /** On ASCII titles, where bytes and characters coincide, both cuts give the same bytes. */
  lemma {:induction false} CutsAgreeOnAscii(t: string)
    requires forall k :: 0 <= k < |t| ==> t[k] as int < 0x80
    ensures Utf8(TruncateTitle(t)) == TruncateTitleBytes(Utf8(t))
  {
    Utf8Length(t);
    if |Utf8(t)| > TitleColWidth - 2 {
      var p := FitPrefix(t, TitleColWidth - 5);
      Utf8Append(p, "...");
      Utf8Length(p);
      assert |p| < |t|;
      assert RuneLen(t[|p|]) == 1;
      assert |p| == TitleColWidth - 5;
      AsciiUtf8Prefix(t, |p|);
    }
  }

  /** On ASCII text the bytes of a prefix are the prefix of the bytes. */
  lemma {:induction false} AsciiUtf8Prefix(t: string, k: nat)
    requires k <= |t|
    requires forall i :: 0 <= i < |t| ==> t[i] as int < 0x80
    ensures |Utf8(t)| == |t|
    ensures Utf8(t[..k]) == Utf8(t)[..k]
    decreases k
  {
    Utf8Length(t);
    if k > 0 {
      assert t[..k][1..] == t[1..][..k - 1];
      AsciiUtf8Prefix(t[1..], k - 1);
    }
  }
}
