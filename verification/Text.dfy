/** Strings as the subtitle code takes them apart: white space, lines, first occurrences, decimal numbers. */
module Text {
  import opened Machine

  /** The Unicode property White_Space. */
  predicate Space(c: char) {
    var x := c as int;
    9 <= x <= 13 || x == 32 || x == 0x85 || x == 0xa0 || x == 0x1680 || 0x2000 <= x <= 0x200a
    || x == 0x2028 || x == 0x2029 || x == 0x202f || x == 0x205f || x == 0x3000
  }

  /** All 25 of them. */
  lemma {:induction false} SpacesAre(c: char)
    ensures Space(c) <==> c as int in {
              9, 10, 11, 12, 13, 32, 133, 160, 5760, 8192, 8193, 8194, 8195, 8196, 8197, 8198, 8199, 8200, 8201, 8202,
              8232, 8233, 8239, 8287, 12288}
  {
  }

  function TrimStart(s: string): string {
    if s != "" && Space(s[0]) then TrimStart(s[1..]) else s
  }

  function TrimEnd(s: string): string {
    if s != "" && Space(s[|s| - 1]) then TrimEnd(s[..|s| - 1]) else s
  }

  function Trim(s: string): string { TrimEnd(TrimStart(s)) }

  /** No white space at the end. */
  predicate EndsTight(s: string) { s == "" || !Space(s[|s| - 1]) }

  lemma {:induction false} TrimEndIsTight(s: string)
    ensures EndsTight(TrimEnd(s)) && TrimEnd(s) <= s
  {
    hide Space;
    if s != "" && Space(s[|s| - 1]) { TrimEndIsTight(s[..|s| - 1]); }
  }

  lemma {:induction false} TrimStartKeepsEnd(s: string)
    ensures |TrimStart(s)| <= |s| && TrimStart(s) == s[|s| - |TrimStart(s)|..]
    ensures TrimStart(s) != "" ==> !Space(TrimStart(s)[0])
  {
    hide Space;
    if s != "" && Space(s[0]) {
      TrimStartKeepsEnd(s[1..]);
      var k := |s| - 1 - |TrimStart(s[1..])|;
      assert s[1..][k..] == s[k + 1..];
    }
  }

  lemma {:induction false} BlankIsSpace()
    ensures Space(' ') && Space('\n') && Space('\r')
  {
  }

  /** What has no white space at its ends is what trimming leaves, with or without some around it. */
  lemma {:induction false} TrimsTo(s: string)
    requires s != "" && !Space(s[0]) && !Space(s[|s| - 1])
    ensures Trim(s) == s && Trim(s + " ") == s && TrimStart(" " + s) == s
  {
    hide Space;
    BlankIsSpace();
    assert (s + " ")[..|s|] == s && (" " + s)[1..] == s;
    assert TrimStart(s + " ") == s + " ";
  }

  // ----- pieces -----

  /** The pieces between the separators: always one more than there are separators. */
  function Split(s: string, c: char): (r: seq<string>)
    ensures |r| >= 1
  {
    if s == "" then [""]
    else if s[0] == c then [""] + Split(s[1..], c)
    else var r := Split(s[1..], c); [[s[0]] + r[0]] + r[1..]
  }

  function Join(pieces: seq<string>, c: char): string {
    if pieces == [] then ""
    else if |pieces| == 1 then pieces[0]
    else pieces[0] + [c] + Join(pieces[1..], c)
  }

  predicate Lacks(s: string, c: char) { forall i :: 0 <= i < |s| ==> s[i] != c }

  lemma {:induction false} SplitWhole(s: string, c: char)
    requires Lacks(s, c)
    ensures Split(s, c) == [s]
  {
    if s != "" {
      SplitWhole(s[1..], c);
      assert [s[0]] + s[1..] == s;
    }
  }

  lemma {:induction false} SplitFirst(a: string, c: char, rest: string)
    requires Lacks(a, c)
    ensures Split(a + [c] + rest, c) == [a] + Split(rest, c)
  {
    var s := a + [c] + rest;
    if a == "" {
      assert s[1..] == rest;
    } else {
      assert s[1..] == a[1..] + [c] + rest;
      SplitFirst(a[1..], c, rest);
      var r := Split(s[1..], c);
      assert r[0] == a[1..] && r[1..] == Split(rest, c);
      assert [s[0]] + a[1..] == a;
    }
  }

  /** Pieces without the separator are what their joining splits into. */
  lemma {:induction false} SplitJoin(pieces: seq<string>, c: char)
    requires pieces != [] && forall k :: 0 <= k < |pieces| ==> Lacks(pieces[k], c)
    ensures Split(Join(pieces, c), c) == pieces
    decreases |pieces|
  {
    if |pieces| == 1 {
      SplitWhole(pieces[0], c);
    } else {
      SplitJoin(pieces[1..], c);
      SplitFirst(pieces[0], c, Join(pieces[1..], c));
    }
  }

  lemma {:induction false} PiecesLackSeparator(s: string, c: char)
    ensures forall k :: 0 <= k < |Split(s, c)| ==> Lacks(Split(s, c)[k], c)
  {
    if s != "" { PiecesLackSeparator(s[1..], c); }
  }

  lemma {:induction false} JoinGrows(first: string, x: char, rest: seq<string>, c: char)
    ensures Join([[x] + first] + rest, c) == [x] + Join([first] + rest, c)
    ensures rest != [] ==> Join([""] + rest, c) == [c] + Join(rest, c)
  {
    assert ([[x] + first] + rest)[1..] == rest && ([first] + rest)[1..] == rest && ([""] + rest)[1..] == rest;
    if rest != [] { assert [x] + first + [c] + Join(rest, c) == [x] + (first + [c] + Join(rest, c)); }
  }

  lemma {:induction false} SplitPieces(s: string, c: char)
    ensures forall k :: 0 <= k < |Split(s, c)| ==> Lacks(Split(s, c)[k], c)
    ensures Join(Split(s, c), c) == s
  {
    hide Lacks, Join;
    PiecesLackSeparator(s, c);
    if s == "" {
      JoinOne("", c);
    } else {
      SplitPieces(s[1..], c);
      var r := Split(s[1..], c);
      JoinGrows(r[0], s[0], r[1..], c);
      JoinGrows("", s[0], r, c);
      assert [r[0]] + r[1..] == r && [s[0]] + s[1..] == s;
    }
  }

  lemma {:induction false} JoinOne(piece: string, c: char)
    ensures Join([piece], c) == piece
  {
  }

  // ----- first occurrences -----

  function Later(offset: Option<nat>): Option<nat> {
    match offset case None => None case Some(o) => Some(o + 1)
  }

  /** Where `pattern` first occurs. */
  function FindStr(s: string, pattern: string): (r: Option<nat>)
    ensures r.Some? ==> r.value + |pattern| <= |s|
  {
    if pattern <= s then Some(0)
    else if s == "" then None
    else Later(FindStr(s[1..], pattern))
  }

  lemma {:induction false} FoundFirst(a: string, pattern: string, rest: string)
    requires forall i :: 0 <= i < |a| ==> !(pattern <= (a + pattern + rest)[i..])
    ensures FindStr(a + pattern + rest, pattern) == Some(|a|)
  {
    var s := a + pattern + rest;
    if a == "" {
      assert s == pattern + rest;
    } else {
      assert s[0..] == s;
      assert s[1..] == a[1..] + pattern + rest;
      forall i | 0 <= i < |a[1..]| ensures !(pattern <= (a[1..] + pattern + rest)[i..]) {
        assert (a[1..] + pattern + rest)[i..] == s[i + 1..];
      }
      FoundFirst(a[1..], pattern, rest);
    }
  }

  // ----- decimal numbers -----

  predicate IsDigit(c: char) { '0' <= c <= '9' }

  predicate AllDigits(s: string) { forall i :: 0 <= i < |s| ==> IsDigit(s[i]) }

  function DigitChar(n: nat): (c: char)
    requires n < 10
    ensures IsDigit(c) && c as int - '0' as int == n
  {
    '0' + n as char
  }

  function Decimal(n: nat): (s: string)
    ensures s != "" && AllDigits(s)
  {
    if n < 10 then [DigitChar(n)] else Decimal(n / 10) + [DigitChar(n % 10)]
  }

  /** Zeros in front up to a width. */
  function Padded(s: string, width: nat): (r: string)
    ensures AllDigits(s) ==> AllDigits(r)
    ensures |r| == Max(|s|, width)
    decreases width - |s|
  {
    if |s| >= width then s else Padded("0" + s, width)
  }

  function DigitsValue(s: string): nat
    requires AllDigits(s)
  {
    if s == "" then 0 else DigitsValue(s[..|s| - 1]) * 10 + (s[|s| - 1] as int - '0' as int)
  }

  lemma {:induction false} DecimalValue(n: nat)
    ensures DigitsValue(Decimal(n)) == n
  {
    if n >= 10 {
      DecimalValue(n / 10);
      assert Decimal(n)[..|Decimal(n)| - 1] == Decimal(n / 10);
    } else {
      assert [DigitChar(n)][..0] == "";
    }
  }

  lemma {:induction false} ZeroInFront(s: string)
    requires AllDigits(s)
    ensures AllDigits("0" + s) && DigitsValue("0" + s) == DigitsValue(s)
  {
    if s == "" {
      assert "0"[..0] == "" && "0" + s == "0";
    } else {
      ZeroInFront(s[..|s| - 1]);
      assert ("0" + s)[..|s|] == "0" + s[..|s| - 1];
    }
  }

  lemma {:induction false} PaddedValue(s: string, width: nat)
    requires AllDigits(s)
    ensures DigitsValue(Padded(s, width)) == DigitsValue(s)
    decreases width - |s|
  {
    if |s| < width {
      ZeroInFront(s);
      PaddedValue("0" + s, width);
    }
  }

  lemma {:induction false} DecimalLength(n: nat, k: nat, bound: nat)
    requires k >= 1 && n < bound && bound == TenTo(k)
    ensures |Decimal(n)| <= k
    decreases k
  {
    if n >= 10 { DecimalLength(n / 10, k - 1, TenTo(k - 1)); }
  }

  function TenTo(k: nat): nat { if k == 0 then 1 else 10 * TenTo(k - 1) }

  /** A 64-bit number: digits, and perhaps a plus sign before them. */
  function ParseU64(s: string): Option<u64> {
    var digits := if s != "" && s[0] == '+' then s[1..] else s;
    if digits == "" || !AllDigits(digits) || DigitsValue(digits) > U64_MAX then None else Some(DigitsValue(digits))
  }

  lemma {:induction false} ParsePadded(n: u64, width: nat)
    ensures ParseU64(Padded(Decimal(n), width)) == Some(n)
  {
    var s := Padded(Decimal(n), width);
    DecimalValue(n);
    PaddedValue(Decimal(n), width);
    assert IsDigit(s[0]);
  }
}
