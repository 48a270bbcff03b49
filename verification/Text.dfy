/** Strings of UTF-8 bytes: white space and trimming as Go's `strings.TrimSpace` has them. */
module Text {

  /** The number of bytes of the white-space character that `s` starts with, 0 if it starts with none. */
  function SpaceWidth(s: string): (w: nat)
    ensures w <= |s|
  {
    if |s| >= 1 && OneByteSpace(s[0]) then 1
    else if |s| >= 2 && TwoByteSpace(s[0], s[1]) then 2
    else if |s| >= 3 && ThreeByteSpace(s[0], s[1], s[2]) then 3
    else 0
  }

  predicate OneByteSpace(a: char) {
    9 <= a as int <= 13 || a == ' '
  }

  /** U+0085 and U+00A0. */
  predicate TwoByteSpace(a: char, b: char) {
    a as int == 0xC2 && (b as int == 0x85 || b as int == 0xA0)
  }

  /** U+1680, U+2000 to U+200A, U+2028, U+2029, U+202F, U+205F and U+3000. */
  predicate ThreeByteSpace(a: char, b: char, c: char) {
    var x, y, z := a as int, b as int, c as int;
    || (x == 0xE1 && y == 0x9A && z == 0x80)
    || (x == 0xE2 && y == 0x80 && (0x80 <= z <= 0x8A || z == 0xA8 || z == 0xA9 || z == 0xAF))
    || (x == 0xE2 && y == 0x81 && z == 0x9F)
    || (x == 0xE3 && y == 0x80 && z == 0x80)
  }

  /** Unicode's white-space characters. */
  ghost predicate WhiteSpace(c: int) {
    || 9 <= c <= 13 || c == 0x20 || c == 0x85 || c == 0xA0 || c == 0x1680 || 0x2000 <= c <= 0x200A
    || c == 0x2028 || c == 0x2029 || c == 0x202F || c == 0x205F || c == 0x3000
  }

  /** The UTF-8 form of a character of at most sixteen bits (RFC 3629, section 3). */
  ghost function Utf8(c: int): string
    requires 0 <= c < 0x10000
  {
    if c < 0x80 then [c as char]
    else if c < 0x800 then [(0xC0 + c / 64) as char, (0x80 + c % 64) as char]
    else [(0xE0 + c / 4096) as char, (0x80 + c / 64 % 64) as char, (0x80 + c % 64) as char]
  }

  ghost predicate StartsWith(s: string, c: int) {
    WhiteSpace(c) && Utf8(c) <= s
  }

  /** The width is that of the white-space character the text starts with, and 0 exactly if it starts with none. */
  lemma SpaceWidthMeans(s: string)
    ensures SpaceWidth(s) > 0 <==> exists c :: StartsWith(s, c)
    ensures forall c | StartsWith(s, c) :: SpaceWidth(s) == |Utf8(c)|
  {
    var w := SpaceWidth(s);
    forall c | StartsWith(s, c) ensures w == |Utf8(c)| {
      SpaceStarts(s, c);
    }
    if w > 0 {
      var c :=
        if w == 1 then s[0] as int
        else if w == 2 then s[1] as int
        else (s[0] as int - 0xE0) * 4096 + (s[1] as int - 0x80) * 64 + (s[2] as int - 0x80);
      assert s[..w] == Utf8(c);
      assert StartsWith(s, c);
    }
  }

  lemma SpaceStarts(s: string, c: int)
    requires StartsWith(s, c)
    ensures SpaceWidth(s) == |Utf8(c)|
  {
    var u := Utf8(c);
    assert forall i | 0 <= i < |u| :: s[i] == u[i];
  }

  /** The same for the character that `s` ends with. */
  function SpaceWidthEnd(s: string): (w: nat)
    ensures w <= |s|
  {
    var n := |s|;
    if n >= 1 && OneByteSpace(s[n - 1]) then 1
    else if n >= 2 && TwoByteSpace(s[n - 2], s[n - 1]) then 2
    else if n >= 3 && ThreeByteSpace(s[n - 3], s[n - 2], s[n - 1]) then 3
    else 0
  }

  lemma SpaceAtEnd(s: string, k: nat)
    requires 0 < |s| - k == SpaceWidthEnd(s)
    ensures SpaceWidth(s[k..]) == |s| - k
  {
    var t := s[k..];
    assert |t| == 1 ==> t[0] == s[|s| - 1];
    assert |t| == 2 ==> t[0] == s[|s| - 2] && t[1] == s[|s| - 1];
    assert |t| == 3 ==> t[0] == s[|s| - 3] && t[1] == s[|s| - 2] && t[2] == s[|s| - 1];
  }

  /** Nothing but white space. */
  predicate Blank(s: string)
    decreases |s|
  {
    s == "" || (SpaceWidth(s) > 0 && Blank(s[SpaceWidth(s)..]))
  }

  predicate Trimmed(s: string) {
    SpaceWidth(s) == 0 && SpaceWidthEnd(s) == 0
  }

  function TrimSpace(s: string): (t: string)
    ensures Trimmed(t) && |t| <= |s|
    decreases |s|
  {
    if SpaceWidth(s) > 0 then TrimSpace(s[SpaceWidth(s)..])
    else if SpaceWidthEnd(s) > 0 then TrimSpace(s[..|s| - SpaceWidthEnd(s)])
    else s
  }

  /** Trimming takes all of the white space at the ends. */
  lemma TrimTakesAll(s: string)
    ensures Bare(TrimSpace(s))
  {
    TrimmedMeans(TrimSpace(s));
  }

  lemma TrimStep(s: string)
    ensures TrimSpace(s) ==
            if SpaceWidth(s) > 0 then TrimSpace(s[SpaceWidth(s)..])
            else if SpaceWidthEnd(s) > 0 then TrimSpace(s[..|s| - SpaceWidthEnd(s)])
            else s
    ensures Blank("") && (s != "" && SpaceWidth(s) == 0 ==> !Blank(s))
    ensures SpaceWidth(s) > 0 ==> (Blank(s) <==> Blank(s[SpaceWidth(s)..]))
  {
  }

  /** Trimming takes nothing but white space, from the ends, and leaves nothing exactly of blank text. */
  lemma {:induction false} TrimTakesSpace(s: string) returns (before: string, after: string)
    ensures s == before + TrimSpace(s) + after && Blank(before) && Blank(after)
    ensures TrimSpace(s) == "" <==> Blank(s)
    decreases |s|
  {
    hide SpaceWidth, SpaceWidthEnd, Trimmed, TrimSpace, Blank;
    TrimStep(s);
    var w, e := SpaceWidth(s), SpaceWidthEnd(s);
    if w > 0 {
      before, after := TrimTakesSpace(s[w..]);
      BlankStart(s, w, before);
      Regroup(s[..w], before, TrimSpace(s), after);
      before := s[..w] + before;
    } else if e > 0 {
      var rest, space := s[..|s| - e], s[|s| - e..];
      before, after := TrimTakesSpace(rest);
      SpaceAtEnd(s, |s| - e);
      BlankEnd(after, space);
      Regroup(before, TrimSpace(s), after, space);
      after := after + space;
      assert s == rest + space;
      NoSpaceNotBlank(s, |s| - e);
    } else {
      before, after := "", "";
    }
  }

  lemma Regroup(a: string, b: string, c: string, d: string)
    ensures a + b + c + d == a + (b + c + d) == a + b + (c + d)
  {
  }

  /** No beginning and no end of it is blank. */
  ghost predicate Bare(t: string) {
    && (forall k | 0 < k <= |t| :: !Blank(t[..k]))
    && (forall k | 0 <= k < |t| :: !Blank(t[k..]))
  }

  lemma TrimmedMeans(t: string)
    requires SpaceWidth(t) == 0 && SpaceWidthEnd(t) == 0
    ensures Bare(t)
  {
    forall k | 0 <= k < |t| ensures !Blank(t[k..]) {
      if Blank(t[k..]) {
        BlankEndsInSpace(t[k..]);
        EndKept(t, k);
      }
    }
  }

  lemma {:induction false} BlankEndsInSpace(s: string)
    requires Blank(s) && s != ""
    ensures SpaceWidthEnd(s) > 0
    decreases |s|
  {
    var w := SpaceWidth(s);
    if s[w..] == "" {
      assert s[|s| - 1] == s[w - 1];
    } else {
      BlankEndsInSpace(s[w..]);
      EndKept(s, w);
    }
  }

  lemma EndKept(s: string, k: nat)
    requires k <= |s| && SpaceWidthEnd(s[k..]) > 0
    ensures SpaceWidthEnd(s) > 0
  {
  }

  lemma BlankStart(s: string, w: nat, more: string)
    requires 0 < w == SpaceWidth(s) && Blank(more)
    ensures Blank(s[..w] + more) && s == s[..w] + s[w..]
  {
    var t := s[..w] + more;
    assert SpaceWidth(t) == w;
    assert t[w..] == more;
  }

  lemma WidthKept(a: string, b: string)
    requires SpaceWidth(a) > 0
    ensures SpaceWidth(a + b) == SpaceWidth(a)
  {
  }

  lemma {:induction false} BlankEnd(a: string, space: string)
    requires Blank(a) && space != "" && SpaceWidth(space) == |space|
    ensures Blank(a + space)
    decreases |a|
  {
    hide SpaceWidth;
    if a == "" {
      assert a + space == space;
    } else {
      var w := SpaceWidth(a);
      BlankEnd(a[w..], space);
      WidthKept(a, space);
      assert (a + space)[w..] == a[w..] + space;
    }
  }

  lemma NoSpaceNotBlank(s: string, k: nat)
    requires SpaceWidth(s) == 0 && 0 < |s| - k == SpaceWidthEnd(s)
    ensures !Blank(s) && !Blank(s[..k])
  {
    SpaceAtEnd(s, k);
  }

  /** Blank text holds no printable ASCII character. */
  lemma {:induction false} BlankBytes(s: string, k: nat)
    requires Blank(s) && k < |s|
    ensures s[k] as int <= 32 || s[k] as int >= 128
    decreases |s|
  {
    var w := SpaceWidth(s);
    if k < w {
    } else {
      BlankBytes(s[w..], k - w);
    }
  }
}
