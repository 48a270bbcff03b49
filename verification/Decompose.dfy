/**
 * Splitting a question into sub-questions. Text is UTF-8 bytes, and lower-casing a parameter of which
 * only the effect on ASCII is known: for other text it may change the number of bytes.
 */
module Decompose {
  import opened Ordering
  import opened Text

  // ----- Characters -----

  predicate Ascii(s: string) {
    forall k | 0 <= k < |s| :: s[k] as int < 128
  }

  function LowerChar(c: char): char {
    if 'A' <= c <= 'Z' then (c as int + 32) as char else c
  }

  /** The letters have their small forms; all else stays. */
  lemma LowerMeans(i: nat, c: char)
    ensures i < 26 ==> LowerChar("ABCDEFGHIJKLMNOPQRSTUVWXYZ"[i]) == "abcdefghijklmnopqrstuvwxyz"[i]
    ensures c !in "ABCDEFGHIJKLMNOPQRSTUVWXYZ" ==> LowerChar(c) == c
  {
    var capitals := "ABCDEFGHIJKLMNOPQRSTUVWXYZ";
    assert forall k | 0 <= k < 26 :: capitals[k] as int == 'A' as int + k;
    assert 'A' <= c <= 'Z' ==> capitals[c as int - 'A' as int] == c;
  }

  function Lower(s: string): (l: string)
    ensures |l| == |s| && forall k | 0 <= k < |s| :: l[k] == LowerChar(s[k])
  {
    seq(|s|, k requires 0 <= k < |s| => LowerChar(s[k]))
  }

  /** What is known of lower-casing. */
  ghost predicate LowersAscii(lower: string -> string) {
    forall s | Ascii(s) :: lower(s) == Lower(s)
  }

  /** Whether `sub` stands at `i` in `s`. */
  predicate StandsAt(s: string, sub: string, i: nat) {
    i + |sub| <= |s| && s[i..i + |sub|] == sub
  }

  /** The first place of `sub` in `s`. */
  function Index(s: string, sub: string): (r: Option<nat>)
    ensures r.Some? ==> StandsAt(s, sub, r.value) && forall j: nat | j < r.value :: !StandsAt(s, sub, j)
    ensures r.None? ==> forall j: nat :: !StandsAt(s, sub, j)
  {
    IndexFrom(s, sub, 0)
  }

  function IndexFrom(s: string, sub: string, i: nat): (r: Option<nat>)
    requires forall j: nat | j < i :: !StandsAt(s, sub, j)
    ensures r.Some? ==> StandsAt(s, sub, r.value) && forall j: nat | j < r.value :: !StandsAt(s, sub, j)
    ensures r.None? ==> forall j: nat :: !StandsAt(s, sub, j)
    decreases |s| - i
  {
    if i + |sub| > |s| then None else if StandsAt(s, sub, i) then Some(i) else IndexFrom(s, sub, i + 1)
  }

  // ----- Splitting -----

  /** Whether `sep` stands at `i` in `s`, ignoring case. */
  predicate SepAt(s: string, sep: string, i: nat) {
    i + |sep| <= |s| && Lower(s[i..i + |sep|]) == Lower(sep)
  }

  predicate Contains(s: string, sep: string) {
    exists i: nat :: i <= |s| && SepAt(s, sep, i)
  }

  function FirstSep(s: string, sep: string): (r: Option<nat>)
    ensures r.Some? ==> SepAt(s, sep, r.value) && forall j: nat | j < r.value :: !SepAt(s, sep, j)
    ensures r.None? ==> !Contains(s, sep)
  {
    LowerStands(s, sep);
    Index(Lower(s), Lower(sep))
  }

  lemma LowerStands(s: string, sep: string)
    ensures forall i: nat :: SepAt(s, sep, i) <==> StandsAt(Lower(s), Lower(sep), i)
  {
    forall i: nat ensures SepAt(s, sep, i) <==> StandsAt(Lower(s), Lower(sep), i) {
      assert i + |sep| <= |s| ==> Lower(s[i..i + |sep|]) == Lower(s)[i..i + |sep|];
    }
  }

  /** `s` cut at its separators, taken from the left. */
  function Pieces(s: string, sep: string): (p: seq<string>)
    requires sep != ""
    ensures |p| > 0
    decreases |s|
  {
    match FirstSep(s, sep)
    case None => [s]
    case Some(i) => [s[..i]] + Pieces(s[i + |sep|..], sep)
  }

  /** The separators cut out, as they were written. */
  function Cut(s: string, sep: string): seq<string>
    requires sep != ""
    decreases |s|
  {
    match FirstSep(s, sep)
    case None => []
    case Some(i) => [s[i..i + |sep|]] + Cut(s[i + |sep|..], sep)
  }

  function Weave(pieces: seq<string>, cuts: seq<string>): string
    requires |pieces| == |cuts| + 1
  {
    if cuts == [] then pieces[0] else pieces[0] + cuts[0] + Weave(pieces[1..], cuts[1..])
  }

  lemma WeaveMore(a: string, pieces: seq<string>, c: string, cuts: seq<string>)
    requires |pieces| == |cuts| + 1
    ensures Weave([a] + pieces, [c] + cuts) == a + c + Weave(pieces, cuts)
  {
    assert ([a] + pieces)[1..] == pieces && ([c] + cuts)[1..] == cuts;
  }

  lemma PiecesStep(s: string, sep: string)
    requires sep != ""
    ensures match FirstSep(s, sep)
            case None => Pieces(s, sep) == [s] && Cut(s, sep) == []
            case Some(i) =>
              && Pieces(s, sep) == [s[..i]] + Pieces(s[i + |sep|..], sep)
              && Cut(s, sep) == [s[i..i + |sep|]] + Cut(s[i + |sep|..], sep)
  {
  }

  /** The pieces with the separators between them are the text again. */
  lemma {:induction false} PiecesRebuild(s: string, sep: string)
    requires sep != ""
    ensures |Pieces(s, sep)| == |Cut(s, sep)| + 1 && Weave(Pieces(s, sep), Cut(s, sep)) == s
    decreases |s|
  {
    hide Pieces, Cut, SepAt, Contains;
    PiecesStep(s, sep);
    if FirstSep(s, sep).Some? {
      var i := FirstSep(s, sep).value;
      FirstSepFits(s, sep);
      var rest := s[i + |sep|..];
      PiecesRebuild(rest, sep);
      WeaveMore(s[..i], Pieces(rest, sep), s[i..i + |sep|], Cut(rest, sep));
      assert s == s[..i] + s[i..i + |sep|] + rest;
    } else {
      assert Weave([s], []) == s;
    }
  }

  lemma FirstSepFits(s: string, sep: string)
    ensures FirstSep(s, sep).Some? ==> FirstSep(s, sep).value + |sep| <= |s|
  {
  }

  /** What is cut out is the separator, up to case. */
  lemma {:induction false} CutsAreSeparators(s: string, sep: string)
    requires sep != ""
    ensures forall c | c in Cut(s, sep) :: Lower(c) == Lower(sep)
    decreases |s|
  {
    if FirstSep(s, sep).None? {
    } else {
      CutsAreSeparators(s[FirstSep(s, sep).value + |sep|..], sep);
    }
  }

  /** No piece contains the separator, in any case. */
  lemma {:induction false} PiecesClean(s: string, sep: string)
    requires sep != ""
    ensures forall p | p in Pieces(s, sep) :: !Contains(p, sep)
    decreases |s|
  {
    hide Pieces, Cut, SepAt, Contains;
    PiecesStep(s, sep);
    FirstSepFits(s, sep);
    if FirstSep(s, sep).None? {
    } else {
      var i := FirstSep(s, sep).value;
      PiecesClean(s[i + |sep|..], sep);
      BeforeFirst(s, sep, i);
    }
  }

  lemma BeforeFirst(s: string, sep: string, i: nat)
    requires i <= |s| && forall j: nat | j < i :: !SepAt(s, sep, j)
    requires sep != ""
    ensures !Contains(s[..i], sep)
  {
    forall j: nat | j <= i ensures !SepAt(s[..i], sep, j) {
      if j + |sep| <= i {
        assert s[..i][j..j + |sep|] == s[j..j + |sep|];
        assert !SepAt(s, sep, j);
      }
    }
  }

  // ----- Splitting as the code does -----

  /**
   * `s` from `start` on, cut at the offsets at which separators stand in its lower-cased form `l`; each
   * cut takes `n` bytes. None if an offset lies outside `s` or `l`, where slicing panics.
   */
  function CutAt(s: string, l: string, n: nat, sep: string, start: nat): Option<seq<string>>
    requires n > 0
    decreases |s| + 1 - start
  {
    if start > |l| then None
    else match Index(l[start..], sep)
         case None => if start > |s| then None else Some([s[start..]])
         case Some(i) =>
           if start + i > |s| then None
           else Preceded([s[start..start + i]], CutAt(s, l, n, sep, start + i + n))
  }

  function Preceded(pieces: seq<string>, more: Option<seq<string>>): Option<seq<string>> {
    match more
    case None => None
    case Some(rest) => Some(pieces + rest)
  }

  method SplitCaseInsensitive(s: string, sep: string, lower: string -> string) returns (out: Option<seq<string>>)
    ensures out == if sep == "" then Some([s]) else CutAt(s, lower(s), |sep|, lower(sep), 0)
  {
    hide Index, StandsAt, Preceded;
    if sep == "" {
      return Some([s]);
    }
    var lowerS, lowerSep := lower(s), lower(sep);
    var pieces := [];
    var start := 0;
    NothingPrecedes(CutAt(s, lowerS, |sep|, lowerSep, 0));
    while true
      invariant Preceded(pieces, CutAt(s, lowerS, |sep|, lowerSep, start)) == CutAt(s, lowerS, |sep|, lowerSep, 0)
      decreases |s| + 1 - start
    {
      PrecededNone(pieces);
      if start > |lowerS| {
        return None;
      }
      var idx := Index(lowerS[start..], lowerSep);
      if idx.None? {
        if start > |s| {
          return None;
        }
        return Preceded(pieces, Some([s[start..]]));
      }
      if start + idx.value > |s| {
        return None;
      }
      var piece, next := s[start..start + idx.value], start + idx.value + |sep|;
      PrecededTwice(pieces, [piece], CutAt(s, lowerS, |sep|, lowerSep, next));
      pieces := pieces + [piece];
      start := next;
    }
  }

  lemma PrecededNone(pieces: seq<string>)
    ensures Preceded(pieces, None) == None
  {
  }

  lemma NothingPrecedes(more: Option<seq<string>>)
    ensures Preceded([], more) == more
  {
    if more.Some? {
      assert [] + more.value == more.value;
    }
  }

  lemma PrecededTwice(a: seq<string>, b: seq<string>, more: Option<seq<string>>)
    ensures Preceded(a, Preceded(b, more)) == Preceded(a + b, more)
  {
    if more.Some? {
      assert a + (b + more.value) == a + b + more.value;
    }
  }

  /** The offsets from `start` on at which separators stand in `l`, taken from the left. */
  function Places(l: string, n: nat, sep: string, start: nat): (places: seq<nat>)
    requires n > 0
    ensures forall k | 0 <= k < |places| :: start <= places[k] && places[k] + |sep| <= |l|
    decreases |l| + 1 - start
  {
    if start > |l| then []
    else match Index(l[start..], sep)
         case None => []
         case Some(i) => [start + i] + Places(l, n, sep, start + i + n)
  }

  /** Where the last separator taken ends. */
  function LastEnd(places: seq<nat>, n: nat, start: nat): nat {
    if places == [] then start else places[|places| - 1] + n
  }

  lemma PlacesStep(l: string, n: nat, sep: string, start: nat)
    requires n > 0 && start <= |l|
    ensures match Index(l[start..], sep)
            case None => Places(l, n, sep, start) == []
            case Some(i) =>
              && start + i + |sep| <= |l|
              && Places(l, n, sep, start) == [start + i] + Places(l, n, sep, start + i + n)
  {
  }

  lemma CutAtStep(s: string, l: string, n: nat, sep: string, start: nat)
    requires n > 0 && start <= |l|
    ensures match Index(l[start..], sep)
            case None => CutAt(s, l, n, sep, start) == if start > |s| then None else Some([s[start..]])
            case Some(i) =>
              CutAt(s, l, n, sep, start) ==
              if start + i > |s| then None
              else Preceded([s[start..start + i]], CutAt(s, l, n, sep, start + i + n))
  {
    hide Index;
  }

  /**
   * For a separator whose length lower-casing keeps, slicing panics exactly when the last separator of
   * the lower-cased text ends beyond the text itself.
   */
  lemma {:induction false} SplitPanicsExactly(s: string, l: string, sep: string, start: nat)
    requires sep != "" && start <= |l|
    ensures CutAt(s, l, |sep|, sep, start).None? <==> LastEnd(Places(l, |sep|, sep, start), |sep|, start) > |s|
    decreases |l| - start
  {
    hide CutAt, Places, Index;
    CutAtStep(s, l, |sep|, sep, start);
    PlacesStep(l, |sep|, sep, start);
    match Index(l[start..], sep) {
      case None =>
      case Some(i) =>
        var next := start + i + |sep|;
        SplitPanicsExactly(s, l, sep, next);
        var more := Places(l, |sep|, sep, next);
        assert LastEnd([start + i] + more, |sep|, start) == LastEnd(more, |sep|, next) >= next;
    }
  }

  /** `s` from `start` on without the slices of `n` bytes at the given offsets. */
  function Slices(s: string, n: nat, places: seq<nat>, start: nat): Option<seq<string>> {
    if places == [] then if start > |s| then None else Some([s[start..]])
    else if start <= places[0] <= |s| then
      Preceded([s[start..places[0]]], Slices(s, n, places[1..], places[0] + n))
    else None
  }

  /** The pieces are a matter of the offsets alone. */
  lemma {:induction false} CutAtSlices(s: string, l: string, sep: string, start: nat)
    requires sep != "" && start <= |l|
    ensures CutAt(s, l, |sep|, sep, start) == Slices(s, |sep|, Places(l, |sep|, sep, start), start)
    decreases |l| - start
  {
    hide CutAt, Places, Index, Slices;
    CutAtStep(s, l, |sep|, sep, start);
    PlacesStep(l, |sep|, sep, start);
    match Index(l[start..], sep) {
      case None => SlicesNone(s, |sep|, start);
      case Some(i) =>
        var next := start + i + |sep|;
        CutAtSlices(s, l, sep, next);
        SlicesFirst(s, |sep|, start + i, Places(l, |sep|, sep, next), start);
    }
  }

  lemma SlicesNone(s: string, n: nat, start: nat)
    ensures Slices(s, n, [], start) == if start > |s| then None else Some([s[start..]])
  {
  }

  lemma SlicesFirst(s: string, n: nat, p: nat, more: seq<nat>, start: nat)
    ensures Slices(s, n, [p] + more, start)
            == if start <= p <= |s| then Preceded([s[start..p]], Slices(s, n, more, p + n)) else None
  {
    assert ([p] + more)[1..] == more;
  }

  /** Different offsets give different pieces. */
  lemma {:induction false} SlicesDetermine(s: string, n: nat, a: seq<nat>, b: seq<nat>, start: nat)
    requires Slices(s, n, a, start).Some? && Slices(s, n, a, start) == Slices(s, n, b, start)
    ensures a == b
    decreases |a|
  {
    if a == [] || b == [] {
      SlicesCount(s, n, a, start);
      SlicesCount(s, n, b, start);
    } else {
      var x, y := Slices(s, n, a[1..], a[0] + n).value, Slices(s, n, b[1..], b[0] + n).value;
      var all := Slices(s, n, a, start).value;
      assert all[0] == s[start..a[0]] && all[0] == s[start..b[0]];
      assert all[1..] == x && all[1..] == y;
      SlicesDetermine(s, n, a[1..], b[1..], a[0] + n);
      assert a == [a[0]] + a[1..] && b == [b[0]] + b[1..];
    }
  }

  lemma {:induction false} SlicesCount(s: string, n: nat, places: seq<nat>, start: nat)
    requires Slices(s, n, places, start).Some?
    ensures |Slices(s, n, places, start).value| == |places| + 1
    decreases |places|
  {
    if places == [] {
    } else {
      SlicesCount(s, n, places[1..], places[0] + n);
    }
  }

  /** Cutting `s` at its own separators gives its pieces. */
  lemma {:induction false} OwnPlaces(s: string, sep: string, start: nat)
    requires sep != "" && start <= |s|
    ensures CutAt(s, Lower(s), |sep|, Lower(sep), start) == Some(Pieces(s[start..], sep))
    decreases |s| - start
  {
    hide Pieces, SepAt, Contains, Index, CutAt, FirstSep, Lower;
    CutAtStep(s, Lower(s), |sep|, Lower(sep), start);
    var rest := s[start..];
    LowerIndex(s, sep, start);
    PiecesStep(rest, sep);
    FirstSepFits(rest, sep);
    if FirstSep(rest, sep).Some? {
      var i := FirstSep(rest, sep).value;
      OwnPlaces(s, sep, start + i + |sep|);
      Advance(s, sep, start, i);
    }
  }

  lemma LowerIndex(s: string, sep: string, start: nat)
    requires start <= |s|
    ensures Index(Lower(s)[start..], Lower(sep)) == FirstSep(s[start..], sep)
  {
    assert Lower(s)[start..] == Lower(s[start..]);
  }

  lemma Advance(s: string, sep: string, start: nat, i: nat)
    requires start + i + |sep| <= |s|
    ensures s[start..][..i] == s[start..start + i] && s[start..][i + |sep|..] == s[start + i + |sep|..]
  {
  }

  /**
   * The code cuts a text at its separators exactly when they stand at the same offsets in the
   * lower-cased text `l`.
   */
  lemma SplitRightExactly(s: string, sep: string, l: string)
    requires sep != ""
    ensures CutAt(s, l, |sep|, Lower(sep), 0) == Some(Pieces(s, sep)) <==>
            Places(l, |sep|, Lower(sep), 0) == Places(Lower(s), |sep|, Lower(sep), 0)
  {
    var there, here := Places(l, |sep|, Lower(sep), 0), Places(Lower(s), |sep|, Lower(sep), 0);
    CutAtSlices(s, l, Lower(sep), 0);
    CutAtSlices(s, Lower(s), Lower(sep), 0);
    OwnPlaces(s, sep, 0);
    assert s[0..] == s;
    if Slices(s, |sep|, there, 0) == Slices(s, |sep|, here, 0) {
      SlicesDetermine(s, |sep|, here, there, 0);
    }
  }

  /** So it does for ASCII text. */
  lemma AsciiSplitsRight(s: string, sep: string, lower: string -> string)
    requires LowersAscii(lower) && Ascii(s) && Ascii(sep) && sep != ""
    ensures CutAt(s, lower(s), |sep|, lower(sep), 0) == Some(Pieces(s, sep))
  {
    SplitRightExactly(s, sep, lower(s));
  }

  /** The slices cut out at the given offsets. */
  function Removed(s: string, n: nat, places: seq<nat>): seq<string>
    requires forall k | 0 <= k < |places| :: places[k] + n <= |s|
  {
    seq(|places|, k requires 0 <= k < |places| => s[places[k]..places[k] + n])
  }

  /** Whatever the offsets, the pieces with the slices cut out between them are the text again. */
  lemma {:induction false} NothingLost(s: string, n: nat, places: seq<nat>, start: nat)
    requires start <= |s| && Slices(s, n, places, start).Some?
    ensures forall k | 0 <= k < |places| :: places[k] + n <= |s|
    ensures |Slices(s, n, places, start).value| == |places| + 1
    ensures Weave(Slices(s, n, places, start).value, Removed(s, n, places)) == s[start..]
    decreases |places|
  {
    hide Slices, Weave;
    SlicesCount(s, n, places, start);
    if places == [] {
      SlicesNone(s, n, start);
      WeaveOne(s[start..]);
      assert Removed(s, n, places) == [];
    } else {
      var p, more := places[0], places[1..];
      assert places == [p] + more;
      SlicesFirst(s, n, p, more, start);
      SlicesFit(s, n, more, p + n);
      NothingLost(s, n, more, p + n);
      var pieces := Slices(s, n, more, p + n).value;
      assert Removed(s, n, places) == [s[p..p + n]] + Removed(s, n, more);
      WeaveMore(s[start..p], pieces, s[p..p + n], Removed(s, n, more));
      assert s[start..] == s[start..p] + s[p..p + n] + s[p + n..];
    }
  }

  lemma WeaveOne(piece: string)
    ensures Weave([piece], []) == piece
  {
  }

  lemma SlicesFit(s: string, n: nat, places: seq<nat>, start: nat)
    requires Slices(s, n, places, start).Some?
    ensures start <= |s|
  {
  }

  lemma MissingByte(l: string, sep: string, c: char)
    requires c in sep && c !in l
    ensures Index(l, sep).None?
  {
    var k :| 0 <= k < |sep| && sep[k] == c;
    forall i: nat ensures !StandsAt(l, sep, i) {
      if i + |sep| <= |l| {
        assert l[i..i + |sep|][k] == l[i + k];
      }
    }
  }

  /**
   * Lower-casing the Kelvin sign, three bytes, gives a single "k". The text is then cut inside the sign
   * and inside the separator.
   */
  lemma KelvinMiscut()
    ensures CutAt("\U{E2}\U{84}\U{AA} and x", "k and x", 5, " and ", 0) == Some(["\U{E2}", "d x"])
  {
    var s, l, sep := "\U{E2}\U{84}\U{AA} and x", "k and x", " and ";
    assert l[1..6] == sep && StandsAt(l, sep, 1);
    assert !StandsAt(l, sep, 0) by {
      assert l[0..5][0] == 'k';
    }
    assert l[0..] == l && Index(l, sep) == Some(1);
    assert l[6..] == "x";
    MissingByte("x", sep, 'a');
    assert CutAt(s, l, 5, sep, 6) == Some([s[6..]]);
    assert s[6..] == "d x" && s[0..1] == "\U{E2}";
    assert CutAt(s, l, 5, sep, 0) == Preceded([s[0..1]], CutAt(s, l, 5, sep, 6));
    assert [s[0..1]] + [s[6..]] == ["\U{E2}", "d x"];
  }

  // ----- The heuristic -----

  const SPLITTERS := ["; ", " versus ", " compared to ", " vs. ", " vs ", " and "]

  /** The trimmed pieces that are not blank. */
  function Kept(pieces: seq<string>): (kept: seq<string>)
    ensures forall p | p in kept :: p != "" && Trimmed(p)
  {
    if pieces == [] then []
    else
      var rest := Kept(pieces[..|pieces| - 1]);
      var last := TrimSpace(pieces[|pieces| - 1]);
      if last == "" then rest else rest + [last]
  }

  /** Every piece that is not blank is kept, trimmed, in its place. */
  lemma {:induction false} KeptMeans(p: string, a: seq<string>, b: seq<string>)
    ensures Kept([p]) == if Blank(p) then [] else [TrimSpace(p)]
    ensures Kept(a + b) == Kept(a) + Kept(b)
    decreases |b|
  {
    var before, after := TrimTakesSpace(p);
    assert [p][..0] == [] && Kept([]) == [];
    if b == [] {
      assert a + b == a;
    } else {
      var n := |b| - 1;
      KeptMeans(p, a, b[..n]);
      assert (a + b)[..|a + b| - 1] == a + b[..n];
    }
  }

  function Suffixed(pieces: seq<string>, suffix: string): (s: seq<string>)
    ensures |s| == |pieces| && forall k | 0 <= k < |s| :: s[k] == pieces[k] + suffix
  {
    seq(|pieces|, k requires 0 <= k < |pieces| => pieces[k] + suffix)
  }

  /** Splitting a trimmed text by a separator gives at least two parts. */
  predicate Splits(text: string, sep: string)
    requires sep != ""
  {
    |Kept(Pieces(text, sep))| >= 2
  }

  function Count(text: string, c: char): nat {
    if text == "" then 0 else Count(text[..|text| - 1], c) + if text[|text| - 1] == c then 1 else 0
  }

  lemma {:induction false} CountMeans(text: string, c: char)
    ensures Count(text, c) == multiset(text)[c]
  {
    if text == "" {
    } else {
      CountMeans(text[..|text| - 1], c);
      assert text == text[..|text| - 1] + [text[|text| - 1]];
    }
  }

  /** Several question marks, with something around them. */
  predicate SeveralQuestions(text: string) {
    Count(text, '?') >= 2 && Splits(text, "?")
  }

  /** The text cut at the `k`-th separator; none if that panics. */
  function Parts(text: string, lower: string -> string, k: nat): Option<seq<string>>
    requires k < |SPLITTERS|
  {
    match CutAt(text, lower(text), |SPLITTERS[k]|, lower(SPLITTERS[k]), 0)
    case None => None
    case Some(pieces) => Some(Kept(pieces))
  }

  predicate Decides(text: string, lower: string -> string, k: nat) {
    k < |SPLITTERS| && (Parts(text, lower, k).None? || |Parts(text, lower, k).value| >= 2)
  }

  predicate FirstDecider(text: string, lower: string -> string, k: nat) {
    Decides(text, lower, k) && forall j: nat | j < k :: !Decides(text, lower, j)
  }

  /** `out` is what the first rule that applies makes of the text; none if slicing panics. */
  ghost predicate FirstRule(text: string, lower: string -> string, out: Option<seq<string>>) {
    if text == "" then out == Some([])
    else if SeveralQuestions(text) then out == Some(Suffixed(Kept(Pieces(text, "?")), "?"))
    else
      && (forall k: nat | FirstDecider(text, lower, k) :: out == Parts(text, lower, k))
      && ((forall k: nat :: !FirstDecider(text, lower, k)) ==> out == Some([text]))
  }

  /** The text cut at its own occurrences of a separator, in any case, trimmed and without blank parts. */
  ghost function PartsBetween(text: string, sep: string): seq<string>
    requires sep != ""
  {
    Kept(Pieces(text, sep))
  }

  /** The `k`-th separator is the first that makes two parts or more. */
  ghost predicate FallsApartAt(text: string, k: nat) {
    k < |SPLITTERS| && |PartsBetween(text, SPLITTERS[k])| >= 2
      && forall j: nat | j < k :: |PartsBetween(text, SPLITTERS[j])| < 2
  }

  /**
   * For ASCII text: several question marks decide if there are two parts between them, else the first
   * separator at which the text falls into two parts or more, else the text stays whole.
   */
  lemma AsciiRule(text: string, lower: string -> string, out: Option<seq<string>>)
    requires LowersAscii(lower) && Ascii(text) && text != "" && FirstRule(text, lower, out)
    ensures if multiset(text)['?'] >= 2 && |PartsBetween(text, "?")| >= 2
            then out == Some(Suffixed(PartsBetween(text, "?"), "?"))
            else
              && (forall k: nat | FallsApartAt(text, k) :: out == Some(PartsBetween(text, SPLITTERS[k])))
              && ((forall k: nat :: !FallsApartAt(text, k)) ==> out == Some([text]))
  {
    hide Pieces, Kept, Count, CutAt, Lower, Parts;
    CountMeans(text, '?');
    forall k: nat | k < |SPLITTERS|
      ensures Parts(text, lower, k) == Some(PartsBetween(text, SPLITTERS[k]))
    {
      AsciiParts(text, lower, k);
    }
    assert forall k: nat :: Decides(text, lower, k) <==> k < |SPLITTERS| && |PartsBetween(text, SPLITTERS[k])| >= 2;
    forall k: nat ensures FirstDecider(text, lower, k) <==> FallsApartAt(text, k) {
      assert FallsApartAt(text, k) ==> forall j: nat | j < k :: !Decides(text, lower, j);
    }
  }

  lemma AsciiParts(text: string, lower: string -> string, k: nat)
    requires LowersAscii(lower) && Ascii(text) && k < |SPLITTERS|
    ensures Parts(text, lower, k) == Some(Kept(Pieces(text, SPLITTERS[k])))
  {
    hide Kept, Pieces, CutAt;
    assert Ascii(SPLITTERS[k]);
    AsciiSplitsRight(text, SPLITTERS[k], lower);
  }

  method TrimAll(pieces: seq<string>, suffix: string) returns (out: seq<string>)
    ensures out == Suffixed(Kept(pieces), suffix)
  {
    out := [];
    var i := 0;
    while i < |pieces|
      invariant 0 <= i <= |pieces| && out == Suffixed(Kept(pieces[..i]), suffix)
    {
      assert pieces[..i + 1][..i] == pieces[..i];
      var r := TrimSpace(pieces[i]);
      if r != "" {
        out := out + [r + suffix];
      }
      i := i + 1;
    }
    assert pieces[..i] == pieces;
  }

  lemma NoSuffix(pieces: seq<string>)
    ensures Suffixed(pieces, "") == pieces
  {
    forall k | 0 <= k < |pieces| ensures pieces[k] + "" == pieces[k] {
    }
  }

  lemma AskedAll(parts: seq<string>)
    ensures |Suffixed(parts, "?")| == |parts|
  {
  }

  method SplitHeuristic(question: string, lower: string -> string) returns (out: Option<seq<string>>)
    requires LowersAscii(lower)
    ensures FirstRule(TrimSpace(question), lower, out)
  {
    out := SplitTrimmed(TrimSpace(question), lower);
  }

  method SplitTrimmed(text: string, lower: string -> string) returns (out: Option<seq<string>>)
    requires LowersAscii(lower)
    ensures FirstRule(text, lower, out)
  {
    hide Decides, LowersAscii, Pieces, Kept, Count, Suffixed;
    if text == "" {
      return Some([]);
    }
    if Count(text, '?') >= 2 {
      var questions := TrimAll(Pieces(text, "?"), "?");
      AskedAll(Kept(Pieces(text, "?")));
      if |questions| >= 2 {
        return Some(questions);
      }
    }
    var lowered := lower(text);
    var k := 0;
    while k < |SPLITTERS|
      invariant 0 <= k <= |SPLITTERS|
      invariant forall j: nat | j < k :: !Decides(text, lower, j)
    {
      if Index(lowered, SPLITTERS[k]).Some? {
        var parts := PartsAt(text, lower, k);
        if parts.None? || |parts.value| >= 2 {
          DecidesFirst(text, lower, k);
          return parts;
        }
      }
      NoSepNoDecision(text, lower, k);
      k := k + 1;
    }
    NobodyDecides(text, lower);
    return Some([text]);
  }

  method PartsAt(text: string, lower: string -> string, k: nat) returns (parts: Option<seq<string>>)
    requires k < |SPLITTERS|
    ensures parts == Parts(text, lower, k)
  {
    var pieces := SplitCaseInsensitive(text, SPLITTERS[k], lower);
    if pieces.None? {
      return None;
    }
    var kept := TrimAll(pieces.value, "");
    NoSuffix(Kept(pieces.value));
    return Some(kept);
  }

  lemma NoSepNoDecision(text: string, lower: string -> string, k: nat)
    requires LowersAscii(lower) && k < |SPLITTERS|
    ensures Index(lower(text), SPLITTERS[k]).None? ==> !Decides(text, lower, k)
    ensures Parts(text, lower, k).Some? && |Parts(text, lower, k).value| < 2 ==> !Decides(text, lower, k)
  {
    var sep := SPLITTERS[k];
    assert Ascii(sep) && Lower(sep) == sep;
    assert lower(text)[0..] == lower(text);
    if Index(lower(text), sep).None? {
      assert CutAt(text, lower(text), |sep|, sep, 0) == Some([text[0..]]);
      assert |Kept([text[0..]])| <= 1;
    }
  }

  lemma DecidesFirst(text: string, lower: string -> string, k: nat)
    requires k < |SPLITTERS| && forall j: nat | j < k :: !Decides(text, lower, j)
    requires Parts(text, lower, k).None? || |Parts(text, lower, k).value| >= 2
    ensures FirstDecider(text, lower, k) && forall j: nat | FirstDecider(text, lower, j) :: j == k
  {
    hide Parts;
    assert Decides(text, lower, k);
    forall j: nat | FirstDecider(text, lower, j) ensures j == k {
      assert !(j < k) && !(k < j);
    }
  }

  lemma NobodyDecides(text: string, lower: string -> string)
    requires forall j: nat | j < |SPLITTERS| :: !Decides(text, lower, j)
    ensures forall j: nat :: !FirstDecider(text, lower, j)
  {
  }

  /**
   * Lower-casing the letter U+023A takes it from two bytes to three. With two of them before a separator
   * the last slice starts beyond the text.
   */
  lemma StrokesPanic(lower: string -> string, out: Option<seq<string>>)
    requires LowersAscii(lower) && FirstRule(STROKES, lower, out) && lower(STROKES) == STROKES_LOWERED
    ensures out.None?
  {
    hide Index, Kept, Pieces, Count, Lower;
    NoneOf(STROKES, '?');
    StrokesOthers(lower);
    StrokesCut();
    assert FirstDecider(STROKES, lower, 5);
  }

  const STROKES := "\U{C8}\U{BA}\U{C8}\U{BA} and x"
  const STROKES_LOWERED := "\U{E2}\U{B1}\U{A5}\U{E2}\U{B1}\U{A5} and x"

  lemma {:induction false} NoneOf(text: string, c: char)
    requires c !in text
    ensures Count(text, c) == 0
  {
    if text == "" {
    } else {
      NoneOf(text[..|text| - 1], c);
    }
  }

  lemma StrokesOthers(lower: string -> string)
    requires LowersAscii(lower) && lower(STROKES) == STROKES_LOWERED
    ensures forall k: nat | k < 5 :: !Decides(STROKES, lower, k)
    ensures lower(SPLITTERS[5]) == " and "
  {
    hide Index, Kept, Decides, Lower;
    MissingByte(STROKES_LOWERED, SPLITTERS[0], ';');
    MissingByte(STROKES_LOWERED, SPLITTERS[1], 'v');
    MissingByte(STROKES_LOWERED, SPLITTERS[2], 'c');
    MissingByte(STROKES_LOWERED, SPLITTERS[3], 'v');
    MissingByte(STROKES_LOWERED, SPLITTERS[4], 'v');
    forall k: nat | k < 5 ensures !Decides(STROKES, lower, k) {
      NoSepNoDecision(STROKES, lower, k);
    }
    LowersAnd(lower);
  }

  lemma LowersAnd(lower: string -> string)
    requires LowersAscii(lower)
    ensures lower(" and ") == " and "
  {
    assert Ascii(" and ") && Lower(" and ") == " and ";
  }

  lemma StrokesCut()
    ensures CutAt(STROKES, STROKES_LOWERED, 5, " and ", 0).None?
  {
    var l, sep := STROKES_LOWERED, " and ";
    assert l[6..11] == sep && StandsAt(l, sep, 6);
    forall j: nat | j < 6 ensures !StandsAt(l, sep, j) {
      assert l[j] != ' ' && l[j..j + 5][0] == l[j];
    }
    assert l[0..] == l && Index(l, sep) == Some(6);
    assert l[11..] == "x";
    MissingByte("x", sep, 'a');
    assert CutAt(STROKES, l, 5, sep, 11).None?;
  }

  // ----- Sub-questions -----

  datatype SubQuestion = SubQuestion(index: nat, text: string)

  function Capped(qs: seq<SubQuestion>, n: int): seq<SubQuestion> {
    if n <= 0 || |qs| <= n then qs else qs[..n]
  }

  /**
   * Unless slicing panics: at least one sub-question for a question that is not blank, each of them
   * trimmed and not empty, numbered from 0, and no more than a positive cap allows.
   */
  method Decompose(question: string, maxSubQuestions: int, lower: string -> string)
    returns (qs: Option<seq<SubQuestion>>, ghost parts: Option<seq<string>>)
    requires LowersAscii(lower)
    ensures FirstRule(TrimSpace(question), lower, parts)
    ensures qs.None? <==> parts.None?
    ensures qs == Some([]) <==> Blank(question)
    ensures qs.Some? ==>
              && Numbered(qs.value, parts.value)
              && |qs.value| == (if 0 < maxSubQuestions < |parts.value| then maxSubQuestions else |parts.value|)
              && forall k | 0 <= k < |qs.value| :: qs.value[k].text != "" && Trimmed(qs.value[k].text)
  {
    hide FirstRule, Trimmed, Blank, LowersAscii;
    ghost var before, after := TrimTakesSpace(question);
    var all := SplitHeuristic(question, lower);
    parts := all;
    PartsSound(TrimSpace(question), lower, parts);
    if all.None? {
      return None, parts;
    }
    var numbered := Number(all.value);
    qs := Some(Capped(numbered, maxSubQuestions));
  }

  method Number(parts: seq<string>) returns (qs: seq<SubQuestion>)
    ensures |qs| == |parts| && Numbered(qs, parts)
  {
    qs := [];
    var i := 0;
    while i < |parts|
      invariant 0 <= i <= |parts| && |qs| == i && Numbered(qs, parts)
    {
      qs := qs + [SubQuestion(i, parts[i])];
      i := i + 1;
    }
  }

  /** Sub-questions in order are a prefix of the parts. */
  ghost predicate Numbered(qs: seq<SubQuestion>, parts: seq<string>) {
    |qs| <= |parts| && forall k | 0 <= k < |qs| :: qs[k] == SubQuestion(k, parts[k])
  }

  ghost predicate SoundParts(parts: seq<string>) {
    forall k | 0 <= k < |parts| :: parts[k] != "" && Trimmed(parts[k])
  }

  lemma KeptSound(pieces: seq<string>)
    ensures SoundParts(Kept(pieces))
  {
    forall k | 0 <= k < |Kept(pieces)| ensures Kept(pieces)[k] != "" && Trimmed(Kept(pieces)[k]) {
      assert Kept(pieces)[k] in Kept(pieces);
    }
  }

  lemma AskedSound(parts: seq<string>)
    requires SoundParts(parts)
    ensures SoundParts(Suffixed(parts, "?")) && |Suffixed(parts, "?")| == |parts|
  {
    forall k | 0 <= k < |parts| ensures Trimmed(parts[k] + "?") {
      TrimmedAsked(parts[k]);
    }
  }

  lemma TrimmedAsked(p: string)
    requires p != "" && Trimmed(p)
    ensures Trimmed(p + "?")
  {
    var q := p + "?";
    assert q[0] == p[0] && (|p| >= 2 ==> q[1] == p[1]) && (|p| >= 3 ==> q[2] == p[2]);
  }

  lemma PartsSound(text: string, lower: string -> string, parts: Option<seq<string>>)
    requires Trimmed(text) && FirstRule(text, lower, parts)
    ensures parts.Some? ==> SoundParts(parts.value)
    ensures parts == Some([]) <==> text == ""
  {
    hide Kept, Pieces, Suffixed, Count, CutAt, Trimmed;
    if text != "" {
      if SeveralQuestions(text) {
        KeptSound(Pieces(text, "?"));
        AskedSound(Kept(Pieces(text, "?")));
      } else if k: nat :| FirstDecider(text, lower, k) {
        if parts.Some? {
          KeptSound(CutAt(text, lower(text), |SPLITTERS[k]|, lower(SPLITTERS[k]), 0).value);
        }
      }
    }
  }

  /** Splitting is final: no part made by a conjunction still splits at it. */
  lemma PartsDoNotSplitAgain(text: string, sep: string, p: string)
    requires sep != "" && p in Kept(Pieces(text, sep))
    ensures !Contains(p, sep) && !Splits(p, sep)
  {
    PiecesClean(text, sep);
    KeptFrom(Pieces(text, sep), p, sep);
    assert FirstSep(p, sep).None?;
    assert Pieces(p, sep) == [p];
    assert |Kept([p])| <= 1;
  }

  lemma {:induction false} KeptFrom(pieces: seq<string>, p: string, sep: string)
    requires p in Kept(pieces) && sep != "" && forall q | q in pieces :: !Contains(q, sep)
    ensures !Contains(p, sep)
  {
    var n := |pieces| - 1;
    if p in Kept(pieces[..n]) {
      KeptFrom(pieces[..n], p, sep);
    } else {
      TrimmedClean(pieces[n], sep);
    }
  }

  lemma TrimmedClean(q: string, sep: string)
    requires !Contains(q, sep)
    ensures !Contains(TrimSpace(q), sep)
  {
    hide Lower, Trimmed;
    var p := TrimSpace(q);
    var before, after := TrimTakesSpace(q);
    forall i: nat | i <= |p| ensures !SepAt(p, sep, i) {
      if i + |sep| <= |p| {
        Within(before, p, after, i, |sep|);
        assert !SepAt(q, sep, |before| + i);
      }
    }
  }

  lemma Within(before: string, p: string, after: string, i: nat, n: nat)
    requires i + n <= |p|
    ensures (before + p + after)[|before| + i..|before| + i + n] == p[i..i + n]
  {
  }
}
