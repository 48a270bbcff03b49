/**
 * The calculator tool: a recursive-descent parser that evaluates while it parses, the grammar it
 * accepts, and the tree evaluator it agrees with. Numbers are exact rationals.
 */
module Calculator {
  import opened Ordering
  import Text

  /** Concrete syntax, each node carrying the position of its operator, bracket or first digit. */
  datatype Tree =
    | Num(at: nat, text: string)
    | Neg(at: nat, operand: Tree)
    | Plus(at: nat, operand: Tree)
    | Group(at: nat, body: Tree, close: nat)
    | Bin(at: nat, op: char, left: Tree, right: Tree)

  datatype CalcError = Required | UnexpectedEnd | MissingParen | ExpectedNumber(at: nat) | BadNumber | DivisionByZero
    | UnexpectedInput(at: nat)

  // ----- Characters and numerals -----

  predicate IsSpace(c: char) {
    9 <= c as int <= 13 || c as int == 0x20 || c as int == 0x85 || c as int == 0xA0
  }

  predicate IsDigit(c: char) {
    '0' <= c <= '9'
  }

  predicate IsNumeral(c: char) {
    IsDigit(c) || c == '.'
  }

  function Digits(s: string): int {
    if s == "" then 0 else 10 * Digits(s[..|s| - 1]) + (s[|s| - 1] as int - '0' as int)
  }

  function Power10(n: nat): (r: nat)
    ensures r > 0
  {
    if n == 0 then 1 else 10 * Power10(n - 1)
  }

  function IndexOf(s: string, c: char): (i: nat)
    ensures i <= |s|
    ensures forall j | 0 <= j < i :: s[j] != c
    ensures i < |s| ==> s[i] == c
  {
    if s == "" || s[0] == c then 0 else 1 + IndexOf(s[1..], c)
  }

  /** A run of digits and dots as a number: at least one digit, at most one dot. */
  function ParseFloat(s: string): Option<real> {
    var dot := IndexOf(s, '.');
    var whole := s[..dot];
    var fraction := if dot < |s| then s[dot + 1..] else "";
    if '.' in fraction || whole + fraction == "" then None
    else Some(Digits(whole + fraction) as real / Power10(|fraction|) as real)
  }

  // ----- Grammar -----

  /** Where the text of a tree ends. */
  function End(t: Tree): nat {
    match t
    case Num(at, text) => at + |text|
    case Neg(_, e) => End(e)
    case Plus(_, e) => End(e)
    case Group(_, _, close) => close + 1
    case Bin(_, _, _, r) => End(r)
  }

  /** Only white space between `i` and `j`. */
  ghost predicate Gap(s: string, i: nat, j: nat) {
    i <= j <= |s| && forall k | i <= k < j :: IsSpace(s[k])
  }

  /** The token `c` at `k`, after optional white space from `i`. */
  ghost predicate TokenAt(s: string, i: nat, k: nat, c: char) {
    Gap(s, i, k) && k < |s| && s[k] == c
  }

  ghost predicate NumberAt(s: string, i: nat, k: nat, text: string) {
    && Gap(s, i, k) && k + |text| <= |s| && s[k..k + |text|] == text
    && (forall n | k <= n < k + |text| :: IsNumeral(s[n]))
    && ParseFloat(text).Some?
  }

  ghost predicate Additive(c: char) { c == '+' || c == '-' }

  ghost predicate Multiplicative(c: char) { c == '*' || c == '/' }

  ghost predicate Operator(c: char) { Additive(c) || Multiplicative(c) }

  const EXPR := 0
  const TERM := 1
  const FACTOR := 2

  /** The level at which an operator's phrase stands. */
  ghost function Level(op: char): nat { if Additive(op) then EXPR else TERM }

  /**
   * `t` is the phrase of the given level starting at `i`. Expressions are terms joined by additive
   * operators, terms are factors joined by multiplicative ones, both grouping to the left; a factor is
   * a signed factor, a bracketed expression or a number. White space may stand before any token.
   */
  ghost predicate Derives(level: nat, t: Tree, s: string, i: nat)
    decreases t, 1
  {
    match t
    case Num(at, text) => NumberAt(s, i, at, text)
    case Neg(at, e) => TokenAt(s, i, at, '-') && Derives(FACTOR, e, s, at + 1)
    case Plus(at, e) => TokenAt(s, i, at, '+') && Derives(FACTOR, e, s, at + 1)
    case Group(at, e, close) => TokenAt(s, i, at, '(') && Derives(EXPR, e, s, at + 1) && TokenAt(s, End(e), close, ')')
    case Bin(_, op, _, _) => Operator(op) && level <= Level(op) && Operation(Level(op), t, s, i)
  }

  ghost predicate Operation(level: nat, t: Tree, s: string, i: nat)
    requires t.Bin?
    decreases t, 0
  {
    Derives(level, t.left, s, i) && TokenAt(s, End(t.left), t.at, t.op) && Derives(level + 1, t.right, s, t.at + 1)
  }

  /** The whole string is the expression `t`, up to surrounding white space. */
  ghost predicate Sentence(t: Tree, s: string) {
    Derives(EXPR, t, s, 0) && Gap(s, End(t), |s|)
  }

  /** The value of a tree; none when some divisor in it is zero. */
  ghost function Eval(t: Tree): Option<real> {
    match t
    case Num(_, text) => ParseFloat(text)
    case Neg(_, e) => Negated(Eval(e))
    case Plus(_, e) => Eval(e)
    case Group(_, e, _) => Eval(e)
    case Bin(_, op, l, r) => Apply(op, Eval(l), Eval(r))
  }

  ghost function Negated(v: Option<real>): Option<real> {
    match v
    case Some(x) => Some(-x)
    case None => None
  }

  ghost function Times(x: real, y: real): real { x * y }

  ghost function Apply(op: char, l: Option<real>, r: Option<real>): Option<real> {
    if l.None? || r.None? then None
    else if op == '+' then Some(l.value + r.value)
    else if op == '-' then Some(l.value - r.value)
    else if op == '*' then Some(Times(l.value, r.value))
    else if op == '/' && r.value != 0.0 then Some(l.value / r.value)
    else None
  }

  lemma Worth(op: char, l: real, r: real, v: real)
    requires (op == '*' && v == l * r) || (op == '/' && r != 0.0 && v == l / r)
    ensures Apply(op, Some(l), Some(r)) == Some(v)
  {
  }

  lemma BinaryMeaning(k: nat, op: char, left: Tree, right: Tree)
    ensures End(Bin(k, op, left, right)) == End(right)
    ensures Eval(Bin(k, op, left, right)) == Apply(op, Eval(left), Eval(right))
  {
    hide Apply;
  }

  // ----- Parsing to a tree -----

  datatype Parse = Parsed(tree: Tree, pos: nat) | Rejected

  ghost function Skip(s: string, i: nat): (j: nat)
    requires i <= |s|
    ensures i <= j <= |s|
    decreases |s| - i
  {
    if i < |s| && IsSpace(s[i]) then Skip(s, i + 1) else i
  }

  ghost function NumberEnd(s: string, i: nat): (j: nat)
    requires i <= |s|
    ensures i <= j <= |s|
    decreases |s| - i
  {
    if i < |s| && IsNumeral(s[i]) then NumberEnd(s, i + 1) else i
  }

  /** Reads a phrase of the given level. */
  ghost function Phrase(level: nat, s: string, i: nat): (r: Parse)
    requires i <= |s| && level <= FACTOR
    ensures r.Parsed? ==> i < r.pos <= |s|
    decreases |s| - i, 1 + FACTOR - level
  {
    if level < FACTOR then
      match Phrase(level + 1, s, i)
      case Rejected => Rejected
      case Parsed(t, j) => More(level, s, t, j)
    else
      var k := Skip(s, i);
      if k == |s| then Rejected
      else if s[k] == '-' || s[k] == '+' then
        match Phrase(FACTOR, s, k + 1)
        case Rejected => Rejected
        case Parsed(e, j) => Parsed(if s[k] == '-' then Neg(k, e) else Plus(k, e), j)
      else if s[k] == '(' then
        match Phrase(EXPR, s, k + 1)
        case Rejected => Rejected
        case Parsed(e, j) => Closed(s, k, e, j)
      else Numeral(s, k)
  }

  ghost function Closed(s: string, k: nat, e: Tree, j: nat): (r: Parse)
    requires k < j <= |s|
    ensures r.Parsed? ==> k < r.pos <= |s|
  {
    var m := Skip(s, j);
    if m < |s| && s[m] == ')' then Parsed(Group(k, e, m), m + 1) else Rejected
  }

  ghost function Numeral(s: string, k: nat): (r: Parse)
    requires k <= |s|
    ensures r.Parsed? ==> k < r.pos <= |s|
  {
    var j := NumberEnd(s, k);
    if j > k && ParseFloat(s[k..j]).Some? then Parsed(Num(k, s[k..j]), j) else Rejected
  }

  /** Reads on while operators of the given level follow. */
  ghost function More(level: nat, s: string, left: Tree, i: nat): (r: Parse)
    requires i <= |s| && level < FACTOR
    ensures r.Parsed? ==> i <= r.pos <= |s|
    decreases |s| - i, 0
  {
    var k := Skip(s, i);
    if k < |s| && Operator(s[k]) && Level(s[k]) == level then
      match Phrase(level + 1, s, k + 1)
      case Rejected => Rejected
      case Parsed(right, j) => More(level, s, Bin(k, s[k], left, right), j)
    else
      Parsed(left, k)
  }

  // ----- The parser finds exactly the derivations -----

  /** No numeral continues past `i`. */
  ghost predicate Boundary(s: string, i: nat) {
    i <= |s| && (i == |s| || !IsNumeral(s[i]))
  }

  lemma {:induction false} SkipSound(s: string, i: nat)
    requires i <= |s|
    ensures Gap(s, i, Skip(s, i))
    ensures Skip(s, i) == |s| || !IsSpace(s[Skip(s, i)])
    decreases |s| - i
  {
    if i < |s| && IsSpace(s[i]) {
      SkipSound(s, i + 1);
    }
  }

  lemma {:induction false} NumberEndSound(s: string, i: nat)
    requires i <= |s|
    ensures forall k | i <= k < NumberEnd(s, i) :: IsNumeral(s[k])
    ensures Boundary(s, NumberEnd(s, i))
    decreases |s| - i
  {
    if i < |s| && IsNumeral(s[i]) {
      NumberEndSound(s, i + 1);
    }
  }

  lemma {:induction false} SkipIs(s: string, i: nat, k: nat)
    requires Gap(s, i, k) && (k == |s| || !IsSpace(s[k]))
    ensures Skip(s, i) == k
    decreases k - i
  {
    if i == k {
    } else {
      SkipIs(s, i + 1, k);
    }
  }

  lemma {:induction false} NumberEndIs(s: string, i: nat, j: nat)
    requires i <= j && Boundary(s, j) && forall k | i <= k < j :: IsNumeral(s[k])
    ensures NumberEnd(s, i) == j
    decreases j - i
  {
    if i == j {
    } else {
      NumberEndIs(s, i + 1, j);
    }
  }

  /** Neither a numeral nor an operator of a higher level than `level` continues at `j`. */
  ghost predicate Ends(level: int, s: string, j: nat) {
    Boundary(s, j) && (Skip(s, j) == |s| || !Operator(s[Skip(s, j)]) || Level(s[Skip(s, j)]) <= level)
  }

  /** Skipping white space again does nothing, so reading on may resume before or after it. */
  lemma MoreAfterGap(level: nat, s: string, t: Tree, j: nat, k: nat)
    requires level < FACTOR && Gap(s, j, k)
    ensures More(level, s, t, k) == More(level, s, t, j)
  {
    SkipJoin(s, j, k);
  }

  lemma {:induction false} SkipJoin(s: string, j: nat, k: nat)
    requires Gap(s, j, k)
    ensures Skip(s, j) == Skip(s, k)
    decreases k - j
  {
    if j == k {
    } else {
      SkipJoin(s, j + 1, k);
    }
  }

  lemma MoreReads(level: nat, s: string, left: Tree, j: nat, right: Tree, q: nat)
    requires level < FACTOR && j <= |s|
    requires var k := Skip(s, j);
      && k < |s| && Operator(s[k]) && Level(s[k]) == level
      && Phrase(level + 1, s, k + 1) == Parsed(right, q)
    ensures More(level, s, left, j) == More(level, s, Bin(Skip(s, j), s[Skip(s, j)], left, right), q)
  {
  }

  // Completeness: what the grammar derives, the parser reads.

  /** Reading `t` at level `level` leaves only further operators of that level to read. */
  ghost predicate Reads(level: nat, t: Tree, s: string, i: nat)
    requires i <= |s| && level <= FACTOR && i < End(t) <= |s|
  {
    Phrase(level, s, i) == if level < FACTOR then More(level, s, t, End(t)) else Parsed(t, End(t))
  }

  lemma {:induction false} DerivesInBounds(level: nat, t: Tree, s: string, i: nat)
    requires Derives(level, t, s, i)
    ensures i < End(t) <= |s|
    decreases t
  {
    match t {
      case Num(_, text) =>
        assert text != "";
      case Neg(at, e) => DerivesInBounds(FACTOR, e, s, at + 1);
      case Plus(at, e) => DerivesInBounds(FACTOR, e, s, at + 1);
      case Group(at, e, _) => DerivesInBounds(EXPR, e, s, at + 1);
      case Bin(at, op, l, r) =>
        DerivesInBounds(Level(op), l, s, i);
        DerivesInBounds(Level(op) + 1, r, s, at + 1);
    }
  }

  lemma {:induction false} Completeness(level: nat, t: Tree, s: string, i: nat)
    requires Derives(level, t, s, i) && level <= FACTOR && Ends(level, s, End(t))
    ensures i < End(t) <= |s| && Reads(level, t, s, i)
    decreases t, 1 + FACTOR - level
  {
    hide Phrase, More, Skip, Derives, End, Gap, Reads, Ends, Level, Operator;
    DerivesInBounds(level, t, s, i);
    if level == FACTOR {
      FactorReads(t, s, i);
    } else if t.Bin? && Level(t.op) == level {
      BinComplete(t, s, i);
    } else {
      Relevel(level, t, s, i);
      Completeness(level + 1, t, s, i);
      Descend(level, t, s, i);
    }
  }

  lemma {:induction false} FactorReads(t: Tree, s: string, i: nat)
    requires Derives(FACTOR, t, s, i) && Ends(FACTOR, s, End(t)) && i < End(t) <= |s|
    ensures Reads(FACTOR, t, s, i)
    decreases t, 0, 1
  {
    FactorComplete(t, s, i);
  }

  lemma Relevel(level: nat, t: Tree, s: string, i: nat)
    requires Derives(level, t, s, i) && !(t.Bin? && Level(t.op) == level) && level < FACTOR
    ensures Derives(level + 1, t, s, i)
    ensures Ends(level, s, End(t)) ==> Ends(level + 1, s, End(t))
  {
  }

  lemma Descend(level: nat, t: Tree, s: string, i: nat)
    requires level < FACTOR && i < End(t) <= |s| && Reads(level + 1, t, s, i) && Ends(level, s, End(t))
    ensures Reads(level, t, s, i)
  {
    if level + 1 < FACTOR {
      MoreStops(level + 1, s, t, End(t));
      SkipSound(s, End(t));
      MoreAfterGap(level, s, t, End(t), Skip(s, End(t)));
    }
  }

  lemma MoreStops(level: nat, s: string, t: Tree, j: nat)
    requires level < FACTOR && j <= |s|
    requires var k := Skip(s, j); k == |s| || !Operator(s[k]) || Level(s[k]) != level
    ensures More(level, s, t, j) == Parsed(t, Skip(s, j))
  {
  }

  lemma {:induction false} BinComplete(t: Tree, s: string, i: nat)
    requires t.Bin? && Derives(Level(t.op), t, s, i) && Ends(Level(t.op), s, End(t))
    ensures i < End(t) <= |s| && Reads(Level(t.op), t, s, i)
    decreases t, 0, 0
  {
    hide Phrase, More, Skip, Derives, End, Ends, Gap, Reads, Level, Operator;
    var level := Level(t.op);
    BinParts(level, t, s, i);
    OperatorEnds(level, s, End(t.left), t.at);
    Completeness(level, t.left, s, i);
    Completeness(level + 1, t.right, s, t.at + 1);
    BinReads(level, t, s, i);
  }

  lemma BinParts(level: nat, t: Tree, s: string, i: nat)
    requires t.Bin? && level == Level(t.op) && Derives(level, t, s, i)
    ensures level <= TERM && Derives(level, t.left, s, i) && Derives(level + 1, t.right, s, t.at + 1)
    ensures Gap(s, End(t.left), t.at) && t.at < |s| && s[t.at] == t.op && Operator(t.op)
    ensures Ends(level, s, End(t)) ==> Ends(level + 1, s, End(t.right))
    ensures End(t) == End(t.right)
  {
  }

  lemma BinReads(level: nat, t: Tree, s: string, i: nat)
    requires t.Bin? && level == Level(t.op) && t.at < |s| && s[t.at] == t.op && Operator(t.op)
    requires i < End(t.left) <= |s| && Reads(level, t.left, s, i) && Skip(s, End(t.left)) == t.at
    requires t.at + 1 < End(t.right) <= |s| && Reads(level + 1, t.right, s, t.at + 1) && Ends(level, s, End(t.right))
    ensures i < End(t) && Reads(level, t, s, i)
  {
    hide Phrase, More, Skip, Ends, Gap;
    RightOperand(level, t.right, s, t.at + 1);
    var q := Phrase(level + 1, s, t.at + 1).pos;
    MoreReads(level, s, t.left, End(t.left), t.right, q);
    MoreAfterGap(level, s, t, End(t), q);
  }

  /** An operand on the right of an operator is read up to where its text, or the space after it, ends. */
  lemma RightOperand(level: nat, t: Tree, s: string, i: nat)
    requires level < FACTOR && i < End(t) <= |s| && Reads(level + 1, t, s, i) && Ends(level, s, End(t))
    ensures Phrase(level + 1, s, i).Parsed? && Phrase(level + 1, s, i).tree == t
    ensures Gap(s, End(t), Phrase(level + 1, s, i).pos)
  {
    if level + 1 < FACTOR {
      MoreStops(level + 1, s, t, End(t));
      SkipSound(s, End(t));
    }
  }

  lemma OperatorEnds(level: nat, s: string, j: nat, k: nat)
    requires Gap(s, j, k) && k < |s| && Operator(s[k]) && Level(s[k]) == level
    ensures Skip(s, j) == k && Ends(level, s, j)
  {
    SkipIs(s, j, k);
  }

  lemma SignFactor(s: string, i: nat, k: nat)
    requires i <= |s| && Skip(s, i) == k < |s| && (s[k] == '-' || s[k] == '+')
    ensures match Phrase(FACTOR, s, k + 1)
            case Rejected => Phrase(FACTOR, s, i) == Rejected
            case Parsed(e, j) => Phrase(FACTOR, s, i) == Parsed(if s[k] == '-' then Neg(k, e) else Plus(k, e), j)
  {
  }

  lemma GroupFactor(s: string, i: nat, k: nat)
    requires i <= |s| && Skip(s, i) == k < |s| && s[k] == '('
    ensures match Phrase(EXPR, s, k + 1)
            case Rejected => Phrase(FACTOR, s, i) == Rejected
            case Parsed(e, j) => Phrase(FACTOR, s, i) == Closed(s, k, e, j)
  {
  }

  lemma NumeralFactor(s: string, i: nat, k: nat)
    requires i <= |s| && Skip(s, i) == k < |s| && s[k] != '-' && s[k] != '+' && s[k] != '('
    ensures Phrase(FACTOR, s, i) == Numeral(s, k)
  {
  }

  lemma FactorParts(t: Tree, s: string, i: nat)
    requires Derives(FACTOR, t, s, i)
    ensures !t.Bin?
    ensures t.Num? ==> NumberAt(s, i, t.at, t.text)
    ensures t.Neg? ==> TokenAt(s, i, t.at, '-') && Derives(FACTOR, t.operand, s, t.at + 1)
    ensures t.Plus? ==> TokenAt(s, i, t.at, '+') && Derives(FACTOR, t.operand, s, t.at + 1)
    ensures t.Group? ==>
              && TokenAt(s, i, t.at, '(') && Derives(EXPR, t.body, s, t.at + 1)
              && TokenAt(s, End(t.body), t.close, ')')
  {
  }

  lemma {:induction false} FactorComplete(t: Tree, s: string, i: nat)
    requires Derives(FACTOR, t, s, i) && Boundary(s, End(t)) && i <= |s|
    ensures Phrase(FACTOR, s, i) == Parsed(t, End(t))
    decreases t, 0, 0
  {
    hide Phrase, More, Skip, Derives, NumberAt;
    FactorParts(t, s, i);
    match t {
      case Num(at, text) => NumberComplete(s, i, at, text);
      case Neg(at, e) =>
        FactorComplete(e, s, at + 1);
        SignReads(s, i, at, e, End(e));
      case Plus(at, e) =>
        FactorComplete(e, s, at + 1);
        SignReads(s, i, at, e, End(e));
      case Group(at, e, close) => GroupComplete(s, i, at, e, close);
    }
  }

  lemma SignReads(s: string, i: nat, k: nat, e: Tree, j: nat)
    requires Gap(s, i, k) && k < |s| && (s[k] == '-' || s[k] == '+') && Phrase(FACTOR, s, k + 1) == Parsed(e, j)
    ensures Phrase(FACTOR, s, i) == Parsed(if s[k] == '-' then Neg(k, e) else Plus(k, e), j)
  {
    hide Phrase, Skip;
    SkipIs(s, i, k);
    SignFactor(s, i, k);
  }

  lemma {:induction false} GroupComplete(s: string, i: nat, k: nat, e: Tree, close: nat)
    requires TokenAt(s, i, k, '(') && Derives(EXPR, e, s, k + 1) && TokenAt(s, End(e), close, ')')
    ensures Phrase(FACTOR, s, i) == Parsed(Group(k, e, close), close + 1)
    decreases e, 4
  {
    SkipIs(s, End(e), close);
    Completeness(EXPR, e, s, k + 1);
    MoreStops(EXPR, s, e, End(e));
    GroupReads(s, i, k, e, close);
  }

  lemma GroupReads(s: string, i: nat, k: nat, e: Tree, close: nat)
    requires TokenAt(s, i, k, '(') && close < |s| && s[close] == ')' && Phrase(EXPR, s, k + 1) == Parsed(e, close)
    ensures Phrase(FACTOR, s, i) == Parsed(Group(k, e, close), close + 1)
  {
    hide Phrase, Skip;
    SkipIs(s, i, k);
    SkipIs(s, close, close);
    GroupFactor(s, i, k);
  }

  lemma NumberComplete(s: string, i: nat, k: nat, text: string)
    requires NumberAt(s, i, k, text) && i <= |s| && Boundary(s, k + |text|)
    ensures Phrase(FACTOR, s, i) == Parsed(Num(k, text), k + |text|)
  {
    hide Skip, NumberEnd;
    assert text != "";
    assert IsNumeral(s[k]);
    SkipIs(s, i, k);
    NumberEndIs(s, k, k + |text|);
  }

  // Soundness: what the parser reads, the grammar derives.

  lemma {:induction false} Soundness(level: nat, s: string, i: nat, t: Tree, j: nat)
    requires i <= |s| && level <= FACTOR && Phrase(level, s, i) == Parsed(t, j)
    ensures Derives(level, t, s, i) && Gap(s, End(t), j)
    ensures level == FACTOR ==> End(t) == j
    decreases |s| - i, 1 + FACTOR - level
  {
    if level < FACTOR {
      var first, m := FirstOperand(level, s, i);
      hide Phrase, More, Derives;
      Soundness(level + 1, s, i, first, m);
      Weaken(level, first, s, i);
      MoreSound(level, s, first, i, m, t, j);
    } else {
      FactorSound(s, i, t, j);
    }
  }

  lemma FirstOperand(level: nat, s: string, i: nat) returns (first: Tree, m: nat)
    requires i <= |s| && level < FACTOR && Phrase(level, s, i).Parsed?
    ensures i < m <= |s| && Phrase(level + 1, s, i) == Parsed(first, m)
    ensures Phrase(level, s, i) == More(level, s, first, m)
  {
    first, m := Phrase(level + 1, s, i).tree, Phrase(level + 1, s, i).pos;
  }

  /** A factor is a term, and a term is an expression. */
  lemma Weaken(level: nat, t: Tree, s: string, i: nat)
    requires Derives(level + 1, t, s, i)
    ensures Derives(level, t, s, i)
  {
  }

  lemma FactorStarts(s: string, i: nat)
    requires i <= |s| && Phrase(FACTOR, s, i).Parsed?
    ensures Skip(s, i) < |s|
  {
  }

  lemma {:induction false} FactorSound(s: string, i: nat, t: Tree, j: nat)
    requires i <= |s| && Phrase(FACTOR, s, i) == Parsed(t, j)
    ensures Derives(FACTOR, t, s, i) && End(t) == j <= |s|
    decreases |s| - i, 0
  {
    hide Phrase, More, Skip, Derives, Closed, Numeral, Gap, End;
    SkipSound(s, i);
    FactorStarts(s, i);
    var k := Skip(s, i);
    if s[k] == '-' || s[k] == '+' {
      SignFactor(s, i, k);
      FactorSound(s, k + 1, t.operand, j);
      SignDerives(s, i, k, t.operand);
    } else if s[k] == '(' {
      GroupFactor(s, i, k);
      var e, q := Phrase(EXPR, s, k + 1).tree, Phrase(EXPR, s, k + 1).pos;
      Soundness(EXPR, s, k + 1, e, q);
      ClosedSound(s, i, k, e, q);
    } else {
      NumeralFactor(s, i, k);
      NumeralSound(s, i, k);
    }
  }

  lemma SignDerives(s: string, i: nat, k: nat, e: Tree)
    requires Gap(s, i, k) && k < |s| && (s[k] == '-' || s[k] == '+') && Derives(FACTOR, e, s, k + 1)
    ensures var t := if s[k] == '-' then Neg(k, e) else Plus(k, e); Derives(FACTOR, t, s, i) && End(t) == End(e)
  {
  }

  lemma ClosedSound(s: string, i: nat, k: nat, e: Tree, j: nat)
    requires Gap(s, i, k) && k < |s| && s[k] == '(' && Derives(EXPR, e, s, k + 1) && Gap(s, End(e), j) && k < j
    requires Closed(s, k, e, j).Parsed?
    ensures Derives(FACTOR, Closed(s, k, e, j).tree, s, i) && End(Closed(s, k, e, j).tree) == Closed(s, k, e, j).pos
  {
    SkipSound(s, j);
  }

  lemma NumeralSound(s: string, i: nat, k: nat)
    requires Gap(s, i, k) && Numeral(s, k).Parsed?
    ensures Derives(FACTOR, Numeral(s, k).tree, s, i) && End(Numeral(s, k).tree) == Numeral(s, k).pos
  {
    NumberEndSound(s, k);
  }

  lemma {:induction false} MoreSound(level: nat, s: string, left: Tree, i: nat, m: nat, t: Tree, j: nat)
    requires i < m <= |s| && level < FACTOR
    requires Derives(level, left, s, i) && Gap(s, End(left), m) && More(level, s, left, m) == Parsed(t, j)
    ensures Derives(level, t, s, i) && Gap(s, End(t), j)
    decreases |s| - m, 0
  {
    hide Phrase, More, Derives, Skip;
    SkipSound(s, m);
    var k := Skip(s, m);
    if k == |s| || !Operator(s[k]) || Level(s[k]) != level {
      MoreStops(level, s, left, m);
    } else {
      var right, q := NextOperand(level, s, left, m);
      Soundness(level + 1, s, k + 1, right, q);
      BinDerives(level, s, left, i, m, k, right);
      MoreSound(level, s, Bin(k, s[k], left, right), i, q, t, j);
    }
  }

  lemma NextOperand(level: nat, s: string, left: Tree, m: nat) returns (right: Tree, q: nat)
    requires level < FACTOR && m <= |s| && More(level, s, left, m).Parsed?
    requires var k := Skip(s, m); k < |s| && Operator(s[k]) && Level(s[k]) == level
    ensures var k := Skip(s, m); k < q <= |s| && Phrase(level + 1, s, k + 1) == Parsed(right, q)
    ensures var k := Skip(s, m); More(level, s, left, m) == More(level, s, Bin(k, s[k], left, right), q)
  {
    var r := Phrase(level + 1, s, Skip(s, m) + 1);
    right, q := r.tree, r.pos;
  }

  lemma BinDerives(level: nat, s: string, left: Tree, i: nat, m: nat, k: nat, right: Tree)
    requires k < |s| && Operator(s[k]) && Level(s[k]) == level
    requires Derives(level, left, s, i) && Gap(s, End(left), m) && Gap(s, m, k) && Derives(level + 1, right, s, k + 1)
    ensures Derives(level, Bin(k, s[k], left, right), s, i)
  {
    hide Gap, End, Level, Operator, Derives;
    GapJoin(s, End(left), m, k);
    OperationIs(level, Bin(k, s[k], left, right), s, i);
    OperationPhrase(level, Bin(k, s[k], left, right), s, i);
  }

  lemma OperationIs(level: nat, t: Tree, s: string, i: nat)
    requires t.Bin? && Derives(level, t.left, s, i)
    requires TokenAt(s, End(t.left), t.at, t.op) && Derives(level + 1, t.right, s, t.at + 1)
    ensures Operation(level, t, s, i)
  {
  }

  lemma OperationPhrase(level: nat, t: Tree, s: string, i: nat)
    requires t.Bin? && Operator(t.op) && Level(t.op) == level && Operation(level, t, s, i)
    ensures Derives(level, t, s, i)
  {
  }

  lemma GapJoin(s: string, i: nat, m: nat, k: nat)
    requires Gap(s, i, m) && Gap(s, m, k)
    ensures Gap(s, i, k)
  {
  }

  // ----- The parser and the tool -----

  /** The tree a whole string reads as. */
  ghost function Reading(s: string): Option<Tree> {
    match Phrase(EXPR, s, 0)
    case Rejected => None
    case Parsed(t, j) => if Skip(s, j) == |s| then Some(t) else None
  }

  /** The parser reads a string as a tree exactly when the grammar derives the string as that tree. */
  lemma SentenceIffReading(t: Tree, s: string)
    ensures Sentence(t, s) <==> Reading(s) == Some(t)
  {
    hide Phrase, More, Derives, Skip;
    if Sentence(t, s) {
      SkipIs(s, End(t), |s|);
      Completeness(EXPR, t, s, 0);
      MoreStops(EXPR, s, t, End(t));
      SkipIs(s, |s|, |s|);
    }
    if Reading(s) == Some(t) {
      var j := Phrase(EXPR, s, 0).pos;
      Soundness(EXPR, s, 0, t, j);
      SkipSound(s, j);
    }
  }

  /** The grammar is unambiguous. */
  lemma SentenceUnique(t: Tree, u: Tree, s: string)
    requires Sentence(t, s) && Sentence(u, s)
    ensures t == u
  {
    SentenceIffReading(t, s);
    SentenceIffReading(u, s);
  }

  // ----- The sign the documented grammar lacks -----

  ghost predicate HasPlus(t: Tree) {
    match t
    case Num(_, _) => false
    case Neg(_, e) => HasPlus(e)
    case Plus(_, _) => true
    case Group(_, e, _) => HasPlus(e)
    case Bin(_, _, l, r) => HasPlus(l) || HasPlus(r)
  }

  /** A place where a phrase may begin: the start of the text, or after an operator or opening bracket. */
  ghost predicate Opens(s: string, i: nat) {
    i <= |s| && (i == 0 || Operator(s[i - 1]) || s[i - 1] == '(')
  }

  /** A `+` that stands, white space skipped, where a phrase may begin. */
  ghost predicate PlusSign(s: string, i: nat, k: nat) {
    Opens(s, i) && TokenAt(s, i, k, '+')
  }

  ghost predicate HasPlusSign(s: string) {
    exists i: nat, k: nat :: PlusSign(s, i, k)
  }

  /** The documented grammar, which has no sign but `-`. */
  ghost predicate Documented(s: string) {
    exists t :: Sentence(t, s) && !HasPlus(t)
  }

  lemma {:induction false} PlusNodeIsSign(level: nat, t: Tree, s: string, i: nat)
    requires Derives(level, t, s, i) && Opens(s, i) && HasPlus(t)
    ensures HasPlusSign(s)
    decreases t
  {
    match t {
      case Neg(at, e) => PlusNodeIsSign(FACTOR, e, s, at + 1);
      case Plus(at, _) => assert PlusSign(s, i, at);
      case Group(at, e, _) => PlusNodeIsSign(EXPR, e, s, at + 1);
      case Bin(at, op, l, r) =>
        if HasPlus(l) {
          PlusNodeIsSign(Level(op), l, s, i);
        } else {
          PlusNodeIsSign(Level(op) + 1, r, s, at + 1);
        }
    }
  }

  /** A phrase ends in a digit, a dot or a closing bracket. */
  lemma {:induction false} LastCharacter(level: nat, t: Tree, s: string, i: nat)
    requires Derives(level, t, s, i)
    ensures 0 < End(t) <= |s| && (IsNumeral(s[End(t) - 1]) || s[End(t) - 1] == ')')
    decreases t
  {
    match t {
      case Num(at, text) => assert text != "";
      case Neg(at, e) => LastCharacter(FACTOR, e, s, at + 1);
      case Plus(at, e) => LastCharacter(FACTOR, e, s, at + 1);
      case Group(_, _, _) =>
      case Bin(at, op, _, r) => LastCharacter(Level(op) + 1, r, s, at + 1);
    }
  }

  /** What follows a phrase is no sign: the character before it closes the phrase. */
  lemma AfterPhraseNoSign(s: string, j: nat, i: nat, k: nat)
    requires 0 < j <= |s| && (IsNumeral(s[j - 1]) || s[j - 1] == ')') && j <= k && Gap(s, j, k)
    ensures !PlusSign(s, i, k)
  {
  }

  lemma {:induction false} SignIsPlusNode(level: nat, t: Tree, s: string, i: nat, p: nat, k: nat)
    requires Derives(level, t, s, i) && i <= k < End(t) && PlusSign(s, p, k)
    ensures HasPlus(t)
    decreases t
  {
    match t {
      case Num(_, _) =>
      case Neg(at, e) =>
        if k > at {
          SignIsPlusNode(FACTOR, e, s, at + 1, p, k);
        }
      case Plus(_, _) =>
      case Group(at, e, close) =>
        if at < k < End(e) {
          SignIsPlusNode(EXPR, e, s, at + 1, p, k);
        }
      case Bin(at, op, l, r) =>
        LastCharacter(Level(op), l, s, i);
        if k < End(l) {
          SignIsPlusNode(Level(op), l, s, i, p, k);
        } else if k > at {
          SignIsPlusNode(Level(op) + 1, r, s, at + 1, p, k);
        } else {
          AfterPhraseNoSign(s, End(l), p, k);
        }
    }
  }

  /**
   * A sentence's tree is one of the documented grammar exactly when no `+` stands, white space
   * skipped, at the start of the text, after an operator or after an opening bracket.
   */
  lemma PlusExactly(s: string, t: Tree)
    requires Reading(s) == Some(t)
    ensures HasPlus(t) <==> HasPlusSign(s)
    ensures Documented(s) <==> !HasPlusSign(s)
  {
    SentenceIffReading(t, s);
    if HasPlus(t) {
      PlusNodeIsSign(EXPR, t, s, 0);
    }
    if HasPlusSign(s) {
      var i: nat, k: nat :| PlusSign(s, i, k);
      SentencePlus(t, s, i, k);
    }
    forall u | Sentence(u, s) ensures u == t {
      SentenceUnique(t, u, s);
    }
  }

  lemma SentencePlus(t: Tree, s: string, i: nat, k: nat)
    requires Sentence(t, s) && PlusSign(s, i, k)
    ensures HasPlus(t)
  {
    if k < End(t) {
      SignIsPlusNode(EXPR, t, s, 0, i, k);
    }
  }

  /** The code accepts "+1", which the documented grammar does not derive. */
  lemma PlusAccepted()
    ensures Sentence(Plus(0, Num(1, "1")), "+1") && !Documented("+1")
  {
    var s, t := "+1", Plus(0, Num(1, "1"));
    assert s[1..2] == "1";
    assert IndexOf("1", '.') == 1;
    assert NumberAt(s, 1, 1, "1");
    assert Sentence(t, s);
    SentenceIffReading(t, s);
    PlusExactly(s, t);
    assert HasPlus(t);
  }

  /** The outcome of evaluating a phrase while reading it. */
  ghost predicate Evaluated(level: nat, s: string, i: nat, r: Result<real, CalcError>, j: nat)
    requires i <= |s| && level <= FACTOR
  {
    match Phrase(level, s, i)
    case Rejected => r.Err?
    case Parsed(t, q) => Yields(t, q, r, j)
  }

  ghost predicate Yields(t: Tree, q: nat, r: Result<real, CalcError>, j: nat) {
    if Eval(t).Some? then r == Ok(Eval(t).value) && j == q else r == Err(DivisionByZero)
  }

  /** A zero divisor seen so far spoils everything read after it at the same level. */
  lemma {:induction false} MoreSpoilt(level: nat, s: string, left: Tree, i: nat)
    requires i <= |s| && level < FACTOR && Eval(left).None? && More(level, s, left, i).Parsed?
    ensures Eval(More(level, s, left, i).tree).None?
    decreases |s| - i
  {
    var k := Skip(s, i);
    if k < |s| && Operator(s[k]) && Level(s[k]) == level {
      var right, q := NextOperand(level, s, left, i);
      MoreSpoilt(level, s, Bin(k, s[k], left, right), q);
    }
  }

  /** Failing on an operand is failing on the phrase it belongs to. */
  lemma OperandFails(level: nat, s: string, left: Tree, i: nat, r: Result<real, CalcError>, j: nat)
    requires i <= |s| && level < FACTOR && r.Err?
    requires var k := Skip(s, i);
      k < |s| && Operator(s[k]) && Level(s[k]) == level && Evaluated(level + 1, s, k + 1, r, j)
    ensures More(level, s, left, i).Parsed? ==> r == Err(DivisionByZero) && Eval(More(level, s, left, i).tree).None?
  {
    if More(level, s, left, i).Parsed? {
      var right, q := NextOperand(level, s, left, i);
      MoreSpoilt(level, s, Bin(Skip(s, i), s[Skip(s, i)], left, right), q);
    }
  }

  lemma FirstOperandFails(level: nat, s: string, i: nat, r: Result<real, CalcError>, j: nat, k: nat)
    requires i <= |s| && level < FACTOR && r.Err? && Evaluated(level + 1, s, i, r, j)
    ensures Evaluated(level, s, i, r, k)
  {
    if Phrase(level, s, i).Parsed? {
      var first, m := FirstOperand(level, s, i);
      MoreSpoilt(level, s, first, m);
    }
  }

  /** Reading on from `left` at `m`: the phrase that began at `i`, with `left` worth `v` so far. */
  ghost predicate Ongoing(level: nat, s: string, i: nat, left: Tree, v: real, m: nat)
    requires level < FACTOR
  {
    i < m <= |s| && Phrase(level, s, i) == More(level, s, left, m) && Eval(left) == Some(v)
  }

  lemma Begin(level: nat, s: string, i: nat, v: real, m: nat) returns (left: Tree)
    requires i <= |s| && level < FACTOR && Evaluated(level + 1, s, i, Ok(v), m)
    ensures Ongoing(level, s, i, left, v, m)
  {
    left := Phrase(level + 1, s, i).tree;
  }

  lemma Finish(level: nat, s: string, i: nat, left: Tree, v: real, m: nat)
    requires level < FACTOR && Ongoing(level, s, i, left, v, m)
    requires var k := Skip(s, m); k == |s| || !Operator(s[k]) || Level(s[k]) != level
    ensures Evaluated(level, s, i, Ok(v), Skip(s, m))
  {
    MoreStops(level, s, left, m);
  }

  lemma Advance(level: nat, s: string, i: nat, left: Tree, v: real, m: nat, w: real, q: nat) returns (next: Tree)
    requires level < FACTOR && Ongoing(level, s, i, left, v, m)
    requires var k := Skip(s, m);
      && k < |s| && Operator(s[k]) && Level(s[k]) == level
      && Evaluated(level + 1, s, k + 1, Ok(w), q)
    ensures var k := Skip(s, m); next.Bin? && next.op == s[k] && Eval(next) == Apply(s[k], Some(v), Some(w))
    ensures Phrase(level, s, i) == More(level, s, next, q) && m < q <= |s|
  {
    hide Phrase, More, Skip, Apply, Eval, Operator, Level;
    var k := Skip(s, m);
    var right := Phrase(level + 1, s, k + 1).tree;
    MoreReads(level, s, left, m, right, q);
    next := Bin(k, s[k], left, right);
    BinaryMeaning(k, s[k], left, right);
  }

  lemma EmptyEvaluated(s: string, i: nat, r: Result<real, CalcError>, j: nat)
    requires i <= |s| && Skip(s, i) == |s| && r.Err?
    ensures Evaluated(FACTOR, s, i, r, j)
  {
  }

  lemma SignYields(k: nat, minus: bool, e: Tree, q: nat, r: Result<real, CalcError>, j: nat)
    requires Yields(e, q, r, j)
    ensures Yields(if minus then Neg(k, e) else Plus(k, e), q, if minus && r.Ok? then Ok(-r.value) else r, j)
  {
  }

  lemma SignEvaluated(s: string, i: nat, k: nat, r: Result<real, CalcError>, j: nat)
    requires i <= |s| && Skip(s, i) == k < |s| && (s[k] == '-' || s[k] == '+') && Evaluated(FACTOR, s, k + 1, r, j)
    ensures Evaluated(FACTOR, s, i, if s[k] == '-' && r.Ok? then Ok(-r.value) else r, j)
  {
    hide Phrase, Skip, Yields;
    SignFactor(s, i, k);
    match Phrase(FACTOR, s, k + 1) {
      case Rejected =>
      case Parsed(e, q) => SignYields(k, s[k] == '-', e, q, r, j);
    }
  }

  lemma GroupFails(s: string, i: nat, k: nat, r: Result<real, CalcError>, j: nat, q: nat)
    requires i <= |s| && Skip(s, i) == k < |s| && s[k] == '(' && Evaluated(EXPR, s, k + 1, r, j) && r.Err?
    ensures Evaluated(FACTOR, s, i, r, q)
  {
    hide Phrase, Skip;
    GroupFactor(s, i, k);
  }

  lemma GroupEvaluated(s: string, i: nat, k: nat, v: real, j: nat)
    requires i <= |s| && Skip(s, i) == k < |s| && s[k] == '(' && Evaluated(EXPR, s, k + 1, Ok(v), j)
    ensures Phrase(EXPR, s, k + 1).Parsed? && Phrase(EXPR, s, k + 1).pos == j
    ensures j <= |s| && (Skip(s, j) < |s| && s[Skip(s, j)] == ')' ==> Evaluated(FACTOR, s, i, Ok(v), Skip(s, j) + 1))
  {
    hide Phrase, Skip;
    GroupFactor(s, i, k);
  }

  lemma UnclosedEvaluated(s: string, i: nat, k: nat, j: nat, r: Result<real, CalcError>, q: nat)
    requires i <= |s| && Skip(s, i) == k < |s| && s[k] == '(' && r.Err? && j <= |s|
    requires Phrase(EXPR, s, k + 1).Parsed? ==> Phrase(EXPR, s, k + 1).pos == j
    requires Skip(s, j) == |s| || s[Skip(s, j)] != ')'
    ensures Evaluated(FACTOR, s, i, r, q)
  {
    hide Phrase, Skip;
    GroupFactor(s, i, k);
  }

  lemma NumberEvaluated(s: string, i: nat, k: nat, r: Result<real, CalcError>, j: nat)
    requires i <= |s| && Skip(s, i) == k < |s| && s[k] != '-' && s[k] != '+' && s[k] != '(' && NumberRead(s, k, r, j)
    ensures Evaluated(FACTOR, s, i, r, j)
  {
    hide Phrase, Skip;
    NumeralFactor(s, i, k);
  }

  ghost predicate NumberRead(s: string, k: nat, r: Result<real, CalcError>, j: nat)
    requires k <= |s|
  {
    match Numeral(s, k)
    case Rejected => r.Err?
    case Parsed(t, q) => Eval(t).Some? && r == Ok(Eval(t).value) && j == q
  }

  // What each error says about the text, at the position the parser has come to.

  ghost predicate Fault(s: string, pos: nat, e: CalcError) {
    match e
    case UnexpectedEnd => pos == |s|
    case ExpectedNumber(at) =>
      at == pos < |s| && !IsSpace(s[at]) && !IsNumeral(s[at]) && s[at] != '-' && s[at] != '+' && s[at] != '('
    case BadNumber => BadNumberBefore(s, pos)
    case MissingParen => (pos == |s| || (pos < |s| && s[pos] != ')')) && Unclosed(s, pos)
    case DivisionByZero => ZeroDivisorBefore(s, pos)
    case _ => false
  }

  /** A whole run of digits and points that ends at `pos` is no number. */
  ghost predicate BadNumberBefore(s: string, pos: nat) {
    exists k: nat ::
      k < pos <= |s| && Boundary(s, pos) && (forall n | k <= n < pos :: IsNumeral(s[n])) && ParseFloat(s[k..pos]).None?
  }

  /** An opening bracket, a whole expression, and then only white space up to `pos`. */
  ghost predicate Unclosed(s: string, pos: nat) {
    exists k: nat, t :: k < |s| && s[k] == '(' && Derives(EXPR, t, s, k + 1) && Gap(s, End(t), pos)
  }

  /** A division whose divisor ends at `pos` and is zero. */
  ghost predicate ZeroDivisorBefore(s: string, pos: nat) {
    exists k: nat, t ::
      k < |s| && s[k] == '/' && Derives(FACTOR, t, s, k + 1) && End(t) == pos && Eval(t) == Some(0.0)
  }

  lemma SkipIsSpace(s: string, i: nat)
    requires i <= |s|
    ensures Skip(s, i) < |s| ==> !IsSpace(s[Skip(s, i)])
  {
    SkipSound(s, i);
  }

  lemma ZeroDivides(s: string, k: nat, v: real, j: nat)
    requires k < |s| && s[k] == '/' && Evaluated(FACTOR, s, k + 1, Ok(v), j) && v == 0.0
    ensures Fault(s, j, DivisionByZero)
  {
    hide Derives, Phrase;
    var t := Phrase(FACTOR, s, k + 1).tree;
    Soundness(FACTOR, s, k + 1, t, j);
  }

  lemma NeverClosed(s: string, k: nat, v: real, j: nat, pos: nat)
    requires k < |s| && s[k] == '(' && Evaluated(EXPR, s, k + 1, Ok(v), j)
    requires j <= |s| && pos == Skip(s, j) && (pos == |s| || s[pos] != ')')
    ensures Fault(s, pos, MissingParen)
  {
    hide Derives, Phrase, Skip;
    var t := Phrase(EXPR, s, k + 1).tree;
    Soundness(EXPR, s, k + 1, t, Phrase(EXPR, s, k + 1).pos);
    SkipSound(s, j);
  }

  class ArithParser {
    const src: string
    var pos: nat

    constructor (src: string)
      ensures this.src == src && pos == 0
    {
      this.src := src;
      pos := 0;
    }

    method SkipSpaces()
      requires pos <= |src|
      modifies this
      ensures old(pos) <= pos <= |src| && pos == Skip(src, old(pos))
    {
      while pos < |src| && IsSpace(src[pos])
        invariant old(pos) <= pos <= |src| && Gap(src, old(pos), pos)
      {
        pos := pos + 1;
      }
      SkipIs(src, old(pos), pos);
    }

    method ParseExpression() returns (r: Result<real, CalcError>)
      requires pos <= |src|
      modifies this
      ensures old(pos) <= pos <= |src|
      ensures Evaluated(EXPR, src, old(pos), r, pos)
      ensures r.Err? ==> Fault(src, pos, r.error)
      decreases |src| - pos, 3
    {
      hide Phrase, More, Skip, Derives, Eval, Fault;
      var first := ParseTerm();
      if first.Err? {
        FirstOperandFails(EXPR, src, old(pos), first, pos, pos);
        return first;
      }
      var left := first.value;
      ghost var tree := Begin(EXPR, src, old(pos), left, pos);
      while true
        invariant Ongoing(EXPR, src, old(pos), tree, left, pos)
        decreases |src| - pos
      {
        ghost var m := pos;
        SkipSpaces();
        if pos >= |src| || (src[pos] != '+' && src[pos] != '-') {
          Finish(EXPR, src, old(pos), tree, left, m);
          return Ok(left);
        }
        var op := src[pos];
        pos := pos + 1;
        var right := ParseTerm();
        if right.Err? {
          OperandFails(EXPR, src, tree, m, right, pos);
          return right;
        }
        tree := Advance(EXPR, src, old(pos), tree, left, m, right.value, pos);
        if op == '+' {
          left := left + right.value;
        } else {
          left := left - right.value;
        }
      }
    }

    method ParseTerm() returns (r: Result<real, CalcError>)
      requires pos <= |src|
      modifies this
      ensures old(pos) <= pos <= |src|
      ensures Evaluated(TERM, src, old(pos), r, pos)
      ensures r.Err? ==> Fault(src, pos, r.error)
      decreases |src| - pos, 2
    {
      hide Phrase, More, Skip, Derives, Eval, Fault;
      var first := ParseFactor();
      if first.Err? {
        FirstOperandFails(TERM, src, old(pos), first, pos, pos);
        return first;
      }
      var left := first.value;
      ghost var tree := Begin(TERM, src, old(pos), left, pos);
      while true
        invariant Ongoing(TERM, src, old(pos), tree, left, pos)
        decreases |src| - pos
      {
        ghost var m := pos;
        SkipSpaces();
        if pos >= |src| || (src[pos] != '*' && src[pos] != '/') {
          Finish(TERM, src, old(pos), tree, left, m);
          return Ok(left);
        }
        var op := src[pos];
        ghost var k := pos;
        pos := pos + 1;
        var right := ParseFactor();
        if right.Err? {
          OperandFails(TERM, src, tree, m, right, pos);
          return right;
        }
        tree := Advance(TERM, src, old(pos), tree, left, m, right.value, pos);
        ghost var was := left;
        if op == '*' {
          left := left * right.value;
          Worth(op, was, right.value, left);
        } else {
          if right.value == 0.0 {
            ZeroDivides(src, k, right.value, pos);
            if More(TERM, src, tree, pos).Parsed? {
              MoreSpoilt(TERM, src, tree, pos);
            }
            return Err(DivisionByZero);
          }
          left := left / right.value;
          Worth(op, was, right.value, left);
        }
      }
    }

    method ParseFactor() returns (r: Result<real, CalcError>)
      requires pos <= |src|
      modifies this
      ensures old(pos) <= pos <= |src|
      ensures Evaluated(FACTOR, src, old(pos), r, pos)
      ensures r.Err? ==> Fault(src, pos, r.error)
      decreases |src| - pos, 1
    {
      hide Phrase, Skip, Derives, Eval, Closed, Numeral, Evaluated, Unclosed, BadNumberBefore, ZeroDivisorBefore;
      SkipIsSpace(src, pos);
      SkipSpaces();
      ghost var k := pos;
      if pos >= |src| {
        EmptyEvaluated(src, old(pos), Err(UnexpectedEnd), pos);
        return Err(UnexpectedEnd);
      }
      if src[pos] == '-' {
        pos := pos + 1;
        r := ParseFactor();
        SignEvaluated(src, old(pos), k, r, pos);
        if r.Ok? {
          r := Ok(-r.value);
        }
        return;
      }
      if src[pos] == '+' {
        pos := pos + 1;
        r := ParseFactor();
        SignEvaluated(src, old(pos), k, r, pos);
        return;
      }
      if src[pos] == '(' {
        pos := pos + 1;
        r := ParseExpression();
        ghost var j := pos;
        if r.Err? {
          GroupFails(src, old(pos), k, r, j, pos);
          return;
        }
        SkipSpaces();
        GroupEvaluated(src, old(pos), k, r.value, j);
        if pos >= |src| || src[pos] != ')' {
          NeverClosed(src, k, r.value, j, pos);
          UnclosedEvaluated(src, old(pos), k, j, Err(MissingParen), pos);
          return Err(MissingParen);
        }
        pos := pos + 1;
        return;
      }
      r := ParseNumber();
      NumberEvaluated(src, old(pos), k, r, pos);
    }

    method ParseNumber() returns (r: Result<real, CalcError>)
      requires pos <= |src|
      modifies this
      ensures old(pos) <= pos <= |src|
      ensures NumberRead(src, old(pos), r, pos)
      ensures r.Err? ==>
                if r.error.ExpectedNumber? then
                  r.error.at == pos == old(pos) && (pos < |src| ==> !IsNumeral(src[pos]))
                else r == Err(BadNumber) && Fault(src, pos, BadNumber)
    {
      var start := pos;
      while pos < |src| && IsNumeral(src[pos])
        invariant start <= pos <= |src| && forall n | start <= n < pos :: IsNumeral(src[n])
      {
        pos := pos + 1;
      }
      NumberEndIs(src, start, pos);
      if start == pos {
        return Err(ExpectedNumber(pos));
      }
      var v := ParseFloat(src[start..pos]);
      if v.None? {
        assert BadNumberBefore(src, pos);
        return Err(BadNumber);
      }
      return Ok(v.value);
    }
  }

  /** What the tool answers, in terms of the unique tree of the expression. */
  ghost predicate Answers(s: string, r: Result<real, CalcError>) {
    match Reading(s)
    case None => r.Err?
    case Some(t) => r == if Eval(t).Some? then Ok(Eval(t).value) else Err(DivisionByZero)
  }

  /** An expression with a value, and at `at` something that does not continue it. */
  ghost predicate Trailing(s: string, at: nat) {
    match Phrase(EXPR, s, 0)
    case Rejected => false
    case Parsed(t, j) => Eval(t).Some? && at == Skip(s, j) < |s|
  }

  method Run(expression: string) returns (r: Result<real, CalcError>)
    ensures Answers(expression, r)
    ensures r == Err(Required) <==> Text.Blank(expression)
    ensures r.Err? && r.error.UnexpectedInput? ==> Trailing(expression, r.error.at)
    ensures forall at: nat | Trailing(expression, at) :: r == Err(UnexpectedInput(at))
    ensures r.Err? && !r.error.Required? && !r.error.UnexpectedInput? ==>
              exists pos: nat :: Fault(expression, pos, r.error)
  {
    hide Eval, Derives, Phrase, Unclosed, BadNumberBefore, ZeroDivisorBefore;
    ghost var before, after := Text.TrimTakesSpace(expression);
    if Text.TrimSpace(expression) == "" {
      BlankReadsNothing(expression);
      return Err(Required);
    }
    var p := new ArithParser(expression);
    r := p.ParseExpression();
    if r.Err? {
      assert Fault(expression, p.pos, r.error);
      return;
    }
    p.SkipSpaces();
    if p.pos != |p.src| {
      return Err(UnexpectedInput(p.pos));
    }
  }

  lemma BlankReadsNothing(s: string)
    requires Text.Blank(s)
    ensures Phrase(EXPR, s, 0).Rejected? && Reading(s).None?
  {
    if Phrase(EXPR, s, 0).Parsed? {
      var t, j := Phrase(EXPR, s, 0).tree, Phrase(EXPR, s, 0).pos;
      Soundness(EXPR, s, 0, t, j);
      var k := FirstToken(EXPR, t, s, 0);
      Text.BlankBytes(s, k);
    }
  }

  /** A phrase holds a character that begins a token. */
  lemma {:induction false} FirstToken(level: nat, t: Tree, s: string, i: nat) returns (k: nat)
    requires Derives(level, t, s, i)
    ensures k < |s| && 32 < s[k] as int < 128
    decreases t
  {
    match t {
      case Bin(_, op, l, _) => k := FirstToken(Level(op), l, s, i);
      case Num(at, text) =>
        assert text != "";
        k := at;
      case Neg(at, _) => k := at;
      case Plus(at, _) => k := at;
      case Group(at, _, _) => k := at;
    }
  }

  /**
   * The tool succeeds exactly on the sentences of the grammar in which no divisor is zero, and its
   * answer is the value of the sentence's tree.
   */
  lemma AnswerMeaning(s: string, r: Result<real, CalcError>, v: real)
    requires Answers(s, r)
    ensures r == Ok(v) <==> exists t :: Sentence(t, s) && Eval(t) == Some(v)
    ensures (exists t :: Sentence(t, s) && Eval(t).None?) ==> r == Err(DivisionByZero)
  {
    if t :| Sentence(t, s) {
      SentenceIffReading(t, s);
      forall u | Sentence(u, s) ensures u == t {
        SentenceUnique(t, u, s);
      }
    }
    if r == Ok(v) {
      SentenceIffReading(Reading(s).value, s);
    }
  }

  // ----- Rendering and reading back -----

  /** Abstract formulas, without brackets or layout. */
  datatype Formula = Lit(text: string) | Minus(operand: Formula) | Op(op: char, left: Formula, right: Formula)

  ghost predicate Sound(f: Formula) {
    match f
    case Lit(text) => (forall c | c in text :: IsNumeral(c)) && ParseFloat(text).Some?
    case Minus(e) => Sound(e)
    case Op(op, l, r) => Operator(op) && Sound(l) && Sound(r)
  }

  ghost function Value(f: Formula): Option<real> {
    match f
    case Lit(text) => ParseFloat(text)
    case Minus(e) => Negated(Value(e))
    case Op(op, l, r) => Apply(op, Value(l), Value(r))
  }

  /** The tokens of a formula written where a phrase of the given level is expected, bracketed only if needed. */
  ghost function Tokens(level: nat, f: Formula): (ts: seq<string>)
    ensures |ts| > 0
    decreases f
  {
    match f
    case Lit(text) => [text]
    case Minus(e) => ["-"] + Tokens(FACTOR, e)
    case Op(op, l, r) =>
      var plain := Tokens(Level(op), l) + [[op]] + Tokens(Level(op) + 1, r);
      if level <= Level(op) then plain else ["("] + plain + [")"]
  }

  /** Where the first `n` tokens, placed at `at`, end. */
  ghost function EndAt(i: nat, ts: seq<string>, at: seq<nat>, n: nat): nat
    requires |at| == |ts| && n <= |ts|
  {
    if n == 0 then i else at[n - 1] + |ts[n - 1]|
  }

  ghost predicate Placed(s: string, i: nat, ts: seq<string>, at: seq<nat>, n: nat)
    requires n < |at| == |ts|
  {
    Gap(s, EndAt(i, ts, at, n), at[n]) && at[n] + |ts[n]| <= |s| && s[at[n]..at[n] + |ts[n]|] == ts[n]
  }

  /** `s` has the tokens `ts` at positions `at`, with nothing but white space from `i` on between them, up to `j`. */
  ghost predicate LaidOut(s: string, i: nat, ts: seq<string>, at: seq<nat>, j: nat) {
    && |at| == |ts| && EndAt(i, ts, at, |ts|) == j
    && forall n | 0 <= n < |ts| :: Placed(s, i, ts, at, n)
  }

  lemma SplitLayout(s: string, i: nat, a: seq<string>, b: seq<string>, at: seq<nat>, j: nat) returns (m: nat)
    requires LaidOut(s, i, a + b, at, j)
    ensures LaidOut(s, i, a, at[..|a|], m) && LaidOut(s, m, b, at[|a|..], j)
  {
    var ts := a + b;
    m := EndAt(i, a, at[..|a|], |a|);
    forall n | 0 <= n < |a| ensures Placed(s, i, a, at[..|a|], n) {
      assert Placed(s, i, ts, at, n);
    }
    forall n | 0 <= n < |b| ensures Placed(s, m, b, at[|a|..], n) {
      assert Placed(s, i, ts, at, |a| + n);
    }
  }

  lemma TokenPlaced(s: string, i: nat, c: char, at: seq<nat>, j: nat)
    requires LaidOut(s, i, [[c]], at, j)
    ensures |at| == 1 && TokenAt(s, i, at[0], c) && j == at[0] + 1
  {
    assert Placed(s, i, [[c]], at, 0);
    assert s[at[0]] == s[at[0]..at[0] + 1][0];
  }

  lemma SplitPrefix(s: string, i: nat, c: char, rest: seq<string>, at: seq<nat>, j: nat) returns (k: nat, p: seq<nat>)
    requires LaidOut(s, i, [[c]] + rest, at, j)
    ensures TokenAt(s, i, k, c) && LaidOut(s, k + 1, rest, p, j)
  {
    assert |at| == 1 + |rest|;
    hide LaidOut, TokenAt;
    var m := SplitLayout(s, i, [[c]], rest, at, j);
    TokenPlaced(s, i, c, at[..1], m);
    k, p := at[0], at[1..];
  }

  lemma SplitInfix(s: string, i: nat, a: seq<string>, c: char, b: seq<string>, at: seq<nat>, j: nat)
    returns (m: nat, p: seq<nat>, k: nat, q: seq<nat>)
    requires LaidOut(s, i, a + [[c]] + b, at, j)
    ensures LaidOut(s, i, a, p, m) && TokenAt(s, m, k, c) && LaidOut(s, k + 1, b, q, j)
  {
    assert a + [[c]] + b == a + ([[c]] + b);
    hide LaidOut, TokenAt;
    m := SplitLayout(s, i, a, [[c]] + b, at, j);
    p := at[..|a|];
    k, q := SplitPrefix(s, m, c, b, at[|a|..], j);
  }

  lemma SplitBrackets(s: string, i: nat, body: seq<string>, at: seq<nat>, j: nat)
    returns (k: nat, p: seq<nat>, m: nat, close: nat)
    requires LaidOut(s, i, ["("] + body + [")"], at, j)
    ensures TokenAt(s, i, k, '(') && LaidOut(s, k + 1, body, p, m) && TokenAt(s, m, close, ')') && j == close + 1
  {
    assert ["("] + body + [")"] == ["("] + (body + [")"]);
    hide LaidOut, TokenAt;
    var rest;
    k, rest := SplitPrefix(s, i, '(', body + [")"], at, j);
    m := SplitLayout(s, k + 1, body, [")"], rest, j);
    p := rest[..|body|];
    TokenPlaced(s, m, ')', rest[|body|..], j);
    close := rest[|body|..][0];
  }

  /** A laid-out rendering is a phrase of its level, whose tree has the formula's value. */
  lemma {:induction false} RenderingDerives(level: nat, f: Formula, s: string, i: nat, at: seq<nat>, j: nat)
    returns (t: Tree)
    requires Sound(f) && level <= FACTOR && LaidOut(s, i, Tokens(level, f), at, j)
    ensures Derives(level, t, s, i) && Eval(t) == Value(f) && End(t) == j
    decreases f, 2
  {
    hide LaidOut, TokenAt, Derives, Eval, End, Apply;
    match f {
      case Lit(text) =>
        t := LiteralDerives(level, s, i, text, at, j);
      case Minus(e) =>
        var k, p := SplitPrefix(s, i, '-', Tokens(FACTOR, e), at, j);
        var inner := RenderingDerives(FACTOR, e, s, k + 1, p, j);
        t := MinusDerives(level, s, i, k, inner);
      case Op(op, l, r) =>
        if level <= Level(op) {
          t := OperationDerives(level, op, l, r, s, i, at, j);
        } else {
          t := BracketsDerive(level, op, l, r, s, i, at, j);
        }
    }
  }

  lemma LiteralDerives(level: nat, s: string, i: nat, text: string, at: seq<nat>, j: nat) returns (t: Tree)
    requires Sound(Lit(text)) && LaidOut(s, i, [text], at, j)
    ensures Derives(level, t, s, i) && Eval(t) == ParseFloat(text) && End(t) == j
  {
    hide ParseFloat;
    assert Placed(s, i, [text], at, 0);
    t := Num(at[0], text);
    forall n | at[0] <= n < at[0] + |text| ensures IsNumeral(s[n]) {
      assert s[n] == text[n - at[0]];
    }
  }

  lemma MinusDerives(level: nat, s: string, i: nat, k: nat, e: Tree) returns (t: Tree)
    requires TokenAt(s, i, k, '-') && Derives(FACTOR, e, s, k + 1)
    ensures Derives(level, t, s, i) && End(t) == End(e) && Eval(t) == Negated(Eval(e))
  {
    hide Derives, Eval, End, TokenAt, Negated;
    t := Neg(k, e);
    NegPhrase(level, s, i, t);
    NegMeaning(k, e);
  }

  lemma NegPhrase(level: nat, s: string, i: nat, t: Tree)
    requires t.Neg? && TokenAt(s, i, t.at, '-') && Derives(FACTOR, t.operand, s, t.at + 1)
    ensures Derives(level, t, s, i)
  {
  }

  lemma NegMeaning(k: nat, e: Tree)
    ensures End(Neg(k, e)) == End(e) && Eval(Neg(k, e)) == Negated(Eval(e))
  {
  }

  lemma {:induction false} OperationDerives(
    level: nat, op: char, l: Formula, r: Formula, s: string, i: nat, at: seq<nat>, j: nat) returns (t: Tree)
    requires Operator(op) && Sound(l) && Sound(r) && level <= Level(op)
    requires LaidOut(s, i, Tokens(Level(op), l) + [[op]] + Tokens(Level(op) + 1, r), at, j)
    ensures Derives(level, t, s, i) && Eval(t) == Apply(op, Value(l), Value(r)) && End(t) == j
    decreases Op(op, l, r), 0
  {
    hide LaidOut, TokenAt, Apply, Tokens, Sound, Derives, Eval, End;
    var m, p, k, q := SplitInfix(s, i, Tokens(Level(op), l), op, Tokens(Level(op) + 1, r), at, j);
    var left := RenderingDerives(Level(op), l, s, i, p, m);
    var right := RenderingDerives(Level(op) + 1, r, s, k + 1, q, j);
    t := Bin(k, op, left, right);
    BinaryDerives(level, s, i, k, op, left, right);
    BinaryMeaning(k, op, left, right);
  }

  lemma BinaryDerives(level: nat, s: string, i: nat, k: nat, op: char, left: Tree, right: Tree)
    requires Operator(op) && level <= Level(op) && Derives(Level(op), left, s, i)
    requires TokenAt(s, End(left), k, op) && Derives(Level(op) + 1, right, s, k + 1)
    ensures Derives(level, Bin(k, op, left, right), s, i)
  {
    BinDerives(Level(op), s, left, i, k, k, right);
    if level < Level(op) {
      Weaken(level, Bin(k, op, left, right), s, i);
    }
  }

  lemma {:induction false} BracketsDerive(
    level: nat, op: char, l: Formula, r: Formula, s: string, i: nat, at: seq<nat>, j: nat) returns (t: Tree)
    requires Operator(op) && Sound(l) && Sound(r)
    requires LaidOut(s, i, ["("] + (Tokens(Level(op), l) + [[op]] + Tokens(Level(op) + 1, r)) + [")"], at, j)
    ensures Derives(level, t, s, i) && Eval(t) == Apply(op, Value(l), Value(r)) && End(t) == j
    decreases Op(op, l, r), 1
  {
    hide LaidOut, TokenAt, Apply, Tokens, Sound, Derives, Eval, End;
    var k, p, m, close := SplitBrackets(s, i, Tokens(Level(op), l) + [[op]] + Tokens(Level(op) + 1, r), at, j);
    var inner := OperationDerives(EXPR, op, l, r, s, k + 1, p, m);
    t := Group(k, inner, close);
    GroupDerives(level, s, i, k, inner, close);
  }

  lemma GroupDerives(level: nat, s: string, i: nat, k: nat, e: Tree, close: nat)
    requires TokenAt(s, i, k, '(') && Derives(EXPR, e, s, k + 1) && TokenAt(s, End(e), close, ')')
    ensures var t := Group(k, e, close); Derives(level, t, s, i) && End(t) == close + 1 && Eval(t) == Eval(e)
  {
  }

  /**
   * Round trip: a formula written with only the brackets it needs and any white space between its
   * tokens is answered with the formula's value, or refused for its zero divisor.
   */
  lemma RoundTrip(f: Formula, s: string, at: seq<nat>, j: nat, r: Result<real, CalcError>)
    requires Sound(f) && LaidOut(s, 0, Tokens(EXPR, f), at, j) && Gap(s, j, |s|)
    requires Answers(s, r)
    ensures r == if Value(f).Some? then Ok(Value(f).value) else Err(DivisionByZero)
  {
    var t := RenderingDerives(EXPR, f, s, 0, at, j);
    SentenceIffReading(t, s);
  }
}
