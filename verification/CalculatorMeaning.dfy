/** What the calculator's answers mean in terms of written decimal numbers and ordinary arithmetic. */
module CalculatorMeaning {
  import opened Ordering
  import opened Calculator
  import Text

  // ----- Writing numbers -----

  const DIGITS := "0123456789"

  /** A natural number in decimal. */
  ghost function Written(n: nat): string {
    if n < 10 then [DIGITS[n]] else Written(n / 10) + [DIGITS[n % 10]]
  }

  ghost function Zeros(z: nat): string {
    seq(z, _ => '0')
  }

  /** `x` with its point moved `k` places to the right. */
  ghost function Shifted(x: real, k: nat): real
    decreases k
  {
    if k == 0 then x else Shifted(10.0 * x, k - 1)
  }

  /**
   * `text` has the digits of `n` after `z` zeros, `whole` of them before the point and the others, `part`,
   * behind it; without any behind it the point may be missing.
   */
  ghost predicate Spelled(text: string, whole: string, part: string, z: nat, n: nat) {
    && whole + part == Zeros(z) + Written(n)
    && (text == whole + "." + part || (part == "" && text == whole))
  }

  /** `text` is a decimal number of value `v`. */
  ghost predicate Decimal(text: string, v: real) {
    exists whole, part, z: nat, n: nat :: SpelledFor(text, v, whole, part, z, n)
  }

  ghost predicate SpelledFor(text: string, v: real, whole: string, part: string, z: nat, n: nat) {
    Spelled(text, whole, part, z, n) && Shifted(v, |part|) == n as real
  }

  lemma DigitMeans(d: nat)
    requires d < 10
    ensures IsDigit(DIGITS[d]) && DIGITS[d] as int - '0' as int == d
  {
    assert d == 0 || d == 1 || d == 2 || d == 3 || d == 4 || d == 5 || d == 6 || d == 7 || d == 8 || d == 9;
  }

  lemma {:induction false} WrittenDigits(n: nat)
    ensures Digits(Written(n)) == n && Written(n) != "" && forall c | c in Written(n) :: IsDigit(c)
  {
    if n < 10 {
      DigitMeans(n);
      assert [DIGITS[n]][..0] == "";
      assert Digits("") == 0;
    } else {
      WrittenDigits(n / 10);
      DigitMeans(n % 10);
      assert Written(n)[..|Written(n)| - 1] == Written(n / 10);
    }
  }

  lemma {:induction false} ZerosDoNotCount(z: nat, s: string)
    ensures Digits(Zeros(z) + s) == Digits(s)
    decreases z + |s|
  {
    var all := Zeros(z) + s;
    if s != "" {
      assert all[..|all| - 1] == Zeros(z) + s[..|s| - 1];
      ZerosDoNotCount(z, s[..|s| - 1]);
    } else if z > 0 {
      assert all[..|all| - 1] == Zeros(z - 1) + s;
      ZerosDoNotCount(z - 1, s);
    } else {
      assert all == s;
    }
  }

  lemma {:induction false} ShiftedIs(x: real, k: nat)
    ensures Shifted(x, k) == x * Power10(k) as real
    decreases k
  {
    if k == 0 {
    } else {
      ShiftedIs(10.0 * x, k - 1);
      Regrouped(x, Power10(k - 1) as real);
    }
  }

  lemma Regrouped(x: real, p: real)
    ensures 10.0 * x * p == x * (10.0 * p)
  {
  }

  lemma PointAt(whole: string, part: string)
    requires '.' !in whole
    ensures IndexOf(whole + "." + part, '.') == |whole|
  {
    var text := whole + "." + part;
    assert text[|whole|] == '.' && forall j | 0 <= j < |whole| :: text[j] == whole[j];
  }

  lemma NoPoint(whole: string)
    requires '.' !in whole
    ensures IndexOf(whole, '.') == |whole|
  {
  }

  /** A decimal number is a numeral and read as its value. */
  lemma DecimalReads(text: string, v: real)
    requires Decimal(text, v)
    ensures ParseFloat(text) == Some(v) && text != "" && forall c | c in text :: IsNumeral(c)
  {
    hide ParseFloat, Power10, Shifted, Spelled, Written;
    var whole, part, z: nat, n: nat :| SpelledFor(text, v, whole, part, z, n);
    SpelledReads(text, whole, part, z, n);
    ShiftedIs(v, |part|);
    Divided(v, Power10(|part|) as real, n as real);
  }

  lemma Divided(v: real, p: real, n: real)
    requires p > 0.0 && v * p == n
    ensures v == n / p
  {
  }

  lemma SpelledReads(text: string, whole: string, part: string, z: nat, n: nat)
    requires Spelled(text, whole, part, z, n)
    ensures ParseFloat(text) == Some(n as real / Power10(|part|) as real)
    ensures text != "" && forall c | c in text :: IsNumeral(c)
  {
    WrittenDigits(n);
    ZerosDoNotCount(z, Written(n));
    forall c | c in whole + part ensures IsDigit(c) {
      assert c in Zeros(z) + Written(n);
    }
    assert forall c | c in whole || c in part :: c in whole + part;
    if text == whole + "." + part {
      PointAt(whole, part);
      assert text[..|whole|] == whole && text[|whole| + 1..] == part;
    } else {
      NoPoint(whole);
      assert whole + "" == whole;
    }
  }

  lemma OneMoreDigit(m: nat, d: nat)
    requires m > 0 && d < 10
    ensures Written(10 * m + d) == Written(m) + [DIGITS[d]]
  {
  }

  lemma AppendDigit(y: nat, m: nat, d: nat) returns (z: nat, n: nat)
    requires d < 10
    ensures Zeros(y) + Written(m) + [DIGITS[d]] == Zeros(z) + Written(n)
  {
    if m == 0 {
      z, n := y + 1, d;
      assert Written(0) == "0" && Zeros(y) + "0" == Zeros(y + 1);
    } else {
      z, n := y, 10 * m + d;
      OneMoreDigit(m, d);
    }
  }

  lemma DigitOf(c: char) returns (d: nat)
    requires IsDigit(c)
    ensures d < 10 && c == DIGITS[d]
  {
    d := c as int - '0' as int;
    DigitMeans(d);
  }

  /** Every string of digits is a natural number, written after some zeros. */
  lemma {:induction false} DigitsAreWritten(s: string) returns (z: nat, n: nat)
    requires s != "" && forall c | c in s :: IsDigit(c)
    ensures s == Zeros(z) + Written(n)
  {
    hide IsDigit;
    var last := |s| - 1;
    assert s[last] in s;
    var d := DigitOf(s[last]);
    if last == 0 {
      z, n := 0, d;
      assert Written(d) == [DIGITS[d]];
    } else {
      var y: nat, m: nat;
      y, m := DigitsAreWritten(s[..last]);
      z, n := AppendDigit(y, m, d);
      assert s == s[..last] + [s[last]];
    }
  }

  /** A run of digits and points is read as a number exactly when it is a decimal number. */
  lemma NumeralExactly(text: string)
    requires forall c | c in text :: IsNumeral(c)
    ensures ParseFloat(text).Some? <==> exists v :: Decimal(text, v)
  {
    if ParseFloat(text).Some? {
      ParsedIsDecimal(text);
    }
    if v :| Decimal(text, v) {
      DecimalReads(text, v);
    }
  }

  lemma ParsedIsDecimal(text: string)
    requires (forall c | c in text :: IsNumeral(c)) && ParseFloat(text).Some?
    ensures Decimal(text, ParseFloat(text).value)
  {
    hide ParseFloat, Written, Power10, Zeros, Shifted, Spelled;
    var whole, part := Halves(text);
    var z, n := DigitsAreWritten(whole + part);
    HalvesSpelled(text, whole, part, z, n);
    var v := ParseFloat(text).value;
    SpelledReads(text, whole, part, z, n);
    ShiftedIs(v, |part|);
    Divided(v, Power10(|part|) as real, n as real);
    assert SpelledFor(text, v, whole, part, z, n);
  }

  lemma HalvesSpelled(text: string, whole: string, part: string, z: nat, n: nat)
    requires whole + part == Zeros(z) + Written(n)
    requires text == whole + "." + part || (part == "" && text == whole)
    ensures Spelled(text, whole, part, z, n)
  {
  }

  lemma Halves(text: string) returns (whole: string, part: string)
    requires (forall c | c in text :: IsNumeral(c)) && ParseFloat(text).Some?
    ensures text == whole + "." + part || (part == "" && text == whole)
    ensures whole + part != "" && forall c | c in whole + part :: IsDigit(c)
  {
    var dot := IndexOf(text, '.');
    whole, part := text[..dot], if dot < |text| then text[dot + 1..] else "";
    forall c | c in whole + part ensures IsDigit(c) {
      assert c in text && (c in whole ==> c != '.');
    }
  }

  // ----- Answers -----

  lemma NumberNode(level: nat, s: string, k: nat, text: string, v: real)
    requires Decimal(text, v) && k + |text| <= |s| && s[k..k + |text|] == text
    ensures var t := Num(k, text); Derives(level, t, s, k) && Eval(t) == Some(v) && End(t) == k + |text|
  {
    hide Decimal, ParseFloat;
    DecimalReads(text, v);
    forall n | k <= n < k + |text| ensures IsNumeral(s[n]) {
      assert s[n] == text[n - k];
    }
  }

  lemma SignNode(level: nat, s: string, i: nat, e: Tree)
    requires i < |s| && (s[i] == '-' || s[i] == '+') && Derives(FACTOR, e, s, i + 1)
    ensures var t := if s[i] == '-' then Neg(i, e) else Plus(i, e);
      && Derives(level, t, s, i) && End(t) == End(e)
      && Eval(t) == if s[i] == '-' then Negated(Eval(e)) else Eval(e)
  {
  }

  lemma BracketNode(level: nat, s: string, i: nat, e: Tree)
    requires i < End(e) < |s| && s[i] == '(' && s[End(e)] == ')' && Derives(EXPR, e, s, i + 1)
    ensures var t := Group(i, e, End(e)); Derives(level, t, s, i) && End(t) == End(e) + 1 && Eval(t) == Eval(e)
  {
  }

  lemma OperationNode(level: nat, s: string, i: nat, l: Tree, r: Tree)
    requires End(l) < |s| && Operator(s[End(l)]) && level <= Level(s[End(l)])
    requires Derives(Level(s[End(l)]), l, s, i) && Derives(Level(s[End(l)]) + 1, r, s, End(l) + 1)
    ensures var t := Bin(End(l), s[End(l)], l, r);
      Derives(level, t, s, i) && End(t) == End(r) && Eval(t) == Apply(s[End(l)], Eval(l), Eval(r))
  {
    hide Derives, Apply, Eval, Level;
    var k := End(l);
    BinaryMeaning(k, s[k], l, r);
    OperationDerived(level, s, i, k, l, r);
  }

  lemma OperationDerived(level: nat, s: string, i: nat, k: nat, l: Tree, r: Tree)
    requires k == End(l) < |s| && Operator(s[k]) && level <= Level(s[k])
    requires Derives(Level(s[k]), l, s, i) && Derives(Level(s[k]) + 1, r, s, k + 1)
    ensures Derives(level, Bin(k, s[k], l, r), s, i)
  {
    hide Apply, Eval, NumberAt;
    assert TokenAt(s, k, k, s[k]);
    assert Operation(Level(s[k]), Bin(k, s[k], l, r), s, i);
  }

  lemma Applied(op: char, v: real, w: real)
    ensures op == '+' ==> Apply(op, Some(v), Some(w)) == Some(v + w)
    ensures op == '-' ==> Apply(op, Some(v), Some(w)) == Some(v - w)
    ensures op == '*' ==> Apply(op, Some(v), Some(w)) == Some(v * w) == Some(Times(v, w))
    ensures op == '/' ==> Apply(op, Some(v), Some(w)) == if w != 0.0 then Some(v / w) else None
  {
    Worth('*', v, w, v * w);
    if w != 0.0 {
      Worth('/', v, w, v / w);
    }
  }

  lemma TreeAnswers(t: Tree, s: string, r: Result<real, CalcError>)
    requires Derives(EXPR, t, s, 0) && End(t) == |s| && Answers(s, r)
    ensures r == if Eval(t).Some? then Ok(Eval(t).value) else Err(DivisionByZero)
  {
    hide Derives, Eval, Reading;
    SentenceIffReading(t, s);
  }

  /** A written number is answered with its value. */
  lemma NumberAnswers(x: string, v: real, r: Result<real, CalcError>)
    requires Decimal(x, v) && Answers(x, r)
    ensures r == Ok(v)
  {
    NumberNode(EXPR, x, 0, x, v);
    hide Derives, Answers, Decimal, Eval;
    TreeAnswers(Num(0, x), x, r);
  }

  lemma SignAnswers(x: string, v: real, sign: char, r: Result<real, CalcError>)
    requires Decimal(x, v) && sign in "+-" && Answers([sign] + x, r)
    ensures r == Ok(if sign == '-' then -v else v)
  {
    hide Derives, Answers, Decimal, Eval;
    var s := [sign] + x;
    assert s[1..1 + |x|] == x;
    NumberNode(FACTOR, s, 1, x, v);
    SignNode(EXPR, s, 0, Num(1, x));
    TreeAnswers(if sign == '-' then Neg(0, Num(1, x)) else Plus(0, Num(1, x)), s, r);
  }

  /** The four operations on written numbers. */
  lemma OperationAnswers(x: string, v: real, op: char, y: string, w: real, r: Result<real, CalcError>)
    requires Decimal(x, v) && Decimal(y, w) && op in "+-*/" && Answers(x + [op] + y, r)
    ensures op == '+' ==> r == Ok(v + w)
    ensures op == '-' ==> r == Ok(v - w)
    ensures op == '*' ==> r == Ok(v * w)
    ensures op == '/' ==> r == if w != 0.0 then Ok(v / w) else Err(DivisionByZero)
  {
    hide Derives, Answers, Decimal, Eval, Level, Apply;
    Applied(op, v, w);
    var s, k := x + [op] + y, |x| + 1;
    assert s[0..0 + |x|] == x && s[k..k + |y|] == y && s[|x|] == op;
    NumberNode(Level(op), s, 0, x, v);
    NumberNode(Level(op) + 1, s, k, y, w);
    OperationNode(EXPR, s, 0, Num(0, x), Num(k, y));
    TreeAnswers(Bin(|x|, op, Num(0, x), Num(k, y)), s, r);
  }

  /** Three written numbers: what binds first, and to which side. */
  lemma ChainAnswers(x: string, v: real, a: char, y: string, w: real, b: char, z: string, u: real,
      r: Result<real, CalcError>)
    requires Decimal(x, v) && Decimal(y, w) && Decimal(z, u) && Answers(x + [a] + y + [b] + z, r)
    ensures a == '-' && b == '-' ==> r == Ok(v - w - u)
    ensures a == '-' && b == '+' ==> r == Ok(v - w + u)
    ensures a == '+' && b == '*' ==> r == Ok(v + w * u)
    ensures a == '*' && b == '+' ==> r == Ok(v * w + u)
    ensures a == '-' && b == '/' && u != 0.0 ==> r == Ok(v - w / u)
    ensures a == '/' && b == '*' && w != 0.0 ==> r == Ok(Times(v / w, u))
  {
    hide Derives, Answers, Decimal, Eval, Apply;
    if a in "+-" && b in "*/" {
      SecondFirst(x, v, a, y, w, b, z, u, r);
      Applied(b, w, u);
      if b == '*' || u != 0.0 {
        Applied(a, v, if b == '*' then w * u else w / u);
      }
    } else if a in "+-*/" && b in "+-*/" {
      FirstFirst(x, v, a, y, w, b, z, u, r);
      Applied(a, v, w);
      var p := if a == '+' then v + w else if a == '-' then v - w else if a == '*' then v * w
               else if w != 0.0 then v / w else 0.0;
      Applied(b, p, u);
    }
  }

  /** The answer a value stands for. */
  ghost predicate Told(r: Result<real, CalcError>, value: Option<real>) {
    r == if value.Some? then Ok(value.value) else Err(DivisionByZero)
  }

  lemma FirstFirst(x: string, v: real, a: char, y: string, w: real, b: char, z: string, u: real,
      r: Result<real, CalcError>)
    requires Decimal(x, v) && Decimal(y, w) && Decimal(z, u) && Answers(x + [a] + y + [b] + z, r)
    requires Operator(a) && Operator(b) && !(Additive(a) && Multiplicative(b))
    ensures Told(r, Apply(b, Apply(a, Some(v), Some(w)), Some(u)))
  {
    hide Derives, Answers, Decimal, Eval, Apply, Level;
    Levels();
    var s, j, k := x + [a] + y + [b] + z, |x| + 1, |x| + 1 + |y| + 1;
    assert s[0..0 + |x|] == x && s[j..j + |y|] == y && s[k..k + |z|] == z && s[|x|] == a && s[k - 1] == b;
    var l, m, n := Num(0, x), Num(j, y), Num(k, z);
    NumberNode(Level(a), s, 0, x, v);
    NumberNode(Level(a) + 1, s, j, y, w);
    NumberNode(Level(b) + 1, s, k, z, u);
    OperationNode(Level(b), s, 0, l, m);
    OperationNode(EXPR, s, 0, Bin(|x|, a, l, m), n);
    TreeAnswers(Bin(k - 1, b, Bin(|x|, a, l, m), n), s, r);
  }

  lemma SecondFirst(x: string, v: real, a: char, y: string, w: real, b: char, z: string, u: real,
      r: Result<real, CalcError>)
    requires Decimal(x, v) && Decimal(y, w) && Decimal(z, u) && Answers(x + [a] + y + [b] + z, r)
    requires Additive(a) && Multiplicative(b)
    ensures Told(r, Apply(a, Some(v), Apply(b, Some(w), Some(u))))
  {
    hide Derives, Answers, Decimal, Eval, Apply, Level;
    Levels();
    var s, j, k := x + [a] + y + [b] + z, |x| + 1, |x| + 1 + |y| + 1;
    assert s[0..0 + |x|] == x && s[j..j + |y|] == y && s[k..k + |z|] == z && s[|x|] == a && s[k - 1] == b;
    var l, m, n := Num(0, x), Num(j, y), Num(k, z);
    NumberNode(EXPR, s, 0, x, v);
    NumberNode(TERM, s, j, y, w);
    NumberNode(FACTOR, s, k, z, u);
    OperationNode(TERM, s, j, m, n);
    OperationNode(EXPR, s, 0, l, Bin(k - 1, b, m, n));
    TreeAnswers(Bin(|x|, a, l, Bin(k - 1, b, m, n)), s, r);
  }

  /** Brackets bind first. */
  lemma BracketsAnswer(x: string, v: real, y: string, w: real, z: string, u: real, r: Result<real, CalcError>)
    requires Decimal(x, v) && Decimal(y, w) && Decimal(z, u) && Answers("(" + x + "+" + y + ")*" + z, r)
    ensures r == Ok(Times(v + w, u))
  {
    hide Answers, Decimal, Apply;
    BracketsFirst(x, v, y, w, z, u, r);
    Applied('+', v, w);
    Applied('*', v + w, u);
  }

  lemma BracketsFirst(x: string, v: real, y: string, w: real, z: string, u: real, r: Result<real, CalcError>)
    requires Decimal(x, v) && Decimal(y, w) && Decimal(z, u) && Answers("(" + x + "+" + y + ")*" + z, r)
    ensures Told(r, Apply('*', Apply('+', Some(v), Some(w)), Some(u)))
  {
    hide Derives, Answers, Decimal, Eval, Apply, Level;
    Levels();
    var s, j, k := "(" + x + "+" + y + ")*" + z, 1 + |x| + 1, 1 + |x| + 1 + |y| + 2;
    assert s[1..1 + |x|] == x && s[j..j + |y|] == y && s[k..k + |z|] == z;
    assert s[0] == '(' && s[j - 1] == '+' && s[k - 2] == ')' && s[k - 1] == '*';
    var l, m, n := Num(1, x), Num(j, y), Num(k, z);
    NumberNode(EXPR, s, 1, x, v);
    NumberNode(TERM, s, j, y, w);
    NumberNode(FACTOR, s, k, z, u);
    OperationNode(EXPR, s, 1, l, m);
    BracketNode(TERM, s, 0, Bin(j - 1, '+', l, m));
    OperationNode(EXPR, s, 0, Group(0, Bin(j - 1, '+', l, m), k - 2), n);
    TreeAnswers(Bin(k - 1, '*', Group(0, Bin(j - 1, '+', l, m), k - 2), n), s, r);
  }

  lemma Levels()
    ensures forall c | Additive(c) :: Level(c) == EXPR
    ensures forall c | Multiplicative(c) :: Level(c) == TERM
  {
  }

  // ----- How phrases group -----

  /**
   * Without brackets an addition or subtraction is never an operand of a multiplication or division, and
   * no operation is the right operand of one that binds as tightly, or the operand of a sign.
   */
  ghost predicate Grouped(t: Tree) {
    match t
    case Num(_, _) => true
    case Neg(_, e) => !e.Bin? && Grouped(e)
    case Plus(_, e) => !e.Bin? && Grouped(e)
    case Group(_, e, _) => Grouped(e)
    case Bin(_, op, l, r) =>
      && op in "+-*/" && Grouped(l) && Grouped(r)
      && (l.Bin? && op in "*/" ==> l.op in "*/")
      && (r.Bin? ==> op in "+-" && r.op in "*/")
  }

  lemma {:induction false} SentencesGroup(level: nat, t: Tree, s: string, i: nat)
    requires Derives(level, t, s, i)
    ensures Grouped(t)
    ensures t.Bin? && level > EXPR ==> t.op in "*/"
    ensures t.Bin? ==> level < FACTOR
    decreases t
  {
    match t {
      case Num(_, _) =>
      case Neg(at, e) => SentencesGroup(FACTOR, e, s, at + 1);
      case Plus(at, e) => SentencesGroup(FACTOR, e, s, at + 1);
      case Group(at, e, _) => SentencesGroup(EXPR, e, s, at + 1);
      case Bin(at, op, l, r) =>
        SentencesGroup(Level(op), l, s, i);
        SentencesGroup(Level(op) + 1, r, s, at + 1);
    }
  }

  /** White space between tokens is Unicode's, among the characters of one byte. */
  lemma SpacesAreUnicode(c: char)
    ensures IsSpace(c) <==> c as int < 256 && Text.WhiteSpace(c as int)
  {
  }
}
