/** The scientific calculator page: one pure transition per key press over
    the display, the formula, the "result shown" flag, the inverse flag and
    the angle mode. Expression evaluation, the floating-point scientific
    functions and number formatting are parameters (`Numerics`). */
module Calculator {
  import opened Base

  type DigitValue = d: int | 0 <= d <= 9

  datatype Operator = Plus | Minus | Times | Divide

  datatype SciFunction = Sin | Cos | Tan | Log | Ln | Sqrt | Square

  datatype AngleMode = Deg | Rad

  /** The buttons of the keypad. */
  datatype Key =
    | Digit(d: DigitValue)
    | Point
    | Op(op: Operator)
    | Clear
    | ClearEntry
    | Backspace
    | Equals
    | PiKey
    | EKey
    | Sci(f: SciFunction)
    | FactorialKey
    | PowerKey
    | Inverse
    | Degrees
    | Radians
    | OpenParen
    | CloseParen

  datatype CalcState = CalcState(
    display: string, formula: string, calculated: bool, isInverse: bool, angleMode: AngleMode)

  const Initial := CalcState("0", "", false, false, Deg)

  /** `Math.PI.toString()` and `Math.E.toString()`, written as whole part,
      point and fraction. */
  const PiText := "3" + "." + "141592653589793"
  const EText := "2" + "." + "718281828459045"

  /** What the page takes from the JavaScript engine: `eval` of a formula
      (None when it throws or yields no number), the scientific functions on
      the display text, `parseInt`, rendering a whole number, and the
      deepest recursion the engine's call stack allows. */
  datatype Numerics = Numerics(
    eval: string -> Option<string>,
    sci: (SciFunction, string, bool, AngleMode) -> string,
    parseInt: string -> Option<int>,
    showNat: nat -> string,
    maxDepth: nat)

  function Glyph(op: Operator): char {
    match op
    case Plus => '+'
    case Minus => '-'
    case Times => '×'
    case Divide => '÷'
  }

  predicate IsOperatorChar(c: char) {
    c == '+' || c == '-' || c == '×' || c == '÷'
  }

  /** The text on each button, which is the value the click handler receives. */
  function KeyLabel(k: Key): (text: string)
    ensures |text| >= 1
  {
    match k
    case Digit(d) => [DigitChar(d)]
    case Point => "."
    case Op(op) => [Glyph(op)]
    case Clear => "C"
    case ClearEntry => "CE"
    case Backspace => "←"
    case Equals => "="
    case PiKey => "π"
    case EKey => "e"
    case Sci(f) =>
      (match f
       case Sin => "sin"
       case Cos => "cos"
       case Tan => "tan"
       case Log => "log"
       case Ln => "ln"
       case Sqrt => "√"
       case Square => "x²")
    case FactorialKey => "x!"
    case PowerKey => "x^y"
    case Inverse => "INV"
    case Degrees => "DEG"
    case Radians => "RAD"
    case OpenParen => "("
    case CloseParen => ")"
  }

  /** The handler's first test: the label is a substring of "0123456789.". */
  predicate StartsFresh(k: Key) {
    Contains("0123456789.", KeyLabel(k))
  }

  /** The handler's second test: the label is one of + - × ÷ =. */
  predicate KeepsResult(k: Key) {
    KeyLabel(k) in ["+", "-", "×", "÷", "="]
  }

  lemma FirstCharAbsent(s: string, t: string)
    requires |t| >= 1 && t[0] !in s
    ensures !Contains(s, t)
  {
    forall i | 0 <= i <= |s| - |t|
      ensures s[i..][..|t|] != t
    {
      assert s[i..][..|t|][0] == s[i];
    }
  }

  /** The substring test accepts exactly the digit keys and the point key. */
  lemma FreshKeys(k: Key)
    ensures StartsFresh(k) <==> k.Digit? || k.Point?
  {
    var s := "0123456789.";
    var text := KeyLabel(k);
    if k.Digit? || k.Point? {
      var at := if k.Digit? then k.d else 10;
      assert s[at..][..1] == text;
    } else {
      OtherLabelHead(k);
      FirstCharAbsent(s, text);
    }
  }

  /** Every other key's label starts with a character that is neither a
      digit nor the point. */
  lemma OtherLabelHead(k: Key)
    requires !(k.Digit? || k.Point?)
    ensures KeyLabel(k)[0] !in "0123456789."
  {
    var c := KeyLabel(k)[0];
    assert !('0' <= c <= '9' || c == '.');
    DigitsAndPoint(c);
  }

  lemma DigitsAndPoint(c: char)
    ensures c in "0123456789." <==> '0' <= c <= '9' || c == '.'
  {
  }

  /** Only the operator keys and "=" leave a shown result marked as such. */
  lemma ResultKeepingKeys(k: Key)
    ensures KeepsResult(k) <==> k.Op? || k.Equals?
  {
  }

  /** `factorial`: None stands for NaN, returned for negative numbers. */
  function Factorial(n: int): (r: Option<nat>)
    ensures r.None? <==> n < 0
    ensures r.Some? ==> r.value >= 1
    decreases if n < 0 then 0 else n
  {
    if n < 0 then None
    else if n == 0 || n == 1 then Some(1)
    else Some(n * Factorial(n - 1).value)
  }

  /** Product lo * (lo + 1) * ... * hi, 1 when the range is empty. */
  function RangeProduct(lo: nat, hi: nat): nat
    decreases hi - lo + 1
  {
    if lo > hi then 1 else lo * RangeProduct(lo + 1, hi)
  }

  lemma {:induction false} RangeProductLast(lo: nat, hi: nat)
    requires 1 <= lo <= hi
    ensures RangeProduct(lo, hi) == RangeProduct(lo, hi - 1) * hi
    decreases hi - lo
  {
    if lo < hi {
      var inner := RangeProduct(lo + 1, hi - 1);
      calc {
        RangeProduct(lo, hi);
        lo * RangeProduct(lo + 1, hi);
        { RangeProductLast(lo + 1, hi); }
        lo * (inner * hi);
        { MulAssociative(lo, inner, hi); }
        (lo * inner) * hi;
        RangeProduct(lo, hi - 1) * hi;
      }
    }
  }

  lemma MulAssociative(a: int, b: int, c: int)
    ensures a * (b * c) == (a * b) * c
  {
  }

  /** On natural numbers `factorial` is n!, the product 1 * 2 * ... * n. */
  lemma {:induction false} FactorialIsProduct(n: nat)
    ensures Factorial(n) == Some(RangeProduct(1, n))
  {
    if n >= 2 {
      FactorialIsProduct(n - 1);
      RangeProductLast(1, n);
    }
  }

  /** `s.replace(/c/g, t)`. */
  function ReplaceAll(s: string, c: char, t: string): (r: string)
    ensures forall x :: x in r ==> x in t || (x in s && x != c)
    ensures c !in s ==> r == s
  {
    if |s| == 0 then []
    else (if s[0] == c then t else [s[0]]) + ReplaceAll(s[1..], c, t)
  }

  /** A character absent from the replacement text, and either absent from
      the input or the one being replaced, is absent from the output. */
  lemma ReplaceAllAbsent(s: string, c: char, t: string, x: char)
    requires x !in t && (x !in s || x == c)
    ensures x !in ReplaceAll(s, c, t)
  {
  }

  /** `evaluateExpression`'s rewriting before `eval`: × to *, ÷ to /, then
      π and e to their decimal expansions, in that order. */
  function Substitute(formula: string): string {
    ReplaceAll(ReplaceAll(ReplaceAll(ReplaceAll(formula, '×', "*"), '÷', "/"), 'π', PiText), 'e', EText)
  }

  predicate IsGlyph(c: char) {
    c == '×' || c == '÷' || c == 'π' || c == 'e'
  }

  lemma TimesStep(formula: string)
    ensures '×' !in ReplaceAll(formula, '×', "*")
  {
    ReplaceAllAbsent(formula, '×', "*", '×');
  }

  lemma DivideStep(s1: string)
    requires '×' !in s1
    ensures var s2 := ReplaceAll(s1, '÷', "/"); '×' !in s2 && '÷' !in s2
  {
    ReplaceAllAbsent(s1, '÷', "/", '×');
    ReplaceAllAbsent(s1, '÷', "/", '÷');
  }

  /** The decimal expansions hold none of the display glyphs. */
  lemma ExpansionsHaveNoGlyph()
    ensures forall i :: 0 <= i < |PiText| ==> !IsGlyph(PiText[i])
    ensures forall i :: 0 <= i < |EText| ==> !IsGlyph(EText[i])
  {
  }

  lemma PiStep(s2: string)
    requires '×' !in s2 && '÷' !in s2
    ensures var s3 := ReplaceAll(s2, 'π', PiText); '×' !in s3 && '÷' !in s3 && 'π' !in s3
  {
    ExpansionsHaveNoGlyph();
    ReplaceAllAbsent(s2, 'π', PiText, '×');
    ReplaceAllAbsent(s2, 'π', PiText, '÷');
    ReplaceAllAbsent(s2, 'π', PiText, 'π');
  }

  lemma EStep(s3: string)
    requires '×' !in s3 && '÷' !in s3 && 'π' !in s3
    ensures var s4 := ReplaceAll(s3, 'e', EText); '×' !in s4 && '÷' !in s4 && 'π' !in s4 && 'e' !in s4
  {
    ExpansionsHaveNoGlyph();
    ReplaceAllAbsent(s3, 'e', EText, '×');
    ReplaceAllAbsent(s3, 'e', EText, '÷');
    ReplaceAllAbsent(s3, 'e', EText, 'π');
    ReplaceAllAbsent(s3, 'e', EText, 'e');
  }

  /** The expression handed to `eval` has none of the display glyphs left. */
  lemma SubstituteRemovesGlyphs(formula: string)
    ensures forall i :: 0 <= i < |Substitute(formula)| ==> !IsGlyph(Substitute(formula)[i])
  {
    var s1 := ReplaceAll(formula, '×', "*");
    var s2 := ReplaceAll(s1, '÷', "/");
    var s3 := ReplaceAll(s2, 'π', PiText);
    TimesStep(formula);
    DivideStep(s1);
    PiStep(s2);
    EStep(s3);
  }

  /** A formula of digits, operators and parentheses reaches `eval` as is. */
  lemma SubstituteKeepsPlainFormula(formula: string)
    requires forall i :: 0 <= i < |formula| ==> !IsGlyph(formula[i])
    ensures Substitute(formula) == formula
  {
    assert '×' !in formula && '÷' !in formula && 'π' !in formula && 'e' !in formula;
  }

  /** The label of a scientific-function key applied to the display text. */
  function SciFormula(f: SciFunction, display: string, isInverse: bool): string {
    match f
    case Sin => (if isInverse then "asin" else "sin") + "(" + display + ")"
    case Cos => (if isInverse then "acos" else "cos") + "(" + display + ")"
    case Tan => (if isInverse then "atan" else "tan") + "(" + display + ")"
    case Log => "log(" + display + ")"
    case Ln => "ln(" + display + ")"
    case Sqrt => "√(" + display + ")"
    case Square => "(" + display + ")²"
  }

  /** "←": drop the last character of display and formula, or reset both
      once the display is down to one character. */
  function BackspaceKey(u: CalcState): (t: CalcState)
    ensures t.calculated == u.calculated && t.isInverse == u.isInverse && t.angleMode == u.angleMode
    ensures |u.display| > 1 ==> t.display + [u.display[|u.display| - 1]] == u.display
    ensures |u.display| > 1 && |u.formula| >= 1 ==> t.formula + [u.formula[|u.formula| - 1]] == u.formula
    ensures |u.display| > 1 && |u.formula| == 0 ==> t.formula == []
    ensures |u.display| <= 1 ==> t.display == "0" && t.formula == ""
  {
    if |u.display| > 1 then
      u.(display := u.display[..|u.display| - 1],
         formula := if |u.formula| == 0 then [] else u.formula[..|u.formula| - 1])
    else u.(display := "0", formula := "")
  }

  /** "=": evaluate the rewritten formula; a result is shown and appended
      to the formula, a failure shows "Error" and leaves the flag alone. */
  function EqualsKey(env: Numerics, u: CalcState): (t: CalcState)
    ensures t.isInverse == u.isInverse && t.angleMode == u.angleMode
    ensures env.eval(Substitute(u.formula)).Some?
            ==> var r := env.eval(Substitute(u.formula)).value;
                t.display == r && t.formula == u.formula + " = " + r && t.calculated
    ensures env.eval(Substitute(u.formula)).None?
            ==> t == u.(display := "Error")
  {
    match env.eval(Substitute(u.formula))
    case Some(r) => u.(display := r, formula := u.formula + " = " + r, calculated := true)
    case None => u.(display := "Error")
  }

  /** + - × ÷: after a result the shown value seeds the formula; otherwise
      a trailing operator is replaced rather than doubled. */
  function OperatorKey(u: CalcState, op: Operator): (t: CalcState)
    ensures t.display == "0" && !t.calculated && t.isInverse == u.isInverse && t.angleMode == u.angleMode
    ensures |t.formula| >= 1 && t.formula[|t.formula| - 1] == Glyph(op)
    ensures u.calculated ==> t.formula[..|t.formula| - 1] == u.display
    ensures !u.calculated && |u.formula| >= 1 && IsOperatorChar(u.formula[|u.formula| - 1])
            ==> t.formula[..|t.formula| - 1] + [u.formula[|u.formula| - 1]] == u.formula
    ensures !u.calculated && (|u.formula| == 0 || !IsOperatorChar(u.formula[|u.formula| - 1]))
            ==> t.formula[..|t.formula| - 1] == u.formula
  {
    if u.calculated then
      u.(formula := u.display + [Glyph(op)], calculated := false, display := "0")
    else if |u.formula| >= 1 && IsOperatorChar(u.formula[|u.formula| - 1]) then
      u.(formula := u.formula[..|u.formula| - 1] + [Glyph(op)], display := "0")
    else
      u.(formula := u.formula + [Glyph(op)], display := "0")
  }

  /** ".": appended to display and formula unless the display has a point. */
  function PointKey(u: CalcState): (t: CalcState)
    ensures '.' in u.display ==> t == u
    ensures '.' !in u.display ==> t.display == u.display + "." && t.formula == u.formula + "."
    ensures t.calculated == u.calculated && t.isInverse == u.isInverse && t.angleMode == u.angleMode
  {
    if '.' in u.display then u
    else u.(display := u.display + ".", formula := u.formula + ".")
  }

  /** A digit replaces a lone "0" on the display and is appended otherwise;
      the formula always grows by the digit. */
  function DigitKey(u: CalcState, d: DigitValue): (t: CalcState)
    ensures t.formula == u.formula + [DigitChar(d)]
    ensures t.display == (if u.display == "0" then [] else u.display) + [DigitChar(d)]
    ensures t.calculated == u.calculated && t.isInverse == u.isInverse && t.angleMode == u.angleMode
  {
    var c := DigitChar(d);
    if u.display == "0" then u.(display := [c], formula := u.formula + [c])
    else u.(display := u.display + [c], formula := u.formula + [c])
  }

  /** "x!": `parseInt` of the display; `factorial` recurses once per unit,
      so NaN, which never reaches the base case, and any n deeper than the
      call stack overflow it, and the catch shows "Error"; a negative number
      shows "NaN"; otherwise n! is shown and marked as a result. */
  function FactorialKeyPress(env: Numerics, u: CalcState): (t: CalcState)
    ensures t.isInverse == u.isInverse && t.angleMode == u.angleMode
    ensures env.parseInt(u.display).None? ==> t == u.(display := "Error")
    ensures env.parseInt(u.display).Some? && env.parseInt(u.display).value > env.maxDepth
            ==> t == u.(display := "Error")
    ensures env.parseInt(u.display).Some? && env.parseInt(u.display).value <= env.maxDepth
            ==> t.formula == u.display + "!" && t.calculated
                && (env.parseInt(u.display).value < 0 <==> t.display == "NaN" && Factorial(env.parseInt(u.display).value).None?)
    ensures env.parseInt(u.display).Some? && 0 <= env.parseInt(u.display).value <= env.maxDepth
            ==> t.display == env.showNat(RangeProduct(1, env.parseInt(u.display).value))
  {
    match env.parseInt(u.display)
    case None => u.(display := "Error")
    case Some(n) =>
      if n < 0 then u.(display := "NaN", formula := u.display + "!", calculated := true)
      else if n > env.maxDepth then u.(display := "Error")
      else
        FactorialIsProduct(n);
        u.(display := env.showNat(Factorial(n).value), formula := u.display + "!", calculated := true)
  }

  /** Line 81 of the handler: a shown result stops being one on every key
      except the operators and "=". */
  function ResetFlag(s: CalcState, k: Key): (u: CalcState)
    ensures u.calculated <==> s.calculated && (k.Op? || k.Equals?)
    ensures u.display == s.display && u.formula == s.formula
    ensures u.isInverse == s.isInverse && u.angleMode == s.angleMode
  {
    ResultKeepingKeys(k);
    if s.calculated && !KeepsResult(k) then s.(calculated := false) else s
  }

  /** The switch of the handler, applied to the state after line 81. */
  function ApplyKey(env: Numerics, u: CalcState, k: Key): CalcState {
    match k
    case Clear => u.(display := "0", formula := "", calculated := false)
    case ClearEntry => u.(display := "0")
    case Backspace => BackspaceKey(u)
    case Equals => EqualsKey(env, u)
    case Op(op) => OperatorKey(u, op)
    case Point => PointKey(u)
    case PiKey => u.(display := PiText, formula := u.formula + PiText)
    case EKey => u.(display := EText, formula := u.formula + EText)
    case Sci(f) =>
      u.(display := env.sci(f, u.display, u.isInverse, u.angleMode),
         formula := SciFormula(f, u.display, u.isInverse), calculated := true)
    case FactorialKey => FactorialKeyPress(env, u)
    case PowerKey => u.(formula := u.formula + "^", display := "0")
    case Inverse => u.(isInverse := !u.isInverse)
    case Degrees => u.(angleMode := Deg)
    case Radians => u.(angleMode := Rad)
    case OpenParen => u.(formula := u.formula + "(")
    case CloseParen => u.(formula := u.formula + ")")
    case Digit(d) => DigitKey(u, d)
  }

  /** `handleButtonClick`: the state after one key press. */
  function Press(env: Numerics, s: CalcState, k: Key): (t: CalcState)
    ensures t.angleMode == (if k.Degrees? then Deg else if k.Radians? then Rad else s.angleMode)
    ensures t.isInverse == (if k.Inverse? then !s.isInverse else s.isInverse)
    ensures s.calculated && (k.Digit? || k.Point?)
            ==> t.display == KeyLabel(k) && t.formula == KeyLabel(k) && !t.calculated
    ensures k.Clear? ==> t.display == "0" && t.formula == "" && !t.calculated
    ensures k.ClearEntry? ==> t.display == "0" && t.formula == s.formula
    ensures (k.Inverse? || k.Degrees? || k.Radians?) ==> t.display == s.display && t.formula == s.formula
    ensures !(k.Op? || k.Equals? || k.FactorialKey? || k.Sci?) ==> !t.calculated
    ensures k.Sci? ==> t.calculated && t.formula == SciFormula(k.f, s.display, s.isInverse)
  {
    FreshKeys(k);
    if s.calculated && StartsFresh(k) then
      s.(display := KeyLabel(k), formula := KeyLabel(k), calculated := false)
    else ApplyKey(env, ResetFlag(s, k), k)
  }

  /** The two ways through the handler, with the substring test resolved. */
  lemma PressCases(env: Numerics, s: CalcState, k: Key)
    ensures s.calculated && (k.Digit? || k.Point?)
            ==> Press(env, s, k) == s.(display := KeyLabel(k), formula := KeyLabel(k), calculated := false)
    ensures !(s.calculated && (k.Digit? || k.Point?))
            ==> Press(env, s, k) == ApplyKey(env, ResetFlag(s, k), k)
  {
    FreshKeys(k);
  }

  /** After a result, a digit or the point starts a fresh entry showing just
      that key, whatever the result and the formula were. */
  lemma FreshEntryAfterResult(env: Numerics, s1: CalcState, s2: CalcState, k: Key)
    requires s1.calculated && s2.calculated
    requires s1.isInverse == s2.isInverse && s1.angleMode == s2.angleMode
    requires k.Digit? || k.Point?
    ensures Press(env, s1, k) == Press(env, s2, k)
    ensures Press(env, s1, k).display == KeyLabel(k) && Press(env, s1, k).formula == KeyLabel(k)
    ensures !Press(env, s1, k).calculated
  {
    PressCases(env, s1, k);
    PressCases(env, s2, k);
  }

  /** Two digits typed after a result build a new number: the formula holds
      both digits, and the display drops a leading zero. */
  lemma TypingAfterResult(env: Numerics, s: CalcState, a: DigitValue, b: DigitValue)
    requires s.calculated
    ensures var t := Press(env, Press(env, s, Digit(a)), Digit(b));
      && t.display == (if a == 0 then [DigitChar(b)] else [DigitChar(a), DigitChar(b)])
      && t.formula == [DigitChar(a), DigitChar(b)]
      && !t.calculated && t.isInverse == s.isInverse && t.angleMode == s.angleMode
  {
    var t1 := Press(env, s, Digit(a));
    PressCases(env, s, Digit(a));
    PressCases(env, t1, Digit(b));
    assert t1.display == [DigitChar(a)];
    assert ResetFlag(t1, Digit(b)) == t1;
  }

  /** The timer set by a failed "=": 1.5 s later the display and formula
      are cleared. */
  function ErrorTimeout(s: CalcState): (t: CalcState)
    ensures t.display == "0" && t.formula == ""
    ensures t.calculated == s.calculated && t.isInverse == s.isInverse && t.angleMode == s.angleMode
  {
    s.(display := "0", formula := "")
  }

  /** The state after a sequence of key presses. */
  function Run(env: Numerics, s: CalcState, keys: seq<Key>): CalcState
    decreases |keys|
  {
    if |keys| == 0 then s else Run(env, Press(env, s, keys[0]), keys[1..])
  }

  /** Two operators in a row leave only the second: the formula never gets
      a doubled operator from the operator keys. */
  lemma OperatorReplaces(env: Numerics, s: CalcState, a: Operator, b: Operator)
    ensures Press(env, Press(env, s, Op(a)), Op(b)) == Press(env, s, Op(b))
  {
    PressOperator(env, s, a);
    PressOperator(env, OperatorKey(s, a), b);
    PressOperator(env, s, b);
    OperatorKeyTwice(s, a, b);
  }

  /** An operator key goes straight to `OperatorKey`. */
  lemma PressOperator(env: Numerics, s: CalcState, op: Operator)
    ensures Press(env, s, Op(op)) == OperatorKey(s, op)
  {
    PressCases(env, s, Op(op));
    assert ResetFlag(s, Op(op)) == s;
  }

  lemma OperatorKeyTwice(s: CalcState, a: Operator, b: Operator)
    ensures OperatorKey(OperatorKey(s, a), b) == OperatorKey(s, b)
  {
    var t := OperatorKey(s, a);
    var x := if s.calculated then s.display
             else if |s.formula| >= 1 && IsOperatorChar(s.formula[|s.formula| - 1]) then s.formula[..|s.formula| - 1]
             else s.formula;
    assert t.formula == x + [Glyph(a)];
    assert t.formula[..|t.formula| - 1] == x;
  }

  /** A digit typed onto a multi-character entry is undone by "←". */
  lemma BackspaceUndoesDigit(env: Numerics, s: CalcState, d: DigitValue)
    requires !s.calculated && s.display != "0" && |s.display| >= 1
    ensures Press(env, Press(env, s, Digit(d)), Backspace) == s
  {
    var t := Press(env, s, Digit(d));
    PressCases(env, s, Digit(d));
    PressCases(env, t, Backspace);
    assert t.display[..|t.display| - 1] == s.display;
    assert t.formula[..|t.formula| - 1] == s.formula;
  }

  /** "INV" twice restores the inverse flag and leaves the entry alone. */
  lemma InverseTwice(env: Numerics, s: CalcState)
    requires !s.calculated
    ensures Press(env, Press(env, s, Inverse), Inverse) == s
  {
    PressCases(env, s, Inverse);
    PressCases(env, Press(env, s, Inverse), Inverse);
  }

  /** "C" lands in the initial entry state, and pressing it again changes nothing. */
  lemma ClearIdempotent(env: Numerics, s: CalcState)
    ensures Press(env, s, Clear) == Initial.(isInverse := s.isInverse, angleMode := s.angleMode)
    ensures Press(env, Press(env, s, Clear), Clear) == Press(env, s, Clear)
  {
    PressCases(env, s, Clear);
    PressCases(env, Press(env, s, Clear), Clear);
  }

  /** A display text the page can show: non-empty, with at most one point. */
  predicate DisplayOk(text: string) {
    |text| >= 1 && Count(text, '.') <= 1
  }

  /** JavaScript renders every number as a non-empty text with at most one
      decimal point. */
  ghost predicate WellBehaved(env: Numerics) {
    && (forall e :: env.eval(e).Some? ==> DisplayOk(env.eval(e).value))
    && (forall f, d, inv, m :: DisplayOk(env.sci(f, d, inv, m)))
    && (forall n :: DisplayOk(env.showNat(n)))
  }

  lemma DropLastCount(s: string)
    requires |s| >= 1
    ensures Count(s[..|s| - 1], '.') <= Count(s, '.')
  {
    assert s == s[..|s| - 1] + [s[|s| - 1]];
    assert multiset(s) == multiset(s[..|s| - 1]) + multiset{s[|s| - 1]};
  }

  lemma AppendCount(s: string, c: char)
    ensures Count(s + [c], '.') == Count(s, '.') + (if c == '.' then 1 else 0)
  {
    assert multiset(s + [c]) == multiset(s) + multiset{c};
  }

  lemma NoPointCount(s: string)
    requires '.' !in s
    ensures Count(s, '.') == 0
  {
  }

  /** A decimal expansion "digits.digits" has exactly one point. */
  lemma DecimalTextCount(whole: string, fraction: string)
    requires '.' !in whole && '.' !in fraction
    ensures Count(whole + "." + fraction, '.') == 1
  {
    assert multiset(whole + "." + fraction) == multiset(whole) + multiset{'.'} + multiset(fraction);
  }

  /** The fixed texts the page puts on the display are well-formed. */
  lemma PlainTextsOk()
    ensures DisplayOk("0") && DisplayOk("Error") && DisplayOk("NaN")
  {
    NoPointCount("0");
    NoPointCount("Error");
    NoPointCount("NaN");
  }

  lemma PiTextOk()
    ensures DisplayOk(PiText)
  {
    DecimalTextCount("3", "141592653589793");
  }

  lemma ETextOk()
    ensures DisplayOk(EText)
  {
    DecimalTextCount("2", "718281828459045");
  }

  /** The editing keys keep the display well-formed. */
  lemma EditKeepsDisplay(env: Numerics, u: CalcState, k: Key)
    requires DisplayOk(u.display)
    requires k.Backspace? || k.Point? || k.Digit?
    ensures DisplayOk(ApplyKey(env, u, k).display)
  {
    var t := ApplyKey(env, u, k);
    match k
    case Backspace =>
      assert t == BackspaceKey(u);
      if |u.display| > 1 {
        DropLastCount(u.display);
      } else {
        PlainTextsOk();
      }
    case Point =>
      assert t == PointKey(u);
      if '.' !in u.display {
        NoPointCount(u.display);
        AppendCount(u.display, '.');
      }
    case Digit(d) =>
      assert t == DigitKey(u, d);
      if u.display == "0" {
        NoPointCount([DigitChar(d)]);
      } else {
        AppendCount(u.display, DigitChar(d));
      }
  }

  /** The keys that show a computed or constant value keep the display
      well-formed. */
  lemma ValueKeepsDisplay(env: Numerics, u: CalcState, k: Key)
    requires WellBehaved(env)
    requires k.PiKey? || k.EKey? || k.Equals? || k.FactorialKey? || k.Sci?
    ensures DisplayOk(ApplyKey(env, u, k).display)
  {
    if k.PiKey? || k.EKey? {
      ConstantKeysDisplay(env, u);
      PiTextOk();
      ETextOk();
    } else if k.Equals? {
      assert ApplyKey(env, u, k) == EqualsKey(env, u);
      EqualsKeepsDisplay(env, u);
    } else if k.FactorialKey? {
      assert ApplyKey(env, u, k) == FactorialKeyPress(env, u);
      FactorialKeepsDisplay(env, u);
    } else {
      assert ApplyKey(env, u, k).display == env.sci(k.f, u.display, u.isInverse, u.angleMode);
    }
  }

  /** π and e show their decimal expansions. */
  lemma ConstantKeysDisplay(env: Numerics, u: CalcState)
    ensures ApplyKey(env, u, PiKey).display == PiText
    ensures ApplyKey(env, u, EKey).display == EText
  {
  }

  lemma EqualsKeepsDisplay(env: Numerics, u: CalcState)
    requires WellBehaved(env)
    ensures DisplayOk(EqualsKey(env, u).display)
  {
    PlainTextsOk();
  }

  lemma FactorialKeepsDisplay(env: Numerics, u: CalcState)
    requires WellBehaved(env)
    ensures DisplayOk(FactorialKeyPress(env, u).display)
  {
    PlainTextsOk();
  }

  /** The remaining keys show "0" or leave the display alone. */
  lemma OtherKeepsDisplay(env: Numerics, u: CalcState, k: Key)
    requires DisplayOk(u.display)
    requires !(k.Backspace? || k.Point? || k.Digit? || k.PiKey? || k.EKey? || k.Equals? || k.FactorialKey? || k.Sci?)
    ensures DisplayOk(ApplyKey(env, u, k).display)
  {
    PlainTextsOk();
    if k.Op? {
      assert ApplyKey(env, u, k) == OperatorKey(u, k.op);
    }
  }

  /** The switch keeps the display well-formed. */
  lemma ApplyKeepsDisplay(env: Numerics, u: CalcState, k: Key)
    requires WellBehaved(env) && DisplayOk(u.display)
    ensures DisplayOk(ApplyKey(env, u, k).display)
  {
    if k.Backspace? || k.Point? || k.Digit? {
      EditKeepsDisplay(env, u, k);
    } else if k.PiKey? || k.EKey? || k.Equals? || k.FactorialKey? || k.Sci? {
      ValueKeepsDisplay(env, u, k);
    } else {
      OtherKeepsDisplay(env, u, k);
    }
  }

  /** One key press keeps the display well-formed. */
  lemma PressKeepsDisplay(env: Numerics, s: CalcState, k: Key)
    requires WellBehaved(env) && DisplayOk(s.display)
    ensures DisplayOk(Press(env, s, k).display)
  {
    PressCases(env, s, k);
    if s.calculated && (k.Digit? || k.Point?) {
      if k.Digit? {
        NoPointCount(KeyLabel(k));
      } else {
        AppendCount([], '.');
      }
    } else {
      ApplyKeepsDisplay(env, ResetFlag(s, k), k);
    }
  }

  /** Whatever keys are pressed, the display is never empty and never holds
      a second decimal point. */
  lemma {:induction false} DisplayAlwaysOk(env: Numerics, s: CalcState, keys: seq<Key>)
    requires WellBehaved(env) && DisplayOk(s.display)
    ensures DisplayOk(Run(env, s, keys).display)
    decreases |keys|
  {
    if |keys| > 0 {
      PressKeepsDisplay(env, s, keys[0]);
      DisplayAlwaysOk(env, Press(env, s, keys[0]), keys[1..]);
    }
  }

  /** The timer that clears an error keeps the display well-formed as well. */
  lemma TimeoutKeepsDisplay(s: CalcState)
    ensures DisplayOk(ErrorTimeout(s).display)
  {
    NoPointCount("0");
  }
}
