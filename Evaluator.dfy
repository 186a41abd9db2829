/**
 * `evaluateOperand` and `evaluateAST`: a tree is walked against a data
 * record, each leaf's comparison text being parsed again when it is reached.
 */
module Evaluator {
  import opened Wrappers
  import opened Lexer
  import opened Ast

  /** A scalar held by a data record. */
  datatype Value = Num(n: int) | Str(s: string)

  /** A data record; an attribute with no entry reads as `undefined`. */
  type Record = map<string, Value>

  /**
   * Why an evaluation throws: the leaf text does not match the operand
   * pattern (destructuring a `null` match), a node's name is neither
   * `AND` nor `OR`, or a child is `undefined` (reading `type` of it).
   */
  datatype EvalError = MalformedCondition | UnknownOperator(name: string) | UndefinedNode

  datatype CompOp = Gt | Lt | Eq

  /** The three groups of the operand pattern. */
  datatype Condition = Condition(attribute: string, op: CompOp, literal: string)

  /** The value class `['"\w\d]` of the operand pattern; unlike the tokenizer's it admits `"`. */
  predicate IsOperandValueChar(c: char)
  {
    IsWordChar(c) || c == '\'' || c == '"'
  }

  function OpOf(c: char): CompOp
  {
    if c == '>' then Gt else if c == '<' then Lt else Eq
  }

  function OpChar(op: CompOp): char
  {
    match op
    case Gt => '>'
    case Lt => '<'
    case Eq => '='
  }

  // ---------------------------------------------------------------------
  // Re-parsing a leaf
  // ---------------------------------------------------------------------

  /** The leftmost position at or after `k` where the operand pattern matches. */
  function FirstComparison(text: string, k: nat): (r: Option<nat>)
    requires k <= |text|
    ensures r.Some? ==> k <= r.value < |text| && ComparisonAt(text[r.value..], IsOperandValueChar).Some?
    decreases |text| - k
  {
    if k == |text| then None
    else if ComparisonAt(text[k..], IsOperandValueChar).Some? then Some(k)
    else FirstComparison(text, k + 1)
  }

  /** `operand.match(...)`, destructured into attribute, symbol and literal. */
  function ParseCondition(text: string): Result<Condition, EvalError>
  {
    match FirstComparison(text, 0)
    case None => Err(MalformedCondition)
    case Some(k) =>
      var t := text[k..];
      ComparisonAtIsRuns(t, IsOperandValueChar);
      var m := ComparisonAt(t, IsOperandValueChar).value;
      Ok(Condition(t[..m.attrEnd], OpOf(t[m.opPos]), t[m.valueStart..m.end]))
  }

  /** The match is the leftmost one: the pattern matches at no earlier position. */
  lemma {:induction false} FirstComparisonLeftmost(text: string, k: nat)
    requires k <= |text|
    ensures var r := FirstComparison(text, k);
            forall j | k <= j < (if r.Some? then r.value else |text|) ::
              ComparisonAt(text[j..], IsOperandValueChar).None? && !PatternMatchesAt(text[j..], IsOperandValueChar)
    decreases |text| - k
  {
    if k < |text| && ComparisonAt(text[k..], IsOperandValueChar).None? {
      ComparisonAtIffPattern(text[k..], IsOperandValueChar);
      FirstComparisonLeftmost(text, k + 1);
    }
  }

  /** A leaf text is malformed exactly when the pattern matches nowhere in it. */
  lemma MalformedIffNoMatch(text: string)
    ensures ParseCondition(text).Err? <==>
            forall j | 0 <= j < |text| :: ComparisonAt(text[j..], IsOperandValueChar).None?
    ensures ParseCondition(text).Err? <==>
            forall j | 0 <= j < |text| :: !PatternMatchesAt(text[j..], IsOperandValueChar)
  {
    FirstComparisonLeftmost(text, 0);
    if ParseCondition(text).Ok? {
      var k := FirstComparison(text, 0).value;
      ComparisonAtIffPattern(text[k..], IsOperandValueChar);
    }
  }

  /** A condition the pattern reads back exactly. */
  predicate WellFormedCondition(c: Condition)
  {
    && |c.attribute| > 0 && (forall i | 0 <= i < |c.attribute| :: IsWordChar(c.attribute[i]))
    && |c.literal| > 0 && (forall i | 0 <= i < |c.literal| :: IsOperandValueChar(c.literal[i]))
  }

  /** A condition written out as `attribute op literal`. */
  function ShowCondition(c: Condition): string
  {
    c.attribute + Spaced(c.op) + c.literal
  }

  /** The comparison symbol with a space on each side. */
  function Spaced(op: CompOp): string
  {
    [' ', OpChar(op), ' ']
  }

  lemma RunEndSpaceOp(rest: string, c: Condition)
    requires WellFormedCondition(c)
    requires rest == Spaced(c.op) + c.literal
    ensures RunEnd(rest, 0, IsSpace) == 1 && RunEnd(rest, 2, IsSpace) == 3
  {
    assert rest[0] == ' ' && rest[1] == OpChar(c.op) && rest[2] == ' ';
    if |rest| > 3 {
      assert rest[3] == c.literal[0];
    }
  }

  /** The attribute run of a written-out condition stops at the first blank. */
  lemma AttributeRunOfShow(c: Condition)
    requires WellFormedCondition(c)
    ensures RunEnd(ShowCondition(c), 0, IsWordChar) == |c.attribute|
  {
    var rest := Spaced(c.op) + c.literal;
    assert ShowCondition(c) == c.attribute + rest;
    RunEndAll(c.attribute, 0, IsWordChar);
    RunEndConcat(c.attribute, rest, 0, IsWordChar);
    assert rest[0] == ' ';
  }

  /** The blank runs of a written-out condition are the single spaces around the symbol. */
  lemma SpaceRunsOfShow(c: Condition)
    requires WellFormedCondition(c)
    ensures RunEnd(ShowCondition(c), |c.attribute|, IsSpace) == |c.attribute| + 1
    ensures RunEnd(ShowCondition(c), |c.attribute| + 2, IsSpace) == |c.attribute| + 3
  {
    var rest := Spaced(c.op) + c.literal;
    assert ShowCondition(c) == c.attribute + rest;
    RunEndSpaceOp(rest, c);
    RunEndShift(c.attribute, rest, 0, IsSpace);
    RunEndShift(c.attribute, rest, 2, IsSpace);
  }

  /** The value run of a written-out condition is the whole literal. */
  lemma ValueRunOfShow(c: Condition)
    requires WellFormedCondition(c)
    ensures RunEnd(ShowCondition(c), |c.attribute| + 3, IsOperandValueChar) == |ShowCondition(c)|
  {
    var head := Spaced(c.op);
    var rest := head + c.literal;
    assert ShowCondition(c) == c.attribute + rest;
    RunEndAll(c.literal, 0, IsOperandValueChar);
    RunEndShift(head, c.literal, 0, IsOperandValueChar);
    RunEndShift(c.attribute, rest, 3, IsOperandValueChar);
  }

  /** The runs of the pattern over a written-out condition. */
  lemma ShowConditionMatch(c: Condition)
    requires WellFormedCondition(c)
    ensures ComparisonAt(ShowCondition(c), IsOperandValueChar)
         == Some(Comparison(|c.attribute|, |c.attribute| + 1, |c.attribute| + 3, |ShowCondition(c)|))
  {
    var a := c.attribute;
    var text := ShowCondition(c);
    AttributeRunOfShow(c);
    SpaceRunsOfShow(c);
    ValueRunOfShow(c);
    assert text[|a| + 1] == OpChar(c.op);
    RunsAreComparisonAt(text, Comparison(|a|, |a| + 1, |a| + 3, |text|), IsOperandValueChar);
  }

  /** Writing a condition out and parsing it again gives the condition back. */
  lemma ParseShowCondition(c: Condition)
    requires WellFormedCondition(c)
    ensures ParseCondition(ShowCondition(c)) == Ok(c)
  {
    var a, lit := c.attribute, c.literal;
    var text := ShowCondition(c);
    ShowConditionMatch(c);
    assert text[0..] == text;
    assert FirstComparison(text, 0) == Some(0);
    var m := ComparisonAt(text, IsOperandValueChar).value;
    assert m.attrEnd == |a| && m.opPos == |a| + 1 && m.valueStart == |a| + 3 && m.end == |text|;
    assert text[..|a|] == a;
    assert text[|a| + 3..|text|] == lit;
    assert text[|a| + 1] == OpChar(c.op);
    assert OpOf(OpChar(c.op)) == c.op;
    assert ParseCondition(text) == Ok(Condition(text[..m.attrEnd], OpOf(text[m.opPos]), text[m.valueStart..m.end]));
  }

  // ---------------------------------------------------------------------
  // The literal
  // ---------------------------------------------------------------------

  predicate IsDigit(c: char)
  {
    '0' <= c <= '9'
  }

  /** A non-empty run of decimal digits, the only numeric form a literal of the value class can take here. */
  predicate IsDecimal(s: string)
  {
    |s| > 0 && forall i | 0 <= i < |s| :: IsDigit(s[i])
  }

  function DigitValue(c: char): nat
    requires IsDigit(c)
  {
    c as int - '0' as int
  }

  function DecimalValue(s: string): nat
    requires forall i | 0 <= i < |s| :: IsDigit(s[i])
  {
    if s == [] then 0 else DecimalValue(s[..|s| - 1]) * 10 + DigitValue(s[|s| - 1])
  }

  /** `value.replace(/['"]/g, '')`. */
  function StripQuotes(s: string): (r: string)
    ensures forall i | 0 <= i < |r| :: r[i] != '\'' && r[i] != '"'
  {
    if s == [] then []
    else (if s[0] == '\'' || s[0] == '"' then [] else [s[0]]) + StripQuotes(s[1..])
  }

  /** `isNaN(value) ? value.replace(/['"]/g, '') : Number(value)`. */
  function ParseLiteral(s: string): Value
  {
    if IsDecimal(s) then Num(DecimalValue(s)) else Str(StripQuotes(s))
  }

  /** The decimal numeral of `n`, without leading zeros. */
  function Decimal(n: nat): (s: string)
    ensures IsDecimal(s)
  {
    if n < 10 then [('0' as int + n) as char] else Decimal(n / 10) + [('0' as int + n % 10) as char]
  }

  lemma {:induction false} DecimalRoundTrip(n: nat)
    ensures DecimalValue(Decimal(n)) == n
  {
    var s := Decimal(n);
    if n >= 10 {
      DecimalRoundTrip(n / 10);
      assert s[..|s| - 1] == Decimal(n / 10);
    }
  }

  /** A numeral literal is compared as the number it denotes. */
  lemma NumeralLiteral(n: nat)
    ensures ParseLiteral(Decimal(n)) == Num(n)
  {
    DecimalRoundTrip(n);
  }

  /** A quoted literal is compared as the string between the quotes, even when that string is all digits. */
  lemma QuotedLiteral(s: string)
    requires forall i | 0 <= i < |s| :: s[i] != '\'' && s[i] != '"'
    ensures ParseLiteral("'" + s + "'") == Str(s)
  {
    var q := "'" + s + "'";
    assert !IsDigit(q[0]);
    assert q == ['\''] + (s + ['\'']);
    StripQuotesPlain(s);
    StripQuotesAppend(s);
  }

  lemma {:induction false} StripQuotesPlain(s: string)
    requires forall i | 0 <= i < |s| :: s[i] != '\'' && s[i] != '"'
    ensures StripQuotes(s) == s
  {
    if s != [] {
      StripQuotesPlain(s[1..]);
    }
  }

  lemma {:induction false} StripQuotesAppend(s: string)
    ensures StripQuotes(s + ['\'']) == StripQuotes(s)
  {
    if s == [] {
      assert StripQuotes(['\'']) == [] + StripQuotes([]);
    } else {
      assert (s + ['\''])[1..] == s[1..] + ['\''];
      StripQuotesAppend(s[1..]);
    }
  }

  // ---------------------------------------------------------------------
  // Comparison with JavaScript's operators
  // ---------------------------------------------------------------------

  /** `s < t` on two strings: code unit by code unit, a proper prefix first. */
  predicate StrLess(s: string, t: string)
  {
    if s == [] then t != []
    else if t == [] then false
    else if s[0] != t[0] then s[0] < t[0]
    else StrLess(s[1..], t[1..])
  }

  lemma {:induction false} StrLessIrreflexive(s: string)
    ensures !StrLess(s, s)
  {
    if s != [] {
      StrLessIrreflexive(s[1..]);
    }
  }

  lemma {:induction false} StrLessTransitive(s: string, t: string, u: string)
    requires StrLess(s, t) && StrLess(t, u)
    ensures StrLess(s, u)
  {
    if s != [] && t != [] && u != [] && s[0] == t[0] && t[0] == u[0] {
      StrLessTransitive(s[1..], t[1..], u[1..]);
    }
  }

  /** Any two different strings are ordered one way or the other. */
  lemma {:induction false} StrLessTotal(s: string, t: string)
    ensures s == t || StrLess(s, t) || StrLess(t, s)
  {
    if s != [] && t != [] && s[0] == t[0] {
      StrLessTotal(s[1..], t[1..]);
      if s[1..] == t[1..] {
        assert s == [s[0]] + s[1..] && t == [t[0]] + t[1..];
      }
    }
  }

  /** `Number(s)` for a string operand: surrounding whitespace ignored, empty is 0; `None` is `NaN`. */
  function ToNumber(s: string): Option<int>
  {
    var t := Trim(s);
    if t == [] then Some(0)
    else if IsDecimal(t) then Some(DecimalValue(t))
    else if t[0] == '-' && IsDecimal(t[1..]) then Some(0 - DecimalValue(t[1..]) as int)
    else if t[0] == '+' && IsDecimal(t[1..]) then Some(DecimalValue(t[1..]))
    else None
  }

  function ToNumeric(v: Value): Option<int>
  {
    match v
    case Num(n) => Some(n)
    case Str(s) => ToNumber(s)
  }

  /** `x < y`: two strings compare as strings, anything else as numbers, and `NaN` is never less. */
  predicate Less(x: Value, y: Value)
  {
    if x.Str? && y.Str? then StrLess(x.s, y.s)
    else ToNumeric(x).Some? && ToNumeric(y).Some? && ToNumeric(x).value < ToNumeric(y).value
  }

  function Lookup(data: Record, attribute: string): Option<Value>
  {
    if attribute in data then Some(data[attribute]) else None
  }

  /**
   * The `switch (operator)` of `evaluateOperand`; `undefined` is neither
   * ordered against anything nor strictly equal to a literal.
   */
  predicate Compare(x: Option<Value>, op: CompOp, literal: Value)
  {
    match op
    case Gt => x.Some? && Less(literal, x.value)
    case Lt => x.Some? && Less(x.value, literal)
    case Eq => x == Some(literal)
  }

  /** `evaluateOperand(operand, data)`. */
  function EvalOperand(operand: string, data: Record): Result<bool, EvalError>
  {
    match ParseCondition(operand)
    case Err(e) => Err(e)
    case Ok(c) => Ok(Compare(Lookup(data, c.attribute), c.op, ParseLiteral(c.literal)))
  }

  /** At most one of `>`, `<` and `=` holds between a record value and a literal. */
  lemma CompareExclusive(x: Option<Value>, literal: Value)
    ensures !(Compare(x, Gt, literal) && Compare(x, Lt, literal))
    ensures !(Compare(x, Gt, literal) && Compare(x, Eq, literal))
    ensures !(Compare(x, Lt, literal) && Compare(x, Eq, literal))
  {
    if x.Some? && x.value.Str? && literal.Str? {
      StrLessIrreflexive(literal.s);
      if StrLess(literal.s, x.value.s) && StrLess(x.value.s, literal.s) {
        StrLessTransitive(literal.s, x.value.s, literal.s);
      }
    }
  }

  /** Between values of the same type exactly one of `>`, `<` and `=` holds. */
  lemma CompareTrichotomy(x: Value, literal: Value)
    requires x.Num? == literal.Num?
    ensures Compare(Some(x), Gt, literal) || Compare(Some(x), Lt, literal) || Compare(Some(x), Eq, literal)
  {
    if x.Str? {
      StrLessTotal(x.s, literal.s);
    }
  }

  /** An attribute missing from the record satisfies no comparison. */
  lemma MissingAttributeIsFalse(op: CompOp, literal: Value)
    ensures !Compare(None, op, literal)
  {
  }

  // ---------------------------------------------------------------------
  // Walking the tree
  // ---------------------------------------------------------------------

  /** The verdict of a node labelled `name` from its children's: the left error first, then the right one, then the label. */
  function Join(name: string, left: Result<bool, EvalError>, right: Result<bool, EvalError>): Result<bool, EvalError>
  {
    if left.Err? then left
    else if right.Err? then right
    else if name == "AND" then Ok(left.value && right.value)
    else if name == "OR" then Ok(left.value || right.value)
    else Err(UnknownOperator(name))
  }

  /**
   * `evaluateAST(node, data)`: both children are evaluated, left first,
   * before the name is looked at.
   */
  function Eval(node: Node, data: Record): Result<bool, EvalError>
  {
    match node
    case Leaf(v) => EvalOperand(v, data)
    case Op(name, l, r) => Join(name, Eval(l, data), Eval(r, data))
    case Undefined => Err(UndefinedNode)
    case Untyped => Ok(false)
  }

  /** What a short-circuiting evaluator would give: the right child is skipped once the left one decides. */
  function EvalShortCircuit(node: Node, data: Record): Result<bool, EvalError>
  {
    match node
    case Leaf(v) => EvalOperand(v, data)
    case Op(name, l, r) =>
      var left := EvalShortCircuit(l, data);
      if left.Err? then left
      else if name == "AND" && !left.value then Ok(false)
      else if name == "OR" && left.value then Ok(true)
      else
        var right := EvalShortCircuit(r, data);
        if right.Err? then right
        else if name == "AND" || name == "OR" then Ok(right.value)
        else Err(UnknownOperator(name))
    case Undefined => Err(UndefinedNode)
    case Untyped => Ok(false)
  }

  /** Whenever the eager walk succeeds, short-circuiting would give the same verdict. */
  lemma {:induction false} EagerAgreesWhenDefined(node: Node, data: Record)
    requires Eval(node, data).Ok?
    ensures EvalShortCircuit(node, data) == Eval(node, data)
  {
    match node
    case Leaf(_) =>
    case Op(name, l, r) =>
      EagerAgreesWhenDefined(l, data);
      EagerAgreesWhenDefined(r, data);
    case Undefined =>
    case Untyped =>
  }

  /** A connective succeeds exactly when both children and its name do: an error on either side is never masked. */
  lemma EvalOpOk(name: string, l: Node, r: Node, data: Record)
    ensures Eval(Op(name, l, r), data).Ok? <==>
            Eval(l, data).Ok? && Eval(r, data).Ok? && (name == "AND" || name == "OR")
  {
  }

  /**
   * The eager walk raises the right child's error even when the left child
   * already decides an `AND` or an `OR`, where short-circuiting would not.
   */
  lemma EagerRaisesDespiteDecidedLeft(name: string, l: Node, r: Node, data: Record)
    requires name == "AND" || name == "OR"
    requires Eval(l, data) == Ok(name == "OR") && Eval(r, data).Err?
    ensures Eval(Op(name, l, r), data) == Eval(r, data)
    ensures EvalShortCircuit(Op(name, l, r), data) == Ok(name == "OR")
  {
    EagerAgreesWhenDefined(l, data);
  }

  /** A leaf text with no word character matches nowhere, so evaluating it throws. */
  lemma NoWordCharIsMalformed(text: string, data: Record)
    requires forall i | 0 <= i < |text| :: !IsWordChar(text[i])
    ensures Eval(Leaf(text), data) == Err(MalformedCondition)
  {
    forall j | 0 <= j < |text|
      ensures ComparisonAt(text[j..], IsOperandValueChar).None?
    {
      assert text[j..][0] == text[j];
    }
    MalformedIffNoMatch(text);
  }

  /** A written-out condition compares the record's attribute with the parsed literal. */
  lemma EvalShowCondition(c: Condition, data: Record)
    requires WellFormedCondition(c)
    ensures Eval(Leaf(ShowCondition(c)), data) == Ok(Compare(Lookup(data, c.attribute), c.op, ParseLiteral(c.literal)))
  {
    ParseShowCondition(c);
  }

  /**
   * `status = 'active'` holds for "active" and for nothing else, "Active"
   * included: `=` is strict and case-sensitive, and a missing attribute fails.
   */
  lemma StrictEquality(attribute: string, v: string, other: Value)
    requires |attribute| > 0 && forall i | 0 <= i < |attribute| :: IsWordChar(attribute[i])
    requires forall i | 0 <= i < |v| :: IsWordChar(v[i])
    requires other != Str(v)
    ensures var rule := ShowCondition(Condition(attribute, Eq, "'" + v + "'"));
            && Eval(Leaf(rule), map[attribute := Str(v)]) == Ok(true)
            && Eval(Leaf(rule), map[attribute := other]) == Ok(false)
            && Eval(Leaf(rule), map[]) == Ok(false)
  {
    var c := Condition(attribute, Eq, "'" + v + "'");
    assert c.literal == ['\''] + v + ['\''];
    assert WellFormedCondition(c);
    QuotedLiteral(v);
    EvalShowCondition(c, map[attribute := Str(v)]);
    EvalShowCondition(c, map[attribute := other]);
    EvalShowCondition(c, map[]);
  }

  /** A quoted numeral is a string, so `age = '30'` fails against the number 30. */
  lemma QuotedNumberIsString(attribute: string, n: nat)
    requires |attribute| > 0 && forall i | 0 <= i < |attribute| :: IsWordChar(attribute[i])
    ensures Eval(Leaf(ShowCondition(Condition(attribute, Eq, "'" + Decimal(n) + "'"))), map[attribute := Num(n)]) == Ok(false)
  {
    var d := Decimal(n);
    var c := Condition(attribute, Eq, "'" + d + "'");
    assert c.literal == ['\''] + d + ['\''];
    assert WellFormedCondition(c);
    QuotedLiteral(d);
    EvalShowCondition(c, map[attribute := Num(n)]);
  }

  /** An unquoted numeral is a number, so `age = 30` holds against the number 30. */
  lemma NumeralEqualsNumber(attribute: string, n: nat)
    requires |attribute| > 0 && forall i | 0 <= i < |attribute| :: IsWordChar(attribute[i])
    ensures Eval(Leaf(ShowCondition(Condition(attribute, Eq, Decimal(n)))), map[attribute := Num(n)]) == Ok(true)
  {
    var c := Condition(attribute, Eq, Decimal(n));
    NumeralLiteral(n);
    assert IsDecimal(c.literal);
    assert WellFormedCondition(c);
    EvalShowCondition(c, map[attribute := Num(n)]);
  }

  /** `>` against a numeral reads a numeric string in the record as its number. */
  lemma NumericStringComparesAsNumber(attribute: string, n: nat, m: nat)
    requires |attribute| > 0 && forall i | 0 <= i < |attribute| :: IsWordChar(attribute[i])
    ensures Eval(Leaf(ShowCondition(Condition(attribute, Gt, Decimal(m)))), map[attribute := Str(Decimal(n))]) == Ok(n > m)
  {
    NumeralLiteral(m);
    var data := map[attribute := Str(Decimal(n))];
    EvalShowCondition(Condition(attribute, Gt, Decimal(m)), data);
    assert Lookup(data, attribute) == Some(Str(Decimal(n)));
    NumberBelowNumeral(m, n);
  }

  lemma NumberBelowNumeral(m: int, n: nat)
    ensures Less(Num(m), Str(Decimal(n))) <==> m < n
  {
    DecimalToNumber(n);
  }

  /** A record string holding a numeral converts to its number. */
  lemma DecimalToNumber(n: nat)
    ensures ToNumber(Decimal(n)) == Some(n)
  {
    TrimNoEdgeSpace(Decimal(n));
    DecimalRoundTrip(n);
  }

  /** A name other than `AND` or `OR` throws once both children have been evaluated. */
  lemma UnknownLabelThrows(name: string, l: Node, r: Node, data: Record)
    requires name != "AND" && name != "OR"
    requires Eval(l, data).Ok? && Eval(r, data).Ok?
    ensures Eval(Op(name, l, r), data) == Err(UnknownOperator(name))
  {
  }

  /** A node of unknown type is false; an `undefined` child throws. */
  lemma UntypedAndUndefined(data: Record)
    ensures Eval(Untyped, data) == Ok(false)
    ensures Eval(Undefined, data) == Err(UndefinedNode)
    ensures forall l: Node :: Eval(l, data).Ok? ==> Eval(Op("AND", l, Undefined), data) == Err(UndefinedNode)
  {
  }
}
