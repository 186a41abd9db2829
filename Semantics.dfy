/**
 * What a compiled rule means when it is evaluated: the tree `createAST`
 * builds evaluates as the expression it was written from, and none of its
 * leaves is a comparison the evaluator fails to read.
 */
module Semantics {
  import opened Wrappers
  import opened Lexer
  import opened Ast
  import opened Parser
  import opened Grammar
  import opened Evaluator

  /** The intended meaning of an expression: both sides always evaluated, the left error reported first. */
  function Denote(e: Expr, data: Record): Result<bool, EvalError>
  {
    match e
    case Atom(t) => EvalOperand(Trim(t), data)
    case Bin(c, a, b) =>
      (match (Denote(a, data), Denote(b, data))
       case (Err(x), _) => Err(x)
       case (_, Err(y)) => Err(y)
       case (Ok(x), Ok(y)) => Ok(if c == And then x && y else x || y))
    case Group(g) => Denote(g, data)
  }

  lemma {:induction false} EvalToNode(e: Expr, data: Record)
    ensures Eval(ToNode(e), data) == Denote(e, data)
  {
    match e
    case Atom(_) =>
    case Bin(c, a, b) =>
      EvalToNode(a, data);
      EvalToNode(b, data);
    case Group(g) =>
      EvalToNode(g, data);
  }

  /**
   * A rule written from a well-formed expression, with any white space the
   * tokenizer reads through, compiles and evaluates as that expression means.
   */
  lemma CompiledRuleMeansExpr(e: Expr, gaps: seq<string>, data: Record)
    requires WellFormedExpr(e) && Separates(Print(e, 1), gaps)
    ensures Compile(Layout(Print(e, 1), gaps)).Ok?
    ensures Eval(Compile(Layout(Print(e, 1), gaps)).value, data) == Denote(e, data)
  {
    CompileLayout(e, gaps);
    EvalToNode(e, data);
  }

  /** A written-out condition has no surrounding blanks, so the tokenizer's trim keeps it whole. */
  lemma TrimShowCondition(c: Condition)
    requires WellFormedCondition(c)
    ensures Trim(ShowCondition(c)) == ShowCondition(c)
  {
    var s := ShowCondition(c);
    assert s[0] == c.attribute[0];
    assert s[|s| - 1] == c.literal[|c.literal| - 1];
    TrimNoEdgeSpace(s);
  }

  /**
   * `x OR y AND z` evaluates as `x OR (y AND z)`: the tree the parser
   * builds from those tokens takes the verdict of `x` or both of the others.
   */
  lemma PrecedenceDecides(x: Condition, y: Condition, z: Condition, data: Record)
    requires WellFormedCondition(x) && WellFormedCondition(y) && WellFormedCondition(z)
    ensures var tokens := [Cond(ShowCondition(x)), Conn(Or), Cond(ShowCondition(y)), Conn(And), Cond(ShowCondition(z))];
            var holds := (c: Condition) => Compare(Lookup(data, c.attribute), c.op, ParseLiteral(c.literal));
            Eval(Build(ToPostfix(tokens)), data) == Ok(holds(x) || (holds(y) && holds(z)))
  {
    AndBindsTighterRight(ShowCondition(x), ShowCondition(y), ShowCondition(z));
    TrimShowCondition(x);
    TrimShowCondition(y);
    TrimShowCondition(z);
    EvalShowCondition(x, data);
    EvalShowCondition(y, data);
    EvalShowCondition(z, data);
  }

  // ---------------------------------------------------------------------
  // What a stray `(` does at evaluation time
  // ---------------------------------------------------------------------

  /** `( a` compiles to a `(` node with an undefined left child, which fails on that child. */
  lemma StrayOpenFirstFails(a: string, data: Record)
    ensures Eval(Build(ToPostfix([Open, Cond(a)])), data) == Err(UndefinedNode)
  {
    UnmatchedOpenBecomesOperator(a);
  }

  /**
   * `x ( y AND z` compiles to a `(` node whose children both evaluate, so
   * evaluation reaches the label and rejects it as an unknown operator.
   */
  lemma StrayOpenAfterOperandFails(x: Condition, y: Condition, z: Condition, data: Record)
    requires WellFormedCondition(x) && WellFormedCondition(y) && WellFormedCondition(z)
    ensures var tokens := [Cond(ShowCondition(x)), Open, Cond(ShowCondition(y)), Conn(And), Cond(ShowCondition(z))];
            Eval(Build(ToPostfix(tokens)), data) == Err(UnknownOperator("("))
  {
    var sx, sy, sz := ShowCondition(x), ShowCondition(y), ShowCondition(z);
    StrayOpenAfterOperand(sx, sy, sz);
    TrimShowCondition(x);
    TrimShowCondition(y);
    TrimShowCondition(z);
    EvalShowCondition(y, data);
    EvalShowCondition(z, data);
    var inner := Op("AND", Leaf(sy), Leaf(sz));
    assert Eval(inner, data).Ok?;
    EvalShowCondition(x, data);
    UnknownLabelThrows("(", Leaf(sx), inner, data);
  }

  // ---------------------------------------------------------------------
  // Every leaf of a compiled tree is a readable comparison
  // ---------------------------------------------------------------------

  /** The leaves of a build stack, bottom to top. */
  function StackLeaves(stack: seq<Node>): seq<string>
  {
    if stack == [] then [] else StackLeaves(stack[..|stack| - 1]) + Leaves(stack[|stack| - 1])
  }

  lemma {:induction false} PopLeaves(stack: seq<Node>, v: string)
    ensures v in Leaves(Pop(stack).0) || v in StackLeaves(Pop(stack).1) ==> v in StackLeaves(stack)
  {
  }

  lemma AbsorbLeaves(stack: seq<Node>, x: Item, v: string)
    requires v in StackLeaves(Absorb(stack, x))
    ensures v in StackLeaves(stack) || x == OperandItem(v)
  {
    var s' := Absorb(stack, x);
    assert s'[..|s'| - 1] == if x.OperandItem? then stack else Pop(Pop(stack).1).1;
    if x.SymbolItem? {
      PopLeaves(stack, v);
      PopLeaves(Pop(stack).1, v);
    }
  }

  /** A leaf of the built tree comes from the stack it started with or from an operand of the queue. */
  lemma {:induction false} BuildFromLeaves(queue: seq<Item>, stack: seq<Node>, v: string)
    requires v in Leaves(BuildFrom(queue, stack))
    ensures v in StackLeaves(stack) || OperandItem(v) in queue
    decreases |queue|
  {
    if queue == [] {
      PopLeaves(stack, v);
    } else {
      BuildFromLeaves(queue[1..], Absorb(stack, queue[0]), v);
      if v in StackLeaves(Absorb(stack, queue[0])) {
        AbsorbLeaves(stack, queue[0], v);
      }
    }
  }

  lemma {:induction false} OperandInOperands(items: seq<Item>, v: string)
    requires OperandItem(v) in items
    ensures v in Operands(items)
  {
    var last := items[|items| - 1];
    if last != OperandItem(v) {
      assert OperandItem(v) in items[..|items| - 1] by {
        var k :| 0 <= k < |items| && items[k] == OperandItem(v);
        assert items[..|items| - 1][k] == items[k];
      }
      OperandInOperands(items[..|items| - 1], v);
    }
  }

  lemma {:induction false} CondTextsFromTokens(ts: seq<Token>, v: string)
    requires v in CondTexts(ts)
    ensures exists t | t in ts :: t.Cond? && v == Trim(t.text)
  {
    if !(ts[0].Cond? && v == Trim(ts[0].text)) {
      CondTextsFromTokens(ts[1..], v);
      var t :| t in ts[1..] && t.Cond? && v == Trim(t.text);
      assert t in ts;
    }
  }

  /** Every leaf of a tree `createAST` returns is a comparison that `evaluateOperand` reads without throwing. */
  lemma CompiledLeavesParse(ruleString: string)
    requires Compile(ruleString).Ok?
    ensures forall v | v in Leaves(Compile(ruleString).value) :: ParseCondition(v).Ok?
  {
    var ts := Tokenize(ruleString).value;
    assert forall c :: IsTokenValueChar(c) ==> IsOperandValueChar(c);
    TokenizedConditionsAreComparisons(ruleString, IsOperandValueChar);
    forall v | v in Leaves(Compile(ruleString).value)
      ensures ParseCondition(v).Ok?
    {
      BuildFromLeaves(ToPostfix(ts), [], v);
      OperandInOperands(ToPostfix(ts), v);
      OperandOrder(ts);
      CondTextsFromTokens(ts, v);
      var t :| t in ts && t.Cond? && v == Trim(t.text);
      assert v[0..] == v;
    }
  }

  /** A tree whose leaves all parse never throws `MalformedCondition`. */
  lemma {:induction false} ParsedLeavesNeverMalformed(n: Node, data: Record)
    requires forall v | v in Leaves(n) :: ParseCondition(v).Ok?
    ensures Eval(n, data) != Err(MalformedCondition)
  {
    match n
    case Leaf(v) =>
      assert v in Leaves(n);
    case Op(_, l, r) =>
      ParsedLeavesNeverMalformed(l, data);
      ParsedLeavesNeverMalformed(r, data);
    case Undefined =>
    case Untyped =>
  }

  /** Evaluating a compiled rule never fails on a malformed comparison. */
  lemma CompiledNeverMalformed(ruleString: string, data: Record)
    requires Compile(ruleString).Ok?
    ensures Eval(Compile(ruleString).value, data) != Err(MalformedCondition)
  {
    CompiledLeavesParse(ruleString);
    ParsedLeavesNeverMalformed(Compile(ruleString).value, data);
  }
}
