/**
 * The grammar the rule language is meant to have, and the proof that
 * `createAST` parses it.  An `Expr` is a reference syntax tree; `Print`
 * writes it as tokens with the fewest parentheses that keep its shape
 * under `AND`-before-`OR`, left-associative reading.  The main theorem
 * says the shunting-yard pass and the builder recover the tree from those
 * tokens, and from the text they render to.
 */
module Grammar {
  import opened Wrappers
  import opened Lexer
  import opened Ast
  import opened Parser

  /**
   * A reference syntax tree.  `Group(e)` is `e` written inside a pair of
   * parentheses of its own, wherever it stands, whether or not precedence
   * needs them.
   */
  datatype Expr = Atom(text: string) | Bin(conn: Connective, left: Expr, right: Expr) | Group(inner: Expr)

  /** The binding strength of a connective: its entry in `operatorPrecedence`. */
  function Prec(c: Connective): nat
  {
    Precedence(Conn(c)).value
  }

  /**
   * The tokens of `e` in a context that binds at strength `level`: `e` is
   * parenthesized when its connective binds more loosely than that.  The
   * left operand of `c` sits at strength `Prec(c)`, the right one just
   * above it, which makes a chain of equal connectives group to the left.
   * A `Group` is always parenthesized, and inside it the level starts over.
   */
  function Print(e: Expr, level: nat): seq<Token>
  {
    match e
    case Atom(t) => [Cond(t)]
    case Bin(c, a, b) =>
      var inner := Print(a, Prec(c)) + [Conn(c)] + Print(b, Prec(c) + 1);
      if level > Prec(c) then [Open] + inner + [Close] else inner
    case Group(g) => [Open] + Print(g, 1) + [Close]
  }

  /** The postfix queue that `e` stands for. */
  function Postfix(e: Expr): seq<Item>
  {
    match e
    case Atom(t) => [OperandItem(Trim(t))]
    case Bin(c, a, b) => Postfix(a) + Postfix(b) + [SymbolItem(Conn(c))]
    case Group(g) => Postfix(g)
  }

  /** The node that `e` stands for. */
  function ToNode(e: Expr): Node
  {
    match e
    case Atom(t) => Leaf(Trim(t))
    case Bin(c, a, b) => Op(ConnectiveName(c), ToNode(a), ToNode(b))
    case Group(g) => ToNode(g)
  }

  /** Every comparison of `e` is one the tokenizer reads back whole. */
  predicate WellFormedExpr(e: Expr)
  {
    match e
    case Atom(t) => WellFormedCond(t)
    case Bin(_, a, b) => WellFormedExpr(a) && WellFormedExpr(b)
    case Group(g) => WellFormedExpr(g)
  }

  // ---------------------------------------------------------------------
  // The shunting-yard pass turns a printed expression into its postfix
  // ---------------------------------------------------------------------

  /** What may follow an expression printed at strength `level`. */
  predicate Terminates(rest: seq<Token>, level: nat)
  {
    rest == [] || rest[0] == Close || (rest[0].Conn? && Prec(rest[0].connective) <= level)
  }

  /** The operator stack holds nothing that a connective of strength `level` would pop. */
  predicate OpenBelow(stack: seq<Token>, level: nat)
  {
    stack == [] || Top(stack) == Open || (Top(stack).Conn? && Prec(Top(stack).connective) < level)
  }

  lemma MoveTopPush(out: seq<Item>, stack: seq<Token>, t: Token)
    ensures MoveTop(State(out, stack + [t])) == State(out + [SymbolItem(t)], stack)
  {
    assert (stack + [t])[..|stack|] == stack;
  }

  /** A connective on top of the stack leaves it before whatever may follow its right operand. */
  lemma PopPending(rest: seq<Token>, out: seq<Item>, stack: seq<Token>, c: Connective)
    requires Terminates(rest, Prec(c))
    ensures Finish(rest, State(out, stack + [Conn(c)])) == Finish(rest, State(out + [SymbolItem(Conn(c))], stack))
  {
    var before, after := State(out, stack + [Conn(c)]), State(out + [SymbolItem(Conn(c))], stack);
    MoveTopPush(out, stack, Conn(c));
    if rest == [] {
      assert Drain(before) == Drain(after);
    } else if rest[0] == Close {
      assert PopToOpen(before) == PopToOpen(after);
      assert Step(before, rest[0]) == Step(after, rest[0]);
    } else {
      assert PopWhileHigher(before, rest[0]) == PopWhileHigher(after, rest[0]);
      assert Step(before, rest[0]) == Step(after, rest[0]);
    }
  }

  /** A connective arriving over `OpenBelow` is pushed without popping anything. */
  lemma PushConnective(out: seq<Item>, stack: seq<Token>, c: Connective)
    requires OpenBelow(stack, Prec(c))
    ensures Step(State(out, stack), Conn(c)) == State(out, stack + [Conn(c)])
  {
  }

  /**
   * Reading the printed `e` appends the postfix of `e` to the queue and
   * leaves the operator stack as it was.
   */
  lemma {:induction false} ShuntPrint(e: Expr, level: nat, rest: seq<Token>, out: seq<Item>, stack: seq<Token>)
    requires 1 <= level
    requires OpenBelow(stack, level) && Terminates(rest, level)
    ensures Finish(Print(e, level) + rest, State(out, stack)) == Finish(rest, State(out + Postfix(e), stack))
    decreases e, 3
  {
    match e
    case Atom(t) =>
      FinishCons(Cond(t), rest, State(out, stack));
    case Bin(c, a, b) =>
      ShuntBin(c, a, b, level, rest, out, stack);
    case Group(g) =>
      assert Print(e, level) + rest == [Open] + (Print(g, 1) + ([Close] + rest));
      ShuntGroup(g, rest, out, stack);
  }

  /** `ShuntPrint` for a binary expression, parenthesized or not as its level demands. */
  lemma {:induction false} ShuntBin(c: Connective, a: Expr, b: Expr, level: nat, rest: seq<Token>, out: seq<Item>, stack: seq<Token>)
    requires 1 <= level
    requires OpenBelow(stack, level) && Terminates(rest, level)
    ensures Finish(Print(Bin(c, a, b), level) + rest, State(out, stack)) == Finish(rest, State(out + Postfix(Bin(c, a, b)), stack))
    decreases Bin(c, a, b), 2
  {
    if level > Prec(c) {
      PrintBinWrapped(c, a, b, level, rest);
      ShuntParenthesised(c, a, b, rest, out, stack);
    } else {
      PrintBinBare(c, a, b, level, rest);
      ShuntInner(c, a, b, rest, out, stack);
    }
  }

  /** A binary expression printed inside parentheses, followed by `rest`, regrouped as the shunting lemmas read it. */
  lemma PrintBinWrapped(c: Connective, a: Expr, b: Expr, level: nat, rest: seq<Token>)
    requires level > Prec(c)
    ensures Print(Bin(c, a, b), level) + rest
         == [Open] + (Print(a, Prec(c)) + ([Conn(c)] + (Print(b, Prec(c) + 1) + ([Close] + rest))))
  {
    var pa, pb := Print(a, Prec(c)), Print(b, Prec(c) + 1);
    assert Print(Bin(c, a, b), level) == [Open] + (pa + [Conn(c)] + pb) + [Close];
    assert [Open] + (pa + [Conn(c)] + pb) + [Close] + rest == [Open] + (pa + ([Conn(c)] + (pb + ([Close] + rest))));
  }

  /** A binary expression printed bare, followed by `rest`, regrouped as the shunting lemmas read it. */
  lemma PrintBinBare(c: Connective, a: Expr, b: Expr, level: nat, rest: seq<Token>)
    requires level <= Prec(c)
    ensures Print(Bin(c, a, b), level) + rest == Print(a, Prec(c)) + ([Conn(c)] + (Print(b, Prec(c) + 1) + rest))
  {
    var pa, pb := Print(a, Prec(c)), Print(b, Prec(c) + 1);
    assert Print(Bin(c, a, b), level) == pa + [Conn(c)] + pb;
  }

  /** `ShuntPrint` for an expression inside parentheses of its own. */
  lemma {:induction false} ShuntGroup(g: Expr, rest: seq<Token>, out: seq<Item>, stack: seq<Token>)
    ensures Finish([Open] + (Print(g, 1) + ([Close] + rest)), State(out, stack))
         == Finish(rest, State(out + Postfix(g), stack))
    decreases Group(g), 1
  {
    var withOpen := stack + [Open];
    var done := out + Postfix(g);
    FinishCons(Open, Print(g, 1) + ([Close] + rest), State(out, stack));
    assert Step(State(out, stack), Open) == State(out, withOpen);
    assert Top(withOpen) == Open;
    assert ([Close] + rest)[0] == Close;
    ShuntPrint(g, 1, [Close] + rest, out, withOpen);
    FinishCons(Close, rest, State(done, withOpen));
    assert PopToOpen(State(done, withOpen)) == State(done, withOpen);
    assert withOpen[..|stack|] == stack;
  }

  /** `ShuntPrint` for a binary expression inside its own parentheses. */
  lemma {:induction false} ShuntParenthesised(c: Connective, a: Expr, b: Expr, rest: seq<Token>, out: seq<Item>, stack: seq<Token>)
    ensures Finish([Open] + (Print(a, Prec(c)) + ([Conn(c)] + (Print(b, Prec(c) + 1) + ([Close] + rest)))), State(out, stack))
         == Finish(rest, State(out + Postfix(Bin(c, a, b)), stack))
    decreases Bin(c, a, b), 1
  {
    var p := Prec(c);
    var inner := Print(a, p) + ([Conn(c)] + (Print(b, p + 1) + ([Close] + rest)));
    var withOpen := stack + [Open];
    var done := out + Postfix(Bin(c, a, b));
    FinishCons(Open, inner, State(out, stack));
    assert Top(withOpen) == Open;
    assert ([Close] + rest)[0] == Close;
    ShuntInner(c, a, b, [Close] + rest, out, withOpen);
    FinishCons(Close, rest, State(done, withOpen));
    assert PopToOpen(State(done, withOpen)) == State(done, withOpen);
    assert withOpen[..|stack|] == stack;
  }

  /** The postfix of a binary expression, appended to a queue. */
  lemma PostfixBin(out: seq<Item>, c: Connective, a: Expr, b: Expr)
    ensures out + Postfix(a) + Postfix(b) + [SymbolItem(Conn(c))] == out + Postfix(Bin(c, a, b))
  {
    assert Postfix(Bin(c, a, b)) == Postfix(a) + Postfix(b) + [SymbolItem(Conn(c))];
  }

  /** `ShuntPrint` for a binary expression written without its own parentheses. */
  lemma {:induction false} ShuntInner(c: Connective, a: Expr, b: Expr, rest: seq<Token>, out: seq<Item>, stack: seq<Token>)
    requires OpenBelow(stack, Prec(c)) && Terminates(rest, Prec(c))
    ensures Finish(Print(a, Prec(c)) + ([Conn(c)] + (Print(b, Prec(c) + 1) + rest)), State(out, stack))
         == Finish(rest, State(out + Postfix(Bin(c, a, b)), stack))
    decreases Bin(c, a, b), 0
  {
    var p := Prec(c);
    var tail := Print(b, p + 1) + rest;
    assert Terminates([Conn(c)] + tail, p) by {
      assert ([Conn(c)] + tail)[0] == Conn(c);
    }
    ShuntPrint(a, p, [Conn(c)] + tail, out, stack);
    ShuntConnective(c, b, rest, out + Postfix(a), stack);
    PostfixBin(out, c, a, b);
  }

  /** The connective of `ShuntInner` and its right operand. */
  lemma {:induction false} ShuntConnective(c: Connective, b: Expr, rest: seq<Token>, out: seq<Item>, stack: seq<Token>)
    requires OpenBelow(stack, Prec(c)) && Terminates(rest, Prec(c))
    ensures Finish([Conn(c)] + (Print(b, Prec(c) + 1) + rest), State(out, stack))
         == Finish(rest, State(out + Postfix(b) + [SymbolItem(Conn(c))], stack))
    decreases b, 4
  {
    var p := Prec(c);
    FinishCons(Conn(c), Print(b, p + 1) + rest, State(out, stack));
    PushConnective(out, stack, c);
    assert Top(stack + [Conn(c)]) == Conn(c);
    ShuntPrint(b, p + 1, rest, out, stack + [Conn(c)]);
    PopPending(rest, out + Postfix(b), stack, c);
  }

  /** The shunting-yard pass turns every printed expression into its postfix queue. */
  lemma PostfixOfPrint(e: Expr)
    ensures ToPostfix(Print(e, 1)) == Postfix(e)
  {
    ShuntPrint(e, 1, [], [], []);
    assert Print(e, 1) + [] == Print(e, 1);
  }

  /** The builder turns the postfix of `e` into the node of `e` on top of the stack. */
  lemma {:induction false} BuildPostfix(e: Expr, rest: seq<Item>, stack: seq<Node>)
    ensures BuildFrom(Postfix(e) + rest, stack) == BuildFrom(rest, stack + [ToNode(e)])
  {
    match e
    case Atom(t) =>
      BuildCons(OperandItem(Trim(t)), rest, stack);
    case Bin(c, a, b) =>
      var sym := SymbolItem(Conn(c));
      assert Postfix(e) + rest == Postfix(a) + (Postfix(b) + ([sym] + rest));
      BuildPostfix(a, Postfix(b) + ([sym] + rest), stack);
      BuildPostfix(b, [sym] + rest, stack + [ToNode(a)]);
      BuildCons(sym, rest, stack + [ToNode(a)] + [ToNode(b)]);
      assert stack + [ToNode(a)] + [ToNode(b)] == stack + [ToNode(a), ToNode(b)];
      AbsorbSymbol(stack, ToNode(a), ToNode(b), Conn(c));
    case Group(g) =>
      BuildPostfix(g, rest, stack);
  }

  lemma BuildOfPostfix(e: Expr)
    ensures Build(Postfix(e)) == ToNode(e)
  {
    BuildPostfix(e, [], []);
    assert Postfix(e) + [] == Postfix(e);
  }

  /** Correctness of the parser on tokens: precedence, grouping and parentheses are all honoured. */
  lemma ParsePrint(e: Expr)
    ensures Build(ToPostfix(Print(e, 1))) == ToNode(e)
  {
    PostfixOfPrint(e);
    BuildOfPostfix(e);
  }

  lemma {:induction false} OperandsAppend(a: seq<Item>, b: seq<Item>)
    ensures Operands(a + b) == Operands(a) + Operands(b)
    decreases |b|
  {
    if b != [] {
      var init := b[..|b| - 1];
      assert (a + b)[..|a + b| - 1] == a + init;
      OperandsAppend(a, init);
    } else {
      assert a + b == a;
    }
  }

  /** The leaves of the node of `e` are the operands of its postfix queue. */
  lemma {:induction false} LeavesOfToNode(e: Expr)
    ensures Leaves(ToNode(e)) == Operands(Postfix(e))
  {
    match e
    case Atom(t) =>
      assert Operands([OperandItem(Trim(t))]) == Operands([]) + [Trim(t)];
    case Bin(c, a, b) =>
      LeavesOfToNode(a);
      LeavesOfToNode(b);
      OperandsAppend(Postfix(a) + Postfix(b), [SymbolItem(Conn(c))]);
      OperandsAppend(Postfix(a), Postfix(b));
      assert Operands([SymbolItem(Conn(c))]) == [];
    case Group(g) =>
      LeavesOfToNode(g);
  }

  /** The leaves of a parsed rule, read left to right, are its comparisons in the order written, trimmed. */
  lemma LeavesInWrittenOrder(e: Expr)
    ensures Leaves(Build(ToPostfix(Print(e, 1)))) == CondTexts(Print(e, 1))
  {
    ParsePrint(e);
    LeavesOfToNode(e);
    PostfixOfPrint(e);
    OperandOrder(Print(e, 1));
  }

  lemma {:induction false} PrintWellFormed(e: Expr, level: nat)
    requires WellFormedExpr(e)
    ensures Print(e, level) != [] && WellFormedTokens(Print(e, level))
  {
    match e
    case Atom(t) =>
    case Bin(c, a, b) =>
      PrintWellFormed(a, Prec(c));
      PrintWellFormed(b, Prec(c) + 1);
      var inner := Print(a, Prec(c)) + [Conn(c)] + Print(b, Prec(c) + 1);
      assert WellFormedTokens(inner) by {
        forall k | 0 <= k < |inner| && inner[k].Cond?
          ensures WellFormedCond(inner[k].text)
        {
          if k < |Print(a, Prec(c))| {
            assert inner[k] == Print(a, Prec(c))[k];
          } else {
            assert inner[k] == Print(b, Prec(c) + 1)[k - |Print(a, Prec(c))| - 1];
          }
        }
      }
      if level > Prec(c) {
        WrapWellFormed(inner);
      }
    case Group(g) =>
      PrintWellFormed(g, 1);
      WrapWellFormed(Print(g, 1));
  }

  lemma WrapWellFormed(ts: seq<Token>)
    requires WellFormedTokens(ts)
    ensures WellFormedTokens([Open] + ts + [Close])
  {
    var wrapped := [Open] + ts + [Close];
    forall k | 0 <= k < |wrapped| && wrapped[k].Cond?
      ensures WellFormedCond(wrapped[k].text)
    {
      assert wrapped[k] == ts[k - 1];
    }
  }

  /**
   * Correctness of `createAST` on text: a well-formed expression, printed and
   * written out with any white space the tokenizer reads through, compiles
   * to the node of that expression.
   */
  lemma CompileLayout(e: Expr, gaps: seq<string>)
    requires WellFormedExpr(e) && Separates(Print(e, 1), gaps)
    ensures Compile(Layout(Print(e, 1), gaps)) == Ok(ToNode(e))
  {
    PrintWellFormed(e, 1);
    TokenizeLayout(Print(e, 1), gaps);
    ParsePrint(e);
  }

  /** The same for the printed tokens written out with one space between each two of them. */
  lemma CompileRender(e: Expr)
    requires WellFormedExpr(e)
    ensures Compile(Render(Print(e, 1))) == Ok(ToNode(e))
  {
    SingleSpacesSeparate(Print(e, 1));
    CompileLayout(e, SingleSpaces(|Print(e, 1)|));
  }

  /** Wrapping a whole rule in parentheses does not change its tree. */
  lemma RedundantParentheses(e: Expr)
    ensures Build(ToPostfix([Open] + Print(e, 1) + [Close])) == ToNode(e)
  {
    ParsePrint(Group(e));
  }

  lemma CloseMatchesOpen(q: seq<Item>)
    ensures Finish([Close], State(q, [Open])) == q
  {
    var st := State(q, [Open]);
    FinishCons(Close, [], st);
    assert [Close] + [] == [Close];
    assert PopToOpen(st) == st;
    assert Step(st, Close) == State(q, []);
  }

  // ---------------------------------------------------------------------
  // A `(` that is never closed, after an operand
  // ---------------------------------------------------------------------

  /** The queue for `a ( b AND c`: the stray `(` stays under `AND` and is drained last. */
  lemma StrayOpenAfterOperandPostfix(a: string, b: string, c: string)
    ensures ToPostfix([Cond(a), Open, Cond(b), Conn(And), Cond(c)])
         == [OperandItem(Trim(a))] + Postfix(Bin(And, Atom(b), Atom(c))) + [SymbolItem(Open)]
  {
    var ia := OperandItem(Trim(a));
    var g := Bin(And, Atom(b), Atom(c));
    assert Print(g, 1) == [Cond(b), Conn(And), Cond(c)];
    assert [Cond(a), Open, Cond(b), Conn(And), Cond(c)] == [Cond(a)] + ([Open] + Print(g, 1));
    FinishCons(Cond(a), [Open] + Print(g, 1), State([], []));
    assert Step(State([], []), Cond(a)) == State([ia], []);
    FinishCons(Open, Print(g, 1), State([ia], []));
    assert Step(State([ia], []), Open) == State([ia], [Open]);
    assert Print(g, 1) + [] == Print(g, 1);
    ShuntPrint(g, 1, [], [ia], [Open]);
    DrainOne([ia] + Postfix(g), Open);
  }

  /** An operand, a whole expression, then a drained `(`: the `(` joins the two. */
  lemma BuildOperandThenOpen(x: string, g: Expr)
    ensures Build([OperandItem(x)] + Postfix(g) + [SymbolItem(Open)]) == Op("(", Leaf(x), ToNode(g))
  {
    var so := SymbolItem(Open);
    var s1: seq<Node> := [Leaf(x)];
    var s2: seq<Node> := [Leaf(x), ToNode(g)];
    var s3: seq<Node> := [Op("(", Leaf(x), ToNode(g))];
    calc {
      Build([OperandItem(x)] + Postfix(g) + [so]);
      { assert [OperandItem(x)] + Postfix(g) + [so] == [OperandItem(x)] + (Postfix(g) + [so]); }
      BuildFrom([OperandItem(x)] + (Postfix(g) + [so]), []);
      { BuildCons(OperandItem(x), Postfix(g) + [so], []); assert Absorb([], OperandItem(x)) == s1; }
      BuildFrom(Postfix(g) + [so], s1);
      { BuildPostfix(g, [so], s1); assert s1 + [ToNode(g)] == s2; }
      BuildFrom([so], s2);
      { BuildCons(so, [], s2); AbsorbSymbol([], Leaf(x), ToNode(g), Open); assert [] + [Leaf(x), ToNode(g)] == s2; }
      BuildFrom([], s3);
    }
  }

  /**
   * `a ( b AND c` builds a node labelled `(` whose children are both
   * defined: the operand before the `(` and the expression after it.
   */
  lemma StrayOpenAfterOperand(a: string, b: string, c: string)
    ensures Build(ToPostfix([Cond(a), Open, Cond(b), Conn(And), Cond(c)]))
         == Op("(", Leaf(Trim(a)), Op("AND", Leaf(Trim(b)), Leaf(Trim(c))))
  {
    var g := Bin(And, Atom(b), Atom(c));
    StrayOpenAfterOperandPostfix(a, b, c);
    BuildOperandThenOpen(Trim(a), g);
    assert ToNode(g) == Op("AND", Leaf(Trim(b)), Leaf(Trim(c)));
  }

  // ---------------------------------------------------------------------
  // How unparenthesized chains group
  // ---------------------------------------------------------------------

  /** `a OR b AND c` is `a OR (b AND c)`. */
  lemma AndBindsTighterRight(a: string, b: string, c: string)
    ensures Build(ToPostfix([Cond(a), Conn(Or), Cond(b), Conn(And), Cond(c)]))
         == Op("OR", Leaf(Trim(a)), Op("AND", Leaf(Trim(b)), Leaf(Trim(c))))
  {
    var e := Bin(Or, Atom(a), Bin(And, Atom(b), Atom(c)));
    assert Print(Bin(And, Atom(b), Atom(c)), 2) == [Cond(b), Conn(And), Cond(c)];
    assert Print(e, 1) == [Cond(a), Conn(Or), Cond(b), Conn(And), Cond(c)];
    assert ToNode(Bin(And, Atom(b), Atom(c))) == Op("AND", Leaf(Trim(b)), Leaf(Trim(c)));
    ParsePrint(e);
  }

  /** `a AND b OR c` is `(a AND b) OR c`. */
  lemma AndBindsTighterLeft(a: string, b: string, c: string)
    ensures Build(ToPostfix([Cond(a), Conn(And), Cond(b), Conn(Or), Cond(c)]))
         == Op("OR", Op("AND", Leaf(Trim(a)), Leaf(Trim(b))), Leaf(Trim(c)))
  {
    var e := Bin(Or, Bin(And, Atom(a), Atom(b)), Atom(c));
    assert Print(Bin(And, Atom(a), Atom(b)), 1) == [Cond(a), Conn(And), Cond(b)];
    assert Print(e, 1) == [Cond(a), Conn(And), Cond(b), Conn(Or), Cond(c)];
    assert ToNode(Bin(And, Atom(a), Atom(b))) == Op("AND", Leaf(Trim(a)), Leaf(Trim(b)));
    ParsePrint(e);
  }

  /** Equal connectives group to the left: `a OR b OR c` is `(a OR b) OR c`. */
  lemma ChainsGroupLeft(c: Connective, x: string, y: string, z: string)
    ensures Build(ToPostfix([Cond(x), Conn(c), Cond(y), Conn(c), Cond(z)]))
         == Op(ConnectiveName(c), Op(ConnectiveName(c), Leaf(Trim(x)), Leaf(Trim(y))), Leaf(Trim(z)))
  {
    var e := Bin(c, Bin(c, Atom(x), Atom(y)), Atom(z));
    assert Print(Bin(c, Atom(x), Atom(y)), Prec(c)) == [Cond(x), Conn(c), Cond(y)];
    assert Print(e, 1) == [Cond(x), Conn(c), Cond(y), Conn(c), Cond(z)];
    assert ToNode(Bin(c, Atom(x), Atom(y))) == Op(ConnectiveName(c), Leaf(Trim(x)), Leaf(Trim(y)));
    ParsePrint(e);
  }

  /** Parentheses override precedence: `(a OR b) AND c`. */
  lemma ParenthesesOverride(a: string, b: string, c: string)
    ensures Build(ToPostfix([Open, Cond(a), Conn(Or), Cond(b), Close, Conn(And), Cond(c)]))
         == Op("AND", Op("OR", Leaf(Trim(a)), Leaf(Trim(b))), Leaf(Trim(c)))
  {
    var e := Bin(And, Bin(Or, Atom(a), Atom(b)), Atom(c));
    assert Print(Bin(Or, Atom(a), Atom(b)), 2) == [Open] + [Cond(a), Conn(Or), Cond(b)] + [Close];
    assert Print(e, 1) == [Open, Cond(a), Conn(Or), Cond(b), Close, Conn(And), Cond(c)];
    assert ToNode(Bin(Or, Atom(a), Atom(b))) == Op("OR", Leaf(Trim(a)), Leaf(Trim(b)));
    ParsePrint(e);
  }

  /** Redundant parentheses around an operand are dropped: `(a AND b) OR c` is `a AND b OR c`. */
  lemma GroupedOperand(a: string, b: string, c: string)
    ensures Build(ToPostfix([Open, Cond(a), Conn(And), Cond(b), Close, Conn(Or), Cond(c)]))
         == Op("OR", Op("AND", Leaf(Trim(a)), Leaf(Trim(b))), Leaf(Trim(c)))
  {
    var g := Bin(And, Atom(a), Atom(b));
    var e := Bin(Or, Group(g), Atom(c));
    assert Print(g, 1) == [Cond(a), Conn(And), Cond(b)];
    assert Print(Group(g), 1) == [Open] + [Cond(a), Conn(And), Cond(b)] + [Close];
    assert Print(e, 1) == [Open, Cond(a), Conn(And), Cond(b), Close, Conn(Or), Cond(c)];
    assert ToNode(g) == Op("AND", Leaf(Trim(a)), Leaf(Trim(b)));
    ParsePrint(e);
  }

  /** `(a AND b) OR c` written without blanks inside the parentheses or at either end. */
  lemma TypedGroupedLayout(a: string, b: string, c: string)
    ensures Layout([Open, Cond(a), Conn(And), Cond(b), Close, Conn(Or), Cond(c)], ["", "", " ", " ", "", " ", " ", ""])
         == "(" + a + " AND " + b + ") OR " + c
  {
    LayoutCons(Cond(c), [], " ", [""]);
    LayoutCons(Conn(Or), [Cond(c)], " ", [" ", ""]);
    LayoutCons(Close, [Conn(Or), Cond(c)], "", [" ", " ", ""]);
    LayoutCons(Cond(b), [Close, Conn(Or), Cond(c)], " ", ["", " ", " ", ""]);
    LayoutCons(Conn(And), [Cond(b), Close, Conn(Or), Cond(c)], " ", [" ", "", " ", " ", ""]);
    LayoutCons(Cond(a), [Conn(And), Cond(b), Close, Conn(Or), Cond(c)], "", [" ", " ", "", " ", " ", ""]);
    LayoutCons(Open, [Cond(a), Conn(And), Cond(b), Close, Conn(Or), Cond(c)], "", ["", " ", " ", "", " ", " ", ""]);
    TypedGroupedText(a, b, c);
  }

  lemma TypedGroupedText(a: string, b: string, c: string)
    ensures "" + "(" + ("" + a + (" " + "AND" + (" " + b + ("" + ")" + (" " + "OR" + (" " + c + ""))))))
         == "(" + a + " AND " + b + ") OR " + c
  {
    var tail := " " + "OR" + (" " + c + "");
    assert tail == " OR " + c;
    var mid := " " + b + ("" + ")" + tail);
    assert mid == " " + b + ") OR " + c;
    assert " " + "AND" + mid == " AND " + b + ") OR " + c;
  }

  /** The gaps of the typed form keep every comparison apart from the connective after it. */
  lemma TypedGroupedSeparates(a: string, b: string, c: string)
    ensures Separates([Open, Cond(a), Conn(And), Cond(b), Close, Conn(Or), Cond(c)], ["", "", " ", " ", "", " ", " ", ""])
  {
    var gaps := ["", "", " ", " ", "", " ", " ", ""];
    forall k | 0 <= k < |gaps|
      ensures IsBlank(gaps[k])
    {
      assert gaps[k] == "" || gaps[k] == " ";
    }
  }

  /** `(a AND b) OR c` as typed reads back as its seven tokens. */
  lemma TypedGroupedTokens(a: string, b: string, c: string)
    requires WellFormedCond(a) && WellFormedCond(b) && WellFormedCond(c)
    ensures Tokenize("(" + a + " AND " + b + ") OR " + c)
         == Ok([Open, Cond(a), Conn(And), Cond(b), Close, Conn(Or), Cond(c)])
  {
    var ts := [Open, Cond(a), Conn(And), Cond(b), Close, Conn(Or), Cond(c)];
    TypedGroupedLayout(a, b, c);
    TypedGroupedSeparates(a, b, c);
    assert WellFormedTokens(ts);
    TokenizeLayout(ts, ["", "", " ", " ", "", " ", " ", ""]);
  }

  /**
   * A rule typed the usual way, `(a AND b) OR c` with no blank inside the
   * parentheses and none at either end, compiles to `OR(AND(a, b), c)`.
   */
  lemma TypedGroupedRule(a: string, b: string, c: string)
    requires WellFormedCond(a) && WellFormedCond(b) && WellFormedCond(c)
    ensures Compile("(" + a + " AND " + b + ") OR " + c) == Ok(Op("OR", Op("AND", Leaf(a), Leaf(b)), Leaf(c)))
  {
    TypedGroupedTokens(a, b, c);
    GroupedOperand(a, b, c);
    WellFormedCondTrimmed(a);
    WellFormedCondTrimmed(b);
    WellFormedCondTrimmed(c);
  }

  /** Nested parentheses around one comparison leave just its leaf: `((a))`. */
  lemma NestedParentheses(a: string)
    ensures Build(ToPostfix([Open, Open, Cond(a), Close, Close])) == Leaf(Trim(a))
  {
    var e := Group(Group(Atom(a)));
    assert Print(Group(Atom(a)), 1) == [Open, Cond(a), Close];
    assert Print(e, 1) == [Open] + [Open, Cond(a), Close] + [Close];
    assert [Open] + [Open, Cond(a), Close] + [Close] == [Open, Open, Cond(a), Close, Close];
    assert ToNode(e) == ToNode(Group(Atom(a))) == Leaf(Trim(a));
    ParsePrint(e);
  }
}
