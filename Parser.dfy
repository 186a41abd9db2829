/**
 * The shunting-yard pass and the postfix-to-tree builder of `createAST`.
 * Each is a method over the source's own stacks and queue, specified by a
 * function that runs the same algorithm one token at a time.
 */
module Parser {
  import opened Wrappers
  import opened Lexer
  import opened Ast

  /**
   * An entry of the output queue: an operand object, or one of the strings
   * moved over from the operator stack (`AND`, `OR`, or a stray `(`).
   */
  datatype Item = OperandItem(value: string) | SymbolItem(symbol: Token)

  /** The output queue and the operator stack (top at the end). */
  datatype State = State(output: seq<Item>, stack: seq<Token>)

  /** `operatorPrecedence[token]`; `(` has no entry. */
  function Precedence(t: Token): Option<nat>
  {
    match t
    case Conn(And) => Some(2)
    case Conn(Or) => Some(1)
    case _ => None
  }

  /** The pop condition of the connective case: `operatorPrecedence[top] >= operatorPrecedence[token]`. */
  predicate PopsBefore(top: Token, t: Token)
  {
    Precedence(top).Some? && Precedence(t).Some? && Precedence(top).value >= Precedence(t).value
  }

  function Top(stack: seq<Token>): Token
    requires |stack| > 0
  {
    stack[|stack| - 1]
  }

  function Rest(stack: seq<Token>): seq<Token>
    requires |stack| > 0
  {
    stack[..|stack| - 1]
  }

  /** Moves the top of the stack to the output queue. */
  function MoveTop(st: State): State
    requires |st.stack| > 0
  {
    State(st.output + [SymbolItem(Top(st.stack))], Rest(st.stack))
  }

  /** Pops to the output while the top binds at least as tightly as `t`. */
  function PopWhileHigher(st: State, t: Token): State
    decreases |st.stack|
  {
    if |st.stack| > 0 && PopsBefore(Top(st.stack), t) then PopWhileHigher(MoveTop(st), t) else st
  }

  /** Pops to the output until a `(` is on top or the stack is empty. */
  function PopToOpen(st: State): State
    decreases |st.stack|
  {
    if |st.stack| > 0 && Top(st.stack) != Open then PopToOpen(MoveTop(st)) else st
  }

  /** One iteration of the `forEach` over the tokens. */
  function Step(st: State, t: Token): State
  {
    match t
    case Open => State(st.output, st.stack + [Open])
    case Close =>
      var st' := PopToOpen(st);
      // `pop()` on an empty stack does nothing
      if |st'.stack| > 0 then State(st'.output, Rest(st'.stack)) else st'
    case Conn(_) =>
      var st' := PopWhileHigher(st, t);
      State(st'.output, st'.stack + [t])
    case Cond(text) => State(st.output + [OperandItem(Trim(text))], st.stack)
  }

  /** The final loop: every remaining stack entry goes to the output, in pop order. */
  function Drain(st: State): seq<Item>
    decreases |st.stack|
  {
    if |st.stack| > 0 then Drain(MoveTop(st)) else st.output
  }

  /** Runs the remaining tokens from state `st`, then drains the stack. */
  function Finish(ts: seq<Token>, st: State): seq<Item>
    decreases |ts|
  {
    if ts == [] then Drain(st) else Finish(ts[1..], Step(st, ts[0]))
  }

  function ToPostfix(ts: seq<Token>): seq<Item>
  {
    Finish(ts, State([], []))
  }

  /** The shunting-yard loop of `createAST`. */
  method ShuntingYard(tokens: seq<Token>) returns (outputQueue: seq<Item>)
    ensures outputQueue == ToPostfix(tokens)
  {
    outputQueue := [];
    var operatorStack: seq<Token> := [];
    var i := 0;
    while i < |tokens|
      invariant 0 <= i <= |tokens|
      invariant Finish(tokens[i..], State(outputQueue, operatorStack)) == ToPostfix(tokens)
    {
      var token := tokens[i];
      ghost var before := State(outputQueue, operatorStack);
      assert tokens[i..][0] == token && tokens[i..][1..] == tokens[i + 1..];
      if token == Open {
        operatorStack := operatorStack + [token];
      } else if token == Close {
        while |operatorStack| > 0 && Top(operatorStack) != Open
          invariant PopToOpen(State(outputQueue, operatorStack)) == PopToOpen(before)
        {
          outputQueue := outputQueue + [SymbolItem(Top(operatorStack))];
          operatorStack := Rest(operatorStack);
        }
        if |operatorStack| > 0 {
          operatorStack := Rest(operatorStack);
        }
      } else if token.Conn? {
        while |operatorStack| > 0 && PopsBefore(Top(operatorStack), token)
          invariant PopWhileHigher(State(outputQueue, operatorStack), token) == PopWhileHigher(before, token)
        {
          outputQueue := outputQueue + [SymbolItem(Top(operatorStack))];
          operatorStack := Rest(operatorStack);
        }
        operatorStack := operatorStack + [token];
      } else {
        outputQueue := outputQueue + [OperandItem(Trim(token.text))];
      }
      assert State(outputQueue, operatorStack) == Step(before, token);
      i := i + 1;
    }
    ghost var scanned := State(outputQueue, operatorStack);
    while |operatorStack| > 0
      invariant Drain(State(outputQueue, operatorStack)) == Drain(scanned)
    {
      outputQueue := outputQueue + [SymbolItem(Top(operatorStack))];
      operatorStack := Rest(operatorStack);
    }
  }

  // ---------------------------------------------------------------------
  // The builder
  // ---------------------------------------------------------------------

  /** `stack.pop()`: the top node and the rest, or `undefined` and the stack unchanged. */
  function Pop(stack: seq<Node>): (Node, seq<Node>)
  {
    if |stack| > 0 then (stack[|stack| - 1], stack[..|stack| - 1]) else (Undefined, stack)
  }

  /**
   * The `forEach` of `buildAST` over the rest of the queue, then the final
   * `pop()`.  Any string entry pops its right child first, then its left.
   */
  function BuildFrom(queue: seq<Item>, stack: seq<Node>): Node
    decreases |queue|
  {
    if queue == [] then Pop(stack).0 else BuildFrom(queue[1..], Absorb(stack, queue[0]))
  }

  /** One iteration of the builder's `forEach`: the stack after entry `x`. */
  function Absorb(stack: seq<Node>, x: Item): seq<Node>
  {
    match x
    case OperandItem(v) => stack + [Leaf(v)]
    case SymbolItem(sym) =>
      var (right, stack1) := Pop(stack);
      var (left, stack2) := Pop(stack1);
      stack2 + [Op(Text(sym), left, right)]
  }

  function Build(queue: seq<Item>): Node
  {
    BuildFrom(queue, [])
  }

  /** `buildAST`. */
  method BuildAST(queue: seq<Item>) returns (root: Node)
    ensures root == Build(queue)
  {
    var stack: seq<Node> := [];
    var i := 0;
    while i < |queue|
      invariant 0 <= i <= |queue|
      invariant BuildFrom(queue[i..], stack) == Build(queue)
    {
      assert queue[i..][0] == queue[i] && queue[i..][1..] == queue[i + 1..];
      match queue[i] {
        case OperandItem(v) =>
          stack := stack + [Leaf(v)];
        case SymbolItem(sym) =>
          var right := Undefined;
          if |stack| > 0 {
            right := stack[|stack| - 1];
            stack := stack[..|stack| - 1];
          }
          var left := Undefined;
          if |stack| > 0 {
            left := stack[|stack| - 1];
            stack := stack[..|stack| - 1];
          }
          stack := stack + [Op(Text(sym), left, right)];
      }
      i := i + 1;
    }
    assert queue[i..] == [];
    root := Undefined;
    if |stack| > 0 {
      root := stack[|stack| - 1];
    }
  }

  /** `createAST` as a function of the rule string. */
  function Compile(ruleString: string): Result<Node, LexError>
  {
    match Tokenize(ruleString)
    case Err(e) => Err(e)
    case Ok(tokens) => Ok(Build(ToPostfix(tokens)))
  }

  /** `createAST`: tokenize, convert to postfix, build. */
  method CreateAST(ruleString: string) returns (r: Result<Node, LexError>)
    ensures r == Compile(ruleString)
  {
    var tokens := Tokenize(ruleString);
    if tokens.Err? {
      return Err(InvalidRuleString);
    }
    var outputQueue := ShuntingYard(tokens.value);
    var root := BuildAST(outputQueue);
    r := Ok(root);
  }

  // ---------------------------------------------------------------------
  // Operands keep their order
  // ---------------------------------------------------------------------

  /** The operand values of an output queue, in queue order. */
  function Operands(items: seq<Item>): seq<string>
  {
    if items == [] then []
    else
      var last := items[|items| - 1];
      Operands(items[..|items| - 1]) + (if last.OperandItem? then [last.value] else [])
  }

  /** The trimmed comparison texts among the tokens, in token order. */
  function CondTexts(ts: seq<Token>): seq<string>
  {
    if ts == [] then []
    else (if ts[0].Cond? then [Trim(ts[0].text)] else []) + CondTexts(ts[1..])
  }

  lemma MoveTopOperands(st: State)
    requires |st.stack| > 0
    ensures Operands(MoveTop(st).output) == Operands(st.output)
  {
    var out := MoveTop(st).output;
    assert out[..|out| - 1] == st.output;
  }

  lemma {:induction false} PopWhileHigherOperands(st: State, t: Token)
    ensures Operands(PopWhileHigher(st, t).output) == Operands(st.output)
    decreases |st.stack|
  {
    if |st.stack| > 0 && PopsBefore(Top(st.stack), t) {
      MoveTopOperands(st);
      PopWhileHigherOperands(MoveTop(st), t);
    }
  }

  lemma {:induction false} PopToOpenOperands(st: State)
    ensures Operands(PopToOpen(st).output) == Operands(st.output)
    decreases |st.stack|
  {
    if |st.stack| > 0 && Top(st.stack) != Open {
      MoveTopOperands(st);
      PopToOpenOperands(MoveTop(st));
    }
  }

  lemma {:induction false} DrainOperands(st: State)
    ensures Operands(Drain(st)) == Operands(st.output)
    decreases |st.stack|
  {
    if |st.stack| > 0 {
      MoveTopOperands(st);
      DrainOperands(MoveTop(st));
    }
  }

  lemma StepOperands(st: State, t: Token)
    ensures Operands(Step(st, t).output) == Operands(st.output) + CondTexts([t])
  {
    assert CondTexts([t]) == (if t.Cond? then [Trim(t.text)] else []) by {
      assert [t][1..] == [];
    }
    match t
    case Open =>
    case Close =>
      PopToOpenOperands(st);
    case Conn(_) =>
      PopWhileHigherOperands(st, t);
    case Cond(text) =>
      var out := Step(st, t).output;
      assert out[..|out| - 1] == st.output;
  }

  lemma {:induction false} FinishOperands(ts: seq<Token>, st: State)
    ensures Operands(Finish(ts, st)) == Operands(st.output) + CondTexts(ts)
    decreases |ts|
  {
    if ts == [] {
      DrainOperands(st);
    } else {
      var st' := Step(st, ts[0]);
      StepOperands(st, ts[0]);
      FinishOperands(ts[1..], st');
      assert CondTexts(ts) == CondTexts([ts[0]]) + CondTexts(ts[1..]) by {
        assert [ts[0]][1..] == [];
      }
    }
  }

  /**
   * The output queue holds every comparison, trimmed, in its original order;
   * connectives and parentheses never reorder operands.
   */
  lemma OperandOrder(ts: seq<Token>)
    ensures Operands(ToPostfix(ts)) == CondTexts(ts)
  {
    FinishOperands(ts, State([], []));
  }

  // ---------------------------------------------------------------------
  // Malformed input: what the code does instead of failing
  // ---------------------------------------------------------------------

  lemma FinishCons(t: Token, rest: seq<Token>, st: State)
    ensures Finish([t] + rest, st) == Finish(rest, Step(st, t))
  {
    assert ([t] + rest)[1..] == rest;
  }

  lemma BuildCons(x: Item, rest: seq<Item>, stack: seq<Node>)
    ensures BuildFrom([x] + rest, stack) == BuildFrom(rest, Absorb(stack, x))
  {
    assert ([x] + rest)[1..] == rest;
  }

  /** Draining a one-entry stack appends that entry. */
  lemma DrainOne(out: seq<Item>, t: Token)
    ensures Drain(State(out, [t])) == out + [SymbolItem(t)]
  {
    assert MoveTop(State(out, [t])) == State(out + [SymbolItem(t)], []);
  }

  /** A `(` that is never closed is drained into the queue and the builder makes it a node label. */
  lemma UnmatchedOpenBecomesOperator(a: string)
    ensures Build(ToPostfix([Open, Cond(a)])) == Op("(", Undefined, Leaf(Trim(a)))
  {
    var a' := OperandItem(Trim(a));
    FinishCons(Open, [Cond(a)], State([], []));
    assert Step(State([], []), Open) == State([], [Open]);
    FinishCons(Cond(a), [], State([], [Open]));
    assert Step(State([], [Open]), Cond(a)) == State([a'], [Open]);
    DrainOne([a'], Open);
    assert [Open] + [Cond(a)] == [Open, Cond(a)];
    assert [Cond(a)] + [] == [Cond(a)];
    assert ToPostfix([Open, Cond(a)]) == [a'] + [SymbolItem(Open)];
    BuildCons(a', [SymbolItem(Open)], []);
    BuildCons(SymbolItem(Open), [], [Leaf(Trim(a))]);
  }

  /** The queue for `a OR b) AND c`: the stray `)` empties the stack and is dropped. */
  lemma UnmatchedClosePostfix(a: string, b: string, c: string)
    ensures ToPostfix([Cond(a), Conn(Or), Cond(b), Close, Conn(And), Cond(c)])
         == [OperandItem(Trim(a)), OperandItem(Trim(b)), SymbolItem(Conn(Or)),
             OperandItem(Trim(c)), SymbolItem(Conn(And))]
  {
    var a', b' := OperandItem(Trim(a)), OperandItem(Trim(b));
    var t2 := [Cond(b), Close, Conn(And), Cond(c)];
    var t1 := [Conn(Or)] + t2;
    assert [Cond(a)] + t1 == [Cond(a), Conn(Or), Cond(b), Close, Conn(And), Cond(c)];
    FinishCons(Cond(a), t1, State([], []));
    assert Step(State([], []), Cond(a)) == State([a'], []);
    FinishCons(Conn(Or), t2, State([a'], []));
    assert Step(State([a'], []), Conn(Or)) == State([a'], [Conn(Or)]);
    UnmatchedCloseMiddle(a', b, c);
  }

  lemma UnmatchedCloseMiddle(a': Item, b: string, c: string)
    ensures Finish([Cond(b), Close, Conn(And), Cond(c)], State([a'], [Conn(Or)]))
         == [a', OperandItem(Trim(b)), SymbolItem(Conn(Or)), OperandItem(Trim(c)), SymbolItem(Conn(And))]
  {
    var b' := OperandItem(Trim(b));
    var or := SymbolItem(Conn(Or));
    var t4 := [Conn(And), Cond(c)];
    var t3 := [Close] + t4;
    assert [Cond(b)] + t3 == [Cond(b), Close, Conn(And), Cond(c)];
    var st3 := State([a', b'], [Conn(Or)]);
    var st4 := State([a', b', or], []);
    FinishCons(Cond(b), t3, State([a'], [Conn(Or)]));
    assert Step(State([a'], [Conn(Or)]), Cond(b)) == st3;
    FinishCons(Close, t4, st3);
    assert Step(st3, Close) == st4 by {
      assert MoveTop(st3) == st4;
      assert PopToOpen(st3) == PopToOpen(st4) == st4;
    }
    UnmatchedCloseTail(a', b', c, or);
  }

  lemma UnmatchedCloseTail(a': Item, b': Item, c: string, or: Item)
    ensures Finish([Conn(And), Cond(c)], State([a', b', or], []))
         == [a', b', or, OperandItem(Trim(c)), SymbolItem(Conn(And))]
  {
    var c' := OperandItem(Trim(c));
    var st4 := State([a', b', or], []);
    var st5 := State([a', b', or], [Conn(And)]);
    FinishCons(Conn(And), [Cond(c)], st4);
    assert [Conn(And)] + [Cond(c)] == [Conn(And), Cond(c)];
    assert Step(st4, Conn(And)) == st5;
    FinishCons(Cond(c), [], st5);
    assert [Cond(c)] + [] == [Cond(c)];
    assert Step(st5, Cond(c)) == State([a', b', or, c'], [Conn(And)]);
    DrainOne([a', b', or, c'], Conn(And));
  }

  /** A symbol entry replaces the top two nodes by one node over them. */
  lemma AbsorbSymbol(stack: seq<Node>, l: Node, r: Node, sym: Token)
    ensures Absorb(stack + [l, r], SymbolItem(sym)) == stack + [Op(Text(sym), l, r)]
  {
    var s := stack + [l, r];
    assert s[..|s| - 1] == stack + [l];
    assert (stack + [l])[..|stack|] == stack;
  }

  /** Two operands and a symbol reduce to one node on the stack. */
  lemma BuildPair(stack: seq<Node>, x: string, y: string, sym: Token, rest: seq<Item>)
    ensures BuildFrom([OperandItem(x), OperandItem(y), SymbolItem(sym)] + rest, stack)
         == BuildFrom(rest, stack + [Op(Text(sym), Leaf(x), Leaf(y))])
  {
    var ix, iy, isym := OperandItem(x), OperandItem(y), SymbolItem(sym);
    assert [ix, iy, isym] + rest == [ix] + ([iy] + ([isym] + rest));
    BuildCons(ix, [iy] + ([isym] + rest), stack);
    BuildCons(iy, [isym] + rest, stack + [Leaf(x)]);
    assert stack + [Leaf(x)] + [Leaf(y)] == stack + [Leaf(x), Leaf(y)];
    BuildCons(isym, rest, stack + [Leaf(x), Leaf(y)]);
    AbsorbSymbol(stack, Leaf(x), Leaf(y), sym);
  }

  /** An operand and a symbol reduce the node on top of the stack with that operand. */
  lemma BuildApply(stack: seq<Node>, l: Node, z: string, sym: Token, rest: seq<Item>)
    ensures BuildFrom([OperandItem(z), SymbolItem(sym)] + rest, stack + [l])
         == BuildFrom(rest, stack + [Op(Text(sym), l, Leaf(z))])
  {
    var iz, isym := OperandItem(z), SymbolItem(sym);
    assert [iz, isym] + rest == [iz] + ([isym] + rest);
    BuildCons(iz, [isym] + rest, stack + [l]);
    assert stack + [l] + [Leaf(z)] == stack + [l, Leaf(z)];
    BuildCons(isym, rest, stack + [l, Leaf(z)]);
    AbsorbSymbol(stack, l, Leaf(z), sym);
  }

  /** The queue `x y s1 z s2` builds `(x s1 y) s2 z`. */
  lemma BuildLeftNested(x: string, y: string, z: string, s1: Token, s2: Token)
    ensures Build([OperandItem(x), OperandItem(y), SymbolItem(s1), OperandItem(z), SymbolItem(s2)])
         == Op(Text(s2), Op(Text(s1), Leaf(x), Leaf(y)), Leaf(z))
  {
    var ix, iy, iz, i1, i2 := OperandItem(x), OperandItem(y), OperandItem(z), SymbolItem(s1), SymbolItem(s2);
    var inner := Op(Text(s1), Leaf(x), Leaf(y));
    assert [ix, iy, i1, iz, i2] == [ix, iy, i1] + [iz, i2];
    BuildPair([], x, y, s1, [iz, i2]);
    assert [iz, i2] == [iz, i2] + [];
    assert [] + [inner] == [] + [inner];
    BuildApply([], inner, z, s2, []);
    assert [] + [Op(Text(s2), inner, Leaf(z))] == [Op(Text(s2), inner, Leaf(z))];
  }

  /** A `)` with no `(` drains the stack and is otherwise ignored: `a OR b) AND c` reads as `(a OR b) AND c`. */
  lemma UnmatchedCloseDrainsStack(a: string, b: string, c: string)
    ensures Build(ToPostfix([Cond(a), Conn(Or), Cond(b), Close, Conn(And), Cond(c)]))
         == Op("AND", Op("OR", Leaf(Trim(a)), Leaf(Trim(b))), Leaf(Trim(c)))
  {
    UnmatchedClosePostfix(a, b, c);
    BuildLeftNested(Trim(a), Trim(b), Trim(c), Conn(Or), Conn(And));
  }

  /** `a AND`: the lone operand becomes the right child and the left child is `undefined`; nothing fails. */
  lemma MissingOperandIsUndefined(a: string)
    ensures Build(ToPostfix([Cond(a), Conn(And)])) == Op("AND", Undefined, Leaf(Trim(a)))
  {
    var a' := OperandItem(Trim(a));
    FinishCons(Cond(a), [Conn(And)], State([], []));
    assert Step(State([], []), Cond(a)) == State([a'], []);
    FinishCons(Conn(And), [], State([a'], []));
    assert Step(State([a'], []), Conn(And)) == State([a'], [Conn(And)]);
    DrainOne([a'], Conn(And));
    assert [Cond(a)] + [Conn(And)] == [Cond(a), Conn(And)];
    assert [Conn(And)] + [] == [Conn(And)];
    assert ToPostfix([Cond(a), Conn(And)]) == [a'] + [SymbolItem(Conn(And))];
    BuildCons(a', [SymbolItem(Conn(And))], []);
    BuildCons(SymbolItem(Conn(And)), [], [Leaf(Trim(a))]);
  }

  /**
   * The builder's reduction when fewer than two nodes are on the stack:
   * each missing child pops as `undefined`, the left one first, and nothing fails.
   */
  lemma AbsorbShort(stack: seq<Node>, sym: Token)
    requires |stack| < 2
    ensures Absorb(stack, SymbolItem(sym))
         == [Op(Text(sym), Undefined, if stack == [] then Undefined else stack[0])]
  {
    if stack != [] {
      assert stack[..0] == [];
    }
  }

  /** The queue for `a OR AND b`: `AND` does not pop `OR`, so both are drained after `b`, `AND` first. */
  lemma OperandlessConnectivePostfix(a: string, b: string)
    ensures ToPostfix([Cond(a), Conn(Or), Conn(And), Cond(b)])
         == [OperandItem(Trim(a)), OperandItem(Trim(b)), SymbolItem(Conn(And)), SymbolItem(Conn(Or))]
  {
    var a' := OperandItem(Trim(a));
    var t2 := [Conn(And), Cond(b)];
    var t1 := [Conn(Or)] + t2;
    assert [Cond(a)] + t1 == [Cond(a), Conn(Or), Conn(And), Cond(b)];
    FinishCons(Cond(a), t1, State([], []));
    assert Step(State([], []), Cond(a)) == State([a'], []);
    FinishCons(Conn(Or), t2, State([a'], []));
    assert Step(State([a'], []), Conn(Or)) == State([a'], [Conn(Or)]);
    OperandlessConnectiveTail(a', b);
  }

  lemma OperandlessConnectiveTail(a': Item, b: string)
    ensures Finish([Conn(And), Cond(b)], State([a'], [Conn(Or)]))
         == [a', OperandItem(Trim(b)), SymbolItem(Conn(And)), SymbolItem(Conn(Or))]
  {
    var b' := OperandItem(Trim(b));
    var st1 := State([a'], [Conn(Or), Conn(And)]);
    var st2 := State([a', b'], [Conn(Or), Conn(And)]);
    FinishCons(Conn(And), [Cond(b)], State([a'], [Conn(Or)]));
    assert [Conn(And)] + [Cond(b)] == [Conn(And), Cond(b)];
    assert !PopsBefore(Conn(Or), Conn(And));
    assert Step(State([a'], [Conn(Or)]), Conn(And)) == st1;
    FinishCons(Cond(b), [], st1);
    assert [Cond(b)] + [] == [Cond(b)];
    assert Step(st1, Cond(b)) == st2;
    assert MoveTop(st2) == State([a', b', SymbolItem(Conn(And))], [Conn(Or)]);
    DrainOne([a', b', SymbolItem(Conn(And))], Conn(Or));
  }

  /** The queue `x y s1 s2` builds `s2(undefined, s1(x, y))`: the second symbol finds one node left. */
  lemma BuildPairThenShort(x: string, y: string, s1: Token, s2: Token)
    ensures Build([OperandItem(x), OperandItem(y), SymbolItem(s1), SymbolItem(s2)])
         == Op(Text(s2), Undefined, Op(Text(s1), Leaf(x), Leaf(y)))
  {
    var pair := Op(Text(s1), Leaf(x), Leaf(y));
    var i2 := SymbolItem(s2);
    calc {
      Build([OperandItem(x), OperandItem(y), SymbolItem(s1), i2]);
      { assert [OperandItem(x), OperandItem(y), SymbolItem(s1), i2]
            == [OperandItem(x), OperandItem(y), SymbolItem(s1)] + [i2]; }
      BuildFrom([OperandItem(x), OperandItem(y), SymbolItem(s1)] + [i2], []);
      { BuildPair([], x, y, s1, [i2]); assert [] + [pair] == [pair]; }
      BuildFrom([i2], [pair]);
      { assert [i2] == [i2] + []; BuildCons(i2, [], [pair]); AbsorbShort([pair], s2); }
      BuildFrom([], [Op(Text(s2), Undefined, pair)]);
    }
  }

  /**
   * `a OR AND b`: the connective written without a left operand still gets
   * two defined children, `a` and `b`, and the `undefined` lands one level
   * up, under `OR`.
   */
  lemma OperandlessConnectiveTakesNeighbour(a: string, b: string)
    ensures Build(ToPostfix([Cond(a), Conn(Or), Conn(And), Cond(b)]))
         == Op("OR", Undefined, Op("AND", Leaf(Trim(a)), Leaf(Trim(b))))
  {
    OperandlessConnectivePostfix(a, b);
    BuildPairThenShort(Trim(a), Trim(b), Conn(And), Conn(Or));
  }

  /** Tokens that yield no operand and no connective build `undefined`. */
  lemma EmptyParenthesesBuildUndefined()
    ensures Build(ToPostfix([Open, Close])) == Undefined
  {
    FinishCons(Open, [Close], State([], []));
    FinishCons(Close, [], State([], [Open]));
    assert [Open] + [Close] == [Open, Close];
    assert [Close] + [] == [Close];
    assert ToPostfix([Open, Close]) == [];
  }

  /** Operands left over on the build stack are dropped; the last one is the result. */
  lemma SurplusOperandWins(a: string, b: string)
    ensures Build(ToPostfix([Cond(a), Cond(b)])) == Leaf(Trim(b))
  {
    var a', b' := OperandItem(Trim(a)), OperandItem(Trim(b));
    FinishCons(Cond(a), [Cond(b)], State([], []));
    FinishCons(Cond(b), [], State([a'], []));
    assert [Cond(a)] + [Cond(b)] == [Cond(a), Cond(b)];
    assert [Cond(b)] + [] == [Cond(b)];
    assert ToPostfix([Cond(a), Cond(b)]) == [a'] + [b'];
    BuildCons(a', [b'], []);
    BuildCons(b', [], [Leaf(Trim(a))]);
  }
}
