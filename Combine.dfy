/** `combineRules`: several trees joined under one connective, as a left-leaning chain. */
module Combine {
  import opened Wrappers
  import opened Ast
  import opened Evaluator

  /** `((t0 op t1) op t2) ... op tn`: each tree in turn becomes the right child of a new root. */
  function Chain(trees: seq<Node>, operator: string): Node
    requires |trees| > 0
    decreases |trees|
  {
    if |trees| == 1 then trees[0]
    else Op(operator, Chain(trees[..|trees| - 1], operator), trees[|trees| - 1])
  }

  /** `combineRules(ruleASTs, operator)`; `None` is the `null` returned for an empty list. */
  method CombineRules(ruleASTs: seq<Node>, operator: string) returns (combined: Option<Node>)
    ensures combined.None? <==> ruleASTs == []
    ensures ruleASTs != [] ==> combined == Some(Chain(ruleASTs, operator))
    ensures |ruleASTs| == 1 ==> combined == Some(ruleASTs[0])
  {
    if |ruleASTs| == 0 {
      return None;
    }
    var combinedAST := ruleASTs[0];
    for i := 1 to |ruleASTs|
      invariant combinedAST == Chain(ruleASTs[..i], operator)
    {
      assert ruleASTs[..i + 1][..i] == ruleASTs[..i];
      combinedAST := Op(operator, combinedAST, ruleASTs[i]);
    }
    assert ruleASTs[..|ruleASTs|] == ruleASTs;
    return Some(combinedAST);
  }

  /**
   * Peels `k` nodes labelled `operator` off the left spine of `n`: the
   * tree at the bottom, then the right children from the bottom up.
   */
  function Unchain(n: Node, operator: string, k: nat): Option<seq<Node>>
  {
    if k == 0 then Some([n])
    else
      match n
      case Op(v, l, r) =>
        if v != operator then None
        else
          (match Unchain(l, operator, k - 1)
           case Some(trees) => Some(trees + [r])
           case None => None)
      case _ => None
  }

  /**
   * The chain of `n` trees has `n - 1` nodes labelled `operator` down its
   * left spine, the right children are trees 2..n in order and the spine
   * ends at tree 1.
   */
  lemma {:induction false} UnchainChain(trees: seq<Node>, operator: string)
    requires |trees| > 0
    ensures Unchain(Chain(trees, operator), operator, |trees| - 1) == Some(trees)
    decreases |trees|
  {
    if |trees| > 1 {
      var init := trees[..|trees| - 1];
      UnchainChain(init, operator);
      assert Chain(trees, operator) == Op(operator, Chain(init, operator), trees[|trees| - 1]);
      assert |init| - 1 == |trees| - 2;
      assert init + [trees[|trees| - 1]] == trees;
    } else {
      assert trees == [trees[0]];
    }
  }

  /** Conversely, every such spine is the chain of the trees it holds. */
  lemma {:induction false} ChainUnchain(n: Node, operator: string, k: nat)
    requires Unchain(n, operator, k).Some?
    ensures |Unchain(n, operator, k).value| == k + 1
    ensures Chain(Unchain(n, operator, k).value, operator) == n
  {
    if k > 0 {
      var trees := Unchain(n.left, operator, k - 1).value;
      ChainUnchain(n.left, operator, k - 1);
      assert (trees + [n.right])[..|trees|] == trees;
    }
  }

  /** The leaves of the chain are the leaves of the trees, in list order. */
  lemma {:induction false} ChainLeaves(trees: seq<Node>, operator: string)
    requires |trees| > 0
    ensures Leaves(Chain(trees, operator)) == LeavesOf(trees)
    decreases |trees|
  {
    if |trees| > 1 {
      var init := trees[..|trees| - 1];
      ChainLeaves(init, operator);
      LeavesOfSnoc(init, trees[|trees| - 1]);
      assert init + [trees[|trees| - 1]] == trees;
    } else {
      assert LeavesOf(trees) == Leaves(trees[0]) + LeavesOf([]);
    }
  }

  function LeavesOf(trees: seq<Node>): seq<string>
  {
    if trees == [] then [] else Leaves(trees[0]) + LeavesOf(trees[1..])
  }

  lemma {:induction false} LeavesOfSnoc(trees: seq<Node>, t: Node)
    ensures LeavesOf(trees + [t]) == LeavesOf(trees) + Leaves(t)
  {
    if trees == [] {
      assert LeavesOf([t]) == Leaves(t) + LeavesOf([]);
    } else {
      assert (trees + [t])[1..] == trees[1..] + [t];
      LeavesOfSnoc(trees[1..], t);
    }
  }

  // ---------------------------------------------------------------------
  // Evaluating a combined rule
  // ---------------------------------------------------------------------

  /** The verdicts of the rules, in list order. */
  function EvalAll(trees: seq<Node>, data: Record): (rs: seq<Result<bool, EvalError>>)
    ensures |rs| == |trees|
  {
    if trees == [] then [] else EvalAll(trees[..|trees| - 1], data) + [Eval(trees[|trees| - 1], data)]
  }

  lemma {:induction false} EvalAllIndex(trees: seq<Node>, data: Record, i: nat)
    requires i < |trees|
    ensures EvalAll(trees, data)[i] == Eval(trees[i], data)
    decreases |trees|
  {
    if i < |trees| - 1 {
      EvalAllIndex(trees[..|trees| - 1], data, i);
    }
  }

  /** The verdicts folded from the left, as down the chain's spine. */
  function JoinAll(name: string, rs: seq<Result<bool, EvalError>>): Result<bool, EvalError>
    requires |rs| > 0
  {
    if |rs| == 1 then rs[0] else Join(name, JoinAll(name, rs[..|rs| - 1]), rs[|rs| - 1])
  }

  /** The combined rule's verdict is the fold of the rules' verdicts. */
  lemma {:induction false} EvalChain(trees: seq<Node>, operator: string, data: Record)
    requires |trees| > 0
    ensures Eval(Chain(trees, operator), data) == JoinAll(operator, EvalAll(trees, data))
    decreases |trees|
  {
    var rs := EvalAll(trees, data);
    if |trees| > 1 {
      var init := trees[..|trees| - 1];
      EvalChain(init, operator, data);
      assert rs[..|rs| - 1] == EvalAll(init, data);
    } else {
      assert rs == [Eval(trees[0], data)];
    }
  }

  lemma {:induction false} JoinAllAnd(rs: seq<Result<bool, EvalError>>)
    requires |rs| > 0 && forall i | 0 <= i < |rs| :: rs[i].Ok?
    ensures JoinAll("AND", rs) == Ok(forall i | 0 <= i < |rs| :: rs[i].value)
  {
    if |rs| > 1 {
      var init := rs[..|rs| - 1];
      JoinAllAnd(init);
      assert forall i | 0 <= i < |init| :: init[i] == rs[i];
    }
  }

  lemma {:induction false} JoinAllOr(rs: seq<Result<bool, EvalError>>)
    requires |rs| > 0 && forall i | 0 <= i < |rs| :: rs[i].Ok?
    ensures JoinAll("OR", rs) == Ok(exists i | 0 <= i < |rs| :: rs[i].value)
  {
    if |rs| > 1 {
      var init := rs[..|rs| - 1];
      JoinAllOr(init);
      assert forall i | 0 <= i < |init| :: init[i] == rs[i];
      if rs[|rs| - 1].value {
        assert exists i | 0 <= i < |rs| :: rs[i].value;
      }
    } else {
      assert rs[0].value ==> exists i | 0 <= i < |rs| :: rs[i].value;
    }
  }

  lemma {:induction false} JoinAllFirstError(name: string, rs: seq<Result<bool, EvalError>>, j: nat)
    requires name == "AND" || name == "OR"
    requires j < |rs| && rs[j].Err? && forall i | 0 <= i < j :: rs[i].Ok?
    ensures JoinAll(name, rs) == rs[j]
  {
    var init := rs[..|rs| - 1];
    if j < |rs| - 1 {
      assert init[j] == rs[j];
      JoinAllFirstError(name, init, j);
    } else if j > 0 {
      JoinAllOk(name, init);
    }
  }

  lemma {:induction false} JoinAllOk(name: string, rs: seq<Result<bool, EvalError>>)
    requires name == "AND" || name == "OR"
    requires |rs| > 0 && forall i | 0 <= i < |rs| :: rs[i].Ok?
    ensures JoinAll(name, rs).Ok?
  {
    if |rs| > 1 {
      JoinAllOk(name, rs[..|rs| - 1]);
    }
  }

  lemma EvalAllOk(trees: seq<Node>, data: Record, n: nat)
    requires n <= |trees|
    requires forall i | 0 <= i < n :: Eval(trees[i], data).Ok?
    ensures forall i | 0 <= i < n :: EvalAll(trees, data)[i].Ok?
  {
    forall i | 0 <= i < n
      ensures EvalAll(trees, data)[i].Ok?
    {
      EvalAllIndex(trees, data, i);
    }
  }

  /** Joined by `AND`, the combined rule holds exactly when every rule holds. */
  lemma EvalChainAnd(trees: seq<Node>, data: Record)
    requires |trees| > 0
    requires forall i | 0 <= i < |trees| :: Eval(trees[i], data).Ok?
    ensures Eval(Chain(trees, "AND"), data) == Ok(forall i | 0 <= i < |trees| :: Eval(trees[i], data).value)
  {
    var rs := EvalAll(trees, data);
    EvalChain(trees, "AND", data);
    EvalAllOk(trees, data, |trees|);
    JoinAllAnd(rs);
    forall i | 0 <= i < |trees|
      ensures rs[i] == Eval(trees[i], data)
    {
      EvalAllIndex(trees, data, i);
    }
  }

  /** Joined by `OR`, the combined rule holds exactly when some rule holds. */
  lemma EvalChainOr(trees: seq<Node>, data: Record)
    requires |trees| > 0
    requires forall i | 0 <= i < |trees| :: Eval(trees[i], data).Ok?
    ensures Eval(Chain(trees, "OR"), data) == Ok(exists i | 0 <= i < |trees| :: Eval(trees[i], data).value)
  {
    var rs := EvalAll(trees, data);
    EvalChain(trees, "OR", data);
    EvalAllOk(trees, data, |trees|);
    JoinAllOr(rs);
    forall i | 0 <= i < |trees|
      ensures rs[i] == Eval(trees[i], data)
    {
      EvalAllIndex(trees, data, i);
    }
  }

  /**
   * When some rule throws, the combined rule throws the error of the first
   * rule that does, however the others evaluate.
   */
  lemma EvalChainFirstError(trees: seq<Node>, operator: string, data: Record, j: nat)
    requires operator == "AND" || operator == "OR"
    requires j < |trees| && Eval(trees[j], data).Err?
    requires forall i | 0 <= i < j :: Eval(trees[i], data).Ok?
    ensures Eval(Chain(trees, operator), data) == Eval(trees[j], data)
  {
    var rs := EvalAll(trees, data);
    EvalChain(trees, operator, data);
    EvalAllOk(trees, data, j);
    EvalAllIndex(trees, data, j);
    JoinAllFirstError(operator, rs, j);
  }

  /**
   * Joined by any label other than `AND` and `OR` (the operator comes from
   * the request unchecked), a combination of two or more rules always
   * throws: the first rule's error, else the second's, else
   * `Unknown operator` from the innermost node.
   */
  lemma {:induction false} EvalChainUnknownOperator(trees: seq<Node>, operator: string, data: Record)
    requires operator != "AND" && operator != "OR"
    requires |trees| >= 2
    ensures var r0, r1 := Eval(trees[0], data), Eval(trees[1], data);
            Eval(Chain(trees, operator), data)
              == if r0.Err? then r0 else if r1.Err? then r1 else Err(UnknownOperator(operator))
    decreases |trees|
  {
    var init := trees[..|trees| - 1];
    if |trees| > 2 {
      EvalChainUnknownOperator(init, operator, data);
      assert init[0] == trees[0] && init[1] == trees[1];
    } else {
      assert Chain(init, operator) == trees[0];
    }
  }
}
