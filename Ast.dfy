/** The expression tree that `createAST` builds, the store keeps and `evaluateAST` walks. */
module Ast {

  /**
   * A tree node as a JavaScript object:
   *  - `Leaf` is `{type: 'operand', value}`, holding the raw comparison text;
   *  - `Op` is `{type: 'operator', value, left, right}`; its label is any
   *    string, since the combiner takes it from the request and the builder
   *    labels a stray `(` with it;
   *  - `Undefined` is the `undefined` that `pop()` yields on an empty stack;
   *  - `Untyped` is an object whose `type` is neither of the two, which only a
   *    tree handed in from outside can contain.
   */
  datatype Node =
    | Leaf(value: string)
    | Op(value: string, left: Node, right: Node)
    | Undefined
    | Untyped

  /** The comparison texts at the leaves, left to right. */
  function Leaves(n: Node): seq<string>
  {
    match n
    case Leaf(v) => [v]
    case Op(_, l, r) => Leaves(l) + Leaves(r)
    case _ => []
  }
}
