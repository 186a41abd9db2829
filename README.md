# Rule engine: expression compiler, combiner and evaluator

This project models the rule-expression engine of the rule engine back end, in
Dafny. The engine lives in `routes/ruleRoutes.js` and has four parts:

- **`createAST`** turns a rule string such as `(age > 30 AND department = 'Sales') OR salary > 50000` into a tree. It has three stages:
  - a global regular expression cuts the string into tokens: `(`, `)`, `AND`, `OR` and whole comparisons;
  - a shunting-yard pass converts the tokens to postfix, with `AND` binding tighter than `OR` and both left-associative;
  - the inner `buildAST` reduces the postfix queue to a tree of `{type: 'operand'}` leaves and `{type: 'operator'}` nodes.
- **`combineRules`** folds a list of trees into one left-leaning chain under a single operator.
- **`evaluateOperand` / `evaluateAST`** walk a tree against a data record. Each leaf's comparison text is parsed again, and the record's attribute is compared with a number or with an unquoted string using `>`, `<` or `===`. Both children of a connective are always evaluated.

Modules:

- `Wrappers.dfy`: `Option` and `Result`.
- `Lexer.dfy`: the tokenizer. It is written as a hand-written scanner over the token grammar. Alternatives are tried in the regex's order: `(`, `)`, `AND`, `OR`, comparison. Runs are maximal and matches are leftmost and non-overlapping. The scanner is proved to find a token at a position exactly when some alternative of the regex, with runs of any length, matches there. `Tokenize` returns `Err(InvalidRuleString)` where the source throws. `Layout` writes tokens out with any white space between them; the round trip covers every layout the tokenizer reads back.
- `Ast.dfy`: the tree. A node can also be `Undefined`, which is what `pop()` on an empty array yields. It can also be `Untyped`, an object whose `type` is neither `operand` nor `operator`.
- `Parser.dfy`: the shunting-yard pass and the builder.
  - Each is an imperative method over the source's own stack and queue (`ShuntingYard`, `BuildAST`, `CreateAST`).
  - Each method is proved equal to a specification function that runs the same algorithm one token at a time (`ToPostfix`, `Build`, `Compile`).
  - The file also proves that operand order is preserved.
  - Lemmas pin down the behaviour on malformed input: a stray `(`, a stray `)`, a missing operand, a surplus operand.
- `Grammar.dfy`: a reference grammar `Expr`, the printer `Print`, and the correctness theorem for the parser. Compiling the printed tokens of an expression, written out with any white space the tokenizer reads through, gives the expression's tree back. This covers precedence, left associativity and parentheses. `Print` adds the parentheses that precedence requires, and a `Group` node stands for a pair the writer added anyway, such as the ones in `(a > 1 AND b = 2) OR c > 3` or `((a > 1))`.
- `Evaluator.dfy`: `evaluateOperand` and `evaluateAST` as pure functions. Throws are modelled as `Err`.
- `Combine.dfy`: `combineRules` as a loop, proved equal to the chain `Chain`. The file also gives its inverse `Unchain` and the verdict of a combined rule.
- `Semantics.dfy`: what a compiled rule means. It evaluates as its expression denotes. Every leaf that `createAST` produces is one that `evaluateOperand` can parse.

`createAST` does no error checking beyond the tokenizer's, and the model keeps that behaviour:

- A stray `)` raises no `UnbalancedParentheses` error. The code drains the operator stack and carries on.
- Too few operands raise no `MalformedExpression` error. When a connective is reduced with fewer than two nodes on the build stack, the code pops `undefined` for each missing child, the left one first. Which node ends up with the `undefined` child depends on the stack, not on where the operand is missing in the text:
  - `a AND` builds `AND(undefined, a)`;
  - `a OR AND b` builds `OR(undefined, AND(a, b))`: the `AND` written without a left operand takes `a` from the `OR`, and the `OR` is left short.
- A stray `(` is drained into the queue and becomes an operator node labelled `(`. What evaluation then does depends on its children:
  - in `( a` the node's left child is `undefined`, and evaluation fails on that child before it looks at the label;
  - in `a ( b AND c` both children are trees, so evaluation reaches the label and throws `Unknown operator: (`.

The lemmas `UnmatchedCloseDrainsStack`, `AbsorbShort`, `MissingOperandIsUndefined`, `OperandlessConnectiveTakesNeighbour`, `UnmatchedOpenBecomesOperator`, `StrayOpenAfterOperand`, `StrayOpenFirstFails`, `StrayOpenAfterOperandFails`, `EmptyParenthesesBuildUndefined` and `SurplusOperandWins` state this behaviour.

## Model

| member | source | states |
|---|---|---|
| Lexer.MatchAt | routes/ruleRoutes.js:6 | A match at the head of the text covers a non-empty prefix whose text is the token's text; a comparison token is one maximal `\w+\s*[><=]\s*[\w\d']+` match. |
| Lexer.RunEnd | routes/ruleRoutes.js:6 | A greedy run ends within the text, and the character at its end, if any, is outside its class. |
| Lexer.RunEndRun | routes/ruleRoutes.js:6 | Every character of a greedy run is in its class; with `RunEnd`, the run stops at the first character outside the class. |
| Lexer.ComparisonAtMatches | routes/ruleRoutes.js:6 | A comparison found by the scanner is a match of the pattern with all runs maximal. |
| Lexer.RunReaches | routes/ruleRoutes.js:6 | A greedy run reaches at least as far as any stretch of its class that starts where it starts. |
| Lexer.RunStops | routes/ruleRoutes.js:6 | A greedy run ends exactly at the first character outside its class. |
| Lexer.PatternFound | routes/ruleRoutes.js:6 | Conversely, whenever `\w+\s*[><=]\s*V+` matches at the head of the text with runs of any length, the scanner finds a match there, with the same attribute, symbol and value start and a value run at least as long (for a value class without white space). |
| Lexer.ComparisonAtIffPattern | routes/ruleRoutes.js:6 | The scanner finds a comparison at the head of the text exactly when the pattern matches there. |
| Lexer.MatchAtIffRegex | routes/ruleRoutes.js:6 | The scanner finds a token at the head of the text exactly when one of the regex's alternatives `(`, `)`, `AND`, `OR` or the comparison pattern matches there. |
| Lexer.TokenizeFailsIffNoMatch | routes/ruleRoutes.js:6-9 | The rule string is rejected exactly when the scanner finds nothing at any position, and so exactly when no alternative of the regex matches at any position. |
| Lexer.MatchesEmpty | routes/ruleRoutes.js:6-9 | The list of matches is empty exactly when no position matches. |
| Lexer.TokenizedConditionsAreComparisons | routes/ruleRoutes.js:6 | Every comparison token is already trimmed and is, on its own, one complete comparison (with the tokenizer's value class or any wider one). |
| Lexer.MatchesBlank | routes/ruleRoutes.js:6 | White space matches no alternative, so the scan skips it. |
| Lexer.MatchesToken | routes/ruleRoutes.js:6 | A written-out token at the head of the text is read back whole; a comparison needs only that the next character cannot continue its value. |
| Lexer.LayoutEndsValue | routes/ruleRoutes.js:6 | Written-out text that starts with a non-empty gap or a parenthesis cannot continue the value of a comparison before it. |
| Lexer.SeparatesTail | routes/ruleRoutes.js:6 | The tokens after the first, with their gaps, are still well formed and still separated where the regex needs it. |
| Lexer.MatchesLayoutHead | routes/ruleRoutes.js:6 | The regex reads a layout's first gap as nothing and its first token whole, then goes on with the rest of the layout. |
| Lexer.MatchesLayout | routes/ruleRoutes.js:6 | The matches of a layout of well-formed tokens are exactly those tokens. |
| Lexer.TokenizeLayout | routes/ruleRoutes.js:6-9 | Well-formed tokens, written out with any white space before, between and after them, tokenize back to the same tokens. None is needed next to a parenthesis or after a connective, at either end, or anywhere else except between a comparison and a following connective or comparison. |
| Lexer.SingleSpacesSeparate | routes/ruleRoutes.js:6 | One space between each two tokens, and none at either end, is such a layout. |
| Lexer.TokenizeRender | routes/ruleRoutes.js:6-9 | Well-formed tokens written out with one space between each two of them, and none at either end, tokenize back to the same tokens. |
| Lexer.WellFormedCondTrimmed | routes/ruleRoutes.js:33 | A well-formed comparison starts with a word character and ends with a value character, so `trim()` keeps it. |
| Lexer.LayoutCons | routes/ruleRoutes.js:6 | Writing out one more token in front adds its gap and its text. |
| Lexer.ConnectivePrefixSplitsAttribute | routes/ruleRoutes.js:6 | There is no word boundary before `OR`: `ORDER>5` tokenizes as `OR` followed by the comparison `DER>5`. |
| Lexer.TrimNoEdgeSpace | routes/ruleRoutes.js:33 | `trim()` leaves a string unchanged when it neither starts nor ends with white space. |
| Parser.ShuntingYard | routes/ruleRoutes.js:16-39 | The `forEach` over the tokens and the final drain of the operator stack produce exactly `ToPostfix(tokens)`. |
| Parser.BuildAST | routes/ruleRoutes.js:41-58 | The builder's loop, which pops right and then left and pushes `{operator, value, left, right}`, then does a final `pop()`, yields exactly `Build(queue)`. |
| Parser.CreateAST | routes/ruleRoutes.js:5-61 | `createAST` throws exactly when tokenizing fails and otherwise returns `Build(ToPostfix(tokens))`. |
| Parser.OperandOrder | routes/ruleRoutes.js:32-33 | The operands reach the output queue trimmed and in their original order, whatever connectives and parentheses surround them. |
| Parser.FinishOperands | routes/ruleRoutes.js:19-39 | From any state, the rest of the scan appends exactly the remaining trimmed comparisons, in order, to the queue's operands. |
| Parser.StepOperands | routes/ruleRoutes.js:20-34 | One token adds its own trimmed text to the operands if it is a comparison, and adds nothing otherwise. |
| Parser.DrainOperands | routes/ruleRoutes.js:37-39 | Draining the operator stack adds no operand. |
| Parser.PopToOpenOperands | routes/ruleRoutes.js:22-26 | The `)` pop loop moves no operand. |
| Parser.PopWhileHigherOperands | routes/ruleRoutes.js:27-31 | The `>=` pop loop moves no operand. |
| Parser.UnmatchedOpenBecomesOperator | routes/ruleRoutes.js:37-55 | `( a`: the unclosed `(` is drained into the queue after `a`, and the builder makes it a node labelled `(` whose left child is `undefined` and whose right child is `a`. |
| Parser.UnmatchedCloseDrainsStack | routes/ruleRoutes.js:22-26 | A `)` with no `(` empties the stack and is otherwise ignored: `a OR b) AND c` builds `AND(OR(a, b), c)`. |
| Parser.AbsorbShort | routes/ruleRoutes.js:44-55 | Reducing a symbol with fewer than two nodes on the build stack pops `undefined` for each missing child, the left one first, and does not fail. |
| Parser.MissingOperandIsUndefined | routes/ruleRoutes.js:47-48 | `a AND` builds `AND(undefined, a)`: the lone operand becomes the right child, the left child is `undefined`, and nothing fails. |
| Parser.OperandlessConnectivePostfix | routes/ruleRoutes.js:27-39 | In `a OR AND b` the `AND` does not pop the `OR`, so the queue is `a b AND OR`. |
| Parser.BuildPairThenShort | routes/ruleRoutes.js:41-58 | The queue `x y s1 s2` builds `s2(undefined, s1(x, y))`: the second symbol finds only one node left. |
| Parser.OperandlessConnectiveTakesNeighbour | routes/ruleRoutes.js:27-58 | `a OR AND b` builds `OR(undefined, AND(a, b))`: the connective without a left operand in the text still gets two defined children, and the `undefined` lands under `OR`. |
| Parser.EmptyParenthesesBuildUndefined | routes/ruleRoutes.js:57 | `()` leaves an empty queue, and the final `pop()` yields `undefined`. |
| Parser.SurplusOperandWins | routes/ruleRoutes.js:43-57 | With two operands and no connective, the last one is the result and the first is dropped. |
| Parser.BuildLeftNested | routes/ruleRoutes.js:43-55 | The queue `x y s1 z s2` builds `s2(s1(x, y), z)`: the first child popped is the right one. |
| Grammar.ParsePrint | routes/ruleRoutes.js:11-58 | Parsing the printed tokens of any expression gives back that expression's tree. So precedence, left associativity and parentheses, needed or redundant and nested to any depth, are all honoured. |
| Grammar.CompileLayout | routes/ruleRoutes.js:5-61 | For every expression with well-formed comparisons, `createAST` on its printed tokens written out with any white space the tokenizer reads through returns its tree. |
| Grammar.CompileRender | routes/ruleRoutes.js:5-61 | The same for one space between each two tokens. |
| Grammar.TypedGroupedLayout | routes/ruleRoutes.js:6 | The tokens of `(a AND b) OR c`, with blanks only around the connectives, write out to the text `(a AND b) OR c`. |
| Grammar.TypedGroupedText | routes/ruleRoutes.js:6 | The pieces of that layout join up to the text as typed. |
| Grammar.TypedGroupedSeparates | routes/ruleRoutes.js:6 | Those blanks keep every comparison apart from the connective after it. |
| Grammar.TypedGroupedTokens | routes/ruleRoutes.js:6-9 | The typed text `(a AND b) OR c` tokenizes to its seven tokens, in order, for any well-formed comparisons. |
| Grammar.TypedGroupedRule | routes/ruleRoutes.js:5-61 | `createAST` on `(a AND b) OR c`, typed with no blank inside the parentheses and none at either end, returns `OR(AND(a, b), c)` for any well-formed comparisons. |
| Grammar.PostfixOfPrint | routes/ruleRoutes.js:16-39 | The shunting-yard pass turns the printed tokens of an expression into the expression's postfix queue. |
| Grammar.ShuntPrint | routes/ruleRoutes.js:19-35 | Reading a printed sub-expression appends its postfix to the queue and leaves the operator stack unchanged, whenever the stack below cannot be popped by it and a terminator follows. |
| Grammar.ShuntBin | routes/ruleRoutes.js:19-35 | The same for a connective expression, whether it is printed bare or inside the parentheses its level requires. |
| Grammar.ShuntGroup | routes/ruleRoutes.js:20-26 | Reading `(`, a printed expression and `)` appends that expression's postfix and leaves the stack as it was: the `(` is pushed, the inner connectives stay above it, and the `)` pops them and then the `(`. |
| Grammar.BuildOfPostfix | routes/ruleRoutes.js:41-58 | The builder turns the postfix queue of an expression into that expression's tree; the stack ends holding exactly that one node. |
| Grammar.BuildPostfix | routes/ruleRoutes.js:43-56 | Reading the postfix of a sub-expression pushes exactly its tree onto the build stack. |
| Grammar.LeavesInWrittenOrder | routes/ruleRoutes.js:32-58 | The in-order leaves of a parsed rule are its comparisons as written, trimmed and in order, redundant parentheses included. |
| Grammar.PrintWellFormed | routes/ruleRoutes.js:6 | The printed tokens of an expression with well-formed comparisons are non-empty and are read back one by one. |
| Grammar.WrapWellFormed | routes/ruleRoutes.js:6 | Adding `(` before and `)` after well-formed tokens keeps them well-formed. |
| Grammar.AndBindsTighterRight | routes/ruleRoutes.js:11-31 | `a OR b AND c` builds `OR(a, AND(b, c))`. |
| Grammar.AndBindsTighterLeft | routes/ruleRoutes.js:11-31 | `a AND b OR c` builds `OR(AND(a, b), c)`. |
| Grammar.ChainsGroupLeft | routes/ruleRoutes.js:28 | Equal connectives pop on `>=`, so `x c y c z` builds `c(c(x, y), z)` for `AND` and for `OR`. |
| Grammar.ParenthesesOverride | routes/ruleRoutes.js:20-26 | `(a OR b) AND c` builds `AND(OR(a, b), c)`. |
| Grammar.RedundantParentheses | routes/ruleRoutes.js:20-26 | Wrapping a whole rule in parentheses does not change its tree. |
| Grammar.GroupedOperand | routes/ruleRoutes.js:20-31 | `(a AND b) OR c` builds `OR(AND(a, b), c)`: parentheses that precedence does not need change nothing. |
| Grammar.NestedParentheses | routes/ruleRoutes.js:20-26 | `((a))` builds the leaf `a`: each `)` pops exactly its own `(`. |
| Grammar.StrayOpenAfterOperandPostfix | routes/ruleRoutes.js:20-39 | In `a ( b AND c` the unclosed `(` shields the stack below it, so the queue is `a`, the postfix of `b AND c`, then the `(` from the final drain. |
| Grammar.BuildOperandThenOpen | routes/ruleRoutes.js:41-58 | An operand, the postfix of an expression and a `(` build a node labelled `(` with that operand on the left and the expression's tree on the right. |
| Grammar.StrayOpenAfterOperand | routes/ruleRoutes.js:20-58 | `a ( b AND c` builds a node labelled `(` whose left child is `a` and whose right child is `AND(b, c)`. |
| Grammar.CloseMatchesOpen | routes/ruleRoutes.js:22-26 | A `)` right after its `(` pops the `(` and adds nothing to the queue. |
| Combine.CombineRules | routes/ruleRoutes.js:86-101 | `null` exactly for an empty list; a single tree is returned unchanged; otherwise the result is the left-leaning chain of all the trees. |
| Combine.UnchainChain | routes/ruleRoutes.js:89-98 | The chain of N trees has N−1 nodes labelled with the operator down its left spine. Its right children are trees 2..N in order, and the spine ends at tree 1. |
| Combine.ChainUnchain | routes/ruleRoutes.js:89-98 | Conversely, every such spine is the chain of the trees it holds. |
| Combine.ChainLeaves | routes/ruleRoutes.js:89-98 | The leaves of the combined tree are the leaves of the trees, in list order. |
| Combine.EvalChain | routes/ruleRoutes.js:86-101 | The combined rule's verdict is the left fold of the rules' verdicts. |
| Combine.EvalChainAnd | routes/ruleRoutes.js:86-101 | Joined by `AND`, the combined rule holds exactly when every rule holds. |
| Combine.EvalChainOr | routes/ruleRoutes.js:86-101 | Joined by `OR`, the combined rule holds exactly when some rule holds. |
| Combine.EvalChainFirstError | routes/ruleRoutes.js:86-101 | Joined by `AND` or `OR`, if some rule throws, the combined rule throws the error of the first rule that does. |
| Combine.EvalChainUnknownOperator | routes/ruleRoutes.js:86-101 | Joined by any other label, two or more rules always throw: the first rule's error, else the second's, else `Unknown operator` for that label. |
| Evaluator.FirstComparison | routes/ruleRoutes.js:122 | The match position found is one where the pattern matches. |
| Evaluator.FirstComparisonLeftmost | routes/ruleRoutes.js:122 | At no earlier position does the scanner, or the pattern with runs of any length, match. |
| Evaluator.MalformedIffNoMatch | routes/ruleRoutes.js:122-123 | A leaf text throws exactly when the scanner finds nothing in it, and so exactly when the pattern matches nowhere in it. |
| Evaluator.ParseShowCondition | routes/ruleRoutes.js:122-123 | Writing a condition out as `attribute op literal` and parsing it again gives the same condition back. |
| Evaluator.ShowConditionMatch | routes/ruleRoutes.js:122 | On a written-out condition the pattern's three groups are exactly the attribute, the symbol and the literal. |
| Evaluator.StripQuotes | routes/ruleRoutes.js:125 | `replace(/['"]/g, '')` leaves no quote character. |
| Evaluator.QuotedLiteral | routes/ruleRoutes.js:125 | A quoted literal is the string between the quotes, even when that string is all digits. |
| Evaluator.NumeralLiteral | routes/ruleRoutes.js:125 | A decimal numeral literal is the number it denotes. |
| Evaluator.DecimalRoundTrip | routes/ruleRoutes.js:125 | Reading the decimal digits of a number gives the number back. |
| Evaluator.DecimalToNumber | routes/ruleRoutes.js:128-129 | A record string holding a numeral converts to its number when compared with a number. |
| Evaluator.NumberBelowNumeral | routes/ruleRoutes.js:128-129 | A number is less than a numeric string exactly when it is less than the string's number. |
| Evaluator.StrLessIrreflexive | routes/ruleRoutes.js:128-129 | String `<` is irreflexive. |
| Evaluator.StrLessTransitive | routes/ruleRoutes.js:128-129 | String `<` is transitive. |
| Evaluator.StrLessTotal | routes/ruleRoutes.js:128-129 | Any two different strings are ordered one way or the other. |
| Evaluator.CompareExclusive | routes/ruleRoutes.js:127-131 | At most one of `>`, `<` and `===` holds between a record value and a literal. |
| Evaluator.CompareTrichotomy | routes/ruleRoutes.js:127-131 | Between two values of the same type at least one of `>`, `<` and `===` holds; with `CompareExclusive`, exactly one. |
| Evaluator.MissingAttributeIsFalse | routes/ruleRoutes.js:128-130 | An attribute missing from the record (`undefined`) satisfies no comparison. |
| Evaluator.EvalShowCondition | routes/ruleRoutes.js:121-137 | A leaf holding a written-out condition compares the record's attribute with the parsed literal. |
| Evaluator.StrictEquality | routes/ruleRoutes.js:125-130 | `status = 'active'` holds for "active" and for no other value, "Active" included, and fails when the attribute is missing. |
| Evaluator.QuotedNumberIsString | routes/ruleRoutes.js:125-130 | `age = '30'` is false against the number 30. |
| Evaluator.NumeralEqualsNumber | routes/ruleRoutes.js:125-130 | `age = 30` is true against the number 30. |
| Evaluator.NumericStringComparesAsNumber | routes/ruleRoutes.js:125-128 | `x > m` against a record string holding the numeral n is `n > m`. |
| Evaluator.NoWordCharIsMalformed | routes/ruleRoutes.js:122-123 | A leaf text with no word character throws. |
| Evaluator.EvalOpOk | routes/ruleRoutes.js:138-146 | A connective succeeds exactly when both children succeed and its name is `AND` or `OR`. |
| Evaluator.EagerAgreesWhenDefined | routes/ruleRoutes.js:139-144 | Whenever the eager walk succeeds, a short-circuiting walk gives the same verdict. |
| Evaluator.EagerRaisesDespiteDecidedLeft | routes/ruleRoutes.js:139-144 | The right child's error is raised even when the left child already decides an `AND` or an `OR`, where short-circuiting would not raise it. |
| Evaluator.UnknownLabelThrows | routes/ruleRoutes.js:145 | A label other than `AND` or `OR` throws `Unknown operator`, once both children have been evaluated. |
| Evaluator.UntypedAndUndefined | routes/ruleRoutes.js:136-148 | A node of unknown type is `false`; an `undefined` node, or an `undefined` child of `AND`, throws. |
| Semantics.EvalToNode | routes/ruleRoutes.js:135-149 | The tree of an expression evaluates as the expression denotes: both operands, the left error first. |
| Semantics.CompiledRuleMeansExpr | routes/ruleRoutes.js:135-149 | The rule compiled from an expression's printed tokens, written out with any white space the tokenizer reads through, evaluates on every record as that expression denotes. |
| Semantics.PrecedenceDecides | routes/ruleRoutes.js:11-14 | `x OR y AND z` evaluates as `x OR (y AND z)`. |
| Semantics.StrayOpenFirstFails | routes/ruleRoutes.js:135-149 | Evaluating the tree of `( a` fails on its `undefined` left child, whose `type` is read before the label is looked at. |
| Semantics.StrayOpenAfterOperandFails | routes/ruleRoutes.js:138-146 | Evaluating the tree of `x ( y AND z`, for well-formed comparisons, evaluates both children and then throws `Unknown operator: (`. |
| Semantics.BuildFromLeaves | routes/ruleRoutes.js:43-57 | Every leaf of a built tree comes from an operand of the queue (or from the stack the builder started with). |
| Semantics.CompiledLeavesParse | routes/ruleRoutes.js:122-123 | Every leaf of a tree that `createAST` returns is parsed by `evaluateOperand` without throwing, even though `evaluateOperand`'s pattern differs from the tokenizer's. |
| Semantics.CompiledNeverMalformed | routes/ruleRoutes.js:121-149 | Evaluating a tree that `createAST` returned never throws for a malformed comparison. |

## Left out

- The Express route handlers, their request and response shaping, and `console.error` logging. These are I/O glue.
- Persistence through Mongoose: `Rule.find` and `rule.save`. These are asynchronous database calls. `models/Rule.js` is only a schema, and `index.js` is server bootstrap; neither is part of this model.
- The full regular-expression engine. The tokenizer and the operand pattern are written as scanners over their grammars. Each class's greedy run is maximal, and no backtracking is needed because the classes of adjacent runs are disjoint.
- `\s` is restricted to the ASCII white-space characters. `\w` is `[A-Za-z0-9_]`, as in JavaScript without the `u` flag. `trim()` strips the same ASCII set.
- ParseLiteral: only a non-empty string of decimal digits is read as a number. The source's `isNaN`/`Number` would also read hexadecimal, binary, octal and exponent numerals, and `Infinity`, as numbers; the model reads these as strings.
- ToNumber: a record string converts to a number only when, after trimming, it is empty, decimal digits, or decimal digits after a sign. Fractions, exponents, hexadecimal and `Infinity` are treated as `NaN`.
- Floating-point numbers: record values are integers or strings. Booleans, `null`, objects and arrays in records are not modelled.
- String order is code-point order on the modelled characters. JavaScript compares UTF-16 code units, which differs outside the basic multilingual plane.
- Record lookups do not see inherited properties such as `constructor`.
- Externally supplied trees to `/evaluate-rule` whose leaf `value` is not a string (which would throw a `TypeError`) are not modelled. Nodes are the ones `createAST` and `combineRules` build, plus `undefined` and untyped objects.
- Grammar.ParsePrint: the theorem covers every token sequence that is the print of an expression, with any number of added parentheses. It does not prove that every balanced sequence alternating operands and connectives is such a print. Malformed sequences (stray parentheses, missing or surplus operands) are covered by the example lemmas in `Parser.dfy` and `Grammar.dfy` only.
