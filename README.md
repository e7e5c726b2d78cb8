# Eva front end in Dafny

A model of two pieces of the front end of Eva, a small Lisp-like interpreter
written in JavaScript:

- the desugaring **Transformer**, which rewrites the convenience forms `def`,
  `switch`, `for`, `++`, `--`, `+=` and `-=` into the core forms `var`,
  `lambda`, `if`, `begin`, `while` and `set`;
- the literal evaluator **`Eva.eval`**, which evaluates numbers, quoted
  strings and a single `+` rule, and rejects everything else as
  `Unimplemented`.

Files:

- `ast.dfy` (module `Ast`): the list-structured syntax tree the parser hands
  over. `Expr` is `Num | Atom | Nil | Undef | List | Ref`. `Atom` is any
  JavaScript string: an identifier, an operator or a quoted literal. `Nil` is
  `null`. `Undef` is `undefined`, which is what reading past the end of an
  array gives. An array that only one owner holds is a `List` value. An array
  whose identity matters because it is shared and updated in place is a
  `Ref` to a `JsArray` object. Also defines the `Result` type for the
  exceptions the code throws.
- `transformer.dfy` (module `Transformer`): the seven rewrites.
  - `def` and the four increment/decrement rewrites are pure array literals,
    so they are functions. Their contracts are stated through decoders
    (`AsVarLambda`, `AsUpdate`) that take the produced form apart, and
    lemmas show that those decoders accept only the exact target shape.
  - `switch` is a method. Its loop walks a `current` pointer over fresh
    `JsArray` nodes and writes slots 1 to 3 in place. The chain it builds is
    proved equal to `SwitchExpansion`, a right fold over the clauses.
  - `for` is a method. It pushes the step onto the caller's own body array.
- `eva.dfy` (module `Eva`): `IsNumber`, `IsString` and `Eval`.
  - `Quote` is the inverse of the string rule.
  - `Eval` returns `Result<Value>`. The class `Eva` has no fields, so its
    method is a plain function.

Behaviour of the code worth knowing:

- `for` pushes the step onto the body array itself. With a `begin` body this
  gives `(begin s1 ... sk step)`. With any other body, the step becomes one
  more element of that form.
- `for` mutates its input: the caller's body array grows.
- `switch`: when the last clause is not `else`, the innermost alternate is a
  bare `(if)`. With fewer than two clauses the result is
  `(if null null null)`.
- `eval` of `null` or `undefined` throws the host's TypeError when it reads
  element 0, not `Unimplemented`.

## Model

| member | source | states |
|---|---|---|
| `Transformer.TransformDefToLambda` | transform/Transformer.js:10-13 | the result is a `var` form whose value is a `lambda`; the declared name, parameters and body are elements 1, 2 and 3 of the input, `undefined` when missing |
| `Transformer.VarLambdaShape` | transform/Transformer.js:12 | a form the `var`/`lambda` decoder accepts is exactly `(var name (lambda params body))`, so the contract above fixes the whole result |
| `Transformer.DefRoundTrip` | transform/Transformer.js:10-13 | rebuilding a `def` from the rewrite's result gives back the first four elements of the input: name, parameters and body unchanged, trailing elements dropped |
| `Transformer.TransformIncToSet` | transform/Transformer.js:46-50 | `(++ x)` is an update `(set x (+ x 1))` with the same `x` as target and as left operand |
| `Transformer.TransformDecToSet` | transform/Transformer.js:52-56 | `(-- x)` is an update `(set x (- x 1))` with the same `x` in both positions |
| `Transformer.TransformIncByToSet` | transform/Transformer.js:58-62 | `(+= x v)` is an update `(set x (+ x v))` with the same `x` in both positions and amount `v` |
| `Transformer.TransformDecByToSet` | transform/Transformer.js:64-68 | `(-= x v)` is an update `(set x (- x v))` with the same `x` in both positions and amount `v` |
| `Transformer.UpdateShape` | transform/Transformer.js:46-68 | a form the update decoder accepts is exactly `(set x (op x v))`, so the four contracts above fix the whole result |
| `Transformer.IncIsIncByOne` | transform/Transformer.js:46-62 | the `++` rewrite of `x` equals the `+=` rewrite of `x` by 1 |
| `Transformer.DecIsDecByOne` | transform/Transformer.js:52-68 | the `--` rewrite of `x` equals the `-=` rewrite of `x` by 1 |
| `Transformer.TransformSwitchToIf` | transform/Transformer.js:15-33 | the loop allocates a chain of fresh `if` arrays linked through slot 3 and changes nothing else; their number is 1 with fewer than two clauses, n-1 with a final `else`, n otherwise; with fewer than two clauses the result is `(if null null null)`; the chain's value is `SwitchExpansion` of the clauses |
| `Transformer.ChainIsExpansion` | transform/Transformer.js:21-30 | the linked arrays the loop leaves behind, read from node k on, are the right-nested `if`s of clauses k to n-2 around the terminal alternate |
| `Transformer.SwitchNesting` | transform/Transformer.js:15-33 | with n >= 2 clauses the expansion is n-1 nested `if`s; the i-th carries clause i's condition and block; the innermost alternate is the `else` block, or a bare `(if)` when the last clause is not `else` |
| `Transformer.TransformForToWhile` | transform/Transformer.js:35-44 | the result is `(begin init (while cond body))` where body is the caller's own body array grown by exactly `mod` at its end, with earlier elements unchanged; a shared body array is updated in place and is the very array the `while` holds; a body that is not an array raises TypeError and changes nothing |
| `Eva.Eval` | Eva.js:7-21 | numbers evaluate to themselves; a quoted string evaluates to the text that `Quote` maps back to it, and the lone `"` to the empty string; `(+ a b)` gives `a + b` on the raw operands; `Unimplemented` exactly for unquoted strings and arrays not headed by `+`; TypeError exactly for `null` and `undefined` |
| `Eva.IsStringIffQuoted` | Eva.js:28-30 | `isString` holds exactly of the lone `"` and of strings of the form `"t"` |
| `Eva.QuoteRoundTrip` | Eva.js:12-14 | evaluating the quoted literal of any text gives back that text |
| `Eva.StringLengths` | Eva.js:12-14 | a quoted string evaluates to a string two characters shorter, the lone `"` to the empty string |
| `Eva.LiteralExamples` | Eva.js:36-37 | `1` evaluates to `1` and `"hello"` to `hello` |

## Left out

- TransformSwitchToIf: requires every clause to be an array held by value when there are two or more clauses. The host destructuring of a clause that is not an array is not modelled: it is a TypeError for `null`, `undefined` and numbers, and a string splits into characters. A shared clause array is taken as its current contents.
- TransformSwitchToIf: requires that no clause strictly between the first and the last is tagged `else`. With such a clause the code makes that clause's block its `current` array and overwrites its slots.
- Eval: requires `(+ a b)` to have numeric operands, and requires that no bare string starts with `+`. JavaScript's `+` on other values concatenates, or yields `NaN` (for example on the bare string `+`). That is host coercion, not modelled.
- Eval: the self-test at Eva.js:39 expects `(+ (+ 3 2) 5)` to give 10, which needs the operands to be evaluated recursively. The code does not do that, and that input lies outside `Eval`'s precondition. The top-level asserts and the `console.log` of Eva.js are not modelled.
- Numbers are integers. Floating-point results (such as the `-3.5` expected by the math tests) are not modelled.
- Assigning past the end of an array (holes in a sparse array) is not modelled. The switch loop only ever assigns at an index below the array's length or equal to it.
- The full evaluator, `Environment`, the parser and the test harness are not part of this model. Nor is evaluating `var`, `set`, `begin`, `while` and `lambda`, or the `print` primitive.
