/**
 * The list-structured syntax tree the Eva front end works on.
 *
 * The parser hands the interpreter JavaScript values: numbers, strings
 * (identifiers, operator symbols and quoted string literals alike), `null`
 * and nested arrays. Reading past the end of an array gives `undefined`.
 * Arrays are mutable and may be shared; the model keeps two views of them:
 * `List` for an array held by value (nobody else can observe it), and `Ref`
 * for an array whose identity matters because it is shared and updated in
 * place, which is a `JsArray` object.
 */
module Ast {

  /** A JavaScript array whose contents change in place. */
  class JsArray {
    var items: seq<Expr>

    constructor (items: seq<Expr>)
      ensures this.items == items
    {
      this.items := items;
    }
  }

  datatype Expr =
    | Num(n: int)                 // a JavaScript number (integers only here)
    | Atom(name: string)          // a JavaScript string: identifier, operator or quoted literal
    | Nil                         // `null`
    | Undef                       // `undefined`
    | List(elems: seq<Expr>)      // an array held by value
    | Ref(arr: JsArray)           // a shared array, updated in place

  /** Element `i` of an array, `undefined` past its end (array destructuring). */
  function At(xs: seq<Expr>, i: nat): Expr
  {
    if i < |xs| then xs[i] else Undef
  }

  datatype Option<T> = None | Some(value: T)

  /** What a JavaScript `throw` in the modelled code can raise. */
  datatype Error =
    | Unimplemented               // `throw 'Unimplemented'`
    | TypeError                   // the host's TypeError (a property of null, `push` of a non-array)

  datatype Result<T> = Ok(value: T) | Err(error: Error)
}
