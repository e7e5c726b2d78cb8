/**
 * The literal evaluator of `Eva`: numbers evaluate to themselves, a quoted
 * string literal to its text without the quotes, `(+ a b)` to the sum of its
 * two raw operands, and everything else is rejected as unimplemented.
 */
module Eva {
  import opened Ast

  /** What `eval` returns. */
  datatype Value = Number(n: int) | Str(s: string)

  /** `typeof expr === 'number'`. */
  predicate IsNumber(e: Expr)
  {
    e.Num?
  }

  /** A string whose first and last characters are `"` (one lone `"` is both). */
  predicate IsString(e: Expr)
  {
    e.Atom? && |e.name| >= 1 && e.name[0] == '"' && e.name[|e.name| - 1] == '"'
  }

  /** The literal that spells `s`. */
  function Quote(s: string): string
  {
    "\"" + s + "\""
  }

  /** `s.slice(1, -1)`: drops the first and the last character, empty when fewer than two. */
  function Unquote(s: string): string
  {
    if |s| >= 2 then s[1..|s| - 1] else ""
  }

  /** An array, held by value or shared. */
  predicate IsArray(e: Expr)
  {
    e.List? || e.Ref?
  }

  /** The objects reading `e` as an array looks at. */
  function Frame(e: Expr): set<JsArray>
  {
    if e.Ref? then {e.arr} else {}
  }

  function Elems(e: Expr): seq<Expr>
    requires IsArray(e)
    reads Frame(e)
  {
    if e.List? then e.elems else e.arr.items
  }

  /** `expr[0] === '+'` on an array. */
  predicate IsPlusForm(e: Expr)
    reads Frame(e)
  {
    IsArray(e) && At(Elems(e), 0) == Atom("+")
  }

  /**
   * The `+` rule applies JavaScript's `+` to whatever it finds; the model
   * covers it on numbers only: `(+ a b)` has numeric operands, and no bare
   * string starts with `+` (indexing such a string would feed characters to
   * the rule).
   */
  predicate PlusOperandsNumeric(e: Expr)
    reads Frame(e)
  {
    (e.Atom? ==> !(|e.name| >= 1 && e.name[0] == '+'))
    && (IsPlusForm(e) ==> At(Elems(e), 1).Num? && At(Elems(e), 2).Num?)
  }

  /**
   * `eval(expr)`: tried in the order number, quoted string, `+`. Reading
   * element 0 of `null` or `undefined` is a host TypeError; any other array
   * or string is `Unimplemented`.
   */
  function Eval(e: Expr): (r: Result<Value>)
    requires PlusOperandsNumeric(e)
    reads Frame(e)
    ensures IsNumber(e) ==> r == Ok(Number(e.n))
    ensures IsString(e) && |e.name| >= 2 ==> r.Ok? && r.value.Str? && Quote(r.value.s) == e.name
    ensures IsString(e) && |e.name| == 1 ==> r == Ok(Str(""))
    ensures IsPlusForm(e) ==> r == Ok(Number(At(Elems(e), 1).n + At(Elems(e), 2).n))
    ensures r == Err(Unimplemented) <==> (e.Atom? && !IsString(e)) || (IsArray(e) && !IsPlusForm(e))
    ensures r == Err(TypeError) <==> e.Nil? || e.Undef?
  {
    if IsNumber(e) then
      Ok(Number(e.n))
    else if IsString(e) then
      Ok(Str(Unquote(e.name)))
    else if e.Nil? || e.Undef? then
      Err(TypeError)
    else if IsPlusForm(e) then
      Ok(Number(At(Elems(e), 1).n + At(Elems(e), 2).n))
    else
      Err(Unimplemented)
  }

  /** Every quoted literal evaluates back to the text it quotes. */
  lemma QuoteRoundTrip(s: string)
    ensures Eval(Atom(Quote(s))) == Ok(Str(s))
  {
  }

  /**
   * `isString` holds exactly of the lone `"` and of the quoted literals.
   */
  lemma IsStringIffQuoted(e: Expr)
    ensures IsString(e) <==> e.Atom? && (e.name == "\"" || exists t :: e.name == Quote(t))
  {
    if IsString(e) && e.name != "\"" {
      var t := e.name[1..|e.name| - 1];
      assert e.name == Quote(t);
    }
  }

  /** A quoted literal evaluates to a string two characters shorter; the lone `"` to the empty one. */
  lemma StringLengths(e: Expr)
    requires IsString(e)
    ensures Eval(e).Ok? && Eval(e).value.Str?
    ensures |Eval(e).value.s| == if |e.name| >= 2 then |e.name| - 2 else 0
  {
  }

  /** The literal tests of the evaluator: `1` and `"hello"`. */
  lemma LiteralExamples()
    ensures Eval(Num(1)) == Ok(Number(1))
    ensures Eval(Atom("\"hello\"")) == Ok(Str("hello"))
  {
    QuoteRoundTrip("hello");
    assert Quote("hello") == "\"hello\"";
  }
}
