/**
 * The desugaring transformer: rewrites of the convenience forms `def`,
 * `switch`, `for`, `++`, `--`, `+=` and `-=` into the core forms `var`,
 * `lambda`, `if`, `begin`, `while` and `set`.
 *
 * Each rewrite receives the elements of the sugared array and destructures
 * them positionally, so a missing element reads as `undefined` and extra
 * elements are ignored.
 */
module Transformer {
  import opened Ast

  // ---------------------------------------------------------------------
  // def
  // ---------------------------------------------------------------------

  /** The parts of a function declaration. */
  datatype FunctionDecl = FunctionDecl(name: Expr, params: Expr, body: Expr)

  /** Recognises `(var name (lambda params body))` and takes it apart. */
  function AsVarLambda(e: Expr): Option<FunctionDecl>
  {
    if e.List? && |e.elems| == 3 && e.elems[0] == Atom("var")
       && e.elems[2].List? && |e.elems[2].elems| == 3 && e.elems[2].elems[0] == Atom("lambda")
    then Some(FunctionDecl(e.elems[1], e.elems[2].elems[1], e.elems[2].elems[2]))
    else None
  }

  /** The `def` form that declares `d`. */
  function DefForm(d: FunctionDecl): seq<Expr>
  {
    [Atom("def"), d.name, d.params, d.body]
  }

  /** `(def name params body)` becomes `(var name (lambda params body))`. */
  function TransformDefToLambda(defExpr: seq<Expr>): (r: Expr)
    ensures AsVarLambda(r) == Some(FunctionDecl(At(defExpr, 1), At(defExpr, 2), At(defExpr, 3)))
  {
    List([Atom("var"), At(defExpr, 1), List([Atom("lambda"), At(defExpr, 2), At(defExpr, 3)])])
  }

  /** `AsVarLambda` only accepts the exact `var`/`lambda` shape, so its result determines its input. */
  lemma VarLambdaShape(e: Expr, d: FunctionDecl)
    requires AsVarLambda(e) == Some(d)
    ensures e == List([Atom("var"), d.name, List([Atom("lambda"), d.params, d.body])])
  {
    var inner := e.elems[2];
    assert inner.elems == [Atom("lambda"), d.params, d.body];
    assert e.elems == [Atom("var"), d.name, inner];
  }

  /**
   * Undoing the rewrite gives back the first four elements of the `def`
   * form: name, parameters and body are carried over unchanged, anything
   * after the body is dropped.
   */
  lemma DefRoundTrip(defExpr: seq<Expr>)
    requires |defExpr| >= 4 && defExpr[0] == Atom("def")
    ensures var d := AsVarLambda(TransformDefToLambda(defExpr));
            d.Some? && DefForm(d.value) == defExpr[..4]
  {
  }

  // ---------------------------------------------------------------------
  // ++, --, +=, -=
  // ---------------------------------------------------------------------

  /** An assignment `(set x (op x amount))` that updates `x` from its own value. */
  datatype Update = Update(target: Expr, op: string, amount: Expr)

  /**
   * Recognises `(set x (op x amount))`: the operator is a string and the
   * same target appears both as the assigned name and as the left operand.
   */
  function AsUpdate(e: Expr): Option<Update>
  {
    if e.List? && |e.elems| == 3 && e.elems[0] == Atom("set")
       && e.elems[2].List? && |e.elems[2].elems| == 3 && e.elems[2].elems[0].Atom?
       && e.elems[2].elems[1] == e.elems[1]
    then Some(Update(e.elems[1], e.elems[2].elems[0].name, e.elems[2].elems[2]))
    else None
  }

  /** `AsUpdate` only accepts the exact `set` shape, so its result determines its input. */
  lemma UpdateShape(e: Expr, u: Update)
    requires AsUpdate(e) == Some(u)
    ensures e == List([Atom("set"), u.target, List([Atom(u.op), u.target, u.amount])])
  {
    var inner := e.elems[2];
    assert inner.elems == [Atom(u.op), u.target, u.amount];
    assert e.elems == [Atom("set"), u.target, inner];
  }

  /** `(++ x)` becomes `(set x (+ x 1))`. */
  function TransformIncToSet(incExpr: seq<Expr>): (r: Expr)
    ensures AsUpdate(r) == Some(Update(At(incExpr, 1), "+", Num(1)))
  {
    List([Atom("set"), At(incExpr, 1), List([Atom("+"), At(incExpr, 1), Num(1)])])
  }

  /** `(-- x)` becomes `(set x (- x 1))`. */
  function TransformDecToSet(decExpr: seq<Expr>): (r: Expr)
    ensures AsUpdate(r) == Some(Update(At(decExpr, 1), "-", Num(1)))
  {
    List([Atom("set"), At(decExpr, 1), List([Atom("-"), At(decExpr, 1), Num(1)])])
  }

  /** `(+= x v)` becomes `(set x (+ x v))`. */
  function TransformIncByToSet(incByExpr: seq<Expr>): (r: Expr)
    ensures AsUpdate(r) == Some(Update(At(incByExpr, 1), "+", At(incByExpr, 2)))
  {
    List([Atom("set"), At(incByExpr, 1), List([Atom("+"), At(incByExpr, 1), At(incByExpr, 2)])])
  }

  /** `(-= x v)` becomes `(set x (- x v))`. */
  function TransformDecByToSet(decByExpr: seq<Expr>): (r: Expr)
    ensures AsUpdate(r) == Some(Update(At(decByExpr, 1), "-", At(decByExpr, 2)))
  {
    List([Atom("set"), At(decByExpr, 1), List([Atom("-"), At(decByExpr, 1), At(decByExpr, 2)])])
  }

  /** `(++ x)` expands exactly as `(+= x 1)` does. */
  lemma IncIsIncByOne(incExpr: seq<Expr>)
    ensures TransformIncToSet(incExpr) == TransformIncByToSet([Atom("+="), At(incExpr, 1), Num(1)])
  {
  }

  /** `(-- x)` expands exactly as `(-= x 1)` does. */
  lemma DecIsDecByOne(decExpr: seq<Expr>)
    ensures TransformDecToSet(decExpr) == TransformDecByToSet([Atom("-="), At(decExpr, 1), Num(1)])
  {
  }

  // ---------------------------------------------------------------------
  // switch
  // ---------------------------------------------------------------------

  /** The clauses of a `switch` form: everything after the tag. */
  function Cases(switchExpr: seq<Expr>): seq<Expr>
  {
    if switchExpr == [] then [] else switchExpr[1..]
  }

  /** The condition of a clause `(cond block)`. */
  function Cond(clause: Expr): Expr
    requires clause.List?
  {
    At(clause.elems, 0)
  }

  /** The block of a clause `(cond block)`. */
  function Block(clause: Expr): Expr
    requires clause.List?
  {
    At(clause.elems, 1)
  }

  /** Clause `i` is tagged `else`. */
  predicate IsElse(cases: seq<Expr>, i: nat)
  {
    i < |cases| && cases[i].List? && Cond(cases[i]) == Atom("else")
  }

  /**
   * What the rewrite needs of its input when it has two clauses or more
   * (with fewer, no clause is read): every clause is an array, and no
   * clause strictly between the first and the last is tagged `else`, since
   * the rewrite would then write into that clause's block.
   */
  predicate WellFormedCases(cases: seq<Expr>)
  {
    |cases| >= 2 ==>
      forall k :: 0 <= k < |cases| ==>
        cases[k].List? && (1 <= k < |cases| - 1 ==> Cond(cases[k]) != Atom("else"))
  }

  /** The innermost alternate: the `else` block, or a bare `(if)` when the last clause is not `else`. */
  function Terminal(last: Expr): Expr
    requires last.List?
  {
    if Cond(last) == Atom("else") then Block(last) else List([Atom("if")])
  }

  /** `(if c1 b1 (if c2 b2 ... alt))` over the clauses `cs`: a right fold. */
  function Nest(cs: seq<Expr>, alt: Expr): Expr
    requires forall k :: 0 <= k < |cs| ==> cs[k].List?
  {
    if cs == [] then alt
    else List([Atom("if"), Cond(cs[0]), Block(cs[0]), Nest(cs[1..], alt)])
  }

  /** The expression a `switch` with clauses `cases` stands for. */
  function SwitchExpansion(cases: seq<Expr>): Expr
    requires WellFormedCases(cases)
  {
    if |cases| < 2 then List([Atom("if"), Nil, Nil, Nil])
    else Nest(cases[..|cases| - 1], Terminal(cases[|cases| - 1]))
  }

  /** The alternate reached by following slot 3 of an `if` `k` times. */
  function Alternate(e: Expr, k: nat): Expr
  {
    if k == 0 then e
    else if e.List? && |e.elems| == 4 then Alternate(e.elems[3], k - 1)
    else Undef
  }

  lemma {:induction false} NestAlternate(cs: seq<Expr>, alt: Expr, k: nat)
    requires forall j :: 0 <= j < |cs| ==> cs[j].List?
    requires k <= |cs|
    ensures Alternate(Nest(cs, alt), k) == Nest(cs[k..], alt)
  {
    if k > 0 {
      NestAlternate(cs[1..], alt, k - 1);
      assert cs[1..][k - 1..] == cs[k..];
    }
  }

  /**
   * A switch with n >= 2 clauses expands to n - 1 right-nested `if`s: the
   * i-th carries the i-th clause's condition and block, and the innermost
   * alternate is the `else` block, or a bare `(if)` when the last clause is
   * not tagged `else` (its condition and block are then discarded).
   */
  lemma SwitchNesting(cases: seq<Expr>, i: nat)
    requires WellFormedCases(cases) && |cases| >= 2
    requires i < |cases| - 1
    ensures var e := SwitchExpansion(cases);
            Alternate(e, i) == List([Atom("if"), Cond(cases[i]), Block(cases[i]), Alternate(e, i + 1)])
    ensures Alternate(SwitchExpansion(cases), |cases| - 1) == Terminal(cases[|cases| - 1])
  {
    var n := |cases|;
    var cs := cases[..n - 1];
    var alt := Terminal(cases[n - 1]);
    NestAlternate(cs, alt, i);
    NestAlternate(cs, alt, i + 1);
    NestAlternate(cs, alt, n - 1);
    assert cs[i..][0] == cases[i];
    assert cs[i..][1..] == cs[i + 1..];
  }

  /**
   * The value seen through a chain of `if` arrays: node k with the link in
   * its slot 3 replaced by the value of node k + 1.
   */
  ghost function Chain(nodes: seq<JsArray>, k: nat): Expr
    requires k < |nodes|
    reads nodes
    decreases |nodes| - k
  {
    var items := nodes[k].items;
    if k + 1 < |nodes| && |items| == 4 then List(items[..3] + [Chain(nodes, k + 1)])
    else List(items)
  }

  /** Assignment to index `k` of an array, which grows by one when `k` is its length. */
  function Store(items: seq<Expr>, k: nat, v: Expr): (r: seq<Expr>)
    requires k <= |items|
  {
    if k < |items| then items[k := v] else items + [v]
  }

  /** The chain built by the loop of `TransformSwitchToIf` stands for `SwitchExpansion`. */
  lemma {:induction false} ChainIsExpansion(nodes: seq<JsArray>, cases: seq<Expr>, k: nat)
    requires WellFormedCases(cases) && |cases| >= 2
    requires |nodes| == if IsElse(cases, |cases| - 1) then |cases| - 1 else |cases|
    requires forall j :: 0 <= j < |nodes| - 1 ==>
      nodes[j].items == [Atom("if"), Cond(cases[j]), Block(cases[j]), Ref(nodes[j + 1])]
    requires IsElse(cases, |cases| - 1) ==>
      nodes[|cases| - 2].items == [Atom("if"), Cond(cases[|cases| - 2]), Block(cases[|cases| - 2]), Block(cases[|cases| - 1])]
    requires !IsElse(cases, |cases| - 1) ==> nodes[|cases| - 1].items == [Atom("if")]
    requires k < |cases| - 1
    ensures Chain(nodes, k) == Nest(cases[k..|cases| - 1], Terminal(cases[|cases| - 1]))
    decreases |cases| - k
  {
    var n := |cases|;
    var alt := Terminal(cases[n - 1]);
    var cs := cases[k..n - 1];
    assert cs[0] == cases[k];
    if k + 1 < |nodes| {
      var items := nodes[k].items;
      if k + 1 < n - 1 {
        ChainIsExpansion(nodes, cases, k + 1);
        assert cs[1..] == cases[k + 1..n - 1];
      } else {
        assert cs[1..] == [];
        assert nodes[k + 1].items == [Atom("if")];
      }
      assert items[..3] + [Chain(nodes, k + 1)] == [Atom("if"), Cond(cs[0]), Block(cs[0]), Nest(cs[1..], alt)];
    } else {
      assert cs[1..] == [];
    }
  }

  /**
   * `(switch (c1 b1) ... (cn bn))` becomes right-nested `if`s, built the way
   * the JavaScript builds it: a fresh `(if null null null)` array, then a loop that walks
   * a `current` pointer, writes the clause's condition and block into its
   * slots 1 and 2, and in slot 3 either the next clause's block (when that
   * clause is `else`) or a fresh `(if)` array that the next round fills.
   * The result is the first array; `nodes` lists every array the rewrite
   * allocated, in nesting order. Nothing existing is modified.
   */
  method TransformSwitchToIf(switchExpr: seq<Expr>) returns (ifExp: JsArray, ghost nodes: seq<JsArray>)
    requires WellFormedCases(Cases(switchExpr))
    ensures |nodes| >= 1 && nodes[0] == ifExp
    ensures forall k :: 0 <= k < |nodes| ==> fresh(nodes[k])
    ensures forall k :: 0 <= k < |nodes| - 1 ==> |nodes[k].items| == 4 && nodes[k].items[3] == Ref(nodes[k + 1])
    ensures var cases := Cases(switchExpr);
            |nodes| == if |cases| < 2 then 1 else if IsElse(cases, |cases| - 1) then |cases| - 1 else |cases|
    ensures |Cases(switchExpr)| < 2 ==> ifExp.items == [Atom("if"), Nil, Nil, Nil]
    ensures Chain(nodes, 0) == SwitchExpansion(Cases(switchExpr))
  {
    var cases := Cases(switchExpr);
    ifExp := new JsArray([Atom("if"), Nil, Nil, Nil]);
    var current := Ref(ifExp);
    nodes := [ifExp];
    var i := 0;
    while i < |cases| - 1
      invariant 0 <= i && (i == 0 || i < |cases|)
      invariant |nodes| <= i + 1 && (i >= 1 ==> |cases| >= 2)
      invariant 1 <= |nodes| && nodes[0] == ifExp
      invariant forall k :: 0 <= k < |nodes| ==> fresh(nodes[k])
      invariant forall j, k :: 0 <= j < k < |nodes| ==> nodes[j] != nodes[k]
      invariant forall k :: 0 <= k < |nodes| - 1 ==>
        nodes[k].items == [Atom("if"), Cond(cases[k]), Block(cases[k]), Ref(nodes[k + 1])]
      invariant i >= 1 && IsElse(cases, i) ==>
        |nodes| == i && nodes[i - 1].items == [Atom("if"), Cond(cases[i - 1]), Block(cases[i - 1]), Block(cases[i])]
      invariant !(i >= 1 && IsElse(cases, i)) ==>
        |nodes| == i + 1 && current == Ref(nodes[i])
        && nodes[i].items == if i == 0 then [Atom("if"), Nil, Nil, Nil] else [Atom("if")]
    {
      var node := current.arr;
      var clause := cases[i];
      node.items := Store(node.items, 1, Cond(clause));
      node.items := Store(node.items, 2, Block(clause));
      var next := cases[i + 1];
      if Cond(next) == Atom("else") {
        node.items := Store(node.items, 3, Block(next));
      } else {
        var inner := new JsArray([Atom("if")]);
        node.items := Store(node.items, 3, Ref(inner));
        nodes := nodes + [inner];
      }
      current := node.items[3];
      i := i + 1;
    }
    forall k | 0 <= k < |nodes| - 1
      ensures |nodes[k].items| == 4 && nodes[k].items[3] == Ref(nodes[k + 1])
    {
      assert nodes[k].items == [Atom("if"), Cond(cases[k]), Block(cases[k]), Ref(nodes[k + 1])];
    }
    if |cases| >= 2 {
      ChainIsExpansion(nodes, cases, 0);
      assert cases[0..|cases| - 1] == cases[..|cases| - 1];
    }
  }

  // ---------------------------------------------------------------------
  // for
  // ---------------------------------------------------------------------

  /** The arrays `TransformForToWhile` may change: the body array, when it is shared. */
  function BodyFrame(items: seq<Expr>): set<JsArray>
  {
    if At(items, 4).Ref? then {At(items, 4).arr} else {}
  }

  /**
   * `(for init cond mod body)` becomes `(begin init (while cond body'))`,
   * where `body'` is the caller's own body array with `mod` pushed onto its
   * end. A shared body array grows in place and the `while` holds that very
   * array; a body held by value grows inside `forExpr`. A body that is not
   * an array has no `push`, a host TypeError, and nothing changes.
   */
  method TransformForToWhile(forExpr: JsArray) returns (r: Result<Expr>)
    modifies forExpr, BodyFrame(forExpr.items)
    ensures var items := old(forExpr.items);
            var body := At(items, 4);
            body.Ref? ==>
              body.arr.items == old(body.arr.items) + [At(items, 3)]
              && (body.arr != forExpr ==> forExpr.items == items)
              && r == Ok(List([Atom("begin"), At(items, 1), List([Atom("while"), At(items, 2), body])]))
    ensures var items := old(forExpr.items);
            var body := At(items, 4);
            body.List? ==>
              var grown := List(body.elems + [At(items, 3)]);
              forExpr.items == items[4 := grown]
              && r == Ok(List([Atom("begin"), At(items, 1), List([Atom("while"), At(items, 2), grown])]))
    ensures var body := At(old(forExpr.items), 4);
            !body.Ref? && !body.List? ==> r == Err(TypeError) && forExpr.items == old(forExpr.items)
  {
    var items := forExpr.items;
    var init, condition, modifier, body := At(items, 1), At(items, 2), At(items, 3), At(items, 4);
    match body {
      case Ref(a) =>
        a.items := a.items + [modifier];
        r := Ok(List([Atom("begin"), init, List([Atom("while"), condition, body])]));
      case List(es) =>
        var grown := List(es + [modifier]);
        forExpr.items := items[4 := grown];
        r := Ok(List([Atom("begin"), init, List([Atom("while"), condition, grown])]));
      case _ =>
        r := Err(TypeError);
    }
  }
}
