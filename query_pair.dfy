/** QueryPair<T>: a pull request's identity string with an optional filter
    predicate, and the Or/And combinators that build a deterministic identity
    from their operands. The identity is the key by which the pull queue
    recognises duplicates. */
module QueryPairs {
  import opened Common

  /** A LINQ predicate expression, kept symbolic: a user expression with the
      text it renders as, or the `.Or`/`.And` combination of two of them. */
  datatype Pred =
    | Expr(text: string)
    | OrElse(left: Pred, right: Pred)
    | AndAlso(left: Pred, right: Pred)

  /** The delegate `Compile()` produces from a predicate. */
  datatype Compiled = Compiled(source: Pred)

  /** The properties of a QueryPair, which only its constructors assign. */
  datatype QueryPair = QueryPair(id: string, pred: Option<Pred>, lambda: Option<Compiled>)

  const AllId: string := "all"

  /** `new QueryPair()`: the match-everything request. */
  function Default(): (q: QueryPair)
    ensures q.id == AllId && q.pred.None? && q.lambda.None?
  {
    QueryPair(AllId, None, None)
  }

  /** `new QueryPair(id, predicate)`; `Lambda` is `predicate?.Compile()`. */
  function Make(id: string, pred: Option<Pred>): (q: QueryPair)
    ensures q.id == id && q.pred == pred
    ensures q.lambda.Some? <==> pred.Some?
    ensures q.lambda.Some? ==> q.lambda.value.source == pred.value
  {
    QueryPair(id, pred, if pred.Some? then Some(Compiled(pred.value)) else None)
  }

  /** `q?.Predicate != null` for an operand that may itself be null. */
  predicate HasPredicate(q: Option<QueryPair>)
  {
    q.Some? && q.value.pred.Some?
  }

  /** The combination both `Or` and `And` share: both operands with a
      predicate give `both`'s combined predicate and the identity
      "(" + a.Id + ")" + word + "(" + b.Id + ")"; one operand with a predicate
      gives that operand again; neither gives the match-everything request. */
  function Combine(a: Option<QueryPair>, b: Option<QueryPair>, word: string, both: (Pred, Pred) -> Pred): QueryPair
  {
    if HasPredicate(a) && HasPredicate(b) then
      Make("(" + a.value.id + ")" + word + "(" + b.value.id + ")",
           Some(both(a.value.pred.value, b.value.pred.value)))
    else if HasPredicate(a) then Make(a.value.id, a.value.pred)
    else if HasPredicate(b) then Make(b.value.id, b.value.pred)
    else Make(AllId, None)
  }

  /** `QueryPair<T>.Or(a, b)`. */
  function Or(a: Option<QueryPair>, b: Option<QueryPair>): (r: QueryPair)
    ensures HasPredicate(a) && HasPredicate(b) ==>
      r.id == "(" + a.value.id + ")OR(" + b.value.id + ")" &&
      r.pred == Some(OrElse(a.value.pred.value, b.value.pred.value))
    ensures HasPredicate(a) && !HasPredicate(b) ==> r.id == a.value.id && r.pred == a.value.pred
    ensures !HasPredicate(a) && HasPredicate(b) ==> r.id == b.value.id && r.pred == b.value.pred
    ensures !HasPredicate(a) && !HasPredicate(b) ==> r.id == AllId && r.pred.None?
    ensures r.lambda.Some? <==> r.pred.Some?
  {
    Combine(a, b, "OR", (x, y) => OrElse(x, y))
  }

  /** `QueryPair<T>.And(a, b)`. */
  function And(a: Option<QueryPair>, b: Option<QueryPair>): (r: QueryPair)
    ensures HasPredicate(a) && HasPredicate(b) ==>
      r.id == "(" + a.value.id + ")AND(" + b.value.id + ")" &&
      r.pred == Some(AndAlso(a.value.pred.value, b.value.pred.value))
    ensures HasPredicate(a) && !HasPredicate(b) ==> r.id == a.value.id && r.pred == a.value.pred
    ensures !HasPredicate(a) && HasPredicate(b) ==> r.id == b.value.id && r.pred == b.value.pred
    ensures !HasPredicate(a) && !HasPredicate(b) ==> r.id == AllId && r.pred.None?
    ensures r.lambda.Some? <==> r.pred.Some?
  {
    Combine(a, b, "AND", (x, y) => AndAlso(x, y))
  }

  /** The model's rendering of a predicate expression. */
  function Render(p: Pred): string
  {
    match p
    case Expr(t) => t
    case OrElse(l, r) => "(" + Render(l) + " OrElse " + Render(r) + ")"
    case AndAlso(l, r) => "(" + Render(l) + " AndAlso " + Render(r) + ")"
  }

  /** `ToString()`: the identity and the predicate, each in brackets; a null
      predicate renders as the empty string. */
  function ToString(q: QueryPair): (s: string)
    ensures |s| >= |q.id| + 4
    ensures s[..|q.id| + 3] == "[" + q.id + "]["
    ensures s[|s| - 1] == ']'
    ensures q.pred.None? ==> s == "[" + q.id + "][]"
    ensures q.pred.Some? ==> s[|q.id| + 3..|s| - 1] == Render(q.pred.value)
  {
    "[" + q.id + "][" + (if q.pred.Some? then Render(q.pred.value) else "") + "]"
  }

  /** The match-everything request is no operand at all to `Or`: combining a
      request with it gives that request back, not the match-everything one. */
  lemma OrWithAllKeepsOther(b: QueryPair)
    requires b.pred.Some?
    ensures Or(Some(Default()), Some(b)) == Make(b.id, b.pred)
    ensures Or(Some(b), Some(Default())) == Make(b.id, b.pred)
  {
  }

  /** Absent operands and operands without a predicate are the same to both
      combinators. */
  lemma NullOperandIsNoPredicate(a: Option<QueryPair>, b: Option<QueryPair>)
    requires !HasPredicate(a) && !HasPredicate(b)
    ensures Or(a, b) == And(a, b) == Default()
  {
  }

  /** Combining a request with itself gives a new identity, so the pull queue
      treats the result as a different request. */
  lemma {:induction false} SelfCombinationIsNewIdentity(a: QueryPair)
    requires a.pred.Some?
    ensures Or(Some(a), Some(a)).id != a.id
    ensures And(Some(a), Some(a)).id != a.id
    ensures Or(Some(a), Some(a)).id != And(Some(a), Some(a)).id
  {
    assert |Or(Some(a), Some(a)).id| == 2 * |a.id| + 6;
    assert |And(Some(a), Some(a)).id| == 2 * |a.id| + 7;
  }

  /** The identity is textual, not semantic: `Or` is not associative on
      identities, so re-grouping the same three requests yields a request the
      queue does not recognise as a duplicate. */
  lemma OrIdentityNotAssociative()
    ensures
      var a := Make("a", Some(Expr("x")));
      var b := Make("b", Some(Expr("y")));
      var c := Make("c", Some(Expr("z")));
      Or(Some(Or(Some(a), Some(b))), Some(c)).id != Or(Some(a), Some(Or(Some(b), Some(c)))).id
  {
    var a := Make("a", Some(Expr("x")));
    var b := Make("b", Some(Expr("y")));
    var c := Make("c", Some(Expr("z")));
    var left := Or(Some(Or(Some(a), Some(b))), Some(c)).id;
    var right := Or(Some(a), Some(Or(Some(b), Some(c)))).id;
    assert left[1] == '(' && right[1] == 'a';
  }
}
