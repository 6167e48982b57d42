/**
 * Evaluation of the CEL fragment as the wasm-shim does it: errors are not absorbed, and only `?:` is lazy.
 */
module CelEval {
  import opened Util
  import opened Cel
  import opened CelText

  datatype Value =
    | Bool(b: bool)
    | Text(s: string)
    | List(items: seq<Value>)
    | Map(m: map<string, Value>)

  datatype Outcome = Error | Val(v: Value)

  type Env = map<string, Value>

  predicate AllText(vs: seq<Value>) { forall v <- vs :: v.Text? }

  function Texts(vs: seq<Value>): seq<string>
    requires AllText(vs)
  {
    seq(|vs|, i requires 0 <= i < |vs| => assert vs[i] in vs; vs[i].s)
  }

  function Relate(op: RelOp, l: Value, r: Value): Outcome {
    match op
    case Eq => Val(Bool(l == r))
    case Ne => Val(Bool(l != r))
    case In =>
      if r.Map? && l.Text? then Val(Bool(l.s in r.m))
      else if r.List? then Val(Bool(l in r.items))
      else Error
  }

  function Field(o: Outcome, f: string): Outcome {
    if o.Val? && o.v.Map? && f in o.v.m then Val(o.v.m[f]) else Error
  }

  /** Field selection, `in`, `has` and `join` as in the sections "Field Selection" and "Macros" of the CEL
      Language Definition; an error in any evaluated operand is an error of the whole. */
  function Eval(e: Expr, env: Env): Outcome {
    match e
    case Ident(n) => if n in env then Val(env[n]) else Error
    case Lit(b) => Val(Bool(b))
    case Str(s) => Val(Text(s))
    case Paren(x) => Eval(x, env)
    case Select(x, f) => Field(Eval(x, env), f)
    case Has(x, f) =>
      var o := Eval(x, env);
      if o.Val? && o.v.Map? then Val(Bool(f in o.v.m)) else Error
    case Index(x, k) =>
      var key := Eval(k, env);
      if key.Val? && key.v.Text? then Field(Eval(x, env), key.v.s) else Error
    case Call(x, m, a) =>
      var target, arg := Eval(x, env), Eval(a, env);
      if m == "join" && target.Val? && target.v.List? && AllText(target.v.items) && arg.Val? && arg.v.Text? then
        Val(Text(Join(arg.v.s, Texts(target.v.items))))
      else Error
    case Not(x) =>
      var o := Eval(x, env);
      if o.Val? && o.v.Bool? then Val(Bool(!o.v.b)) else Error
    case Rel(op, l, r) =>
      var a, b := Eval(l, env), Eval(r, env);
      if a.Val? && b.Val? then Relate(op, a.v, b.v) else Error
    case And(l, r) =>
      var a, b := Eval(l, env), Eval(r, env);
      if a.Val? && a.v.Bool? && b.Val? && b.v.Bool? then Val(Bool(a.v.b && b.v.b)) else Error
    case Or(l, r) =>
      var a, b := Eval(l, env), Eval(r, env);
      if a.Val? && a.v.Bool? && b.Val? && b.v.Bool? then Val(Bool(a.v.b || b.v.b)) else Error
    case Cond(c, t, f) =>
      var o := Eval(c, env);
      if o.Val? && o.v.Bool? then (if o.v.b then Eval(t, env) else Eval(f, env)) else Error
  }

  /** The value of a text: an error when it is not an expression at all. */
  function EvalText(text: string, env: Env): Outcome {
    match Parse(text)
    case None => Error
    case Some(e) => Eval(e, env)
  }
}
