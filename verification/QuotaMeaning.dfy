/**
 * What the predicates of platform/okf/generate_quota_enforcement.py mean on every request, alone and joined
 * by ` || ` into one expression.
 */
module QuotaMeaning {
  import opened Util
  import opened Cel
  import opened CelText
  import opened CelEval
  import opened Quota
  import opened QuotaGuard

  datatype Request = Request(headers: map<string, string>, identity: Value)

  function EnvOf(req: Request): Env {
    map["request" := Map(map["headers" := Map(map h <- req.headers :: Text(req.headers[h]))]),
        "auth" := Map(map["identity" := req.identity])]
  }

  /** The class a request selects: an absent header selects standard. */
  function Selected(req: Request): string {
    if CLASS_HEADER in req.headers then req.headers[CLASS_HEADER] else "standard"
  }

  function Truth(b: bool): Outcome { Val(Bool(b)) }

  lemma HeadersValue(req: Request)
    ensures Eval(Headers(), EnvOf(req)) == Val(Map(map h <- req.headers :: Text(req.headers[h])))
  {
    var env := EnvOf(req);
    assert Eval(Ident("request"), env) == Val(env["request"]);
  }

  lemma PresenceValue(req: Request, h: string)
    ensures Eval(PresenceExpr(h), EnvOf(req)) == Truth(h in req.headers)
    ensures Eval(HeaderExpr(h), EnvOf(req)) == if h in req.headers then Val(Text(req.headers[h])) else Error
  {
    HeadersValue(req);
    assert Eval(Str(h), EnvOf(req)) == Val(Text(h));
  }

  /** A class predicate never errs, and is true on exactly the requests that select the class. */
  lemma ClassExprMeaning(cls: string, req: Request)
    ensures Eval(ClassExpr(cls), EnvOf(req)) == Truth(Selected(req) == cls)
  {
    var env := EnvOf(req);
    PresenceValue(req, CLASS_HEADER);
    assert Eval(Str(cls), env) == Val(Text(cls));
    assert Eval(Paren(PresenceExpr(CLASS_HEADER)), env) == Truth(CLASS_HEADER in req.headers);
    var test := Rel(Eq, HeaderExpr(CLASS_HEADER), Str(cls));
    assert CLASS_HEADER in req.headers ==> Eval(test, env) == Truth(req.headers[CLASS_HEADER] == cls);
    assert Eval(Lit(cls == "standard"), env) == Truth(cls == "standard");
    assert Eval(ClassExpr(cls), env) == Eval(BareClassExpr(cls), env);
  }

  /** The generated text of a class predicate, read and evaluated as CEL. */
  lemma ClassPredicateMeaning(cls: string, req: Request)
    requires Plain(cls)
    ensures EvalText(ClassPredicate(cls), EnvOf(req)) == Truth(Selected(req) == cls)
  {
    ClassPredicateReadsBackIffPlain(cls);
    ClassExprMeaning(cls, req);
  }

  lemma PresenceMeaning(d: Dim, req: Request)
    ensures EvalText(PresenceText(DimHeader(d)), EnvOf(req)) == Truth(DimHeader(d) in req.headers)
    ensures EvalText(HeaderText(DimHeader(d)), EnvOf(req))
         == if DimHeader(d) in req.headers then Val(Text(req.headers[DimHeader(d)])) else Error
  {
    var h := DimHeader(d);
    HeaderForm(h);
    PresenceShow(h);
    HeaderShow(h);
    TextRoundTrip(PresenceExpr(h));
    TextRoundTrip(HeaderExpr(h));
    PresenceValue(req, h);
  }

  /** The form the generator rejects, `!(presence) || header == class`: under strict evaluation it errs on
      every request without the header. */
  lemma DisjunctionGuardErrs(cls: string, req: Request)
    ensures (Eval(Or(Not(Paren(PresenceExpr(CLASS_HEADER))), Rel(Eq, HeaderExpr(CLASS_HEADER), Str(cls))), EnvOf(req))
             == Error) <==> CLASS_HEADER !in req.headers
  {
    PresenceValue(req, CLASS_HEADER);
    var env := EnvOf(req);
    assert Eval(Str(cls), env) == Val(Text(cls));
    assert Eval(Paren(PresenceExpr(CLASS_HEADER)), env) == Truth(CLASS_HEADER in req.headers);
    assert Eval(Not(Paren(PresenceExpr(CLASS_HEADER))), env) == Truth(CLASS_HEADER !in req.headers);
  }

  // ---------------------------------------------------------------- concatenation with ` || `

  /** Left-associated disjunction, as the grammar builds it. */
  function OrChain(es: seq<Expr>): Expr
    requires es != []
  {
    if |es| == 1 then es[0] else Or(OrChain(es[..|es| - 1]), es[|es| - 1])
  }

  function Shows(es: seq<Expr>): seq<string> { seq(|es|, i requires 0 <= i < |es| => Show(es[i])) }

  /** An expression that keeps its shape between `||`s. */
  predicate Term(e: Expr) { WellFormed(e) && Showable(e) && Level(e) >= 2 }

  lemma {:induction false} OrChainForm(es: seq<Expr>)
    requires es != [] && forall i :: 0 <= i < |es| ==> Term(es[i])
    ensures WellFormed(OrChain(es)) && Showable(OrChain(es)) && Level(OrChain(es)) >= 1
    ensures Show(OrChain(es)) == Join(" || ", Shows(es))
  {
    if |es| > 1 {
      var init, last := es[..|es| - 1], es[|es| - 1];
      OrChainForm(init);
      assert Shows(es) == Shows(init) + [Show(last)];
      JoinSnoc(" || ", Shows(init), Show(last));
    }
  }

  /** Concatenation is safe: terms joined by ` || ` are read back as exactly their disjunction. */
  lemma ConcatenationReadsBack(es: seq<Expr>)
    requires es != [] && forall i :: 0 <= i < |es| ==> Term(es[i])
    ensures Parse(Join(" || ", Shows(es))) == Some(OrChain(es))
  {
    OrChainForm(es);
    TextRoundTrip(OrChain(es));
  }

  lemma {:induction false} OrChainValue(es: seq<Expr>, bs: seq<bool>, env: Env)
    requires es != [] && |bs| == |es|
    requires forall i :: 0 <= i < |es| ==> Eval(es[i], env) == Truth(bs[i])
    ensures Eval(OrChain(es), env) == Truth(true in bs)
  {
    if |es| > 1 {
      var n := |es| - 1;
      OrChainValue(es[..n], bs[..n], env);
      assert bs == bs[..n] + [bs[n]];
    }
  }

  lemma ClassTerm(cls: string, req: Request)
    requires Plain(cls)
    ensures Term(ClassExpr(cls)) && Show(ClassExpr(cls)) == ClassPredicate(cls)
    ensures Eval(ClassExpr(cls), EnvOf(req)) == Truth(Selected(req) == cls)
  {
    ClassForm(cls);
    ClassShow(cls);
    ClassExprMeaning(cls, req);
  }

  /** The texts of any list of class predicates, joined, evaluate without error on every request to
      whether one of the classes is the selected one. */
  lemma ClassConcatenationMeaning(classes: seq<string>, req: Request)
    requires classes != [] && forall i :: 0 <= i < |classes| ==> Plain(classes[i])
    ensures EvalText(Join(" || ", seq(|classes|, i requires 0 <= i < |classes| => ClassPredicate(classes[i]))),
                     EnvOf(req))
         == Truth(Selected(req) in classes)
  {
    var es := seq(|classes|, i requires 0 <= i < |classes| => ClassExpr(classes[i]));
    var bs := seq(|classes|, i requires 0 <= i < |classes| => Selected(req) == classes[i]);
    forall i | 0 <= i < |es|
      ensures Term(es[i]) && Show(es[i]) == ClassPredicate(classes[i]) && Eval(es[i], EnvOf(req)) == Truth(bs[i])
    {
      ClassTerm(classes[i], req);
    }
    ConcatenationReadsBack(es);
    assert Shows(es) == seq(|classes|, i requires 0 <= i < |classes| => ClassPredicate(classes[i]));
    OrChainValue(es, bs, EnvOf(req));
    if Selected(req) in classes {
      var i :| 0 <= i < |classes| && classes[i] == Selected(req);
      assert bs[i];
    }
  }

  /** Without its outer parentheses a conditional does not survive the join: everything after the first
      `:` becomes its last operand. */
  lemma BareJoinIsMangled(c1: Expr, t1: Expr, f1: Expr, c2: Expr, t2: Expr, f2: Expr)
    requires var a, b := Cond(c1, t1, f1), Cond(c2, t2, f2);
             WellFormed(a) && Showable(a) && WellFormed(b) && Showable(b)
    requires Level(f1) >= 1 && Level(c2) >= 2
    ensures Parse(Show(Cond(c1, t1, f1)) + " || " + Show(Cond(c2, t2, f2)))
         == Some(Cond(c1, t1, Cond(Or(f1, c2), t2, f2)))
  {
    var mangled := Cond(c1, t1, Cond(Or(f1, c2), t2, f2));
    assert WellFormed(Or(f1, c2)) && Showable(Or(f1, c2));
    assert WellFormed(Cond(Or(f1, c2), t2, f2)) && Showable(Cond(Or(f1, c2), t2, f2));
    TextRoundTrip(mangled);
    var tail := " ? " + (Show(t2) + (" : " + Show(f2)));
    assert Show(Cond(Or(f1, c2), t2, f2)) == (Show(f1) + (" || " + Show(c2))) + tail;
    MangledShape(Show(c1), Show(t1), Show(f1), Show(c2), tail);
  }

  lemma MangledShape(c1: string, t1: string, f1: string, c2: string, tail: string)
    ensures (c1 + (" ? " + (t1 + (" : " + f1)))) + " || " + (c2 + tail)
         == c1 + (" ? " + (t1 + (" : " + ((f1 + (" || " + c2)) + tail))))
  {
    var last := " || " + (c2 + tail);
    assert (f1 + (" || " + c2)) + tail == f1 + last by {
      Assoc(f1, " || " + c2, tail);
      Assoc(" || ", c2, tail);
    }
    Assoc(c1 + (" ? " + (t1 + (" : " + f1))), " || ", c2 + tail);
    Assoc(c1, " ? " + (t1 + (" : " + f1)), last);
    Assoc(" ? ", t1 + (" : " + f1), last);
    Assoc(t1, " : " + f1, last);
    Assoc(" : ", f1, last);
  }

  /** So two bare class predicates, joined, are false on every request that names the second class. */
  lemma BareJoinLosesTheSecondClass(cls1: string, cls2: string, req: Request)
    requires Plain(cls1) && Plain(cls2) && cls1 != cls2
    requires CLASS_HEADER in req.headers && req.headers[CLASS_HEADER] == cls2
    ensures EvalText(BareClassPredicate(cls1) + " || " + BareClassPredicate(cls2), EnvOf(req)) == Truth(false)
  {
    var env := EnvOf(req);
    BareForm(cls1);
    BareForm(cls2);
    var a, b := BareClassExpr(cls1), BareClassExpr(cls2);
    BareJoinIsMangled(a.c, a.t, a.f, b.c, b.t, b.f);
    FirstClassRefuses(cls1, cls2, req);
    assert Eval(Cond(a.c, a.t, Cond(Or(a.f, b.c), b.t, b.f)), env) == Eval(a.t, env);
  }

  lemma FirstClassRefuses(cls1: string, cls2: string, req: Request)
    requires cls1 != cls2 && CLASS_HEADER in req.headers && req.headers[CLASS_HEADER] == cls2
    ensures Eval(BareClassExpr(cls1).c, EnvOf(req)) == Truth(true)
    ensures Eval(BareClassExpr(cls1).t, EnvOf(req)) == Truth(false)
  {
    PresenceValue(req, CLASS_HEADER);
    assert Eval(Str(cls1), EnvOf(req)) == Val(Text(cls1));
  }

  lemma BareForm(cls: string)
    requires Plain(cls)
    ensures WellFormed(BareClassExpr(cls)) && Showable(BareClassExpr(cls))
    ensures Show(BareClassExpr(cls)) == BareClassPredicate(cls)
    ensures Level(BareClassExpr(cls).f) >= 1 && Level(BareClassExpr(cls).c) >= 2
  {
    BareClassShow(cls);
    ClassForm(cls);
  }

  /** With them, the same join is true on that request. */
  lemma JoinKeepsTheSecondClass(cls1: string, cls2: string, req: Request)
    requires Plain(cls1) && Plain(cls2)
    requires CLASS_HEADER in req.headers && req.headers[CLASS_HEADER] == cls2
    ensures EvalText(ClassPredicate(cls1) + " || " + ClassPredicate(cls2), EnvOf(req)) == Truth(true)
  {
    var classes := [cls1, cls2];
    ClassConcatenationMeaning(classes, req);
    var texts := seq(|classes|, i requires 0 <= i < |classes| => ClassPredicate(classes[i]));
    assert texts == [ClassPredicate(cls1), ClassPredicate(cls2)];
    assert texts[1..] == [ClassPredicate(cls2)];
    assert Join(" || ", texts) == ClassPredicate(cls1) + " || " + ClassPredicate(cls2);
    assert cls2 == classes[1];
  }
}
