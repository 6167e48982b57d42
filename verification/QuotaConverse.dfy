/**
 * platform/okf/generate_quota_enforcement.py: a printed predicate means what it should only if the name in it can
 * stand between single quotes. No other name is ever read back from the text, and an expression that does not
 * mention a name cannot tell it from any other.
 */
module QuotaConverse {
  import opened Util
  import opened Cel
  import opened CelText
  import opened CelEval
  import opened Quota
  import opened QuotaGuard
  import opened QuotaMeaning
  import opened QuotaScalars
  import opened QuotaTemplate
  import opened QuotaLimits

  // ---------------------------------------------------------------- how long a literal can be

  /** The last `n` characters hold no quote. */
  predicate QuietEnd(s: string, n: nat) { n <= |s| && forall i :: |s| - n <= i < |s| ==> !Quote(s[i]) }

  function Least(a: nat, b: nat): nat { if a <= b then a else b }

  lemma QuietDrop(s: string, n: nat, k: nat)
    requires QuietEnd(s, n) && k <= |s|
    ensures QuietEnd(s[k..], Least(n, |s| - k))
  {
  }

  /** A literal cut from `s` with `marks` quotes of its own ends before the last `n` characters. */
  predicate Fits(r: Scan, s: string, n: nat, marks: nat) {
    r.Literal? ==> |r.rest| >= n && |r.value| + marks + |r.rest| <= |s| && r.rest == s[|s| - |r.rest|..]
  }

  lemma {:induction false} SingleFits(q: char, s: string, n: nat)
    requires Quote(q) && QuietEnd(s, n)
    ensures Fits(Single(q, s), s, n, 1)
    decreases |s|, 2
  {
    if s != "" && !Newline(s[0]) && s[0] != q {
      if s[0] == '\\' {
        SingleAfterEscape(q, s, n);
      } else {
        SingleStep(q, s, n, 1);
      }
    }
  }

  lemma {:induction false} SingleAfterEscape(q: char, s: string, n: nat)
    requires Quote(q) && QuietEnd(s, n) && s != "" && s[0] == '\\'
    ensures Fits(Single(q, s), s, n, 1)
    decreases |s|, 1
  {
    if Escape(s).Some? { SingleStep(q, s, n, Escape(s).value.1); }
  }

  lemma {:induction false} SingleStep(q: char, s: string, n: nat, k: nat)
    requires Quote(q) && QuietEnd(s, n) && 0 < k <= |s|
    ensures Fits(Single(q, s[k..]), s[k..], Least(n, |s| - k), 1)
    ensures Single(q, s[k..]).Literal?
            ==> |Single(q, s[k..]).rest| >= n && Single(q, s[k..]).rest == s[|s| - |Single(q, s[k..]).rest|..]
    decreases |s|, 0
  {
    QuietDrop(s, n, k);
    SingleFits(q, s[k..], Least(n, |s| - k));
  }

  lemma {:induction false} TripleFits(q: char, s: string, n: nat)
    requires Quote(q) && QuietEnd(s, n)
    ensures Fits(Triple(q, s), s, n, 3)
    decreases |s|, 2
  {
    if s == "" {
    } else if |s| >= 3 && s[0] == q && s[1] == q && s[2] == q {
      assert n <= |s| - 3;
      assert Triple(q, s) == Literal("", s[3..]);
    } else if s[0] == '\\' {
      TripleAfterEscape(q, s, n);
    } else {
      TripleStep(q, s, n, 1);
      assert Triple(q, s) == Cons(s[0], Triple(q, s[1..]));
    }
  }

  lemma {:induction false} TripleAfterEscape(q: char, s: string, n: nat)
    requires Quote(q) && QuietEnd(s, n) && s != "" && s[0] == '\\'
    ensures Fits(Triple(q, s), s, n, 3)
    decreases |s|, 1
  {
    if Escape(s).Some? { TripleStep(q, s, n, Escape(s).value.1); }
  }

  lemma {:induction false} TripleStep(q: char, s: string, n: nat, k: nat)
    requires Quote(q) && QuietEnd(s, n) && 0 < k <= |s|
    ensures Fits(Triple(q, s[k..]), s[k..], Least(n, |s| - k), 3)
    ensures Triple(q, s[k..]).Literal?
            ==> |Triple(q, s[k..]).rest| >= n && Triple(q, s[k..]).rest == s[|s| - |Triple(q, s[k..]).rest|..]
    decreases |s|, 0
  {
    QuietDrop(s, n, k);
    TripleFits(q, s[k..], Least(n, |s| - k));
  }

  lemma ScanFits(s: string, n: nat)
    requires s != "" && Quote(s[0]) && QuietEnd(s, n)
    ensures Fits(ScanLiteral(s), s, n, 2)
  {
    if |s| >= 3 && s[1] == s[0] && s[2] == s[0] {
      assert |s| - n > 2;
      QuietDrop(s, n, 3);
      TripleFits(s[0], s[3..], n);
    } else {
      QuietDrop(s, n, 1);
      SingleFits(s[0], s[1..], n);
    }
  }

  /** Every literal of the text fits between two quotes in front of its last `n` characters. */
  ghost predicate Short(ts: seq<Token>, room: int) { forall v :: TStr(v) in ts ==> |v| + 2 <= room }

  ghost predicate ShortLex(s: string, n: nat) { Lex(s).Some? ==> Short(Lex(s).value, |s| - n) }

  lemma {:induction false} LiteralsAreShort(s: string, n: nat)
    requires QuietEnd(s, n)
    ensures ShortLex(s, n)
    decreases |s|, 2
  {
    if s == "" {
    } else if Blank(s[0]) {
      ShortAfter(s, n, 1);
    } else if IdentStart(s[0]) {
      WordIsShort(s, n);
    } else if Quote(s[0]) {
      LiteralIsShort(s, n);
    } else {
      SymbolIsShort(s, n);
    }
  }

  lemma {:induction false} WordIsShort(s: string, n: nat)
    requires QuietEnd(s, n) && s != "" && IdentStart(s[0])
    ensures ShortLex(s, n)
    decreases |s|, 1
  {
    var k := IdentLen(s);
    if !(k < |s| && Quote(s[k])) {
      ShortAfter(s, n, k);
      assert forall v :: TStr(v) != Word(s[..k]);
    }
  }

  lemma {:induction false} SymbolIsShort(s: string, n: nat)
    requires QuietEnd(s, n) && s != "" && !Blank(s[0]) && !IdentStart(s[0]) && !Quote(s[0])
    ensures ShortLex(s, n)
    decreases |s|, 1
  {
    if |s| >= 2 && DoubleOperator(s[0], s[1]).Some? {
      ShortAfter(s, n, 2);
      assert forall v :: TStr(v) != DoubleOperator(s[0], s[1]).value;
    } else {
      ShortAfter(s, n, 1);
      assert Operator(s[0]).Some? ==> forall v :: TStr(v) != Operator(s[0]).value;
    }
  }

  lemma {:induction false} LiteralIsShort(s: string, n: nat)
    requires QuietEnd(s, n) && s != "" && Quote(s[0])
    ensures ShortLex(s, n)
    decreases |s|, 1
  {
    ScanFits(s, n);
    var r := ScanLiteral(s);
    if r.Literal? {
      ShortAfter(s, n, |s| - |r.rest|);
      FirstLiteral(s, r);
    }
  }

  lemma {:induction false} ShortAfter(s: string, n: nat, k: nat)
    requires QuietEnd(s, n) && 0 < k <= |s|
    ensures Lex(s[k..]).Some?
            ==> Short(Lex(s[k..]).value, |s| - n) && Short(Lex(s[k..]).value, |s| - k - Least(n, |s| - k))
    decreases |s|, 0
  {
    QuietDrop(s, n, k);
    LiteralsAreShort(s[k..], Least(n, |s| - k));
  }

  /** Put between single quotes, a name that is not plain is none of the literals read from there on. */
  lemma NameIsNotRead(name: string, tail: string)
    requires !Plain(name) && QuietEnd(tail, |tail|)
    ensures Lex(Quoted(name) + tail).Some? ==> TStr(name) !in Lex(Quoted(name) + tail).value
  {
    var s := Quoted(name) + tail;
    assert QuietEnd(s, |tail|) by { assert forall i | 0 <= i < |tail| :: s[|name| + 2 + i] == tail[i]; }
    assert NoQuote(tail);
    QuotedReadsBackIffPlain(name, tail);
    ScanFits(s, |tail|);
    var r := ScanLiteral(s);
    if r.Literal? {
      assert r == Literal(r.value, r.rest) && r.value != name;
      RestIsShorter(s, |tail|, r, name);
      FirstLiteral(s, r);
    }
  }

  lemma RestIsShorter(s: string, n: nat, r: Scan, name: string)
    requires QuietEnd(s, n) && r.Literal? && Fits(r, s, n, 2) && |s| == |name| + 2 + n
    ensures Lex(r.rest).Some? ==> TStr(name) !in Lex(r.rest).value
  {
    var k := |s| - |r.rest|;
    QuietDrop(s, n, k);
    LiteralsAreShort(s[k..], n);
  }

  lemma FirstLiteral(s: string, r: Scan)
    requires s != "" && Quote(s[0]) && ScanLiteral(s) == r && r.Literal?
    ensures Lex(s) == Prepend([TStr(r.value)], Lex(r.rest))
  {
  }

  // ---------------------------------------------------------------- literals of a tree

  predicate Mentions(e: Expr, s: string) {
    match e
    case Ident(_) => false
    case Lit(_) => false
    case Str(v) => v == s
    case Has(x, _) => Mentions(x, s)
    case Paren(x) => Mentions(x, s)
    case Select(x, _) => Mentions(x, s)
    case Index(x, k) => Mentions(x, s) || Mentions(k, s)
    case Call(x, _, a) => Mentions(x, s) || Mentions(a, s)
    case Not(x) => Mentions(x, s)
    case Rel(_, l, r) => Mentions(l, s) || Mentions(r, s)
    case And(l, r) => Mentions(l, s) || Mentions(r, s)
    case Or(l, r) => Mentions(l, s) || Mentions(r, s)
    case Cond(c, t, f) => Mentions(c, s) || Mentions(t, s) || Mentions(f, s)
  }

  lemma {:induction e} MentionsInToks(e: Expr, s: string)
    requires Mentions(e, s)
    ensures TStr(s) in Toks(e)
  {
  }

  function Literals(e: Expr): seq<string> {
    match e
    case Ident(_) => []
    case Lit(_) => []
    case Str(v) => [v]
    case Has(x, _) => Literals(x)
    case Paren(x) => Literals(x)
    case Select(x, _) => Literals(x)
    case Index(x, k) => Literals(x) + Literals(k)
    case Call(x, _, a) => Literals(x) + Literals(a)
    case Not(x) => Literals(x)
    case Rel(_, l, r) => Literals(l) + Literals(r)
    case And(l, r) => Literals(l) + Literals(r)
    case Or(l, r) => Literals(l) + Literals(r)
    case Cond(c, t, f) => Literals(c) + Literals(t) + Literals(f)
  }

  lemma {:induction e} MentionsIsLiteral(e: Expr, s: string)
    requires Mentions(e, s)
    ensures s in Literals(e)
  {
  }

  // ---------------------------------------------------------------- evaluation with one unknown text

  /** A value of an environment in which one text is unknown. */
  datatype Sym = SBool(b: bool) | SLit(s: string) | SUnknown | SRequest | SHeaders | SAuth | SIdentity

  datatype SymOutcome = SError | SVal(v: Sym)

  /** The request whose class header and whose user id are both `x`. */
  function Ask(x: string): Request { Request(map[CLASS_HEADER := x], Map(map["userid" := Text(x)])) }

  function HeaderMap(x: string): Value { Map(map[CLASS_HEADER := Text(x)]) }

  function Concrete(s: Sym, x: string): Value {
    match s
    case SBool(b) => Bool(b)
    case SLit(v) => Text(v)
    case SUnknown => Text(x)
    case SRequest => Map(map["headers" := HeaderMap(x)])
    case SHeaders => HeaderMap(x)
    case SAuth => Map(map["identity" := Map(map["userid" := Text(x)])])
    case SIdentity => Map(map["userid" := Text(x)])
  }

  function ConcreteOutcome(o: SymOutcome, x: string): Outcome {
    match o case SError => Error case SVal(v) => Val(Concrete(v, x))
  }

  /** The one key a map value has, and what is under it. */
  function SymKey(s: Sym): Option<(string, Sym)> {
    match s
    case SRequest => Some(("headers", SHeaders))
    case SHeaders => Some((CLASS_HEADER, SUnknown))
    case SAuth => Some(("identity", SIdentity))
    case SIdentity => Some(("userid", SUnknown))
    case _ => None
  }

  function SymField(o: SymOutcome, f: string): SymOutcome {
    if o.SVal? && SymKey(o.v).Some? && SymKey(o.v).value.0 == f then SVal(SymKey(o.v).value.1) else SError
  }

  function SymRelate(op: RelOp, l: Sym, r: Sym): SymOutcome {
    match op
    case Eq => SVal(SBool(l == r))
    case Ne => SVal(SBool(l != r))
    case In =>
      if SymKey(r).Some? && (l.SLit? || l.SUnknown?) then SVal(SBool(l.SLit? && l.s == SymKey(r).value.0))
      else SError
  }

  function SymBool(o: SymOutcome): Option<bool> { if o.SVal? && o.v.SBool? then Some(o.v.b) else None }

  function SymEval(e: Expr): SymOutcome {
    match e
    case Ident(n) => if n == "request" then SVal(SRequest) else if n == "auth" then SVal(SAuth) else SError
    case Lit(b) => SVal(SBool(b))
    case Str(s) => SVal(SLit(s))
    case Paren(x) => SymEval(x)
    case Select(x, f) => SymField(SymEval(x), f)
    case Has(x, f) =>
      var o := SymEval(x);
      if o.SVal? && SymKey(o.v).Some? then SVal(SBool(SymKey(o.v).value.0 == f)) else SError
    case Index(x, k) =>
      var key := SymEval(k);
      if key.SVal? && key.v.SLit? then SymField(SymEval(x), key.v.s) else SError
    case Call(_, _, _) => SError
    case Not(x) =>
      var b := SymBool(SymEval(x));
      if b.Some? then SVal(SBool(!b.value)) else SError
    case Rel(op, l, r) =>
      var a, b := SymEval(l), SymEval(r);
      if a.SVal? && b.SVal? then SymRelate(op, a.v, b.v) else SError
    case And(l, r) =>
      var a, b := SymBool(SymEval(l)), SymBool(SymEval(r));
      if a.Some? && b.Some? then SVal(SBool(a.value && b.value)) else SError
    case Or(l, r) =>
      var a, b := SymBool(SymEval(l)), SymBool(SymEval(r));
      if a.Some? && b.Some? then SVal(SBool(a.value || b.value)) else SError
    case Cond(c, t, f) =>
      var b := SymBool(SymEval(c));
      if b.Some? then (if b.value then SymEval(t) else SymEval(f)) else SError
  }

  /** A text that is no key of any map in sight. */
  predicate NoKey(x: string) { x != "headers" && x != CLASS_HEADER && x != "identity" && x != "userid" }

  /** Every literal value of a symbolic outcome is a literal of the tree. */
  lemma {:induction e} SymLiterals(e: Expr)
    requires SymEval(e).SVal? && SymEval(e).v.SLit?
    ensures Mentions(e, SymEval(e).v.s)
  {
  }

  lemma ConcreteKey(s: Sym, x: string, f: string)
    ensures Concrete(s, x).Map? <==> SymKey(s).Some?
    ensures Concrete(s, x).Map? ==> (f in Concrete(s, x).m <==> f == SymKey(s).value.0)
    ensures Concrete(s, x).Map? && f in Concrete(s, x).m ==> Concrete(s, x).m[f] == Concrete(SymKey(s).value.1, x)
  {
  }

  lemma ConcreteEqual(a: Sym, b: Sym, x: string)
    requires a.SLit? ==> a.s != x
    requires b.SLit? ==> b.s != x
    ensures Concrete(a, x) == Concrete(b, x) <==> a == b
  {
    var h, i := HeaderMap(x), Map(map["userid" := Text(x)]);
    assert CLASS_HEADER in h.m && "userid" in i.m && CLASS_HEADER !in i.m;
    assert "headers" in Concrete(SRequest, x).m && "identity" in Concrete(SAuth, x).m;
    assert "headers" !in h.m && "headers" !in i.m && "headers" !in Concrete(SAuth, x).m;
    assert "identity" !in h.m && "identity" !in i.m;
  }

  lemma ConcreteField(o: SymOutcome, x: string, f: string)
    ensures Field(ConcreteOutcome(o, x), f) == ConcreteOutcome(SymField(o, f), x)
  {
    if o.SVal? { ConcreteKey(o.v, x, f); }
  }

  lemma ConcreteRelate(op: RelOp, l: Sym, r: Sym, x: string)
    requires NoKey(x) && (l.SLit? ==> l.s != x) && (r.SLit? ==> r.s != x)
    ensures Relate(op, Concrete(l, x), Concrete(r, x)) == ConcreteOutcome(SymRelate(op, l, r), x)
  {
    match op
    case In => if l.SLit? { ConcreteKey(r, x, l.s); } else { ConcreteKey(r, x, x); }
    case _ => ConcreteEqual(l, r, x);
  }

  /** An expression that does not mention a text does not tell it from any other such text. */
  lemma {:induction false} Blind(e: Expr, x: string)
    requires NoKey(x) && !Mentions(e, x)
    ensures Eval(e, EnvOf(Ask(x))) == ConcreteOutcome(SymEval(e), x)
    decreases e, 1
  {
    match e
    case Ident(_) => AskEnv(x);
    case Lit(_) =>
    case Str(_) =>
    case Has(y, f) =>
      Blind(y, x);
      if SymEval(y).SVal? { ConcreteKey(SymEval(y).v, x, f); }
    case Paren(y) => Blind(y, x);
    case Select(y, f) =>
      Blind(y, x);
      ConcreteField(SymEval(y), x, f);
    case Index(y, k) => BlindIndex(e, x);
    case Call(y, _, a) =>
      Blind(y, x);
      Blind(a, x);
    case Not(y) => Blind(y, x);
    case Rel(_, _, _) => BlindRel(e, x);
    case And(_, _) => BlindBoth(e, x);
    case Or(_, _) => BlindBoth(e, x);
    case Cond(_, _, _) => BlindChoice(e, x);
  }

  lemma {:induction false} BlindBoth(e: Expr, x: string)
    requires NoKey(x) && !Mentions(e, x) && (e.And? || e.Or?)
    ensures Eval(e, EnvOf(Ask(x))) == ConcreteOutcome(SymEval(e), x)
    decreases e, 0
  {
    Blind(e.l, x);
    Blind(e.r, x);
  }

  lemma {:induction false} BlindChoice(e: Expr, x: string)
    requires NoKey(x) && !Mentions(e, x) && e.Cond?
    ensures Eval(e, EnvOf(Ask(x))) == ConcreteOutcome(SymEval(e), x)
    decreases e, 0
  {
    Blind(e.c, x);
    Blind(e.t, x);
    Blind(e.f, x);
  }

  lemma {:induction false} BlindIndex(e: Expr, x: string)
    requires NoKey(x) && !Mentions(e, x) && e.Index?
    ensures Eval(e, EnvOf(Ask(x))) == ConcreteOutcome(SymEval(e), x)
    decreases e, 0
  {
    Blind(e.e, x);
    Blind(e.key, x);
    var o, k := SymEval(e.e), SymEval(e.key);
    if k.SVal? && k.v.SLit? { ConcreteField(o, x, k.v.s); }
    if k.SVal? && k.v.SUnknown? { ConcreteField(o, x, x); UnknownIsNoKey(o, x); }
  }

  lemma UnknownIsNoKey(o: SymOutcome, x: string)
    requires NoKey(x)
    ensures SymField(o, x) == SError
  {
  }

  lemma {:induction false} BlindRel(e: Expr, x: string)
    requires NoKey(x) && !Mentions(e, x) && e.Rel?
    ensures Eval(e, EnvOf(Ask(x))) == ConcreteOutcome(SymEval(e), x)
    decreases e, 0
  {
    Blind(e.l, x);
    Blind(e.r, x);
    var l, r := SymEval(e.l), SymEval(e.r);
    if l.SVal? && l.v.SLit? { SymLiterals(e.l); }
    if r.SVal? && r.v.SLit? { SymLiterals(e.r); }
    if l.SVal? && r.SVal? { ConcreteRelate(e.op, l.v, r.v, x); }
  }

  lemma AskEnv(x: string)
    ensures EnvOf(Ask(x)) == map["request" := Concrete(SRequest, x), "auth" := Concrete(SAuth, x)]
  {
    assert (map h <- Ask(x).headers :: Text(Ask(x).headers[h])) == map[CLASS_HEADER := Text(x)];
  }

  // ---------------------------------------------------------------- a name that is not plain

  /** A text none of whose literals is `name` cannot be true when the header and the user id are `name`, and
      false when they are any other text. */
  lemma CannotTell(text: string, name: string) returns (other: string)
    requires NoKey(name) && (Lex(text).Some? ==> TStr(name) !in Lex(text).value)
    ensures other != name && other != "standard"
    ensures EvalText(text, EnvOf(Ask(name))) != Truth(true) || EvalText(text, EnvOf(Ask(other))) != Truth(false)
  {
    match Parse(text)
    case None => other := Unused(name, []);
    case Some(e) =>
      ParseIsInverseOfToks(Lex(text).value, e);
      if Mentions(e, name) { MentionsInToks(e, name); }
      other := Unused(name, Literals(e));
      if Mentions(e, other) { MentionsIsLiteral(e, other); }
      Blind(e, name);
      Blind(e, other);
  }

  /** A text that is neither a key, nor a class the generator treats apart, nor one of the given texts. */
  lemma Unused(name: string, literals: seq<string>) returns (other: string)
    ensures other != name && other != "standard" && NoKey(other) && other !in literals
  {
    var fixed := [name, "standard", "headers", CLASS_HEADER, "identity", "userid"];
    other := LongerThan(fixed + literals);
    assert forall i | 0 <= i < |fixed| :: (fixed + literals)[i] == fixed[i];
    assert forall i | 0 <= i < |fixed| :: fixed[i] in fixed + literals;
    assert fixed[0] != other && fixed[1] != other && fixed[2] != other && fixed[3] != other && fixed[4] != other
        && fixed[5] != other;
    assert forall s | s in literals :: s in fixed + literals;
  }

  lemma HeaderTokens(name: string)
    requires !Plain(name)
    ensures TStr(name) !in BeforeToks()
  {
    assert Plain(CLASS_HEADER);
    var p, h := Paren(PresenceExpr(CLASS_HEADER)), HeaderExpr(CLASS_HEADER);
    assert Toks(PresenceExpr(CLASS_HEADER)) == [TStr(CLASS_HEADER)] + ([TRel(In)] + Toks(Headers()));
    assert Toks(Headers()) == [TIdent("request")] + [TDot, TIdent("headers")];
  }

  lemma PlainKeys()
    ensures Plain("headers") && Plain(CLASS_HEADER) && Plain("identity") && Plain("userid")
  {
  }

  /** A class predicate selects its class on every request if and only if the class name can stand between
      single quotes: for any other name some request errs or is told wrongly. */
  lemma ClassMeaningIffPlain(cls: string)
    ensures (forall req :: EvalText(ClassPredicate(cls), EnvOf(req)) == Truth(Selected(req) == cls)) <==> Plain(cls)
  {
    if Plain(cls) {
      forall req ensures EvalText(ClassPredicate(cls), EnvOf(req)) == Truth(Selected(req) == cls) {
        ClassPredicateMeaning(cls, req);
      }
    } else {
      PlainKeys();
      ClassSplit(cls);
      BeforeReads(cls, Quoted(cls) + After(cls));
      HeaderTokens(cls);
      NameIsNotRead(cls, After(cls));
      var other := CannotTell(ClassPredicate(cls), cls);
      assert Selected(Ask(cls)) == cls && Selected(Ask(other)) == other;
    }
  }

  lemma JudgedText(s: Scalar, text: string, req: Request, b: bool)
    requires Delivered(s) == Some(text)
    ensures Judge(req)(s) == Some(b) <==> EvalText(text, EnvOf(req)) == Truth(b)
  {
  }

  /** A class name is writable if and only if, through template, YAML and CEL, its predicate selects it on every
      request, and the keys made of it arrive. */
  lemma WritableIff(cls: string)
    ensures Writable(cls)
       <==> ((forall req :: Judge(req)(Written(Repr(ClassPredicate(cls)))) == Some(Selected(req) == cls))
             && forall d: Dim :: KeyArrives(EntryKey(cls, d)))
  {
    var s := Written(Repr(ClassPredicate(cls)));
    ClassArrivesIff(cls);
    ClassMeaningIffPlain(cls);
    forall d: Dim ensures KeyArrives(EntryKey(cls, d)) <==> !HasAction(cls) && KeySafe(EntryKey(cls, d)) {
      KeyArrivesIff(cls, d);
    }
    if Delivered(s).Some? {
      forall req
        ensures Judge(req)(s) == Some(Selected(req) == cls)
           <==> EvalText(ClassPredicate(cls), EnvOf(req)) == Truth(Selected(req) == cls)
      {
        JudgedText(s, ClassPredicate(cls), req, Selected(req) == cls);
      }
    } else {
      assert Judge(Ask(cls))(s) == None;
    }
  }

  /** The gateway guard in front of the username, and its tokens. */
  function GatewayOpening(): string { Opening(Has(IdentityPath([]), "userid"), IdentityPath(["userid"])) }

  lemma GatewaySplit(username: string)
    ensures GatewayText(username) == GatewayOpening() + (Quoted(username) + " : false)")
  {
    var p := IdentityPath(["userid"]);
    assert ["userid"][..0] == [] && ["userid"][..|["userid"]|] == ["userid"];
    assert Guard(["userid"], 1, username) == Rel(Eq, p, Str(username));
    assert Guard(["userid"], 0, username)
           == Paren(Cond(Has(IdentityPath([]), "userid"), Rel(Eq, p, Str(username)), Lit(false)));
    var c, l := Show(Has(IdentityPath([]), "userid")), Show(p);
    assert Show(Rel(Eq, p, Str(username))) == l + (" == " + Quoted(username));
    assert Show(Cond(Has(IdentityPath([]), "userid"), Rel(Eq, p, Str(username)), Lit(false)))
        == c + (" ? " + ((l + (" == " + Quoted(username))) + (" : " + "false")));
    assert GatewayText(username)
        == "(" + ((c + (" ? " + ((l + (" == " + Quoted(username))) + (" : " + "false")))) + ")");
    SplitOpening(c, l, Quoted(username));
  }

  lemma SplitOpening(c: string, l: string, q: string)
    ensures "(" + ((c + (" ? " + ((l + (" == " + q)) + (" : " + "false")))) + ")")
         == ("(" + (c + (" ? " + (l + " == ")))) + (q + " : false)")
  {
    var mid := q + (" : " + "false");
    assert " : " + "false" == " : false" && (" : false") + ")" == " : false)";
    assert (l + (" == " + q)) + " : false" == l + (" == " + (q + " : false"));
    assert "(" + ((c + (" ? " + (l + (" == " + (q + " : false"))))) + ")")
        == ("(" + (c + (" ? " + (l + " == ")))) + (q + " : false)");
  }

  lemma GatewayTokens(name: string)
    ensures TStr(name) !in OpeningToks(Has(IdentityPath([]), "userid"), IdentityPath(["userid"]))
  {
    assert Toks(IdentityPath([])) == [TIdent("auth")] + [TDot, TIdent("identity")];
    assert ["userid"][..0] == [];
    assert Toks(IdentityPath(["userid"])) == Toks(IdentityPath([])) + [TDot, TIdent("userid")];
    assert TStr(name) !in Toks(IdentityPath(["userid"]));
    assert Toks(Has(IdentityPath([]), "userid"))
        == [TIdent("has"), TLParen] + (Toks(IdentityPath([])) + [TDot, TIdent("userid"), TRParen]);
    assert TStr(name) !in Toks(Has(IdentityPath([]), "userid"));
  }

  /** The gateway predicate tells the gateway's own calls on every request with an identity map if and only if
      the username can stand between single quotes. */
  lemma GatewayMeaningIffPlain(username: string)
    ensures (forall req: Request | req.identity.Map? ::
               EvalText(GatewayText(username), EnvOf(req)) == Truth(GatewayCall(req, username)))
       <==> Plain(username)
  {
    if Plain(username) {
      forall req: Request | req.identity.Map?
        ensures EvalText(GatewayText(username), EnvOf(req)) == Truth(GatewayCall(req, username))
      {
        GatewayMeaning(username, req);
      }
    } else {
      GatewayCannotTell(username);
    }
  }

  lemma GatewayCannotTell(username: string)
    requires !Plain(username)
    ensures exists req: Request :: req.identity.Map?
              && EvalText(GatewayText(username), EnvOf(req)) != Truth(GatewayCall(req, username))
  {
    PlainKeys();
    GatewayNameIsNotRead(username);
    var other := CannotTell(GatewayText(username), username);
    GatewayAsk(username, username);
    GatewayAsk(other, username);
  }

  lemma GatewayNameIsNotRead(username: string)
    requires !Plain(username)
    ensures Lex(GatewayText(username)).Some? ==> TStr(username) !in Lex(GatewayText(username)).value
  {
    GatewaySplit(username);
    GatewayOpens(Quoted(username) + " : false)");
    GatewayTokens(username);
    NameIsNotRead(username, " : false)");
  }

  lemma GatewayOpens(text: string)
    ensures Lex(GatewayOpening() + text)
         == Prepend(OpeningToks(Has(IdentityPath([]), "userid"), IdentityPath(["userid"])), Lex(text))
  {
    assert Name("userid");
    PathForm([]);
    PathForm(["userid"]);
    OpeningReads(Has(IdentityPath([]), "userid"), IdentityPath(["userid"]), text);
  }

  lemma GatewayAsk(x: string, username: string)
    ensures Ask(x).identity.Map? && (GatewayCall(Ask(x), username) <==> x == username)
  {
    assert ["userid"][1..] == [];
    assert Resolve(Ask(x).identity, ["userid"]) == Resolve(Text(x), []);
  }
}
