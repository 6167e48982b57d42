/**
 * platform/okf/generate_quota_enforcement.py, _class_predicate and the counter tables: the printed predicates
 * as CEL trees, and for which class names the text reads back as the tree it was printed for.
 */
module Quota {
  import opened Util
  import opened Cel
  import opened CelText

  const CLASS_HEADER := "x-zuno-quota-class"
  const PROJECT_HEADER := "x-zuno-project-id"
  const ATTESTED_USER_HEADER := "x-zuno-user-sub"
  const ATTESTED_GROUPS_HEADER := "x-zuno-groups"

  datatype Dim = User | Group | Project

  function DimName(d: Dim): string {
    match d case User => "user" case Group => "group" case Project => "project"
  }

  function DimHeader(d: Dim): string {
    match d
    case User => ATTESTED_USER_HEADER
    case Group => ATTESTED_GROUPS_HEADER
    case Project => PROJECT_HEADER
  }

  // ---------------------------------------------------------------- generated texts

  function HeaderText(h: string): string { "request.headers['" + h + "']" }

  function PresenceText(h: string): string { "'" + h + "' in request.headers" }

  function BareClassPredicate(cls: string): string {
    "(" + PresenceText(CLASS_HEADER) + ") ? " + HeaderText(CLASS_HEADER) + " == '" + cls + "' : "
    + (if cls == "standard" then "true" else "false")
  }

  function ClassPredicate(cls: string): string { "(" + BareClassPredicate(cls) + ")" }

  /** `request.headers`. */
  function Headers(): Expr { Select(Ident("request"), "headers") }

  function HeaderExpr(h: string): Expr { Index(Headers(), Str(h)) }

  function PresenceExpr(h: string): Expr { Rel(In, Str(h), Headers()) }

  function BareClassExpr(cls: string): Expr {
    Cond(Paren(PresenceExpr(CLASS_HEADER)), Rel(Eq, HeaderExpr(CLASS_HEADER), Str(cls)), Lit(cls == "standard"))
  }

  function ClassExpr(cls: string): Expr { Paren(BareClassExpr(cls)) }

  lemma HeaderShow(h: string)
    ensures Show(HeaderExpr(h)) == HeaderText(h)
  {
    assert Show(HeaderExpr(h)) == "request.headers" + ("[" + (("'" + (h + "'")) + "]"));
    assert "request.headers" + "['" == "request.headers['";
    assert "[" + (("'" + (h + "'")) + "]") == "['" + (h + "']");
    Assoc("request.headers", "['", h + "']");
    Assoc("request.headers['", h, "']");
  }

  lemma PresenceShow(h: string)
    ensures Show(PresenceExpr(h)) == PresenceText(h)
  {
    assert Show(PresenceExpr(h)) == ("'" + (h + "'")) + (" in " + "request.headers");
    assert " in " + "request.headers" == " in request.headers";
    PresenceShape(h);
  }

  lemma PresenceShape(h: string)
    ensures ("'" + (h + "'")) + " in request.headers" == "'" + h + "' in request.headers"
  {
    assert "'" + " in request.headers" == "' in request.headers";
    Assoc("'", h + "'", " in request.headers");
    Assoc(h, "'", " in request.headers");
    Assoc("'", h, "' in request.headers");
  }

  lemma BareClassShow(cls: string)
    ensures Show(BareClassExpr(cls)) == BareClassPredicate(cls)
  {
    HeaderShow(CLASS_HEADER);
    PresenceShow(CLASS_HEADER);
    var p, h := PresenceText(CLASS_HEADER), HeaderText(CLASS_HEADER);
    var lit := if cls == "standard" then "true" else "false";
    assert Show(Rel(Eq, HeaderExpr(CLASS_HEADER), Str(cls))) == h + (" == " + ("'" + (cls + "'")));
    assert Show(Paren(PresenceExpr(CLASS_HEADER))) == "(" + (p + ")");
    assert Show(BareClassExpr(cls)) == ("(" + (p + ")"))
           + (" ? " + ((h + (" == " + ("'" + (cls + "'")))) + (" : " + lit)));
    BareShape(p, h, cls, lit);
  }

  lemma BareShape(p: string, h: string, cls: string, lit: string)
    ensures ("(" + (p + ")")) + (" ? " + ((h + (" == " + ("'" + (cls + "'")))) + (" : " + lit)))
         == "(" + p + ") ? " + h + " == '" + cls + "' : " + lit
  {
    var tail := "' : " + lit;
    assert " == " + ("'" + (cls + "'")) == " == '" + (cls + "'");
    calc {
      (h + (" == '" + (cls + "'"))) + (" : " + lit);
      { Assoc(h, " == '" + (cls + "'"), " : " + lit); Assoc(" == '", cls + "'", " : " + lit); }
      h + (" == '" + ((cls + "'") + (" : " + lit)));
      { Assoc(cls, "'", " : " + lit); assert "'" + (" : " + lit) == tail; }
      h + (" == '" + (cls + tail));
    }
    var body := h + (" == '" + (cls + tail));
    assert ("(" + (p + ")")) + (" ? " + body) == ("(" + p) + (") ? " + body) by {
      assert "(" + (p + ")") == ("(" + p) + ")";
      Assoc("(" + p, ")", " ? " + body);
      assert ")" + (" ? " + body) == ") ? " + body;
    }
    Assoc("(" + p, ") ? ", body);
    Assoc("(" + p + ") ? ", h, " == '" + (cls + tail));
    Assoc("(" + p + ") ? " + h, " == '", cls + tail);
    Assoc("(" + p + ") ? " + h + " == '", cls, tail);
    Assoc("(" + p + ") ? " + h + " == '" + cls, "' : ", lit);
  }

  lemma ClassShow(cls: string)
    ensures Show(ClassExpr(cls)) == ClassPredicate(cls)
  {
    BareClassShow(cls);
    Assoc("(", BareClassPredicate(cls), ")");
  }

  /** A generated class predicate is a primary expression of the grammar. */
  lemma ClassForm(cls: string)
    ensures WellFormed(ClassExpr(cls)) && Level(ClassExpr(cls)) == 6
    ensures Plain(cls) ==> Showable(ClassExpr(cls))
  {
    HeaderForm(CLASS_HEADER);
    EqualityForm(HeaderExpr(CLASS_HEADER), cls);
    ChoiceForm(Paren(PresenceExpr(CLASS_HEADER)), Rel(Eq, HeaderExpr(CLASS_HEADER), Str(cls)), cls == "standard");
  }

  lemma EqualityForm(x: Expr, s: string)
    requires WellFormed(x) && Level(x) == 5 && Showable(x)
    ensures WellFormed(Rel(Eq, x, Str(s))) && (Plain(s) ==> Showable(Rel(Eq, x, Str(s))))
  {
    assert Plain(s) ==> Showable(Str(s));
  }

  lemma ChoiceForm(c: Expr, t: Expr, b: bool)
    requires WellFormed(c) && WellFormed(t) && Level(c) == 6 && Level(t) == 3
    ensures WellFormed(Paren(Cond(c, t, Lit(b)))) && Level(Paren(Cond(c, t, Lit(b)))) == 6
    ensures Showable(c) && Showable(t) ==> Showable(Paren(Cond(c, t, Lit(b))))
  {
    assert WellFormed(Cond(c, t, Lit(b)));
    assert Showable(c) && Showable(t) ==> Showable(Cond(c, t, Lit(b)));
  }

  lemma HeaderForm(h: string)
    requires Plain(h)
    ensures WellFormed(HeaderExpr(h)) && Level(HeaderExpr(h)) == 5 && Showable(HeaderExpr(h))
    ensures WellFormed(PresenceExpr(h)) && Level(PresenceExpr(h)) == 3 && Showable(PresenceExpr(h))
    ensures WellFormed(Paren(PresenceExpr(h))) && Showable(Paren(PresenceExpr(h)))
  {
    assert Showable(Str(h)) && WellFormed(Str(h));
  }

  /** The text of a class predicate is read back as that predicate exactly when the class name can stand
      between single quotes: the generator does not escape it. */
  lemma ClassPredicateReadsBackIffPlain(cls: string)
    ensures Parse(ClassPredicate(cls)) == Some(ClassExpr(cls)) <==> Plain(cls)
  {
    ClassShow(cls);
    ClassForm(cls);
    if Plain(cls) {
      TextRoundTrip(ClassExpr(cls));
    } else if Parse(ClassPredicate(cls)) == Some(ClassExpr(cls)) {
      ClassLexed(cls);
      ParseIsInverseOfToks(Lex(ClassPredicate(cls)).value, ClassExpr(cls));
      ClassToks(cls);
      assert false;
    }
  }

  /** The part of the predicate before the class name, and the part after it. */
  function Before(): string { "((" + PresenceText(CLASS_HEADER) + ") ? " + HeaderText(CLASS_HEADER) + " == " }

  function After(cls: string): string { " : " + (if cls == "standard" then "true" else "false") + ")" }

  function BeforeToks(): seq<Token> {
    [TLParen] + (Toks(Paren(PresenceExpr(CLASS_HEADER)))
    + ([TQuestion] + (Toks(HeaderExpr(CLASS_HEADER)) + [TRel(Eq)])))
  }

  lemma ClassToks(cls: string)
    ensures BeforeToks() + [TStr(cls)] <= Toks(ClassExpr(cls))
  {
    var p, h := Toks(Paren(PresenceExpr(CLASS_HEADER))), Toks(HeaderExpr(CLASS_HEADER));
    var tail := [TColon] + [if cls == "standard" then TTrue else TFalse];
    assert Toks(Rel(Eq, HeaderExpr(CLASS_HEADER), Str(cls))) == h + ([TRel(Eq)] + [TStr(cls)]);
    assert Toks(BareClassExpr(cls)) == p + ([TQuestion] + ((h + ([TRel(Eq)] + [TStr(cls)])) + tail));
    assert Toks(ClassExpr(cls)) == [TLParen] + (Toks(BareClassExpr(cls)) + [TRParen]);
    assert Toks(ClassExpr(cls)) == BeforeToks() + [TStr(cls)] + tail + [TRParen];
  }

  lemma ClassSplit(cls: string)
    ensures ClassPredicate(cls) == Before() + (Quoted(cls) + After(cls))
  {
    var p, h := PresenceText(CLASS_HEADER), HeaderText(CLASS_HEADER);
    var lit := if cls == "standard" then "true" else "false";
    SplitShape(p, h, cls, lit);
  }

  lemma SplitShape(p: string, h: string, cls: string, lit: string)
    ensures "(" + ("(" + p + ") ? " + h + " == '" + cls + "' : " + lit) + ")"
         == ("((" + p + ") ? " + h + " == ") + (("'" + (cls + "'")) + (" : " + lit + ")"))
  {
    var a := ") ? " + h + " == ";
    assert "(" + p + ") ? " + h + " == '" + cls + "' : " + lit == ("(" + p) + (a + ("'" + cls + "' : " + lit));
    assert "((" + p + ") ? " + h + " == " == ("((" + p) + a;
    assert "(" + (("(" + p) + (a + ("'" + cls + "' : " + lit))) + ")"
        == ("((" + p) + (a + ("'" + cls + "' : " + lit + ")"));
    assert "'" + cls + "' : " + lit + ")" == ("'" + (cls + "'")) + (" : " + lit + ")");
  }

  /** When the name is not plain, the literal cut from the text is another one, or none. */
  lemma ClassLexed(cls: string)
    requires !Plain(cls)
    ensures Lex(ClassPredicate(cls)).Some? ==>
              !(BeforeToks() + [TStr(cls)] <= Lex(ClassPredicate(cls)).value)
  {
    ClassSplit(cls);
    var text := Quoted(cls) + After(cls);
    BeforeReads(cls, text);
    AfterHasNoQuote(cls);
    QuotedReadsBackIffPlain(cls, After(cls));
    var lit := ScanLiteral(text);
    if Lex(ClassPredicate(cls)).Some? {
      var ts := Lex(ClassPredicate(cls)).value;
      assert lit.Literal? && Lex(text) == Prepend([TStr(lit.value)], Lex(lit.rest));
      assert ts == BeforeToks() + ([TStr(lit.value)] + Lex(lit.rest).value);
      assert ts[|BeforeToks()|] == TStr(lit.value);
      assert lit == Literal(lit.value, lit.rest) && lit.value != cls;
      assert (BeforeToks() + [TStr(cls)])[|BeforeToks()|] == TStr(cls);
    }
  }

  lemma AfterHasNoQuote(cls: string)
    ensures NoQuote(After(cls))
  {
  }

  /** The opening of a conditional whose middle operand is an equality, up to its right-hand side. */
  function Opening(c: Expr, l: Expr): string { "(" + (Show(c) + (" ? " + (Show(l) + " == "))) }

  function OpeningToks(c: Expr, l: Expr): seq<Token> {
    [TLParen] + (Toks(c) + ([TQuestion] + (Toks(l) + [TRel(Eq)])))
  }

  lemma OpeningReads(c: Expr, l: Expr, text: string)
    requires Showable(c) && Showable(l)
    ensures Lex(Opening(c, l) + text) == Prepend(OpeningToks(c, l), Lex(text))
  {
    ReadOp(Eq, text);
    ReadShow(l, " == " + text);
    Then(Show(l), Toks(l), " == ", [TRel(Eq)], text);
    var b, bT := Show(l) + " == ", Toks(l) + [TRel(Eq)];
    ReadSpaced(" ? ", TQuestion, b + text);
    Then(" ? ", [TQuestion], b, bT, text);
    ReadShow(c, (" ? " + b) + text);
    Then(Show(c), Toks(c), " ? " + b, [TQuestion] + bT, text);
    LexOperator('(', (Show(c) + (" ? " + b)) + text);
    Then("(", [TLParen], Show(c) + (" ? " + b), Toks(c) + ([TQuestion] + bT), text);
  }

  lemma BeforeReads(cls: string, text: string)
    ensures Lex(Before() + text) == Prepend(BeforeToks(), Lex(text))
  {
    HeaderForm(CLASS_HEADER);
    OpeningReads(Paren(PresenceExpr(CLASS_HEADER)), HeaderExpr(CLASS_HEADER), text);
    HeaderShow(CLASS_HEADER);
    PresenceShow(CLASS_HEADER);
    BeforeShape(PresenceText(CLASS_HEADER), HeaderText(CLASS_HEADER));
  }

  lemma BeforeShape(p: string, h: string)
    ensures "(" + (("(" + (p + ")")) + (" ? " + (h + " == "))) == "((" + p + ") ? " + h + " == "
  {
    assert "(" + (("(" + (p + ")")) + (" ? " + (h + " == "))) == ("((" + p) + (") ? " + (h + " == "));
  }
}
