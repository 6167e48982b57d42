/**
 * platform/okf/generate_quota_enforcement.py, _render_trlp: the limits as they are written, and which are in force
 * on a request.
 */
module QuotaLimits {
  import opened Util
  import opened Cel
  import opened CelText
  import opened CelEval
  import opened Quota
  import opened QuotaGuard
  import opened QuotaMeaning
  import opened QuotaScalars
  import opened QuotaTemplate

  const PROPERTY := "auth.identity.userid"

  function GatewayText(username: string): string {
    Show(Guard(["userid"], 0, username))
  }

  function EntryKey(cls: string, d: Dim): string { cls + "-" + DimName(d) }

  function EntryOf(cls: string, d: Dim, b: Budget, username: string): Entry {
    Entry(EntryKey(cls, d), b, Written(Repr(HeaderText(DimHeader(d)))),
          [Filled(GoQuote(GatewayText(username))), Written(Repr(ClassPredicate(cls))),
           Written(Repr(PresenceText(DimHeader(d))))])
  }

  function WriterFor(username: string): Writer {
    (cls: string, d: Dim, b: Budget) => EntryOf(cls, d, b, username)
  }

  /** The lines grown class by class and dimension by dimension. */
  method RenderTrlp(classes: seq<ClassPolicy>, username: string) returns (lines: seq<Line>)
    ensures lines == Template(classes, WriterFor(username))
  {
    var preamble := Preamble();
    ghost var mk := WriterFor(username);
    lines := preamble;
    var identity := GatewayIdentityPredicate(PROPERTY, username);
    GatewayTextOfProperty(username);
    var write := LimitWriter(identity.value, username);
    for i := 0 to |classes|
      invariant lines == preamble + ClassBlocks(classes[..i], mk)
    {
      ghost var before := lines;
      var c := classes[i];
      lines := AppendClass(lines, c, write, mk);
      assert classes[..i + 1][..i] == classes[..i];
      Assoc(preamble, ClassBlocks(classes[..i], mk), DimBlocks(c, Dims(), mk));
    }
    assert classes[..|classes|] == classes;
    lines := lines + [End];
  }

  lemma GatewayTextOfProperty(username: string)
    ensures PREFIX < PROPERTY && Show(Guard(Split(PROPERTY[|PREFIX|..]), 0, username)) == GatewayText(username)
  {
    SplitWithoutDot("userid");
    assert PROPERTY[|PREFIX|..] == "userid";
  }

  /** The limits of the template, with the gateway predicate the loop has built. */
  method LimitWriter(identity: string, ghost username: string) returns (write: Writer)
    requires identity == GatewayText(username)
    ensures forall cls, d, b :: write(cls, d, b) == WriterFor(username)(cls, d, b)
  {
    write := (cls: string, d: Dim, b: Budget) =>
      Entry(cls + "-" + DimName(d), b, Written(Repr(HeaderText(DimHeader(d)))),
            [Filled(GoQuote(identity)), Written(Repr(ClassPredicate(cls))), Written(Repr(PresenceText(DimHeader(d))))]);
  }

  lemma {:induction false} SplitWithoutDot(s: string)
    requires forall i :: 0 <= i < |s| ==> s[i] != '.'
    ensures Split(s) == [s]
  {
    if s != "" {
      SplitWithoutDot(s[1..]);
      assert s == [s[0]] + s[1..];
    }
  }

  predicate GatewayCall(req: Request, username: string) {
    Resolve(req.identity, ["userid"]) == Some(Text(username))
  }

  lemma GatewayMeaning(username: string, req: Request)
    requires Plain(username)
    ensures EvalText(GatewayText(username), EnvOf(req))
         == if req.identity.Map? then Truth(GatewayCall(req, username)) else Error
  {
    var segs := ["userid"];
    assert Name("userid");
    GuardForm(segs, 0, username);
    TextRoundTrip(Guard(segs, 0, username));
    GuardMeaning(segs, username, EnvOf(req), req.identity);
    assert MapsAlong(req.identity, segs) == req.identity.Map? by {
      assert segs[1..] == [];
      if req.identity.Map? && "userid" in req.identity.m {
        assert MapsAlong(req.identity.m["userid"], []);
      }
    }
  }

  /** Whether the delivered text is true on the request; None when nothing arrives, or it is neither true nor
      false. */
  function Verdict(s: Scalar, req: Request): Option<bool> {
    match Delivered(s)
    case None => None
    case Some(text) =>
      match EvalText(text, EnvOf(req))
      case Val(Bool(b)) => Some(b)
      case _ => None
  }

  function Judge(req: Request): Scalar -> Option<bool> { s => Verdict(s, req) }

  predicate AllHold(whens: seq<Scalar>, judge: Scalar -> Option<bool>) {
    forall i :: 0 <= i < |whens| ==> judge(whens[i]) == Some(true)
  }

  predicate NoneErrs(whens: seq<Scalar>, judge: Scalar -> Option<bool>) {
    forall i :: 0 <= i < |whens| ==> judge(whens[i]).Some?
  }

  predicate KeyArrives(key: string) { !HasAction(key) && ReadKey(key + ":") == Some(key) }

  /** Every one of its predicates is true. */
  predicate Active(e: Entry, req: Request) { AllHold(e.whens, Judge(req)) }

  /** The value of its counter. */
  function CounterValue(e: Entry, req: Request): Outcome {
    match Delivered(e.counter) case None => Error case Some(text) => EvalText(text, EnvOf(req))
  }

  /** Its key arrives, no predicate errs, and the counter is resolved whenever the predicates let it be reached:
      otherwise the shim sends no descriptor at all for the request. */
  predicate Evaluable(e: Entry, req: Request) {
    KeyArrives(e.key) && NoneErrs(e.whens, Judge(req)) && (Active(e, req) ==> CounterValue(e, req).Val?)
  }

  /** A class name the generator can write unescaped: it stands between single quotes in the predicate, the predicate
      stands in a scalar of the template, and the keys made of it are keys. */
  predicate Writable(cls: string) {
    Plain(cls) && '"' !in cls && !HasAction(cls) && forall d: Dim :: KeySafe(EntryKey(cls, d))
  }

  lemma ClassAround(cls: string)
    ensures ClassPredicate(cls) == (Before() + "'") + (cls + ("'" + After(cls)))
    ensures '{' !in Before() + "'" && '{' !in "'" + After(cls)
    ensures '"' !in Before() + "'" && '"' !in "'" + After(cls) && '\'' in Before() + "'"
  {
    ClassSplit(cls);
    AroundShape(Before(), cls, After(cls));
    BeforeQuiet();
    AfterQuiet(cls);
  }

  lemma BeforeQuiet()
    ensures '{' !in Before() + "'" && '"' !in Before() + "'" && '\'' in Before() + "'"
  {
    var p, h := PresenceText(CLASS_HEADER), HeaderText(CLASS_HEADER);
    assert '{' !in CLASS_HEADER && '"' !in CLASS_HEADER;
    assert '{' !in p && '"' !in p && '{' !in h && '"' !in h;
    assert Before() == "((" + p + ") ? " + h + " == ";
  }

  lemma AfterQuiet(cls: string)
    ensures '{' !in "'" + After(cls) && '"' !in "'" + After(cls)
  {
  }

  lemma AroundShape(a: string, b: string, c: string)
    ensures a + (("'" + (b + "'")) + c) == (a + "'") + (b + ("'" + c))
  {
  }

  lemma NoBraces(cls: string)
    ensures HasAction(ClassPredicate(cls)) <==> HasAction(cls)
  {
    ClassAround(cls);
    NoBracesAround(Before() + "'", cls, "'" + After(cls));
  }

  lemma NoBracesAround(pre: string, s: string, post: string)
    requires '{' !in pre && '{' !in post
    ensures HasAction(pre + (s + post)) <==> HasAction(s)
  {
    ActionBehind(pre, s + post);
    ActionBefore(s, post);
  }

  lemma KeyNoBraces(cls: string, d: Dim)
    ensures HasAction(EntryKey(cls, d)) <==> HasAction(cls)
  {
    assert EntryKey(cls, d) == cls + ("-" + DimName(d));
    ActionBefore(cls, "-" + DimName(d));
  }

  lemma DoubleQuotes(cls: string)
    ensures '"' in ClassPredicate(cls) <==> '"' in cls
    ensures '\'' in ClassPredicate(cls)
  {
    ClassAround(cls);
    QuotesAround(Before() + "'", cls, "'" + After(cls));
  }

  lemma QuotesAround(pre: string, s: string, post: string)
    requires '"' !in pre && '"' !in post && '\'' in pre
    ensures ('"' in pre + (s + post) <==> '"' in s) && '\'' in pre + (s + post)
  {
  }

  /** The class predicate arrives through template and YAML exactly when the name has no double quote and opens no
      Helm action. */
  lemma ClassArrivesIff(cls: string)
    ensures Delivered(Written(Repr(ClassPredicate(cls))))
         == if '"' in cls || HasAction(cls) then None else Some(ClassPredicate(cls))
  {
    NoBraces(cls);
    DoubleQuotes(cls);
    ReprArrivesIff(ClassPredicate(cls));
  }

  lemma KeyArrivesIff(cls: string, d: Dim)
    ensures KeyArrives(EntryKey(cls, d)) <==> !HasAction(cls) && KeySafe(EntryKey(cls, d))
  {
    KeyNoBraces(cls, d);
    KeyReadsIff(EntryKey(cls, d));
  }

  lemma BetweenQuotes(pre: string, h: string, post: string)
    requires '\'' in pre && '"' !in pre && '"' !in h && '"' !in post && '{' !in pre && '{' !in h && '{' !in post
    ensures Delivered(Written(Repr(pre + h + post))) == Some(pre + h + post)
  {
    TextArrives(pre + h + post);
  }

  lemma TextArrives(s: string)
    requires '\'' in s && '"' !in s && '{' !in s
    ensures Delivered(Written(Repr(s))) == Some(s)
  {
    ActionBehind(s, "");
    assert s + "" == s;
    ReprArrivesIff(s);
  }

  lemma HeaderArrives(d: Dim)
    ensures Delivered(Written(Repr(HeaderText(DimHeader(d))))) == Some(HeaderText(DimHeader(d)))
    ensures Delivered(Written(Repr(PresenceText(DimHeader(d))))) == Some(PresenceText(DimHeader(d)))
  {
    var h := DimHeader(d);
    assert '"' !in h && '{' !in h;
    BetweenQuotes("request.headers['", h, "']");
    BetweenQuotes("'", h, "' in request.headers");
  }

  /** The texts of a limit arrive as they were meant. */
  predicate Arrived(e: Entry, cls: string, d: Dim, username: string) {
    KeyArrives(e.key) && |e.whens| == 3 && Delivered(e.whens[0]) == Some(GatewayText(username))
    && Delivered(e.whens[1]) == Some(ClassPredicate(cls)) && Delivered(e.whens[2]) == Some(PresenceText(DimHeader(d)))
    && Delivered(e.counter) == Some(HeaderText(DimHeader(d)))
  }

  lemma VerdictIs(s: Scalar, text: string, req: Request, b: bool)
    requires Delivered(s) == Some(text) && EvalText(text, EnvOf(req)) == Truth(b)
    ensures Judge(req)(s) == Some(b)
  {
  }

  lemma ThreeWhens(whens: seq<Scalar>, judge: Scalar -> Option<bool>, a: bool, b: bool, c: bool)
    requires |whens| == 3 && judge(whens[0]) == Some(a) && judge(whens[1]) == Some(b) && judge(whens[2]) == Some(c)
    ensures NoneErrs(whens, judge) && (AllHold(whens, judge) <==> a && b && c)
  {
  }

  /** What the three predicates of a limit come to. */
  lemma WhensMeaning(e: Entry, cls: string, d: Dim, username: string, req: Request)
    requires Plain(cls) && Plain(username) && req.identity.Map? && Arrived(e, cls, d, username)
    ensures NoneErrs(e.whens, Judge(req))
    ensures AllHold(e.whens, Judge(req))
       <==> GatewayCall(req, username) && Selected(req) == cls && DimHeader(d) in req.headers
  {
    GatewayMeaning(username, req);
    VerdictIs(e.whens[0], GatewayText(username), req, GatewayCall(req, username));
    ClassPredicateMeaning(cls, req);
    VerdictIs(e.whens[1], ClassPredicate(cls), req, Selected(req) == cls);
    PresenceMeaning(d, req);
    VerdictIs(e.whens[2], PresenceText(DimHeader(d)), req, DimHeader(d) in req.headers);
    ThreeWhens(e.whens, Judge(req), GatewayCall(req, username), Selected(req) == cls, DimHeader(d) in req.headers);
  }

  lemma CounterMeaning(e: Entry, cls: string, d: Dim, username: string, req: Request)
    requires Arrived(e, cls, d, username) && DimHeader(d) in req.headers
    ensures CounterValue(e, req) == Val(Text(req.headers[DimHeader(d)]))
  {
    PresenceMeaning(d, req);
  }

  lemma ArrivedMeaning(e: Entry, cls: string, d: Dim, username: string, req: Request)
    requires Plain(cls) && Plain(username) && req.identity.Map? && Arrived(e, cls, d, username)
    ensures Evaluable(e, req)
    ensures Active(e, req) <==> GatewayCall(req, username) && Selected(req) == cls && DimHeader(d) in req.headers
    ensures Active(e, req) ==> CounterValue(e, req) == Val(Text(req.headers[DimHeader(d)]))
  {
    WhensMeaning(e, cls, d, username, req);
    if DimHeader(d) in req.headers { CounterMeaning(e, cls, d, username, req); }
  }

  lemma EntryMeaning(cls: string, d: Dim, b: Budget, username: string, req: Request)
    requires Writable(cls) && Plain(username) && req.identity.Map?
    ensures var e := WriterFor(username)(cls, d, b);
            Evaluable(e, req)
            && (Active(e, req) <==> GatewayCall(req, username) && Selected(req) == cls && DimHeader(d) in req.headers)
            && (Active(e, req) ==> CounterValue(e, req) == Val(Text(req.headers[DimHeader(d)])))
  {
    EntryArrives(cls, d, b, username);
    ArrivedMeaning(WriterFor(username)(cls, d, b), cls, d, username, req);
  }

  lemma EntryArrives(cls: string, d: Dim, b: Budget, username: string)
    requires Writable(cls)
    ensures Arrived(WriterFor(username)(cls, d, b), cls, d, username)
  {
    QuoteArrives(GatewayText(username));
    ClassArrivesIff(cls);
    KeyArrivesIff(cls, d);
    HeaderArrives(d);
  }

  /** For every policy, every setting of the switches and every request: nothing rendered errs, and a limit
      is in force exactly when it is declared, switched on, of the class the request selects, and the
      request is a gateway call that carries the dimension's header. */
  lemma LimitsInForce(classes: seq<ClassPolicy>, username: string, on: set<Flag>, req: Request)
    requires (forall i :: 0 <= i < |classes| ==> Writable(classes[i].name)) && Plain(username) && req.identity.Map?
    requires {Enabled, TargetName, TargetNamespace, Username, AttachmentValid} <= on
    ensures Render(Template(classes, WriterFor(username)), on, []).Rendered?
    ensures var es := Render(Template(classes, WriterFor(username)), on, []).entries;
            (forall e :: e in es ==> Evaluable(e, req))
            && (forall e :: e in es && Active(e, req) <==>
                  exists d :: Declares(classes, Selected(req), d, WriterFor(username), e)
                      && Switched(Selected(req), d, on)
                    && GatewayCall(req, username) && DimHeader(d) in req.headers)
  {
    TemplateRenders(classes, WriterFor(username), on);
    forall e
      ensures e in RenderedClasses(classes, WriterFor(username), on) ==> Evaluable(e, req)
      ensures e in RenderedClasses(classes, WriterFor(username), on) && Active(e, req) <==>
                exists d :: Declares(classes, Selected(req), d, WriterFor(username), e)
                    && Switched(Selected(req), d, on)
                  && GatewayCall(req, username) && DimHeader(d) in req.headers
    {
      EntryInForce(classes, username, on, req, e);
    }
  }

  lemma EntryInForce(classes: seq<ClassPolicy>, username: string, on: set<Flag>, req: Request, e: Entry)
    requires (forall i :: 0 <= i < |classes| ==> Writable(classes[i].name)) && Plain(username) && req.identity.Map?
    ensures e in RenderedClasses(classes, WriterFor(username), on) ==> Evaluable(e, req)
    ensures e in RenderedClasses(classes, WriterFor(username), on) && Active(e, req) <==>
              exists d :: Declares(classes, Selected(req), d, WriterFor(username), e) && Switched(Selected(req), d, on)
                && GatewayCall(req, username) && DimHeader(d) in req.headers
  {
    RenderedExactly(classes, WriterFor(username), on, e);
    forall cls, d | Declares(classes, cls, d, WriterFor(username), e)
      ensures Evaluable(e, req)
      ensures Active(e, req) <==> GatewayCall(req, username) && Selected(req) == cls && DimHeader(d) in req.headers
    {
      var i :| 0 <= i < |classes| && Owns(classes[i], cls, d, WriterFor(username), e);
      EntryMeaning(cls, d, classes[i].tokens[d], username, req);
    }
  }

  /** Two limits never share a key of the `limits` map. */
  lemma KeysAreDistinct(cls1: string, d1: Dim, cls2: string, d2: Dim)
    requires EntryKey(cls1, d1) == EntryKey(cls2, d2)
    ensures cls1 == cls2 && d1 == d2
  {
    var k := cls1 + "-" + DimName(d1);
    assert k[|k| - 1] == DimName(d1)[|DimName(d1)| - 1] == DimName(d2)[|DimName(d2)| - 1];
    assert cls1 == k[..|k| - |DimName(d1)| - 1] && cls2 == k[..|k| - |DimName(d2)| - 1];
  }
}
