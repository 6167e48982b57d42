/**
 * Texts of CEL expressions: the lexer (sections "Syntax" and "String and Bytes Values" of the CEL
 * Language Definition), the layout the generator writes, and the proof that text written for a tree
 * is read back as that tree.
 */
module CelText {
  import opened Util
  import opened Cel

  // ---------------------------------------------------------------- lexer

  predicate IdentStart(c: char) { c == '_' || 'a' <= c <= 'z' || 'A' <= c <= 'Z' }

  predicate IdentChar(c: char) { IdentStart(c) || '0' <= c <= '9' }

  predicate Quote(c: char) { c == '\'' || c == '"' }

  predicate Newline(c: char) { c == '\n' || c == '\r' }

  predicate Blank(c: char) { c == ' ' || c == '\t' || c == '\U{c}' || Newline(c) }

  /** How many identifier characters a text begins with. */
  function IdentLen(s: string): (n: nat)
    ensures n <= |s|
  {
    if s == "" || !IdentChar(s[0]) then 0 else 1 + IdentLen(s[1..])
  }

  function Word(w: string): Token {
    if w == "true" then TTrue else if w == "false" then TFalse else if w == "in" then TRel(In) else TIdent(w)
  }

  function HexDigit(c: char): Option<nat> {
    if '0' <= c <= '9' then Some((c - '0') as int)
    else if 'a' <= c <= 'f' then Some((c - 'a') as int + 10)
    else if 'A' <= c <= 'F' then Some((c - 'A') as int + 10)
    else None
  }

  function HexNumber(s: string, acc: nat): Option<nat> {
    if s == "" then Some(acc)
    else match HexDigit(s[0])
      case None => None
      case Some(d) => HexNumber(s[1..], 16 * acc + d)
  }

  function CodePoint(n: nat): Option<char> {
    if n < 0xD800 || 0xE000 <= n < 0x11_0000 then Some(n as char) else None
  }

  function HexEscape(s: string, digits: nat): (r: Option<(char, nat)>)
    ensures r.Some? ==> r.value.1 == digits + 2 <= |s|
  {
    if |s| < digits + 2 then None
    else match HexNumber(s[2..digits + 2], 0)
      case None => None
      case Some(n) =>
        match CodePoint(n)
        case None => None
        case Some(c) => Some((c, digits + 2))
  }

  function OctalEscape(s: string): (r: Option<(char, nat)>)
    ensures r.Some? ==> r.value.1 == 4 <= |s|
  {
    if |s| >= 4 && '0' <= s[1] <= '3' && '0' <= s[2] <= '7' && '0' <= s[3] <= '7' then
      Some(((64 * (s[1] - '0') as int + 8 * (s[2] - '0') as int + (s[3] - '0') as int) as char, 4))
    else None
  }

  /** The character a backslash sequence stands for and how many characters spell it. */
  function Escape(s: string): (r: Option<(char, nat)>)
    ensures r.Some? ==> 2 <= r.value.1 <= |s|
  {
    if |s| < 2 then None
    else match s[1]
      case 'a' => Some(('\U{7}', 2))
      case 'b' => Some(('\U{8}', 2))
      case 'f' => Some(('\U{c}', 2))
      case 'n' => Some(('\n', 2))
      case 'r' => Some(('\r', 2))
      case 't' => Some(('\t', 2))
      case 'v' => Some(('\U{b}', 2))
      case 'x' => HexEscape(s, 2)
      case 'X' => HexEscape(s, 2)
      case 'u' => HexEscape(s, 4)
      case 'U' => HexEscape(s, 8)
      case c => if c in "\\?\"'`" then Some((c, 2)) else OctalEscape(s)
  }

  /** A scanned literal: its value and the text after its closing quote. */
  datatype Scan = NoLiteral | Literal(value: string, rest: string)

  function Cons(c: char, s: Scan): Scan {
    match s
    case NoLiteral => NoLiteral
    case Literal(v, rest) => Literal([c] + v, rest)
  }

  /** The body of a `'...'` or `"..."` literal. */
  function Single(q: char, s: string): (r: Scan)
    ensures r.Literal? ==> |r.rest| < |s|
    decreases |s|
  {
    if s == "" || Newline(s[0]) then NoLiteral
    else if s[0] == q then Literal("", s[1..])
    else if s[0] == '\\' then
      match Escape(s)
      case None => NoLiteral
      case Some((c, n)) => Cons(c, Single(q, s[n..]))
    else Cons(s[0], Single(q, s[1..]))
  }

  /** The body of a `'''...'''` or `"""..."""` literal. */
  function Triple(q: char, s: string): (r: Scan)
    ensures r.Literal? ==> |r.rest| < |s|
    decreases |s|
  {
    if s == "" then NoLiteral
    else if |s| >= 3 && s[0] == q && s[1] == q && s[2] == q then Literal("", s[3..])
    else if s[0] == '\\' then
      match Escape(s)
      case None => NoLiteral
      case Some((c, n)) => Cons(c, Triple(q, s[n..]))
    else Cons(s[0], Triple(q, s[1..]))
  }

  function ScanLiteral(s: string): (r: Scan)
    requires s != ""
    ensures r.Literal? ==> |r.rest| < |s|
  {
    if |s| >= 3 && s[1] == s[0] && s[2] == s[0] then Triple(s[0], s[3..]) else Single(s[0], s[1..])
  }

  type Lexed = Option<seq<Token>>

  function Prepend(ts: seq<Token>, o: Lexed): Lexed {
    match o
    case None => None
    case Some(more) => Some(ts + more)
  }

  function Operator(c: char): Option<Token> {
    match c
    case '.' => Some(TDot)
    case '(' => Some(TLParen)
    case ')' => Some(TRParen)
    case '[' => Some(TLBracket)
    case ']' => Some(TRBracket)
    case '?' => Some(TQuestion)
    case ':' => Some(TColon)
    case '!' => Some(TNot)
    case _ => None
  }

  function DoubleOperator(c: char, d: char): Option<Token> {
    if c == d == '|' then Some(TOrOr)
    else if c == d == '&' then Some(TAndAnd)
    else if c == d == '=' then Some(TRel(Eq))
    else if c == '!' && d == '=' then Some(TRel(Ne))
    else None
  }

  /** Literals with an `r` or `b` prefix, numbers and arithmetic are outside the fragment. */
  function Lex(s: string): Lexed
    decreases |s|
  {
    if s == "" then Some([])
    else if Blank(s[0]) then Lex(s[1..])
    else if IdentStart(s[0]) then
      var n := IdentLen(s);
      if n < |s| && Quote(s[n]) then None else Prepend([Word(s[..n])], Lex(s[n..]))
    else if Quote(s[0]) then
      match ScanLiteral(s)
      case NoLiteral => None
      case Literal(v, rest) => Prepend([TStr(v)], Lex(rest))
    else if |s| >= 2 && DoubleOperator(s[0], s[1]).Some? then
      Prepend([DoubleOperator(s[0], s[1]).value], Lex(s[2..]))
    else match Operator(s[0])
      case None => None
      case Some(t) => Prepend([t], Lex(s[1..]))
  }

  function Parse(text: string): Option<Expr> {
    match Lex(text)
    case None => None
    case Some(ts) => ParseTokens(ts)
  }

  // ---------------------------------------------------------------- layout

  /** A text that can stand between single quotes as it is. */
  predicate Plain(s: string) {
    forall i :: 0 <= i < |s| ==> s[i] != '\'' && s[i] != '\\' && !Newline(s[i])
  }

  predicate Name(s: string) {
    s != "" && IdentStart(s[0]) && (forall c <- s :: IdentChar(c)) && s != "true" && s != "false" && s != "in"
  }

  predicate Showable(e: Expr) {
    match e
    case Ident(n) => Name(n)
    case Lit(_) => true
    case Str(s) => Plain(s)
    case Has(x, f) => Showable(x) && Name(f)
    case Paren(x) => Showable(x)
    case Select(x, f) => Showable(x) && Name(f)
    case Index(x, k) => Showable(x) && Showable(k)
    case Call(x, m, a) => Showable(x) && Name(m) && Showable(a)
    case Not(x) => Showable(x)
    case Rel(_, l, r) => Showable(l) && Showable(r)
    case And(l, r) => Showable(l) && Showable(r)
    case Or(l, r) => Showable(l) && Showable(r)
    case Cond(c, t, f) => Showable(c) && Showable(t) && Showable(f)
  }

  function OpText(op: RelOp): string {
    match op
    case Eq => " == "
    case Ne => " != "
    case In => " in "
  }

  function Quoted(s: string): string { "'" + (s + "'") }

  /** The text of a tree, laid out as the generator lays it out. */
  function Show(e: Expr): string {
    match e
    case Ident(n) => n
    case Lit(b) => if b then "true" else "false"
    case Str(s) => Quoted(s)
    case Has(x, f) => "has" + ("(" + (Show(x) + ("." + (f + ")"))))
    case Paren(x) => "(" + (Show(x) + ")")
    case Select(x, f) => Show(x) + ("." + f)
    case Index(x, k) => Show(x) + ("[" + (Show(k) + "]"))
    case Call(x, m, a) => Show(x) + ("." + (m + ("(" + (Show(a) + ")"))))
    case Not(x) => "!" + Show(x)
    case Rel(op, l, r) => Show(l) + (OpText(op) + Show(r))
    case And(l, r) => Show(l) + (" && " + Show(r))
    case Or(l, r) => Show(l) + (" || " + Show(r))
    case Cond(c, t, f) => Show(c) + (" ? " + (Show(t) + (" : " + Show(f))))
  }

  // ---------------------------------------------------------------- reading text back

  /** A text that cannot lengthen the word or literal before it. */
  predicate Boundary(s: string) {
    s == "" || (!IdentChar(s[0]) && !Quote(s[0]))
  }

  lemma {:induction false} IdentLenOf(name: string, rest: string)
    requires forall c <- name :: IdentChar(c)
    requires Boundary(rest)
    ensures IdentLen(name + rest) == |name|
  {
    if name == "" {
      assert name + rest == rest;
    } else {
      IdentLenOf(name[1..], rest);
      assert (name + rest)[1..] == name[1..] + rest;
    }
  }

  lemma LexWord(name: string, rest: string)
    requires name != "" && IdentStart(name[0]) && (forall c <- name :: IdentChar(c))
    requires Boundary(rest)
    ensures Lex(name + rest) == Prepend([Word(name)], Lex(rest))
  {
    IdentLenOf(name, rest);
    var s := name + rest;
    assert s[..|name|] == name && s[|name|..] == rest;
    assert !Blank(s[0]);
  }

  lemma {:induction false} SingleOfPlain(s: string, rest: string)
    requires Plain(s)
    ensures Single('\'', s + ("'" + rest)) == Literal(s, rest)
  {
    var text := s + ("'" + rest);
    if s == "" {
      assert text == "'" + rest;
      assert text[1..] == rest;
    } else {
      SingleOfPlain(s[1..], rest);
      assert text[1..] == s[1..] + ("'" + rest);
      assert s == [s[0]] + s[1..];
    }
  }

  lemma LexQuoted(s: string, rest: string)
    requires Plain(s) && Boundary(rest)
    ensures Lex(Quoted(s) + rest) == Prepend([TStr(s)], Lex(rest))
  {
    var text := Quoted(s) + rest;
    SingleOfPlain(s, rest);
    assert text[1..] == s + ("'" + rest);
    if s != "" {
      assert text[1] == s[0];
      assert s[0] in s;
    }
  }

  lemma LexOperator(c: char, rest: string)
    requires Operator(c).Some? && (c == '!' ==> rest == "" || rest[0] != '=')
    ensures Lex([c] + rest) == Prepend([Operator(c).value], Lex(rest))
  {
    var s := [c] + rest;
    assert s[0] == c && s[1..] == rest;
    OperatorIsApart(c, if rest == "" then ' ' else rest[0]);
  }

  lemma OperatorIsApart(c: char, d: char)
    requires Operator(c).Some?
    ensures !Blank(c) && !IdentStart(c) && !Quote(c)
    ensures c != '!' || d != '=' ==> DoubleOperator(c, d) == None
  {
  }

  lemma LexDouble(c: char, d: char, rest: string)
    requires DoubleOperator(c, d).Some?
    ensures Lex([c, d] + rest) == Prepend([DoubleOperator(c, d).value], Lex(rest))
  {
    assert ([c, d] + rest)[2..] == rest;
  }

  /** `a` is read as `ta` when `rest` follows it. */
  ghost predicate Reads(a: string, ta: seq<Token>, rest: string) {
    Lex(a + rest) == Prepend(ta, Lex(rest))
  }

  lemma Then(a: string, ta: seq<Token>, b: string, tb: seq<Token>, rest: string)
    requires Reads(a, ta, b + rest) && Reads(b, tb, rest)
    ensures Reads(a + b, ta + tb, rest)
  {
    Assoc(a, b, rest);
    if Lex(rest).Some? { Assoc(ta, tb, Lex(rest).value); }
  }

  /** An operator between blanks. */
  lemma ReadSpaced(op: string, t: Token, rest: string)
    requires |op| == 3 && op[0] == op[2] == ' ' && (op[1] == '?' || op[1] == ':')
    requires Operator(op[1]) == Some(t)
    ensures Reads(op, [t], rest)
  {
    assert op + rest == " " + ([op[1]] + (" " + rest));
    LexOperator(op[1], " " + rest);
  }

  lemma ReadSpacedDouble(op: string, t: Token, rest: string)
    requires |op| == 4 && op[0] == op[3] == ' ' && DoubleOperator(op[1], op[2]) == Some(t)
    ensures Reads(op, [t], rest)
  {
    assert op + rest == " " + ([op[1], op[2]] + (" " + rest));
    LexDouble(op[1], op[2], " " + rest);
  }

  lemma ReadOp(op: RelOp, rest: string)
    ensures Reads(OpText(op), [TRel(op)], rest)
  {
    if op == In {
      assert OpText(op) + rest == " " + ("in" + (" " + rest));
      LexWord("in", " " + rest);
    } else {
      ReadSpacedDouble(OpText(op), TRel(op), rest);
    }
  }

  /** The lexer reads the text of any tree as that tree's tokens, whatever follows. */
  lemma {:induction false} ReadShow(e: Expr, rest: string)
    requires Showable(e) && Boundary(rest)
    ensures Reads(Show(e), Toks(e), rest)
    decreases e, 1
  {
    match e
    case Ident(n) => LexWord(n, rest);
    case Lit(b) => LexWord(Show(e), rest);
    case Str(s) => LexQuoted(s, rest);
    case Has(_, _) => ReadHas(e, rest);
    case Paren(x) =>
      ReadEnclosed(x, ')', TRParen, rest);
      LexOperator('(', (Show(x) + ")") + rest);
      Then("(", [TLParen], Show(x) + ")", Toks(x) + [TRParen], rest);
    case Select(x, f) =>
      ReadField(f, rest);
      ReadShow(x, ("." + f) + rest);
      Then(Show(x), Toks(x), "." + f, [TDot, TIdent(f)], rest);
    case Index(_, _) => ReadIndexText(e, rest);
    case Call(_, _, _) => ReadCallText(e, rest);
    case Not(x) =>
      ReadShow(x, rest);
      ShowStart(x);
      LexOperator('!', Show(x) + rest);
      Then("!", [TNot], Show(x), Toks(x), rest);
    case Rel(op, l, r) =>
      ReadOp(op, Show(r) + rest);
      ReadBinary(e, l, OpText(op), TRel(op), r, rest);
    case And(l, r) =>
      ReadSpacedDouble(" && ", TAndAnd, Show(r) + rest);
      ReadBinary(e, l, " && ", TAndAnd, r, rest);
    case Or(l, r) =>
      ReadSpacedDouble(" || ", TOrOr, Show(r) + rest);
      ReadBinary(e, l, " || ", TOrOr, r, rest);
    case Cond(_, _, _) => ReadCondText(e, rest);
  }

  lemma {:induction false} ReadIndexText(e: Expr, rest: string)
    requires Showable(e) && Boundary(rest) && e.Index?
    ensures Reads(Show(e), Toks(e), rest)
    decreases e, 0
  {
    var x, k := e.e, e.key;
    ReadEnclosed(k, ']', TRBracket, rest);
    LexOperator('[', (Show(k) + "]") + rest);
    Then("[", [TLBracket], Show(k) + "]", Toks(k) + [TRBracket], rest);
    ReadShow(x, ("[" + (Show(k) + "]")) + rest);
    Then(Show(x), Toks(x), "[" + (Show(k) + "]"), [TLBracket] + (Toks(k) + [TRBracket]), rest);
  }

  lemma {:induction false} ReadCondText(e: Expr, rest: string)
    requires Showable(e) && Boundary(rest) && e.Cond?
    ensures Reads(Show(e), Toks(e), rest)
    decreases e, 0
  {
    var c, t, f := e.c, e.t, e.f;
    ReadSpaced(" : ", TColon, Show(f) + rest);
    ReadBinary(e, t, " : ", TColon, f, rest);
    var tail := Show(t) + (" : " + Show(f));
    ReadSpaced(" ? ", TQuestion, tail + rest);
    Then(" ? ", [TQuestion], tail, Toks(t) + ([TColon] + Toks(f)), rest);
    ReadShow(c, (" ? " + tail) + rest);
    Then(Show(c), Toks(c), " ? " + tail, [TQuestion] + (Toks(t) + ([TColon] + Toks(f))), rest);
  }

  lemma {:induction false} ReadBinary(e: Expr, l: Expr, op: string, t: Token, r: Expr, rest: string)
    requires l < e && r < e && Showable(l) && Showable(r) && Boundary(rest)
    requires op != "" && op[0] == ' ' && Reads(op, [t], Show(r) + rest)
    ensures Reads(Show(l) + (op + Show(r)), Toks(l) + ([t] + Toks(r)), rest)
    decreases e, -1
  {
    ReadShow(r, rest);
    Then(op, [t], Show(r), Toks(r), rest);
    ReadShow(l, (op + Show(r)) + rest);
    Then(Show(l), Toks(l), op + Show(r), [t] + Toks(r), rest);
  }

  lemma {:induction false} ReadEnclosed(x: Expr, close: char, t: Token, rest: string)
    requires Showable(x) && (close == ')' || close == ']') && Operator(close) == Some(t)
    ensures Reads(Show(x) + [close], Toks(x) + [t], rest)
    decreases x, 2
  {
    ReadShow(x, [close] + rest);
    LexOperator(close, rest);
    Then(Show(x), Toks(x), [close], [t], rest);
  }

  lemma ReadField(f: string, rest: string)
    requires Name(f) && Boundary(rest)
    ensures Reads("." + f, [TDot, TIdent(f)], rest)
  {
    LexWord(f, rest);
    LexOperator('.', f + rest);
    Then(".", [TDot], f, [TIdent(f)], rest);
    assert [TDot] + [TIdent(f)] == [TDot, TIdent(f)];
  }

  lemma ReadFieldClose(f: string, rest: string)
    requires Name(f) && Boundary(rest)
    ensures Reads("." + (f + ")"), [TDot] + ([TIdent(f)] + [TRParen]), rest)
  {
    LexOperator(')', rest);
    LexWord(f, ")" + rest);
    Then(f, [TIdent(f)], ")", [TRParen], rest);
    LexOperator('.', (f + ")") + rest);
    Then(".", [TDot], f + ")", [TIdent(f)] + [TRParen], rest);
  }

  lemma {:induction false} ReadHas(e: Expr, rest: string)
    requires e.Has? && Showable(e) && Boundary(rest)
    ensures Reads(Show(e), Toks(e), rest)
    decreases e, 0
  {
    var x, f := e.e, e.field;
    var arg, argT := "." + (f + ")"), [TDot] + ([TIdent(f)] + [TRParen]);
    ReadFieldClose(f, rest);
    ReadShow(x, arg + rest);
    Then(Show(x), Toks(x), arg, argT, rest);
    LexOperator('(', (Show(x) + arg) + rest);
    Then("(", [TLParen], Show(x) + arg, Toks(x) + argT, rest);
    LexWord("has", ("(" + (Show(x) + arg)) + rest);
    Then("has", [TIdent("has")], "(" + (Show(x) + arg), [TLParen] + (Toks(x) + argT), rest);
    assert argT == [TDot, TIdent(f), TRParen];
    Assoc([TIdent("has")], [TLParen], Toks(x) + argT);
    assert [TIdent("has")] + [TLParen] == [TIdent("has"), TLParen];
  }

  lemma {:induction false} ReadCallText(e: Expr, rest: string)
    requires e.Call? && Showable(e) && Boundary(rest)
    ensures Reads(Show(e), Toks(e), rest)
    decreases e, 0
  {
    ReadEnclosed(e.arg, ')', TRParen, rest);
    var arg, argT := Show(e.arg) + ")", Toks(e.arg) + [TRParen];
    ReadSelector(e.method_, arg, argT, rest);
    ReadShow(e.e, ("." + (e.method_ + ("(" + arg))) + rest);
    Then(Show(e.e), Toks(e.e), "." + (e.method_ + ("(" + arg)), [TDot, TIdent(e.method_), TLParen] + argT, rest);
  }

  lemma ReadSelector(m: string, arg: string, argT: seq<Token>, rest: string)
    requires Name(m) && Reads(arg, argT, rest)
    ensures Reads("." + (m + ("(" + arg)), [TDot, TIdent(m), TLParen] + argT, rest)
  {
    LexOperator('(', arg + rest);
    Then("(", [TLParen], arg, argT, rest);
    LexWord(m, ("(" + arg) + rest);
    Then(m, [TIdent(m)], "(" + arg, [TLParen] + argT, rest);
    LexOperator('.', (m + ("(" + arg)) + rest);
    Then(".", [TDot], m + ("(" + arg), [TIdent(m)] + ([TLParen] + argT), rest);
    Assoc([TIdent(m)], [TLParen], argT);
    Assoc([TDot], [TIdent(m)] + [TLParen], argT);
    assert [TDot] + ([TIdent(m)] + [TLParen]) == [TDot, TIdent(m), TLParen];
  }

  lemma {:induction false} ShowStart(e: Expr)
    requires Showable(e)
    ensures Show(e) != "" && Show(e)[0] != '='
  {
    match e
    case Select(x, _) => ShowStart(x);
    case Index(x, _) => ShowStart(x);
    case Call(x, _, _) => ShowStart(x);
    case Rel(_, l, _) => ShowStart(l);
    case And(l, _) => ShowStart(l);
    case Or(l, _) => ShowStart(l);
    case Cond(c, _, _) => ShowStart(c);
    case _ =>
  }

  /** The text of every tree that obeys the precedence levels is read back as that tree. */
  lemma TextRoundTrip(e: Expr)
    requires WellFormed(e) && Showable(e)
    ensures Parse(Show(e)) == Some(e)
  {
    ReadShow(e, "");
    assert Show(e) + "" == Show(e);
    assert Lex("") == Some([]) && Toks(e) + [] == Toks(e);
    ParseIsInverseOfToks(Toks(e), e);
  }

  // ---------------------------------------------------------------- texts that are not plain

  predicate NoQuote(s: string) { forall i :: 0 <= i < |s| ==> s[i] != '\'' }

  lemma {:induction false} NoClosingQuote(s: string)
    requires NoQuote(s)
    ensures Single('\'', s) == NoLiteral && Triple('\'', s) == NoLiteral
    decreases |s|
  {
    if s != "" {
      NoClosingQuote(s[1..]);
      if s[0] == '\\' && Escape(s).Some? { NoClosingQuote(s[Escape(s).value.1..]); }
    }
  }

  /** A literal cut from `n'tail` is never longer than `n`, and shorter when `n` is not plain. */
  lemma {:induction false} SingleShrinks(n: string, tail: string)
    requires NoQuote(tail)
    ensures var r := Single('\'', n + ("'" + tail));
            r.Literal? ==> |r.value| <= |n| && (!Plain(n) ==> |r.value| < |n|)
    decreases |n|, 1
  {
    var s := n + ("'" + tail);
    if n != "" && n[0] != '\'' && !Newline(n[0]) {
      if n[0] == '\\' {
        SingleEscape(n, tail);
      } else {
        SingleShrinks(n[1..], tail);
        assert s[1..] == n[1..] + ("'" + tail);
        assert n == [n[0]] + n[1..];
      }
    }
  }

  lemma DropFrom(n: string, tail: string, k: nat)
    requires k <= |n| + 1 + |tail| && NoQuote(tail)
    ensures var s := n + ("'" + tail);
            if k <= |n| then s[k..] == n[k..] + ("'" + tail)
            else s[k..] == tail[k - |n| - 1..] && NoQuote(s[k..])
  {
  }

  lemma {:induction false} SingleEscape(n: string, tail: string)
    requires NoQuote(tail) && n != "" && n[0] == '\\'
    ensures var r := Single('\'', n + ("'" + tail));
            r.Literal? ==> |r.value| < |n|
    decreases |n|, 0
  {
    var s := n + ("'" + tail);
    if Escape(s).Some? {
      var k := Escape(s).value.1;
      DropFrom(n, tail, k);
      if k <= |n| { SingleShrinks(n[k..], tail); } else { NoClosingQuote(s[k..]); }
    }
  }

  lemma LoneQuote(tail: string)
    requires NoQuote(tail)
    ensures Triple('\'', "'" + tail) == NoLiteral
  {
    var s := "'" + tail;
    assert s[1..] == tail && (|s| >= 2 ==> s[1] == tail[0]);
    NoClosingQuote(tail);
  }

  lemma {:induction false} TripleShrinks(n: string, tail: string)
    requires NoQuote(tail)
    ensures var r := Triple('\'', n + ("'" + tail));
            r.Literal? ==> |r.value| <= |n|
    decreases |n|
  {
    if n == "" {
      assert n + ("'" + tail) == "'" + tail;
      LoneQuote(tail);
    } else if n[0] == '\\' {
      TripleEscape(n, tail);
    } else {
      var s := n + ("'" + tail);
      TripleShrinks(n[1..], tail);
      assert s[1..] == n[1..] + ("'" + tail);
    }
  }

  lemma {:induction false} TripleEscape(n: string, tail: string)
    requires NoQuote(tail) && n != "" && n[0] == '\\'
    ensures var r := Triple('\'', n + ("'" + tail));
            r.Literal? ==> |r.value| <= |n|
    decreases |n|, 0
  {
    var s := n + ("'" + tail);
    if Escape(s).Some? {
      var k := Escape(s).value.1;
      DropFrom(n, tail, k);
      if k <= |n| { TripleShrinks(n[k..], tail); } else { NoClosingQuote(s[k..]); }
    }
  }

  /** A name put between single quotes is read back exactly when it is plain. */
  lemma QuotedReadsBackIffPlain(name: string, tail: string)
    requires NoQuote(tail)
    ensures (exists rest :: ScanLiteral(Quoted(name) + tail) == Literal(name, rest)) <==> Plain(name)
  {
    var s := Quoted(name) + tail;
    assert s[0] == '\'' && s[1..] == name + ("'" + tail);
    assert tail != "" ==> tail[0] in tail;
    if Plain(name) {
      SingleOfPlain(name, tail);
      assert name != "" ==> s[1] == name[0] && name[0] in name;
      assert ScanLiteral(s) == Literal(name, tail);
    } else {
      SingleShrinks(name, tail);
      if |s| >= 3 && s[1] == s[2] == '\'' {
        if |name| == 1 {
          assert s[3..] == tail;
          NoClosingQuote(tail);
        } else {
          assert s[3..] == name[2..] + ("'" + tail);
          TripleShrinks(name[2..], tail);
        }
      }
    }
  }
}
