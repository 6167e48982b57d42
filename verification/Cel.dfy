/**
 * The fragment of the Common Expression Language that the generated quota policies use: the precedence
 * grammar of the section "Syntax" of the CEL Language Definition, as a printer of tokens and a parser, and
 * the proof that each is the inverse of the other.
 */
module Cel {
  import opened Util

  // ---------------------------------------------------------------- trees

  datatype RelOp = Eq | Ne | In

  /** Trees keep their parentheses, so the parser is an exact inverse of the token printer. */
  datatype Expr =
    | Ident(name: string)
    | Lit(b: bool)
    | Str(s: string)
    | Has(e: Expr, field: string)
    | Paren(e: Expr)
    | Select(e: Expr, field: string)
    | Index(e: Expr, key: Expr)
    | Call(e: Expr, method_: string, arg: Expr)
    | Not(e: Expr)
    | Rel(op: RelOp, l: Expr, r: Expr)
    | And(l: Expr, r: Expr)
    | Or(l: Expr, r: Expr)
    | Cond(c: Expr, t: Expr, f: Expr)

  datatype Token =
    | TIdent(name: string) | TStr(s: string) | TTrue | TFalse
    | TDot | TLParen | TRParen | TLBracket | TRBracket
    | TNot | TRel(op: RelOp) | TAndAnd | TOrOr | TQuestion | TColon

  /** The grammar level an expression belongs to: 0 is Expr, 1 ConditionalOr, 2 ConditionalAnd,
      3 Relation, 4 Unary, 5 Member, 6 Primary. */
  function Level(e: Expr): nat {
    match e
    case Cond(_, _, _) => 0
    case Or(_, _) => 1
    case And(_, _) => 2
    case Rel(_, _, _) => 3
    case Not(_) => 4
    case Select(_, _) => 5
    case Index(_, _) => 5
    case Call(_, _, _) => 5
    case _ => 6
  }

  /** Every operand sits at a level its production admits. */
  predicate WellFormed(e: Expr) {
    match e
    case Ident(name) => name != "has"
    case Lit(_) => true
    case Str(_) => true
    case Has(x, _) => WellFormed(x) && Level(x) >= 5
    case Paren(x) => WellFormed(x)
    case Select(x, _) => WellFormed(x) && Level(x) >= 5
    case Index(x, k) => WellFormed(x) && Level(x) >= 5 && WellFormed(k)
    case Call(x, _, a) => WellFormed(x) && Level(x) >= 5 && WellFormed(a)
    case Not(x) => WellFormed(x) && Level(x) >= 4
    case Rel(_, l, r) => WellFormed(l) && Level(l) >= 3 && WellFormed(r) && Level(r) >= 4
    case And(l, r) => WellFormed(l) && Level(l) >= 2 && WellFormed(r) && Level(r) >= 3
    case Or(l, r) => WellFormed(l) && Level(l) >= 1 && WellFormed(r) && Level(r) >= 2
    case Cond(c, t, f) =>
      WellFormed(c) && Level(c) >= 1 && WellFormed(t) && Level(t) >= 1 && WellFormed(f)
  }

  function Toks(e: Expr): seq<Token> {
    match e
    case Ident(name) => [TIdent(name)]
    case Lit(b) => [if b then TTrue else TFalse]
    case Str(s) => [TStr(s)]
    case Has(x, f) => [TIdent("has"), TLParen] + (Toks(x) + [TDot, TIdent(f), TRParen])
    case Paren(x) => [TLParen] + (Toks(x) + [TRParen])
    case Select(x, f) => Toks(x) + [TDot, TIdent(f)]
    case Index(x, k) => Toks(x) + ([TLBracket] + (Toks(k) + [TRBracket]))
    case Call(x, m, a) => Toks(x) + ([TDot, TIdent(m), TLParen] + (Toks(a) + [TRParen]))
    case Not(x) => [TNot] + Toks(x)
    case Rel(op, l, r) => Toks(l) + ([TRel(op)] + Toks(r))
    case And(l, r) => Toks(l) + ([TAndAnd] + Toks(r))
    case Or(l, r) => Toks(l) + ([TOrOr] + Toks(r))
    case Cond(c, t, f) => Toks(c) + ([TQuestion] + (Toks(t) + ([TColon] + Toks(f))))
  }

  // ---------------------------------------------------------------- parser

  datatype Parsed = Fail | Got(e: Expr, rest: seq<Token>)

  function ParseExpr(ts: seq<Token>): (r: Parsed)
    ensures r.Got? ==> |r.rest| < |ts|
    decreases |ts|, 6
  {
    match ParseOr(ts)
    case Fail => Fail
    case Got(c, r1) =>
      if r1 != [] && r1[0] == TQuestion then
        match ParseOr(r1[1..]) {
          case Fail => Fail
          case Got(t, r2) =>
            if r2 != [] && r2[0] == TColon then
              match ParseExpr(r2[1..]) {
                case Fail => Fail
                case Got(f, r3) => Got(Cond(c, t, f), r3)
              }
            else Fail
        }
      else Got(c, r1)
  }

  function ParseOr(ts: seq<Token>): (r: Parsed)
    ensures r.Got? ==> |r.rest| < |ts|
    decreases |ts|, 5
  {
    match ParseAnd(ts)
    case Fail => Fail
    case Got(e, rest) => OrTail(e, rest)
  }

  function OrTail(acc: Expr, ts: seq<Token>): (r: Parsed)
    ensures r.Got? ==> |r.rest| <= |ts|
    decreases |ts|, 5
  {
    if ts != [] && ts[0] == TOrOr then
      match ParseAnd(ts[1..])
      case Fail => Fail
      case Got(e, rest) => OrTail(Or(acc, e), rest)
    else Got(acc, ts)
  }

  function ParseAnd(ts: seq<Token>): (r: Parsed)
    ensures r.Got? ==> |r.rest| < |ts|
    decreases |ts|, 4
  {
    match ParseRel(ts)
    case Fail => Fail
    case Got(e, rest) => AndTail(e, rest)
  }

  function AndTail(acc: Expr, ts: seq<Token>): (r: Parsed)
    ensures r.Got? ==> |r.rest| <= |ts|
    decreases |ts|, 4
  {
    if ts != [] && ts[0] == TAndAnd then
      match ParseRel(ts[1..])
      case Fail => Fail
      case Got(e, rest) => AndTail(And(acc, e), rest)
    else Got(acc, ts)
  }

  function ParseRel(ts: seq<Token>): (r: Parsed)
    ensures r.Got? ==> |r.rest| < |ts|
    decreases |ts|, 3
  {
    match ParseUnary(ts)
    case Fail => Fail
    case Got(e, rest) => RelTail(e, rest)
  }

  function RelTail(acc: Expr, ts: seq<Token>): (r: Parsed)
    ensures r.Got? ==> |r.rest| <= |ts|
    decreases |ts|, 3
  {
    if ts != [] && ts[0].TRel? then
      match ParseUnary(ts[1..])
      case Fail => Fail
      case Got(e, rest) => RelTail(Rel(ts[0].op, acc, e), rest)
    else Got(acc, ts)
  }

  function ParseUnary(ts: seq<Token>): (r: Parsed)
    ensures r.Got? ==> |r.rest| < |ts|
    decreases |ts|, 2
  {
    if ts != [] && ts[0] == TNot then
      match ParseUnary(ts[1..])
      case Fail => Fail
      case Got(e, rest) => Got(Not(e), rest)
    else ParseMember(ts)
  }

  function ParseMember(ts: seq<Token>): (r: Parsed)
    ensures r.Got? ==> |r.rest| < |ts|
    decreases |ts|, 1
  {
    match ParsePrimary(ts)
    case Fail => Fail
    case Got(e, rest) => MemberTail(e, rest)
  }

  function MemberTail(acc: Expr, ts: seq<Token>): (r: Parsed)
    ensures r.Got? ==> |r.rest| <= |ts|
    decreases |ts|, 1
  {
    if |ts| >= 2 && ts[0] == TDot && ts[1].TIdent? then
      if |ts| >= 3 && ts[2] == TLParen then
        match ParseExpr(ts[3..]) {
          case Fail => Fail
          case Got(a, rest) =>
            if rest != [] && rest[0] == TRParen then MemberTail(Call(acc, ts[1].name, a), rest[1..]) else Fail
        }
      else MemberTail(Select(acc, ts[1].name), ts[2..])
    else if ts != [] && ts[0] == TLBracket then
      match ParseExpr(ts[1..])
      case Fail => Fail
      case Got(k, rest) =>
        if rest != [] && rest[0] == TRBracket then MemberTail(Index(acc, k), rest[1..]) else Fail
    else Got(acc, ts)
  }

  /** `has(e.f)` is a macro: any argument that is not a field selection is refused. */
  function ParsePrimary(ts: seq<Token>): (r: Parsed)
    ensures r.Got? ==> |r.rest| < |ts|
    decreases |ts|, 0
  {
    if ts == [] then Fail
    else match ts[0]
      case TTrue => Got(Lit(true), ts[1..])
      case TFalse => Got(Lit(false), ts[1..])
      case TStr(s) => Got(Str(s), ts[1..])
      case TIdent(name) =>
        if name != "has" then Got(Ident(name), ts[1..])
        else if |ts| >= 2 && ts[1] == TLParen then
          match ParseExpr(ts[2..]) {
            case Fail => Fail
            case Got(x, rest) =>
              if x.Select? && rest != [] && rest[0] == TRParen then Got(Has(x.e, x.field), rest[1..]) else Fail
          }
        else Fail
      case TLParen =>
        (match ParseExpr(ts[1..])
         case Fail => Fail
         case Got(x, rest) => if rest != [] && rest[0] == TRParen then Got(Paren(x), rest[1..]) else Fail)
      case _ => Fail
  }

  function ParseTokens(ts: seq<Token>): Option<Expr> {
    match ParseExpr(ts)
    case Fail => None
    case Got(e, rest) => if rest == [] then Some(e) else None
  }

  // ---------------------------------------------------------------- the parser reads back what is printed

  /** The lowest level whose production a following token would extend; -1 when it extends none. */
  function Extends(t: Token): int {
    match t
    case TQuestion => 0
    case TOrOr => 1
    case TAndAnd => 2
    case TRel(_) => 3
    case TDot => 5
    case TLBracket => 5
    case TLParen => 6
    case _ => -1
  }

  predicate Stops(rest: seq<Token>, level: int) {
    rest == [] || Extends(rest[0]) <= level
  }

  lemma {:induction false} ReadPrimary(e: Expr, rest: seq<Token>)
    requires WellFormed(e) && Level(e) == 6
    ensures ParsePrimary(Toks(e) + rest) == Got(e, rest)
    decreases e, 0
  {
    match e
    case Has(x, f) =>
      ReadSelectArg(x, f, rest);
      PrimaryHas(Toks(x) + ([TDot, TIdent(f)] + ([TRParen] + rest)), x, f, rest);
      HasToks(Toks(x), f, rest);
    case Paren(x) =>
      ReadExpr(x, [TRParen] + rest);
      PrimaryParen(Toks(x) + ([TRParen] + rest), x, rest);
      Infix([TLParen], Toks(x), [TRParen], rest);
    case Ident(_) => assert (Toks(e) + rest)[1..] == rest;
    case Lit(_) => assert (Toks(e) + rest)[1..] == rest;
    case Str(_) => assert (Toks(e) + rest)[1..] == rest;
  }

  lemma Infix(a: seq<Token>, b: seq<Token>, c: seq<Token>, rest: seq<Token>)
    ensures (a + (b + c)) + rest == a + (b + (c + rest))
  {
    Assoc(a, b + c, rest);
    Assoc(b, c, rest);
  }

  lemma HasToks(x: seq<Token>, f: string, rest: seq<Token>)
    ensures ([TIdent("has"), TLParen] + (x + [TDot, TIdent(f), TRParen])) + rest
         == [TIdent("has"), TLParen] + (x + ([TDot, TIdent(f)] + ([TRParen] + rest)))
  {
    Infix([TIdent("has"), TLParen], x, [TDot, TIdent(f), TRParen], rest);
    assert [TDot, TIdent(f), TRParen] + rest == [TDot, TIdent(f)] + ([TRParen] + rest);
  }

  lemma PrimaryHas(inner: seq<Token>, x: Expr, f: string, rest: seq<Token>)
    requires ParseExpr(inner) == Got(Select(x, f), [TRParen] + rest)
    ensures ParsePrimary([TIdent("has"), TLParen] + inner) == Got(Has(x, f), rest)
  {
    assert ([TIdent("has"), TLParen] + inner)[2..] == inner;
    assert ([TRParen] + rest)[1..] == rest;
  }

  lemma PrimaryParen(inner: seq<Token>, x: Expr, rest: seq<Token>)
    requires ParseExpr(inner) == Got(x, [TRParen] + rest)
    ensures ParsePrimary([TLParen] + inner) == Got(Paren(x), rest)
  {
    assert ([TLParen] + inner)[1..] == inner;
    assert ([TRParen] + rest)[1..] == rest;
  }

  lemma {:induction false} ReadSelectArg(x: Expr, f: string, rest: seq<Token>)
    requires WellFormed(x) && Level(x) >= 5
    ensures ParseExpr(Toks(x) + ([TDot, TIdent(f)] + ([TRParen] + rest))) == Got(Select(x, f), [TRParen] + rest)
    decreases x, 2
  {
    var close := [TRParen] + rest;
    ReadMember(x, [TDot, TIdent(f)] + close);
    MemberHead(x);
    TailSelect(x, f, close);
    assert MemberTail(Select(x, f), close) == Got(Select(x, f), close);
    FromMember(Toks(x) + ([TDot, TIdent(f)] + close), Select(x, f), close);
  }

  /** A member followed by a token no operator level extends is a whole expression. */
  lemma FromMember(ts: seq<Token>, e: Expr, rest: seq<Token>)
    requires ParseMember(ts) == Got(e, rest) && ts != [] && ts[0] != TNot
    requires Stops(rest, -1)
    ensures ParseExpr(ts) == Got(e, rest)
  {
    assert ParseUnary(ts) == Got(e, rest);
    assert ParseRel(ts) == Got(e, rest);
    assert ParseAnd(ts) == Got(e, rest);
    assert ParseOr(ts) == Got(e, rest);
  }

  lemma TailSelect(acc: Expr, f: string, rest: seq<Token>)
    requires Stops(rest, 5)
    ensures MemberTail(acc, [TDot, TIdent(f)] + rest) == MemberTail(Select(acc, f), rest)
  {
    assert ([TDot, TIdent(f)] + rest)[2..] == rest;
  }

  lemma TailIndex(acc: Expr, inner: seq<Token>, k: Expr, rest: seq<Token>)
    requires ParseExpr(inner) == Got(k, [TRBracket] + rest)
    ensures MemberTail(acc, [TLBracket] + inner) == MemberTail(Index(acc, k), rest)
  {
    assert ([TLBracket] + inner)[1..] == inner;
    assert ([TRBracket] + rest)[1..] == rest;
  }

  lemma TailCall(acc: Expr, m: string, inner: seq<Token>, a: Expr, rest: seq<Token>)
    requires ParseExpr(inner) == Got(a, [TRParen] + rest)
    ensures MemberTail(acc, [TDot, TIdent(m), TLParen] + inner) == MemberTail(Call(acc, m, a), rest)
  {
    assert ([TDot, TIdent(m), TLParen] + inner)[3..] == inner;
    assert ([TRParen] + rest)[1..] == rest;
  }

  lemma {:induction false} MemberHead(e: Expr)
    requires WellFormed(e) && Level(e) >= 5
    ensures Toks(e) != [] && Toks(e)[0] != TNot
  {
    if e.Select? || e.Index? || e.Call? { MemberHead(e.e); }
  }

  lemma {:induction false} ReadMember(e: Expr, rest: seq<Token>)
    requires WellFormed(e) && Level(e) >= 5 && Stops(rest, 5)
    ensures ParseMember(Toks(e) + rest) == MemberTail(e, rest)
    decreases e, 1
  {
    if e.Select? {
      ReadMember(e.e, [TDot, TIdent(e.field)] + rest);
      TailSelect(e.e, e.field, rest);
      Assoc(Toks(e.e), [TDot, TIdent(e.field)], rest);
    } else if e.Index? {
      ReadIndex(e, rest);
    } else if e.Call? {
      ReadCall(e, rest);
    } else {
      ReadPrimary(e, rest);
    }
  }

  lemma {:induction false} ReadIndex(e: Expr, rest: seq<Token>)
    requires WellFormed(e) && e.Index? && Stops(rest, 5)
    ensures ParseMember(Toks(e) + rest) == MemberTail(e, rest)
    decreases e, 0
  {
    var inner := Toks(e.key) + ([TRBracket] + rest);
    ReadMember(e.e, [TLBracket] + inner);
    ReadExpr(e.key, [TRBracket] + rest);
    TailIndex(e.e, inner, e.key, rest);
    assert Toks(e) + rest == Toks(e.e) + ([TLBracket] + inner) by {
      Assoc(Toks(e.e), [TLBracket] + (Toks(e.key) + [TRBracket]), rest);
      Assoc([TLBracket], Toks(e.key) + [TRBracket], rest);
      Assoc(Toks(e.key), [TRBracket], rest);
    }
  }

  lemma {:induction false} ReadCall(e: Expr, rest: seq<Token>)
    requires WellFormed(e) && e.Call? && Stops(rest, 5)
    ensures ParseMember(Toks(e) + rest) == MemberTail(e, rest)
    decreases e, 0
  {
    var open := [TDot, TIdent(e.method_), TLParen];
    var inner := Toks(e.arg) + ([TRParen] + rest);
    ReadMember(e.e, open + inner);
    ReadExpr(e.arg, [TRParen] + rest);
    TailCall(e.e, e.method_, inner, e.arg, rest);
    assert Toks(e) + rest == Toks(e.e) + (open + inner) by {
      Assoc(Toks(e.e), open + (Toks(e.arg) + [TRParen]), rest);
      Assoc(open, Toks(e.arg) + [TRParen], rest);
      Assoc(Toks(e.arg), [TRParen], rest);
    }
  }

  lemma {:induction false} ReadUnary(e: Expr, rest: seq<Token>)
    requires WellFormed(e) && Level(e) >= 4 && Stops(rest, 4)
    ensures ParseUnary(Toks(e) + rest) == Got(e, rest)
    decreases e, 2
  {
    if e.Not? {
      ReadUnary(e.e, rest);
      Assoc([TNot], Toks(e.e), rest);
      assert ([TNot] + (Toks(e.e) + rest))[1..] == Toks(e.e) + rest;
    } else {
      ReadMember(e, rest);
      MemberHead(e);
    }
  }

  lemma {:induction false} ReadRel(e: Expr, rest: seq<Token>)
    requires WellFormed(e) && Level(e) >= 3 && Stops(rest, 3)
    ensures ParseRel(Toks(e) + rest) == RelTail(e, rest)
    decreases e, 3
  {
    if e.Rel? {
      var tail := [TRel(e.op)] + (Toks(e.r) + rest);
      ReadRel(e.l, tail);
      Infix(Toks(e.l), [TRel(e.op)], Toks(e.r), rest);
      assert tail[1..] == Toks(e.r) + rest;
      ReadUnary(e.r, rest);
    } else {
      ReadUnary(e, rest);
    }
  }

  lemma {:induction false} ReadAnd(e: Expr, rest: seq<Token>)
    requires WellFormed(e) && Level(e) >= 2 && Stops(rest, 2)
    ensures ParseAnd(Toks(e) + rest) == AndTail(e, rest)
    decreases e, 4
  {
    if e.And? {
      var tail := [TAndAnd] + (Toks(e.r) + rest);
      ReadAnd(e.l, tail);
      Infix(Toks(e.l), [TAndAnd], Toks(e.r), rest);
      assert tail[1..] == Toks(e.r) + rest;
      ReadRel(e.r, rest);
    } else {
      ReadRel(e, rest);
    }
  }

  lemma {:induction false} ReadOr(e: Expr, rest: seq<Token>)
    requires WellFormed(e) && Level(e) >= 1 && Stops(rest, 1)
    ensures ParseOr(Toks(e) + rest) == OrTail(e, rest)
    decreases e, 5
  {
    if e.Or? {
      var tail := [TOrOr] + (Toks(e.r) + rest);
      ReadOr(e.l, tail);
      Infix(Toks(e.l), [TOrOr], Toks(e.r), rest);
      assert tail[1..] == Toks(e.r) + rest;
      ReadAnd(e.r, rest);
    } else {
      ReadAnd(e, rest);
    }
  }

  lemma {:induction false} ReadExpr(e: Expr, rest: seq<Token>)
    requires WellFormed(e) && Stops(rest, -1)
    ensures ParseExpr(Toks(e) + rest) == Got(e, rest)
    decreases e, 6
  {
    if e.Cond? {
      var tail2 := [TColon] + (Toks(e.f) + rest);
      var tail1 := [TQuestion] + (Toks(e.t) + tail2);
      ReadOr(e.c, tail1);
      ReadOr(e.t, tail2);
      ReadExpr(e.f, rest);
      CondStep(Toks(e.c) + tail1, e.c, Toks(e.t) + tail2, e.t, Toks(e.f) + rest, e.f, rest);
      CondToks(e, rest);
    } else {
      ReadOr(e, rest);
    }
  }

  lemma CondToks(e: Expr, rest: seq<Token>)
    requires e.Cond?
    ensures Toks(e) + rest
         == Toks(e.c) + ([TQuestion] + (Toks(e.t) + ([TColon] + (Toks(e.f) + rest))))
  {
    var last := [TColon] + Toks(e.f);
    Assoc(Toks(e.c), [TQuestion] + (Toks(e.t) + last), rest);
    Assoc([TQuestion], Toks(e.t) + last, rest);
    Assoc(Toks(e.t), last, rest);
    Assoc([TColon], Toks(e.f), rest);
  }

  lemma CondStep(ts: seq<Token>, c: Expr, ts1: seq<Token>, t: Expr, ts2: seq<Token>, f: Expr, rest: seq<Token>)
    requires ParseOr(ts) == Got(c, [TQuestion] + ts1)
    requires ParseOr(ts1) == Got(t, [TColon] + ts2)
    requires ParseExpr(ts2) == Got(f, rest)
    ensures ParseExpr(ts) == Got(Cond(c, t, f), rest)
  {
    assert ([TQuestion] + ts1)[1..] == ts1;
    assert ([TColon] + ts2)[1..] == ts2;
  }

  // ---------------------------------------------------------------- and reads nothing else

  /** What a successful parse at a level means: the tree prints as exactly the consumed tokens. */
  ghost predicate Sound(r: Parsed, ts: seq<Token>, level: nat) {
    r.Got? ==> WellFormed(r.e) && Level(r.e) >= level && Toks(r.e) + r.rest == ts
  }

  /** The same for a tail that started from an accumulated tree. */
  ghost predicate SoundTail(r: Parsed, acc: Expr, ts: seq<Token>, level: nat) {
    r.Got? ==> WellFormed(r.e) && Level(r.e) >= level && Toks(r.e) + r.rest == Toks(acc) + ts
  }

  lemma {:induction false} SoundExpr(ts: seq<Token>)
    ensures Sound(ParseExpr(ts), ts, 0)
    decreases |ts|, 6
  {
    SoundOr(ts);
    var p := ParseOr(ts);
    if p.Got? && p.rest != [] && p.rest[0] == TQuestion {
      SoundOr(p.rest[1..]);
      var q := ParseOr(p.rest[1..]);
      if q.Got? && q.rest != [] && q.rest[0] == TColon {
        SoundExpr(q.rest[1..]);
        var r := ParseExpr(q.rest[1..]);
        assert q.rest == [TColon] + q.rest[1..];
        assert p.rest == [TQuestion] + p.rest[1..];
        if r.Got? { CondToks(Cond(p.e, q.e, r.e), r.rest); }
      }
    }
  }

  lemma {:induction false} SoundOr(ts: seq<Token>)
    ensures Sound(ParseOr(ts), ts, 1)
    decreases |ts|, 5
  {
    SoundAnd(ts);
    if ParseAnd(ts).Got? { SoundOrTail(ParseAnd(ts).e, ParseAnd(ts).rest); }
  }

  lemma {:induction false} SoundOrTail(acc: Expr, ts: seq<Token>)
    requires WellFormed(acc) && Level(acc) >= 1
    ensures SoundTail(OrTail(acc, ts), acc, ts, 1)
    decreases |ts|, 5
  {
    if ts != [] && ts[0] == TOrOr {
      SoundAnd(ts[1..]);
      var p := ParseAnd(ts[1..]);
      if p.Got? {
        SoundOrTail(Or(acc, p.e), p.rest);
        assert ts == [TOrOr] + (Toks(p.e) + p.rest);
      }
    }
  }

  lemma {:induction false} SoundAnd(ts: seq<Token>)
    ensures Sound(ParseAnd(ts), ts, 2)
    decreases |ts|, 4
  {
    SoundRel(ts);
    if ParseRel(ts).Got? { SoundAndTail(ParseRel(ts).e, ParseRel(ts).rest); }
  }

  lemma {:induction false} SoundAndTail(acc: Expr, ts: seq<Token>)
    requires WellFormed(acc) && Level(acc) >= 2
    ensures SoundTail(AndTail(acc, ts), acc, ts, 2)
    decreases |ts|, 4
  {
    if ts != [] && ts[0] == TAndAnd {
      SoundRel(ts[1..]);
      var p := ParseRel(ts[1..]);
      if p.Got? {
        SoundAndTail(And(acc, p.e), p.rest);
        assert ts == [TAndAnd] + (Toks(p.e) + p.rest);
      }
    }
  }

  lemma {:induction false} SoundRel(ts: seq<Token>)
    ensures Sound(ParseRel(ts), ts, 3)
    decreases |ts|, 3
  {
    SoundUnary(ts);
    if ParseUnary(ts).Got? { SoundRelTail(ParseUnary(ts).e, ParseUnary(ts).rest); }
  }

  lemma {:induction false} SoundRelTail(acc: Expr, ts: seq<Token>)
    requires WellFormed(acc) && Level(acc) >= 3
    ensures SoundTail(RelTail(acc, ts), acc, ts, 3)
    decreases |ts|, 3
  {
    if ts != [] && ts[0].TRel? {
      SoundUnary(ts[1..]);
      var p := ParseUnary(ts[1..]);
      if p.Got? {
        SoundRelTail(Rel(ts[0].op, acc, p.e), p.rest);
        assert ts == [TRel(ts[0].op)] + (Toks(p.e) + p.rest);
      }
    }
  }

  lemma {:induction false} SoundUnary(ts: seq<Token>)
    ensures Sound(ParseUnary(ts), ts, 4)
    decreases |ts|, 2
  {
    if ts != [] && ts[0] == TNot {
      SoundUnary(ts[1..]);
      assert ts == [TNot] + ts[1..];
    } else {
      SoundMember(ts);
    }
  }

  lemma {:induction false} SoundMember(ts: seq<Token>)
    ensures Sound(ParseMember(ts), ts, 5)
    decreases |ts|, 1
  {
    SoundPrimary(ts);
    if ParsePrimary(ts).Got? { SoundMemberTail(ParsePrimary(ts).e, ParsePrimary(ts).rest); }
  }

  lemma {:induction false} SoundMemberTail(acc: Expr, ts: seq<Token>)
    requires WellFormed(acc) && Level(acc) >= 5
    ensures SoundTail(MemberTail(acc, ts), acc, ts, 5)
    decreases |ts|, 1
  {
    if |ts| >= 2 && ts[0] == TDot && ts[1].TIdent? {
      if |ts| >= 3 && ts[2] == TLParen {
        SoundCallTail(acc, ts);
      } else {
        SoundMemberTail(Select(acc, ts[1].name), ts[2..]);
        assert ts == [TDot, TIdent(ts[1].name)] + ts[2..];
      }
    } else if ts != [] && ts[0] == TLBracket {
      SoundIndexTail(acc, ts);
    }
  }

  lemma {:induction false} SoundCallTail(acc: Expr, ts: seq<Token>)
    requires WellFormed(acc) && Level(acc) >= 5 && |ts| >= 3 && ts[0] == TDot && ts[1].TIdent? && ts[2] == TLParen
    ensures SoundTail(MemberTail(acc, ts), acc, ts, 5)
    decreases |ts|, 0
  {
    SoundExpr(ts[3..]);
    var p := ParseExpr(ts[3..]);
    if p.Got? && p.rest != [] && p.rest[0] == TRParen {
      SoundMemberTail(Call(acc, ts[1].name, p.e), p.rest[1..]);
      CallToks(acc, ts, p.e, p.rest);
    }
  }

  lemma {:induction false} SoundIndexTail(acc: Expr, ts: seq<Token>)
    requires WellFormed(acc) && Level(acc) >= 5 && ts != [] && ts[0] == TLBracket
    ensures SoundTail(MemberTail(acc, ts), acc, ts, 5)
    decreases |ts|, 0
  {
    SoundExpr(ts[1..]);
    var p := ParseExpr(ts[1..]);
    if p.Got? && p.rest != [] && p.rest[0] == TRBracket {
      SoundMemberTail(Index(acc, p.e), p.rest[1..]);
      IndexToks(acc, ts, p.e, p.rest);
    }
  }

  lemma CallToks(acc: Expr, ts: seq<Token>, a: Expr, rest: seq<Token>)
    requires |ts| >= 3 && ts[0] == TDot && ts[1].TIdent? && ts[2] == TLParen
    requires rest != [] && rest[0] == TRParen && Toks(a) + rest == ts[3..]
    ensures Toks(Call(acc, ts[1].name, a)) + rest[1..] == Toks(acc) + ts
  {
    var open := [TDot, TIdent(ts[1].name), TLParen];
    assert ts == open + (Toks(a) + rest);
    assert rest == [TRParen] + rest[1..];
  }

  lemma IndexToks(acc: Expr, ts: seq<Token>, k: Expr, rest: seq<Token>)
    requires ts != [] && ts[0] == TLBracket
    requires rest != [] && rest[0] == TRBracket && Toks(k) + rest == ts[1..]
    ensures Toks(Index(acc, k)) + rest[1..] == Toks(acc) + ts
  {
    assert ts == [TLBracket] + (Toks(k) + rest);
    assert rest == [TRBracket] + rest[1..];
  }

  lemma {:induction false} SoundPrimary(ts: seq<Token>)
    ensures Sound(ParsePrimary(ts), ts, 6)
    decreases |ts|, 0
  {
    if ts != [] {
      assert ts == [ts[0]] + ts[1..];
      if ts[0] == TLParen {
        SoundExpr(ts[1..]);
        var p := ParseExpr(ts[1..]);
        if p.Got? && p.rest != [] && p.rest[0] == TRParen { ParenToks(p.e, ts, p.rest); }
      } else if ts[0] == TIdent("has") && |ts| >= 2 && ts[1] == TLParen {
        SoundExpr(ts[2..]);
        var p := ParseExpr(ts[2..]);
        if p.Got? && p.rest != [] && p.rest[0] == TRParen && p.e.Select? { HasToksBack(p.e.e, p.e.field, ts, p.rest); }
      }
    }
  }

  lemma ParenToks(x: Expr, ts: seq<Token>, rest: seq<Token>)
    requires ts != [] && ts[0] == TLParen && rest != [] && rest[0] == TRParen && Toks(x) + rest == ts[1..]
    ensures Toks(Paren(x)) + rest[1..] == ts
  {
    assert ts == [TLParen] + ts[1..] && rest == [TRParen] + rest[1..];
    Infix([TLParen], Toks(x), [TRParen], rest[1..]);
  }

  lemma HasToksBack(x: Expr, f: string, ts: seq<Token>, rest: seq<Token>)
    requires |ts| >= 2 && ts[0] == TIdent("has") && ts[1] == TLParen
    requires rest != [] && rest[0] == TRParen && Toks(Select(x, f)) + rest == ts[2..]
    ensures Toks(Has(x, f)) + rest[1..] == ts
  {
    assert ts == [TIdent("has"), TLParen] + ts[2..] && rest == [TRParen] + rest[1..];
    HasToks(Toks(x), f, rest[1..]);
    Assoc(Toks(x), [TDot, TIdent(f)], rest);
  }

  /** The grammar is unambiguous: a token list has the tree `e` exactly when `e` obeys the precedence
      levels and prints as that list. */
  lemma ParseIsInverseOfToks(ts: seq<Token>, e: Expr)
    ensures ParseTokens(ts) == Some(e) <==> WellFormed(e) && Toks(e) == ts
  {
    SoundExpr(ts);
    if WellFormed(e) && Toks(e) == ts {
      ReadExpr(e, []);
      assert Toks(e) + [] == ts;
    }
  }
}
