/**
 * platform/okf/generate_quota_enforcement.py, _render_trlp: the guards of the template's lines, and which limits
 * they let through, however the limits themselves are written. QuotaLimits says how they are.
 */
module QuotaTemplate {
  import opened Util
  import opened Quota
  import opened QuotaScalars

  datatype Budget = Budget(budget: int, window: string)

  /** One quota class: the token budget of every dimension that declares a non-empty one. */
  datatype ClassPolicy = ClassPolicy(name: string, tokens: map<Dim, Budget>)

  /** What a template guard can read from the chart's values. */
  datatype Flag =
    | Enabled | TargetName | TargetNamespace | Username | AttachmentValid | NonStandardClasses | ProjectDimension

  /** One limit: it stands for the ten lines the generator writes for it. */
  datatype Entry = Entry(key: string, rate: Budget, counter: Scalar, whens: seq<Scalar>)

  datatype Line =
    | If(flags: seq<Flag>)
    | IfNot(flags: seq<Flag>)
    | End
    | FailLine
    | Static
    | Limit(entry: Entry)

  // ---------------------------------------------------------------- the generator

  /** How the limit of a class and a dimension is written. */
  type Writer = (string, Dim, Budget) -> Entry

  function Dims(): seq<Dim> { [User, Group, Project] }

  function Guards(cls: string, d: Dim): seq<Flag> {
    (if cls == "standard" then [] else [NonStandardClasses]) + (if d == Project then [ProjectDimension] else [])
  }

  function Block(c: ClassPolicy, d: Dim, mk: Writer): seq<Line> {
    if d !in c.tokens then []
    else
      var line := [Limit(mk(c.name, d, c.tokens[d]))];
      var guards := Guards(c.name, d);
      if guards == [] then line else [If(guards)] + (line + [End])
  }

  function DimBlocks(c: ClassPolicy, dims: seq<Dim>, mk: Writer): seq<Line> {
    if dims == [] then []
    else DimBlocks(c, dims[..|dims| - 1], mk) + Block(c, dims[|dims| - 1], mk)
  }

  function ClassBlocks(classes: seq<ClassPolicy>, mk: Writer): seq<Line> {
    if classes == [] then []
    else ClassBlocks(classes[..|classes| - 1], mk) + DimBlocks(classes[|classes| - 1], Dims(), mk)
  }

  function Preamble(): seq<Line> {
    [If([Enabled]), IfNot([TargetName, TargetNamespace]), FailLine, End,
     IfNot([Username]), FailLine, End, IfNot([AttachmentValid]), FailLine, End, Static]
  }

  /** One class's turn of the loop. */
  method AppendClass(start: seq<Line>, c: ClassPolicy, write: Writer, ghost mk: Writer)
    returns (lines: seq<Line>)
    requires forall cls, d, b :: write(cls, d, b) == mk(cls, d, b)
    ensures lines == start + DimBlocks(c, Dims(), mk)
  {
    lines := start;
    var dims := Dims();
    for j := 0 to |dims|
      invariant lines == start + DimBlocks(c, dims[..j], mk)
    {
      var d := dims[j];
      assert dims[..j + 1][..j] == dims[..j];
      Assoc(start, DimBlocks(c, dims[..j], mk), Block(c, d, mk));
      if d !in c.tokens {
        continue;
      }
      var guards: seq<Flag> := [];
      if c.name != "standard" {
        guards := guards + [NonStandardClasses];
      }
      if d != User && d != Group {
        guards := guards + [ProjectDimension];
      }
      assert guards == Guards(c.name, d);
      var entry := write(c.name, d, c.tokens[d]);
      ghost var before := lines;
      if guards != [] {
        lines := lines + [If(guards)];
      }
      lines := lines + [Limit(entry)];
      if guards != [] {
        lines := lines + [End];
        assert lines == before + ([If(guards)] + ([Limit(entry)] + [End]));
      }
      assert lines == before + Block(c, d, mk);
    }
    assert dims[..|dims|] == dims;
  }

  function Template(classes: seq<ClassPolicy>, mk: Writer): seq<Line> {
    Preamble() + ClassBlocks(classes, mk) + [End]
  }

  // ---------------------------------------------------------------- the interpreter

  /** Every guard is closed, and none is closed that was not opened. */
  predicate Balanced(lines: seq<Line>, depth: nat) {
    if lines == [] then depth == 0
    else match lines[0]
      case If(_) => Balanced(lines[1..], depth + 1)
      case IfNot(_) => Balanced(lines[1..], depth + 1)
      case End => depth > 0 && Balanced(lines[1..], depth - 1)
      case _ => Balanced(lines[1..], depth)
  }

  datatype Rendering = Refused | Rendered(entries: seq<Entry>)

  predicate AllOn(flags: seq<Flag>, on: set<Flag>) { forall i :: 0 <= i < |flags| ==> flags[i] in on }

  predicate Live(stack: seq<bool>) { forall i :: 0 <= i < |stack| ==> stack[i] }

  /** The entries a template renders under the values `on`; `stack` holds the open guards, innermost first. */
  function Render(lines: seq<Line>, on: set<Flag>, stack: seq<bool>): Rendering {
    if lines == [] then Rendered([])
    else match lines[0]
      case If(flags) => Render(lines[1..], on, [AllOn(flags, on)] + stack)
      case IfNot(flags) => Render(lines[1..], on, [!AllOn(flags, on)] + stack)
      case End => if stack == [] then Refused else Render(lines[1..], on, stack[1..])
      case FailLine => if Live(stack) then Refused else Render(lines[1..], on, stack)
      case Static => Render(lines[1..], on, stack)
      case Limit(e) =>
        match Render(lines[1..], on, stack)
        case Refused => Refused
        case Rendered(es) => Rendered(if Live(stack) then [e] + es else es)
  }

  // ---------------------------------------------------------------- what is rendered

  predicate Switched(cls: string, d: Dim, on: set<Flag>) {
    (cls == "standard" || NonStandardClasses in on) && (d != Project || ProjectDimension in on)
  }

  function RenderedDims(c: ClassPolicy, dims: seq<Dim>, mk: Writer, on: set<Flag>): seq<Entry> {
    if dims == [] then []
    else
      var d := dims[|dims| - 1];
      RenderedDims(c, dims[..|dims| - 1], mk, on)
      + (if d in c.tokens && Switched(c.name, d, on) then [mk(c.name, d, c.tokens[d])] else [])
  }

  function RenderedClasses(classes: seq<ClassPolicy>, mk: Writer, on: set<Flag>): seq<Entry> {
    if classes == [] then []
    else
      RenderedClasses(classes[..|classes| - 1], mk, on)
      + RenderedDims(classes[|classes| - 1], Dims(), mk, on)
  }

  function Prefixed(es: seq<Entry>, r: Rendering): Rendering {
    match r case Refused => Refused case Rendered(more) => Rendered(es + more)
  }

  /** A balanced piece of template that renders `es` whatever follows it, and nothing under a closed guard. */
  ghost predicate Piece(lines: seq<Line>, es: seq<Entry>, on: set<Flag>, live: bool, rest: seq<Line>) {
    Render(lines + rest, on, [live]) == Prefixed(if live then es else [], Render(rest, on, [live]))
    && (forall depth: nat :: Balanced(lines + rest, depth) == Balanced(rest, depth))
  }

  lemma GuardsOn(cls: string, d: Dim, on: set<Flag>)
    ensures AllOn(Guards(cls, d), on) <==> Switched(cls, d, on)
  {
    var a: seq<Flag> := if cls == "standard" then [] else [NonStandardClasses];
    var b: seq<Flag> := if d == Project then [ProjectDimension] else [];
    assert AllOn(a, on) <==> cls == "standard" || NonStandardClasses in on by {
      assert a != [] ==> a[0] == NonStandardClasses;
    }
    assert AllOn(b, on) <==> d != Project || ProjectDimension in on by { assert b != [] ==> b[0] == ProjectDimension; }
    AllOnConcat(a, b, on);
  }

  lemma AllOnConcat(a: seq<Flag>, b: seq<Flag>, on: set<Flag>)
    ensures AllOn(a + b, on) <==> AllOn(a, on) && AllOn(b, on)
  {
    if AllOn(a + b, on) {
      assert forall i :: 0 <= i < |a| ==> a[i] == (a + b)[i];
      assert forall i :: 0 <= i < |b| ==> b[i] == (a + b)[|a| + i];
    }
  }

  lemma BlockPiece(c: ClassPolicy, d: Dim, mk: Writer, on: set<Flag>, live: bool, rest: seq<Line>)
    ensures Piece(Block(c, d, mk),
                  if d in c.tokens && Switched(c.name, d, on) then [mk(c.name, d, c.tokens[d])] else [],
                  on, live, rest)
  {
    var lines := Block(c, d, mk) + rest;
    var guards := Guards(c.name, d);
    if d !in c.tokens {
      assert lines == rest;
    } else if guards == [] {
      GuardsOn(c.name, d, on);
      assert [live][0] == live;
      assert lines[1..] == rest && Live([live]) == live;
      var r := Render(rest, on, [live]);
      if r.Rendered? { assert [] + r.entries == r.entries; }
    } else {
      GuardsOn(c.name, d, on);
      var entry := mk(c.name, d, c.tokens[d]);
      GuardedPiece(entry, guards, on, live, rest);
    }
  }

  lemma GuardedPiece(e: Entry, guards: seq<Flag>, on: set<Flag>, live: bool, rest: seq<Line>)
    ensures Piece([If(guards)] + ([Limit(e)] + [End]), if AllOn(guards, on) then [e] else [], on, live, rest)
  {
    var lines := [If(guards)] + ([Limit(e)] + [End]) + rest;
    var tail2 := [End] + rest;
    var tail1 := [Limit(e)] + tail2;
    assert lines[1..] == tail1 && tail1[1..] == tail2 && tail2[1..] == rest;
    var open := AllOn(guards, on);
    var stack := [open] + [live];
    assert stack[1..] == [live];
    assert Render(tail2, on, stack) == Render(rest, on, [live]);
    assert Live(stack) == (open && live) by { assert stack[0] == open && stack[1] == live; }
    if Render(rest, on, [live]).Rendered? {
      assert [] + Render(rest, on, [live]).entries == Render(rest, on, [live]).entries;
    }
    forall depth: nat ensures Balanced(lines, depth) == Balanced(rest, depth) {
      assert Balanced(lines, depth) == Balanced(tail1, depth + 1) == Balanced(tail2, depth + 1);
    }
  }

  lemma PieceThen(a: seq<Line>, ea: seq<Entry>, b: seq<Line>, eb: seq<Entry>, on: set<Flag>, live: bool,
                  rest: seq<Line>)
    requires Piece(a, ea, on, live, b + rest) && Piece(b, eb, on, live, rest)
    ensures Piece(a + b, ea + eb, on, live, rest)
  {
    Assoc(a, b, rest);
    var r := Render(rest, on, [live]);
    if r.Rendered? { Assoc(ea, eb, r.entries); }
  }

  lemma {:induction false} DimsPiece(c: ClassPolicy, dims: seq<Dim>, mk: Writer, on: set<Flag>, live: bool,
                                     rest: seq<Line>)
    ensures Piece(DimBlocks(c, dims, mk), RenderedDims(c, dims, mk, on), on, live, rest)
  {
    if dims == [] {
      EmptyPiece(on, live, rest);
    } else {
      var init, d := dims[..|dims| - 1], dims[|dims| - 1];
      BlockPiece(c, d, mk, on, live, rest);
      DimsPiece(c, init, mk, on, live, Block(c, d, mk) + rest);
      PieceThen(DimBlocks(c, init, mk), RenderedDims(c, init, mk, on), Block(c, d, mk),
                if d in c.tokens && Switched(c.name, d, on) then [mk(c.name, d, c.tokens[d])] else [],
                on, live, rest);
    }
  }

  lemma EmptyPiece(on: set<Flag>, live: bool, rest: seq<Line>)
    ensures Piece([], [], on, live, rest)
  {
    assert [] + rest == rest;
    var r := Render(rest, on, [live]);
    if r.Rendered? { assert [] + r.entries == r.entries; }
  }

  lemma {:induction false} ClassesPiece(classes: seq<ClassPolicy>, mk: Writer, on: set<Flag>, live: bool,
                                        rest: seq<Line>)
    ensures Piece(ClassBlocks(classes, mk), RenderedClasses(classes, mk, on), on, live, rest)
  {
    if classes == [] {
      EmptyPiece(on, live, rest);
    } else {
      var init, c := classes[..|classes| - 1], classes[|classes| - 1];
      DimsPiece(c, Dims(), mk, on, live, rest);
      ClassesPiece(init, mk, on, live, DimBlocks(c, Dims(), mk) + rest);
      PieceThen(ClassBlocks(init, mk), RenderedClasses(init, mk, on), DimBlocks(c, Dims(), mk),
                RenderedDims(c, Dims(), mk, on), on, live, rest);
    }
  }

  /** The template as a whole: nothing when the policy is switched off, refused when a required value is
      missing, and otherwise exactly the declared limits whose guards are on. */
  lemma TemplateRenders(classes: seq<ClassPolicy>, mk: Writer, on: set<Flag>)
    ensures Balanced(Template(classes, mk), 0)
    ensures Render(Template(classes, mk), on, [])
         == if Enabled !in on then Rendered([])
            else if {TargetName, TargetNamespace, Username, AttachmentValid} <= on then
              Rendered(RenderedClasses(classes, mk, on))
            else Refused
  {
    var live := Enabled in on;
    var blocks, end := ClassBlocks(classes, mk), [End];
    ClassesPiece(classes, mk, on, live, end);
    assert end[1..] == [];
    assert Render(end, on, [live]) == Rendered([]) && Balanced(end, 1);
    var es := RenderedClasses(classes, mk, on);
    assert es + [] == es;
    Assoc(Preamble(), blocks, end);
    PreambleRenders(on, blocks + end);
    PreambleBalance(blocks + end);
  }

  lemma PreambleRenders(on: set<Flag>, rest: seq<Line>)
    ensures Render(Preamble() + rest, on, [])
         == if Enabled in on && !({TargetName, TargetNamespace, Username, AttachmentValid} <= on) then Refused
            else Render(rest, on, [Enabled in on])
  {
    var live := Enabled in on;
    var l3 := [Static] + rest;
    var l2 := [IfNot([AttachmentValid]), FailLine, End] + l3;
    var l1 := [IfNot([Username]), FailLine, End] + l2;
    var l0 := [IfNot([TargetName, TargetNamespace]), FailLine, End] + l1;
    assert Preamble() + rest == [If([Enabled])] + l0;
    assert ([If([Enabled])] + l0)[1..] == l0 && [live] + [] == [live];
    assert AllOn([Enabled], on) == live by { assert [Enabled][0] == Enabled; }
    RequiredValue([TargetName, TargetNamespace], on, live, l1);
    RequiredValue([Username], on, live, l2);
    RequiredValue([AttachmentValid], on, live, l3);
    assert l3[1..] == rest;
    assert AllOn([TargetName, TargetNamespace], on) <==> TargetName in on && TargetNamespace in on by {
      var fs := [TargetName, TargetNamespace];
      assert fs[0] == TargetName && fs[1] == TargetNamespace;
    }
    assert AllOn([Username], on) <==> Username in on by { assert [Username][0] == Username; }
    assert AllOn([AttachmentValid], on) <==> AttachmentValid in on by {
      assert [AttachmentValid][0] == AttachmentValid;
    }
  }

  lemma RequiredValue(flags: seq<Flag>, on: set<Flag>, live: bool, rest: seq<Line>)
    ensures Render([IfNot(flags), FailLine, End] + rest, on, [live])
         == if live && !AllOn(flags, on) then Refused else Render(rest, on, [live])
  {
    var missing := !AllOn(flags, on);
    var stack := [missing] + [live];
    var l2 := [End] + rest;
    var l1 := [FailLine] + l2;
    var l0 := [IfNot(flags)] + l1;
    assert [IfNot(flags), FailLine, End] + rest == l0;
    assert l0[1..] == l1 && l1[1..] == l2 && l2[1..] == rest && stack[1..] == [live];
    assert Live(stack) == (missing && live) by { assert stack[0] == missing && stack[1] == live; }
    assert Render(l0, on, [live]) == Render(l1, on, stack);
    assert Render(l2, on, stack) == Render(rest, on, [live]);
  }

  lemma PreambleBalance(rest: seq<Line>)
    ensures Balanced(Preamble() + rest, 0) == Balanced(rest, 1)
  {
    var l := [Static] + rest;
    assert l[1..] == rest;
    BalancedBlock([AttachmentValid], l);
    l := [IfNot([AttachmentValid]), FailLine, End] + l;
    BalancedBlock([Username], l);
    l := [IfNot([Username]), FailLine, End] + l;
    BalancedBlock([TargetName, TargetNamespace], l);
    l := [IfNot([TargetName, TargetNamespace]), FailLine, End] + l;
    assert Preamble() + rest == [If([Enabled])] + l;
    assert ([If([Enabled])] + l)[1..] == l;
  }

  lemma BalancedBlock(flags: seq<Flag>, rest: seq<Line>)
    ensures Balanced([IfNot(flags), FailLine, End] + rest, 1) == Balanced(rest, 1)
  {
    var l2 := [End] + rest;
    var l1 := [FailLine] + l2;
    var l0 := [IfNot(flags)] + l1;
    assert [IfNot(flags), FailLine, End] + rest == l0;
    assert l0[1..] == l1 && l1[1..] == l2 && l2[1..] == rest;
    assert Balanced(l0, 1) == Balanced(l1, 2) == Balanced(l2, 2);
  }

  // ---------------------------------------------------------------- the limits in force on a request

  /** `e` is the limit of class `cls` and dimension `d`, which the policy declares. */
  ghost predicate Declares(classes: seq<ClassPolicy>, cls: string, d: Dim, mk: Writer, e: Entry) {
    exists i :: 0 <= i < |classes| && Owns(classes[i], cls, d, mk, e)
  }

  predicate Owns(c: ClassPolicy, cls: string, d: Dim, mk: Writer, e: Entry) {
    c.name == cls && d in c.tokens && e == mk(cls, d, c.tokens[d])
  }

  /** A rendered entry is a declared limit with its guards on, and every such limit is rendered. */
  lemma {:induction false} RenderedExactly(classes: seq<ClassPolicy>, mk: Writer, on: set<Flag>, e: Entry)
    ensures e in RenderedClasses(classes, mk, on) <==>
            exists cls, d :: Declares(classes, cls, d, mk, e) && Switched(cls, d, on)
  {
    if classes != [] {
      var init, c := classes[..|classes| - 1], classes[|classes| - 1];
      RenderedExactly(init, mk, on, e);
      RenderedDimsExactly(c, mk, on, e);
      forall cls, d {
        DeclaresSnoc(classes, cls, d, mk, e);
      }
      if e in RenderedDims(c, Dims(), mk, on) {
        var d :| Owns(c, c.name, d, mk, e) && Switched(c.name, d, on);
        assert Declares(classes, c.name, d, mk, e);
      }
    }
  }

  lemma DeclaresSnoc(classes: seq<ClassPolicy>, cls: string, d: Dim, mk: Writer, e: Entry)
    requires classes != []
    ensures Declares(classes, cls, d, mk, e) <==>
              Declares(classes[..|classes| - 1], cls, d, mk, e)
              || Owns(classes[|classes| - 1], cls, d, mk, e)
  {
    var init := classes[..|classes| - 1];
    if Declares(init, cls, d, mk, e) {
      var i :| 0 <= i < |init| && Owns(init[i], cls, d, mk, e);
      assert Owns(classes[i], cls, d, mk, e);
    }
    if Declares(classes, cls, d, mk, e) {
      var i :| 0 <= i < |classes| && Owns(classes[i], cls, d, mk, e);
      assert i < |init| ==> Owns(init[i], cls, d, mk, e);
    }
  }

  function Shown(c: ClassPolicy, d: Dim, mk: Writer, on: set<Flag>): seq<Entry> {
    if d in c.tokens && Switched(c.name, d, on) then [mk(c.name, d, c.tokens[d])] else []
  }

  lemma RenderedDimsExactly(c: ClassPolicy, mk: Writer, on: set<Flag>, e: Entry)
    ensures e in RenderedDims(c, Dims(), mk, on) <==>
            exists d :: Owns(c, c.name, d, mk, e) && Switched(c.name, d, on)
  {
    var d3: seq<Dim> := Dims();
    var d2: seq<Dim> := [User, Group];
    var d1: seq<Dim> := [User];
    assert d3[..2] == d2 && d2[..1] == d1 && d1[..0] == [];
    assert RenderedDims(c, d1, mk, on) == Shown(c, User, mk, on);
    assert RenderedDims(c, d2, mk, on) == RenderedDims(c, d1, mk, on) + Shown(c, Group, mk, on);
    assert RenderedDims(c, d3, mk, on) == RenderedDims(c, d2, mk, on) + Shown(c, Project, mk, on);
    forall d ensures e in Shown(c, d, mk, on) <==> Owns(c, c.name, d, mk, e) && Switched(c.name, d, on) {}
    if d :| Owns(c, c.name, d, mk, e) && Switched(c.name, d, on) {
      assert d == User || d == Group || d == Project;
    }
  }
}
