/**
 * platform/supply-chain/pin_unifai_images.py: the line-by-line digest rewrite (rewrite) and the command
 * around it (pin). A cluster file is its list of lines, each with its newline.
 */
module Pins {
  import opened Util

  datatype Component = Backend | Identity | Multiagent | Rag | Ui

  const FAMILY := "quay.io/zuno/unifai-"

  function Components(): seq<Component> { [Backend, Identity, Multiagent, Rag, Ui] }

  function NameOf(c: Component): string {
    match c
    case Backend => "backend"
    case Identity => "identity"
    case Multiagent => "multiagent"
    case Rag => "rag"
    case Ui => "ui"
  }

  type Digests = map<Component, string>

  // ---------------------------------------------------------------- the pattern

  function Indent(s: string): (n: nat)
    ensures n <= |s| && (forall i :: 0 <= i < n ==> Space(s[i])) && (n < |s| ==> !Space(s[n]))
  {
    if s == "" || !Space(s[0]) then 0 else 1 + Indent(s[1..])
  }

  /** `(\s*#.*)?$`. */
  predicate CommentOrEnd(s: string) { s == "" || (Indent(s) < |s| && s[Indent(s)] == '#') }

  /** `\S+` from the start of `s`, then a comment or the end. */
  predicate Reference(s: string) {
    s != "" && !Space(s[0]) && (CommentOrEnd(s[1..]) || Reference(s[1..]))
  }

  /** `(?:[:@]\S+)?(\s*#.*)?$`. */
  predicate Tail(s: string) {
    CommentOrEnd(s) || (s != "" && (s[0] == ':' || s[0] == '@') && Reference(s[1..]))
  }

  function Stem(c: Component): string { NameOf(c) + ": " + FAMILY + NameOf(c) }

  predicate MatchesAs(s: string, c: Component) { Stem(c) <= s && Tail(s[|Stem(c)|..]) }

  function FirstAs(s: string, cs: seq<Component>): (r: Option<Component>)
    ensures match r case Some(c) => c in cs && MatchesAs(s, c) case None => forall c | c in cs :: !MatchesAs(s, c)
  {
    if cs == [] then None else if MatchesAs(s, cs[0]) then Some(cs[0]) else FirstAs(s, cs[1..])
  }

  function RStripNewline(s: string): string {
    if s != "" && s[|s| - 1] == '\n' then RStripNewline(s[..|s| - 1]) else s
  }

  /** The component a line pins, when it is one of the five lines. */
  function MatchLine(line: string): Option<Component> {
    var s := RStripNewline(line);
    if Indent(s) == 0 then None else FirstAs(s[Indent(s)..], Components())
  }

  function NewLine(line: string, c: Component, pins: Digests, tag: string): string
    requires c in pins
  {
    line[..IndentOf(line)] + NameOf(c) + ": " + pins[c] + "  # " + tag + "\n"
  }

  function IndentOf(line: string): (n: nat)
    ensures n <= |line|
  {
    Indent(line)
  }

  // ---------------------------------------------------------------- rewrite

  /** What every line pins. */
  function Marks(lines: seq<string>): seq<Option<Component>> {
    seq(|lines|, i requires 0 <= i < |lines| => MatchLine(lines[i]))
  }

  function First(marks: seq<Option<Component>>, c: Component): (r: Option<nat>)
    ensures match r
            case Some(i) => i < |marks| && marks[i] == Some(c) && forall j | 0 <= j < i :: marks[j] != Some(c)
            case None => forall j | 0 <= j < |marks| :: marks[j] != Some(c)
  {
    if marks == [] then None
    else if marks[0] == Some(c) then Some(0)
    else match First(marks[1..], c)
      case None => None
      case Some(i) => Some(i + 1)
  }

  /** The first line that pins a component. */
  function FirstMatch(lines: seq<string>, c: Component): Option<nat> { First(Marks(lines), c) }

  predicate Complete(pins: Digests) { forall c: Component :: c in pins }

  /** The line at `i` once rewritten. */
  function LineAt(lines: seq<string>, marks: seq<Option<Component>>, i: nat, pins: Digests, tag: string): string
    requires i < |lines| == |marks| && Complete(pins)
  {
    match marks[i]
    case None => lines[i]
    case Some(c) => if First(marks, c) == Some(i) then NewLine(lines[i], c, pins, tag) else lines[i]
  }

  function Rewritten(lines: seq<string>, pins: Digests, tag: string): seq<string>
    requires Complete(pins)
  {
    seq(|lines|, i requires 0 <= i < |lines| => LineAt(lines, Marks(lines), i, pins, tag))
  }

  predicate AllMarked(marks: seq<Option<Component>>) { forall c: Component :: First(marks, c).Some? }

  /** Every component has a line. */
  predicate AllPresent(lines: seq<string>) { AllMarked(Marks(lines)) }

  method Rewrite(text: seq<string>, pins: Digests, tag: string) returns (r: Result<seq<string>>)
    requires Complete(pins)
    ensures r.Ok? <==> AllPresent(text)
    ensures r.Ok? ==> r.value == Rewritten(text, pins, tag)
  {
    r := RewriteMarked(text, Marks(text), pins, tag);
  }

  /** The loop, on lines whose components are known. */
  method RewriteMarked(text: seq<string>, marks: seq<Option<Component>>, pins: Digests, tag: string)
    returns (r: Result<seq<string>>)
    requires Complete(pins) && |marks| == |text|
    ensures r.Ok? <==> AllMarked(marks)
    ensures r.Ok? ==> r.value == seq(|text|, i requires 0 <= i < |text| => LineAt(text, marks, i, pins, tag))
  {
    var lines := text;
    var done: set<Component> := {};
    for i := 0 to |text|
      invariant |lines| == |text|
      invariant forall c: Component :: c in done <==> First(marks, c).Some? && First(marks, c).value < i
      invariant forall k | 0 <= k < i :: lines[k] == LineAt(text, marks, k, pins, tag)
      invariant forall k | i <= k < |text| :: lines[k] == text[k]
    {
      var m := marks[i];
      if m.Some? && m.value !in done {
        lines := lines[i := NewLine(lines[i], m.value, pins, tag)];
        done := done + {m.value};
      }
    }
    var missing := Missing(Components(), done);
    EveryComponent();
    if missing != [] {
      return Err("the cluster file has no stack.images line to rewrite for some component");
    }
    r := Ok(lines);
  }

  lemma EveryComponent()
    ensures forall c: Component :: c in Components()
  {
    var cs := Components();
    forall c: Component ensures c in cs {
      match c
      case Backend => assert cs[0] == c;
      case Identity => assert cs[1] == c;
      case Multiagent => assert cs[2] == c;
      case Rag => assert cs[3] == c;
      case Ui => assert cs[4] == c;
    }
  }

  function Missing(cs: seq<Component>, done: set<Component>): (r: seq<Component>)
    ensures r == [] <==> forall c | c in cs :: c in done
  {
    if cs == [] then [] else (if cs[0] in done then [] else [cs[0]]) + Missing(cs[1..], done)
  }

  /** Only the first matching line of each component differs. */
  lemma OnlyFirstMatchesChange(lines: seq<string>, pins: Digests, tag: string, i: nat)
    requires Complete(pins) && i < |lines|
    ensures |Rewritten(lines, pins, tag)| == |lines|
    ensures (forall c: Component :: FirstMatch(lines, c) != Some(i)) ==> Rewritten(lines, pins, tag)[i] == lines[i]
    ensures forall c: Component :: FirstMatch(lines, c) == Some(i) ==>
              Rewritten(lines, pins, tag)[i] == NewLine(lines[i], c, pins, tag)
  {
    assert forall c: Component :: FirstMatch(lines, c) == First(Marks(lines), c);
  }

  // ---------------------------------------------------------------- rewriting twice

  /** Pins and tag as `pin` builds them: `<family><component>@<digest>`, and a tag on one line. */
  ghost predicate Plausible(pins: Digests, tag: string) {
    Complete(pins) && '\n' !in tag
    && forall c: Component :: exists digest :: pins[c] == FAMILY + NameOf(c) + "@" + digest && Solid(digest)
  }

  predicate Solid(s: string) { s != "" && forall i :: 0 <= i < |s| ==> !Space(s[i]) }

  lemma {:induction false} IndentOfConcat(a: string, b: string)
    requires (forall i :: 0 <= i < |a| ==> Space(a[i])) && b != "" && !Space(b[0])
    ensures Indent(a + b) == |a|
  {
    if a == "" {
      assert a + b == b;
    } else {
      assert (a + b)[1..] == a[1..] + b;
      forall i | 0 <= i < |a[1..]| ensures Space(a[1..][i]) { assert a[1..][i] == a[i + 1]; }
      IndentOfConcat(a[1..], b);
    }
  }

  lemma {:induction false} ReferenceThenComment(s: string, comment: string)
    requires Solid(s) && CommentOrEnd(comment)
    ensures Reference(s + comment)
  {
    var t := s + comment;
    assert t[1..] == s[1..] + comment;
    if |s| == 1 {
      assert t[1..] == comment;
    } else {
      forall i | 0 <= i < |s[1..]| ensures !Space(s[1..][i]) { assert s[1..][i] == s[i + 1]; }
      ReferenceThenComment(s[1..], comment);
    }
  }

  /** No two components' lines start alike. */
  lemma StemsDiffer(s: string, c: Component, d: Component)
    requires Stem(c) <= s && Stem(d) <= s
    ensures c == d
  {
    assert s[0] == NameOf(c)[0] == NameOf(d)[0];
  }

  lemma StemMatches(s: string, c: Component)
    requires MatchesAs(s, c)
    ensures FirstAs(s, Components()) == Some(c)
  {
    EveryComponent();
    var r := FirstAs(s, Components());
    StemsDiffer(s, c, r.value);
  }

  lemma CommentText(tag: string)
    ensures CommentOrEnd("  # " + tag)
  {
    var s := "  # " + tag;
    assert s == "  " + ("# " + tag);
    IndentOfConcat("  ", "# " + tag);
  }

  lemma MatchedIndent(line: string)
    requires MatchLine(line).Some?
    ensures 0 < Indent(line) && Indent(line) == Indent(RStripNewline(line)) < |RStripNewline(line)|
  {
    var s := RStripNewline(line);
    StripIsPrefix(line);
    var c := MatchLine(line).value;
    assert Stem(c) <= s[Indent(s)..];
    var n := Indent(s);
    assert line == line[..n] + line[n..];
    assert line[n] == s[n];
    IndentOfConcat(line[..n], line[n..]);
  }

  lemma {:induction false} StripIsPrefix(s: string)
    ensures RStripNewline(s) <= s
  {
    if s != "" && s[|s| - 1] == '\n' { StripIsPrefix(s[..|s| - 1]); }
  }

  /** A rewritten line is a line of the same component with the same indentation. */
  lemma NewLineMatches(line: string, c: Component, pins: Digests, tag: string)
    requires MatchLine(line) == Some(c) && Plausible(pins, tag)
    ensures MatchLine(NewLine(line, c, pins, tag)) == Some(c)
    ensures NewLine(line, c, pins, tag)[..Indent(NewLine(line, c, pins, tag))] == line[..Indent(line)]
  {
    MatchedIndent(line);
    var digest :| pins[c] == FAMILY + NameOf(c) + "@" + digest && Solid(digest);
    var indent := line[..Indent(line)];
    NewLineShape(indent, NameOf(c), digest, tag);
    PinnedLineMatches(indent, c, digest, tag);
    assert NewLine(line, c, pins, tag) == indent + (PinnedBody(c, digest, tag) + "\n");
  }

  function PinnedBody(c: Component, digest: string, tag: string): string { Stem(c) + ("@" + (digest + ("  # " + tag))) }

  lemma PinnedBodyMatches(c: Component, digest: string, tag: string)
    requires Solid(digest)
    ensures MatchesAs(PinnedBody(c, digest, tag), c)
    ensures PinnedBody(c, digest, tag) != "" && !Space(PinnedBody(c, digest, tag)[0])
  {
    var body, tail := PinnedBody(c, digest, tag), "@" + (digest + ("  # " + tag));
    CommentText(tag);
    ReferenceThenComment(digest, "  # " + tag);
    assert tail[1..] == digest + ("  # " + tag);
    assert body[|Stem(c)|..] == tail;
    assert body[0] == NameOf(c)[0];
  }

  lemma PinnedLineMatches(indent: string, c: Component, digest: string, tag: string)
    requires indent != "" && (forall i :: 0 <= i < |indent| ==> Space(indent[i])) && Solid(digest) && '\n' !in tag
    ensures var out := indent + (PinnedBody(c, digest, tag) + "\n");
            MatchLine(out) == Some(c) && out[..Indent(out)] == indent
  {
    var body := PinnedBody(c, digest, tag);
    PinnedBodyMatches(c, digest, tag);
    StemMatches(body, c);
    LineOfBody(indent, body, c);
  }

  lemma LineOfBody(indent: string, body: string, c: Component)
    requires indent != "" && (forall i :: 0 <= i < |indent| ==> Space(indent[i]))
    requires body != "" && !Space(body[0]) && body[|body| - 1] != '\n' && FirstAs(body, Components()) == Some(c)
    ensures var out := indent + (body + "\n");
            MatchLine(out) == Some(c) && out[..Indent(out)] == indent
  {
    StrippedBody(indent, body);
    IndentOfConcat(indent, body + "\n");
    IndentOfConcat(indent, body);
    assert (indent + body)[|indent|..] == body;
  }

  lemma StrippedBody(indent: string, body: string)
    requires body != "" && body[|body| - 1] != '\n'
    ensures RStripNewline(indent + (body + "\n")) == indent + body
  {
    var out := indent + (body + "\n");
    assert (indent + body)[|indent + body| - 1] == body[|body| - 1];
    assert out[|out| - 1] == '\n' && out[..|out| - 1] == indent + body;
    assert RStripNewline(out) == RStripNewline(indent + body) == indent + body;
  }

  lemma NewLineShape(indent: string, name: string, digest: string, tag: string)
    ensures indent + name + ": " + (FAMILY + name + "@" + digest) + "  # " + tag + "\n"
         == indent + (((name + ": " + FAMILY + name) + ("@" + (digest + ("  # " + tag)))) + "\n")
  {
    var a := name + ": " + FAMILY + name;
    assert indent + name + ": " + (FAMILY + name + "@" + digest) == indent + (a + ("@" + digest));
    assert ("@" + digest) + ("  # " + tag) == "@" + (digest + ("  # " + tag));
    assert (indent + (a + ("@" + digest))) + "  # " + tag + "\n"
        == indent + ((a + ("@" + digest)) + ("  # " + tag) + "\n");
    Assoc(a, "@" + digest, "  # " + tag);
  }

  lemma MarksKept(lines: seq<string>, pins: Digests, tag: string)
    requires Plausible(pins, tag)
    ensures Marks(Rewritten(lines, pins, tag)) == Marks(lines)
  {
    forall i | 0 <= i < |lines| ensures MatchLine(LineAt(lines, Marks(lines), i, pins, tag)) == MatchLine(lines[i]) {
      if MatchLine(lines[i]).Some? { NewLineMatches(lines[i], MatchLine(lines[i]).value, pins, tag); }
    }
  }

  lemma LineAtTwice(lines: seq<string>, i: nat, p: Digests, tagP: string, q: Digests, tagQ: string)
    requires Plausible(p, tagP) && Plausible(q, tagQ) && i < |lines|
    ensures LineAt(Rewritten(lines, p, tagP), Marks(lines), i, q, tagQ) == LineAt(lines, Marks(lines), i, q, tagQ)
  {
    if MatchLine(lines[i]).Some? { NewLineMatches(lines[i], MatchLine(lines[i]).value, p, tagP); }
  }

  /** Pinning again forgets the first pins: the second rewrite decides alone, and so rewriting is idempotent. */
  lemma RewriteTwice(lines: seq<string>, p: Digests, tagP: string, q: Digests, tagQ: string)
    requires Plausible(p, tagP) && Plausible(q, tagQ)
    ensures AllPresent(Rewritten(lines, p, tagP)) <==> AllPresent(lines)
    ensures Rewritten(Rewritten(lines, p, tagP), q, tagQ) == Rewritten(lines, q, tagQ)
  {
    MarksKept(lines, p, tagP);
    forall i | 0 <= i < |lines| { LineAtTwice(lines, i, p, tagP, q, tagQ); }
  }

  // ---------------------------------------------------------------- pin

  /** `devel-[0-9a-f]{7,40}`. */
  predicate DevelTag(tag: string) {
    "devel-" <= tag && 13 <= |tag| <= 46 && forall i :: 6 <= i < |tag| ==> IsHex(tag[i])
  }

  function DigitRun(s: string): (n: nat)
    ensures n <= |s|
  {
    if s == "" || !IsDigit(s[0]) then 0 else 1 + DigitRun(s[1..])
  }

  /** The text after one or more digits. */
  function AfterNumber(s: string): Option<string> { if DigitRun(s) == 0 then None else Some(s[DigitRun(s)..]) }

  /** The text after a dot, one or more digits. */
  function AfterDotNumber(s: string): Option<string> {
    if s != "" && s[0] == '.' then AfterNumber(s[1..]) else None
  }

  predicate SuffixChar(c: char) { IsDigit(c) || 'A' <= c <= 'Z' || 'a' <= c <= 'z' || c == '.' }

  /** `(?:-[0-9A-Za-z.]+)?`. */
  predicate VersionSuffix(s: string) {
    s == "" || (|s| >= 2 && s[0] == '-' && forall i :: 1 <= i < |s| ==> SuffixChar(s[i]))
  }

  /** `v\d+\.\d+\.\d+(?:-[0-9A-Za-z.]+)?`. */
  predicate ReleaseTag(tag: string) {
    tag != "" && tag[0] == 'v'
    && match AfterNumber(tag[1..])
       case None => false
       case Some(a) =>
         match AfterDotNumber(a)
         case None => false
         case Some(b) => match AfterDotNumber(b) case None => false case Some(c) => VersionSuffix(c)
  }

  /** TAG_RE: its `$` also matches in front of a final newline. */
  predicate AllowedTag(tag: string) {
    var t := if tag != "" && tag[|tag| - 1] == '\n' then tag[..|tag| - 1] else tag;
    DevelTag(t) || ReleaseTag(t)
  }

  lemma {:induction false} DigitRunOf(n: string, rest: string)
    requires (forall i :: 0 <= i < |n| ==> IsDigit(n[i])) && (rest == "" || !IsDigit(rest[0]))
    ensures DigitRun(n + rest) == |n|
  {
    if n == "" {
      assert n + rest == rest;
    } else {
      assert (n + rest)[0] == n[0] && (n + rest)[1..] == n[1..] + rest;
      forall i | 0 <= i < |n[1..]| ensures IsDigit(n[1..][i]) { assert n[1..][i] == n[i + 1]; }
      DigitRunOf(n[1..], rest);
    }
  }

  lemma AfterNumberOf(n: string, rest: string)
    requires AllDigits(n) && (rest == "" || !IsDigit(rest[0]))
    ensures AfterNumber(n + rest) == Some(rest)
  {
    DigitRunOf(n, rest);
    assert (n + rest)[|n|..] == rest;
  }

  /** Three numbers with a suffix are a release tag exactly when the suffix is one. */
  lemma ReleaseTagOf(a: string, b: string, c: string, suffix: string)
    requires AllDigits(a) && AllDigits(b) && AllDigits(c) && (suffix == "" || !IsDigit(suffix[0]))
    ensures ReleaseTag("v" + (a + ("." + (b + ("." + (c + suffix)))))) <==> VersionSuffix(suffix)
  {
    var s3 := c + suffix;
    var s2 := b + ("." + s3);
    var s1 := a + ("." + s2);
    AfterDotNumberOf(c, suffix);
    AfterDotNumberOf(b, "." + s3);
    AfterNumberOf(a, "." + s2);
    assert ("v" + s1)[1..] == s1;
  }

  lemma AfterDotNumberOf(n: string, rest: string)
    requires AllDigits(n) && (rest == "" || !IsDigit(rest[0]))
    ensures AfterDotNumber("." + (n + rest)) == Some(rest)
  {
    AfterNumberOf(n, rest);
    assert ("." + (n + rest))[1..] == n + rest;
  }

  /** What the registry, the signature check and the admission webhook answered. */
  datatype Answers = Answers(digests: map<Component, string>, verified: bool, admitted: bool, parses: bool)

  /** The digest of every component, or none when the registry lacks one. */
  method Resolve(digests: map<Component, string>) returns (r: Result<Digests>)
    ensures r.Ok? <==> forall c: Component :: c in digests
    ensures r.Ok? ==> Complete(r.value) && forall c: Component :: r.value[c] == FAMILY + NameOf(c) + "@" + digests[c]
  {
    var pins: Digests := map[];
    var cs := Components();
    for i := 0 to |cs|
      invariant pins.Keys == set k | 0 <= k < i :: cs[k]
      invariant forall k | 0 <= k < i :: cs[k] in digests
      invariant forall c | c in pins :: c in digests && pins[c] == FAMILY + NameOf(c) + "@" + digests[c]
    {
      if cs[i] !in digests {
        return Err("cannot resolve a digest");
      }
      pins := pins[cs[i] := FAMILY + NameOf(cs[i]) + "@" + digests[cs[i]]];
    }
    EveryComponent();
    forall c: Component ensures c in pins {
      assert c in cs;
      var k :| 0 <= k < |cs| && cs[k] == c;
    }
    r := Ok(pins);
  }

  class ClusterFile {
    var lines: seq<string>

    method Pin(tag: string, acceptDev: bool, dryRun: bool, answers: Answers) returns (r: Result<Digests>)
      modifies this
      ensures r.Ok? <==> AllowedTag(tag) && ("devel-" <= tag ==> acceptDev)
                         && (forall c: Component :: c in answers.digests)
                         && answers.verified && answers.admitted && AllPresent(old(lines)) && answers.parses
      ensures r.Err? || dryRun ==> lines == old(lines)
      ensures r.Ok? ==> Complete(r.value)
                        && forall c: Component :: r.value[c] == FAMILY + NameOf(c) + "@" + answers.digests[c]
      ensures r.Ok? && !dryRun ==> lines == Rewritten(old(lines), r.value, tag)
    {
      if !AllowedTag(tag) {
        return Err(tag + ": expected devel-<sha> or vX.Y.Z");
      }
      if "devel-" <= tag && !acceptDev {
        return Err(tag + " is a development build");
      }
      var resolved := Resolve(answers.digests);
      if resolved.Err? {
        return Err("cannot resolve a digest");
      }
      var pins := resolved.value;
      if !answers.verified {
        return Err("an image does not verify");
      }
      if !answers.admitted {
        return Err("the admission webhook refuses an image");
      }
      var rewritten := Rewrite(lines, pins, tag);
      if rewritten.Err? {
        return Err(rewritten.error);
      }
      if !answers.parses {
        return Err("the rewritten file is not YAML");
      }
      if !dryRun {
        lines := rewritten.value;
      }
      r := Ok(pins);
    }
  }
}
