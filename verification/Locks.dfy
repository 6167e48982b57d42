/**
 * platform/python/check_python_locks.py: reading a pip-compile lockfile (normalize, parse_lock) and the
 * one-version rule of check. A lockfile is given as its list of lines.
 */
module Locks {
  import opened Util

  // ---------------------------------------------------------------- Python string methods

  function LStrip(s: string): (r: string)
    ensures r == "" || !Space(r[0])
    ensures s == "" || Space(s[0]) || r == s
  {
    if s != "" && Space(s[0]) then LStrip(s[1..]) else s
  }

  function RStrip(s: string): (r: string)
    ensures r <= s
    ensures s == "" || Space(s[|s| - 1]) || r == s
    ensures r == "" || !Space(r[|r| - 1])
  {
    if s != "" && Space(s[|s| - 1]) then RStrip(s[..|s| - 1]) else s
  }

  function Strip(s: string): string { RStrip(LStrip(s)) }

  /** `s.rstrip("\\")`. */
  function RStripBackslash(s: string): string {
    if s != "" && s[|s| - 1] == '\\' then RStripBackslash(s[..|s| - 1]) else s
  }

  /** `s.split(" #", 1)[0]`. */
  function BeforeComment(s: string): string {
    if |s| < 2 then s else if s[0] == ' ' && s[1] == '#' then "" else [s[0]] + BeforeComment(s[1..])
  }

  predicate Separator(c: char) { c == '-' || c == '_' || c == '.' }

  /** Runs of `-`, `_` and `.` become one `-`, letters become lower case. */
  function Normalize(name: string): string {
    if name == "" then ""
    else if Separator(name[0]) then
      if |name| > 1 && Separator(name[1]) then Normalize(name[1..]) else "-" + Normalize(name[1..])
    else [Lower(name[0])] + Normalize(name[1..])
  }

  ghost predicate Normal(s: string) {
    (forall i :: 0 <= i < |s| ==> s[i] == Lower(s[i]) && s[i] != '_' && s[i] != '.')
    && (forall i :: 0 <= i < |s| - 1 ==> !(s[i] == '-' && s[i + 1] == '-'))
  }

  lemma {:induction false} NormalizeIsNormal(name: string)
    ensures Normal(Normalize(name))
    ensures name != "" && !Separator(name[0]) ==> Normalize(name) != "" && Normalize(name)[0] == Lower(name[0])
  {
    if name != "" { NormalizeIsNormal(name[1..]); }
  }

  lemma {:induction false} NormalIsFixed(s: string)
    requires Normal(s)
    ensures Normalize(s) == s
  {
    if s != "" {
      var t := s[1..];
      forall i | 0 <= i < |t| ensures t[i] == Lower(t[i]) && t[i] != '_' && t[i] != '.' { assert t[i] == s[i + 1]; }
      forall i | 0 <= i < |t| - 1 ensures !(t[i] == '-' && t[i + 1] == '-') {
        assert t[i] == s[i + 1] && t[i + 1] == s[i + 2];
      }
      NormalIsFixed(t);
      assert s[0] == Lower(s[0]);
      assert |s| > 1 ==> !(s[0] == '-' && s[1] == '-');
      assert s == [s[0]] + t;
    }
  }

  lemma NormalizeIdempotent(name: string)
    ensures Normalize(Normalize(name)) == Normalize(name)
  {
    NormalizeIsNormal(name);
    NormalIsFixed(Normalize(name));
  }

  // ---------------------------------------------------------------- the two patterns

  predicate AlphaNum(c: char) { 'A' <= c <= 'Z' || 'a' <= c <= 'z' || '0' <= c <= '9' }

  predicate NameChar(c: char) { AlphaNum(c) || Separator(c) }

  predicate VersionChar(c: char) { !Space(c) && c != ';' && c != '\\' }

  function NameRun(s: string): (n: nat)
    ensures n <= |s|
  {
    if s == "" || !NameChar(s[0]) then 0 else 1 + NameRun(s[1..])
  }

  function VersionRun(s: string): (n: nat)
    ensures n <= |s|
  {
    if s == "" || !VersionChar(s[0]) then 0 else 1 + VersionRun(s[1..])
  }

  /** The text after an optional `[extras]`; None when a bracket is not closed. */
  function AfterExtras(s: string): Option<string> {
    if s != "" && s[0] == '[' then AfterBracket(s[1..]) else Some(s)
  }

  function AfterBracket(s: string): Option<string> {
    if s == "" then None else if s[0] == ']' then Some(s[1..]) else AfterBracket(s[1..])
  }

  datatype Pin = Pin(name: string, version: string)

  /** PIN_RE: `name[extras]==version` at the start of a requirement. */
  function MatchPin(s: string): Option<Pin> {
    if s == "" || !AlphaNum(s[0]) then None
    else
      var n := NameRun(s);
      match AfterExtras(s[n..])
      case None => None
      case Some(t) =>
        if |t| >= 2 && t[0] == '=' && t[1] == '=' && VersionRun(t[2..]) > 0 then
          Some(Pin(s[..n], t[2..VersionRun(t[2..]) + 2]))
        else None
  }

  const HASH := "--hash=sha256:"

  predicate HashHere(s: string) {
    HASH <= s && |s| >= |HASH| + 64 && forall i :: |HASH| <= i < |HASH| + 64 ==> IsHex(s[i])
  }

  /** HASH_RE.search. */
  predicate HasHash(s: string) { HashHere(s) || (s != "" && HasHash(s[1..])) }

  // ---------------------------------------------------------------- parse_lock

  datatype Line = Blank | Continuation(text: string) | OptionLine(text: string) | Head(text: string)

  function Classify(raw: string): Line {
    var line := if LStrip(raw) != "" && LStrip(raw)[0] == '#' then "" else RStrip(BeforeComment(raw));
    if Strip(line) == "" then Blank
    else if Space(line[0]) || "--hash" <= LStrip(line) then Continuation(Strip(line))
    else if line[0] == '-' then OptionLine(Strip(line))
    else Head(Strip(line))
  }

  datatype Entry = Entry(head: string, rest: seq<string>)

  datatype Problem = Disallowed(text: string) | NotPinned(text: string) | NotHashed(text: string)

  datatype Scanned = Scanned(entries: seq<Entry>, problems: seq<Problem>)

  function ScanLine(s: Scanned, l: Line): Scanned {
    match l
    case Blank => s
    case Continuation(text) =>
      if s.entries == [] then s
      else
        var n := |s.entries| - 1;
        s.(entries := s.entries[n := Entry(s.entries[n].head, s.entries[n].rest + [text])])
    case OptionLine(text) => s.(problems := s.problems + [Disallowed(text)])
    case Head(text) => s.(entries := s.entries + [Entry(text, [])])
  }

  function Classified(lines: seq<string>): seq<Line> { seq(|lines|, i requires 0 <= i < |lines| => Classify(lines[i])) }

  function Scan(lines: seq<Line>): Scanned {
    if lines == [] then Scanned([], []) else ScanLine(Scan(lines[..|lines| - 1]), lines[|lines| - 1])
  }

  function Requirement(e: Entry): string { Strip(RStripBackslash(e.head)) }

  function Joined(e: Entry): string { Join(" ", [e.head] + e.rest) }

  /** What one entry comes to. */
  datatype Verdict = Unpinned(text: string) | Pinned(pin: Pin, hashed: bool, text: string)

  function Assess(e: Entry): Verdict {
    match MatchPin(Requirement(e))
    case None => Unpinned(Requirement(e))
    case Some(pin) => Pinned(pin, HasHash(Joined(e)), Requirement(e))
  }

  function Assessed(entries: seq<Entry>): seq<Verdict> {
    seq(|entries|, i requires 0 <= i < |entries| => Assess(entries[i]))
  }

  datatype Parsed = Parsed(pins: map<string, string>, problems: seq<Problem>)

  function JudgeOne(p: Parsed, v: Verdict): Parsed {
    match v
    case Unpinned(text) => p.(problems := p.problems + [NotPinned(text)])
    case Pinned(pin, hashed, text) =>
      Parsed(p.pins[Normalize(pin.name) := pin.version], if hashed then p.problems else p.problems + [NotHashed(text)])
  }

  function Judge(start: Parsed, vs: seq<Verdict>): Parsed {
    if vs == [] then start else JudgeOne(Judge(start, vs[..|vs| - 1]), vs[|vs| - 1])
  }

  function ParseLock(lines: seq<string>): Parsed {
    var s := Scan(Classified(lines));
    Judge(Parsed(map[], s.problems), Assessed(s.entries))
  }

  method ParseLockLoop(lines: seq<string>) returns (pins: map<string, string>, problems: seq<Problem>)
    ensures Parsed(pins, problems) == ParseLock(lines)
  {
    var entries, options := ReadEntries(lines);
    pins, problems := JudgeEntries(entries, options);
  }

  /** The first loop: the entries, and the option lines as problems. */
  method ReadEntries(lines: seq<string>) returns (entries: seq<Entry>, problems: seq<Problem>)
    ensures Scanned(entries, problems) == Scan(Classified(lines))
  {
    entries, problems := [], [];
    ghost var ls := Classified(lines);
    for i := 0 to |lines|
      invariant Scanned(entries, problems) == Scan(ls[..i])
    {
      assert ls[..i + 1][..i] == ls[..i];
      match Classify(lines[i])
      case Blank =>
      case Continuation(text) =>
        if entries != [] {
          var n := |entries| - 1;
          entries := entries[n := Entry(entries[n].head, entries[n].rest + [text])];
        }
      case OptionLine(text) => problems := problems + [Disallowed(text)];
      case Head(text) => entries := entries + [Entry(text, [])];
    }
    assert ls[..|lines|] == ls;
  }

  /** The second loop: the pin of every entry, and what is wrong with it. */
  method JudgeEntries(entries: seq<Entry>, options: seq<Problem>)
    returns (pins: map<string, string>, problems: seq<Problem>)
    ensures Parsed(pins, problems) == Judge(Parsed(map[], options), Assessed(entries))
  {
    pins, problems := map[], options;
    ghost var start, vs := Parsed(map[], options), Assessed(entries);
    for i := 0 to |entries|
      invariant Parsed(pins, problems) == Judge(start, vs[..i])
    {
      assert vs[..i + 1][..i] == vs[..i] && vs[i] == Assess(entries[i]);
      var pin := MatchPin(Requirement(entries[i]));
      if pin.None? {
        problems := problems + [NotPinned(Requirement(entries[i]))];
        continue;
      }
      if !HasHash(Joined(entries[i])) {
        problems := problems + [NotHashed(Requirement(entries[i]))];
      }
      pins := pins[Normalize(pin.value.name) := pin.value.version];
    }
    assert vs[..|entries|] == vs;
  }

  // ---------------------------------------------------------------- a lock without problems

  predicate EntryOk(e: Entry) { MatchPin(Requirement(e)).Some? && HasHash(Joined(e)) }

  lemma {:induction false} JudgeClean(start: Parsed, vs: seq<Verdict>)
    ensures Judge(start, vs).problems == [] <==>
            start.problems == [] && forall i | 0 <= i < |vs| :: Good(vs[i])
  {
    if vs != [] { JudgeClean(start, vs[..|vs| - 1]); }
  }

  ghost predicate HasOption(lines: seq<Line>) { exists i :: 0 <= i < |lines| && lines[i].OptionLine? }

  lemma {:induction false} ScanProblems(lines: seq<Line>)
    ensures Scan(lines).problems == [] <==> !HasOption(lines)
  {
    if lines != [] {
      var n := |lines| - 1;
      ScanProblems(lines[..n]);
      if i :| 0 <= i < |lines| && lines[i].OptionLine? { assert i < n ==> lines[..n][i].OptionLine?; }
      if i :| 0 <= i < n && lines[..n][i].OptionLine? { assert lines[i].OptionLine?; }
    }
  }

  /** Nothing is reported exactly when no line is an option and every requirement is pinned with `==` and
      carries a sha256 hash. */
  lemma CleanMeansPinnedAndHashed(lines: seq<string>)
    ensures ParseLock(lines).problems == [] <==>
            !HasOption(Classified(lines))
            && forall e | e in Scan(Classified(lines)).entries :: EntryOk(e)
  {
    var s := Scan(Classified(lines));
    ScanProblems(Classified(lines));
    JudgeClean(Parsed(map[], s.problems), Assessed(s.entries));
    AssessedOk(s.entries, Assessed(s.entries));
  }

  predicate Good(v: Verdict) { v.Pinned? && v.hashed }

  lemma AssessedOk(es: seq<Entry>, vs: seq<Verdict>)
    requires vs == Assessed(es)
    ensures (forall i | 0 <= i < |vs| :: Good(vs[i])) <==> forall e | e in es :: EntryOk(e)
  {
    forall i | 0 <= i < |es| ensures Good(vs[i]) <==> EntryOk(es[i]) {
      assert vs[i] == Assess(es[i]);
    }
    assert (forall i | 0 <= i < |vs| :: Good(vs[i])) ==> forall e | e in es :: EntryOk(e);
  }

  // ---------------------------------------------------------------- which lines the rule sees

  /** A blank line or a comment line. */
  predicate Note(raw: string) { LStrip(raw) == "" || LStrip(raw)[0] == '#' }

  lemma {:induction false} BeforeCommentIsPrefix(s: string)
    ensures BeforeComment(s) <= s
    ensures s != "" && !(|s| >= 2 && s[0] == ' ' && s[1] == '#') ==> BeforeComment(s) != ""
  {
    if |s| >= 2 && !(s[0] == ' ' && s[1] == '#') {
      BeforeCommentIsPrefix(s[1..]);
      assert s == [s[0]] + s[1..];
    }
  }

  lemma {:induction false} LStripOfPrefix(p: string, s: string)
    requires p <= s
    ensures LStrip(p) == "" || (LStrip(s) != "" && LStrip(s)[0] == LStrip(p)[0])
    ensures LStrip(s) == "" ==> LStrip(p) == ""
  {
    if p != "" && Space(p[0]) { LStripOfPrefix(p[1..], s[1..]); }
  }

  lemma {:induction false} RStripToNothing(s: string)
    ensures RStrip(s) == "" <==> LStrip(s) == ""
    ensures RStrip(LStrip(s)) == "" <==> LStrip(s) == ""
  {
    if s != "" {
      var n := |s| - 1;
      RStripToNothing(s[..n]);
      LStripOfPrefix(s[..n], s);
      if LStrip(s[..n]) == "" { BlankThenOne(s[..n], s[n]); assert s == s[..n] + [s[n]]; }
      RStripEmpty(LStrip(s));
    }
  }

  lemma {:induction false} BlankThenOne(b: string, c: char)
    requires LStrip(b) == ""
    ensures LStrip(b + [c]) == if Space(c) then "" else [c]
  {
    if b == "" { assert b + [c] == [c]; } else { assert (b + [c])[1..] == b[1..] + [c]; BlankThenOne(b[1..], c); }
  }

  lemma {:induction false} RStripEmpty(t: string)
    requires t == "" || !Space(t[0])
    ensures RStrip(t) == "" <==> t == ""
  {
    if t != "" && Space(t[|t| - 1]) { RStripEmpty(t[..|t| - 1]); }
  }

  /** What a raw line is, told from how it begins. */
  lemma ClassifyExactly(raw: string)
    ensures Classify(raw).Head? <==> raw != "" && !Space(raw[0]) && raw[0] != '#' && raw[0] != '-'
    ensures Classify(raw).OptionLine? <==> raw != "" && raw[0] == '-' && !("--hash" <= RStrip(BeforeComment(raw)))
    ensures Classify(raw).Continuation?
       <==> !Note(raw) && LStrip(BeforeComment(raw)) != "" && (Space(raw[0]) || "--hash" <= RStrip(BeforeComment(raw)))
    ensures Note(raw) ==> Classify(raw) == Blank
  {
    var line := RStrip(BeforeComment(raw));
    CutShape(raw);
    if Note(raw) {
      NoteIsBlank(raw);
    } else if line != "" {
      LineClassified(raw, line);
    }
  }

  lemma NoteIsBlank(raw: string)
    requires Note(raw)
    ensures Classify(raw) == Blank
  {
    var line := RStrip(BeforeComment(raw));
    CutShape(raw);
    LStripOfPrefix(line, raw);
    RStripToNothing(line);
  }

  lemma LineClassified(raw: string, line: string)
    requires !Note(raw) && line == RStrip(BeforeComment(raw)) && line != "" && line <= raw
    requires LStrip(line) != "" && (line[0] == ' ' || LStrip(line)[0] != '#')
    ensures Classify(raw)
         == if Space(line[0]) || "--hash" <= LStrip(line) then Continuation(Strip(line))
            else if line[0] == '-' then OptionLine(Strip(line))
            else Head(Strip(line))
  {
    RStripToNothing(line);
  }

  /** What cutting the comment and the blank end leaves of a line. */
  lemma CutShape(raw: string)
    ensures var line := RStrip(BeforeComment(raw));
            line <= raw && (line == "" <==> LStrip(BeforeComment(raw)) == "")
            && (LStrip(line) == "" <==> line == "")
            && (raw != "" && !Space(raw[0]) ==> line != "")
            && (!Note(raw) && line != "" ==> LStrip(line)[0] != '#')
  {
    var line := RStrip(BeforeComment(raw));
    BeforeCommentIsPrefix(raw);
    RStripToNothing(BeforeComment(raw));
    RStripToNothing(line);
    LStripOfPrefix(line, raw);
    RStripFixed(line);
  }

  lemma RStripFixed(line: string)
    requires line == "" || !Space(line[|line| - 1])
    ensures RStrip(line) == line
  {
  }

  /** Every line that begins like a requirement opens an entry of its own. */
  lemma {:induction false} HeadsAreEntries(lines: seq<Line>, i: nat)
    requires i < |lines| && lines[i].Head?
    ensures exists k :: 0 <= k < |Scan(lines).entries| && Scan(lines).entries[k].head == lines[i].text
  {
    var n := |lines| - 1;
    var before, all := Scan(lines[..n]).entries, Scan(lines).entries;
    if i < n {
      HeadsAreEntries(lines[..n], i);
      var k :| 0 <= k < |before| && before[k].head == lines[i].text;
      assert all[k].head == before[k].head;
    } else {
      assert all[|before|].head == lines[i].text;
    }
  }

  // ---------------------------------------------------------------- one version per library

  /** A component's lock, once parsed. */
  datatype Component = Component(name: string, pins: map<string, string>)

  type Seen = map<string, map<string, set<string>>>

  function Versions(seen: Seen, lib: string): map<string, set<string>> { if lib in seen then seen[lib] else map[] }

  function Owners(seen: Seen, lib: string, version: string): set<string> {
    if version in Versions(seen, lib) then Versions(seen, lib)[version] else {}
  }

  /** `seen` after the first `n` components. */
  ghost predicate SeenExactly(cs: seq<Component>, n: nat, seen: Seen)
    requires n <= |cs|
  {
    (forall lib, v :: v in Versions(seen, lib) <==> exists i :: 0 <= i < n && LocksAt(cs[i], lib, v))
    && (forall lib, v, c ::
          c in Owners(seen, lib, v) <==> exists i :: 0 <= i < n && LocksAt(cs[i], lib, v) && cs[i].name == c)
  }

  predicate LocksAt(c: Component, lib: string, v: string) { lib in c.pins && c.pins[lib] == v }

  /** One pin recorded under its library and version. */
  function Record(seen: Seen, lib: string, v: string, c: string): Seen {
    seen[lib := Versions(seen, lib)[v := Owners(seen, lib, v) + {c}]]
  }

  lemma RecordAdds(seen: Seen, lib: string, v: string, c: string, lib2: string, v2: string)
    ensures v2 in Versions(Record(seen, lib, v, c), lib2) <==> v2 in Versions(seen, lib2) || (lib2 == lib && v2 == v)
    ensures Owners(Record(seen, lib, v, c), lib2, v2) == Owners(seen, lib2, v2)
                                                    + (if lib2 == lib && v2 == v then {c} else {})
  {
  }

  method RecordComponent(start: Seen, c: Component) returns (seen: Seen)
    ensures forall lib, v :: v in Versions(seen, lib) <==> v in Versions(start, lib) || LocksAt(c, lib, v)
    ensures forall lib, v, o ::
              o in Owners(seen, lib, v) <==> o in Owners(start, lib, v) || (LocksAt(c, lib, v) && o == c.name)
  {
    seen := start;
    var todo := c.pins.Keys;
    while todo != {}
      invariant todo <= c.pins.Keys
      invariant forall lib, v :: v in Versions(seen, lib) <==>
                  v in Versions(start, lib) || (LocksAt(c, lib, v) && lib !in todo)
      invariant forall lib, v, o :: o in Owners(seen, lib, v) <==>
                  o in Owners(start, lib, v) || (LocksAt(c, lib, v) && lib !in todo && o == c.name)
      decreases todo
    {
      var lib :| lib in todo;
      todo := todo - {lib};
      ghost var before := seen;
      seen := Record(seen, lib, c.pins[lib], c.name);
      forall lib2, v2
        ensures v2 in Versions(seen, lib2) <==> v2 in Versions(before, lib2) || (lib2 == lib && v2 == c.pins[lib])
        ensures Owners(seen, lib2, v2) == Owners(before, lib2, v2)
                                         + (if lib2 == lib && v2 == c.pins[lib] then {c.name} else {})
      {
        RecordAdds(before, lib, c.pins[lib], c.name, lib2, v2);
      }
    }
  }

  function AllOwners(versions: map<string, set<string>>): set<string> {
    set v, c | v in versions && c in versions[v] :: c
  }

  /** The libraries reported: more than one version, and not all owners among the ones excused for it. */
  predicate Reported(seen: Seen, allowed: map<string, set<string>>, lib: string) {
    |Versions(seen, lib)| > 1 && !(lib in allowed && AllOwners(Versions(seen, lib)) <= allowed[lib])
  }

  method CheckOneVersion(cs: seq<Component>, allowed: map<string, set<string>>)
    returns (reported: set<string>, seen: Seen)
    ensures SeenExactly(cs, |cs|, seen)
    ensures forall lib :: lib in reported <==> Reported(seen, allowed, lib)
  {
    seen := map[];
    for n := 0 to |cs|
      invariant SeenExactly(cs, n, seen)
    {
      ghost var before := seen;
      seen := RecordComponent(seen, cs[n]);
      forall lib, v ensures v in Versions(seen, lib) <==> exists i :: 0 <= i < n + 1 && LocksAt(cs[i], lib, v) {
        assert v in Versions(before, lib) <==> exists i :: 0 <= i < n && LocksAt(cs[i], lib, v);
      }
    }
    reported := set lib | lib in seen && Reported(seen, allowed, lib);
  }

  /** When nothing is reported, two components that lock one library lock it at one version, or both are
      excused for it. */
  lemma OneVersion(cs: seq<Component>, allowed: map<string, set<string>>, seen: Seen, i: nat, j: nat, lib: string)
    requires SeenExactly(cs, |cs|, seen) && i < |cs| && j < |cs|
    requires !Reported(seen, allowed, lib) && lib in cs[i].pins && lib in cs[j].pins
    ensures cs[i].pins[lib] == cs[j].pins[lib]
            || (lib in allowed && cs[i].name in allowed[lib] && cs[j].name in allowed[lib])
  {
    var vs, v, w := Versions(seen, lib), cs[i].pins[lib], cs[j].pins[lib];
    assert LocksAt(cs[i], lib, v) && LocksAt(cs[j], lib, w);
    assert v in vs && w in vs && cs[i].name in Owners(seen, lib, v) && cs[j].name in Owners(seen, lib, w);
    if v != w {
      assert {v, w} <= vs.Keys;
      SubsetSize({v, w}, vs.Keys);
      assert cs[i].name in AllOwners(vs) && cs[j].name in AllOwners(vs);
    }
  }

  lemma SubsetSize(a: set<string>, b: set<string>)
    requires a <= b
    ensures |a| <= |b|
  {
    assert b == a + (b - a);
  }
}
