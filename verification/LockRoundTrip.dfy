/**
 * platform/python/check_python_locks.py, parse_lock: the files pip-compile writes are read back to their pins,
 * and which line escapes.
 */
module LockRoundTrip {
  import opened Util
  import opened Locks

  // ---------------------------------------------------------------- what pip-compile writes

  /** A locked library: its name, the extras between brackets if there are any, its version, and at least one
      hash. */
  datatype Locked = Locked(name: string, extras: Option<string>, version: string, hashes: seq<string>)

  predicate ExtrasChar(c: char) { c != ']' && c != '#' }

  predicate Lockable(l: Locked) {
    (l.extras.Some? ==> forall i :: 0 <= i < |l.extras.value| ==> ExtrasChar(l.extras.value[i]))
    && l.name != "" && AlphaNum(l.name[0]) && (forall i :: 0 <= i < |l.name| ==> NameChar(l.name[i]))
    && l.version != "" && (forall i :: 0 <= i < |l.version| ==> VersionChar(l.version[i]))
    && l.hashes != [] && forall i :: 0 <= i < |l.hashes| ==> HexDigest(l.hashes[i])
  }

  predicate HexDigest(h: string) { |h| == 64 && forall i :: 0 <= i < 64 ==> IsHex(h[i]) }

  function ExtrasText(l: Locked): string { if l.extras.Some? then "[" + l.extras.value + "]" else "" }

  function PinText(l: Locked): string { l.name + (ExtrasText(l) + ("==" + l.version)) }

  /** `name==version \`, then one indented hash per line, each but the last continued. */
  function Layout(l: Locked): seq<string> { [PinText(l) + " \\"] + HashLines(l.hashes) }

  /** The text of a hash line once stripped. */
  function HashText(h: string, last: bool): string { HASH + h + (if last then "" else " \\") }

  function HashLines(hashes: seq<string>): seq<string> {
    if hashes == [] then [] else ["    " + HashText(hashes[0], |hashes| == 1)] + HashLines(hashes[1..])
  }

  function LockFile(ls: seq<Locked>): seq<string> {
    if ls == [] then [] else LockFile(ls[..|ls| - 1]) + Layout(ls[|ls| - 1])
  }

  function PinsOf(ls: seq<Locked>): map<string, string> {
    if ls == [] then map[]
    else PinsOf(ls[..|ls| - 1])[Normalize(ls[|ls| - 1].name) := ls[|ls| - 1].version]
  }

  lemma {:induction false} NoComment(s: string)
    requires forall i :: 0 <= i < |s| - 1 ==> !(s[i] == ' ' && s[i + 1] == '#')
    ensures BeforeComment(s) == s
  {
    if |s| >= 2 {
      assert !(s[0] == ' ' && s[0 + 1] == '#');
      forall i | 0 <= i < |s[1..]| - 1 ensures !(s[1..][i] == ' ' && s[1..][i + 1] == '#') {
        assert s[1..][i] == s[i + 1] && s[1..][i + 1] == s[i + 1 + 1];
      }
      NoComment(s[1..]);
      assert s == [s[0]] + s[1..];
    }
  }

  lemma {:induction false} NameRunOf(name: string, rest: string)
    requires (forall i :: 0 <= i < |name| ==> NameChar(name[i])) && (rest == "" || !NameChar(rest[0]))
    ensures NameRun(name + rest) == |name|
  {
    if name == "" {
      assert name + rest == rest;
    } else {
      assert (name + rest)[1..] == name[1..] + rest;
      forall i | 0 <= i < |name[1..]| ensures NameChar(name[1..][i]) { assert name[1..][i] == name[i + 1]; }
      NameRunOf(name[1..], rest);
    }
  }

  lemma {:induction false} VersionRunOf(v: string)
    requires forall i :: 0 <= i < |v| ==> VersionChar(v[i])
    ensures VersionRun(v) == |v|
  {
    if v != "" {
      forall i | 0 <= i < |v[1..]| ensures VersionChar(v[1..][i]) { assert v[1..][i] == v[i + 1]; }
      VersionRunOf(v[1..]);
    }
  }

  lemma {:induction false} AfterBracketOf(x: string, rest: string)
    requires forall i :: 0 <= i < |x| ==> x[i] != ']'
    ensures AfterBracket(x + ("]" + rest)) == Some(rest)
  {
    var s := x + ("]" + rest);
    if x == "" {
      assert s == "]" + rest && s[1..] == rest;
    } else {
      assert s[0] == x[0] && s[1..] == x[1..] + ("]" + rest);
      forall i | 0 <= i < |x[1..]| ensures x[1..][i] != ']' { assert x[1..][i] == x[i + 1]; }
      AfterBracketOf(x[1..], rest);
    }
  }

  lemma AfterExtrasOf(l: Locked, rest: string)
    requires Lockable(l) && rest != "" && rest[0] == '='
    ensures AfterExtras(ExtrasText(l) + rest) == Some(rest)
  {
    if l.extras.Some? {
      var x := l.extras.value;
      forall i | 0 <= i < |x| ensures x[i] != ']' { assert ExtrasChar(x[i]); }
      AfterBracketOf(x, rest);
      var s := ExtrasText(l) + rest;
      assert s[0] == '[' && s[1..] == x + ("]" + rest);
    } else {
      assert ExtrasText(l) + rest == rest;
    }
  }

  lemma PinMatches(l: Locked)
    requires Lockable(l)
    ensures MatchPin(PinText(l)) == Some(Pin(l.name, l.version))
  {
    var s, tail, rest := PinText(l), "==" + l.version, ExtrasText(l) + ("==" + l.version);
    assert rest[0] == (if l.extras.Some? then '[' else '=');
    NameRunOf(l.name, rest);
    VersionRunOf(l.version);
    AfterExtrasOf(l, tail);
    assert s[..|l.name|] == l.name && s[|l.name|..] == rest;
    assert tail[2..] == l.version && tail[2..|l.version| + 2] == l.version;
    assert s[0] == l.name[0];
  }

  /** A pin has no comment in it, and begins and ends like one. */
  lemma PinShape(l: Locked)
    requires Lockable(l)
    ensures var p := PinText(l);
            p != "" && AlphaNum(p[0]) && VersionChar(p[|p| - 1])
            && forall i :: 0 <= i < |p| - 1 ==> !(p[i] == ' ' && p[i + 1] == '#')
  {
    var p, x := PinText(l), ExtrasText(l);
    var rest, n := x + ("==" + l.version), |l.name|;
    assert p[0] == l.name[0] && p[|p| - 1] == l.version[|l.version| - 1];
    forall i | 0 <= i < |p| - 1 ensures !(p[i] == ' ' && p[i + 1] == '#') {
      if i < n {
        assert p[i] == l.name[i] && NameChar(l.name[i]);
      } else if i + 1 < n + |x| {
        assert p[i + 1] == x[i + 1 - n];
        if 0 < i + 1 - n < |x| - 1 {
          assert x[i + 1 - n] == l.extras.value[i - n] && ExtrasChar(l.extras.value[i - n]);
        }
      } else if i < n + |x| {
        assert p[i] == x[|x| - 1];
      } else if i < n + |x| + 2 {
        assert p[i] == '=';
      } else {
        assert p[i] == l.version[i - n - |x| - 2] && VersionChar(l.version[i - n - |x| - 2]);
      }
    }
  }

  lemma HeadLine(l: Locked)
    requires Lockable(l)
    ensures Classify(PinText(l) + " \\") == Head(PinText(l) + " \\")
    ensures Bare(PinText(l) + " \\") == PinText(l) + " \\" && !Note(PinText(l) + " \\")
    ensures forall rest :: Requirement(Entry(PinText(l) + " \\", rest)) == PinText(l)
  {
    PinShape(l);
    HeadClassified(PinText(l));
    HeadStripped(PinText(l));
  }

  lemma HeadClassified(p: string)
    requires p != "" && AlphaNum(p[0]) && forall i :: 0 <= i < |p| - 1 ==> !(p[i] == ' ' && p[i + 1] == '#')
    ensures Classify(p + " \\") == Head(p + " \\") && Bare(p + " \\") == p + " \\"
  {
    var s := p + " \\";
    assert s[0] == p[0] && s[|s| - 1] == '\\';
    forall i | 0 <= i < |s| - 1 ensures !(s[i] == ' ' && s[i + 1] == '#') {
      if i < |p| - 1 { assert s[i] == p[i] && s[i + 1] == p[i + 1]; }
    }
    NoComment(s);
    assert LStrip(s) == s && RStrip(s) == s;
    assert "--hash"[0] == '-';
  }

  lemma HeadStripped(p: string)
    requires p != "" && AlphaNum(p[0]) && VersionChar(p[|p| - 1])
    ensures Strip(RStripBackslash(p + " \\")) == p
  {
    var s, t := p + " \\", p + " ";
    assert s[..|s| - 1] == t && t[|t| - 1] == ' ';
    assert RStripBackslash(s) == RStripBackslash(t) == t;
    assert t[0] == p[0] && LStrip(t) == t;
    assert t[..|t| - 1] == p;
    assert RStrip(t) == RStrip(p) == p;
  }

  lemma HashLine(h: string, last: bool)
    requires HexDigest(h)
    ensures Classify("    " + HashText(h, last)) == Continuation(HashText(h, last))
    ensures HashHere(HashText(h, last))
    ensures Bare("    " + HashText(h, last)) == "    " + HashText(h, last) && !Note("    " + HashText(h, last))
  {
    var t := HashText(h, last);
    HashShape(h, last);
    LStripIndent(t);
    IndentedLine("    ", t);
  }

  /** An indented text without a comment continues an entry. */
  lemma IndentedLine(indent: string, t: string)
    requires indent != "" && indent[0] == ' ' && t != "" && !Space(t[0]) && !Space(t[|t| - 1]) && t[0] != '#'
    requires LStrip(indent + t) == t
    requires forall i :: 0 <= i < |indent + t| - 1 ==> !((indent + t)[i] == ' ' && (indent + t)[i + 1] == '#')
    ensures Classify(indent + t) == Continuation(t) && Bare(indent + t) == indent + t && !Note(indent + t)
  {
    var s := indent + t;
    NoComment(s);
    assert s[|s| - 1] == t[|t| - 1] && s[0] == ' ';
    assert RStrip(s) == s && RStrip(t) == t;
  }

  lemma HashShape(h: string, last: bool)
    requires HexDigest(h)
    ensures var t := HashText(h, last);
            HashHere(t) && !Space(t[0]) && !Space(t[|t| - 1])
            && forall i :: 0 <= i < |"    " + t| - 1 ==> !(("    " + t)[i] == ' ' && ("    " + t)[i + 1] == '#')
  {
    var t := HashText(h, last);
    var s := "    " + t;
    assert t[0] == '-' && |t| >= 14 + 64;
    forall i | |HASH| <= i < |HASH| + 64 ensures IsHex(t[i]) { assert t[i] == h[i - |HASH|]; }
    assert !Space(t[|t| - 1]) by { if last { assert t[|t| - 1] == h[63]; } }
    forall i | 0 <= i < |s| - 1 ensures !(s[i] == ' ' && s[i + 1] == '#') {
      if i + 1 >= 4 { assert s[i + 1] == t[i - 3]; }
      if 0 <= i - 3 < |HASH| { assert t[i - 3] == HASH[i - 3]; }
    }
  }

  lemma LStripIndent(t: string)
    requires t != "" && !Space(t[0])
    ensures LStrip("    " + t) == t
  {
    var s4 := "    " + t;
    var s3 := "   " + t;
    var s2 := "  " + t;
    var s1 := " " + t;
    assert s4[1..] == s3 && s3[1..] == s2 && s2[1..] == s1 && s1[1..] == t;
    assert LStrip(s4) == LStrip(s3) == LStrip(s2) == LStrip(s1) == LStrip(t);
  }

  function HashTexts(hashes: seq<string>): seq<string> {
    if hashes == [] then [] else [HashText(hashes[0], |hashes| == 1)] + HashTexts(hashes[1..])
  }

  function Continuations(hashes: seq<string>): seq<Line> {
    if hashes == [] then [] else [Continuation(HashText(hashes[0], |hashes| == 1))] + Continuations(hashes[1..])
  }

  lemma ClassifiedConcat(a: seq<string>, b: seq<string>)
    ensures Classified(a + b) == Classified(a) + Classified(b)
  {
  }

  lemma {:induction false} HashLinesContinue(hashes: seq<string>)
    requires forall i :: 0 <= i < |hashes| ==> HexDigest(hashes[i])
    ensures Classified(HashLines(hashes)) == Continuations(hashes)
  {
    if hashes != [] {
      var last := |hashes| == 1;
      var line := "    " + HashText(hashes[0], last);
      HashLine(hashes[0], last);
      forall i | 0 <= i < |hashes[1..]| ensures HexDigest(hashes[1..][i]) { assert hashes[1..][i] == hashes[i + 1]; }
      HashLinesContinue(hashes[1..]);
      ClassifiedConcat([line], HashLines(hashes[1..]));
      assert Classified([line]) == [Classify(line)];
    }
  }

  /** Continuation lines extend the entry they follow. */
  lemma {:induction false} ScanHashes(before: seq<Line>, hashes: seq<string>, done: seq<Entry>, head: string,
                                      rest: seq<string>)
    requires Scan(before) == Scanned(done + [Entry(head, rest)], [])
    ensures Scan(before + Continuations(hashes)) == Scanned(done + [Entry(head, rest + HashTexts(hashes))], [])
    decreases |hashes|
  {
    if hashes == [] {
      assert before + [] == before && rest + [] == rest;
    } else {
      var text := HashText(hashes[0], |hashes| == 1);
      var next := before + [Continuation(text)];
      assert next[..|next| - 1] == before;
      var es := done + [Entry(head, rest)];
      assert es[|es| - 1 := Entry(head, rest + [text])] == done + [Entry(head, rest + [text])];
      ScanHashes(next, hashes[1..], done, head, rest + [text]);
      Assoc(before, [Continuation(text)], Continuations(hashes[1..]));
      Assoc(rest, [text], HashTexts(hashes[1..]));
    }
  }

  function EntryOf(l: Locked): Entry { Entry(PinText(l) + " \\", HashTexts(l.hashes)) }

  lemma LayoutClassified(l: Locked)
    requires Lockable(l)
    ensures Classified(Layout(l)) == [Head(PinText(l) + " \\")] + Continuations(l.hashes)
  {
    var head := PinText(l) + " \\";
    HeadLine(l);
    HashLinesContinue(l.hashes);
    ClassifiedConcat([head], HashLines(l.hashes));
    assert Classified([head]) == [Classify(head)];
  }

  lemma ScanBlock(before: seq<Line>, done: seq<Entry>, head: string, hashes: seq<string>)
    requires Scan(before) == Scanned(done, [])
    ensures Scan(before + ([Head(head)] + Continuations(hashes)))
            == Scanned(done + [Entry(head, HashTexts(hashes))], [])
  {
    var next := before + [Head(head)];
    assert next[..|next| - 1] == before;
    ScanHashes(next, hashes, done, head, []);
    Assoc(before, [Head(head)], Continuations(hashes));
    assert [] + HashTexts(hashes) == HashTexts(hashes);
  }

  lemma ScanLayout(before: seq<Line>, done: seq<Entry>, l: Locked)
    requires Scan(before) == Scanned(done, []) && Lockable(l)
    ensures Scan(before + Classified(Layout(l))) == Scanned(done + [EntryOf(l)], [])
  {
    LayoutClassified(l);
    ScanBlock(before, done, PinText(l) + " \\", l.hashes);
  }

  lemma {:induction false} HasHashAfter(a: string, b: string)
    requires HasHash(b)
    ensures HasHash(a + b)
  {
    if a == "" {
      assert a + b == b;
    } else {
      assert (a + b)[1..] == a[1..] + b;
      HasHashAfter(a[1..], b);
    }
  }

  lemma EntryIsOk(l: Locked)
    requires Lockable(l)
    ensures EntryOk(EntryOf(l)) && MatchPin(Requirement(EntryOf(l))) == Some(Pin(l.name, l.version))
  {
    HeadLine(l);
    PinMatches(l);
    EntryIsHashed(l);
  }

  lemma EntryIsHashed(l: Locked)
    requires Lockable(l)
    ensures HasHash(Joined(EntryOf(l)))
  {
    var e, text := EntryOf(l), HashText(l.hashes[0], |l.hashes| == 1);
    var tail := Join(" ", e.rest);
    HashLine(l.hashes[0], |l.hashes| == 1);
    assert e.rest[0] == text && text <= tail;
    HashHereExtends(text, tail);
    assert ([e.head] + e.rest)[1..] == e.rest;
    assert Joined(e) == (e.head + " ") + tail;
    HasHashAfter(e.head + " ", tail);
  }

  lemma HashHereExtends(text: string, tail: string)
    requires HashHere(text) && text <= tail
    ensures HashHere(tail)
  {
    forall i | |HASH| <= i < |HASH| + 64 ensures IsHex(tail[i]) { assert tail[i] == text[i]; }
  }

  function Entries(ls: seq<Locked>): seq<Entry> { seq(|ls|, i requires 0 <= i < |ls| => EntryOf(ls[i])) }

  lemma EntriesSnoc(ls: seq<Locked>)
    requires ls != []
    ensures Entries(ls) == Entries(ls[..|ls| - 1]) + [EntryOf(ls[|ls| - 1])]
  {
  }

  lemma AssessedSnoc(es: seq<Entry>, e: Entry)
    ensures Assessed(es + [e]) == Assessed(es) + [Assess(e)]
  {
  }

  ghost predicate AllLockable(ls: seq<Locked>) { forall i :: 0 <= i < |ls| ==> Lockable(ls[i]) }

  lemma {:induction false} ScanLockFile(ls: seq<Locked>)
    requires AllLockable(ls)
    ensures Scan(Classified(LockFile(ls))) == Scanned(Entries(ls), [])
  {
    if ls != [] {
      var n := |ls| - 1;
      ScanLockFile(ls[..n]);
      ScanLayout(Classified(LockFile(ls[..n])), Entries(ls[..n]), ls[n]);
      ClassifiedConcat(LockFile(ls[..n]), Layout(ls[n]));
      EntriesSnoc(ls);
    }
  }

  lemma {:induction false} JudgeLockFile(ls: seq<Locked>)
    requires AllLockable(ls)
    ensures Judge(Parsed(map[], []), Assessed(Entries(ls))) == Parsed(PinsOf(ls), [])
  {
    if ls != [] {
      var n := |ls| - 1;
      JudgeLockFile(ls[..n]);
      EntryIsOk(ls[n]);
      var vs, v := Assessed(Entries(ls[..n])), Assess(EntryOf(ls[n]));
      EntriesSnoc(ls);
      AssessedSnoc(Entries(ls[..n]), EntryOf(ls[n]));
      assert v == Pinned(Pin(ls[n].name, ls[n].version), true, v.text);
      JudgeLast(Parsed(map[], []), vs, v);
    }
  }

  lemma JudgeLast(start: Parsed, vs: seq<Verdict>, v: Verdict)
    ensures Judge(start, vs + [v]) == JudgeOne(Judge(start, vs), v)
  {
    assert (vs + [v])[..|vs|] == vs;
  }

  // ---------------------------------------------------------------- headers, notes and trailing comments

  /** A line without its trailing comment. */
  function Bare(raw: string): string { RStrip(BeforeComment(raw)) }

  /** The lines without blank lines, comment lines and trailing comments. */
  function Bared(lines: seq<string>): seq<string> {
    if lines == [] then []
    else Bared(lines[..|lines| - 1]) + (if Note(lines[|lines| - 1]) then [] else [Bare(lines[|lines| - 1])])
  }

  lemma {:induction false} BeforeCommentAgain(s: string)
    ensures forall i :: 0 <= i < |BeforeComment(s)| - 1 ==>
              !(BeforeComment(s)[i] == ' ' && BeforeComment(s)[i + 1] == '#')
  {
    if |s| >= 2 && !(s[0] == ' ' && s[1] == '#') {
      var b, rest := BeforeComment(s), BeforeComment(s[1..]);
      BeforeCommentAgain(s[1..]);
      BeforeCommentIsPrefix(s[1..]);
      assert b == [s[0]] + rest;
      forall i | 0 <= i < |b| - 1 ensures !(b[i] == ' ' && b[i + 1] == '#') {
        if i == 0 { assert b[1] == rest[0] == s[1]; } else { assert b[i] == rest[i - 1] && b[i + 1] == rest[i]; }
      }
    }
  }

  /** Cutting the comment off first changes nothing. */
  lemma BareClassified(raw: string)
    requires !Note(raw)
    ensures Classify(Bare(raw)) == Classify(raw)
  {
    var cut, line := BeforeComment(raw), Bare(raw);
    BeforeCommentAgain(raw);
    assert line <= cut;
    forall i | 0 <= i < |line| - 1 ensures !(line[i] == ' ' && line[i + 1] == '#') {
      assert line[i] == cut[i] && line[i + 1] == cut[i + 1];
    }
    NoComment(line);
    BeforeCommentIsPrefix(raw);
    LStripOfPrefix(line, raw);
    assert RStrip(line) == line;
  }

  lemma ScanSnoc(lines: seq<string>, raw: string)
    ensures Scan(Classified(lines + [raw])) == ScanLine(Scan(Classified(lines)), Classify(raw))
  {
    ClassifiedSnoc(lines, raw);
    ScanOne(Classified(lines), Classify(raw));
  }

  lemma ClassifiedSnoc(lines: seq<string>, raw: string)
    ensures Classified(lines + [raw]) == Classified(lines) + [Classify(raw)]
  {
  }

  lemma ScanOne(lines: seq<Line>, l: Line)
    ensures Scan(lines + [l]) == ScanLine(Scan(lines), l)
  {
    assert (lines + [l])[..|lines|] == lines;
  }

  /** Blank lines, comment lines and trailing comments, wherever they stand, do not change what is read. */
  lemma {:induction false} NotesAreIgnored(lines: seq<string>)
    ensures Scan(Classified(lines)) == Scan(Classified(Bared(lines)))
  {
    if lines != [] {
      var n := |lines| - 1;
      var raw, init := lines[n], Bared(lines[..n]);
      NotesAreIgnored(lines[..n]);
      assert lines == lines[..n] + [raw];
      ScanSnoc(lines[..n], raw);
      if Note(raw) {
        ClassifyExactly(raw);
        assert Bared(lines) == init;
      } else {
        BareClassified(raw);
        ScanSnoc(init, Bare(raw));
      }
    }
  }

  /** The round trip: whatever header, annotations and comments pip-compile puts around them, locked libraries
      are parsed back to exactly their pins, without a problem. */
  lemma LockRoundTrip(lines: seq<string>, ls: seq<Locked>)
    requires AllLockable(ls) && Bared(lines) == LockFile(ls)
    ensures ParseLock(lines) == Parsed(PinsOf(ls), [])
  {
    NotesAreIgnored(lines);
    ScanLockFile(ls);
    JudgeLockFile(ls);
  }

  /** A whole file: a header, and behind every library the lines that say who asked for it. */
  function Annotated(header: seq<string>, ls: seq<Locked>, via: seq<seq<string>>): seq<string>
    requires |via| == |ls|
  {
    if ls == [] then header
    else Annotated(header, ls[..|ls| - 1], via[..|ls| - 1]) + (Layout(ls[|ls| - 1]) + via[|ls| - 1])
  }

  predicate AllNotes(lines: seq<string>) { forall i :: 0 <= i < |lines| ==> Note(lines[i]) }

  lemma {:induction false} BaredConcat(a: seq<string>, b: seq<string>)
    ensures Bared(a + b) == Bared(a) + Bared(b)
  {
    if b == [] {
      assert a + b == a && Bared(a) + [] == Bared(a);
    } else {
      var n := |b| - 1;
      assert (a + b)[..|a + b| - 1] == a + b[..n] && (a + b)[|a + b| - 1] == b[n];
      BaredConcat(a, b[..n]);
      Assoc(Bared(a), Bared(b[..n]), if Note(b[n]) then [] else [Bare(b[n])]);
    }
  }

  lemma {:induction false} BaredNotes(lines: seq<string>)
    requires AllNotes(lines)
    ensures Bared(lines) == []
  {
    if lines != [] { BaredNotes(lines[..|lines| - 1]); }
  }

  lemma BaredOne(line: string)
    requires !Note(line) && Bare(line) == line
    ensures Bared([line]) == [line]
  {
    assert [line][..0] == [] && Bared([]) == [];
  }

  lemma {:induction false} BaredHashes(hashes: seq<string>)
    requires forall i :: 0 <= i < |hashes| ==> HexDigest(hashes[i])
    ensures Bared(HashLines(hashes)) == HashLines(hashes)
  {
    if hashes != [] {
      HashLine(hashes[0], |hashes| == 1);
      forall i | 0 <= i < |hashes[1..]| ensures HexDigest(hashes[1..][i]) { assert hashes[1..][i] == hashes[i + 1]; }
      BaredHashes(hashes[1..]);
      BaredOne("    " + HashText(hashes[0], |hashes| == 1));
      BaredConcat(["    " + HashText(hashes[0], |hashes| == 1)], HashLines(hashes[1..]));
    }
  }

  lemma BaredLayout(l: Locked)
    requires Lockable(l)
    ensures Bared(Layout(l)) == Layout(l)
  {
    HeadLine(l);
    BaredOne(PinText(l) + " \\");
    BaredHashes(l.hashes);
    BaredConcat([PinText(l) + " \\"], HashLines(l.hashes));
  }

  lemma {:induction false} BaredAnnotated(header: seq<string>, ls: seq<Locked>, via: seq<seq<string>>)
    requires AllLockable(ls) && |via| == |ls| && AllNotes(header) && forall i :: 0 <= i < |via| ==> AllNotes(via[i])
    ensures Bared(Annotated(header, ls, via)) == LockFile(ls)
  {
    if ls == [] {
      BaredNotes(header);
    } else {
      var n := |ls| - 1;
      BaredAnnotated(header, ls[..n], via[..n]);
      BaredConcat(Annotated(header, ls[..n], via[..n]), Layout(ls[n]) + via[n]);
      BaredConcat(Layout(ls[n]), via[n]);
      BaredLayout(ls[n]);
      BaredNotes(via[n]);
    }
  }

  /** So every file pip-compile writes is read back to its pins. */
  lemma AnnotatedRoundTrip(header: seq<string>, ls: seq<Locked>, via: seq<seq<string>>)
    requires AllLockable(ls) && |via| == |ls| && AllNotes(header) && forall i :: 0 <= i < |via| ==> AllNotes(via[i])
    ensures ParseLock(Annotated(header, ls, via)) == Parsed(PinsOf(ls), [])
  {
    BaredAnnotated(header, ls, via);
    LockRoundTrip(Annotated(header, ls, via), ls);
  }

  /** When no two names normalize alike, the pins hold every entry under its own name, and nothing else. */
  lemma PinsAreExact(ls: seq<Locked>)
    requires forall i, j | 0 <= i < j < |ls| :: Normalize(ls[i].name) != Normalize(ls[j].name)
    ensures forall i | 0 <= i < |ls| ::
              Normalize(ls[i].name) in PinsOf(ls) && PinsOf(ls)[Normalize(ls[i].name)] == ls[i].version
    ensures forall k | k in PinsOf(ls) :: exists i :: 0 <= i < |ls| && Normalize(ls[i].name) == k
  {
    forall i | 0 <= i < |ls|
      ensures Normalize(ls[i].name) in PinsOf(ls) && PinsOf(ls)[Normalize(ls[i].name)] == ls[i].version
    {
      PinIsHeld(ls, i);
    }
    forall k | k in PinsOf(ls) ensures exists i :: 0 <= i < |ls| && Normalize(ls[i].name) == k {
      var i := PinIsListed(ls, k);
    }
  }

  lemma {:induction false} PinIsHeld(ls: seq<Locked>, i: nat)
    requires i < |ls| && forall i, j | 0 <= i < j < |ls| :: Normalize(ls[i].name) != Normalize(ls[j].name)
    ensures Normalize(ls[i].name) in PinsOf(ls) && PinsOf(ls)[Normalize(ls[i].name)] == ls[i].version
  {
    var n := |ls| - 1;
    if i < n {
      PinIsHeld(ls[..n], i);
      assert Normalize(ls[i].name) != Normalize(ls[n].name);
    }
  }

  lemma {:induction false} PinIsListed(ls: seq<Locked>, k: string) returns (i: nat)
    requires k in PinsOf(ls)
    ensures i < |ls| && Normalize(ls[i].name) == k
  {
    i := |ls| - 1;
    if k != Normalize(ls[i].name) { i := PinIsListed(ls[..i], k); }
  }

  // ---------------------------------------------------------------- the line the rule does not see

  lemma {:induction false} HasHashBefore(a: string, b: string)
    requires HasHash(a)
    ensures HasHash(a + b)
  {
    if HashHere(a) {
      HashHereExtends(a, a + b);
    } else {
      assert (a + b)[1..] == a[1..] + b;
      HasHashBefore(a[1..], b);
    }
  }

  lemma {:induction false} JoinSnoc(pieces: seq<string>, last: string)
    requires pieces != []
    ensures Join(" ", pieces + [last]) == Join(" ", pieces) + (" " + last)
  {
    if |pieces| == 1 {
      assert (pieces + [last])[1..] == [last];
      assert Join(" ", pieces + [last]) == pieces[0] + " " + last;
    } else {
      assert (pieces + [last])[1..] == pieces[1..] + [last];
      JoinSnoc(pieces[1..], last);
    }
  }

  lemma MoreTextStaysOk(e: Entry, text: string)
    requires EntryOk(e)
    ensures Assess(Entry(e.head, e.rest + [text])) == Assess(e)
  {
    assert [e.head] + (e.rest + [text]) == ([e.head] + e.rest) + [text];
    JoinSnoc([e.head] + e.rest, text);
    HasHashBefore(Joined(e), " " + text);
  }

  /** A line that continues an entry escapes the rule: behind a clean lock, an indented requirement is taken for
      a part of the entry before it, and nothing is reported. */
  lemma IndentedLineEscapes(lines: seq<string>, raw: string)
    requires ParseLock(lines).problems == [] && Classify(raw).Continuation?
    ensures ParseLock(lines + [raw]) == ParseLock(lines)
  {
    ScanSnoc(lines, raw);
    CleanMeansPinnedAndHashed(lines);
    ContinuedStaysOk(Scan(Classified(lines)), Classify(raw).text);
  }

  lemma ContinuedStaysOk(before: Scanned, text: string)
    requires forall e | e in before.entries :: EntryOk(e)
    ensures Assessed(ScanLine(before, Continuation(text)).entries) == Assessed(before.entries)
    ensures ScanLine(before, Continuation(text)).problems == before.problems
  {
    if before.entries != [] {
      var n := |before.entries| - 1;
      assert before.entries[n] in before.entries;
      MoreTextStaysOk(before.entries[n], text);
      LastReplaced(before.entries, Entry(before.entries[n].head, before.entries[n].rest + [text]));
    }
  }

  lemma LastReplaced(es: seq<Entry>, e: Entry)
    requires es != [] && Assess(e) == Assess(es[|es| - 1])
    ensures Assessed(es[|es| - 1 := e]) == Assessed(es)
  {
  }

  /** A line of two spaces and a requirement is such a line. */
  lemma IndentedRequirement(req: string)
    requires req != "" && AlphaNum(req[0]) && forall i :: 0 <= i < |req| ==> !Space(req[i])
    ensures Classify("  " + req) == Continuation(req)
  {
    var s := "  " + req;
    assert s[0] == ' ' && s[1..] == " " + req && s[1..][1..] == req
           && LStrip(s) == LStrip(" " + req) == LStrip(req) == req;
    assert forall i | 0 <= i < |req| :: req[i] != ' ';
    forall i | 0 <= i < |s| - 1 ensures !(s[i] == ' ' && s[i + 1] == '#') {
      if i >= 2 { assert s[i] == req[i - 2]; }
      if i == 1 { assert s[2] == req[0]; }
    }
    IndentedLine("  ", req);
  }
}
