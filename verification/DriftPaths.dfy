/**
 * platform/gitops/argocd_drift.py, _walk: the paths as the report prints them, and when no two of them coincide.
 */
module DriftPaths {
  import opened Util
  import opened Drift

  // ---------------------------------------------------------------- the printed paths

  function Decimal(n: nat): (s: string)
    ensures AllDigits(s)
  {
    (if n < 10 then "" else Decimal(n / 10)) + [('0' as int + n % 10) as char]
  }

  /** The path of a child, as the walk passes it down. */
  function Extend(path: string, s: Step): string {
    match s
    case Key(k) => if path == "" then k else path + "." + k
    case Index(i) => path + "[" + Decimal(i) + "]"
  }

  function Printed(p: Path): string {
    if p == [] then "" else Extend(Printed(p[..|p| - 1]), p[|p| - 1])
  }

  datatype Line = Line(path: string, desired: Shown, live: Shown)

  /** The walk with the text of the path built on the way down. */
  function WalkAt(desired: Json, live: Json, path: string): seq<Line> {
    if desired.Object? && live.Object? then WalkMembersAt(desired.members, live.members, path)
    else if desired.Array? && live.Array? then
      if Length(desired.items) != Length(live.items) then
        [Line(path, Count(Length(desired.items)), Count(Length(live.items)))]
      else WalkItemsAt(desired.items, live.items, path, 0)
    else if Differ(desired, live) then [Line(path, Subtree(desired), Subtree(live))]
    else []
  }

  function WalkMembersAt(desired: Members, live: Members, path: string): seq<Line> {
    match desired
    case NoMembers => []
    case Member(k, d, more) =>
      (if HasKey(live, k) then WalkAt(d, Get(live, k), Extend(path, Key(k)))
       else [Line(Extend(path, Key(k)), Subtree(d), Absent)])
      + WalkMembersAt(more, live, path)
  }

  function WalkItemsAt(desired: Items, live: Items, path: string, i: nat): seq<Line>
    requires Length(desired) == Length(live)
  {
    match desired
    case NoItems => []
    case Item(d, more) => WalkAt(d, live.head, Extend(path, Index(i))) + WalkItemsAt(more, live.tail, path, i + 1)
  }

  /** Reports found at `p`, as lines. */
  function Lines(p: Path, rs: seq<Report>): seq<Line> {
    seq(|rs|, i requires 0 <= i < |rs| => Line(Printed(p + rs[i].path), rs[i].desired, rs[i].live))
  }

  lemma LinesUnder(p: Path, s: Step, rs: seq<Report>)
    ensures Lines(p, Under(s, rs)) == Lines(p + [s], rs)
  {
    forall i | 0 <= i < |rs| ensures p + ([s] + rs[i].path) == (p + [s]) + rs[i].path {}
  }

  lemma LinesConcat(p: Path, a: seq<Report>, b: seq<Report>)
    ensures Lines(p, a + b) == Lines(p, a) + Lines(p, b)
  {
  }

  lemma PrintedSnoc(p: Path, s: Step)
    ensures Printed(p + [s]) == Extend(Printed(p), s)
  {
    assert (p + [s])[..|p|] == p;
  }

  /** The lines are the reports, each with its path printed. */
  lemma {:induction false} WalkPrints(desired: Json, live: Json, p: Path)
    ensures WalkAt(desired, live, Printed(p)) == Lines(p, Walk(desired, live))
  {
    if desired.Object? && live.Object? {
      MembersPrint(desired.members, live.members, p);
    } else if desired.Array? && live.Array? && Length(desired.items) == Length(live.items) {
      ItemsPrint(desired.items, live.items, p, 0);
    } else {
      assert p + [] == p;
    }
  }

  lemma {:induction false} MembersPrint(ms: Members, live: Members, p: Path)
    ensures WalkMembersAt(ms, live, Printed(p)) == Lines(p, WalkMembers(ms, live))
  {
    if ms.Member? {
      PrintedSnoc(p, Key(ms.key));
      MembersPrint(ms.more, live, p);
      if HasKey(live, ms.key) {
        var sub := Walk(ms.value, Get(live, ms.key));
        WalkPrints(ms.value, Get(live, ms.key), p + [Key(ms.key)]);
        LinesUnder(p, Key(ms.key), sub);
        LinesConcat(p, Under(Key(ms.key), sub), WalkMembers(ms.more, live));
      } else {
        LinesConcat(p, [Report([Key(ms.key)], Subtree(ms.value), Absent)], WalkMembers(ms.more, live));
      }
    }
  }

  lemma {:induction false} ItemsPrint(xs: Items, live: Items, p: Path, i: nat)
    requires Length(xs) == Length(live)
    ensures WalkItemsAt(xs, live, Printed(p), i) == Lines(p, WalkItems(xs, live, i))
  {
    if xs.Item? {
      PrintedSnoc(p, Index(i));
      WalkPrints(xs.head, live.head, p + [Index(i)]);
      ItemsPrint(xs.tail, live.tail, p, i + 1);
      LinesUnder(p, Index(i), Walk(xs.head, live.head));
      LinesConcat(p, Under(Index(i), Walk(xs.head, live.head)), WalkItems(xs.tail, live.tail, i + 1));
    }
  }

  // ---------------------------------------------------------------- reading a printed path back

  predicate Mark(c: char) { c == '.' || c == '[' }

  predicate Unmarked(s: string) { forall i :: 0 <= i < |s| ==> !Mark(s[i]) }

  /** A key that cannot be taken for a path of its own. */
  predicate PlainKey(k: string) { k != "" && Unmarked(k) }

  predicate PlainPath(p: Path) { forall i | 0 <= i < |p| && p[i].Key? :: PlainKey(p[i].k) }

  function Value(s: string): int {
    if s == "" then 0 else 10 * Value(s[..|s| - 1]) + (s[|s| - 1] as int - '0' as int)
  }

  lemma {:induction false} DecimalReadsBack(n: nat)
    ensures Value(Decimal(n)) == n
  {
    var last := ('0' as int + n % 10) as char;
    var init := if n < 10 then "" else Decimal(n / 10);
    assert (init + [last])[..|init|] == init;
    if n >= 10 { DecimalReadsBack(n / 10); }
  }

  /** The last mark of a text splits it in one way. */
  lemma LastMarkSplits(a: string, c: char, rest: string, b: string, d: char, tail: string)
    requires a + [c] + rest == b + [d] + tail && Mark(c) && Mark(d) && Unmarked(rest) && Unmarked(tail)
    ensures a == b && c == d && rest == tail
  {
    var t := a + [c] + rest;
    assert t[|a|] == c && t[|b|] == d;
    assert forall i | |a| < i < |t| :: t[i] == rest[i - |a| - 1];
    assert forall i | |b| < i < |t| :: t[i] == tail[i - |b| - 1];
    assert t[..|a|] == a && t[..|b|] == b;
    assert t[|a| + 1..] == rest && t[|b| + 1..] == tail;
  }

  /** What an extended path ends in, behind its last mark. */
  function Piece(s: Step): string { match s case Key(k) => k case Index(i) => Decimal(i) + "]" }

  function MarkOf(s: Step): char { if s.Key? then '.' else '[' }

  lemma PieceIsUnmarked(s: Step)
    requires s.Key? ==> PlainKey(s.k)
    ensures Unmarked(Piece(s)) && Piece(s) != ""
  {
    if s.Index? {
      forall i | 0 <= i < |Piece(s)| ensures !Mark(Piece(s)[i]) {
        if i < |Decimal(s.i)| { assert IsDigit(Piece(s)[i]); }
      }
    }
  }

  /** A child's path is the parent's, a mark and its own piece; a key at the top has no mark. */
  lemma ExtendIs(path: string, s: Step)
    ensures Extend(path, s) == if s.Key? && path == "" then Piece(s) else path + [MarkOf(s)] + Piece(s)
  {
  }

  /** Only a key at the top is printed without a mark. */
  lemma ExtendIsUnmarkedIff(path: string, s: Step)
    requires s.Key? ==> PlainKey(s.k)
    ensures Unmarked(Extend(path, s)) <==> s.Key? && path == ""
  {
    PieceIsUnmarked(s);
    ExtendIs(path, s);
    assert (path + [MarkOf(s)] + Piece(s))[|path|] == MarkOf(s);
  }

  lemma PrintedIsEmptyIff(p: Path)
    requires PlainPath(p)
    ensures Printed(p) == "" <==> p == []
  {
    if p != [] { ExtendIs(Printed(p[..|p| - 1]), p[|p| - 1]); }
  }

  lemma ExtendReadsBack(a: string, s: Step, b: string, t: Step)
    requires (s.Key? ==> PlainKey(s.k)) && (t.Key? ==> PlainKey(t.k)) && Extend(a, s) == Extend(b, t)
    ensures a == b && s == t
  {
    PieceIsUnmarked(s);
    PieceIsUnmarked(t);
    ExtendIs(a, s);
    ExtendIs(b, t);
    ExtendIsUnmarkedIff(a, s);
    ExtendIsUnmarkedIff(b, t);
    if !(s.Key? && a == "") {
      LastMarkSplits(a, MarkOf(s), Piece(s), b, MarkOf(t), Piece(t));
    }
    if s.Index? { IndexReadsBack(s.i, t.i); }
  }

  lemma IndexReadsBack(m: nat, n: nat)
    requires Decimal(m) + "]" == Decimal(n) + "]"
    ensures m == n
  {
    var a, b := Decimal(m) + "]", Decimal(n) + "]";
    assert a[..|a| - 1] == Decimal(m) && b[..|b| - 1] == Decimal(n);
    DecimalReadsBack(m);
    DecimalReadsBack(n);
  }

  /** Paths over plain keys are told apart by their text. */
  lemma {:induction false} PrintedReadsBack(p: Path, q: Path)
    requires PlainPath(p) && PlainPath(q) && Printed(p) == Printed(q)
    ensures p == q
  {
    PrintedIsEmptyIff(p);
    PrintedIsEmptyIff(q);
    if p != [] {
      var m, n := |p| - 1, |q| - 1;
      ExtendReadsBack(Printed(p[..m]), p[m], Printed(q[..n]), q[n]);
      PrintedReadsBack(p[..m], q[..n]);
      assert p == p[..m] + [p[m]] && q == q[..n] + [q[n]];
    }
  }

  // ---------------------------------------------------------------- no two lines about one path

  predicate PlainKeys(j: Json) {
    match j
    case Leaf(_) => true
    case Object(ms) => PlainMembers(ms)
    case Array(xs) => PlainItems(xs)
  }

  predicate PlainMembers(ms: Members) {
    match ms case NoMembers => true case Member(k, v, more) => PlainKey(k) && PlainKeys(v) && PlainMembers(more)
  }

  predicate PlainItems(xs: Items) {
    match xs case NoItems => true case Item(x, tail) => PlainKeys(x) && PlainItems(tail)
  }

  lemma {:induction false} PlainGet(ms: Members, k: string)
    requires PlainMembers(ms) && HasKey(ms, k)
    ensures PlainKey(k) && PlainKeys(Get(ms, k))
  {
    if ms.key != k { PlainGet(ms.more, k); }
  }

  lemma {:induction false} PlainAt(xs: Items, i: nat)
    requires PlainItems(xs) && i < Length(xs)
    ensures PlainKeys(At(xs, i))
  {
    if i > 0 { PlainAt(xs.tail, i - 1); }
  }

  lemma {:induction false} ResolvedIsPlain(j: Json, p: Path)
    requires PlainKeys(j) && Resolve(j, p).Some?
    ensures PlainPath(p)
    decreases |p|
  {
    if p != [] {
      match p[0]
      case Key(k) =>
        PlainGet(j.members, k);
        ResolvedIsPlain(Get(j.members, k), p[1..]);
      case Index(i) =>
        PlainAt(j.items, i);
        ResolvedIsPlain(At(j.items, i), p[1..]);
      assert p == [p[0]] + p[1..];
    }
  }

  /** When no key of desired is empty or holds a dot or an opening bracket, every line has a path of its own. */
  lemma PrintedPathsDiffer(desired: Json, live: Json, i: nat, j: nat)
    requires Proper(desired) && PlainKeys(desired) && i < j < |WalkAt(desired, live, "")|
    ensures WalkAt(desired, live, "")[i].path != WalkAt(desired, live, "")[j].path
  {
    var rs := Walk(desired, live);
    WalkPrints(desired, live, []);
    assert [] + rs[i].path == rs[i].path && [] + rs[j].path == rs[j].path;
    ReportsAreTruthful(desired, live, i);
    ReportsAreTruthful(desired, live, j);
    ResolvedIsPlain(desired, rs[i].path);
    ResolvedIsPlain(desired, rs[j].path);
    ReportsAreAntichain(desired, live);
    assert !(rs[i].path <= rs[j].path);
    if Printed(rs[i].path) == Printed(rs[j].path) { PrintedReadsBack(rs[i].path, rs[j].path); }
  }

  /** A dotted key is printed like the path it spells: `a.b` is reported twice, for the key and for `b` in `a`. */
  lemma DottedKeyCollides(a: string, b: string)
    requires a != ""
    ensures var one, two := Leaf(Number(1.0)), Leaf(Number(2.0));
            var desired := Object(Member(a + "." + b, one, Member(a, Object(Member(b, one, NoMembers)), NoMembers)));
            var live := Object(Member(a, Object(Member(b, two, NoMembers)), NoMembers));
            Proper(desired) && |WalkAt(desired, live, "")| == 2
            && WalkAt(desired, live, "")[0].path == WalkAt(desired, live, "")[1].path == a + "." + b
  {
    var one, two := Leaf(Number(1.0)), Leaf(Number(2.0));
    assert |a + "." + b| > |a|;
    var inner, there := Member(b, one, NoMembers), Member(b, two, NoMembers);
    assert WalkMembersAt(inner, there, a) == [Line(a + "." + b, Subtree(one), Subtree(two))];
    assert WalkAt(Object(inner), Object(there), a) == WalkMembersAt(inner, there, a);
    var live := Member(a, Object(there), NoMembers);
    var more := Member(a, Object(inner), NoMembers);
    assert WalkMembersAt(more, live, "") == WalkAt(Object(inner), Object(there), a);
    assert !HasKey(live, a + "." + b) && !HasKey(more, a + "." + b);
    assert Proper(Object(inner)) && ProperMembers(more);
    assert ProperMembers(Member(a + "." + b, one, more));
  }

  /** So is a key that ends in an index: `a[0]` is reported for the key and for the first item of `a`. */
  lemma IndexedKeyCollides(a: string)
    requires a != ""
    ensures var one, two := Leaf(Number(1.0)), Leaf(Number(2.0));
            var desired := Object(Member(a + "[0]", one, Member(a, Array(Item(one, NoItems)), NoMembers)));
            var live := Object(Member(a, Array(Item(two, NoItems)), NoMembers));
            Proper(desired) && |WalkAt(desired, live, "")| == 2
            && WalkAt(desired, live, "")[0].path == WalkAt(desired, live, "")[1].path == a + "[0]"
  {
    var one, two := Leaf(Number(1.0)), Leaf(Number(2.0));
    assert |a + "[0]"| > |a|;
    var inner, there := Item(one, NoItems), Item(two, NoItems);
    assert Decimal(0) == "0";
    assert a + "[" + "0" + "]" == a + "[0]";
    assert Length(inner) == Length(there) == 1;
    assert WalkItemsAt(inner, there, a, 0) == [Line(a + "[0]", Subtree(one), Subtree(two))];
    assert WalkAt(Array(inner), Array(there), a) == WalkItemsAt(inner, there, a, 0);
    var live := Member(a, Array(there), NoMembers);
    var more := Member(a, Array(inner), NoMembers);
    assert WalkMembersAt(more, live, "") == WalkAt(Array(inner), Array(there), a);
    assert !HasKey(live, a + "[0]") && !HasKey(more, a + "[0]");
    assert Proper(Array(inner)) && ProperMembers(more);
    assert ProperMembers(Member(a + "[0]", one, more));
  }
}
