/**
 * platform/olm/audit_operator_updates.py, compare_known_good, render_known_good and support_class: the gate
 * that holds the installed operators to a recorded set.
 */
module KnownGood {
  import opened Util
  import opened Versions

  /** The columns of an audit row the gate reads. */
  datatype Row = Row(package: string, namespace: string, catalog: string, channel: string, installed: Option<string>)

  /** A name as YAML reads it: a text, or a number or boolean that prints as `shown`. */
  datatype Name = Text(shown: string) | Other(shown: string)

  /** An entry of the known-good file. */
  datatype Operator = Operator(package: Name, namespace: Name, version: string)

  type Key = (Name, Name)

  function RowKey(r: Row): Key { (Text(r.package), Text(r.namespace)) }

  /** The order in which missing operators are listed. */
  predicate KeyLess(a: Key, b: Key) {
    Less(a.0.shown, b.0.shown) || (a.0.shown == b.0.shown && Less(a.1.shown, b.1.shown))
  }

  /** Python's `str` of a version that may be missing. */
  function VersionText(v: Option<string>): string { match v case None => "None" case Some(s) => s }

  /** `part` followed by a dot or by the end. */
  predicate ContainsTag(s: string, part: string) {
    (part <= s && (|s| == |part| || s[|part|] == '.')) || (s != "" && ContainsTag(s[1..], part))
  }

  datatype Support = GA | Community | TechPreview | EarlyAccess | Alpha | Staging

  function SupportClass(r: Row): Support {
    var ch, v := LowerCase(r.channel), match r.installed case None => "" case Some(s) => LowerCase(s);
    if Contains(ch, "staging") then Staging
    else if Contains(ch, "alpha") || Contains(v, "-alpha") then Alpha
    else if Contains(ch, "beta") || Contains(ch, "early") || ContainsTag(v, "-ea") then EarlyAccess
    else if Contains(ch, "preview") || ContainsTag(v, "-tp") then TechPreview
    else if r.catalog == "community-operators" then Community
    else GA
  }

  predicate PreGA(c: Support) { c.TechPreview? || c.EarlyAccess? || c.Alpha? || c.Staging? }

  /** Only Differs can be informational; the other two always fail the gate. */
  datatype Finding = Unrecorded(key: Key) | Differs(key: Key, fails: bool) | NotInstalled(key: Key)

  predicate Fails(f: Finding) { f.Differs? ==> f.fails }

  /** (package, namespace) -> version; a later entry of the same key wins. */
  function Recorded(ops: seq<Operator>): map<Key, string> {
    if ops == [] then map[]
    else
      var o := ops[|ops| - 1];
      Recorded(ops[..|ops| - 1])[(o.package, o.namespace) := o.version]
  }

  ghost predicate IsFinding(rows: seq<Row>, recorded: map<Key, string>, f: Finding) {
    match f
    case Unrecorded(k) => k !in recorded && exists i :: 0 <= i < |rows| && RowKey(rows[i]) == k
    case Differs(k, fails) =>
      k in recorded && exists i :: 0 <= i < |rows| && RowDiffers(rows[i], recorded, k, fails)
    case NotInstalled(k) => k in recorded && forall i | 0 <= i < |rows| :: RowKey(rows[i]) != k
  }

  predicate RowDiffers(r: Row, recorded: map<Key, string>, k: Key, fails: bool) {
    RowKey(r) == k && k in recorded && recorded[k] != VersionText(r.installed) && fails == PreGA(SupportClass(r))
  }

  /** What the loop reports of one installed row. */
  function RowFinding(r: Row, recorded: map<Key, string>): seq<Finding> {
    var key := RowKey(r);
    if key !in recorded then [Unrecorded(key)]
    else if recorded[key] != VersionText(r.installed) then [Differs(key, PreGA(SupportClass(r)))]
    else []
  }

  function RowFindings(rows: seq<Row>, recorded: map<Key, string>): seq<Finding> {
    if rows == [] then []
    else RowFindings(rows[..|rows| - 1], recorded) + RowFinding(rows[|rows| - 1], recorded)
  }

  function Installed(rows: seq<Row>): set<Key> { set i | 0 <= i < |rows| :: RowKey(rows[i]) }

  ghost predicate InKeyOrder(fs: seq<Finding>) {
    forall i, j | 0 <= i < j < |fs| :: !KeyLess(fs[j].key, fs[i].key)
  }

  /** `fs` reports every key once as not installed, sorted by the printed key. */
  ghost predicate ReportsMissing(fs: seq<Finding>, keys: set<Key>) {
    multiset(fs) == multiset(set k | k in keys :: NotInstalled(k)) && InKeyOrder(fs)
  }

  /** The findings of the rows in order, then every recorded operator that is not installed, once, sorted. */
  method CompareKnownGood(rows: seq<Row>, ops: seq<Operator>) returns (findings: seq<Finding>)
    ensures RowFindings(rows, Recorded(ops)) <= findings
    ensures ReportsMissing(findings[|RowFindings(rows, Recorded(ops))|..], Recorded(ops).Keys - Installed(rows))
  {
    var recorded := Recorded(ops);
    findings := [];
    var seen: set<Key> := {};
    for n := 0 to |rows|
      invariant seen == Installed(rows[..n])
      invariant findings == RowFindings(rows[..n], recorded)
    {
      var r := rows[n];
      assert rows[..n + 1][..n] == rows[..n];
      InstalledSnoc(rows, n);
      seen := seen + {RowKey(r)};
      findings := findings + RowFinding(r, recorded);
    }
    assert rows[..|rows|] == rows;
    var missing := ListMissing(recorded.Keys - seen);
    assert (findings + missing)[|findings|..] == missing;
    findings := findings + missing;
  }

  method ListMissing(keys: set<Key>) returns (fs: seq<Finding>)
    ensures ReportsMissing(fs, keys)
  {
    fs := [];
    var todo := keys;
    while todo != {}
      invariant todo <= keys && ReportsMissing(fs, keys - todo)
      decreases todo
    {
      var k :| k in todo;
      OneMoreMissing(keys - todo, k);
      assert keys - (todo - {k}) == (keys - todo) + {k};
      todo := todo - {k};
      InsertSorts(NotInstalled(k), fs);
      InsertAdds(NotInstalled(k), fs);
      fs := Insert(NotInstalled(k), fs);
    }
    assert keys - {} == keys;
  }

  function Insert(f: Finding, fs: seq<Finding>): seq<Finding> {
    if fs == [] || !KeyLess(fs[0].key, f.key) then [f] + fs else [fs[0]] + Insert(f, fs[1..])
  }

  lemma {:induction false} InsertAdds(f: Finding, fs: seq<Finding>)
    ensures multiset(Insert(f, fs)) == multiset(fs) + multiset{f}
  {
    if fs != [] {
      assert fs == [fs[0]] + fs[1..];
      InsertAdds(f, fs[1..]);
    }
  }

  lemma {:induction false} InsertSorts(f: Finding, fs: seq<Finding>)
    requires InKeyOrder(fs)
    ensures InKeyOrder(Insert(f, fs))
  {
    if fs == [] || !KeyLess(fs[0].key, f.key) {
      forall g | g in multiset(fs) && KeyLess(g.key, f.key) ensures KeyLess(g.key, fs[0].key) {
        KeyLessCompares(g.key, f.key, fs[0].key);
      }
      FirstBelow(f, fs);
    } else {
      InsertSorts(f, fs[1..]);
      InsertAdds(f, fs[1..]);
      KeyLessIsStrict(fs[0].key, f.key);
      FirstBelow(fs[0], Insert(f, fs[1..]));
    }
  }

  lemma FirstBelow(first: Finding, tail: seq<Finding>)
    requires InKeyOrder(tail) && forall g | g in multiset(tail) :: !KeyLess(g.key, first.key)
    ensures InKeyOrder([first] + tail)
  {
    assert forall j | 0 <= j < |tail| :: tail[j] in multiset(tail);
  }

  lemma {:induction false} LessIsStrict(a: string, b: string)
    requires Less(a, b)
    ensures !Less(b, a)
  {
    if a != "" && a[0] == b[0] { LessIsStrict(a[1..], b[1..]); }
  }

  lemma KeyLessIsStrict(a: Key, b: Key)
    requires KeyLess(a, b)
    ensures !KeyLess(b, a)
  {
    if Less(a.0.shown, b.0.shown) { LessIsStrict(a.0.shown, b.0.shown); }
    if Less(a.1.shown, b.1.shown) { LessIsStrict(a.1.shown, b.1.shown); }
  }

  /** What is below a key is below all that is not below that key. */
  lemma KeyLessCompares(a: Key, b: Key, c: Key)
    requires KeyLess(a, b) && !KeyLess(c, b)
    ensures KeyLess(a, c)
  {
    LessCompares(a.0.shown, b.0.shown, c.0.shown);
    LessCompares(a.1.shown, b.1.shown, c.1.shown);
    LessIsTotal(b.0.shown, c.0.shown);
  }

  lemma LessCompares(a: string, b: string, c: string)
    ensures Less(a, b) && !Less(c, b) ==> Less(a, c)
  {
    if Less(a, b) && Less(b, c) { LessIsTransitive(a, b, c); }
    LessIsTotal(b, c);
  }

  lemma OneMoreMissing(keys: set<Key>, k: Key)
    requires k !in keys
    ensures multiset(set j | j in keys + {k} :: NotInstalled(j))
         == multiset(set j | j in keys :: NotInstalled(j)) + multiset{NotInstalled(k)}
  {
    assert (set j | j in keys + {k} :: NotInstalled(j)) == (set j | j in keys :: NotInstalled(j)) + {NotInstalled(k)};
  }

  lemma InstalledSnoc(rows: seq<Row>, n: nat)
    requires n < |rows|
    ensures Installed(rows[..n + 1]) == Installed(rows[..n]) + {RowKey(rows[n])}
  {
    assert rows[..n + 1] == rows[..n] + [rows[n]];
    forall k ensures k in Installed(rows[..n + 1]) <==> k in Installed(rows[..n]) || k == RowKey(rows[n]) {
      if k in Installed(rows[..n]) {
        var i :| 0 <= i < n && RowKey(rows[..n][i]) == k;
        assert rows[..n + 1][i] == rows[..n][i];
      }
      if k == RowKey(rows[n]) { assert rows[..n + 1][n] == rows[n]; }
    }
  }

  /** Which findings those are: what is installed but not recorded, what differs, what is recorded but missing. */
  lemma FindingsExactly(rows: seq<Row>, ops: seq<Operator>, findings: seq<Finding>, f: Finding)
    requires RowFindings(rows, Recorded(ops)) <= findings
    requires ReportsMissing(findings[|RowFindings(rows, Recorded(ops))|..], Recorded(ops).Keys - Installed(rows))
    ensures f in findings <==> IsFinding(rows, Recorded(ops), f)
  {
    var recorded := Recorded(ops);
    var first := RowFindings(rows, recorded);
    var missing := findings[|first|..];
    assert findings == first + missing;
    RowFindingsExactly(rows, recorded, f);
    assert f in missing <==> f in multiset(missing);
    InstalledExactly(rows, f.key);
  }

  lemma InstalledExactly(rows: seq<Row>, k: Key)
    ensures k in Installed(rows) <==> exists i :: 0 <= i < |rows| && RowKey(rows[i]) == k
  {
  }

  lemma RowFindingsExactly(rows: seq<Row>, recorded: map<Key, string>, f: Finding)
    ensures f in RowFindings(rows, recorded) <==> !f.NotInstalled? && IsFinding(rows, recorded, f)
  {
    RowFindingsIn(rows, recorded, f);
    RowInMeaning(rows, recorded, f);
  }

  lemma {:induction false} RowFindingsIn(rows: seq<Row>, recorded: map<Key, string>, f: Finding)
    ensures f in RowFindings(rows, recorded) <==> RowIn(rows, recorded, f)
  {
    if rows != [] {
      var n := |rows| - 1;
      var init := rows[..n];
      RowFindingsIn(init, recorded, f);
      if i :| 0 <= i < |init| && f in RowFinding(init[i], recorded) { assert rows[i] == init[i]; }
      if i :| 0 <= i < |rows| && f in RowFinding(rows[i], recorded) { assert i < n ==> init[i] == rows[i]; }
    }
  }

  ghost predicate RowIn(rows: seq<Row>, recorded: map<Key, string>, f: Finding) {
    exists i :: 0 <= i < |rows| && f in RowFinding(rows[i], recorded)
  }

  lemma RowInMeaning(rows: seq<Row>, recorded: map<Key, string>, f: Finding)
    ensures RowIn(rows, recorded, f) <==> !f.NotInstalled? && IsFinding(rows, recorded, f)
  {
    match f
    case Unrecorded(k) =>
      if i :| 0 <= i < |rows| && RowKey(rows[i]) == k {
        if k !in recorded { assert f in RowFinding(rows[i], recorded); }
      }
    case Differs(k, fails) =>
      if IsFinding(rows, recorded, f) {
        var i :| 0 <= i < |rows| && RowDiffers(rows[i], recorded, k, fails);
        assert f in RowFinding(rows[i], recorded);
      }
      if i :| 0 <= i < |rows| && f in RowFinding(rows[i], recorded) { assert RowDiffers(rows[i], recorded, k, fails); }
    case NotInstalled(_) =>
  }

  // ---------------------------------------------------------------- what the gate means

  ghost predicate Clean(rows: seq<Row>, ops: seq<Operator>) { forall f :: !IsFinding(rows, Recorded(ops), f) }

  ghost predicate Passes(rows: seq<Row>, ops: seq<Operator>) {
    forall f :: IsFinding(rows, Recorded(ops), f) ==> !Fails(f)
  }

  /** The gate passes exactly when the recorded and the installed operators are the same ones, and every
      pre-GA operator runs the recorded version. */
  lemma PassMeansHeld(rows: seq<Row>, ops: seq<Operator>)
    ensures Passes(rows, ops) <==>
            (forall i | 0 <= i < |rows| :: RowKey(rows[i]) in Recorded(ops))
            && (forall k | k in Recorded(ops) :: exists i :: 0 <= i < |rows| && RowKey(rows[i]) == k)
            && (forall i | 0 <= i < |rows| && RowKey(rows[i]) in Recorded(ops) && PreGA(SupportClass(rows[i])) ::
                  Recorded(ops)[RowKey(rows[i])] == VersionText(rows[i].installed))
  {
    var recorded := Recorded(ops);
    if Passes(rows, ops) {
      forall i | 0 <= i < |rows|
        ensures RowKey(rows[i]) in recorded
        ensures PreGA(SupportClass(rows[i])) ==> recorded[RowKey(rows[i])] == VersionText(rows[i].installed)
      {
        var k := RowKey(rows[i]);
        assert k !in recorded ==> IsFinding(rows, recorded, Unrecorded(k));
        assert !IsFinding(rows, recorded, Differs(k, true));
        assert !RowDiffers(rows[i], recorded, k, true);
      }
      forall k | k in recorded ensures exists i :: 0 <= i < |rows| && RowKey(rows[i]) == k {
        assert !IsFinding(rows, recorded, NotInstalled(k));
      }
    } else {
      var f :| IsFinding(rows, recorded, f) && Fails(f);
      if f.Differs? {
        var i :| 0 <= i < |rows| && RowDiffers(rows[i], recorded, f.key, f.fails);
        assert PreGA(SupportClass(rows[i]));
      }
    }
  }

  /** A name written without quotes and read back; `other` holds the names YAML takes for something else than a
      text, `123` or `on`, and how that prints. */
  function Unquoted(name: string, other: map<string, string>): Name {
    if name in other then Other(other[name]) else Text(name)
  }

  function SnapshotKey(r: Row, other: map<string, string>): Key {
    (Unquoted(r.package, other), Unquoted(r.namespace, other))
  }

  function Entry(r: Row, other: map<string, string>): Operator {
    Operator(SnapshotKey(r, other).0, SnapshotKey(r, other).1, VersionText(r.installed))
  }

  /** The file render_known_good writes for a set of rows, as it is read again. */
  function Snapshot(rows: seq<Row>, other: map<string, string>): (ops: seq<Operator>)
    ensures |ops| == |rows|
    ensures forall i | 0 <= i < |rows| :: ops[i] == Entry(rows[i], other)
  {
    seq(|rows|, i requires 0 <= i < |rows| => Entry(rows[i], other))
  }

  lemma {:induction false} RecordedSnapshot(rows: seq<Row>, other: map<string, string>, k: Key)
    ensures k in Recorded(Snapshot(rows, other)) <==> exists i :: 0 <= i < |rows| && SnapshotKey(rows[i], other) == k
    ensures k in Recorded(Snapshot(rows, other)) ==>
              exists i :: 0 <= i < |rows| && SnapshotKey(rows[i], other) == k
                          && Recorded(Snapshot(rows, other))[k] == VersionText(rows[i].installed)
  {
    if rows != [] {
      var n := |rows| - 1;
      RecordedSnapshot(rows[..n], other, k);
      assert Snapshot(rows, other)[..n] == Snapshot(rows[..n], other);
      if SnapshotKey(rows[n], other) == k {
      } else if k in Recorded(Snapshot(rows[..n], other)) {
        var i :| 0 <= i < n && SnapshotKey(rows[..n][i], other) == k
                 && Recorded(Snapshot(rows[..n], other))[k] == VersionText(rows[..n][i].installed);
        assert SnapshotKey(rows[i], other) == k;
      }
      if i :| 0 <= i < |rows| && SnapshotKey(rows[i], other) == k {
        assert i < n ==> SnapshotKey(rows[..n][i], other) == k;
      }
    }
  }

  /** YAML reads both names of the row back as they are. */
  predicate ReadsBack(r: Row, other: map<string, string>) { r.package !in other && r.namespace !in other }

  /** Every operator has one version in a namespace. */
  ghost predicate OneVersionEach(rows: seq<Row>) {
    forall i, j | 0 <= i < j < |rows| && RowKey(rows[i]) == RowKey(rows[j]) ::
      VersionText(rows[i].installed) == VersionText(rows[j].installed)
  }

  /** A set of rows compares clean with its own snapshot exactly when all its names are read back as texts and no
      operator appears twice in one namespace at two versions. */
  lemma SnapshotIsCleanIff(rows: seq<Row>, other: map<string, string>)
    ensures Clean(rows, Snapshot(rows, other)) <==>
            (forall i | 0 <= i < |rows| :: ReadsBack(rows[i], other)) && OneVersionEach(rows)
  {
    var recorded := Recorded(Snapshot(rows, other));
    if Clean(rows, Snapshot(rows, other)) {
      CleanSnapshot(rows, other);
    } else if forall i | 0 <= i < |rows| :: ReadsBack(rows[i], other) {
      var f :| IsFinding(rows, recorded, f);
      RecordedSnapshot(rows, other, f.key);
      assert forall i | 0 <= i < |rows| :: SnapshotKey(rows[i], other) == RowKey(rows[i]);
    }
  }

  lemma CleanSnapshot(rows: seq<Row>, other: map<string, string>)
    requires Clean(rows, Snapshot(rows, other))
    ensures (forall i | 0 <= i < |rows| :: ReadsBack(rows[i], other)) && OneVersionEach(rows)
  {
    var recorded := Recorded(Snapshot(rows, other));
    forall i | 0 <= i < |rows|
      ensures RowKey(rows[i]) in recorded && ReadsBack(rows[i], other)
      ensures recorded[RowKey(rows[i])] == VersionText(rows[i].installed)
    {
      var k, fails := RowKey(rows[i]), PreGA(SupportClass(rows[i]));
      assert !IsFinding(rows, recorded, Unrecorded(k));
      RecordedSnapshot(rows, other, k);
      assert !IsFinding(rows, recorded, Differs(k, fails));
      assert !RowDiffers(rows[i], recorded, k, fails);
    }
  }
}
