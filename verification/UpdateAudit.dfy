/**
 * platform/olm/audit_operator_updates.py, audit: the findings of one Subscription and the newer channels it
 * lists.
 */
module UpdateAudit {
  import opened Util
  import opened Versions

  /** A channel and the version of its head, if it has one. */
  datatype Channel = Channel(name: string, head: Option<string>)

  datatype Subscription = Subscription(namespace: string, package: string, catalog: string, channel: string,
                                       installed: Option<string>)

  datatype Newer = Newer(channel: string, head: string, prerelease: bool)

  datatype Finding =
    | NotServed
    | NoChannel
    | Behind(head: string)
    | NewerChannel(channel: string, head: string)

  datatype Row = Row(sub: Subscription, channelHead: Option<string>, newer: seq<Newer>, findings: seq<Finding>)

  // ---------------------------------------------------------------- one row

  function HeadOf(heads: seq<Channel>, name: string): Option<string> {
    if heads == [] then None else if heads[0].name == name then heads[0].head else HeadOf(heads[1..], name)
  }

  predicate Published(heads: seq<Channel>, name: string) { exists i :: 0 <= i < |heads| && heads[i].name == name }

  /** The channels of a dict: each name once. */
  ghost predicate DistinctChannels(heads: seq<Channel>) {
    forall i, j | 0 <= i < j < |heads| :: heads[i].name != heads[j].name
  }

  function Above(heads: seq<Channel>, floor: Option<string>): seq<Newer> {
    if heads == [] then []
    else
      var c := heads[0];
      (if c.head.Some? && c.head.value != "" && KeyLt(VersionKey(floor), VersionKey(c.head)) then
         [Newer(c.name, c.head.value, IsPrerelease(c.head))]
       else [])
      + Above(heads[1..], floor)
  }

  function Rank(n: Newer): Key { VersionKey(Some(n.head)) }

  /** Stable descending order: names are inserted from the last to the first, and an equal key goes in front of those
      already there. */
  function Insert(x: Newer, xs: seq<Newer>): seq<Newer> {
    if xs == [] || KeyLe(Rank(xs[0]), Rank(x)) then [x] + xs else [xs[0]] + Insert(x, xs[1..])
  }

  /** Python's `sorted(..., reverse=True)`. */
  function Sorted(xs: seq<Newer>): seq<Newer> {
    if xs == [] then [] else Insert(xs[0], Sorted(xs[1..]))
  }

  /** The first entry of every version, in order. */
  function FirstOfEach(xs: seq<Newer>, seen: set<string>): seq<Newer> {
    if xs == [] then []
    else if xs[0].head in seen then FirstOfEach(xs[1..], seen)
    else [xs[0]] + FirstOfEach(xs[1..], seen + {xs[0].head})
  }

  function Floor(head: Option<string>, installed: Option<string>): Option<string> {
    if head.Some? && head.value != "" then head else installed
  }

  function NewerChannels(heads: seq<Channel>, sub: Subscription): seq<Newer> {
    FirstOfEach(Sorted(Above(heads, Floor(HeadOf(heads, sub.channel), sub.installed))), {})
  }

  predicate IsBehind(installed: Option<string>, head: Option<string>) {
    head.Some? && head.value != "" && KeyLt(VersionKey(installed), VersionKey(head))
  }

  function Report(published: bool, behind: Option<string>, newer: seq<Newer>): seq<Finding> {
    (if published then [] else [NoChannel])
    + (if behind.Some? then [Behind(behind.value)] else [])
    + (if newer == [] then [] else [NewerChannel(newer[0].channel, newer[0].head)])
  }

  /** `served` is None when the catalog does not serve the package. */
  function Findings(served: Option<seq<Channel>>, sub: Subscription): seq<Finding> {
    match served
    case None => [NotServed]
    case Some(heads) =>
      var head := HeadOf(heads, sub.channel);
      var behind := if IsBehind(sub.installed, head) then head else None;
      Report(Published(heads, sub.channel), behind, NewerChannels(heads, sub))
  }

  /** Only the first channel of every version stays. */
  method Dedup(all: seq<Newer>) returns (newer: seq<Newer>)
    ensures newer == FirstOfEach(all, {})
  {
    var seen := {};
    newer := [];
    for i := 0 to |all|
      invariant newer + FirstOfEach(all[i..], seen) == FirstOfEach(all, {})
    {
      assert all[i..][0] == all[i] && all[i..][1..] == all[i + 1..];
      if all[i].head in seen {
        continue;
      }
      seen := seen + {all[i].head};
      Assoc(newer, [all[i]], FirstOfEach(all[i + 1..], seen));
      newer := newer + [all[i]];
    }
    assert all[|all|..] == [];
  }

  method AuditOne(served: Option<seq<Channel>>, sub: Subscription) returns (row: Row)
    ensures row.sub == sub && row.findings == Findings(served, sub)
    ensures served.Some? ==>
              row.newer == NewerChannels(served.value, sub) && row.channelHead == HeadOf(served.value, sub.channel)
    ensures served.None? ==> row.newer == [] && row.channelHead == None
  {
    if served.None? {
      return Row(sub, None, [], [NotServed]);
    }
    var heads := served.value;
    var head := HeadOf(heads, sub.channel);
    var newer := Dedup(Sorted(Above(heads, Floor(head, sub.installed))));
    var behind := if IsBehind(sub.installed, head) then head else None;
    var findings := Reported(Published(heads, sub.channel), behind, newer);
    row := Row(sub, head, newer, findings);
  }

  method Reported(published: bool, behind: Option<string>, newer: seq<Newer>) returns (findings: seq<Finding>)
    ensures findings == Report(published, behind, newer)
  {
    findings := [];
    if !published {
      findings := findings + [NoChannel];
    }
    if behind.Some? {
      findings := findings + [Behind(behind.value)];
    }
    if newer != [] {
      findings := findings + [NewerChannel(newer[0].channel, newer[0].head)];
    }
  }

  // ---------------------------------------------------------------- the newer channels

  ghost predicate Descending(xs: seq<Newer>) {
    forall i, j | 0 <= i < j < |xs| :: KeyLe(Rank(xs[j]), Rank(xs[i]))
  }

  lemma {:induction false} InsertAdds(x: Newer, xs: seq<Newer>)
    ensures multiset(Insert(x, xs)) == multiset(xs) + multiset{x}
  {
    if xs != [] {
      InsertAdds(x, xs[1..]);
      assert xs == [xs[0]] + xs[1..];
    }
  }

  lemma {:induction false} InsertDescends(x: Newer, xs: seq<Newer>)
    requires Descending(xs)
    ensures Descending(Insert(x, xs))
  {
    if xs == [] {
    } else if KeyLe(Rank(xs[0]), Rank(x)) {
      forall j | 0 <= j < |xs| ensures KeyLe(Rank(xs[j]), Rank(x)) { KeyOrder(Rank(xs[j]), Rank(xs[0]), Rank(x)); }
    } else {
      var tail := Insert(x, xs[1..]);
      KeyOrder(Rank(xs[0]), Rank(x), Rank(x));
      InsertDescends(x, xs[1..]);
      InsertAdds(x, xs[1..]);
      forall j | 0 <= j < |tail| ensures KeyLe(Rank(tail[j]), Rank(xs[0])) {
        assert tail[j] in multiset(tail);
        if tail[j] != x { var k :| 0 <= k < |xs[1..]| && xs[1..][k] == tail[j]; assert xs[k + 1] == tail[j]; }
      }
    }
  }

  lemma {:induction false} SortedSorts(xs: seq<Newer>)
    ensures Descending(Sorted(xs)) && multiset(Sorted(xs)) == multiset(xs)
  {
    if xs != [] {
      SortedSorts(xs[1..]);
      InsertDescends(xs[0], Sorted(xs[1..]));
      InsertAdds(xs[0], Sorted(xs[1..]));
      assert xs == [xs[0]] + xs[1..];
    }
  }

  /** The entry of a channel whose head is above the floor. */
  predicate EntryAbove(c: Channel, floor: Option<string>, n: Newer) {
    c.name == n.channel && c.head == Some(n.head) && n.head != "" && KeyLt(VersionKey(floor), Rank(n))
    && n.prerelease == IsPrerelease(c.head)
  }

  lemma {:induction false} AboveExactly(heads: seq<Channel>, floor: Option<string>, n: Newer)
    ensures n in Above(heads, floor) <==> exists i :: 0 <= i < |heads| && EntryAbove(heads[i], floor, n)
  {
    if heads != [] {
      var rest := heads[1..];
      AboveExactly(rest, floor, n);
      if i :| 0 <= i < |rest| && EntryAbove(rest[i], floor, n) { assert heads[i + 1] == rest[i]; }
      if i :| 0 <= i < |heads| && EntryAbove(heads[i], floor, n) { assert i > 0 ==> rest[i - 1] == heads[i]; }
    }
  }

  lemma {:induction false} FirstOfEachMembers(xs: seq<Newer>, seen: set<string>)
    ensures forall n | n in FirstOfEach(xs, seen) :: n in xs && n.head !in seen
  {
    if xs != [] { FirstOfEachMembers(xs[1..], if xs[0].head in seen then seen else seen + {xs[0].head}); }
  }

  ghost predicate HasVersion(xs: seq<Newer>, v: string) { exists k :: 0 <= k < |xs| && xs[k].head == v }

  lemma {:induction false} FirstOfEachCovers(xs: seq<Newer>, seen: set<string>, v: string)
    requires HasVersion(xs, v) && v !in seen
    ensures HasVersion(FirstOfEach(xs, seen), v)
  {
    var out := FirstOfEach(xs, seen);
    if xs[0].head in seen {
      var k :| 0 <= k < |xs| && xs[k].head == v;
      assert xs[1..][k - 1].head == v;
      FirstOfEachCovers(xs[1..], seen, v);
    } else if xs[0].head == v {
      assert out[0].head == v;
    } else {
      var k :| 0 <= k < |xs| && xs[k].head == v;
      assert xs[1..][k - 1].head == v;
      FirstOfEachCovers(xs[1..], seen + {xs[0].head}, v);
      var rest := FirstOfEach(xs[1..], seen + {xs[0].head});
      var m :| 0 <= m < |rest| && rest[m].head == v;
      assert out[m + 1] == rest[m];
    }
  }

  ghost predicate OnePerVersion(xs: seq<Newer>) { forall i, j | 0 <= i < j < |xs| :: xs[i].head != xs[j].head }

  lemma {:induction false} FirstOfEachDistinct(xs: seq<Newer>, seen: set<string>)
    ensures OnePerVersion(FirstOfEach(xs, seen))
  {
    if xs != [] {
      var seen' := if xs[0].head in seen then seen else seen + {xs[0].head};
      FirstOfEachDistinct(xs[1..], seen');
      FirstOfEachMembers(xs[1..], seen');
    }
  }

  lemma {:induction false} FirstOfEachDescends(xs: seq<Newer>, seen: set<string>)
    requires Descending(xs)
    ensures Descending(FirstOfEach(xs, seen))
  {
    if xs != [] {
      var tail := xs[1..];
      var seen' := if xs[0].head in seen then seen else seen + {xs[0].head};
      FirstOfEachDescends(tail, seen');
      FirstOfEachMembers(tail, seen');
      var rest := FirstOfEach(tail, seen');
      if xs[0].head !in seen {
        forall j | 0 <= j < |rest| ensures KeyLe(Rank(rest[j]), Rank(xs[0])) {
          assert rest[j] in rest;
          var k :| 0 <= k < |tail| && tail[k] == rest[j];
          assert xs[k + 1] == tail[k];
        }
      }
    }
  }

  ghost predicate IsHead(heads: seq<Channel>, channel: string, v: string) {
    exists i :: 0 <= i < |heads| && heads[i] == Channel(channel, Some(v))
  }

  function FloorKey(heads: seq<Channel>, sub: Subscription): Key {
    VersionKey(Floor(HeadOf(heads, sub.channel), sub.installed))
  }

  /** The list is descending, and each version is listed once. */
  lemma NewerChannelsOrdered(heads: seq<Channel>, sub: Subscription)
    ensures Descending(NewerChannels(heads, sub)) && OnePerVersion(NewerChannels(heads, sub))
  {
    var above := Above(heads, Floor(HeadOf(heads, sub.channel), sub.installed));
    SortedSorts(above);
    FirstOfEachDescends(Sorted(above), {});
    FirstOfEachDistinct(Sorted(above), {});
  }

  lemma SortedMembers(xs: seq<Newer>, n: Newer)
    ensures n in Sorted(xs) <==> n in xs
  {
    SortedSorts(xs);
    assert n in Sorted(xs) <==> n in multiset(Sorted(xs));
  }

  /** It holds exactly the versions above the floor that are the head of some channel. */
  lemma NewerChannelsComplete(heads: seq<Channel>, sub: Subscription, v: string)
    ensures HasVersion(NewerChannels(heads, sub), v) <==>
            v != "" && KeyLt(FloorKey(heads, sub), VersionKey(Some(v))) && exists c :: IsHead(heads, c, v)
  {
    var floor := Floor(HeadOf(heads, sub.channel), sub.installed);
    var sorted := Sorted(Above(heads, floor));
    if HasVersion(NewerChannels(heads, sub), v) {
      var k :| 0 <= k < |NewerChannels(heads, sub)| && NewerChannels(heads, sub)[k].head == v;
      NewerChannelsAreHeads(heads, sub, k);
    }
    if v != "" && KeyLt(FloorKey(heads, sub), VersionKey(Some(v))) && exists c :: IsHead(heads, c, v) {
      var c :| IsHead(heads, c, v);
      var i :| 0 <= i < |heads| && heads[i] == Channel(c, Some(v));
      var n := Newer(c, v, IsPrerelease(Some(v)));
      AboveExactly(heads, floor, n);
      SortedMembers(Above(heads, floor), n);
      var k :| 0 <= k < |sorted| && sorted[k] == n;
      FirstOfEachCovers(sorted, {}, v);
    }
  }

  /** Every listed pair is a channel of the package and its head. */
  lemma NewerChannelsAreHeads(heads: seq<Channel>, sub: Subscription, k: nat)
    requires k < |NewerChannels(heads, sub)|
    ensures var n := NewerChannels(heads, sub)[k];
            n.head != "" && KeyLt(FloorKey(heads, sub), Rank(n)) && IsHead(heads, n.channel, n.head)
            && n.prerelease == IsPrerelease(Some(n.head))
  {
    var floor := Floor(HeadOf(heads, sub.channel), sub.installed);
    var n := NewerChannels(heads, sub)[k];
    FirstOfEachMembers(Sorted(Above(heads, floor)), {});
    assert n in NewerChannels(heads, sub);
    SortedMembers(Above(heads, floor), n);
    AboveExactly(heads, floor, n);
  }

  lemma {:induction false} HeadOfName(heads: seq<Channel>, i: nat)
    requires DistinctChannels(heads) && i < |heads|
    ensures HeadOf(heads, heads[i].name) == heads[i].head
  {
    if i > 0 {
      assert heads[0].name != heads[i].name;
      HeadOfName(heads[1..], i - 1);
    }
  }

  /** Moving a Subscription to the first listed channel, and installing its head, leaves nothing to report. */
  lemma UpdateFixpoint(heads: seq<Channel>, sub: Subscription)
    requires DistinctChannels(heads) && NewerChannels(heads, sub) != []
    ensures var best := NewerChannels(heads, sub)[0];
            Findings(Some(heads), sub.(channel := best.channel, installed := Some(best.head))) == []
  {
    var best := NewerChannels(heads, sub)[0];
    NewerChannelsAreHeads(heads, sub, 0);
    var i :| 0 <= i < |heads| && heads[i] == Channel(best.channel, Some(best.head));
    HeadOfName(heads, i);
    var moved := sub.(channel := best.channel, installed := Some(best.head));
    assert HeadOf(heads, moved.channel) == moved.installed;
    if NewerChannels(heads, moved) != [] {
      NewerChannelsAreHeads(heads, moved, 0);
      NothingAboveBest(heads, sub, NewerChannels(heads, moved)[0]);
    }
  }

  /** No head is above the first entry. */
  lemma NothingAboveBest(heads: seq<Channel>, sub: Subscription, n: Newer)
    requires NewerChannels(heads, sub) != [] && n.head != "" && IsHead(heads, n.channel, n.head)
    ensures !KeyLt(Rank(NewerChannels(heads, sub)[0]), Rank(n))
  {
    var newer := NewerChannels(heads, sub);
    var floor, best, it := FloorKey(heads, sub), Rank(newer[0]), Rank(n);
    if KeyLt(best, it) {
      NewerChannelsAreHeads(heads, sub, 0);
      Between(floor, best, it);
      NewerChannelsComplete(heads, sub, n.head);
      var k :| 0 <= k < |newer| && newer[k].head == n.head;
      NewerChannelsOrdered(heads, sub);
      assert Rank(newer[k]) == it;
      if k > 0 { KeyOrder(best, it, best); }
    }
  }

  lemma Between(a: Key, b: Key, c: Key)
    requires KeyLt(a, b) && KeyLt(b, c)
    ensures KeyLt(a, c)
  {
    KeyOrder(a, b, c);
    KeyOrder(b, c, b);
  }
}
