/**
 * platform/olm/audit_operator_updates.py, version_key and is_prerelease: the order of operator versions.
 */
module Versions {
  import opened Util

  /** The tuple the code builds, flattened to a list of integer lists: the padded numbers, the flag, then one
      list per suffix token, `[0, n]` for a number and `[1, characters...]` for a word. */
  type Key = seq<seq<int>>

  // ---------------------------------------------------------------- Python's tuple order

  predicate TupleLe(a: seq<int>, b: seq<int>) {
    a == [] || (b != [] && (a[0] < b[0] || (a[0] == b[0] && TupleLe(a[1..], b[1..]))))
  }

  predicate KeyLe(a: Key, b: Key) {
    a == [] || (b != [] && if a[0] == b[0] then KeyLe(a[1..], b[1..]) else TupleLe(a[0], b[0]))
  }

  predicate KeyLt(a: Key, b: Key) { KeyLe(a, b) && a != b }

  lemma {:induction false} TupleOrder(a: seq<int>, b: seq<int>, c: seq<int>)
    ensures TupleLe(a, a)
    ensures TupleLe(a, b) || TupleLe(b, a)
    ensures TupleLe(a, b) && TupleLe(b, a) ==> a == b
    ensures TupleLe(a, b) && TupleLe(b, c) ==> TupleLe(a, c)
  {
    if a != [] {
      TupleOrder(a[1..], if b == [] then [] else b[1..], if c == [] then [] else c[1..]);
      assert a == [a[0]] + a[1..];
      assert b != [] ==> b == [b[0]] + b[1..];
    }
  }

  /** Version keys are totally ordered. */
  lemma {:induction false} KeyOrder(a: Key, b: Key, c: Key)
    ensures KeyLe(a, a)
    ensures KeyLe(a, b) || KeyLe(b, a)
    ensures KeyLe(a, b) && KeyLe(b, a) ==> a == b
    ensures KeyLe(a, b) && KeyLe(b, c) ==> KeyLe(a, c)
  {
    if a != [] {
      KeyOrder(a[1..], if b == [] then [] else b[1..], if c == [] then [] else c[1..]);
      assert a == [a[0]] + a[1..];
      if b != [] {
        assert b == [b[0]] + b[1..];
        TupleOrder(a[0], b[0], if c == [] then [] else c[0]);
        if c != [] { TupleOrder(b[0], c[0], a[0]); }
      }
    }
  }

  // ---------------------------------------------------------------- version_key

  /** Python's `s.partition(sep)` for a one-character separator: what precedes it, and what follows if it occurs. */
  function Partition(s: string, sep: char): (r: (string, Option<string>))
    ensures match r.1 case None => r.0 == s && sep !in s case Some(t) => s == r.0 + [sep] + t && sep !in r.0
  {
    if s == "" then ("", None)
    else if s[0] == sep then ("", Some(s[1..]))
    else
      var (a, b) := Partition(s[1..], sep);
      ([s[0]] + a, b)
  }

  /** Python's `re.split` on single separator characters. */
  function SplitOn(s: string, seps: string): (r: seq<string>)
    ensures r != []
  {
    if s == "" then [""]
    else
      var more := SplitOn(s[1..], seps);
      if s[0] in seps then [""] + more else [[s[0]] + more[0]] + more[1..]
  }

  function Digits(s: string): (n: int)
    ensures AllDigits(s) ==> n >= 0
  {
    if s == "" then 0
    else if |s| == 1 then (s[0] as int - '0' as int)
    else 10 * Digits(s[..|s| - 1]) + (s[|s| - 1] as int - '0' as int)
  }

  function Numbers(parts: seq<string>): seq<int> { seq(|parts|, i requires 0 <= i < |parts| => Digits(parts[i])) }

  function Zeros(n: int): seq<int> { if n <= 0 then [] else [0] + Zeros(n - 1) }

  function Padded(nums: seq<int>): seq<int> { nums + Zeros(4 - |nums|) }

  function Codes(s: string): seq<int> { seq(|s|, i requires 0 <= i < |s| => s[i] as int) }

  function TokenKeys(parts: seq<string>): Key {
    if parts == [] then []
    else
      (if parts[0] == "" then [] else [if AllDigits(parts[0]) then [0, Digits(parts[0])] else [1] + Codes(parts[0])])
      + TokenKeys(parts[1..])
  }

  function LowerCase(s: string): string { seq(|s|, i requires 0 <= i < |s| => Lower(s[i])) }

  const PRERELEASE_TAGS := ["ea", "rc", "tp", "alpha", "beta", "dev", "ec", "pre"]

  predicate TaggedSuffix(suffix: string) {
    exists i :: 0 <= i < |PRERELEASE_TAGS| && PRERELEASE_TAGS[i] <= LowerCase(suffix)
  }

  predicate IsPrerelease(version: Option<string>) {
    version.Some? && (var (_, suffix) := Partition(version.value, '-'); suffix.Some? && TaggedSuffix(suffix.value))
  }

  function VersionKey(version: Option<string>): Key {
    if version == None || version == Some("") then [[-1]]
    else
      var (core, rest) := Partition(version.value, '-');
      var suffix := match rest case None => "" case Some(s) => s;
      var flag := if suffix == "" then 1 else if IsPrerelease(version) then 0 else 2;
      [Padded(Numbers(SplitOn(core, "."))), [flag]] + TokenKeys(SplitOn(suffix, ".-"))
  }

  /** A version as version_of extracts it: dotted numbers, then an optional suffix. */
  ghost predicate Core(core: string) {
    '-' !in core && forall i :: 0 <= i < |SplitOn(core, ".")| ==> AllDigits(SplitOn(core, ".")[i])
  }

  ghost predicate IsVersion(version: string) { version != "" && Core(Partition(version, '-').0) }

  lemma {:induction false} PartitionOf(core: string, suffix: string)
    requires '-' !in core
    ensures Partition(core + "-" + suffix, '-') == (core, Some(suffix))
    ensures Partition(core, '-') == (core, None)
  {
    if core == "" {
      assert core + "-" + suffix == "-" + suffix;
    } else {
      assert core[0] in core && '-' !in core[1..] by { assert forall c | c in core[1..] :: c in core; }
      var s := core + "-" + suffix;
      assert s[0] == core[0] && s[1..] == core[1..] + "-" + suffix && [core[0]] + core[1..] == core;
      PartitionOf(core[1..], suffix);
    }
  }

  /** No version sorts before every version. */
  lemma NoneIsLeast(version: string)
    requires IsVersion(version)
    ensures KeyLt(VersionKey(None), VersionKey(Some(version)))
  {
    var nums := VersionKey(Some(version))[0];
    var parts := SplitOn(Partition(version, '-').0, ".");
    assert nums[0] == Digits(parts[0]) && AllDigits(parts[0]);
  }

  /** For one core, every pre-release sorts before the release, and every build suffix after it. */
  lemma ReleaseLadder(core: string, suffix: string)
    requires Core(core) && core != "" && suffix != ""
    ensures TaggedSuffix(suffix) ==> KeyLt(VersionKey(Some(core + "-" + suffix)), VersionKey(Some(core)))
    ensures !TaggedSuffix(suffix) ==> KeyLt(VersionKey(Some(core)), VersionKey(Some(core + "-" + suffix)))
  {
    PartitionOf(core, suffix);
    var release, other := VersionKey(Some(core)), VersionKey(Some(core + "-" + suffix));
    assert release[0] == other[0];
    assert release[1..][0] == [1] && other[1..][0] == [if TaggedSuffix(suffix) then 0 else 2];
  }

  /** Hence a pre-release sorts before a build of the same core. */
  lemma PrereleaseBeforeBuild(core: string, pre: string, build: string)
    requires Core(core) && core != "" && build != "" && TaggedSuffix(pre) && !TaggedSuffix(build) && pre != ""
    ensures KeyLt(VersionKey(Some(core + "-" + pre)), VersionKey(Some(core + "-" + build)))
  {
    ReleaseLadder(core, pre);
    ReleaseLadder(core, build);
    KeyOrder(VersionKey(Some(core + "-" + pre)), VersionKey(Some(core)), VersionKey(Some(core + "-" + build)));
    KeyOrder(VersionKey(Some(core)), VersionKey(Some(core + "-" + build)), VersionKey(Some(core)));
    KeyOrder(VersionKey(Some(core + "-" + pre)), VersionKey(Some(core)), VersionKey(Some(core)));
  }
}
