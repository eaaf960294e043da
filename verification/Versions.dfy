// Comparing versions and build ids.
module Versions {

  // A dotted component: the number it starts with, and whether anything follows the digits.
  datatype Component = Component(value: nat, suffix: bool)

  // The components of a version; none for a missing or empty string.
  type Version = seq<Component>

  // A 64-bit difference cut down to a signed 32-bit integer.
  function Truncated(d: int): int {
    (d + 0x8000_0000) % 0x1_0000_0000 - 0x8000_0000
  }

  // What the loop returns from component i on.
  function ComparedFrom(v1: Version, v2: Version, i: nat): int
    requires i <= |v1| && i <= |v2|
    decreases |v1| - i
  {
    if i < |v1| && i < |v2| then
      var d := Truncated(v1[i].value - v2[i].value);
      if d != 0 then d else if v1[i].suffix || v2[i].suffix then 0 else ComparedFrom(v1, v2, i + 1)
    else if i < |v1| then 1
    else if i < |v2| then -1
    else 0
  }

  method CompareVersion(v1: Version, v2: Version) returns (retval: int)
    ensures retval == ComparedFrom(v1, v2, 0)
  {
    if v1 == [] && v2 == [] {
      return 0;
    } else if v1 == [] {
      return -1;
    } else if v2 == [] {
      return 1;
    }
    retval := 0;
    var i := 0;
    while i < |v1| && i < |v2|
      invariant i <= |v1| && i <= |v2| && retval == 0
      invariant ComparedFrom(v1, v2, i) == ComparedFrom(v1, v2, 0)
    {
      retval := Truncated(v1[i].value - v2[i].value);
      if retval != 0 {
        return;
      }
      if v1[i].suffix || v2[i].suffix {
        return;
      }
      i := i + 1;
    }
    if i < |v1| {
      retval := 1;
    } else if i < |v2| {
      retval := -1;
    }
  }

  // ----- the order -----

  // Components without suffix below the bound.
  ghost predicate PlainBelow(v: Version, bound: nat) {
    forall i | 0 <= i < |v| :: !v[i].suffix && v[i].value < bound
  }

  // Components without suffix that fit a signed 32-bit integer.
  ghost predicate Plain(v: Version) {
    PlainBelow(v, 0x8000_0000)
  }

  // v1 is a proper prefix of v2, or has the smaller value where they first differ.
  ghost predicate Less(v1: Version, v2: Version) {
    exists i: nat :: LessAt(v1, v2, i)
  }

  ghost predicate LessAt(v1: Version, v2: Version, i: nat) {
    FirstDifference(v1, v2, i) && i < |v2| && (i < |v1| ==> v1[i].value < v2[i].value)
  }

  ghost predicate FirstDifference(v1: Version, v2: Version, i: nat) {
    i <= |v1| && i <= |v2| && (forall k | 0 <= k < i :: v1[k].value == v2[k].value) &&
    (i < |v1| && i < |v2| ==> v1[i].value != v2[i].value)
  }

  ghost predicate SameValues(v1: Version, v2: Version) {
    |v1| == |v2| && forall k | 0 <= k < |v1| :: v1[k].value == v2[k].value
  }

  lemma {:induction false} ComparedAt(v1: Version, v2: Version, i: nat)
    requires Plain(v1) && Plain(v2) && i <= |v1| && i <= |v2|
    requires forall k | 0 <= k < i :: v1[k].value == v2[k].value
    ensures ComparedFrom(v1, v2, i) < 0 ==> Less(v1, v2)
    ensures ComparedFrom(v1, v2, i) > 0 ==> Less(v2, v1)
    ensures ComparedFrom(v1, v2, i) == 0 ==> SameValues(v1, v2)
    decreases |v1| - i
  {
    if i < |v1| && i < |v2| && v1[i].value == v2[i].value {
      ComparedAt(v1, v2, i + 1);
    } else {
      assert FirstDifference(v1, v2, i) && FirstDifference(v2, v1, i);
      assert ComparedFrom(v1, v2, i) < 0 ==> LessAt(v1, v2, i);
      assert ComparedFrom(v1, v2, i) > 0 ==> LessAt(v2, v1, i);
    }
  }

  lemma LessIsStrict(v1: Version, v2: Version)
    requires Less(v1, v2)
    ensures !Less(v2, v1) && !SameValues(v1, v2)
  {
    var i: nat :| LessAt(v1, v2, i);
    forall j: nat
      ensures !LessAt(v2, v1, j)
    {
    }
  }

  // The sign of the comparison is the order by components, a proper prefix being smaller.
  lemma ComparisonIsOrder(v1: Version, v2: Version)
    requires Plain(v1) && Plain(v2)
    ensures ComparedFrom(v1, v2, 0) < 0 <==> Less(v1, v2)
    ensures ComparedFrom(v1, v2, 0) > 0 <==> Less(v2, v1)
    ensures ComparedFrom(v1, v2, 0) == 0 <==> SameValues(v1, v2)
  {
    ComparedAt(v1, v2, 0);
    hide ComparedFrom;
    if Less(v1, v2) {
      LessIsStrict(v1, v2);
    }
    if Less(v2, v1) {
      LessIsStrict(v2, v1);
    }
    hide Less;
  }

  lemma LessIsTransitive(a: Version, b: Version, c: Version)
    requires Less(a, b) && (Less(b, c) || SameValues(b, c))
    ensures Less(a, c)
  {
    var i: nat :| LessAt(a, b, i);
    if Less(b, c) {
      var j: nat :| LessAt(b, c, j);
      assert LessAt(a, c, if i < j then i else j);
    } else {
      assert LessAt(a, c, i);
    }
  }

  // Versions are totally ordered by the comparison: it is antisymmetric and transitive.
  lemma ComparisonIsTransitive(a: Version, b: Version, c: Version)
    requires Plain(a) && Plain(b) && Plain(c)
    ensures ComparedFrom(a, b, 0) < 0 <==> ComparedFrom(b, a, 0) > 0
    ensures ComparedFrom(a, b, 0) <= 0 && ComparedFrom(b, c, 0) <= 0 ==> ComparedFrom(a, c, 0) <= 0
    ensures ComparedFrom(a, b, 0) < 0 && ComparedFrom(b, c, 0) <= 0 ==> ComparedFrom(a, c, 0) < 0
    ensures ComparedFrom(a, b, 0) == 0 ==> (ComparedFrom(b, c, 0) < 0 <==> ComparedFrom(a, c, 0) < 0)
  {
    hide ComparedFrom;
    ComparisonIsOrder(a, b);
    ComparisonIsOrder(b, a);
    ComparisonIsOrder(b, c);
    ComparisonIsOrder(a, c);
    if Less(a, b) && (Less(b, c) || SameValues(b, c)) {
      LessIsTransitive(a, b, c);
    }
    if SameValues(a, b) {
      SameLess(a, b, c);
    }
    hide Less;
  }

  lemma SameLess(a: Version, b: Version, c: Version)
    requires SameValues(a, b)
    ensures Less(a, c) <==> Less(b, c)
    ensures SameValues(b, c) ==> SameValues(a, c)
  {
    assert forall i: nat :: LessAt(a, c, i) <==> LessAt(b, c, i);
  }

  // Larger components are compared modulo 2^32.
  lemma LargeComponentsCollide()
    ensures ComparedFrom([Component(0x1_0000_0000, false)], [Component(0, false)], 0) == 0
    ensures ComparedFrom([Component(0x8000_0000, false)], [Component(0, false)], 0) < 0
    ensures Less([Component(0, false)], [Component(0x8000_0000, false)])
  {
    assert Truncated(0x1_0000_0000) == 0 && Truncated(0x8000_0000) == -0x8000_0000;
    assert ComparedFrom([Component(0x1_0000_0000, false)], [Component(0, false)], 1) == 0;
    assert LessAt([Component(0, false)], [Component(0x8000_0000, false)], 0);
  }

  // The comparison is the order on all versions whose components lie below the bound.
  ghost predicate OrdersBelow(bound: nat) {
    forall v1, v2 | PlainBelow(v1, bound) && PlainBelow(v2, bound) ::
      (ComparedFrom(v1, v2, 0) < 0 <==> Less(v1, v2)) && (ComparedFrom(v1, v2, 0) > 0 <==> Less(v2, v1))
  }

  // It is exactly if the bound is at most 2^31.
  lemma OrderIffBounded(bound: nat)
    ensures OrdersBelow(bound) <==> bound <= 0x8000_0000
  {
    if bound <= 0x8000_0000 {
      forall v1, v2 | PlainBelow(v1, bound) && PlainBelow(v2, bound)
        ensures (ComparedFrom(v1, v2, 0) < 0 <==> Less(v1, v2)) && (ComparedFrom(v1, v2, 0) > 0 <==> Less(v2, v1))
      {
        ComparisonIsOrder(v1, v2);
      }
    } else {
      LargeComponentsCollide();
      var large, zero := [Component(0x8000_0000, false)], [Component(0, false)];
      LessIsStrict(zero, large);
      assert PlainBelow(large, bound) && PlainBelow(zero, bound);
    }
    hide ComparedFrom, Less;
  }

  // ----- build ids -----

  // A version and, after the first dash, a release. Splitting an empty string gives no parts at all.
  datatype BuildId = NoParts | BuildId(version: Version, release: Version)

  function VersionOf(b: BuildId): Version {
    if b.NoParts? then [] else b.version
  }

  function ComparedIds(b1: BuildId, b2: BuildId): int {
    var byVersion := ComparedFrom(VersionOf(b1), VersionOf(b2), 0);
    if byVersion != 0 then byVersion
    else if b1.NoParts? || b2.NoParts? then 0
    else ComparedFrom(b1.release, b2.release, 0)
  }

  method CompareBuildId(b1: BuildId, b2: BuildId) returns (ret: int)
    ensures ret == ComparedIds(b1, b2)
  {
    ret := CompareVersion(VersionOf(b1), VersionOf(b2));
    if ret != 0 {
      return;
    }
    if b1.NoParts? || b2.NoParts? {
      return;
    }
    ret := CompareVersion(b1.release, b2.release);
  }

  ghost predicate PlainId(b: BuildId) {
    b.NoParts? || (Plain(b.version) && Plain(b.release))
  }

  ghost predicate AtMost(b1: BuildId, b2: BuildId) {
    ComparedIds(b1, b2) <= 0
  }

  // Build ids with parts are totally preordered: by version first, then by release.
  lemma BuildIdsArePreordered(a: BuildId, b: BuildId, c: BuildId)
    requires PlainId(a) && PlainId(b) && PlainId(c)
    requires !a.NoParts? && !b.NoParts? && !c.NoParts?
    ensures AtMost(a, b) || AtMost(b, a)
    ensures AtMost(a, b) && AtMost(b, c) ==> AtMost(a, c)
    ensures ComparedIds(a, b) < 0 <==> ComparedIds(b, a) > 0
    ensures ComparedIds(a, b) < 0 <==>
            Less(a.version, b.version) || (SameValues(a.version, b.version) && Less(a.release, b.release))
  {
    hide ComparedFrom;
    ComparisonIsOrder(a.version, b.version);
    ComparisonIsOrder(a.release, b.release);
    hide Less;
    ComparisonIsTransitive(a.version, b.version, c.version);
    ComparisonIsTransitive(a.release, b.release, c.release);
    ComparisonIsTransitive(b.version, c.version, a.version);
    ComparisonIsTransitive(b.release, c.release, a.release);
    ComparisonIsTransitive(b.version, a.version, c.version);
    ComparisonIsTransitive(b.release, a.release, c.release);
  }

  // The empty string equals every id whose version is empty, whatever the release.
  lemma EmptyStringBreaksOrder()
    ensures var r5, r6 := BuildId([], [Component(5, false)]), BuildId([], [Component(6, false)]);
            PlainId(r5) && PlainId(r6) && AtMost(r6, NoParts) && AtMost(NoParts, r5) && !AtMost(r6, r5)
  {
    assert Truncated(1) == 1;
  }

  ghost predicate TransitiveThrough(b: BuildId) {
    forall a, c | PlainId(a) && PlainId(c) && AtMost(a, b) && AtMost(b, c) :: AtMost(a, c)
  }

  lemma EmptyIsLeast(b: BuildId)
    ensures AtMost(NoParts, b)
    ensures AtMost(b, NoParts) <==> VersionOf(b) == []
  {
  }

  // So the comparison is transitive through an id exactly if that id is not the empty string.
  lemma TransitiveIffNotEmpty(b: BuildId)
    requires PlainId(b)
    ensures TransitiveThrough(b) <==> !b.NoParts?
  {
    hide ComparedIds, Plain;
    EmptyStringBreaksOrder();
    if !b.NoParts? {
      forall a, c | PlainId(a) && PlainId(c) && AtMost(a, b) && AtMost(b, c)
        ensures AtMost(a, c)
      {
        EmptyIsLeast(c);
        EmptyIsLeast(a);
        if !a.NoParts? && !c.NoParts? {
          BuildIdsArePreordered(a, b, c);
        } else if !a.NoParts? {
          EmptyIsLeast(b);
          OnlyEmptyBelow(a, b);
        }
      }
    }
  }

  lemma OnlyEmptyBelow(a: BuildId, b: BuildId)
    requires AtMost(a, b) && VersionOf(b) == []
    ensures VersionOf(a) == []
  {
  }
}
