// Laying monitors out in a row, without gaps or overlap.
module MonitorLayout {
  import opened Versions

  datatype Rect = Rect(x: int, y: int, width: int, height: int)

  type Displays = map<nat, Rect>

  // ----- the comparison -----

  // Differences are taken modulo 2^32 and read as signed.
  function DisplaysCmp(displays: Displays, i: nat, j: nat): int {
    if i !in displays || j !in displays then 0
    else
      var dx := Truncated(displays[i].x - displays[j].x);
      var dy := Truncated(displays[i].y - displays[j].y);
      if dx != 0 then dx else if dy != 0 then dy else Truncated(i - j)
  }

  predicate FitsInt(d: int) {
    -0x8000_0000 <= d < 0x8000_0000
  }

  // The difference that decides how two displays compare.
  function Deciding(displays: Displays, i: nat, j: nat): int
    requires i in displays && j in displays
  {
    var a, b := displays[i], displays[j];
    if a.x != b.x then a.x - b.x else if a.y != b.y then a.y - b.y else i - j
  }

  // For any two displays the difference that decides is one that an int can hold.
  ghost predicate DifferencesFit(displays: Displays) {
    forall i, j | i in displays && j in displays :: FitsInt(Deciding(displays, i, j))
  }

  // Left to right, then top to bottom, then by id.
  predicate Before(displays: Displays, i: nat, j: nat)
    requires i in displays && j in displays
  {
    var a, b := displays[i], displays[j];
    a.x < b.x || (a.x == b.x && (a.y < b.y || (a.y == b.y && i < j)))
  }

  lemma TruncatedFits(d: int)
    requires FitsInt(d)
    ensures Truncated(d) == d
  {
  }

  // Where the differences fit, the comparison is the order.
  lemma CmpIsBefore(displays: Displays, i: nat, j: nat)
    requires i in displays && j in displays && DifferencesFit(displays)
    ensures DisplaysCmp(displays, i, j) < 0 <==> Before(displays, i, j)
    ensures DisplaysCmp(displays, i, j) == 0 <==> i == j
  {
    hide Truncated;
    TruncatedFits(0);
    TruncatedFits(Deciding(displays, i, j));
  }

  // Displays with 32-bit coordinates and ids compare as they lie exactly if the deciding difference fits an int.
  lemma CmpIsBeforeIffFits(displays: Displays, i: nat, j: nat)
    requires i in displays && j in displays && i < 0x8000_0000 && j < 0x8000_0000
    requires FitsInt(displays[i].x) && FitsInt(displays[j].x) && FitsInt(displays[i].y) && FitsInt(displays[j].y)
    ensures (DisplaysCmp(displays, i, j) < 0 <==> Before(displays, i, j)) <==> FitsInt(Deciding(displays, i, j))
  {
  }

  // Otherwise a display far to the right can count as further left.
  lemma FarApartIsReversed()
    ensures var displays: Displays := map[0 := Rect(0x7FFF_FFFF, 0, 1, 1), 1 := Rect(-2, 0, 1, 1)];
            DisplaysCmp(displays, 0, 1) < 0 && Before(displays, 1, 0)
  {
    assert Truncated(0x8000_0001) < 0;
  }

  // ----- sorting -----

  // Stable insertion, as the library's sort is stable.
  function Insert(displays: Displays, s: seq<nat>, id: nat): seq<nat> {
    if s == [] || DisplaysCmp(displays, s[|s| - 1], id) <= 0 then s + [id]
    else Insert(displays, s[..|s| - 1], id) + [s[|s| - 1]]
  }

  function Sort(displays: Displays, s: seq<nat>): seq<nat> {
    if s == [] then [] else Insert(displays, Sort(displays, s[..|s| - 1]), s[|s| - 1])
  }

  ghost predicate Ordered(displays: Displays, s: seq<nat>) {
    (forall k | 0 <= k < |s| :: s[k] in displays) &&
    forall k, l | 0 <= k < l < |s| :: Before(displays, s[k], s[l])
  }

  lemma {:induction false} InsertIsPermutation(displays: Displays, s: seq<nat>, id: nat)
    ensures multiset(Insert(displays, s, id)) == multiset(s) + multiset{id}
  {
    if s == [] || DisplaysCmp(displays, s[|s| - 1], id) <= 0 {
    } else {
      InsertIsPermutation(displays, s[..|s| - 1], id);
      assert s == s[..|s| - 1] + [s[|s| - 1]];
    }
  }

  lemma {:induction false} SortIsPermutation(displays: Displays, s: seq<nat>)
    ensures multiset(Sort(displays, s)) == multiset(s) && |Sort(displays, s)| == |s|
  {
    if s != [] {
      SortIsPermutation(displays, s[..|s| - 1]);
      InsertIsPermutation(displays, Sort(displays, s[..|s| - 1]), s[|s| - 1]);
      assert s == s[..|s| - 1] + [s[|s| - 1]];
    }
    assert |Sort(displays, s)| == |multiset(Sort(displays, s))|;
  }

  lemma {:induction false} InsertKeepsOrder(displays: Displays, s: seq<nat>, id: nat)
    requires DifferencesFit(displays) && Ordered(displays, s) && id in displays && id !in s
    ensures Ordered(displays, Insert(displays, s, id))
    ensures forall x | x in Insert(displays, s, id) :: x in s || x == id
  {
    hide DisplaysCmp, DifferencesFit;
    if s != [] {
      var last := s[|s| - 1];
      CmpIsBefore(displays, last, id);
      if DisplaysCmp(displays, last, id) > 0 {
        InsertKeepsOrder(displays, s[..|s| - 1], id);
        var r := Insert(displays, s[..|s| - 1], id);
        forall k | 0 <= k < |r|
          ensures Before(displays, r[k], last)
        {
          assert r[k] in r;
        }
      }
    }
  }

  // No id comes twice, except for these.
  ghost predicate Distinct(s: seq<nat>, repeats: set<nat>) {
    forall k, l | 0 <= k < l < |s| && s[k] == s[l] :: s[k] in repeats
  }

  lemma SortMembers(displays: Displays, s: seq<nat>)
    ensures forall x: nat :: x in Sort(displays, s) <==> x in s
  {
    SortIsPermutation(displays, s);
    hide Sort;
    forall x: nat
      ensures x in Sort(displays, s) <==> x in s
    {
      assert x in multiset(Sort(displays, s)) <==> x in multiset(s);
    }
  }

  lemma {:induction false} InsertDistinct(displays: Displays, s: seq<nat>, id: nat, repeats: set<nat>)
    requires Distinct(s, repeats) && (id in s ==> id in repeats)
    ensures Distinct(Insert(displays, s, id), repeats)
    ensures forall x | x in Insert(displays, s, id) :: x in s || x == id
  {
    hide DisplaysCmp;
    if s != [] && DisplaysCmp(displays, s[|s| - 1], id) > 0 {
      InsertDistinct(displays, s[..|s| - 1], id, repeats);
      var r := Insert(displays, s[..|s| - 1], id);
      forall k | 0 <= k < |r| && r[k] == s[|s| - 1]
        ensures r[k] in repeats
      {
        assert r[k] in r;
      }
    }
  }

  lemma {:induction false} SortDistinct(displays: Displays, s: seq<nat>, repeats: set<nat>)
    requires Distinct(s, repeats)
    ensures Distinct(Sort(displays, s), repeats)
  {
    if s != [] {
      SortDistinct(displays, s[..|s| - 1], repeats);
      SortMembers(displays, s[..|s| - 1]);
      InsertDistinct(displays, Sort(displays, s[..|s| - 1]), s[|s| - 1], repeats);
    }
  }

  lemma {:induction false} SortOrders(displays: Displays, s: seq<nat>)
    requires DifferencesFit(displays) && (forall k | 0 <= k < |s| :: s[k] in displays)
    requires Distinct(s, {})
    ensures Ordered(displays, Sort(displays, s)) && forall x | x in Sort(displays, s) :: x in s
  {
    hide DifferencesFit;
    if s != [] {
      SortOrders(displays, s[..|s| - 1]);
      InsertKeepsOrder(displays, Sort(displays, s[..|s| - 1]), s[|s| - 1]);
    }
  }

  // ----- placing -----

  function WidthSum(displays: Displays, order: seq<nat>, k: nat): int
    requires k <= |order|
  {
    if k == 0 then 0
    else WidthSum(displays, order, k - 1) + if order[k - 1] in displays then displays[order[k - 1]].width else 0
  }

  // The displays after the first k of the order have been placed; a missing one ends it.
  function Placed(displays: Displays, order: seq<nat>, k: nat): (r: Displays)
    requires k <= |order|
    ensures r.Keys == displays.Keys
    ensures forall id: nat | id in displays :: r[id].width == displays[id].width && r[id].height == displays[id].height
  {
    if k == 0 then displays
    else
      var r := Placed(displays, order, k - 1);
      var id := order[k - 1];
      if id in displays then r[id := r[id].(x := WidthSum(displays, order, k - 1), y := 0)] else r
  }

  // How many displays of the order come before the first that is missing.
  function KnownPrefix(displays: Displays, order: seq<nat>): (k: nat)
    ensures k <= |order| && (forall i | 0 <= i < k :: order[i] in displays) && (k < |order| ==> order[k] !in displays)
  {
    if order == [] then 0
    else
      var k := KnownPrefix(displays, order[..|order| - 1]);
      if k == |order| - 1 && order[k] in displays then k + 1 else k
  }

  // The ids of the displays, each at its own index; 0 at any other index.
  function IdArray(displays: Displays, n: nat): (s: seq<nat>)
    ensures |s| == n && forall k | 0 <= k < n :: s[k] == if k in displays then k else 0
  {
    seq(n, k requires 0 <= k < n => if k in displays then k else 0)
  }

  // One more than the largest id.
  ghost predicate IdBound(displays: Displays, n: nat) {
    n > 0 && (n - 1) in displays && forall id: nat | id in displays :: id < n
  }

  ghost predicate Dense(displays: Displays, n: nat) {
    forall id: nat :: id in displays <==> id < n
  }

  // A display ends up where its last place in the order is.
  lemma {:induction false} PlacedAt(displays: Displays, order: seq<nat>, k: nat, i: nat)
    requires i < k <= |order| && (forall j | 0 <= j < k :: order[j] in displays)
    requires forall j | i < j < k :: order[j] != order[i]
    ensures Placed(displays, order, k)[order[i]].x == WidthSum(displays, order, i)
    ensures Placed(displays, order, k)[order[i]].y == 0
  {
    hide WidthSum;
    if i < k - 1 {
      PlacedAt(displays, order, k - 1, i);
    }
  }

  // The table that aligning leaves.
  function Aligned(displays: Displays, n: nat): (r: Displays)
    ensures r.Keys == displays.Keys
    ensures forall id: nat | id in displays :: r[id].width == displays[id].width && r[id].height == displays[id].height
  {
    var order := Sort(displays, IdArray(displays, n));
    Placed(displays, order, KnownPrefix(displays, order))
  }

  // The order of the displays when no id is missing, whatever the comparison says.
  lemma OrderOfDense(displays: Displays, n: nat, order: seq<nat>)
    requires Dense(displays, n) && order == Sort(displays, IdArray(displays, n))
    ensures |order| == n && Distinct(order, {}) && KnownPrefix(displays, order) == n
    ensures forall id: nat :: id in order <==> id < n
  {
    SortIsPermutation(displays, IdArray(displays, n));
    SortDistinct(displays, IdArray(displays, n), {});
    SortMembers(displays, IdArray(displays, n));
    hide Sort, Distinct;
    forall id: nat
      ensures id in IdArray(displays, n) <==> id < n
    {
      assert id < n ==> IdArray(displays, n)[id] == id;
    }
    forall k | 0 <= k < n
      ensures order[k] in displays
    {
      assert order[k] in order;
    }
    KnownPrefixIs(displays, order, n);
  }

  // With no id missing every display ends up at y 0, and each in the order starts where the one before it ends.
  lemma AlignedAt(displays: Displays, n: nat, order: seq<nat>, k: nat)
    requires Dense(displays, n) && order == Sort(displays, IdArray(displays, n)) && k < n
    ensures |order| == n && order[k] in displays
    ensures var rect := Aligned(displays, n)[order[k]];
            rect == displays[order[k]].(x := WidthSum(displays, order, k), y := 0)
  {
    OrderOfDense(displays, n, order);
    hide Sort, IdArray, WidthSum, Distinct;
    forall i | 0 <= i < n
      ensures order[i] in displays
    {
      assert order[i] in order;
    }
    forall i | k < i < n
      ensures order[i] != order[k]
    {
      NotTwice(order, k, i);
    }
    PlacedAt(displays, order, n, k);
    hide Placed;
  }

  lemma NotTwice(s: seq<nat>, k: nat, l: nat)
    requires Distinct(s, {}) && k < l < |s|
    ensures s[k] != s[l]
  {
  }

  lemma IdsDistinct(displays: Displays, n: nat)
    requires Dense(displays, n)
    ensures Distinct(IdArray(displays, n), {}) && forall k | 0 <= k < n :: IdArray(displays, n)[k] in displays
  {
  }

  lemma {:induction false} SumsGrow(displays: Displays, order: seq<nat>, i: nat, k: nat)
    requires i <= k <= |order|
    requires forall m | 0 <= m < k :: order[m] in displays && displays[order[m]].width >= 0
    ensures 0 <= WidthSum(displays, order, i) <= WidthSum(displays, order, k)
    decreases k
  {
    if i < k {
      SumsGrow(displays, order, i, k - 1);
    } else if k > 0 {
      SumsGrow(displays, order, k - 1, k - 1);
    }
  }

  // The point lies in the interval of the i-th display of the row.
  ghost predicate InInterval(displays: Displays, order: seq<nat>, i: nat, p: int)
    requires i < |order|
  {
    WidthSum(displays, order, i) <= p < WidthSum(displays, order, i + 1)
  }

  lemma {:induction false} RowCovers(displays: Displays, order: seq<nat>, k: nat, p: int)
    requires k <= |order| && 0 <= p < WidthSum(displays, order, k)
    ensures exists i | 0 <= i < k :: InInterval(displays, order, i, p)
  {
    if p < WidthSum(displays, order, k - 1) {
      RowCovers(displays, order, k - 1, p);
    } else {
      assert InInterval(displays, order, k - 1, p);
    }
  }

  // The intervals tile: each point of [0, sum of widths) lies in one and only one of them, and no other point does.
  lemma RowTiles(displays: Displays, order: seq<nat>, p: int)
    requires forall m | 0 <= m < |order| :: order[m] in displays && displays[order[m]].width >= 0
    ensures 0 <= p < WidthSum(displays, order, |order|) <==>
            exists i | 0 <= i < |order| :: InInterval(displays, order, i, p)
    ensures forall i, j | 0 <= i < j < |order| ::
              !(InInterval(displays, order, i, p) && InInterval(displays, order, j, p))
  {
    if 0 <= p < WidthSum(displays, order, |order|) {
      RowCovers(displays, order, |order|, p);
    }
    hide WidthSum;
    forall i | 0 <= i < |order| && InInterval(displays, order, i, p)
      ensures 0 <= p < WidthSum(displays, order, |order|)
    {
      SumsGrow(displays, order, i, i + 1);
      SumsGrow(displays, order, i + 1, |order|);
    }
    forall i, j | 0 <= i < j < |order| && InInterval(displays, order, i, p)
      ensures !InInterval(displays, order, j, p)
    {
      SumsGrow(displays, order, i + 1, j);
    }
  }

  // ----- the placed rectangles -----

  predicate Covers(rect: Rect, p: int) {
    rect.x <= p < rect.x + rect.width
  }

  // All displays are at y 0, and each point of [0, total), and no other, lies in one and only one of them.
  ghost predicate Tiles(r: Displays, total: int) {
    (forall id | id in r :: r[id].y == 0) &&
    (forall p :: 0 <= p < total <==> Covered(r, p)) &&
    (forall p, i, j | i in r && j in r && Covers(r[i], p) && Covers(r[j], p) :: i == j)
  }

  ghost predicate Covered(r: Displays, p: int) {
    exists id :: id in r && Covers(r[id], p)
  }

  // The widths of the displays with ids below n.
  function TotalWidth(displays: Displays, n: nat): int {
    if n == 0 then 0 else TotalWidth(displays, n - 1) + WidthOf(displays, n - 1)
  }

  function WidthOf(displays: Displays, id: nat): int {
    if id in displays then displays[id].width else 0
  }

  function RowWidth(displays: Displays, s: seq<nat>): int {
    WidthSum(displays, s, |s|)
  }

  lemma {:induction false} WidthSumPrefix(displays: Displays, a: seq<nat>, b: seq<nat>, k: nat)
    requires k <= |a| && k <= |b| && a[..k] == b[..k]
    ensures WidthSum(displays, a, k) == WidthSum(displays, b, k)
  {
    if k > 0 {
      assert a[..k - 1] == a[..k][..k - 1] && b[..k - 1] == b[..k][..k - 1];
      assert a[k - 1] == a[..k][k - 1] && b[k - 1] == b[..k][k - 1];
      WidthSumPrefix(displays, a, b, k - 1);
    }
  }

  lemma RowWidthAppend(displays: Displays, s: seq<nat>, id: nat)
    ensures RowWidth(displays, s + [id]) == RowWidth(displays, s) + WidthOf(displays, id)
  {
    assert (s + [id])[..|s|] == s[..|s|];
    WidthSumPrefix(displays, s + [id], s, |s|);
  }

  lemma {:induction false} InsertWidth(displays: Displays, s: seq<nat>, id: nat)
    ensures RowWidth(displays, Insert(displays, s, id)) == RowWidth(displays, s) + WidthOf(displays, id)
  {
    hide RowWidth, DisplaysCmp;
    RowWidthAppend(displays, s, id);
    if s != [] && DisplaysCmp(displays, s[|s| - 1], id) > 0 {
      var last := s[|s| - 1];
      InsertWidth(displays, s[..|s| - 1], id);
      RowWidthAppend(displays, Insert(displays, s[..|s| - 1], id), last);
      RowWidthAppend(displays, s[..|s| - 1], last);
      assert s == s[..|s| - 1] + [last];
    }
  }

  lemma {:induction false} SortWidth(displays: Displays, s: seq<nat>)
    ensures RowWidth(displays, Sort(displays, s)) == RowWidth(displays, s)
  {
    hide RowWidth, Insert;
    if s != [] {
      SortWidth(displays, s[..|s| - 1]);
      InsertWidth(displays, Sort(displays, s[..|s| - 1]), s[|s| - 1]);
      RowWidthAppend(displays, s[..|s| - 1], s[|s| - 1]);
      assert s == s[..|s| - 1] + [s[|s| - 1]];
    }
  }

  // Each missing id adds the width of display 0 to the row.
  lemma {:induction false} IdArrayWidth(displays: Displays, n: nat, k: nat)
    requires k <= n && WidthOf(displays, 0) >= 0
    ensures TotalWidth(displays, k) <= WidthSum(displays, IdArray(displays, n), k)
    ensures (forall id: nat | id < k :: id in displays) ==>
              TotalWidth(displays, k) == WidthSum(displays, IdArray(displays, n), k)
    ensures WidthOf(displays, 0) == 0 ==> TotalWidth(displays, k) == WidthSum(displays, IdArray(displays, n), k)
    ensures WidthOf(displays, 0) > 0 && (exists id: nat | id < k :: id !in displays) ==>
              TotalWidth(displays, k) < WidthSum(displays, IdArray(displays, n), k)
  {
    if k > 0 {
      IdArrayWidth(displays, n, k - 1);
      assert IdArray(displays, n)[k - 1] == if k - 1 in displays then k - 1 else 0;
      hide IdArray;
    }
  }

  // The k-th of the order is this display, placed after the ones before it.
  ghost predicate At(displays: Displays, order: seq<nat>, r: Displays, k: nat, id: nat) {
    k < |order| && order[k] == id && id in displays && id in r &&
    r[id] == displays[id].(x := WidthSum(displays, order, k), y := 0)
  }

  lemma IntervalCovers(displays: Displays, order: seq<nat>, r: Displays, k: nat, id: nat, p: int)
    requires At(displays, order, r, k, id)
    ensures InInterval(displays, order, k, p) <==> Covers(r[id], p)
  {
  }

  // Every display has a place in the row, and every place that is not empty has its display.
  ghost predicate InRow(displays: Displays, order: seq<nat>, r: Displays) {
    (forall k: nat | k < |order| :: order[k] in displays) &&
    (forall k: nat | k < |order| && WidthOf(displays, order[k]) > 0 :: At(displays, order, r, k, order[k])) &&
    (forall id: nat | id in r :: exists k: nat :: At(displays, order, r, k, id))
  }

  lemma IntervalWidth(displays: Displays, order: seq<nat>, k: nat)
    requires k < |order|
    ensures WidthSum(displays, order, k + 1) == WidthSum(displays, order, k) + WidthOf(displays, order[k])
  {
  }

  lemma PointCovered(displays: Displays, order: seq<nat>, r: Displays, p: int)
    requires InRow(displays, order, r) && forall id | id in displays :: displays[id].width >= 0
    ensures 0 <= p < RowWidth(displays, order) <==> Covered(r, p)
  {
    RowTiles(displays, order, p);
    hide WidthSum;
    if Covered(r, p) {
      var id :| id in r && Covers(r[id], p);
      var k: nat :| At(displays, order, r, k, id);
      IntervalCovers(displays, order, r, k, id, p);
    }
    if 0 <= p < RowWidth(displays, order) {
      var k: nat :| k < |order| && InInterval(displays, order, k, p);
      assert WidthOf(displays, order[k]) > 0 by { IntervalWidth(displays, order, k); }
      IntervalCovers(displays, order, r, k, order[k], p);
    }
  }

  lemma DenseInRow(displays: Displays, n: nat, order: seq<nat>)
    requires Dense(displays, n) && order == Sort(displays, IdArray(displays, n))
    ensures |order| == n && InRow(displays, order, Aligned(displays, n))
  {
    OrderOfDense(displays, n, order);
    hide Sort, IdArray, WidthSum, Aligned;
    var r := Aligned(displays, n);
    forall k: nat | k < n
      ensures At(displays, order, r, k, order[k])
    {
      AlignedAt(displays, n, order, k);
    }
    forall id: nat | id in r
      ensures exists k: nat :: At(displays, order, r, k, id)
    {
      assert id in order;
      var k: nat :| k < |order| && order[k] == id;
      assert At(displays, order, r, k, id);
    }
  }

  lemma CoveredOnce(displays: Displays, order: seq<nat>, r: Displays, p: int, i: nat, j: nat)
    requires InRow(displays, order, r) && forall id | id in displays :: displays[id].width >= 0
    requires i in r && j in r && Covers(r[i], p) && Covers(r[j], p)
    ensures i == j
  {
    var k: nat :| At(displays, order, r, k, i);
    var l: nat :| At(displays, order, r, l, j);
    RowTiles(displays, order, p);
    IntervalCovers(displays, order, r, k, i, p);
    IntervalCovers(displays, order, r, l, j, p);
    hide WidthSum, Covers, InInterval;
  }

  lemma RowIsTiled(displays: Displays, order: seq<nat>, r: Displays)
    requires InRow(displays, order, r) && forall id | id in displays :: displays[id].width >= 0
    ensures Tiles(r, RowWidth(displays, order))
  {
    hide WidthSum, RowWidth, Covers, Covered;
    forall p
      ensures 0 <= p < RowWidth(displays, order) <==> Covered(r, p)
    {
      PointCovered(displays, order, r, p);
    }
    forall p, i, j | i in r && j in r && Covers(r[i], p) && Covers(r[j], p)
      ensures i == j
    {
      CoveredOnce(displays, order, r, p, i, j);
    }
  }

  // With no id missing the placed rectangles tile, in whatever order the comparison puts them.
  lemma DenseTiles(displays: Displays, n: nat)
    requires Dense(displays, n) && forall id | id in displays :: displays[id].width >= 0
    ensures Tiles(Aligned(displays, n), TotalWidth(displays, n))
  {
    hide Aligned, TotalWidth, Tiles, Sort, InRow;
    var order := Sort(displays, IdArray(displays, n));
    DenseInRow(displays, n, order);
    RowIsTiled(displays, order, Aligned(displays, n));
    SortWidth(displays, IdArray(displays, n));
    IdArrayWidth(displays, n, n);
    hide IdArray;
  }

  lemma OrderPositions(displays: Displays, order: seq<nat>, k: nat, l: nat)
    requires Ordered(displays, order) && k < |order| && l < |order|
    requires order[k] in displays && order[l] in displays && Before(displays, order[k], order[l])
    ensures k < l
  {
  }

  lemma RowInOrder(displays: Displays, order: seq<nat>, r: Displays, i: nat, j: nat)
    requires InRow(displays, order, r) && Ordered(displays, order) && i in r && j in r
    requires (forall id | id in displays :: displays[id].width >= 0) && i in displays && j in displays
    requires Before(displays, i, j) && displays[i].width > 0
    ensures r[i].x < r[j].x
  {
    hide Ordered, Before, WidthSum;
    var k: nat :| At(displays, order, r, k, i);
    var l: nat :| At(displays, order, r, l, j);
    OrderPositions(displays, order, k, l);
    PlacedNext(displays, order, k);
    SumsGrow(displays, order, k + 1, l);
  }

  // With no id missing and differences that fit, the displays are left to right in the order of their old positions.
  lemma AlignedInOrder(displays: Displays, n: nat, i: nat, j: nat)
    requires Dense(displays, n) && DifferencesFit(displays) && i in displays && j in displays
    requires displays[i].width > 0 && forall id | id in displays :: displays[id].width >= 0
    ensures Before(displays, i, j) ==> Aligned(displays, n)[i].x < Aligned(displays, n)[j].x
  {
    hide Aligned, Sort, InRow, DifferencesFit, Ordered, Before;
    var order := Sort(displays, IdArray(displays, n));
    OrderOfDense(displays, n, order);
    IdsDistinct(displays, n);
    SortOrders(displays, IdArray(displays, n));
    DenseInRow(displays, n, order);
    if Before(displays, i, j) {
      RowInOrder(displays, order, Aligned(displays, n), i, j);
    }
  }

  // ----- missing ids -----

  // With display 0 there, it is the only one that comes more than once.
  lemma OrderWithZero(displays: Displays, n: nat, order: seq<nat>)
    requires IdBound(displays, n) && 0 in displays && order == Sort(displays, IdArray(displays, n))
    ensures |order| == n && Distinct(order, {0}) && KnownPrefix(displays, order) == n
    ensures (forall k | 0 <= k < n :: order[k] in displays) && forall id: nat | id in displays :: id in order
  {
    var ids := IdArray(displays, n);
    SortIsPermutation(displays, ids);
    SortDistinct(displays, ids, {0});
    SortMembers(displays, ids);
    hide Sort, Distinct;
    forall id: nat | id in displays
      ensures id in ids
    {
      assert ids[id] == id;
    }
    forall k | 0 <= k < n
      ensures order[k] in displays
    {
      assert order[k] in order;
    }
    KnownPrefixIs(displays, order, n);
  }

  lemma {:induction false} LastPlace(order: seq<nat>, id: nat, k: nat) returns (i: nat)
    requires k <= |order| && id in order[..k]
    ensures i < k && order[i] == id && forall j | i < j < k :: order[j] != id
  {
    if order[k - 1] == id {
      i := k - 1;
    } else {
      i := LastPlace(order, id, k - 1);
    }
  }

  lemma AtLastPlace(displays: Displays, n: nat, order: seq<nat>, k: nat)
    requires IdBound(displays, n) && 0 in displays && order == Sort(displays, IdArray(displays, n))
    requires k < |order| && forall j | k < j < |order| :: order[j] != order[k]
    ensures At(displays, order, Aligned(displays, n), k, order[k])
  {
    OrderWithZero(displays, n, order);
    hide Sort, IdArray, WidthSum, Distinct;
    PlacedAt(displays, order, n, k);
    hide Placed;
  }

  lemma OnlyPlace(displays: Displays, order: seq<nat>, k: nat)
    requires Distinct(order, {0}) && k < |order| && 0 in displays && displays[0].width == 0
    requires WidthOf(displays, order[k]) > 0
    ensures forall j | k < j < |order| :: order[j] != order[k]
  {
  }

  lemma HasPlace(displays: Displays, n: nat, order: seq<nat>, id: nat) returns (k: nat)
    requires IdBound(displays, n) && 0 in displays && id in displays
    requires order == Sort(displays, IdArray(displays, n))
    ensures At(displays, order, Aligned(displays, n), k, id)
  {
    OrderWithZero(displays, n, order);
    hide Sort, IdArray, Aligned, At, Distinct;
    assert order[..|order|] == order;
    k := LastPlace(order, id, |order|);
    AtLastPlace(displays, n, order, k);
  }

  // A display 0 without width may come more than once.
  lemma ZeroInRow(displays: Displays, n: nat, order: seq<nat>)
    requires IdBound(displays, n) && 0 in displays && displays[0].width == 0
    requires order == Sort(displays, IdArray(displays, n))
    ensures InRow(displays, order, Aligned(displays, n))
  {
    hide *;
    OrderWithZero(displays, n, order);
    var r := Aligned(displays, n);
    forall k: nat | k < |order| && WidthOf(displays, order[k]) > 0
      ensures At(displays, order, r, k, order[k])
    {
      OnlyPlace(displays, order, k);
      AtLastPlace(displays, n, order, k);
    }
    forall id: nat | id in r
      ensures exists k: nat :: At(displays, order, r, k, id)
    {
      var k := HasPlace(displays, n, order, id);
    }
    RowIs(displays, order, r);
  }

  lemma RowIs(displays: Displays, order: seq<nat>, r: Displays)
    requires forall k: nat | k < |order| :: order[k] in displays
    requires forall k: nat | k < |order| && WidthOf(displays, order[k]) > 0 :: At(displays, order, r, k, order[k])
    requires forall id: nat | id in r :: exists k: nat :: At(displays, order, r, k, id)
    ensures InRow(displays, order, r)
  {
  }

  lemma ZeroTiles(displays: Displays, n: nat)
    requires IdBound(displays, n) && 0 in displays && displays[0].width == 0
    requires forall id | id in displays :: displays[id].width >= 0
    ensures Tiles(Aligned(displays, n), TotalWidth(displays, n))
  {
    hide Aligned, TotalWidth, Tiles, Sort, InRow;
    var order := Sort(displays, IdArray(displays, n));
    OrderWithZero(displays, n, order);
    ZeroInRow(displays, n, order);
    RowIsTiled(displays, order, Aligned(displays, n));
    SortWidth(displays, IdArray(displays, n));
    IdArrayWidth(displays, n, n);
    hide IdArray;
  }

  // Where the row ends there is the last place of a display.
  lemma EndOfRow(displays: Displays, order: seq<nat>) returns (k: nat)
    requires forall m | 0 <= m < |order| :: order[m] in displays && displays[order[m]].width >= 0
    requires RowWidth(displays, order) > 0
    ensures k < |order| && InInterval(displays, order, k, RowWidth(displays, order) - 1)
    ensures forall j | k < j < |order| :: order[j] != order[k]
  {
    var p := RowWidth(displays, order) - 1;
    RowCovers(displays, order, |order|, p);
    k :| k < |order| && InInterval(displays, order, k, p);
    hide WidthSum;
    IntervalWidth(displays, order, k);
    forall j | k < j < |order|
      ensures order[j] != order[k]
    {
      SumsGrow(displays, order, k + 1, j);
      IntervalWidth(displays, order, j);
      SumsGrow(displays, order, j + 1, |order|);
    }
  }

  // With an id missing and display 0 there, the row ends beyond the total width.
  lemma MissingIdSpreads(displays: Displays, n: nat)
    requires IdBound(displays, n) && 0 in displays && displays[0].width > 0 && !Dense(displays, n)
    requires forall id | id in displays :: displays[id].width >= 0
    ensures exists p :: p >= TotalWidth(displays, n) && Covered(Aligned(displays, n), p)
  {
    var order := Sort(displays, IdArray(displays, n));
    OrderWithZero(displays, n, order);
    SortWidth(displays, IdArray(displays, n));
    IdArrayWidth(displays, n, n);
    TotalIsPositive(displays, n);
    hide Sort, IdArray, Aligned, WidthSum;
    var k := EndOfRow(displays, order);
    AtLastPlace(displays, n, order, k);
    IntervalCovers(displays, order, Aligned(displays, n), k, order[k], RowWidth(displays, order) - 1);
    assert Covered(Aligned(displays, n), RowWidth(displays, order) - 1);
  }

  lemma {:induction false} TotalIsPositive(displays: Displays, n: nat)
    requires forall id | id in displays :: displays[id].width >= 0
    ensures TotalWidth(displays, n) >= 0
  {
    if n > 0 {
      TotalIsPositive(displays, n - 1);
    }
  }

  // With display 0 there, the placed rectangles tile the sum of the widths exactly if no id is missing or display 0,
  // which then comes more than once, has no width.
  lemma TilesIffDenseOrZero(displays: Displays, n: nat)
    requires IdBound(displays, n) && 0 in displays && forall id | id in displays :: displays[id].width >= 0
    ensures Tiles(Aligned(displays, n), TotalWidth(displays, n)) <==> Dense(displays, n) || displays[0].width == 0
  {
    hide Aligned, TotalWidth;
    if Dense(displays, n) {
      DenseTiles(displays, n);
    } else if displays[0].width == 0 {
      ZeroTiles(displays, n);
    } else {
      MissingIdSpreads(displays, n);
    }
  }

  lemma {:induction false} InsertAfterMissing(displays: Displays, s: seq<nat>, id: nat)
    requires 0 !in displays && s != [] && s[0] == 0
    ensures Insert(displays, s, id) != [] && Insert(displays, s, id)[0] == 0
  {
    if |s| > 1 {
      InsertAfterMissing(displays, s[..|s| - 1], id);
    }
  }

  lemma {:induction false} SortAfterMissing(displays: Displays, s: seq<nat>)
    requires 0 !in displays && s != [] && s[0] == 0
    ensures Sort(displays, s) != [] && Sort(displays, s)[0] == 0
  {
    hide Insert;
    if |s| > 1 {
      SortAfterMissing(displays, s[..|s| - 1]);
      InsertAfterMissing(displays, Sort(displays, s[..|s| - 1]), s[|s| - 1]);
    } else {
      FirstInserted(displays, s);
    }
  }

  lemma FirstInserted(displays: Displays, s: seq<nat>)
    requires |s| == 1
    ensures Sort(displays, s) == s
  {
    assert Sort(displays, s[..0]) == [];
  }

  // Without display 0 nothing is placed at all.
  lemma WithoutZeroUnchanged(displays: Displays, n: nat)
    requires IdBound(displays, n) && 0 !in displays
    ensures Aligned(displays, n) == displays
  {
    SortAfterMissing(displays, IdArray(displays, n));
    hide Sort, IdArray;
    KnownPrefixIs(displays, Sort(displays, IdArray(displays, n)), 0);
  }

  class DisplayTable {
    var displays: Displays

    method FindMaxId() returns (maxId: nat)
      requires displays != map[]
      ensures IdBound(displays, maxId + 1)
    {
      maxId := 0;
      var rest := displays.Keys;
      while rest != {}
        invariant rest <= displays.Keys
        invariant forall id: nat | id in displays && id !in rest :: id <= maxId
        invariant maxId in displays || (maxId == 0 && rest == displays.Keys)
        decreases |rest|
      {
        var id: nat :| id in rest;
        maxId := if id > maxId then id else maxId;
        rest := rest - {id};
      }
      assert maxId in displays;
    }

    // Each id at its own index.
    method CollectIds(n: nat) returns (sorted: seq<nat>)
      requires forall id: nat | id in displays :: id < n
      ensures sorted == IdArray(displays, n)
    {
      sorted := seq(n, _ => 0);
      var rest := displays.Keys;
      while rest != {}
        invariant rest <= displays.Keys && |sorted| == n
        invariant forall k | 0 <= k < n :: sorted[k] == if k in displays && k !in rest then k else 0
        decreases |rest|
      {
        var id: nat :| id in rest;
        sorted := sorted[id := id];
        rest := rest - {id};
      }
    }

    // Puts the displays one after the other, up to the first that is missing.
    method PlaceAll(sorted: seq<nat>)
      modifies this
      ensures displays == Placed(old(displays), sorted, KnownPrefix(old(displays), sorted))
    {
      hide Placed, WidthSum;
      ghost var before := displays;
      NothingPlaced(before, sorted);
      var x := 0;
      for i := 0 to |sorted|
        invariant displays == Placed(before, sorted, i) && x == WidthSum(before, sorted, i)
        invariant forall k | 0 <= k < i :: sorted[k] in before
      {
        var nth := sorted[i];
        if nth !in displays {
          KnownPrefixIs(before, sorted, i);
          return;
        }
        var rect := displays[nth];
        PlacedNext(before, sorted, i);
        displays := displays[nth := rect.(x := x, y := 0)];
        x := x + rect.width;
      }
      KnownPrefixIs(before, sorted, |sorted|);
    }

    // Places the displays in order. Whether ids are missing is not looked at.
    method AlignLinear() returns (ghost n: nat)
      modifies this
      ensures old(displays) == map[] ==> displays == map[]
      ensures old(displays) != map[] ==> IdBound(old(displays), n)
      ensures old(displays) != map[] ==> displays == Aligned(old(displays), n)
    {
      hide Sort, Placed, IdArray, KnownPrefix;
      if displays == map[] {
        return 0;
      }
      var maxId := FindMaxId();
      var ndisplays := maxId + 1;
      n := ndisplays;
      var sorted := CollectIds(ndisplays);
      sorted := Sort(displays, sorted);
      PlaceAll(sorted);
    }
  }

  lemma NothingPlaced(displays: Displays, order: seq<nat>)
    ensures Placed(displays, order, 0) == displays && WidthSum(displays, order, 0) == 0
  {
  }

  lemma PlacedNext(displays: Displays, order: seq<nat>, k: nat)
    requires k < |order| && order[k] in displays
    ensures var r := Placed(displays, order, k);
            Placed(displays, order, k + 1) ==
            r[order[k] := r[order[k]].(x := WidthSum(displays, order, k), y := 0)]
    ensures WidthSum(displays, order, k + 1) == WidthSum(displays, order, k) + displays[order[k]].width
  {
  }

  lemma KnownPrefixIs(displays: Displays, order: seq<nat>, k: nat)
    requires k <= |order| && (forall i | 0 <= i < k :: order[i] in displays) && (k < |order| ==> order[k] !in displays)
    ensures KnownPrefix(displays, order) == k
  {
  }
}
