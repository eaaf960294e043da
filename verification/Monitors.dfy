// Mapping guest displays to client monitors.
module Monitors {

  datatype Option<T> = None | Some(value: T)

  // One configured mapping, as parsed; malformed if it is not two numbers separated by a colon.
  datatype Entry = Malformed | Pair(display: int, monitor: int)

  // The integers of [0, n).
  ghost function Range(n: nat): (s: set<int>)
    ensures |s| == n && forall k :: k in s <==> 0 <= k < n
  {
    if n == 0 then {} else Range(n - 1) + {n - 1}
  }

  lemma SubsetSize(s: set<int>, t: set<int>)
    requires s <= t
    ensures |s| <= |t| && (|s| == |t| ==> s == t)
  {
    assert t == s + (t - s);
    assert |t| == |s| + |t - s|;
  }

  // ----- mappings -----

  // A pair of a display and one of nmonitors monitors.
  ghost predicate Usable(e: Entry, nmonitors: int) {
    e.Pair? && e.display >= 0 && 0 <= e.monitor < nmonitors
  }

  // Two entries that share a display or a monitor.
  ghost predicate Clash(a: Entry, b: Entry) {
    a.Pair? && b.Pair? && (a.display == b.display || a.monitor == b.monitor)
  }

  ghost predicate Sound(entries: seq<Entry>, n: nat, nmonitors: int)
    requires n <= |entries|
  {
    (forall i | 0 <= i < n :: Usable(entries[i], nmonitors)) &&
    (forall i, j | 0 <= i < j < n :: !Clash(entries[i], entries[j]))
  }

  // The entries are an injection from {0, ..., |entries| - 1} into [0, nmonitors).
  ghost predicate IsInjection(entries: seq<Entry>, nmonitors: int) {
    entries != [] && Sound(entries, |entries|, nmonitors) &&
    forall i | 0 <= i < |entries| :: entries[i].Pair? && entries[i].display < |entries|
  }

  ghost predicate Names(entries: seq<Entry>, n: nat, d: int, m: int) {
    exists i | 0 <= i < n && i < |entries| :: entries[i] == Pair(d, m)
  }

  // The map holds exactly the first n entries, by display.
  ghost predicate ByDisplay(entries: seq<Entry>, n: nat, displays: map<int, int>) {
    (forall d, m :: Names(entries, n, d, m) <==> d in displays && displays[d] == m) && |displays.Keys| == n
  }

  // The map holds exactly the first n entries, by monitor.
  ghost predicate ByMonitor(entries: seq<Entry>, n: nat, monitors: map<int, int>) {
    (forall d, m :: Names(entries, n, d, m) <==> m in monitors && monitors[m] == d) && |monitors.Keys| == n
  }

  ghost predicate Recorded(entries: seq<Entry>, n: nat, displays: map<int, int>, monitors: map<int, int>) {
    ByDisplay(entries, n, displays) && ByMonitor(entries, n, monitors)
  }

  // A map from the first n displays into the monitors that never shares a monitor.
  ghost predicate IsMapping(m: map<int, int>, n: nat, nmonitors: int) {
    m.Keys == Range(n) && (forall d | d in m :: 0 <= m[d] < nmonitors) &&
    forall d, e | d in m && e in m && d != e :: m[d] != m[e]
  }

  lemma NamesNext(entries: seq<Entry>, n: nat, d: int, m: int)
    requires n < |entries|
    ensures Names(entries, n + 1, d, m) <==> Names(entries, n, d, m) || entries[n] == Pair(d, m)
  {
  }

  lemma NamesUsable(entries: seq<Entry>, n: nat, nmonitors: int, d: int, m: int)
    requires n <= |entries| && Sound(entries, n, nmonitors) && Names(entries, n, d, m)
    ensures d >= 0 && 0 <= m < nmonitors
  {
  }

  // All that is recorded lies in range, and no monitor is shared.
  lemma RecordedInRange(entries: seq<Entry>, n: nat, nmonitors: int, displays: map<int, int>, monitors: map<int, int>)
    requires n <= |entries| && Sound(entries, n, nmonitors) && Recorded(entries, n, displays, monitors)
    ensures forall d | d in displays :: d >= 0 && 0 <= displays[d] < nmonitors
    ensures forall m | m in monitors :: 0 <= m < nmonitors
    ensures forall d, e | d in displays && e in displays && d != e :: displays[d] != displays[e]
  {
    hide Sound, Names;
    forall d | d in displays
      ensures d >= 0 && 0 <= displays[d] < nmonitors && displays[d] in monitors && monitors[displays[d]] == d
    {
      assert Names(entries, n, d, displays[d]);
      NamesUsable(entries, n, nmonitors, d, displays[d]);
    }
    forall m | m in monitors
      ensures 0 <= m < nmonitors
    {
      assert Names(entries, n, monitors[m], m);
      NamesUsable(entries, n, nmonitors, monitors[m], m);
    }
  }

  // No more displays than monitors.
  lemma MappingFits(entries: seq<Entry>, n: nat, nmonitors: int, displays: map<int, int>, monitors: map<int, int>)
    requires 0 < n <= |entries| && Sound(entries, n, nmonitors) && Recorded(entries, n, displays, monitors)
    ensures n <= nmonitors
  {
    assert Usable(entries[0], nmonitors);
    RecordedInRange(entries, n, nmonitors, displays, monitors);
    hide Sound, Usable;
    SubsetSize(monitors.Keys, Range(nmonitors));
    hide Recorded;
  }

  lemma OneMoreKey(a: map<int, int>, x: int, y: int)
    requires x !in a
    ensures |a[x := y].Keys| == |a.Keys| + 1
  {
    assert a[x := y].Keys == a.Keys + {x};
  }

  lemma RecordDisplay(entries: seq<Entry>, n: nat, displays: map<int, int>)
    requires n < |entries| && ByDisplay(entries, n, displays) && entries[n].Pair? && entries[n].display !in displays
    ensures ByDisplay(entries, n + 1, displays[entries[n].display := entries[n].monitor])
  {
    var e, n' := entries[n], n + 1;
    OneMoreKey(displays, e.display, e.monitor);
    forall d, m
      ensures Names(entries, n', d, m) <==> Names(entries, n, d, m) || (e.display == d && e.monitor == m)
    {
      NamesNext(entries, n, d, m);
    }
    hide Names;
  }

  lemma RecordMonitor(entries: seq<Entry>, n: nat, monitors: map<int, int>)
    requires n < |entries| && ByMonitor(entries, n, monitors) && entries[n].Pair? && entries[n].monitor !in monitors
    ensures ByMonitor(entries, n + 1, monitors[entries[n].monitor := entries[n].display])
  {
    var e, n' := entries[n], n + 1;
    OneMoreKey(monitors, e.monitor, e.display);
    forall d, m
      ensures Names(entries, n', d, m) <==> Names(entries, n, d, m) || (e.display == d && e.monitor == m)
    {
      NamesNext(entries, n, d, m);
    }
    hide Names;
  }

  // An entry that shares nothing with those before keeps them sound; otherwise there is no injection.
  lemma NextEntry(entries: seq<Entry>, n: nat, nmonitors: int, displays: map<int, int>, monitors: map<int, int>)
    requires n < |entries| && Sound(entries, n, nmonitors) && Recorded(entries, n, displays, monitors)
    ensures var e := entries[n];
            if Usable(e, nmonitors) && e.display !in displays && e.monitor !in monitors
            then Sound(entries, n + 1, nmonitors) else !IsInjection(entries, nmonitors)
  {
    var e := entries[n];
    if Usable(e, nmonitors) {
      if e.display in displays {
        assert Names(entries, n, e.display, displays[e.display]);
      } else if e.monitor in monitors {
        assert Names(entries, n, monitors[e.monitor], e.monitor);
      } else {
        forall i | 0 <= i < n
          ensures !Clash(entries[i], e)
        {
          assert Usable(entries[i], nmonitors);
          assert Names(entries, n, entries[i].display, entries[i].monitor);
        }
      }
    }
  }

  lemma NamedDisplays(entries: seq<Entry>, nmonitors: int, displays: map<int, int>, max: int)
    requires Sound(entries, |entries|, nmonitors) && ByDisplay(entries, |entries|, displays)
    requires forall d | d in displays :: d <= max
    ensures forall i | 0 <= i < |entries| :: entries[i].Pair? && entries[i].display <= max
  {
    forall i | 0 <= i < |entries|
      ensures entries[i].Pair? && entries[i].display <= max
    {
      assert Usable(entries[i], nmonitors);
      assert Names(entries, |entries|, entries[i].display, entries[i].monitor);
    }
  }

  // As many displays as entries, and all up to the largest: exactly the first ones.
  lemma NoGaps(entries: seq<Entry>, nmonitors: int, displays: map<int, int>, monitors: map<int, int>, max: nat)
    requires entries != [] && Sound(entries, |entries|, nmonitors) && Recorded(entries, |entries|, displays, monitors)
    requires max in displays && forall d | d in displays :: d <= max
    requires forall d | 0 <= d < max :: d in displays
    ensures IsMapping(displays, |entries|, nmonitors) && IsInjection(entries, nmonitors)
  {
    hide Sound, Names;
    RecordedInRange(entries, |entries|, nmonitors, displays, monitors);
    assert displays.Keys == Range(max + 1);
    NamedDisplays(entries, nmonitors, displays, max);
  }

  // In an injection every display below the number of entries is named.
  lemma InjectionIsOnto(entries: seq<Entry>, nmonitors: int, displays: map<int, int>, monitors: map<int, int>, d: int)
    requires Recorded(entries, |entries|, displays, monitors) && 0 <= d < |entries|
    ensures IsInjection(entries, nmonitors) ==> d in displays
  {
    if IsInjection(entries, nmonitors) {
      RecordedInRange(entries, |entries|, nmonitors, displays, monitors);
      forall e | e in displays.Keys
        ensures e in Range(|entries|)
      {
        assert Names(entries, |entries|, e, displays[e]);
      }
      SubsetSize(displays.Keys, Range(|entries|));
    }
  }

  // The largest display lies above a gap, so an injection leaves no gap.
  lemma GapBelow(entries: seq<Entry>, nmonitors: int, displays: map<int, int>, monitors: map<int, int>, d: nat, max: nat)
    requires Recorded(entries, |entries|, displays, monitors) && d < max && max in displays && d !in displays
    ensures !IsInjection(entries, nmonitors)
  {
    assert Names(entries, |entries|, max, displays[max]);
    if d < |entries| {
      InjectionIsOnto(entries, nmonitors, displays, monitors, d);
    }
    hide Recorded;
  }

  lemma ResultHolds(entries: seq<Entry>, nmonitors: int, displays: map<int, int>, monitors: map<int, int>)
    requires Sound(entries, |entries|, nmonitors) && Recorded(entries, |entries|, displays, monitors)
    ensures forall i | 0 <= i < |entries| ::
              entries[i].Pair? && entries[i].display in displays && displays[entries[i].display] == entries[i].monitor
  {
    forall i | 0 <= i < |entries|
      ensures entries[i].Pair? && Names(entries, |entries|, entries[i].display, entries[i].monitor)
    {
      assert Usable(entries[i], nmonitors);
    }
    hide Names;
  }

  // A map exactly if the entries are an injection of the first displays into the monitors.
  method ParseMonitorMappings(entries: seq<Entry>, nmonitors: int) returns (result: Option<map<int, int>>)
    ensures result.Some? <==> IsInjection(entries, nmonitors)
    ensures result.Some? ==> IsMapping(result.value, |entries|, nmonitors) && |entries| <= nmonitors
    ensures result.Some? ==> forall i | 0 <= i < |entries| ::
              entries[i].Pair? && entries[i].display in result.value &&
              result.value[entries[i].display] == entries[i].monitor
  {
    if nmonitors == 0 {
      NoMonitors(entries);
      return None;
    }
    var displaymap: map<int, int>, monitormap: map<int, int>, maxDisplay: nat := map[], map[], 0;
    if |entries| == 0 {
      return None;
    }
    NothingRecorded(entries, nmonitors);
    hide ByDisplay, ByMonitor, Sound, IsInjection, IsMapping, Clash;
    for i := 0 to |entries|
      invariant Sound(entries, i, nmonitors) && Recorded(entries, i, displaymap, monitormap)
      invariant if i == 0 then displaymap == map[] && maxDisplay == 0 else maxDisplay in displaymap
      invariant forall d | d in displaymap :: d <= maxDisplay
    {
      NextEntry(entries, i, nmonitors, displaymap, monitormap);
      if entries[i].Malformed? {
        return None;
      }
      var display, monitor := entries[i].display, entries[i].monitor;
      if display < 0 {
        return None;
      }
      if monitor < 0 {
        return None;
      }
      if monitor >= nmonitors {
        return None;
      }
      if display in displaymap || monitor in monitormap {
        return None;
      }
      RecordDisplay(entries, i, displaymap);
      RecordMonitor(entries, i, monitormap);
      displaymap := displaymap[display := monitor];
      monitormap := monitormap[monitor := display];
      maxDisplay := if display > maxDisplay then display else maxDisplay;
    }
    for d := 0 to maxDisplay
      invariant forall e | 0 <= e < d :: e in displaymap
    {
      if d !in displaymap {
        GapBelow(entries, nmonitors, displaymap, monitormap, d, maxDisplay);
        return None;
      }
    }
    NoGaps(entries, nmonitors, displaymap, monitormap, maxDisplay);
    MappingFits(entries, |entries|, nmonitors, displaymap, monitormap);
    ResultHolds(entries, nmonitors, displaymap, monitormap);
    return Some(displaymap);
  }

  lemma NoMonitors(entries: seq<Entry>)
    ensures !IsInjection(entries, 0)
  {
    if entries != [] {
      assert !Usable(entries[0], 0);
    }
  }

  lemma NothingRecorded(entries: seq<Entry>, nmonitors: int)
    ensures Sound(entries, 0, nmonitors) && Recorded(entries, 0, map[], map[])
    ensures entries == [] ==> !IsInjection(entries, nmonitors)
  {
  }
}
