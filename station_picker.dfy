/**
 * The station picker (components/station-picker.tsx): stations grouped per metro line, with
 * one station per name on each line and the excluded name left out, rendered in a fixed line order.
 */
module StationPicker {
  import opened Wrappers
  import opened Matching
  import opened Lists

  type Groups = map<MetroLine, seq<Station>>

  /** `excludeStation && station.name === excludeStation`: an absent or empty exclusion excludes nothing. */
  predicate Excluded(excludeStation: Option<string>, s: Station) {
    excludeStation.Some? && excludeStation.value != "" && s.name == excludeStation.value
  }

  function NamesIn(group: seq<Station>): set<string> {
    set t | t in group :: t.name
  }

  /** One turn of the grouping loop. */
  function AddStation(groups: Groups, excludeStation: Option<string>, s: Station): Groups {
    if Excluded(excludeStation, s) then groups
    else if s.line !in groups then groups[s.line := [s]]
    else if s.name in NamesIn(groups[s.line]) then groups
    else groups[s.line := groups[s.line] + [s]]
  }

  /** The groups the loop has built after visiting `stations`. */
  function GroupsOf(stations: seq<Station>, excludeStation: Option<string>): Groups {
    if stations == [] then map[]
    else AddStation(GroupsOf(stations[..|stations| - 1], excludeStation), excludeStation, stations[|stations| - 1])
  }

  /** The `groupedStations` builder: `groups` pushed to per line, `seenPerLine` the names already taken. */
  method GroupStations(allStations: seq<Station>, excludeStation: Option<string>) returns (groups: Groups)
    ensures groups == GroupsOf(allStations, excludeStation)
  {
    groups := map[];
    var seenPerLine: map<MetroLine, set<string>> := map[];
    for i := 0 to |allStations|
      invariant groups == GroupsOf(allStations[..i], excludeStation)
      invariant seenPerLine.Keys == groups.Keys
      invariant forall l :: l in seenPerLine ==> seenPerLine[l] == NamesIn(groups[l])
    {
      assert allStations[..i + 1][..i] == allStations[..i];
      ghost var next := AddStation(groups, excludeStation, allStations[i]);
      assert GroupsOf(allStations[..i + 1], excludeStation) == next;
      var station := allStations[i];
      if Excluded(excludeStation, station) {
        continue;
      }
      var lineKey := station.line;
      ghost var before := groups;
      if lineKey !in groups {
        groups := groups[lineKey := []];
        seenPerLine := seenPerLine[lineKey := {}];
        assert NamesIn(groups[lineKey]) == {};
      }
      if station.name !in seenPerLine[lineKey] {
        seenPerLine := seenPerLine[lineKey := seenPerLine[lineKey] + {station.name}];
        assert NamesIn(groups[lineKey] + [station]) == NamesIn(groups[lineKey]) + {station.name};
        groups := groups[lineKey := groups[lineKey] + [station]];
        if lineKey !in before {
          assert groups[lineKey] == [station];
          assert groups == before[lineKey := [station]];
        } else {
          assert station.name !in NamesIn(before[lineKey]);
          assert groups == before[lineKey := before[lineKey] + [station]];
        }
      }
      assert groups == next;
    }
    assert allStations[..|allStations|] == allStations;
  }

  // ---------------------------------------------------------------- properties of the groups

  /** Every group is non-empty, holds only non-excluded stations of its own line taken from the list,
      and has each name at most once. */
  ghost predicate WellGrouped(groups: Groups, stations: seq<Station>, excludeStation: Option<string>) {
    forall l :: l in groups ==>
      && groups[l] != []
      && (forall k :: 0 <= k < |groups[l]| ==>
            groups[l][k].line == l && !Excluded(excludeStation, groups[l][k]) && groups[l][k] in stations)
      && (forall i, j :: 0 <= i < j < |groups[l]| ==> groups[l][i].name != groups[l][j].name)
  }

  lemma {:induction false} GroupsWellFormed(stations: seq<Station>, excludeStation: Option<string>)
    ensures WellGrouped(GroupsOf(stations, excludeStation), stations, excludeStation)
    decreases |stations|
  {
    if stations != [] {
      var pre := stations[..|stations| - 1];
      var s := stations[|stations| - 1];
      GroupsWellFormed(pre, excludeStation);
      var g': Groups := GroupsOf(pre, excludeStation);
      var g: Groups := GroupsOf(stations, excludeStation);
      assert forall t :: t in pre ==> t in stations;
      forall l: MetroLine | l in g
        ensures g[l] != []
        ensures forall k :: 0 <= k < |g[l]| ==> g[l][k].line == l && !Excluded(excludeStation, g[l][k]) && g[l][k] in stations
        ensures forall i, j :: 0 <= i < j < |g[l]| ==> g[l][i].name != g[l][j].name
      {
        if l in g' && g[l] != g'[l] {
          assert g[l] == g'[l] + [s];
          forall i, j | 0 <= i < j < |g[l]| ensures g[l][i].name != g[l][j].name {
            if j == |g[l]| - 1 {
              assert g'[l][i] in g'[l];
            }
          }
        }
      }
    }
  }

  /** Every non-excluded station's name appears in its own line's group. */
  lemma {:induction false} GroupsComplete(stations: seq<Station>, excludeStation: Option<string>, p: int)
    requires 0 <= p < |stations| && !Excluded(excludeStation, stations[p])
    ensures stations[p].line in GroupsOf(stations, excludeStation)
    ensures stations[p].name in NamesIn(GroupsOf(stations, excludeStation)[stations[p].line])
    decreases |stations|
  {
    var pre := stations[..|stations| - 1];
    var s := stations[|stations| - 1];
    var g': Groups := GroupsOf(pre, excludeStation);
    var g: Groups := GroupsOf(stations, excludeStation);
    if p < |pre| {
      GroupsComplete(pre, excludeStation, p);
      assert pre[p] == stations[p];
      var l := stations[p].line;
      var t: Station :| t in g'[l] && t.name == stations[p].name;
      assert t in g[l];
    } else {
      if s.line in g' && s.name !in NamesIn(g'[s.line]) {
        assert s in g[s.line];
      } else if s.line !in g' {
        assert s in g[s.line];
      }
    }
  }

  /** A group exists exactly for the lines with at least one non-excluded station. */
  lemma GroupKeys(stations: seq<Station>, excludeStation: Option<string>, l: MetroLine)
    ensures l in GroupsOf(stations, excludeStation)
        <==> exists p :: 0 <= p < |stations| && stations[p].line == l && !Excluded(excludeStation, stations[p])
  {
    var g: Groups := GroupsOf(stations, excludeStation);
    GroupsWellFormed(stations, excludeStation);
    if l in g {
      assert g[l][0] in stations;
      var p :| 0 <= p < |stations| && stations[p] == g[l][0];
    }
    if p :| 0 <= p < |stations| && stations[p].line == l && !Excluded(excludeStation, stations[p]) {
      GroupsComplete(stations, excludeStation, p);
    }
  }

  /** No earlier station in the list has the same name on the same line. */
  ghost predicate FirstOnLine(stations: seq<Station>, p: int)
    requires 0 <= p < |stations|
  {
    forall q :: 0 <= q < p ==> !(stations[q].line == stations[p].line && stations[q].name == stations[p].name)
  }

  /** The station kept for a name on a line is the first one in the list with that name on that line. */
  lemma {:induction false} GroupsKeepFirst(stations: seq<Station>, excludeStation: Option<string>, l: MetroLine, k: int)
    requires l in GroupsOf(stations, excludeStation) && 0 <= k < |GroupsOf(stations, excludeStation)[l]|
    ensures exists p :: 0 <= p < |stations| && stations[p] == GroupsOf(stations, excludeStation)[l][k] && FirstOnLine(stations, p)
    decreases |stations|
  {
    var pre := stations[..|stations| - 1];
    var s := stations[|stations| - 1];
    var g': Groups := GroupsOf(pre, excludeStation);
    var g: Groups := GroupsOf(stations, excludeStation);
    if l in g' && k < |g'[l]| {
      assert g[l][k] == g'[l][k];
      GroupsKeepFirst(pre, excludeStation, l, k);
      var p :| 0 <= p < |pre| && pre[p] == g'[l][k] && FirstOnLine(pre, p);
      assert stations[p] == pre[p];
      assert FirstOnLine(stations, p);
    } else {
      // the station appended by this turn
      assert g[l][k] == s;
      var p := |stations| - 1;
      forall q | 0 <= q < p ensures !(stations[q].line == s.line && stations[q].name == s.name) {
        if stations[q].line == s.line && stations[q].name == s.name {
          assert pre[q] == stations[q];
          GroupsComplete(pre, excludeStation, q);
        }
      }
      assert FirstOnLine(stations, p);
    }
  }

  /** Each group lists its stations in list order. */
  lemma {:induction false} GroupsOrdered(stations: seq<Station>, excludeStation: Option<string>, l: MetroLine)
    requires l in GroupsOf(stations, excludeStation)
    ensures IsSubseq(GroupsOf(stations, excludeStation)[l], stations)
    decreases |stations|
  {
    var pre := stations[..|stations| - 1];
    var s := stations[|stations| - 1];
    var g': Groups := GroupsOf(pre, excludeStation);
    var g: Groups := GroupsOf(stations, excludeStation);
    if l in g' {
      GroupsOrdered(pre, excludeStation, l);
      if g[l] != g'[l] {
        assert g[l] == g'[l] + [s];
        assert g[l][..|g[l]| - 1] == g'[l];
      }
    } else {
      assert g[l] == [s];
      assert g[l][..0] == [];
    }
  }

  // ---------------------------------------------------------------- rendering

  /** The display order of the lines. */
  const LineOrder: seq<MetroLine> :=
    [Red, Yellow, Blue, BlueBranch, Green, Violet, Pink, Magenta, Grey, Orange, RapidMetro]

  /** The lines whose group is rendered, visiting `order` and skipping missing or empty groups. */
  function RenderedLines(groups: Groups, order: seq<MetroLine>): (r: seq<MetroLine>)
    ensures forall l :: l in r <==> l in order && l in groups && groups[l] != []
    ensures IsSubseq(r, order)
  {
    if order == [] then []
    else
      var pre := order[..|order| - 1];
      var l := order[|order| - 1];
      var rest := RenderedLines(groups, pre);
      assert forall x :: x in order <==> x in pre || x == l;
      if l in groups && groups[l] != [] then
        assert (rest + [l])[..|rest|] == rest;
        rest + [l]
      else rest
  }

  /** Every line is in the display order, exactly once. */
  lemma LineOrderComplete(l: MetroLine)
    ensures l in LineOrder
    ensures forall i, j :: 0 <= i < j < |LineOrder| ==> LineOrder[i] != LineOrder[j]
  {
  }

  /** The picker shows a line exactly when the line is in the display order and has a
      non-excluded station. */
  lemma PickerShowsLine(stations: seq<Station>, excludeStation: Option<string>, l: MetroLine)
    ensures l in RenderedLines(GroupsOf(stations, excludeStation), LineOrder)
        <==> l in LineOrder
             && exists p :: 0 <= p < |stations| && stations[p].line == l && !Excluded(excludeStation, stations[p])
  {
    GroupKeys(stations, excludeStation, l);
    GroupsWellFormed(stations, excludeStation);
  }
}
