/**
 * Station distance and match scoring (lib/matching.ts).
 *
 * The station list is the static topology: every station, the line it is on and its position along
 * that line; an interchange appears once per line it serves. The index maps each name to its
 * (line, position) entries; the distance between two names is the smallest position gap over the
 * lines they share, or `Inf` when they share none.
 */
module Matching {
  import opened Js

  /** The lines of the network, in the order the station picker displays them. */
  datatype MetroLine =
    | Red | Yellow | Blue | BlueBranch | Green | Violet | Pink | Magenta | Grey | Orange | RapidMetro

  datatype Station = Station(id: string, name: string, line: MetroLine, sequenceIndex: int, isInterchange: bool)

  /** One index entry: a line and the position of the station on it. */
  datatype Entry = Entry(line: MetroLine, seqIndex: int)

  /** A hop count, or the `Infinity` of `getMinStationDistance` when two stations share no line. */
  datatype Distance = Fin(n: nat) | Inf

  type StationIndex = map<string, seq<Entry>>

  function EntryOf(s: Station): Entry {
    Entry(s.line, s.sequenceIndex)
  }

  // ---------------------------------------------------------------- the index

  /** The entries for `name`, one per station carrying that name, in list order. */
  function EntriesNamed(stations: seq<Station>, name: string): (r: seq<Entry>)
    ensures |r| <= |stations|
  {
    if stations == [] then []
    else
      var last := stations[|stations| - 1];
      EntriesNamed(stations[..|stations| - 1], name) + (if last.name == name then [EntryOf(last)] else [])
  }

  ghost function Names(stations: seq<Station>): set<string> {
    set i | 0 <= i < |stations| :: stations[i].name
  }

  /** The index `buildStationIndex` makes once from the station list. */
  ghost function IndexOf(stations: seq<Station>): StationIndex {
    map n | n in Names(stations) :: EntriesNamed(stations, n)
  }

  lemma {:induction false} EntriesNamedAbsent(stations: seq<Station>, name: string)
    requires name !in Names(stations)
    ensures EntriesNamed(stations, name) == []
  {
    if stations != [] {
      var init := stations[..|stations| - 1];
      assert Names(init) <= Names(stations) by {
        forall n | n in Names(init) ensures n in Names(stations) {
          var i :| 0 <= i < |init| && init[i].name == n;
          assert stations[i].name == n;
        }
      }
      EntriesNamedAbsent(init, name);
      assert stations[|stations| - 1].name in Names(stations);
    }
  }

  /** Appending one station adds one entry under its own name and changes nothing else. */
  lemma IndexOfSnoc(stations: seq<Station>, s: Station)
    ensures IndexOf(stations + [s])
         == IndexOf(stations)[s.name := (if s.name in IndexOf(stations) then IndexOf(stations)[s.name] else [])
                                        + [EntryOf(s)]]
  {
    var t := stations + [s];
    assert t[..|t| - 1] == stations;
    assert Names(t) == Names(stations) + {s.name} by {
      forall n | n in Names(t) ensures n in Names(stations) + {s.name} {
        var i :| 0 <= i < |t| && t[i].name == n;
        if i < |stations| { assert stations[i].name == n; }
      }
      forall n | n in Names(stations) ensures n in Names(t) {
        var i :| 0 <= i < |stations| && stations[i].name == n;
        assert t[i].name == n;
      }
      assert t[|stations|].name == s.name;
    }
    var m1 := IndexOf(t);
    var m2 := IndexOf(stations)[s.name := (if s.name in IndexOf(stations) then IndexOf(stations)[s.name] else [])
                                          + [EntryOf(s)]];
    assert m1.Keys == m2.Keys;
    forall n | n in m1.Keys ensures m1[n] == m2[n] {
      assert EntriesNamed(t, n) == EntriesNamed(stations, n) + (if s.name == n then [EntryOf(s)] else []);
      if n == s.name && s.name !in Names(stations) {
        EntriesNamedAbsent(stations, s.name);
      }
    }
  }

  /** The index lists, for one name, exactly the stations of that name: splitting the list splits the entries. */
  lemma {:induction false} EntriesNamedAppend(a: seq<Station>, b: seq<Station>, name: string)
    ensures EntriesNamed(a + b, name) == EntriesNamed(a, name) + EntriesNamed(b, name)
    decreases |b|
  {
    if b == [] {
      assert a + b == a;
    } else {
      var binit := b[..|b| - 1];
      assert (a + b)[..|a + b| - 1] == a + binit;
      assert (a + b)[|a + b| - 1] == b[|b| - 1];
      EntriesNamedAppend(a, binit, name);
    }
  }

  /** A single station contributes its own entry under its own name and nothing under any other. */
  lemma EntriesNamedSingle(s: Station, name: string)
    ensures EntriesNamed([s], name) == if s.name == name then [EntryOf(s)] else []
  {
    assert [s][..0] == [];
  }

  /** Some station of the list carries `name` and has entry `e`. */
  ghost predicate FromStation(stations: seq<Station>, name: string, e: Entry) {
    exists i :: 0 <= i < |stations| && stations[i].name == name && EntryOf(stations[i]) == e
  }

  /** Every entry under `name` comes from a station so named, and every such station has its entry there. */
  lemma {:induction false} EntriesNamedMembers(stations: seq<Station>, name: string)
    ensures forall e :: e in EntriesNamed(stations, name) ==> FromStation(stations, name, e)
    ensures forall i :: 0 <= i < |stations| && stations[i].name == name ==>
              EntryOf(stations[i]) in EntriesNamed(stations, name)
  {
    if stations != [] {
      var init := stations[..|stations| - 1];
      var last := stations[|stations| - 1];
      EntriesNamedMembers(init, name);
      var r := EntriesNamed(stations, name);
      var ri := EntriesNamed(init, name);
      assert r == ri + (if last.name == name then [EntryOf(last)] else []);
      forall e | e in r ensures FromStation(stations, name, e) {
        if e in ri {
          assert FromStation(init, name, e);
          var i :| 0 <= i < |init| && init[i].name == name && EntryOf(init[i]) == e;
          assert stations[i] == init[i];
        } else {
          assert stations[|stations| - 1] == last;
        }
      }
      forall i | 0 <= i < |stations| && stations[i].name == name
        ensures EntryOf(stations[i]) in r
      {
        if i < |init| { assert init[i] == stations[i]; }
      }
    }
  }

  /** The key set of the index is exactly the set of station names, and no name maps to an empty list. */
  lemma IndexKeys(stations: seq<Station>, name: string)
    ensures name in IndexOf(stations) <==> exists i :: 0 <= i < |stations| && stations[i].name == name
    ensures name in IndexOf(stations) ==> IndexOf(stations)[name] != []
  {
    if name in IndexOf(stations) {
      var i :| 0 <= i < |stations| && stations[i].name == name;
      EntriesNamedMembers(stations, name);
    }
  }

  /** `buildStationIndex`: one pass over the station list, pushing each entry under its name. */
  method BuildStationIndex(stations: seq<Station>) returns (index: StationIndex)
    ensures index == IndexOf(stations)
    ensures forall n :: n in index <==> exists i :: 0 <= i < |stations| && stations[i].name == n
  {
    index := map[];
    var i := 0;
    while i < |stations|
      invariant 0 <= i <= |stations|
      invariant index == IndexOf(stations[..i])
    {
      var s := stations[i];
      if s.name !in index {
        index := index[s.name := []];
      }
      index := index[s.name := index[s.name] + [EntryOf(s)]];
      assert stations[..i + 1] == stations[..i] + [s];
      IndexOfSnoc(stations[..i], s);
      i := i + 1;
    }
    assert stations[..i] == stations;
  }

  // ---------------------------------------------------------------- distance

  function Gap(a: Entry, b: Entry): nat {
    if a.seqIndex >= b.seqIndex then a.seqIndex - b.seqIndex else b.seqIndex - a.seqIndex
  }

  /** `if (dist < minDist) minDist = dist`, with `Inf` above every number. */
  function Improve(cur: Distance, d: nat): Distance {
    if cur.Inf? || d < cur.n then Fin(d) else cur
  }

  /** The inner loop: `cur` improved by every same-line entry of `e2s` against `e1`, left to right. */
  function RowMin(cur: Distance, e1: Entry, e2s: seq<Entry>): Distance {
    if e2s == [] then cur
    else
      var c := RowMin(cur, e1, e2s[..|e2s| - 1]);
      var e2 := e2s[|e2s| - 1];
      if e1.line == e2.line then Improve(c, Gap(e1, e2)) else c
  }

  /** The outer loop, starting from `Infinity`. */
  function PairMin(e1s: seq<Entry>, e2s: seq<Entry>): Distance {
    if e1s == [] then Inf else RowMin(PairMin(e1s[..|e1s| - 1], e2s), e1s[|e1s| - 1], e2s)
  }

  /** `getMinStationDistance` read as a function of the index. */
  function MinStationDistance(index: StationIndex, a: string, b: string): Distance {
    if a !in index || b !in index then Inf else PairMin(index[a], index[b])
  }

  /** `getMinStationDistance`: the nested loops over the two entry lists. */
  method GetMinStationDistance(index: StationIndex, station1: string, station2: string) returns (minDist: Distance)
    ensures minDist == MinStationDistance(index, station1, station2)
  {
    if station1 !in index || station2 !in index {
      return Inf;
    }
    var entries1 := index[station1];
    var entries2 := index[station2];
    minDist := Inf;
    var i := 0;
    while i < |entries1|
      invariant 0 <= i <= |entries1|
      invariant minDist == PairMin(entries1[..i], entries2)
    {
      var e1 := entries1[i];
      var j := 0;
      while j < |entries2|
        invariant 0 <= j <= |entries2|
        invariant minDist == RowMin(PairMin(entries1[..i], entries2), e1, entries2[..j])
      {
        var e2 := entries2[j];
        if e1.line == e2.line {
          var dist := Gap(e1, e2);
          if minDist.Inf? || dist < minDist.n {
            minDist := Fin(dist);
          }
        }
        assert entries2[..j + 1][..j] == entries2[..j];
        j := j + 1;
      }
      assert entries2[..j] == entries2;
      assert entries1[..i + 1][..i] == entries1[..i];
      i := i + 1;
    }
    assert entries1[..i] == entries1;
  }

  /** Entries `i` of `e1s` and `j` of `e2s` lie on the same line. */
  ghost predicate SameLine(e1s: seq<Entry>, e2s: seq<Entry>, i: int, j: int) {
    0 <= i < |e1s| && 0 <= j < |e2s| && e1s[i].line == e2s[j].line
  }

  /** `d` is the smallest gap over all same-line pairs. */
  ghost predicate IsMinGap(d: nat, e1s: seq<Entry>, e2s: seq<Entry>) {
    && (exists i, j :: SameLine(e1s, e2s, i, j) && Gap(e1s[i], e2s[j]) == d)
    && (forall i, j :: SameLine(e1s, e2s, i, j) ==> d <= Gap(e1s[i], e2s[j]))
  }

  lemma {:induction false} RowMinSpec(cur: Distance, e1: Entry, e2s: seq<Entry>)
    ensures var r := RowMin(cur, e1, e2s);
      && (r.Inf? <==> cur.Inf? && forall j :: 0 <= j < |e2s| ==> e2s[j].line != e1.line)
      && (r.Fin? ==> (r == cur || exists j :: 0 <= j < |e2s| && e2s[j].line == e1.line && Gap(e1, e2s[j]) == r.n))
      && (r.Fin? && cur.Fin? ==> r.n <= cur.n)
      && (r.Fin? ==> forall j :: 0 <= j < |e2s| && e2s[j].line == e1.line ==> r.n <= Gap(e1, e2s[j]))
  {
    if e2s != [] {
      var init := e2s[..|e2s| - 1];
      RowMinSpec(cur, e1, init);
      forall j | 0 <= j < |init| ensures init[j] == e2s[j] { }
    }
  }

  /** The outer-loop result is `Inf` exactly when no pair shares a line, and otherwise the smallest gap. */
  lemma {:induction false} PairMinSpec(e1s: seq<Entry>, e2s: seq<Entry>)
    ensures PairMin(e1s, e2s).Inf? <==> !exists i, j :: SameLine(e1s, e2s, i, j)
    ensures PairMin(e1s, e2s).Fin? ==> IsMinGap(PairMin(e1s, e2s).n, e1s, e2s)
  {
    if e1s != [] {
      var init := e1s[..|e1s| - 1];
      var last := e1s[|e1s| - 1];
      PairMinSpec(init, e2s);
      var p := PairMin(init, e2s);
      RowMinSpec(p, last, e2s);
      var r := PairMin(e1s, e2s);
      assert forall i, j :: SameLine(init, e2s, i, j) ==> SameLine(e1s, e2s, i, j) && init[i] == e1s[i];
      assert forall i, j :: SameLine(e1s, e2s, i, j) ==> i == |init| || SameLine(init, e2s, i, j);
      if r.Fin? {
        if r == p {
          var i, j :| SameLine(init, e2s, i, j) && Gap(init[i], e2s[j]) == p.n;
          assert SameLine(e1s, e2s, i, j) && Gap(e1s[i], e2s[j]) == r.n;
        } else {
          var j :| 0 <= j < |e2s| && e2s[j].line == last.line && Gap(last, e2s[j]) == r.n;
          assert SameLine(e1s, e2s, |init|, j);
        }
        forall i, j | SameLine(e1s, e2s, i, j) ensures r.n <= Gap(e1s[i], e2s[j]) {
          if i < |init| { assert SameLine(init, e2s, i, j); }
        }
      }
    }
  }

  /** Distance is symmetric, for any index. */
  lemma DistanceSymmetric(index: StationIndex, a: string, b: string)
    ensures MinStationDistance(index, a, b) == MinStationDistance(index, b, a)
  {
    if a in index && b in index {
      var xs, ys := index[a], index[b];
      PairMinSpec(xs, ys);
      PairMinSpec(ys, xs);
      assert forall i, j :: SameLine(xs, ys, i, j) <==> SameLine(ys, xs, j, i);
      var p, q := PairMin(xs, ys), PairMin(ys, xs);
      if p.Fin? {
        var i, j :| SameLine(xs, ys, i, j) && Gap(xs[i], ys[j]) == p.n;
        var i', j' :| SameLine(ys, xs, i', j') && Gap(ys[i'], xs[j']) == q.n;
        assert SameLine(ys, xs, j, i) && SameLine(xs, ys, j', i');
        assert q.n <= p.n && p.n <= q.n;
      }
    }
  }

  // ---------------------------------------------------------------- distance over the station list

  /** Stations `i` and `j` carry the names `a` and `b` and lie on the same line. */
  ghost predicate Connects(stations: seq<Station>, a: string, b: string, i: int, j: int) {
    && 0 <= i < |stations| && 0 <= j < |stations|
    && stations[i].name == a && stations[j].name == b && stations[i].line == stations[j].line
  }

  function HopGap(s: Station, t: Station): nat {
    Gap(EntryOf(s), EntryOf(t))
  }

  /** Every same-line pair of stations named `a` and `b` is a same-line pair of their index entries. */
  lemma ConnectsIsSameLine(stations: seq<Station>, a: string, b: string, i: int, j: int)
    requires Connects(stations, a, b, i, j)
    ensures a in IndexOf(stations) && b in IndexOf(stations)
    ensures exists k, l :: SameLine(IndexOf(stations)[a], IndexOf(stations)[b], k, l)
                        && Gap(IndexOf(stations)[a][k], IndexOf(stations)[b][l]) == HopGap(stations[i], stations[j])
  {
    IndexKeys(stations, a);
    IndexKeys(stations, b);
    var xs, ys := IndexOf(stations)[a], IndexOf(stations)[b];
    EntriesNamedMembers(stations, a);
    EntriesNamedMembers(stations, b);
    assert EntryOf(stations[i]) in xs && EntryOf(stations[j]) in ys;
    var k :| 0 <= k < |xs| && xs[k] == EntryOf(stations[i]);
    var l :| 0 <= l < |ys| && ys[l] == EntryOf(stations[j]);
    assert SameLine(xs, ys, k, l);
  }

  /** Every same-line pair of index entries comes from a same-line pair of stations. */
  lemma SameLineIsConnects(stations: seq<Station>, a: string, b: string, k: int, l: int)
    requires a in IndexOf(stations) && b in IndexOf(stations)
    requires SameLine(IndexOf(stations)[a], IndexOf(stations)[b], k, l)
    ensures exists i, j :: Connects(stations, a, b, i, j)
                        && HopGap(stations[i], stations[j]) == Gap(IndexOf(stations)[a][k], IndexOf(stations)[b][l])
  {
    var xs, ys := IndexOf(stations)[a], IndexOf(stations)[b];
    EntriesNamedMembers(stations, a);
    EntriesNamedMembers(stations, b);
    assert xs[k] in xs && ys[l] in ys;
    assert FromStation(stations, a, xs[k]) && FromStation(stations, b, ys[l]);
    var i :| 0 <= i < |stations| && stations[i].name == a && EntryOf(stations[i]) == xs[k];
    var j :| 0 <= j < |stations| && stations[j].name == b && EntryOf(stations[j]) == ys[l];
    assert Connects(stations, a, b, i, j);
  }

  /**
   * Over the index built from a station list, the distance is `Inf` exactly when no station named `a`
   * shares a line with a station named `b` (so in particular when either name is unknown), and is
   * otherwise the smallest position gap over all such same-line pairs.
   */
  lemma DistanceSpec(stations: seq<Station>, a: string, b: string)
    ensures var d := MinStationDistance(IndexOf(stations), a, b);
      && (d.Inf? <==> !exists i, j :: Connects(stations, a, b, i, j))
      && (d.Fin? ==> exists i, j :: Connects(stations, a, b, i, j) && HopGap(stations[i], stations[j]) == d.n)
      && (d.Fin? ==> forall i, j :: Connects(stations, a, b, i, j) ==> d.n <= HopGap(stations[i], stations[j]))
  {
    var index := IndexOf(stations);
    var d := MinStationDistance(index, a, b);
    if exists i, j :: Connects(stations, a, b, i, j) {
      var i, j :| Connects(stations, a, b, i, j);
      ConnectsIsSameLine(stations, a, b, i, j);
      var xs, ys := index[a], index[b];
      PairMinSpec(xs, ys);
      assert d == PairMin(xs, ys);
      var k, l :| SameLine(xs, ys, k, l) && Gap(xs[k], ys[l]) == d.n;
      SameLineIsConnects(stations, a, b, k, l);
      forall i', j' | Connects(stations, a, b, i', j') ensures d.n <= HopGap(stations[i'], stations[j']) {
        ConnectsIsSameLine(stations, a, b, i', j');
      }
    } else if a in index && b in index {
      var xs, ys := index[a], index[b];
      PairMinSpec(xs, ys);
      if d.Fin? {
        var k, l :| SameLine(xs, ys, k, l) && Gap(xs[k], ys[l]) == d.n;
        SameLineIsConnects(stations, a, b, k, l);
      }
    }
  }

  /** A station name that occurs in the list is at distance 0 from itself. */
  lemma DistanceToSelf(stations: seq<Station>, a: string, i: int)
    requires 0 <= i < |stations| && stations[i].name == a
    ensures MinStationDistance(IndexOf(stations), a, a) == Fin(0)
  {
    DistanceSpec(stations, a, a);
    assert Connects(stations, a, a, i, i);
  }

  /** Distance of two stations on the same line, both names unique in the list: the plain position gap. */
  lemma DistanceOnOneLine(stations: seq<Station>, i: int, j: int)
    requires 0 <= i < |stations| && 0 <= j < |stations| && stations[i].line == stations[j].line
    requires forall k :: 0 <= k < |stations| && stations[k].name == stations[i].name ==> k == i
    requires forall k :: 0 <= k < |stations| && stations[k].name == stations[j].name ==> k == j
    ensures MinStationDistance(IndexOf(stations), stations[i].name, stations[j].name) == Fin(HopGap(stations[i], stations[j]))
  {
    DistanceSpec(stations, stations[i].name, stations[j].name);
    assert Connects(stations, stations[i].name, stations[j].name, i, j);
  }

  // ---------------------------------------------------------------- proximity, time, label

  /** `isWithinStations`: `Infinity <= maxDistance` is false for every finite bound. */
  function IsWithinStations(index: StationIndex, a: string, b: string, maxDistance: int): bool {
    match MinStationDistance(index, a, b)
    case Inf => false
    case Fin(n) => n <= maxDistance
  }

  /** Two stations are within `k` stops exactly when some same-line pair of them is at most `k` apart. */
  lemma WithinStationsSpec(stations: seq<Station>, a: string, b: string, k: int)
    ensures IsWithinStations(IndexOf(stations), a, b, k)
        <==> exists i, j :: Connects(stations, a, b, i, j) && HopGap(stations[i], stations[j]) <= k
  {
    DistanceSpec(stations, a, b);
  }

  /** A time of day as `split(":").map(Number)` reads an `HH:MM` string. */
  datatype ClockTime = ClockTime(hour: int, minute: int)

  function MinutesOfDay(t: ClockTime): int {
    t.hour * 60 + t.minute
  }

  /** `getTimeDiffMinutes`: the absolute difference of minutes since midnight, with no wrap at midnight. */
  function TimeDiffMinutes(t1: ClockTime, t2: ClockTime): (r: nat)
    ensures r == 0 <==> MinutesOfDay(t1) == MinutesOfDay(t2)
    ensures MinutesOfDay(t1) == MinutesOfDay(t2) + r || MinutesOfDay(t2) == MinutesOfDay(t1) + r
  {
    var d := MinutesOfDay(t1) - MinutesOfDay(t2);
    if d >= 0 then d else -d
  }

  lemma TimeDiffSymmetric(t1: ClockTime, t2: ClockTime)
    ensures TimeDiffMinutes(t1, t2) == TimeDiffMinutes(t2, t1)
  {
  }

  /** "23:50" against "00:10" is 1420 minutes apart, not 20. */
  lemma TimeDiffNoMidnightWrap()
    ensures TimeDiffMinutes(ClockTime(23, 50), ClockTime(0, 10)) == 1420
    ensures TimeDiffMinutes(ClockTime(9, 0), ClockTime(9, 25)) == 25
  {
  }

  /** The `{ startDist, endDist, label }` record of `getMatchQuality`. */
  datatype MatchQuality = MatchQuality(startDist: Distance, endDist: Distance, labelText: string)

  const ExactLabel := "Exact route match"

  /** `Infinity` reads as 0 in the label. */
  function LabelCount(d: Distance): nat {
    if d.Inf? then 0 else d.n
  }

  function Max(a: nat, b: nat): nat {
    if a >= b then a else b
  }

  /** The label text: exact when both distances are 0, otherwise `±N station` or `±N stations`. */
  function Label(startDist: Distance, endDist: Distance): string {
    if startDist == Fin(0) && endDist == Fin(0) then ExactLabel
    else
      var maxDist := Max(LabelCount(startDist), LabelCount(endDist));
      "±" + Decimal(maxDist) + " station" + (if maxDist != 1 then "s" else "")
  }

  /** `getMatchQuality`: both distances and the label built from them. */
  function GetMatchQuality(index: StationIndex, searchStart: string, searchEnd: string,
                           tripStart: string, tripEnd: string): (q: MatchQuality)
    ensures q.startDist == MinStationDistance(index, searchStart, tripStart)
    ensures q.endDist == MinStationDistance(index, searchEnd, tripEnd)
    ensures q.labelText == Label(q.startDist, q.endDist)
  {
    var startDist := MinStationDistance(index, searchStart, tripStart);
    var endDist := MinStationDistance(index, searchEnd, tripEnd);
    MatchQuality(startDist, endDist, Label(startDist, endDist))
  }

  /** The label is the exact-match text iff both distances are 0 (no "±" label can equal it). */
  lemma LabelExactIff(startDist: Distance, endDist: Distance)
    ensures Label(startDist, endDist) == ExactLabel <==> startDist == Fin(0) && endDist == Fin(0)
  {
    if !(startDist == Fin(0) && endDist == Fin(0)) {
      assert Label(startDist, endDist)[0] == '±';
      assert ExactLabel[0] == 'E';
    }
  }

  /** A "±" label carries the larger distance (Infinity read as 0) in decimal, and ends in "s" unless it is 1. */
  lemma LabelCountReadable(startDist: Distance, endDist: Distance)
    requires !(startDist == Fin(0) && endDist == Fin(0))
    ensures var text := Label(startDist, endDist);
      var n := Max(LabelCount(startDist), LabelCount(endDist));
      var digits := text[1..1 + |Decimal(n)|];
      && text[0] == '±'
      && (forall k :: 0 <= k < |digits| ==> '0' <= digits[k] <= '9')
      && DigitsValue(digits) == n
      && text[1 + |Decimal(n)|..] == (if n == 1 then " station" else " stations")
  {
    var n := Max(LabelCount(startDist), LabelCount(endDist));
    var text := Label(startDist, endDist);
    assert text == "±" + Decimal(n) + " station" + (if n != 1 then "s" else "");
    assert text[1..1 + |Decimal(n)|] == Decimal(n);
    DecimalRoundTrip(n);
  }
}
