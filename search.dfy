/**
 * The search handler (app/api/search/route.ts): parameter checks, then the filter / score / sort
 * pipeline over the candidate trips the database returned for the date.
 */
module Search {
  import opened Wrappers
  import opened Http
  import opened Matching
  import opened Sorting
  import opened Lists

  const StationThreshold := 5
  const TimeThresholdMinutes := 30

  /** The public profile joined to a trip; only the gender takes part in matching. */
  datatype Profile = Profile(id: string, name: string, gender: Option<string>)

  /** A candidate trip row with its owner's profile (`None` when the join found no profile). */
  datatype Trip = Trip(
    id: string, userId: string, startStation: string, endStation: string,
    travelDate: string, travelTime: string, isRepeating: bool, repeatDays: seq<int>,
    owner: Option<Profile>)

  /** The query string values; `None` is an absent parameter. */
  datatype SearchParams = SearchParams(
    startStation: Option<string>, endStation: Option<string>, travelDate: Option<string>,
    travelTime: Option<string>, genderFilter: Option<string>)

  datatype Query = Query(
    startStation: string, endStation: string, travelDate: string, travelTime: string, genderFilter: string)

  /** One result: the trip plus the fields the handler adds. The score is kept in tenths,
      `sort_score = sortScoreTenths / 10`; `None` stands for NaN in `time_diff` and `sort_score`
      (serialised as null). */
  datatype Match = Match(
    trip: Trip, matchQuality: string, startDistance: nat, endDistance: nat,
    timeDiff: Option<nat>, sortScoreTenths: Option<nat>)

  /** A present, non-empty parameter (`!value` rejects both null and ""). */
  predicate Given(p: Option<string>) {
    p.Some? && p.value != ""
  }

  /** The parameter checks before any database work. */
  function ParseQuery(params: SearchParams): (r: Outcome<Query>)
    ensures r.Err? <==> !(Given(params.startStation) && Given(params.endStation)
                          && Given(params.travelDate) && Given(params.travelTime))
    ensures r.Err? ==> r == Err(400, "Missing required search parameters")
    ensures r.Ok? ==> (r.value.startStation == params.startStation.value && r.value.endStation == params.endStation.value
                       && r.value.travelDate == params.travelDate.value && r.value.travelTime == params.travelTime.value)
    ensures r.Ok? ==> r.value.genderFilter == (if Given(params.genderFilter) then params.genderFilter.value else "All")
    ensures !r.Crash?
  {
    var genderFilter := if Given(params.genderFilter) then params.genderFilter.value else "All";
    if !Given(params.startStation) || !Given(params.endStation) || !Given(params.travelDate) || !Given(params.travelTime) then
      Err(400, "Missing required search parameters")
    else
      Ok(200, Query(params.startStation.value, params.endStation.value, params.travelDate.value,
                    params.travelTime.value, genderFilter))
  }

  /** `genderFilter !== "All" && trip.user?.gender !== genderFilter` rejects the trip. */
  predicate GenderMatches(genderFilter: string, trip: Trip) {
    genderFilter == "All" || (trip.owner.Some? && trip.owner.value.gender == Some(genderFilter))
  }

  /** The time difference between the query and a trip. `clock` is the `split(":").map(Number)`
      reading of a time, `None` when the hour or the minute is NaN (as for "abc" or "9"); the
      difference is then NaN as well. */
  function TimeDiff(clock: string -> Option<ClockTime>, q: Query, trip: Trip): (r: Option<nat>)
    ensures r.Some? <==> clock(q.travelTime).Some? && clock(trip.travelTime).Some?
    ensures r.Some? ==> r.value == TimeDiffMinutes(clock(q.travelTime).value, clock(trip.travelTime).value)
  {
    match (clock(q.travelTime), clock(trip.travelTime))
    case (Some(t1), Some(t2)) => Some(TimeDiffMinutes(t1, t2))
    case _ => None
  }

  /** `timeDiff > TIME_THRESHOLD_MINUTES` rejects the trip; NaN compares false and is kept. */
  predicate WithinTime(d: Option<nat>) {
    d.None? || d.value <= TimeThresholdMinutes
  }

  /** The filters of the search route, in the order it applies them. */
  predicate Passes(index: StationIndex, clock: string -> Option<ClockTime>, q: Query, trip: Trip) {
    && GenderMatches(q.genderFilter, trip)
    && IsWithinStations(index, q.startStation, trip.startStation, StationThreshold)
    && IsWithinStations(index, q.endStation, trip.endStation, StationThreshold)
    && WithinTime(TimeDiff(clock, q, trip))
  }

  /** A query time that does not parse switches the time filter off: only the gender and the
      two proximity checks decide. */
  lemma NaNTimeSkipsTimeFilter(index: StationIndex, clock: string -> Option<ClockTime>, q: Query, trip: Trip)
    requires clock(q.travelTime).None?
    ensures Passes(index, clock, q, trip) <==>
      && GenderMatches(q.genderFilter, trip)
      && IsWithinStations(index, q.startStation, trip.startStation, StationThreshold)
      && IsWithinStations(index, q.endStation, trip.endStation, StationThreshold)
  {
  }

  /** The test of the route's `.filter(...)`. */
  function PassesTest(index: StationIndex, clock: string -> Option<ClockTime>, q: Query): Trip -> bool {
    t => Passes(index, clock, q, t)
  }

  /** `.filter(...)`: the candidates that pass, in their original order. */
  function Filtered(index: StationIndex, clock: string -> Option<ClockTime>, q: Query, trips: seq<Trip>): (r: seq<Trip>)
    ensures r == Filter(trips, PassesTest(index, clock, q))
    ensures forall k :: 0 <= k < |r| ==> Passes(index, clock, q, r[k])
    ensures forall t :: t in r <==> t in trips && Passes(index, clock, q, t)
    ensures |r| <= |trips|
  {
    var r := Filter(trips, PassesTest(index, clock, q));
    assert forall k :: 0 <= k < |r| ==> r[k] in r;
    r
  }

  /** `.map(...)` for one surviving trip: match data and the sort score. */
  function Score(index: StationIndex, clock: string -> Option<ClockTime>, q: Query, trip: Trip): (m: Match)
    requires Passes(index, clock, q, trip)
    ensures m.trip == trip
    ensures Fin(m.startDistance) == MinStationDistance(index, q.startStation, trip.startStation)
    ensures Fin(m.endDistance) == MinStationDistance(index, q.endStation, trip.endStation)
    ensures m.matchQuality == GetMatchQuality(index, q.startStation, q.endStation, trip.startStation, trip.endStation).labelText
    ensures m.timeDiff == TimeDiff(clock, q, trip)
    ensures m.startDistance <= StationThreshold && m.endDistance <= StationThreshold
    ensures m.timeDiff.Some? ==> m.timeDiff.value <= TimeThresholdMinutes
    ensures m.sortScoreTenths.Some? <==> m.timeDiff.Some?
    ensures m.sortScoreTenths.Some? ==>
              m.sortScoreTenths.value == 10 * m.startDistance + 10 * m.endDistance + m.timeDiff.value
              && m.sortScoreTenths.value <= 130
  {
    var mq := GetMatchQuality(index, q.startStation, q.endStation, trip.startStation, trip.endStation);
    var timeDiff := TimeDiff(clock, q, trip);
    var startDist := mq.startDist.n;
    var endDist := mq.endDist.n;
    var score := if timeDiff.Some? then Some(10 * startDist + 10 * endDist + timeDiff.value) else None;
    Match(trip, mq.labelText, startDist, endDist, timeDiff, score)
  }

  function ScoreAll(index: StationIndex, clock: string -> Option<ClockTime>, q: Query, trips: seq<Trip>): (r: seq<Match>)
    requires forall k :: 0 <= k < |trips| ==> Passes(index, clock, q, trips[k])
    ensures |r| == |trips|
    ensures forall k :: 0 <= k < |r| ==> r[k] == Score(index, clock, q, trips[k])
  {
    if trips == [] then [] else [Score(index, clock, q, trips[0])] + ScoreAll(index, clock, q, trips[1..])
  }

  /** The key of `(a, b) => a.sort_score - b.sort_score`. A NaN difference counts as 0 (equal), so
      when every score is NaN all results tie; the model gives a NaN score the key 0. */
  function SortScore(m: Match): int {
    if m.sortScoreTenths.Some? then m.sortScoreTenths.value else 0
  }

  /** The pipeline: filter, score, then sort ascending by score. */
  function Rank(index: StationIndex, clock: string -> Option<ClockTime>, q: Query, trips: seq<Trip>): seq<Match> {
    SortBy(ScoreAll(index, clock, q, Filtered(index, clock, q, trips)), SortScore)
  }

  /** `GET /api/search`: 401 without a user, 400 without the four parameters, otherwise the ranked list.
      `trips` is the candidate list the database query returned. */
  function SearchTrips(caller: Option<string>, params: SearchParams, trips: seq<Trip>,
                       index: StationIndex, clock: string -> Option<ClockTime>): (r: Outcome<seq<Match>>)
    ensures caller.None? ==> r == Err(401, "Unauthorized")
    ensures caller.Some? && ParseQuery(params).Err? ==> r == Err(400, "Missing required search parameters")
    ensures caller.Some? && ParseQuery(params).Ok? ==>
              r == Ok(200, Rank(index, clock, ParseQuery(params).value, trips))
  {
    if caller.None? then Err(401, "Unauthorized")
    else
      match ParseQuery(params)
      case Ok(_, q) => Ok(200, Rank(index, clock, q, trips))
      case Err(s, e) => Err(s, e)
      case Crash => Crash
  }

  // ---------------------------------------------------------------- properties of the ranking

  /** The ranked list is ordered by score, ascending, among the results that have a score; when the
      query time and every candidate's time parse, every result has one. */
  lemma RankSorted(index: StationIndex, clock: string -> Option<ClockTime>, q: Query, trips: seq<Trip>)
    ensures var r := Rank(index, clock, q, trips);
      forall i, j :: 0 <= i < j < |r| && r[i].sortScoreTenths.Some? && r[j].sortScoreTenths.Some? ==>
        r[i].sortScoreTenths.value <= r[j].sortScoreTenths.value
    ensures (clock(q.travelTime).Some? && forall t :: t in trips ==> clock(t.travelTime).Some?) ==>
      forall m :: m in Rank(index, clock, q, trips) ==> m.sortScoreTenths.Some?
  {
    var r := Rank(index, clock, q, trips);
    assert SortedBy(r, SortScore);
    forall i, j | 0 <= i < j < |r| && r[i].sortScoreTenths.Some? && r[j].sortScoreTenths.Some?
      ensures r[i].sortScoreTenths.value <= r[j].sortScoreTenths.value
    {
      assert SortScore(r[i]) <= SortScore(r[j]);
    }
    if clock(q.travelTime).Some? && forall t :: t in trips ==> clock(t.travelTime).Some? {
      forall m | m in r ensures m.sortScoreTenths.Some? {
        RankMembers(index, clock, q, trips, m);
        assert m.trip in trips;
      }
    }
  }

  /** With a query time that does not parse, every kept trip has NaN for its time difference and
      score, all results tie, and the stable sort returns them in the database's order. */
  lemma RankNaNTimeKeepsOrder(index: StationIndex, clock: string -> Option<ClockTime>, q: Query, trips: seq<Trip>)
    requires clock(q.travelTime).None?
    ensures Rank(index, clock, q, trips) == ScoreAll(index, clock, q, Filtered(index, clock, q, trips))
    ensures forall m :: m in Rank(index, clock, q, trips) ==> m.timeDiff.None? && m.sortScoreTenths.None?
  {
    var s := ScoreAll(index, clock, q, Filtered(index, clock, q, trips));
    ScoreAllNaN(index, clock, q, Filtered(index, clock, q, trips));
    SortByEqualKeys(s, SortScore);
  }

  /** Under a query time that does not parse, every scored result has NaN time and score. */
  lemma ScoreAllNaN(index: StationIndex, clock: string -> Option<ClockTime>, q: Query, f: seq<Trip>)
    requires clock(q.travelTime).None?
    requires forall k :: 0 <= k < |f| ==> Passes(index, clock, q, f[k])
    ensures var s := ScoreAll(index, clock, q, f);
      && (forall k :: 0 <= k < |s| ==> s[k].timeDiff.None? && s[k].sortScoreTenths.None?)
      && (forall i, j :: 0 <= i < |s| && 0 <= j < |s| ==> SortScore(s[i]) == SortScore(s[j]))
  {
  }

  /** The ranked list is a permutation of the scored, filtered list. */
  lemma RankPermutation(index: StationIndex, clock: string -> Option<ClockTime>, q: Query, trips: seq<Trip>)
    ensures multiset(Rank(index, clock, q, trips)) == multiset(ScoreAll(index, clock, q, Filtered(index, clock, q, trips)))
  {
  }

  /** The results are exactly the scored candidates that pass all filters: none added, none dropped. */
  lemma RankMembers(index: StationIndex, clock: string -> Option<ClockTime>, q: Query, trips: seq<Trip>, m: Match)
    ensures m in Rank(index, clock, q, trips)
        <==> m.trip in trips && Passes(index, clock, q, m.trip) && m == Score(index, clock, q, m.trip)
  {
    var f := Filtered(index, clock, q, trips);
    SortByMembers(ScoreAll(index, clock, q, f), SortScore, m);
    ScoreAllMembers(index, clock, q, f, m);
  }

  /** The scored list holds exactly the score of each of its trips. */
  lemma ScoreAllMembers(index: StationIndex, clock: string -> Option<ClockTime>, q: Query, f: seq<Trip>, m: Match)
    requires forall k :: 0 <= k < |f| ==> Passes(index, clock, q, f[k])
    ensures m in ScoreAll(index, clock, q, f) <==> m.trip in f && m == Score(index, clock, q, m.trip)
  {
    var s := ScoreAll(index, clock, q, f);
    if m in s {
      var k :| 0 <= k < |s| && s[k] == m;
      assert f[k] in f;
    }
    if m.trip in f && m == Score(index, clock, q, m.trip) {
      var k :| 0 <= k < |f| && f[k] == m.trip;
      assert s[k] == m;
    }
  }

  /** Every result meets the proximity and time thresholds, so its score lies in 0..13. */
  lemma RankBounds(index: StationIndex, clock: string -> Option<ClockTime>, q: Query, trips: seq<Trip>)
    ensures forall m :: m in Rank(index, clock, q, trips) ==>
      && m.startDistance <= StationThreshold && m.endDistance <= StationThreshold
      && (m.timeDiff.Some? ==> m.timeDiff.value <= TimeThresholdMinutes)
      && (m.sortScoreTenths.Some? <==> m.timeDiff.Some?)
      && (m.sortScoreTenths.Some? ==> m.sortScoreTenths.value <= 130)
  {
    forall m | m in Rank(index, clock, q, trips)
      ensures m.startDistance <= StationThreshold && m.endDistance <= StationThreshold
      ensures m.timeDiff.Some? ==> m.timeDiff.value <= TimeThresholdMinutes
      ensures m.sortScoreTenths.Some? <==> m.timeDiff.Some?
      ensures m.sortScoreTenths.Some? ==> m.sortScoreTenths.value <= 130
    {
      RankMembers(index, clock, q, trips, m);
    }
  }

  /** With a gender filter other than "All", every result's owner has exactly that gender. */
  lemma RankGender(index: StationIndex, clock: string -> Option<ClockTime>, q: Query, trips: seq<Trip>)
    requires q.genderFilter != "All"
    ensures forall m :: m in Rank(index, clock, q, trips) ==>
              m.trip.owner.Some? && m.trip.owner.value.gender == Some(q.genderFilter)
  {
    forall m | m in Rank(index, clock, q, trips)
      ensures m.trip.owner.Some? && m.trip.owner.value.gender == Some(q.genderFilter)
    {
      RankMembers(index, clock, q, trips, m);
    }
  }

  /** A trip on the searched stations at the searched time, known stations, no gender filter:
      it is kept, labelled an exact match, and scores 0. */
  lemma ExactMatchScenario(stations: seq<Station>, clock: string -> Option<ClockTime>, q: Query, trip: Trip, i: int, j: int)
    requires 0 <= i < |stations| && stations[i].name == q.startStation
    requires 0 <= j < |stations| && stations[j].name == q.endStation
    requires q.genderFilter == "All"
    requires trip.startStation == q.startStation && trip.endStation == q.endStation
    requires trip.travelTime == q.travelTime && clock(q.travelTime).Some?
    ensures Passes(IndexOf(stations), clock, q, trip)
    ensures Score(IndexOf(stations), clock, q, trip).matchQuality == ExactLabel
    ensures Score(IndexOf(stations), clock, q, trip).sortScoreTenths == Some(0)
  {
    DistanceToSelf(stations, q.startStation, i);
    DistanceToSelf(stations, q.endStation, j);
  }

  /** A candidate whose start is 6 stops away on the only shared line is dropped. */
  lemma SixStopsAwayDropped(stations: seq<Station>, clock: string -> Option<ClockTime>, q: Query, trip: Trip)
    requires MinStationDistance(IndexOf(stations), q.startStation, trip.startStation) == Fin(6)
    ensures !Passes(IndexOf(stations), clock, q, trip)
  {
  }
}
