/**
 * The trip form (components/trip-form.tsx): repeat-day toggling, field validation, and the
 * payload handed to `onSubmit`.
 */
module TripForm {
  import opened Wrappers
  import opened Lists

  /** The form's field state. Weekdays are numbered 0 = Sunday .. 6 = Saturday. */
  datatype Fields = Fields(
    startStation: string, endStation: string, travelDate: string, travelTime: string,
    isRepeating: bool, repeatDays: seq<int>)

  /** What `onSubmit` receives. */
  datatype Payload = Payload(
    startStation: string, endStation: string, travelDate: string, travelTime: string,
    isRepeating: bool, repeatDays: seq<int>)

  // ---------------------------------------------------------------- toggleDay

  /** The test of the removal filter: a day other than `day`. */
  function NotDay(day: int): int -> bool {
    d => d != day
  }

  /** The selection with every copy of `day` removed and the other days kept in order. */
  function Without(prev: seq<int>, day: int): (r: seq<int>)
    ensures r == Filter(prev, NotDay(day))
    ensures day !in r
    ensures forall d :: d != day ==> multiset(r)[d] == multiset(prev)[d]
    ensures day !in prev ==> r == prev
  {
    if prev == [] then []
    else
      assert prev == [prev[0]] + prev[1..];
      assert [prev[0]][..0] == [];
      FilterAppend([prev[0]], prev[1..], NotDay(day));
      (if prev[0] == day then [] else [prev[0]]) + Without(prev[1..], day)
  }

  /** A selected day is removed from the selection; an unselected one is appended to it. */
  function ToggleDay(prev: seq<int>, day: int): (r: seq<int>)
    ensures day in prev ==> r == Filter(prev, NotDay(day)) && day !in r
    ensures day !in prev ==> r == prev + [day]
    ensures forall d :: d != day ==> multiset(r)[d] == multiset(prev)[d]
  {
    if day in prev then Without(prev, day) else prev + [day]
  }

  /** Toggling a day on and then off again gives back the original selection. */
  lemma ToggleTwiceRestores(prev: seq<int>, day: int)
    requires day !in prev
    ensures ToggleDay(ToggleDay(prev, day), day) == prev
  {
    WithoutLast(prev, day);
  }

  lemma WithoutLast(prev: seq<int>, day: int)
    requires day !in prev
    ensures Without(prev + [day], day) == prev
  {
    var p := NotDay(day);
    forall k | 0 <= k < |prev| ensures p(prev[k]) {
      assert prev[k] in prev;
    }
    FilterAll(prev, p);
    assert [day][..0] == [];
    assert Filter([day], p) == [];
    FilterAppend(prev, [day], p);
    assert prev + [] == prev;
  }

  /** After a toggle the day is selected exactly when it was not before, and every other day is
      selected exactly when it was before. */
  lemma ToggleFlips(prev: seq<int>, day: int, d: int)
    ensures d in ToggleDay(prev, day) <==> (if d == day then day !in prev else d in prev)
  {
    var r := ToggleDay(prev, day);
    assert d in r <==> multiset(r)[d] > 0;
    assert d in prev <==> multiset(prev)[d] > 0;
  }

  // ---------------------------------------------------------------- validate

  /** The keys of the `errors` record: start_station, end_station, travel_date, travel_time and
      repeat_days. */
  datatype ErrorKey = StartKey | EndKey | DateKey | TimeKey | DaysKey

  /** The messages `validate()` records. */
  const StartRequired := "Start station is required"
  const EndRequired := "End station is required"
  const SameStations := "Start and end stations must be different"
  const DateRequired := "Date is required"
  const TimeRequired := "Time is required"
  const TimeInPast := "Time must be in the future"
  const DaysRequired := "Select at least one day"

  /** The fields pass every check of `validate()`. */
  predicate Acceptable(f: Fields, today: string, beforeNow: bool) {
    && f.startStation != "" && f.endStation != "" && f.startStation != f.endStation
    && f.travelDate != "" && f.travelTime != ""
    && !(f.travelDate == today && beforeNow && !f.isRepeating)
    && !(f.isRepeating && |f.repeatDays| == 0)
  }

  /** The message `validate()` records under `key`, or `None` when that check passes. Equal
      stations are reported only when both are given. The past-time message is written over the
      missing-time one, but an empty time never reads as past (`beforeNow` is false for it). */
  function ErrorAt(f: Fields, today: string, beforeNow: bool, key: ErrorKey): Option<string> {
    match key
    case StartKey => if f.startStation == "" then Some(StartRequired) else None
    case EndKey =>
      if f.endStation == "" then Some(EndRequired)
      else if f.startStation == f.endStation then Some(SameStations)
      else None
    case DateKey => if f.travelDate == "" then Some(DateRequired) else None
    case TimeKey =>
      if f.travelDate == today && beforeNow && !f.isRepeating then Some(TimeInPast)
      else if f.travelTime == "" then Some(TimeRequired)
      else None
    case DaysKey => if f.isRepeating && |f.repeatDays| == 0 then Some(DaysRequired) else None
  }

  const AllKeys: set<ErrorKey> := {StartKey, EndKey, DateKey, TimeKey, DaysKey}

  /** Reference definition of the `errors` record: one entry per failing check. */
  function ErrorsOf(f: Fields, today: string, beforeNow: bool): (e: map<ErrorKey, string>)
    ensures forall k :: (k in e) == ErrorAt(f, today, beforeNow, k).Some?
    ensures forall k :: k in e ==> e[k] == ErrorAt(f, today, beforeNow, k).value
  {
    map k | k in AllKeys && ErrorAt(f, today, beforeNow, k).Some? :: ErrorAt(f, today, beforeNow, k).value
  }

  /** No error is recorded exactly when the fields pass every check. */
  lemma ErrorsOfEmptyIff(f: Fields, today: string, beforeNow: bool)
    ensures ErrorsOf(f, today, beforeNow) == map[] <==> Acceptable(f, today, beforeNow)
  {
    var e := ErrorsOf(f, today, beforeNow);
    if !Acceptable(f, today, beforeNow) {
      if f.startStation == "" { assert StartKey in e; }
      else if f.endStation == "" || f.startStation == f.endStation { assert EndKey in e; }
      else if f.travelDate == "" { assert DateKey in e; }
      else if f.travelTime == "" || (f.travelDate == today && beforeNow && !f.isRepeating) { assert TimeKey in e; }
      else { assert DaysKey in e; }
    }
  }

  /** An empty time is always reported as required: it makes an Invalid Date, which is never
      before now. */
  lemma MissingTimeRequired(f: Fields, today: string)
    requires f.travelTime == ""
    ensures TimeKey in ErrorsOf(f, today, false)
    ensures ErrorsOf(f, today, false)[TimeKey] == TimeRequired
  {
  }

  /** The removal keeps the other days in their order: toggling 2 off [1, 2, 3] gives [1, 3]. */
  lemma ToggleKeepsOrder()
    ensures ToggleDay([1, 2, 3], 2) == [1, 3]
  {
    assert 2 in [1, 2, 3];
    assert Without([], 2) == [];
    assert [3][1..] == [];
    assert Without([3], 2) == [3];
    assert [2, 3][1..] == [3];
    assert Without([2, 3], 2) == [3];
    assert [1, 2, 3][1..] == [2, 3];
    assert Without([1, 2, 3], 2) == [1] + [3];
  }

  /** A record with exactly the entries `ErrorAt` prescribes is `ErrorsOf`. */
  lemma SameErrors(f: Fields, today: string, beforeNow: bool, e: map<ErrorKey, string>)
    requires forall k :: (k in e) == ErrorAt(f, today, beforeNow, k).Some?
    requires forall k :: k in e ==> e[k] == ErrorAt(f, today, beforeNow, k).value
    ensures e == ErrorsOf(f, today, beforeNow)
  {
    var r := ErrorsOf(f, today, beforeNow);
    assert forall k :: k in e <==> k in r;
  }

  /** `validate()`: the errors it records and whether there were none. `today` is the
      `YYYY-MM-DD` date of now, and `beforeNow` whether today at `travelTime` is already past
      (`tripTime < now`, false when the time does not parse). */
  method Validate(f: Fields, today: string, beforeNow: bool) returns (newErrors: map<ErrorKey, string>, ok: bool)
    ensures newErrors == ErrorsOf(f, today, beforeNow)
    ensures ok <==> newErrors == map[]
    ensures ok <==> Acceptable(f, today, beforeNow)
    ensures ok ==> var p := PayloadOf(f);
              && p.startStation != "" && p.endStation != "" && p.startStation != p.endStation
              && p.travelDate != "" && p.travelTime != ""
              && (p.isRepeating ==> |p.repeatDays| > 0)
              && (!p.isRepeating && p.travelDate == today ==> !beforeNow)
  {
    var stationErrors := CheckStations(f);
    var scheduled := CheckSchedule(f, today, beforeNow, stationErrors);
    newErrors := scheduled;
    if f.isRepeating && |f.repeatDays| == 0 {
      newErrors := newErrors[DaysKey := DaysRequired];
    }
    ok := |newErrors.Keys| == 0;
    assert ok <==> newErrors.Keys == {};
    ValidateAgrees(f, today, beforeNow, stationErrors, scheduled, newErrors);
    ErrorsOfEmptyIff(f, today, beforeNow);
  }

  /** The three steps of `validate()` together build `ErrorsOf`. */
  lemma ValidateAgrees(f: Fields, today: string, beforeNow: bool,
                       stations: map<ErrorKey, string>, scheduled: map<ErrorKey, string>, result: map<ErrorKey, string>)
    requires stations.Keys <= {StartKey, EndKey}
    requires (StartKey in stations) == (f.startStation == "")
    requires StartKey in stations ==> stations[StartKey] == StartRequired
    requires (EndKey in stations) == (f.endStation == "" || f.startStation == f.endStation)
    requires EndKey in stations ==>
               stations[EndKey] == if f.endStation == "" then EndRequired else SameStations
    requires scheduled - {DateKey, TimeKey} == stations
    requires (DateKey in scheduled) == (f.travelDate == "")
    requires DateKey in scheduled ==> scheduled[DateKey] == DateRequired
    requires (TimeKey in scheduled) == (f.travelTime == "" || (f.travelDate == today && beforeNow && !f.isRepeating))
    requires TimeKey in scheduled ==>
               scheduled[TimeKey] == if f.travelDate == today && beforeNow && !f.isRepeating then TimeInPast else TimeRequired
    requires result == if f.isRepeating && |f.repeatDays| == 0 then scheduled[DaysKey := DaysRequired] else scheduled
    ensures result == ErrorsOf(f, today, beforeNow)
  {
    forall k
      ensures (k in result) == ErrorAt(f, today, beforeNow, k).Some?
      ensures k in result ==> result[k] == ErrorAt(f, today, beforeNow, k).value
    {
      match k
      case StartKey => assert (StartKey in result) == (StartKey in stations);
        if StartKey in result { assert result[StartKey] == stations[StartKey]; }
      case EndKey => assert (EndKey in result) == (EndKey in stations);
        if EndKey in result { assert result[EndKey] == stations[EndKey]; }
      case DateKey =>
      case TimeKey =>
      case DaysKey => assert DaysKey !in stations;
    }
    SameErrors(f, today, beforeNow, result);
  }

  /** The first three checks of `validate()`: the stations. A missing end station is reported
      as missing, not as equal to the start. */
  method CheckStations(f: Fields) returns (newErrors: map<ErrorKey, string>)
    ensures newErrors.Keys <= {StartKey, EndKey}
    ensures (StartKey in newErrors) == (f.startStation == "")
    ensures StartKey in newErrors ==> newErrors[StartKey] == StartRequired
    ensures (EndKey in newErrors) == (f.endStation == "" || f.startStation == f.endStation)
    ensures EndKey in newErrors ==>
              newErrors[EndKey] == if f.endStation == "" then EndRequired else SameStations
  {
    newErrors := map[];
    if f.startStation == "" {
      newErrors := newErrors[StartKey := StartRequired];
    }
    if f.endStation == "" {
      newErrors := newErrors[EndKey := EndRequired];
    }
    if f.startStation != "" && f.endStation != "" && f.startStation == f.endStation {
      newErrors := newErrors[EndKey := SameStations];
    }
  }

  /** The date and time checks of `validate()`; a time in the past today overrides a missing one,
      and the errors recorded so far are kept. */
  method CheckSchedule(f: Fields, today: string, beforeNow: bool, errors: map<ErrorKey, string>)
    returns (newErrors: map<ErrorKey, string>)
    requires DateKey !in errors && TimeKey !in errors
    ensures newErrors - {DateKey, TimeKey} == errors
    ensures (DateKey in newErrors) == (f.travelDate == "")
    ensures DateKey in newErrors ==> newErrors[DateKey] == DateRequired
    ensures (TimeKey in newErrors) == (f.travelTime == "" || (f.travelDate == today && beforeNow && !f.isRepeating))
    ensures TimeKey in newErrors ==>
              newErrors[TimeKey] == if f.travelDate == today && beforeNow && !f.isRepeating then TimeInPast else TimeRequired
  {
    newErrors := errors;
    if f.travelDate == "" {
      newErrors := newErrors[DateKey := DateRequired];
    }
    if f.travelTime == "" {
      newErrors := newErrors[TimeKey := TimeRequired];
    }
    if f.travelDate == today {
      if beforeNow && !f.isRepeating {
        newErrors := newErrors[TimeKey := TimeInPast];
      }
    }
  }

  /** The payload of `handleSubmit`: the fields as they are, with no repeat days for a one-off trip. */
  function PayloadOf(f: Fields): (p: Payload)
    ensures !p.isRepeating ==> p.repeatDays == []
    ensures p.isRepeating ==> p.repeatDays == f.repeatDays
  {
    Payload(f.startStation, f.endStation, f.travelDate, f.travelTime, f.isRepeating,
            if f.isRepeating then f.repeatDays else [])
  }

  /** The `initialData` prop of an edit form; `None` for a field that is null or undefined. */
  datatype InitialData = InitialData(
    startStation: Option<string>, endStation: Option<string>, travelDate: Option<string>,
    travelTime: Option<string>, isRepeating: Option<bool>, repeatDays: Option<seq<int>>)

  const DefaultTime := "09:00"

  /** The value when it is given, the default when it is null or undefined. */
  function OrElse<T>(x: Option<T>, default: T): (r: T)
    ensures x.Some? ==> r == x.value
    ensures x.None? ==> r == default
  {
    if x.Some? then x.value else default
  }

  /** The form state; `submitted` records the payloads handed to `onSubmit`. */
  class TripFormState {
    var fields: Fields
    var errors: map<ErrorKey, string>
    var submitting: bool
    var submitted: seq<Payload>

    /** Each field starts from `initialData` when it is given there, and otherwise from its
        default: no stations, today's date, 09:00, one-off, no repeat days. */
    constructor(initialData: Option<InitialData>, today: string)
      ensures initialData.None? ==> fields == Fields("", "", today, DefaultTime, false, [])
      ensures initialData.Some? ==> var init := initialData.value;
        fields == Fields(OrElse(init.startStation, ""), OrElse(init.endStation, ""),
                         OrElse(init.travelDate, today), OrElse(init.travelTime, DefaultTime),
                         OrElse(init.isRepeating, false), OrElse(init.repeatDays, []))
      ensures errors == map[] && !submitting && submitted == []
    {
      var init := if initialData.Some? then initialData.value else InitialData(None, None, None, None, None, None);
      fields := Fields(OrElse(init.startStation, ""), OrElse(init.endStation, ""),
                       OrElse(init.travelDate, today), OrElse(init.travelTime, DefaultTime),
                       OrElse(init.isRepeating, false), OrElse(init.repeatDays, []));
      errors := map[];
      submitting := false;
      submitted := [];
    }

    method ToggleDayOf(day: int)
      modifies this
      ensures fields == old(fields).(repeatDays := ToggleDay(old(fields).repeatDays, day))
      ensures errors == old(errors) && submitting == old(submitting) && submitted == old(submitted)
    {
      fields := fields.(repeatDays := ToggleDay(fields.repeatDays, day));
    }

    /** `handleSubmit`: validate, record the errors, and submit only when there are none. */
    method HandleSubmit(today: string, beforeNow: bool)
      modifies this
      ensures fields == old(fields)
      ensures errors == ErrorsOf(fields, today, beforeNow)
      ensures errors == map[] <==> Acceptable(fields, today, beforeNow)
      ensures (errors == map[]) ==> submitted == old(submitted) + [PayloadOf(fields)] && !submitting
      ensures (errors != map[]) ==> submitted == old(submitted) && submitting == old(submitting)
    {
      var newErrors, ok := Validate(fields, today, beforeNow);
      errors := newErrors;
      if !ok {
        return;
      }
      submitting := true;
      submitted := submitted + [PayloadOf(fields)];
      submitting := false;
    }
  }
}
