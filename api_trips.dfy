/**
 * `POST /api/trips` (app/api/trips/route.ts): the required-field and same-station checks, and
 * the row inserted with its defaults.
 */
module ApiTrips {
  import opened Wrappers
  import opened Js
  import opened Http

  /** The request body's fields, `Undefined` when absent. */
  datatype TripBody = TripBody(
    startStation: JsValue, endStation: JsValue, travelDate: JsValue, travelTime: JsValue,
    isRepeating: JsValue, repeatDays: JsValue)

  /** The values of the inserted `trips` row. */
  datatype NewTrip = NewTrip(
    userId: string, startStation: JsValue, endStation: JsValue, travelDate: JsValue, travelTime: JsValue,
    isRepeating: JsValue, repeatDays: JsValue)

  predicate HasRequired(b: TripBody) {
    Truthy(b.startStation) && Truthy(b.endStation) && Truthy(b.travelDate) && Truthy(b.travelTime)
  }

  /** The handler's decision before the insert. An inserted trip belongs to the caller, copies
      the four required fields unchanged, and takes `is_repeating` false and `repeat_days` `[]`
      exactly when they were null or absent. */
  function PostTrip(caller: Option<string>, b: TripBody): (r: Outcome<NewTrip>)
    ensures caller.None? ==> r == Err(401, "Unauthorized")
    ensures (caller.Some? && !HasRequired(b)) ==> r == Err(400, "Missing required fields")
    ensures (caller.Some? && HasRequired(b) && StrictEquals(b.startStation, b.endStation))
              ==> r == Err(400, "Start and end stations must be different")
    ensures r.Ok? <==> caller.Some? && HasRequired(b) && !StrictEquals(b.startStation, b.endStation)
    ensures r.Ok? ==> r.status == 201 && r.value.userId == caller.value
    ensures r.Ok? ==> var t := r.value;
      && t.startStation == b.startStation && t.endStation == b.endStation
      && t.travelDate == b.travelDate && t.travelTime == b.travelTime
      && ((b.isRepeating == Null || b.isRepeating == Undefined) ==> t.isRepeating == Bool(false))
      && ((b.isRepeating != Null && b.isRepeating != Undefined) ==> t.isRepeating == b.isRepeating)
      && ((b.repeatDays == Null || b.repeatDays == Undefined) ==> t.repeatDays == Arr([]))
      && ((b.repeatDays != Null && b.repeatDays != Undefined) ==> t.repeatDays == b.repeatDays)
    ensures !r.Crash?
  {
    if caller.None? then Err(401, "Unauthorized")
    else if !HasRequired(b) then Err(400, "Missing required fields")
    else if StrictEquals(b.startStation, b.endStation) then Err(400, "Start and end stations must be different")
    else Ok(201, NewTrip(caller.value, b.startStation, b.endStation, b.travelDate, b.travelTime,
                         OrDefault(b.isRepeating, Bool(false)), OrDefault(b.repeatDays, Arr([]))))
  }
}
