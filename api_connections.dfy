/**
 * `GET` and `POST /api/connections` (app/api/connections/route.ts): the split of the caller's
 * connection rows into pending / sent / accepted, and the checks before a request is inserted.
 */
module ApiConnections {
  import opened Wrappers
  import opened Js
  import opened Http
  import opened Lists

  /** A `connections` row; `status` is the text column ("pending", "accepted", ...). */
  datatype Connection = Connection(id: string, requesterId: string, recipientId: string, status: string)

  /** The `GET` response body. */
  datatype Partition = Partition(pending: seq<Connection>, sent: seq<Connection>, accepted: seq<Connection>, pendingCount: nat)

  /** Requests waiting for the caller's answer. */
  predicate IsPending(user: string, c: Connection) {
    c.status == "pending" && c.recipientId == user
  }

  /** Requests the caller made that are still unanswered. */
  predicate IsSent(user: string, c: Connection) {
    c.status == "pending" && c.requesterId == user
  }

  predicate IsAccepted(c: Connection) {
    c.status == "accepted"
  }

  /** The three `.filter` calls over `connections ?? []`, and `pendingCount: pending.length`. */
  function PartitionOf(user: string, connections: Option<seq<Connection>>): (r: Partition)
    ensures var rows := if connections.Some? then connections.value else [];
      && (forall c :: c in r.pending <==> c in rows && IsPending(user, c))
      && (forall c :: c in r.sent <==> c in rows && IsSent(user, c))
      && (forall c :: c in r.accepted <==> c in rows && IsAccepted(c))
      && IsSubseq(r.pending, rows) && IsSubseq(r.sent, rows) && IsSubseq(r.accepted, rows)
    ensures r.pendingCount == |r.pending|
    ensures connections.None? ==> r == Partition([], [], [], 0)
  {
    var rows := if connections.Some? then connections.value else [];
    var pending := Filter(rows, c => IsPending(user, c));
    Partition(pending, Filter(rows, c => IsSent(user, c)), Filter(rows, IsAccepted), |pending|)
  }

  /** A row whose status is neither "pending" nor "accepted" appears in no list, and an
      accepted row is never also listed as pending or sent. */
  lemma OtherStatusesHidden(user: string, connections: Option<seq<Connection>>, c: Connection)
    ensures c.status != "pending" && c.status != "accepted" ==>
      var r := PartitionOf(user, connections);
      c !in r.pending && c !in r.sent && c !in r.accepted
    ensures IsAccepted(c) ==>
      var r := PartitionOf(user, connections);
      c !in r.pending && c !in r.sent
  {
  }

  /** A row between two different people is counted in pending or in sent, never both. */
  lemma PendingSentDisjoint(user: string, connections: Option<seq<Connection>>, c: Connection)
    requires c.requesterId != c.recipientId
    ensures var r := PartitionOf(user, connections);
      !(c in r.pending && c in r.sent)
  {
  }

  /** Each kept row keeps its number of occurrences, so each list is the input's rows of that
      kind, in input order, with none added or dropped. */
  lemma PartitionCounts(user: string, rows: seq<Connection>, c: Connection)
    ensures var r := PartitionOf(user, Some(rows));
      && multiset(r.pending)[c] == (if IsPending(user, c) then multiset(rows)[c] else 0)
      && multiset(r.sent)[c] == (if IsSent(user, c) then multiset(rows)[c] else 0)
      && multiset(r.accepted)[c] == (if IsAccepted(c) then multiset(rows)[c] else 0)
  {
    FilterCount(rows, c => IsPending(user, c), c);
    FilterCount(rows, c => IsSent(user, c), c);
    FilterCount(rows, IsAccepted, c);
  }

  // ---------------------------------------------------------------- POST

  /** The answers of `POST` other than the plain error messages. */
  datatype Reply =
      /** 409: `{ error: "Connection already exists", status }` */
    | AlreadyExists(error: string, existingStatus: string)
      /** 201: the inserted row's values. */
    | Created(requesterId: string, recipientId: JsValue)

  /** The `POST` decision. `existing` is the status of the row the lookup found between the
      caller and the recipient in either direction, `None` when it found none. */
  function PostConnection(caller: Option<string>, recipientId: JsValue, existing: Option<string>): (r: Outcome<Reply>)
    ensures caller.None? ==> r == Err(401, "Unauthorized")
    ensures caller.Some? && !Truthy(recipientId) ==> r == Err(400, "Recipient ID is required")
    ensures (caller.Some? && Truthy(recipientId) && recipientId == Str(caller.value))
              ==> r == Err(400, "Cannot connect with yourself")
    ensures r.Ok? && r.status == 409 <==>
              caller.Some? && Truthy(recipientId) && recipientId != Str(caller.value) && existing.Some?
    ensures r.Ok? && r.status == 409 ==> r.value == AlreadyExists("Connection already exists", existing.value)
    ensures r.Ok? && r.status == 201 <==>
              caller.Some? && Truthy(recipientId) && recipientId != Str(caller.value) && existing.None?
    ensures r.Ok? && r.status == 201 ==> r.value == Created(caller.value, recipientId)
    ensures !r.Crash?
  {
    if caller.None? then Err(401, "Unauthorized")
    else if !Truthy(recipientId) then Err(400, "Recipient ID is required")
    else if StrictEquals(recipientId, Str(caller.value)) then Err(400, "Cannot connect with yourself")
    else if existing.Some? then Ok(409, AlreadyExists("Connection already exists", existing.value))
    else Ok(201, Created(caller.value, recipientId))
  }
}
