/**
 * `GET` and `POST /api/messages` (app/api/messages/route.ts): the parameter and content checks,
 * the accepted-connection guard both handlers share, and the stored message.
 */
module ApiMessages {
  import opened Wrappers
  import opened Js
  import opened Http
  import opened Lists
  import ApiConnections

  type Connection = ApiConnections.Connection

  /** A `messages` row. */
  datatype Message = Message(id: string, connectionId: string, senderId: string, content: string, createdAt: int)

  const MaxContent := 500

  /** The guard query: a row with this id, status "accepted", and the user on either side. */
  predicate Admits(c: Connection, connectionId: JsValue, user: string) {
    connectionId == Str(c.id) && c.status == "accepted" && (c.requesterId == user || c.recipientId == user)
  }

  /** Whether the guard query finds a row in the `connections` table. */
  predicate OpenTo(connections: seq<Connection>, connectionId: JsValue, user: string) {
    exists i :: 0 <= i < |connections| && Admits(connections[i], connectionId, user)
  }

  /** The `GET` decision: 400 without a (non-empty) `connection_id`, 404 unless it names an
      accepted connection of the caller, otherwise that connection's messages. */
  function GetMessages(caller: Option<string>, connectionId: Option<string>, connections: seq<Connection>,
                       messages: seq<Message>): (r: Outcome<seq<Message>>)
    ensures caller.None? ==> r == Err(401, "Unauthorized")
    ensures (caller.Some? && (connectionId.None? || connectionId.value == ""))
              ==> r == Err(400, "connection_id is required")
    ensures r.Ok? <==> caller.Some? && connectionId.Some? && connectionId.value != ""
                       && OpenTo(connections, Str(connectionId.value), caller.value)
    ensures r.Ok? ==> r.status == 200
                      && (forall m :: m in r.value <==> m in messages && m.connectionId == connectionId.value)
                      && IsSubseq(r.value, messages)
    ensures (caller.Some? && connectionId.Some? && connectionId.value != ""
             && !OpenTo(connections, Str(connectionId.value), caller.value))
              ==> r == Err(404, "Connection not found or not accepted")
    ensures !r.Crash?
  {
    if caller.None? then Err(401, "Unauthorized")
    else if connectionId.None? || connectionId.value == "" then Err(400, "connection_id is required")
    else if !OpenTo(connections, Str(connectionId.value), caller.value) then
      Err(404, "Connection not found or not accepted")
    else Ok(200, Filter(messages, (m: Message) => m.connectionId == connectionId.value))
  }

  /** The values of the inserted message row. */
  datatype NewMessage = NewMessage(connectionId: JsValue, senderId: string, content: string)

  /** The first failing content check: the required-fields test short-circuits, so `.trim()` runs
      only for a truthy `connection_id`, and it throws on a value that is not a string. */
  function ContentCheck(connectionId: JsValue, content: JsValue): (r: Eval)
    ensures r == Value(Str("connection_id and content are required")) <==>
              !Truthy(connectionId) || (content.Str? && Blank(content.s)) || content == Null || content == Undefined
    ensures r.Threw? <==> Truthy(connectionId) && !(content.Str? || content == Null || content == Undefined)
    ensures r == Value(Str("Message too long (max 500 characters)")) <==>
              Truthy(connectionId) && content.Str? && !Blank(content.s) && Utf16Length(content.s) > MaxContent
    ensures r == Value(Null) <==> Truthy(connectionId) && content.Str? && !Blank(content.s) && Utf16Length(content.s) <= MaxContent
  {
    if !Truthy(connectionId) then Value(Str("connection_id and content are required"))
    else match OptionalTrim(content)
      case Threw => Threw
      case Value(t) =>
        if !Truthy(t) then
          assert content.Str? ==> Blank(content.s) by {
            if content.Str? { TrimEmptyIffBlank(content.s); }
          }
          Value(Str("connection_id and content are required"))
        else
          assert !Blank(content.s) by { TrimEmptyIffBlank(content.s); }
          if Utf16Length(content.s) > MaxContent then Value(Str("Message too long (max 500 characters)"))
          else Value(Null)
  }

  /** The `POST` decision: the content checks, then the accepted-connection guard, then the
      insert of the trimmed content with the caller as sender. */
  function PostMessage(caller: Option<string>, connectionId: JsValue, content: JsValue,
                       connections: seq<Connection>): (r: Outcome<NewMessage>)
    ensures caller.None? ==> r == Err(401, "Unauthorized")
    ensures r.Crash? <==> caller.Some? && ContentCheck(connectionId, content).Threw?
    ensures (caller.Some? && ContentCheck(connectionId, content).Value? && ContentCheck(connectionId, content).v.Str?)
              ==> r == Err(400, ContentCheck(connectionId, content).v.s)
    ensures (caller.Some? && ContentCheck(connectionId, content) == Value(Null)
             && !OpenTo(connections, connectionId, caller.value))
              ==> r == Err(404, "Connection not found or not accepted")
    ensures r.Ok? <==> caller.Some? && ContentCheck(connectionId, content) == Value(Null)
                       && OpenTo(connections, connectionId, caller.value)
    ensures r.Ok? ==> r.status == 201 && content.Str?
                      && r.value == NewMessage(connectionId, caller.value, Trim(content.s))
  {
    if caller.None? then Err(401, "Unauthorized")
    else match ContentCheck(connectionId, content)
      case Threw => Crash
      case Value(e) =>
        if e.Str? then Err(400, e.s)
        else if !OpenTo(connections, connectionId, caller.value) then Err(404, "Connection not found or not accepted")
        else Ok(201, NewMessage(connectionId, caller.value, Trim(content.s)))
  }

  /** A stored message is non-empty trimmed text of at most 500 characters, sent by the caller
      into an accepted connection the caller belongs to. */
  lemma StoredMessageValid(caller: Option<string>, connectionId: JsValue, content: JsValue, connections: seq<Connection>)
    requires PostMessage(caller, connectionId, content, connections).Ok?
    ensures var m := PostMessage(caller, connectionId, content, connections).value;
      && m.content != "" && Trim(m.content) == m.content && Utf16Length(m.content) <= MaxContent
      && m.senderId == caller.value
      && exists c :: c in connections && c.status == "accepted" && connectionId == Str(c.id)
                     && (c.requesterId == m.senderId || c.recipientId == m.senderId)
  {
    TrimEmptyIffBlank(content.s);
    TrimIdempotent(content.s);
    TrimShortens(content.s);
    var i :| 0 <= i < |connections| && Admits(connections[i], connectionId, caller.value);
    assert connections[i] in connections;
  }

  /** The length limit applies to the untrimmed text: 500 characters and a trailing space are
      rejected although the stored, trimmed text would be within the limit. */
  lemma LimitIsOnUntrimmed(connectionId: JsValue, text: string)
    requires Truthy(connectionId) && Utf16Length(text) == MaxContent && text != "" && !IsWhitespace(text[0])
    ensures Utf16Length(Trim(text + " ")) <= MaxContent
    ensures ContentCheck(connectionId, Str(text + " ")) == Value(Str("Message too long (max 500 characters)"))
  {
    var s := text + " ";
    assert s[0] == text[0];
    TrimDropsTrailing(text);
    Utf16LengthAppend(text, " ");
    assert !Blank(s);
  }
}
