/**
 * `GET /api/people` (app/api/people/route.ts): the query check, the map from each other person
 * to the caller's connection with them, and the annotated search results.
 */
module ApiPeople {
  import opened Wrappers
  import opened Js
  import opened Http
  import ApiConnections

  type Connection = ApiConnections.Connection

  /** A matching profile as selected (`id` plus the display fields, kept abstract). */
  datatype Person = Person(id: string, name: string)

  /** `connectionMap[otherId]`: the status and id of a connection. */
  datatype Link = Link(status: string, connectionId: string)

  /** One result: the profile spread with `connection_status` and `connection_id`. */
  datatype Annotated = Annotated(person: Person, connectionStatus: string, connectionId: JsValue)

  const MinQuery := 2

  /** The party of `c` who is not the caller. */
  function OtherParty(user: string, c: Connection): string {
    if c.requesterId == user then c.recipientId else c.requesterId
  }

  /** The map after the loop has visited every connection of `conns`. */
  function LinksOf(user: string, conns: seq<Connection>): map<string, Link>
  {
    if conns == [] then map[]
    else
      var c := conns[|conns| - 1];
      LinksOf(user, conns[..|conns| - 1])[OtherParty(user, c) := Link(c.status, c.id)]
  }

  /** The `for (const conn of connections ?? [])` loop filling `connectionMap`. */
  method BuildConnectionMap(user: string, connections: Option<seq<Connection>>) returns (connectionMap: map<string, Link>)
    ensures connectionMap == LinksOf(user, if connections.Some? then connections.value else [])
  {
    var conns := if connections.Some? then connections.value else [];
    connectionMap := map[];
    for i := 0 to |conns|
      invariant connectionMap == LinksOf(user, conns[..i])
    {
      var conn := conns[i];
      var otherId := if conn.requesterId == user then conn.recipientId else conn.requesterId;
      connectionMap := connectionMap[otherId := Link(conn.status, conn.id)];
      assert conns[..i + 1][..i] == conns[..i];
    }
    assert conns[..|conns|] == conns;
  }

  /** The map is keyed by exactly the other parties, and each person's entry is taken from the
      last connection with that person: a later row overwrites an earlier one. */
  lemma {:induction false} LinksOfLast(user: string, conns: seq<Connection>, person: string)
    ensures person in LinksOf(user, conns) <==> exists i :: 0 <= i < |conns| && OtherParty(user, conns[i]) == person
    ensures person in LinksOf(user, conns) ==>
      exists i :: 0 <= i < |conns| && OtherParty(user, conns[i]) == person
        && LinksOf(user, conns)[person] == Link(conns[i].status, conns[i].id)
        && forall j :: i < j < |conns| ==> OtherParty(user, conns[j]) != person
  {
    if conns != [] {
      var init := conns[..|conns| - 1];
      var n := |conns| - 1;
      LinksOfLast(user, init, person);
      if OtherParty(user, conns[n]) == person {
        assert LinksOf(user, conns)[person] == Link(conns[n].status, conns[n].id);
      } else if person in LinksOf(user, conns) {
        var i :| 0 <= i < |init| && OtherParty(user, init[i]) == person
          && LinksOf(user, init)[person] == Link(init[i].status, init[i].id)
          && forall j :: i < j < |init| ==> OtherParty(user, init[j]) != person;
        assert conns[i] == init[i];
        assert forall j :: i < j < |conns| ==> OtherParty(user, conns[j]) != person by {
          forall j | i < j < |conns| ensures OtherParty(user, conns[j]) != person {
            if j < n {
              assert conns[j] == init[j];
            }
          }
        }
      } else {
        forall i | 0 <= i < |conns| ensures OtherParty(user, conns[i]) != person {
          if i < n {
            assert conns[i] == init[i];
          }
        }
      }
    }
  }

  /** `profiles.map(...)`: each profile with its connection status (or "none") and id (or null). */
  function Annotate(people: seq<Person>, links: map<string, Link>): (r: seq<Annotated>)
    ensures |r| == |people|
    ensures forall i :: 0 <= i < |r| ==> r[i].person == people[i]
  {
    if people == [] then []
    else
      var p := people[0];
      var a := if p.id in links then Annotated(p, links[p.id].status, Str(links[p.id].connectionId))
               else Annotated(p, "none", Null);
      [a] + Annotate(people[1..], links)
  }

  /** Each result pairs a profile with the status and id from its map entry, or "none" and null. */
  lemma {:induction false} AnnotateEntries(people: seq<Person>, links: map<string, Link>, i: nat)
    requires i < |people|
    ensures var a := Annotate(people, links)[i];
      && (people[i].id in links ==> a.connectionStatus == links[people[i].id].status
                                    && a.connectionId == Str(links[people[i].id].connectionId))
      && (people[i].id !in links ==> a.connectionStatus == "none" && a.connectionId == Null)
  {
    if i > 0 {
      AnnotateEntries(people[1..], links, i - 1);
    }
  }

  /** The handler's decision. `profiles` and `connections` are the two query results. */
  function SearchPeople(caller: Option<string>, q: Option<string>, profiles: Option<seq<Person>>,
                        connections: Option<seq<Connection>>): (r: Outcome<seq<Annotated>>)
    ensures caller.None? ==> r == Err(401, "Unauthorized")
    ensures (caller.Some? && (q.None? || Utf16Length(Trim(q.value)) < MinQuery))
              ==> r == Err(400, "Search query must be at least 2 characters")
    ensures r.Ok? <==> caller.Some? && q.Some? && Utf16Length(Trim(q.value)) >= MinQuery
    ensures (r.Ok? && (profiles.None? || profiles.value == [])) ==> r.value == []
    ensures (r.Ok? && profiles.Some?) ==> r.status == 200 && |r.value| == |profiles.value|
    ensures !r.Crash?
  {
    if caller.None? then Err(401, "Unauthorized")
    else if q.None? || Utf16Length(Trim(q.value)) < MinQuery then Err(400, "Search query must be at least 2 characters")
    else if profiles.None? || profiles.value == [] then Ok(200, [])
    else Ok(200, Annotate(profiles.value, LinksOf(caller.value, if connections.Some? then connections.value else [])))
  }

  /** A result is "none" with a null id exactly when no connection involves that person;
      otherwise it carries the status and id of the last connection with them. */
  lemma ResultStatus(user: string, q: string, people: seq<Person>, conns: seq<Connection>, i: nat)
    requires Utf16Length(Trim(q)) >= MinQuery && i < |people|
    ensures var a := SearchPeople(Some(user), Some(q), Some(people), Some(conns)).value[i];
      && a.person == people[i]
      && (a.connectionId == Null <==> forall k :: 0 <= k < |conns| ==> OtherParty(user, conns[k]) != people[i].id)
      && (a.connectionId == Null ==> a.connectionStatus == "none")
      && ((exists k :: 0 <= k < |conns| && OtherParty(user, conns[k]) == people[i].id) ==>
            exists k :: 0 <= k < |conns| && OtherParty(user, conns[k]) == people[i].id
              && a.connectionStatus == conns[k].status && a.connectionId == Str(conns[k].id)
              && forall j :: k < j < |conns| ==> OtherParty(user, conns[j]) != people[i].id)
  {
    LinksOfLast(user, conns, people[i].id);
    AnnotateEntries(people, LinksOf(user, conns), i);
  }
}
