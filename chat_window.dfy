/**
 * The message list of the chat window (components/chat-window.tsx): grouping by date, the
 * merge of a fetched page into the current list, the realtime de-duplicating append, the
 * optimistic send, and the avatar rule.
 */
module ChatWindow {
  import opened Wrappers
  import opened Js
  import opened Sorting
  import opened Lists

  /** A message; `createdAt` is the timestamp `new Date(created_at).getTime()` reads. */
  datatype Message = Message(id: string, connectionId: string, senderId: string, content: string, createdAt: int)

  function Ids(s: seq<Message>): set<string> {
    set m | m in s :: m.id
  }

  function DifferentIds(a: Message, b: Message): bool {
    a.id != b.id
  }

  ghost predicate UniqueIds(s: seq<Message>) {
    Pairwise(s, DifferentIds)
  }

  function CreatedAt(m: Message): int {
    m.createdAt
  }

  // ---------------------------------------------------------------- grouping by date

  datatype MessageGroup = MessageGroup(date: string, messages: seq<Message>)

  /** The groups `groupByDate` has built after visiting `ms`: a message opens a new group when
      its date differs from the last group's. */
  function Grouped(ms: seq<Message>, dateKey: Message -> string): seq<MessageGroup> {
    if ms == [] then []
    else
      var gs := Grouped(ms[..|ms| - 1], dateKey);
      var m := ms[|ms| - 1];
      if gs == [] || gs[|gs| - 1].date != dateKey(m) then gs + [MessageGroup(dateKey(m), [m])]
      else gs[..|gs| - 1] + [MessageGroup(dateKey(m), gs[|gs| - 1].messages + [m])]
  }

  /** `groupByDate(messages)`; `dateKey` is `toLocaleDateString("en-CA")`, which never yields "". */
  method GroupByDate(messages: seq<Message>, dateKey: Message -> string) returns (groups: seq<MessageGroup>)
    requires forall k :: 0 <= k < |messages| ==> dateKey(messages[k]) != ""
    ensures groups == Grouped(messages, dateKey)
  {
    groups := [];
    var currentDate := "";
    for i := 0 to |messages|
      invariant groups == Grouped(messages[..i], dateKey)
      invariant currentDate == if groups == [] then "" else groups[|groups| - 1].date
    {
      assert messages[..i + 1][..i] == messages[..i];
      var msg := messages[i];
      var date := dateKey(msg);
      if date != currentDate {
        currentDate := date;
        groups := groups + [MessageGroup(date, [msg])];
      } else {
        var last := groups[|groups| - 1];
        groups := groups[|groups| - 1 := MessageGroup(last.date, last.messages + [msg])];
        assert groups == Grouped(messages[..i], dateKey)[..|groups| - 1] + [MessageGroup(date, last.messages + [msg])];
      }
    }
    assert messages[..|messages|] == messages;
  }

  function Flatten(gs: seq<MessageGroup>): seq<Message> {
    if gs == [] then [] else Flatten(gs[..|gs| - 1]) + gs[|gs| - 1].messages
  }

  lemma FlattenSnoc(gs: seq<MessageGroup>, g: MessageGroup)
    ensures Flatten(gs + [g]) == Flatten(gs) + g.messages
  {
    assert (gs + [g])[..|gs|] == gs;
  }

  /** Concatenating the groups gives back the messages, in order. */
  lemma {:induction false} GroupedFlatten(ms: seq<Message>, dateKey: Message -> string)
    ensures Flatten(Grouped(ms, dateKey)) == ms
  {
    if ms != [] {
      var init := ms[..|ms| - 1];
      var m := ms[|ms| - 1];
      GroupedFlatten(init, dateKey);
      GroupedStep(ms, dateKey);
      assert init + [m] == ms;
    }
  }

  /** One more message adds exactly that message at the end of the flattened groups. */
  lemma GroupedStep(ms: seq<Message>, dateKey: Message -> string)
    requires ms != []
    ensures Flatten(Grouped(ms, dateKey)) == Flatten(Grouped(ms[..|ms| - 1], dateKey)) + [ms[|ms| - 1]]
  {
    var init := ms[..|ms| - 1];
    var m := ms[|ms| - 1];
    var gs := Grouped(init, dateKey);
    if gs == [] || gs[|gs| - 1].date != dateKey(m) {
      FlattenSnoc(gs, MessageGroup(dateKey(m), [m]));
    } else {
      FlattenExtendLast(gs, dateKey(m), m);
    }
  }

  /** Appending a message to the last group appends it to the flattened groups. */
  lemma FlattenExtendLast(gs: seq<MessageGroup>, date: string, m: Message)
    requires gs != []
    ensures Flatten(gs[..|gs| - 1] + [MessageGroup(date, gs[|gs| - 1].messages + [m])]) == Flatten(gs) + [m]
  {
    var front := gs[..|gs| - 1];
    var last := gs[|gs| - 1];
    var merged := MessageGroup(date, last.messages + [m]);
    FlattenSnoc(front, merged);
    assert Flatten(gs) == Flatten(front) + last.messages;
    ConcatAssoc(Flatten(front), last.messages, [m]);
  }

  lemma ConcatAssoc<T>(a: seq<T>, b: seq<T>, c: seq<T>)
    ensures a + (b + c) == (a + b) + c
  {
  }

  /** Every group is non-empty, its messages carry its date, and neighbouring groups have different dates. */
  ghost predicate WellDated(gs: seq<MessageGroup>, dateKey: Message -> string) {
    && (forall k :: 0 <= k < |gs| ==> gs[k].messages != [])
    && (forall k, j :: 0 <= k < |gs| && 0 <= j < |gs[k].messages| ==> dateKey(gs[k].messages[j]) == gs[k].date)
    && (forall k :: 0 < k < |gs| ==> gs[k - 1].date != gs[k].date)
  }

  lemma {:induction false} GroupedWellDated(ms: seq<Message>, dateKey: Message -> string)
    ensures WellDated(Grouped(ms, dateKey), dateKey)
  {
    if ms != [] {
      GroupedWellDated(ms[..|ms| - 1], dateKey);
      GroupedWellDatedStep(ms, dateKey);
    }
  }

  /** One more message keeps the groups well dated. */
  lemma GroupedWellDatedStep(ms: seq<Message>, dateKey: Message -> string)
    requires ms != [] && WellDated(Grouped(ms[..|ms| - 1], dateKey), dateKey)
    ensures WellDated(Grouped(ms, dateKey), dateKey)
  {
    var m := ms[|ms| - 1];
    var gs := Grouped(ms[..|ms| - 1], dateKey);
    if gs != [] && gs[|gs| - 1].date == dateKey(m) {
      assert Grouped(ms, dateKey) == gs[..|gs| - 1] + [MessageGroup(dateKey(m), gs[|gs| - 1].messages + [m])];
      WellDatedExtendLast(gs, m, dateKey);
    } else {
      assert Grouped(ms, dateKey) == gs + [MessageGroup(dateKey(m), [m])];
      WellDatedAppend(gs, m, dateKey);
    }
  }

  /** Opening a group for a message of a new date keeps the groups well dated. */
  lemma WellDatedAppend(gs: seq<MessageGroup>, m: Message, dateKey: Message -> string)
    requires WellDated(gs, dateKey) && (gs == [] || gs[|gs| - 1].date != dateKey(m))
    ensures WellDated(gs + [MessageGroup(dateKey(m), [m])], dateKey)
  {
    var r := gs + [MessageGroup(dateKey(m), [m])];
    forall k, j | 0 <= k < |r| && 0 <= j < |r[k].messages| ensures dateKey(r[k].messages[j]) == r[k].date {
      if k < |gs| {
        assert r[k] == gs[k];
      }
    }
  }

  /** Appending a message of the last group's date to that group keeps the groups well dated. */
  lemma WellDatedExtendLast(gs: seq<MessageGroup>, m: Message, dateKey: Message -> string)
    requires gs != [] && WellDated(gs, dateKey) && gs[|gs| - 1].date == dateKey(m)
    ensures WellDated(gs[..|gs| - 1] + [MessageGroup(dateKey(m), gs[|gs| - 1].messages + [m])], dateKey)
  {
    var last := gs[|gs| - 1];
    var r := gs[..|gs| - 1] + [MessageGroup(dateKey(m), last.messages + [m])];
    forall k, j | 0 <= k < |r| && 0 <= j < |r[k].messages| ensures dateKey(r[k].messages[j]) == r[k].date {
      if k == |r| - 1 && j < |last.messages| {
        assert r[k].messages[j] == last.messages[j];
      }
    }
  }

  // ---------------------------------------------------------------- merge by id

  /** Position of the first message with this id, or -1. */
  function FindId(s: seq<Message>, id: string): (k: int)
    ensures -1 <= k < |s|
    ensures k >= 0 ==> s[k].id == id && forall j :: 0 <= j < k ==> s[j].id != id
    ensures k == -1 <==> id !in Ids(s)
  {
    if s == [] then -1
    else if s[0].id == id then 0
    else
      var k := FindId(s[1..], id);
      assert forall x :: x in s <==> x == s[0] || x in s[1..];
      if k == -1 then -1 else k + 1
  }

  /** `Map.set(m.id, m)` on the entries of a `Map` in insertion order: an existing key keeps its
      place and takes the new value, a new key goes last. */
  function SetById(entries: seq<Message>, m: Message): seq<Message> {
    var k := FindId(entries, m.id);
    if k < 0 then entries + [m] else entries[k := m]
  }

  function SetAll(entries: seq<Message>, ms: seq<Message>): seq<Message> {
    if ms == [] then entries else SetById(SetAll(entries, ms[..|ms| - 1]), ms[|ms| - 1])
  }

  /** The merged entries before sorting: the previous list, then the fetched one. */
  function MergedById(prev: seq<Message>, data: seq<Message>): seq<Message> {
    SetAll(SetAll([], prev), data)
  }

  /** The `Map` contents as a list: `values[keys[i]]` for each key in insertion order. */
  function MapValues(keys: seq<string>, values: map<string, Message>): (r: seq<Message>)
    requires forall k :: 0 <= k < |keys| ==> keys[k] in values
    ensures |r| == |keys|
    ensures forall i :: 0 <= i < |keys| ==> r[i] == values[keys[i]]
  {
    if keys == [] then [] else [values[keys[0]]] + MapValues(keys[1..], values)
  }

  /** The `Map` is well formed: distinct keys, exactly the stored ones, each value filed under its own id. */
  ghost predicate ValidMap(keys: seq<string>, values: map<string, Message>) {
    && (forall i, j :: 0 <= i < j < |keys| ==> keys[i] != keys[j])
    && (forall i :: 0 <= i < |keys| ==> keys[i] in values && values[keys[i]].id == keys[i])
    && (forall k :: k in values ==> k in keys)
  }

  /** `merged.set(m.id, m)` for a key already in the map agrees with `SetById` on its entries. */
  lemma MapSetExisting(keys: seq<string>, values: map<string, Message>, m: Message)
    requires ValidMap(keys, values) && m.id in values
    ensures ValidMap(keys, values[m.id := m])
    ensures MapValues(keys, values[m.id := m]) == SetById(MapValues(keys, values), m)
  {
    var p :| 0 <= p < |keys| && keys[p] == m.id;
    ReplaceAt(keys, values, m, p);
    ValidMapReplace(keys, values, m);
  }

  lemma ValidMapReplace(keys: seq<string>, values: map<string, Message>, m: Message)
    requires ValidMap(keys, values) && m.id in values
    ensures ValidMap(keys, values[m.id := m])
  {
    var vs := values[m.id := m];
    forall i | 0 <= i < |keys| ensures keys[i] in vs && vs[keys[i]].id == keys[i] {
      assert keys[i] in values;
    }
    forall k | k in vs ensures k in keys {
      assert k in values;
    }
  }

  lemma ReplaceAt(keys: seq<string>, values: map<string, Message>, m: Message, p: int)
    requires forall k :: 0 <= k < |keys| ==> keys[k] in values && values[keys[k]].id == keys[k]
    requires 0 <= p < |keys| && keys[p] == m.id
    requires forall i :: 0 <= i < |keys| && i != p ==> keys[i] != m.id
    ensures MapValues(keys, values[m.id := m]) == SetById(MapValues(keys, values), m)
  {
    var e := MapValues(keys, values);
    assert FindId(e, m.id) == p;
    var r := MapValues(keys, values[m.id := m]);
    assert forall i :: 0 <= i < |keys| ==> r[i] == e[p := m][i];
  }

  /** `merged.set(m.id, m)` for a new key appends to the entries, as `SetById` does. */
  lemma MapSetNew(keys: seq<string>, values: map<string, Message>, m: Message)
    requires ValidMap(keys, values) && m.id !in values
    ensures ValidMap(keys + [m.id], values[m.id := m])
    ensures MapValues(keys + [m.id], values[m.id := m]) == SetById(MapValues(keys, values), m)
  {
    var e := MapValues(keys, values);
    forall j | 0 <= j < |e| ensures e[j].id != m.id {
      assert keys[j] in values;
    }
    assert FindId(e, m.id) == -1;
    MapValuesSnoc(keys, values, m);
    ValidMapSnoc(keys, values, m);
  }

  lemma MapValuesSnoc(keys: seq<string>, values: map<string, Message>, m: Message)
    requires forall k :: 0 <= k < |keys| ==> keys[k] in values
    requires m.id !in values
    ensures MapValues(keys + [m.id], values[m.id := m]) == MapValues(keys, values) + [m]
  {
    var e := MapValues(keys, values);
    var ks := keys + [m.id];
    var r := MapValues(ks, values[m.id := m]);
    forall i | 0 <= i < |ks| ensures r[i] == (e + [m])[i] {
      if i < |keys| {
        assert ks[i] == keys[i] && keys[i] != m.id;
      }
    }
  }

  lemma ValidMapSnoc(keys: seq<string>, values: map<string, Message>, m: Message)
    requires ValidMap(keys, values) && m.id !in values
    ensures ValidMap(keys + [m.id], values[m.id := m])
  {
    var ks := keys + [m.id];
    var vs := values[m.id := m];
    forall i, j | 0 <= i < j < |ks| ensures ks[i] != ks[j] {
      assert ks[i] == keys[i];
      if j == |keys| {
        assert keys[i] in values;
      } else {
        assert ks[j] == keys[j];
      }
    }
    forall i | 0 <= i < |ks| ensures ks[i] in vs && vs[ks[i]].id == ks[i] {
      if i < |keys| {
        assert ks[i] == keys[i] && keys[i] in values;
      }
    }
    forall k | k in vs ensures k in ks {
      if k != m.id {
        assert k in keys;
      }
    }
  }

  /** The merge in `fetchMessages`: both lists are written into a `Map` keyed by id, then its
      values are sorted by creation time. */
  method MergeMessages(prev: seq<Message>, data: seq<Message>) returns (result: seq<Message>)
    ensures result == SortBy(MergedById(prev, data), CreatedAt)
  {
    var keys: seq<string> := [];
    var values: map<string, Message> := map[];
    for i := 0 to |prev|
      invariant ValidMap(keys, values)
      invariant MapValues(keys, values) == SetAll([], prev[..i])
    {
      assert prev[..i + 1][..i] == prev[..i];
      var m := prev[i];
      assert SetAll([], prev[..i + 1]) == SetById(SetAll([], prev[..i]), m);
      if m.id !in values {
        MapSetNew(keys, values, m);
        keys := keys + [m.id];
      } else {
        MapSetExisting(keys, values, m);
      }
      values := values[m.id := m];
    }
    assert prev[..|prev|] == prev;
    for i := 0 to |data|
      invariant ValidMap(keys, values)
      invariant MapValues(keys, values) == SetAll(SetAll([], prev), data[..i])
    {
      assert data[..i + 1][..i] == data[..i];
      var m := data[i];
      assert SetAll(SetAll([], prev), data[..i + 1]) == SetById(SetAll(SetAll([], prev), data[..i]), m);
      if m.id !in values {
        MapSetNew(keys, values, m);
        keys := keys + [m.id];
      } else {
        MapSetExisting(keys, values, m);
      }
      values := values[m.id := m];
    }
    assert data[..|data|] == data;
    var merged := MapValues(keys, values);
    result := SortBy(merged, CreatedAt);
  }

  /** The last message in `s` with this id. */
  function LastById(s: seq<Message>, id: string): (m: Message)
    requires id in Ids(s)
    ensures m in s && m.id == id
  {
    var last := s[|s| - 1];
    if last.id == id then last
    else
      assert forall x :: x in s ==> x in s[..|s| - 1] || x == last;
      LastById(s[..|s| - 1], id)
  }

  lemma SetByIdSpec(e: seq<Message>, m: Message)
    requires UniqueIds(e)
    ensures var r := SetById(e, m);
      && UniqueIds(r)
      && Ids(r) == Ids(e) + {m.id}
      && m in r
      && (forall x :: x in r && x.id != m.id ==> x in e)
      && (forall x :: x in e && x.id != m.id ==> x in r)
  {
    var r := SetById(e, m);
    var k := FindId(e, m.id);
    if k < 0 {
      forall i, j | 0 <= i < |r| && 0 <= j < |r| && i != j ensures DifferentIds(r[i], r[j]) {
        if i < |e| && j < |e| {
          assert DifferentIds(e[i], e[j]);
        } else if i < |e| {
          assert e[i] in e;
        } else {
          assert e[j] in e;
        }
      }
    } else {
      forall i, j | 0 <= i < |r| && 0 <= j < |r| && i != j ensures DifferentIds(r[i], r[j]) {
        assert DifferentIds(e[i], e[j]);
      }
      forall x | x in e && x.id != m.id ensures x in r {
        var p :| 0 <= p < |e| && e[p] == x;
        assert r[p] == x;
      }
      assert r[k] == m;
      assert forall x :: x in r ==> x == m || x in e;
      assert Ids(r) == Ids(e) + {m.id} by {
        forall id | id in Ids(e) ensures id in Ids(r) {
          var x :| x in e && x.id == id;
          if id != m.id {
            assert x in r;
          }
        }
      }
    }
  }

  /** Writing a list into the entries by id: every id ends up once, a written id holds the last
      message written with it, every other id keeps its earlier message. */
  lemma {:induction false} SetAllSpec(e: seq<Message>, s: seq<Message>)
    requires UniqueIds(e)
    ensures var r := SetAll(e, s);
      && UniqueIds(r)
      && Ids(r) == Ids(e) + Ids(s)
      && (forall x :: x in r && x.id in Ids(s) ==> x == LastById(s, x.id))
      && (forall x :: x in r && x.id !in Ids(s) ==> x in e)
      && (forall x :: x in e && x.id !in Ids(s) ==> x in r)
      && (forall id :: id in Ids(s) ==> LastById(s, id) in r)
  {
    if s != [] {
      var init := s[..|s| - 1];
      var m := s[|s| - 1];
      SetAllSpec(e, init);
      var r' := SetAll(e, init);
      var r := SetAll(e, s);
      SetByIdSpec(r', m);
      assert forall x :: x in s <==> x in init || x == m;
      assert Ids(s) == Ids(init) + {m.id};
      forall x | x in r && x.id in Ids(s) ensures x == LastById(s, x.id) {
        if x.id != m.id {
          assert x in r';
        } else {
          var p :| 0 <= p < |r| && r[p] == x;
          var q :| 0 <= q < |r| && r[q] == m;
          assert !DifferentIds(r[p], r[q]);
          assert p == q;
        }
      }
      forall id | id in Ids(s) ensures LastById(s, id) in r {
        if id != m.id {
          assert LastById(s, id) == LastById(init, id);
        }
      }
    }
  }

  /** The merged list has each id once, holds every id of both lists, keeps the fetched version
      of an id the fetch returned (its last occurrence) and the latest local one otherwise, and is
      ordered by creation time. */
  lemma MergeSpec(prev: seq<Message>, data: seq<Message>)
    ensures var r := SortBy(MergedById(prev, data), CreatedAt);
      && UniqueIds(r)
      && Ids(r) == Ids(prev) + Ids(data)
      && (forall x :: x in r && x.id in Ids(data) ==> x == LastById(data, x.id))
      && (forall x :: x in r && x.id !in Ids(data) ==> x.id in Ids(prev) && x == LastById(prev, x.id))
      && (forall i, j :: 0 <= i < j < |r| ==> r[i].createdAt <= r[j].createdAt)
  {
    var base := SetAll([], prev);
    var merged := MergedById(prev, data);
    var r := SortBy(merged, CreatedAt);
    SetAllSpec([], prev);
    SetAllSpec(base, data);
    SortByPairwise(merged, CreatedAt, DifferentIds);
    assert forall x :: x in r <==> x in merged by {
      forall x ensures x in r <==> x in merged {
        SortByMembers(merged, CreatedAt, x);
      }
    }
    assert Ids(r) == Ids(merged);
    forall i, j | 0 <= i < j < |r| ensures r[i].createdAt <= r[j].createdAt {
      assert CreatedAt(r[i]) <= CreatedAt(r[j]);
    }
  }

  // ---------------------------------------------------------------- realtime and send

  /** The realtime updater: the list unchanged when a message with the same id is already in it,
      otherwise the list with the new message appended. */
  function AppendIfNew(prev: seq<Message>, m: Message): (r: seq<Message>)
    ensures m.id in Ids(prev) ==> r == prev
    ensures m.id !in Ids(prev) ==> r == prev + [m]
  {
    if exists k :: 0 <= k < |prev| && prev[k].id == m.id then prev else prev + [m]
  }

  /** A realtime insert keeps the ids unique, and delivering it twice is the same as once. */
  lemma AppendIfNewKeepsUnique(prev: seq<Message>, m: Message)
    requires UniqueIds(prev)
    ensures UniqueIds(AppendIfNew(prev, m))
    ensures AppendIfNew(AppendIfNew(prev, m), m) == AppendIfNew(prev, m)
  {
    var r := AppendIfNew(prev, m);
    if m.id !in Ids(prev) {
      forall i, j | 0 <= i < |r| && 0 <= j < |r| && i != j ensures DifferentIds(r[i], r[j]) {
        if i < |prev| && j < |prev| {
          assert DifferentIds(prev[i], prev[j]);
        } else if i < |prev| {
          assert prev[i] in prev;
        } else {
          assert prev[j] in prev;
        }
      }
      assert m in r;
    }
  }

  /** The test of the failure filter: a message with another id. */
  function OtherId(id: string): Message -> bool {
    (x: Message) => x.id != id
  }

  /** The failure updater: the list without the messages carrying `id`, in order. */
  function RemoveById(ms: seq<Message>, id: string): (r: seq<Message>)
    ensures r == Filter(ms, OtherId(id))
    ensures forall x :: x in r <==> x in ms && x.id != id
    ensures |r| <= |ms|
  {
    if ms == [] then []
    else
      assert ms == [ms[0]] + ms[1..];
      assert [ms[0]][..0] == [];
      FilterAppend([ms[0]], ms[1..], OtherId(id));
      (if ms[0].id == id then [] else [ms[0]]) + RemoveById(ms[1..], id)
  }

  /** The success updater: every message carrying `id` replaced by `data`, the rest unchanged. */
  function ReplaceById(ms: seq<Message>, id: string, data: Message): (r: seq<Message>)
    ensures |r| == |ms|
    ensures forall k :: 0 <= k < |ms| ==> r[k] == if ms[k].id == id then data else ms[k]
  {
    if ms == [] then [] else [if ms[0].id == id then data else ms[0]] + ReplaceById(ms[1..], id, data)
  }

  /** A failed send removes exactly the optimistic message: the list before it comes back. */
  lemma SendFailureRestores(ms: seq<Message>, optimistic: Message)
    requires optimistic.id !in Ids(ms)
    ensures RemoveById(ms + [optimistic], optimistic.id) == ms
  {
    SendFailureAfterArrivals(ms, optimistic, []);
    assert ms + [optimistic] + [] == ms + [optimistic];
    assert ms + [] == ms;
  }


  /** A failed send removes only the optimistic message, also when realtime messages arrived after
      it: those before and after it stay, in order. */
  lemma SendFailureAfterArrivals(ms: seq<Message>, optimistic: Message, later: seq<Message>)
    requires optimistic.id !in Ids(ms) && optimistic.id !in Ids(later)
    ensures RemoveById(ms + [optimistic] + later, optimistic.id) == ms + later
  {
    var p := OtherId(optimistic.id);
    forall k | 0 <= k < |ms| ensures p(ms[k]) {
      assert ms[k] in ms;
    }
    forall k | 0 <= k < |later| ensures p(later[k]) {
      assert later[k] in later;
    }
    FilterAll(ms, p);
    FilterAll(later, p);
    assert [optimistic][..0] == [];
    assert Filter([optimistic], p) == [];
    FilterAppend(ms, [optimistic], p);
    FilterAppend(ms + [optimistic], later, p);
  }

  /** A successful send replaces the optimistic message in place and leaves the others alone. */
  lemma SendSuccessReplaces(ms: seq<Message>, optimistic: Message, data: Message)
    requires optimistic.id !in Ids(ms)
    ensures ReplaceById(ms + [optimistic], optimistic.id, data) == ms + [data]
  {
    var r := ReplaceById(ms + [optimistic], optimistic.id, data);
    forall k | 0 <= k < |ms| ensures r[k] == ms[k] {
      assert ms[k] in ms;
    }
  }

  /** When the realtime insert of the stored message arrives before the POST response, the
      optimistic id does not match it, so the list then holds the stored message twice. */
  lemma RealtimeBeforeResponseDuplicates(ms: seq<Message>, optimistic: Message, data: Message)
    requires optimistic.id !in Ids(ms) && data.id !in Ids(ms) && data.id != optimistic.id
    ensures var r := ReplaceById(AppendIfNew(ms + [optimistic], data), optimistic.id, data);
      r == ms + [data, data] && !UniqueIds(r)
  {
    var withOpt := ms + [optimistic];
    assert Ids(withOpt) == Ids(ms) + {optimistic.id} by {
      assert forall x :: x in withOpt <==> x in ms || x == optimistic;
    }
    var r := ReplaceById(AppendIfNew(withOpt, data), optimistic.id, data);
    forall k | 0 <= k < |ms| ensures r[k] == ms[k] {
      assert ms[k] in ms;
    }
    assert r == ms + [data, data];
    assert !DifferentIds(r[|ms|], r[|ms| + 1]);
  }

  /** The state `handleSend`, the realtime handler and the poller update. */
  /** How the send request ends: `fetch` or `res.json()` rejects (the handler stops there), the
      response is not ok, or it is ok and carries the stored message. */
  datatype SendOutcome = Threw | Failed | Stored(data: Message)

  class ChatState {
    var messages: seq<Message>
    var input: string
    var sending: bool

    constructor()
      ensures messages == [] && input == "" && !sending
    {
      messages := [];
      input := "";
      sending := false;
    }

    /** The first half of `handleSend`, up to the request. It returns the optimistic message it
        appended, or `None` when it returned early. The optimistic id stands for
        `optimistic-${Date.now()}` and `now` for the current time. */
    method BeginSend(user: Option<string>, connectionId: string, optimisticId: string, now: int)
      returns (optimistic: Option<Message>)
      modifies this
      requires optimisticId !in Ids(messages)
      ensures Trim(old(input)) == "" || old(sending) || user.None? ==>
                optimistic.None? && messages == old(messages) && input == old(input) && sending == old(sending)
      ensures !(Trim(old(input)) == "" || old(sending) || user.None?) ==>
                && optimistic == Some(Message(optimisticId, connectionId, user.value, Trim(old(input)), now))
                && messages == old(messages) + [optimistic.value]
                && input == "" && sending
    {
      if Trim(input) == "" || sending || user.None? {
        return None;
      }
      var content := Trim(input);
      input := "";
      sending := true;
      var msg := Message(optimisticId, connectionId, user.value, content, now);
      messages := messages + [msg];
      optimistic := Some(msg);
    }

    /** The rest of `handleSend`. A request that throws leaves everything as it was, with the
        optimistic message shown and `sending` still set; a failed response removes the
        optimistic message, and a stored one takes its place; either clears `sending`. */
    method FinishSend(optimisticId: string, outcome: SendOutcome)
      modifies this
      ensures outcome.Threw? ==> messages == old(messages) && sending == old(sending)
      ensures outcome.Failed? ==> messages == RemoveById(old(messages), optimisticId) && !sending
      ensures outcome.Stored? ==> messages == ReplaceById(old(messages), optimisticId, outcome.data) && !sending
      ensures input == old(input)
    {
      if outcome.Threw? {
        return;
      }
      if outcome.Failed? {
        messages := RemoveById(messages, optimisticId);
      } else {
        messages := ReplaceById(messages, optimisticId, outcome.data);
      }
      sending := false;
    }

    /** A realtime INSERT event. */
    method Receive(m: Message)
      modifies this
      ensures messages == AppendIfNew(old(messages), m)
      ensures input == old(input) && sending == old(sending)
    {
      messages := AppendIfNew(messages, m);
    }

    /** A successful poll or initial fetch returning `data`. */
    method Fetched(data: seq<Message>)
      modifies this
      ensures messages == SortBy(MergedById(old(messages), data), CreatedAt)
      ensures input == old(input) && sending == old(sending)
    {
      messages := MergeMessages(messages, data);
    }
  }

  // ---------------------------------------------------------------- avatar

  /** `msg.sender_id === user?.id`: with no user nothing is one's own. */
  predicate IsMine(m: Message, user: Option<string>) {
    user.Some? && m.senderId == user.value
  }

  predicate ShowAvatar(group: seq<Message>, idx: int, user: Option<string>)
    requires 0 <= idx < |group|
  {
    !IsMine(group[idx], user) && (idx == 0 || group[idx - 1].senderId != group[idx].senderId)
  }

  /** Every message from someone else belongs to a run of messages from the same sender that
      starts with a message showing the avatar. */
  lemma {:induction false} AvatarHeadsRun(group: seq<Message>, idx: int, user: Option<string>)
    requires 0 <= idx < |group| && !IsMine(group[idx], user)
    ensures exists j :: 0 <= j <= idx && ShowAvatar(group, j, user)
              && forall k :: j <= k <= idx ==> group[k].senderId == group[idx].senderId
    decreases idx
  {
    if !ShowAvatar(group, idx, user) {
      assert group[idx - 1].senderId == group[idx].senderId;
      AvatarHeadsRun(group, idx - 1, user);
      var j :| 0 <= j <= idx - 1 && ShowAvatar(group, j, user)
               && forall k :: j <= k <= idx - 1 ==> group[k].senderId == group[idx - 1].senderId;
      assert forall k :: j <= k <= idx ==> group[k].senderId == group[idx].senderId;
    }
  }

  /** Within a run from one other sender only its first message shows the avatar. */
  lemma AvatarOncePerRun(group: seq<Message>, j: int, idx: int, user: Option<string>)
    requires 0 <= j < idx < |group|
    requires forall k :: j <= k <= idx ==> group[k].senderId == group[j].senderId
    ensures !ShowAvatar(group, idx, user)
  {
    assert group[idx - 1].senderId == group[idx].senderId;
  }
}
