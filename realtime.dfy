/**
 * The realtime side of the party app: two Socket.IO namespaces, `/location`
 * and `/chat`, each with its own rooms `party_<id>`. Every handler runs as one
 * atomic step and returns the emissions it makes, each with the set of
 * session ids that receive it.
 */
module Realtime {

  import opened Optional
  import opened Seqs
  import opened Values
  import opened Models
  import Store

  /** A connected client's session id. */
  type Sid = string

  /** A namespace's rooms: room name to the sessions in it. */
  type Rooms = map<string, set<Sid>>

  /** The server keeps no empty room: it drops a room when its last member leaves. */
  predicate RoomsValid(rooms: Rooms) {
    forall k :: k in rooms ==> rooms[k] != {}
  }

  function Members(rooms: Rooms, room: string): (r: set<Sid>)
    ensures room in rooms ==> r == rooms[room]
    ensures room !in rooms ==> r == {}
  {
    if room in rooms then rooms[room] else {}
  }

  /** `f"party_{party_id}"` */
  function RoomKey(partyId: Value): (k: string)
    ensures |k| == 6 + |PyStr(partyId)|
    ensures k[..6] == "party_" && k[6..] == PyStr(partyId)
  {
    "party_" + PyStr(partyId)
  }

  /** Two party ids share a room exactly when their text is the same, so the
      number 7 and the text "7" name one room. */
  lemma RoomKeyInjective(a: Value, b: Value)
    ensures RoomKey(a) == RoomKey(b) <==> PyStr(a) == PyStr(b)
  {
    if RoomKey(a) == RoomKey(b) {
      assert PyStr(a) == RoomKey(a)[6..];
    }
  }

  /** `enter_room(sid, room)` */
  function EnterRoom(rooms: Rooms, room: string, sid: Sid): (r: Rooms)
    ensures Members(r, room) == Members(rooms, room) + {sid}
    ensures forall k :: k != room ==> Members(r, k) == Members(rooms, k)
    ensures RoomsValid(rooms) ==> RoomsValid(r)
  {
    rooms[room := Members(rooms, room) + {sid}]
  }

  /** `leave_room(sid, room)`; a room left empty is removed. */
  function LeaveRoom(rooms: Rooms, room: string, sid: Sid): (r: Rooms)
    ensures Members(r, room) == Members(rooms, room) - {sid}
    ensures forall k :: k != room ==> Members(r, k) == Members(rooms, k)
    ensures room in r <==> Members(rooms, room) - {sid} != {}
    ensures RoomsValid(rooms) ==> RoomsValid(r)
  {
    var rest := Members(rooms, room) - {sid};
    if rest == {} then map k | k in rooms && k != room :: rooms[k] else rooms[room := rest]
  }

  /** Joining a room and leaving it again restores the rooms exactly. */
  lemma EnterThenLeave(rooms: Rooms, room: string, sid: Sid)
    requires RoomsValid(rooms) && sid !in Members(rooms, room)
    ensures LeaveRoom(EnterRoom(rooms, room, sid), room, sid) == rooms
  {
    var r := LeaveRoom(EnterRoom(rooms, room, sid), room, sid);
    assert forall k :: k in r <==> k in rooms;
    forall k | k in r ensures r[k] == rooms[k] {
      assert Members(r, k) == Members(rooms, k);
    }
  }

  /** The sessions an emit to `room` reaches, less `skip_sid`. */
  function Recipients(rooms: Rooms, room: string, skip: Option<Sid>): (r: set<Sid>)
    ensures forall s :: s in r <==> s in Members(rooms, room) && skip != Some(s)
  {
    if skip.Some? then Members(rooms, room) - {skip.value} else Members(rooms, room)
  }

  /** One line of a chat history as sent to the client. */
  datatype HistoryEntry = HistoryEntry(userName: string, message: string, timestamp: int, sid: string)

  datatype Payload =
    | Ack(text: string)                                      // {'message': text}
    | LocationUpdate(data: Data)                             // the payload as received
    | History(entries: seq<HistoryEntry>)
    | ChatLine(userName: Value, message: Value, sender: Sid) // 'timestamp' is None

  /** `emit(event, payload, ...)` with the sessions it reaches. */
  datatype Emission = Emission(event: string, payload: Payload, to: set<Sid>)

  // -------------------------------------------------------------- history

  function InEventSince(event: Id, since: int): ChatMessage -> bool {
    (m: ChatMessage) => m.event == event && m.createdAt >= since
  }

  function CreatedAt(m: ChatMessage): int {
    m.createdAt
  }

  /** `ChatMessage.objects.filter(event_id=..., created_at__gte=...).order_by('created_at')` */
  function SelectHistory(t: Tables, event: Id, since: int): (r: seq<ChatMessage>)
    ensures forall m :: m in r <==> m in t.messages && m.event == event && m.createdAt >= since
    ensures forall i, j :: 0 <= i < j < |r| ==> r[i].createdAt <= r[j].createdAt
    ensures |r| <= |t.messages|
  {
    var s := Filter(t.messages, InEventSince(event, since));
    SortByMembers(s, CreatedAt);
    var r := SortBy(s, CreatedAt);
    assert forall i, j :: 0 <= i < j < |r| ==> CreatedAt(r[i]) <= CreatedAt(r[j]);
    r
  }

  /** Each stored message appears in a history at most once. */
  lemma SelectHistoryDistinct(t: Tables, event: Id, since: int)
    requires MessagesValid(t)
    ensures Distinct(SelectHistory(t, event, since))
  {
    var s := Filter(t.messages, InEventSince(event, since));
    FilterAscending(t.messages, InEventSince(event, since), MessageKey);
    AscendingDistinct(s, MessageKey);
    PermutationDistinct(s, SortBy(s, CreatedAt));
  }

  function UserWithId(id: Id): User -> bool {
    (u: User) => u.id == id
  }

  /** Every message's sender is a stored user (the foreign key). */
  predicate SendersKnown(t: Tables, ms: seq<ChatMessage>) {
    forall m :: m in ms ==> m.sender in UserIds(t)
  }

  /** The history line for one stored message: its sender's username, the text and the time. */
  function Entry(t: Tables, m: ChatMessage): (e: HistoryEntry)
    requires m.sender in UserIds(t)
    ensures e.message == m.message && e.timestamp == m.createdAt && e.sid == "history"
    ensures exists u :: u in t.users && u.id == m.sender && e.userName == u.username
  {
    var u := First(t.users, UserWithId(m.sender));
    assert exists x :: x in t.users && UserWithId(m.sender)(x);
    HistoryEntry(u.value.username, m.message, m.createdAt, "history")
  }

  /** The history lines for `ms`, one per message, in order. */
  function Entries(t: Tables, ms: seq<ChatMessage>): (r: seq<HistoryEntry>)
    requires SendersKnown(t, ms)
    ensures |r| == |ms|
    ensures forall i :: 0 <= i < |ms| ==> r[i] == Entry(t, ms[i])
  {
    if ms == [] then [] else [Entry(t, ms[0])] + Entries(t, ms[1..])
  }

  function ParticipantOf(event: int, user: int): Participant -> bool {
    (p: Participant) => p.event == event && p.user == Some(user)
  }

  /**
   * `get_chat_history` as the join handler sees it. `None` is an exception
   * that escapes it: an id that `int()` rejects, or more than one participant
   * row. No participant row gives the empty history.
   */
  function ChatHistory(t: Tables, partyId: Value, userId: Value): (r: Option<seq<HistoryEntry>>)
    requires MessagesValid(t)
    ensures PyInt(partyId).None? || PyInt(userId).None? ==> r.None?
    ensures PyInt(partyId).Some? && PyInt(userId).Some? ==>
              (forall p :: p in t.participants ==> !ParticipantOf(PyInt(partyId).value, PyInt(userId).value)(p)) ==>
              r == Some([])
  {
    match (PyInt(partyId), PyInt(userId))
    case (Some(e), Some(u)) =>
      var ps := Filter(t.participants, ParticipantOf(e, u));
      assert |ps| > 0 ==> ps[0] in ps;
      if |ps| == 0 then Some([])
      else if |ps| > 1 then None
      else
        var ms := SelectHistory(t, ps[0].event, ps[0].joinedAt);
        Some(Entries(t, ms))
    case _ => None
  }

  /** With the participant row of the user in the event, the history is the lines of
      exactly the event's messages since that row's `joinedAt`. */
  lemma HistoryOfParticipant(t: Tables, p: Participant, partyId: Value, userId: Value)
    requires ParticipantsValid(t) && MessagesValid(t) && p in t.participants && p.user.Some?
    requires PyInt(partyId) == Some(p.event) && PyInt(userId) == Some(p.user.value)
    ensures ChatHistory(t, partyId, userId) == Some(Entries(t, SelectHistory(t, p.event, p.joinedAt)))
  {
    var f := ParticipantOf(p.event, p.user.value);
    var ps := Filter(t.participants, f);
    assert p in ps;
    FilterAscending(t.participants, f, ParticipantKey);
    forall q | q in ps ensures q == p {
      assert q in t.participants && f(q);
    }
    AscendingCountAtMostOne(ps, ParticipantKey, p);
    assert ps[0] in ps;
  }

  /** The history lines are in time order and none predates the join. */
  lemma HistoryInOrderSince(t: Tables, event: Id, since: int)
    requires MessagesValid(t)
    ensures var h := Entries(t, SelectHistory(t, event, since));
      && (forall i :: 0 <= i < |h| ==> h[i].timestamp >= since)
      && (forall i, j :: 0 <= i < j < |h| ==> h[i].timestamp <= h[j].timestamp)
  {
    var ms := SelectHistory(t, event, since);
    var h := Entries(t, ms);
    forall i | 0 <= i < |h| ensures h[i].timestamp >= since {
      assert ms[i] in ms;
    }
  }

  /** What a chat join emits beyond entering the room: the history, to the joiner only, when there is one. */
  function JoinEmissions(t: Tables, sid: Sid, data: Data): (out: seq<Emission>)
    requires MessagesValid(t)
    ensures forall e :: e in out ==> e.to == {sid} && e.event == "chat_history"
    ensures !Truthy(Get(data, "party_id")) || !Truthy(Get(data, "user_id")) ==> out == []
    ensures |out| <= 1
    ensures out != [] ==> out[0].payload.History? && out[0].payload.entries != []
    ensures out != [] <==>
              && Truthy(Get(data, "party_id")) && Truthy(Get(data, "user_id"))
              && ChatHistory(t, Get(data, "party_id"), Get(data, "user_id")).Some?
              && ChatHistory(t, Get(data, "party_id"), Get(data, "user_id")).value != []
    ensures out != [] ==>
              out == [Emission("chat_history", History(ChatHistory(t, Get(data, "party_id"), Get(data, "user_id")).value), {sid})]
  {
    if Truthy(Get(data, "party_id")) && Truthy(Get(data, "user_id")) then
      match ChatHistory(t, Get(data, "party_id"), Get(data, "user_id"))
      case Some(h) => if h != [] then [Emission("chat_history", History(h), {sid})] else []
      case None => []
    else []
  }

  /** A participant joining the room of their event with ids that convert is sent,
      to their own session only, every message of the event since they joined, in
      time order, as long as there is one. */
  lemma ParticipantReceivesHistory(t: Tables, p: Participant, sid: Sid, data: Data)
    requires ParticipantsValid(t) && MessagesValid(t) && p in t.participants && p.user.Some?
    requires Truthy(Get(data, "party_id")) && Truthy(Get(data, "user_id"))
    requires PyInt(Get(data, "party_id")) == Some(p.event) && PyInt(Get(data, "user_id")) == Some(p.user.value)
    requires SelectHistory(t, p.event, p.joinedAt) != []
    ensures JoinEmissions(t, sid, data)
      == [Emission("chat_history", History(Entries(t, SelectHistory(t, p.event, p.joinedAt))), {sid})]
  {
    HistoryOfParticipant(t, p, Get(data, "party_id"), Get(data, "user_id"));
  }

  /** The row `on_chat_message` stores: only with a user id, and only when both ids
      convert and name stored rows; otherwise the tables are as before. */
  function SaveChat(t: Tables, data: Data, now: int): (r: Tables)
    ensures r != t <==>
      && Truthy(Get(data, "user_id"))
      && PyInt(Get(data, "party_id")).Some? && PyInt(Get(data, "party_id")).value in EventIds(t)
      && PyInt(Get(data, "user_id")).Some? && PyInt(Get(data, "user_id")).value in UserIds(t)
    ensures r != t ==>
      r == t.(messages := t.messages + [ChatMessage(t.nextMessage, PyInt(Get(data, "party_id")).value,
                                                    PyInt(Get(data, "user_id")).value, PyStr(Get(data, "message")), now)],
              nextMessage := t.nextMessage + 1)
  {
    if !Truthy(Get(data, "user_id")) then t
    else match (PyInt(Get(data, "party_id")), PyInt(Get(data, "user_id")))
      case (Some(e), Some(u)) =>
        if e in EventIds(t) && u in UserIds(t) then
          var m := ChatMessage(t.nextMessage, e, u, PyStr(Get(data, "message")), now);
          assert |t.messages + [m]| != |t.messages|;
          Store.WithMessage(t, m)
        else t
      case _ => t
  }

  /** A chat line that names a stored event and a stored user by their integer keys is
      saved: keys start at 1, so neither is the falsy 0 the handler skips. */
  lemma ChatFromStoredKeysSaved(t: Tables, e: Event, u: User, data: Data, now: int)
    requires UsersValid(t) && EventsValid(t) && e in t.events && u in t.users
    requires Get(data, "party_id") == Int(e.id) && Get(data, "user_id") == Int(u.id)
    ensures SaveChat(t, data, now)
      == Store.WithMessage(t, ChatMessage(t.nextMessage, e.id, u.id, PyStr(Get(data, "message")), now))
  {
    assert Truthy(Get(data, "user_id"));
    assert e.id in EventIds(t) && u.id in UserIds(t);
  }

  /** A stored chat line is part of the history of every participant of the party
      who had joined by the time it was sent. */
  lemma SavedChatInHistory(t: Tables, data: Data, now: int, p: Participant)
    requires SaveChat(t, data, now) != t
    requires PyInt(Get(data, "party_id")) == Some(p.event) && p.joinedAt <= now
    ensures exists m :: && m in SelectHistory(SaveChat(t, data, now), p.event, p.joinedAt)
                        && m.message == PyStr(Get(data, "message")) && m.createdAt == now
  {
    var r := SaveChat(t, data, now);
    var m := r.messages[|t.messages|];
    assert m in r.messages;
  }

  // ----------------------------------------------------------- namespaces

  /** The `/location` namespace: its rooms and its three handlers. */
  class LocationNamespace {
    var rooms: Rooms

    predicate Valid()
      reads this
    {
      RoomsValid(rooms)
    }

    constructor ()
      ensures Valid() && rooms == map[]
    {
      rooms := map[];
    }

    /** Enter the room and acknowledge to the joiner alone. */
    method OnJoinParty(sid: Sid, data: Data) returns (out: seq<Emission>)
      requires Valid()
      modifies this
      ensures Valid()
      ensures !Truthy(Get(data, "party_id")) ==> rooms == old(rooms) && out == []
      ensures Truthy(Get(data, "party_id")) ==>
        && rooms == EnterRoom(old(rooms), RoomKey(Get(data, "party_id")), sid)
        && out == [Emission("response", Ack("Joined party " + PyStr(Get(data, "party_id")) + " on location"), {sid})]
    {
      var partyId := Get(data, "party_id");
      out := [];
      if Truthy(partyId) {
        rooms := EnterRoom(rooms, RoomKey(partyId), sid);
        out := [Emission("response", Ack("Joined party " + PyStr(partyId) + " on location"), {sid})];
      }
    }

    /** Leave the room and acknowledge to the leaver alone. */
    method OnLeaveParty(sid: Sid, data: Data) returns (out: seq<Emission>)
      requires Valid()
      modifies this
      ensures Valid()
      ensures !Truthy(Get(data, "party_id")) ==> rooms == old(rooms) && out == []
      ensures Truthy(Get(data, "party_id")) ==>
        && rooms == LeaveRoom(old(rooms), RoomKey(Get(data, "party_id")), sid)
        && out == [Emission("response", Ack("Left party " + PyStr(Get(data, "party_id")) + " on location"), {sid})]
    {
      var partyId := Get(data, "party_id");
      out := [];
      if Truthy(partyId) {
        rooms := LeaveRoom(rooms, RoomKey(partyId), sid);
        out := [Emission("response", Ack("Left party " + PyStr(partyId) + " on location"), {sid})];
      }
    }

    /** Forward the payload unchanged to the rest of the room; nothing is stored. */
    method OnLocationUpdate(sid: Sid, data: Data) returns (out: seq<Emission>)
      ensures !Truthy(Get(data, "party_id")) ==> out == []
      ensures Truthy(Get(data, "party_id")) ==>
                |out| == 1 && out[0].event == "location_update" && out[0].payload == LocationUpdate(data)
      ensures Truthy(Get(data, "party_id")) ==> forall s ::
        s in out[0].to <==> s in Members(rooms, RoomKey(Get(data, "party_id"))) && s != sid
    {
      var partyId := Get(data, "party_id");
      out := [];
      if Truthy(partyId) {
        out := [Emission("location_update", LocationUpdate(data), Recipients(rooms, RoomKey(partyId), Some(sid)))];
      }
    }
  }

  /** The `/chat` namespace: its rooms, and the database the history and the messages live in. */
  class ChatNamespace {
    var rooms: Rooms
    const db: Store.Database

    predicate Valid()
      reads this, db
    {
      RoomsValid(rooms) && db.Valid()
    }

    constructor (db: Store.Database)
      requires db.Valid()
      ensures Valid() && rooms == map[] && this.db == db
    {
      rooms := map[];
      this.db := db;
    }

    /** The loop of `get_chat_history` that turns the selected rows into history lines. */
    method BuildHistory(ms: seq<ChatMessage>) returns (history: seq<HistoryEntry>)
      requires SendersKnown(db.t, ms)
      ensures |history| == |ms|
      ensures forall i :: 0 <= i < |ms| ==> history[i] == Entry(db.t, ms[i])
    {
      history := [];
      var k := 0;
      while k < |ms|
        invariant 0 <= k <= |ms|
        invariant |history| == k
        invariant forall i :: 0 <= i < k ==> history[i] == Entry(db.t, ms[i])
      {
        var m := ms[k];
        assert m in ms;
        var u := First(db.t.users, UserWithId(m.sender));
        assert exists x :: x in db.t.users && UserWithId(m.sender)(x);
        history := history + [HistoryEntry(u.value.username, m.message, m.createdAt, "history")];
        k := k + 1;
      }
    }

    /** `get_chat_history`: one participant row gives the history since it joined. */
    method GetChatHistory(partyId: Value, userId: Value) returns (r: Option<seq<HistoryEntry>>)
      requires MessagesValid(db.t)
      ensures r == ChatHistory(db.t, partyId, userId)
    {
      var e := PyInt(partyId);
      var u := PyInt(userId);
      if e.None? || u.None? {
        return None;
      }
      var ps := Filter(db.t.participants, ParticipantOf(e.value, u.value));
      if |ps| == 0 {
        return Some([]);
      }
      if |ps| > 1 {
        return None;
      }
      var ms := SelectHistory(db.t, ps[0].event, ps[0].joinedAt);
      assert SendersKnown(db.t, ms);
      var history := BuildHistory(ms);
      assert history == Entries(db.t, ms);
      r := Some(history);
    }

    /** Enter the room; with a user id, send the history since the user joined to the joiner alone. */
    method OnJoinParty(sid: Sid, data: Data) returns (out: seq<Emission>)
      requires Valid()
      modifies this
      ensures Valid() && db.t == old(db.t)
      ensures !Truthy(Get(data, "party_id")) ==> rooms == old(rooms) && out == []
      ensures Truthy(Get(data, "party_id")) ==>
        rooms == EnterRoom(old(rooms), RoomKey(Get(data, "party_id")), sid) && out == JoinEmissions(db.t, sid, data)
    {
      var partyId := Get(data, "party_id");
      var userId := Get(data, "user_id");
      out := [];
      if Truthy(partyId) {
        rooms := EnterRoom(rooms, RoomKey(partyId), sid);
        if Truthy(userId) {
          var history := GetChatHistory(partyId, userId);
          if history.Some? && history.value != [] {
            out := [Emission("chat_history", History(history.value), {sid})];
          }
        }
      }
    }

    /** Leave the room; no acknowledgement. */
    method OnLeaveParty(sid: Sid, data: Data)
      requires Valid()
      modifies this
      ensures Valid() && db.t == old(db.t)
      ensures !Truthy(Get(data, "party_id")) ==> rooms == old(rooms)
      ensures Truthy(Get(data, "party_id")) ==> rooms == LeaveRoom(old(rooms), RoomKey(Get(data, "party_id")), sid)
    {
      var partyId := Get(data, "party_id");
      if Truthy(partyId) {
        rooms := LeaveRoom(rooms, RoomKey(partyId), sid);
      }
    }

    /**
     * With a party id and a message: store the message when a user id is given
     * (a failure is swallowed), then send it to the whole room, sender included,
     * whether or not it was stored.
     */
    method OnChatMessage(sid: Sid, data: Data, now: int) returns (out: seq<Emission>)
      requires Valid()
      modifies db
      ensures Valid()
      ensures !(Truthy(Get(data, "party_id")) && Truthy(Get(data, "message"))) ==> db.t == old(db.t) && out == []
      ensures Truthy(Get(data, "party_id")) && Truthy(Get(data, "message")) ==>
        && db.t == SaveChat(old(db.t), data, now)
        && out == [Emission("chat_message", ChatLine(Get(data, "user_name"), Get(data, "message"), sid),
                            Members(rooms, RoomKey(Get(data, "party_id"))))]
    {
      var partyId := Get(data, "party_id");
      var message := Get(data, "message");
      var userName := Get(data, "user_name");
      var userId := Get(data, "user_id");
      out := [];
      if Truthy(partyId) && Truthy(message) {
        if Truthy(userId) {
          var e := PyInt(partyId);
          var u := PyInt(userId);
          if e.Some? && u.Some? {
            var _ := db.CreateMessage(e.value, u.value, PyStr(message), now);
          }
        }
        out := [Emission("chat_message", ChatLine(userName, message, sid), Recipients(rooms, RoomKey(partyId), None))];
      }
    }
  }

  /** A location update never comes back to its sender; a chat line reaches every member, the sender included. */
  lemma BroadcastRecipients(rooms: Rooms, room: string, sender: Sid)
    ensures sender !in Recipients(rooms, room, Some(sender))
    ensures Recipients(rooms, room, Some(sender)) == Members(rooms, room) - {sender}
    ensures Recipients(rooms, room, None) == Members(rooms, room)
  {
  }
}
