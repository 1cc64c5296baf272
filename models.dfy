/**
 * The records of the party app (`core/models.py`) and of Django's `User`,
 * held as tables in primary-key order, with the column defaults, the
 * declared constraints (unique columns, `unique_together`, foreign keys) and
 * the delete rules (`CASCADE`, `SET_NULL`).
 */
module Models {

  import opened Optional
  import opened Seqs
  import Uuids

  type Id = nat

  /** What `create_user` stores for a password; the hashing itself is not modelled. */
  datatype Secret = Hashed(password: string)

  datatype User = User(id: Id, username: string, email: string, firstName: string, password: Secret)

  datatype Theme = Theme(id: Id, name: string, description: Option<string>)

  /** A party. `latitude`/`longitude` are not modelled (decimals only forwarded). */
  datatype Event = Event(
    id: Id,
    name: string,
    description: Option<string>,
    date: int,
    locationName: Option<string>,
    placeId: Option<string>,
    theme: string,
    foodDescription: Option<string>,
    hostName: string,
    host: Option<Id>,
    fee: int,
    inviteCode: Uuids.Uuid,
    maxMembers: nat)

  /** Membership of a (possibly anonymous, legacy) user in an event; `joinedAt` is set on insert. */
  datatype Participant = Participant(id: Id, event: Id, user: Option<Id>, name: string, joinedAt: int)

  datatype Todo = Todo(id: Id, event: Id, task: string, isCompleted: bool)

  /** A stored chat line; `createdAt` is set on insert. */
  datatype ChatMessage = ChatMessage(id: Id, event: Id, sender: Id, message: string, createdAt: int)

  /** The two `choices` of `Friendship.status`. */
  datatype FriendStatus = Pending | Accepted

  /** A directed friend request `fromUser -> toUser`. */
  datatype Friendship = Friendship(id: Id, fromUser: Id, toUser: Id, createdAt: int, status: FriendStatus)

  const DefaultTheme: string := "\U{AE30}\U{BCF8}"
  const DefaultHostName: string := "\U{C8FC}\U{CD5C}\U{C790}"
  const DefaultFee: int := 0
  const DefaultMaxMembers: nat := 10
  const DefaultFriendStatus: FriendStatus := Pending

  /** The column values an insert receives; an absent one takes the column's default. */
  datatype EventFields = EventFields(
    name: string,
    description: Option<string>,
    date: int,
    locationName: Option<string>,
    placeId: Option<string>,
    theme: Option<string>,
    foodDescription: Option<string>,
    hostName: Option<string>,
    fee: Option<int>,
    maxMembers: Option<nat>)

  /** The row an insert creates: `invite_code` comes from the generator, never from the fields. */
  function NewEvent(id: Id, f: EventFields, host: Option<Id>, code: Uuids.Uuid): (e: Event)
    ensures e.id == id && e.inviteCode == code && e.host == host
    ensures e.name == f.name && e.date == f.date
    ensures f.theme.None? ==> e.theme == DefaultTheme
    ensures f.hostName.None? ==> e.hostName == DefaultHostName
    ensures f.fee.None? ==> e.fee == DefaultFee
    ensures f.maxMembers.None? ==> e.maxMembers == DefaultMaxMembers
    ensures f.theme.Some? ==> e.theme == f.theme.value
    ensures f.hostName.Some? ==> e.hostName == f.hostName.value
  {
    Event(id, f.name, f.description, f.date, f.locationName, f.placeId,
          f.theme.GetOr(DefaultTheme), f.foodDescription, f.hostName.GetOr(DefaultHostName),
          host, f.fee.GetOr(DefaultFee), code, f.maxMembers.GetOr(DefaultMaxMembers))
  }

  /** The whole database: every table in primary-key order, with each table's next key. */
  datatype Tables = Tables(
    users: seq<User>,
    events: seq<Event>,
    participants: seq<Participant>,
    todos: seq<Todo>,
    messages: seq<ChatMessage>,
    friendships: seq<Friendship>,
    themes: seq<Theme>,
    nextUser: Id,
    nextEvent: Id,
    nextParticipant: Id,
    nextTodo: Id,
    nextMessage: Id,
    nextFriendship: Id)

  function UserKey(u: User): int { u.id }

  function ParticipantKey(p: Participant): int { p.id }

  function EventKey(e: Event): int { e.id }

  function TodoKey(x: Todo): int { x.id }

  function MessageKey(m: ChatMessage): int { m.id }

  function FriendshipKey(f: Friendship): int { f.id }

  function UserIds(t: Tables): set<Id> {
    set u | u in t.users :: u.id
  }

  function EventIds(t: Tables): set<Id> {
    set e | e in t.events :: e.id
  }

  /** `User.username` is unique (Django's auth table). */
  predicate UniqueUsernames(users: seq<User>) {
    forall a, b :: a in users && b in users && a.username == b.username ==> a == b
  }

  /** `Event.invite_code` is unique. */
  predicate UniqueInviteCodes(events: seq<Event>) {
    forall a, b :: a in events && b in events && a.inviteCode == b.inviteCode ==> a == b
  }

  /** Some event already holds the invite code `code`. */
  predicate CodeTaken(t: Tables, code: Uuids.Uuid) {
    exists x :: x in t.events && x.inviteCode == code
  }

  /** The declared `unique_together = ('from_user', 'to_user')`. */
  predicate UniqueTogether(fs: seq<Friendship>) {
    forall a, b :: a in fs && b in fs && a.fromUser == b.fromUser && a.toUser == b.toUser ==> a == b
  }

  /** Two edges join the same two users, in either direction. */
  predicate SamePair(a: Friendship, b: Friendship) {
    (a.fromUser == b.fromUser && a.toUser == b.toUser) || (a.fromUser == b.toUser && a.toUser == b.fromUser)
  }

  /** At most one edge per unordered pair of users, and no edge from a user to itself. */
  predicate FriendGraphValid(fs: seq<Friendship>) {
    && (forall a, b :: a in fs && b in fs && SamePair(a, b) ==> a == b)
    && (forall f :: f in fs ==> f.fromUser != f.toUser)
  }

  /** At most one participant row per (event, user) for a known user. */
  predicate OneParticipantPerUser(ps: seq<Participant>) {
    forall a, b :: a in ps && b in ps && a.user.Some? && a.event == b.event && a.user == b.user ==> a == b
  }

  /** Users in key order, keys from 1 up to below the next key, usernames unique. */
  predicate UsersValid(t: Tables) {
    && Ascending(t.users, UserKey)
    && 0 < t.nextUser
    && (forall u :: u in t.users ==> 0 < u.id < t.nextUser)
    && UniqueUsernames(t.users)
  }

  /** Events in key order, so a key identifies a row; invite codes are unique; a host is an existing user. */
  predicate EventsValid(t: Tables) {
    && Ascending(t.events, EventKey)
    && (forall a, b :: a in t.events && b in t.events && a.id == b.id ==> a == b)
    && 0 < t.nextEvent
    && (forall e :: e in t.events ==> 0 < e.id < t.nextEvent)
    && UniqueInviteCodes(t.events)
    && (forall e :: e in t.events && e.host.Some? ==> e.host.value in UserIds(t))
  }

  /** Participants in key order; event and user exist; one row per (event, user). */
  predicate ParticipantsValid(t: Tables) {
    && Ascending(t.participants, ParticipantKey)
    && 0 < t.nextParticipant
    && (forall p :: p in t.participants ==> 0 < p.id < t.nextParticipant)
    && (forall p :: p in t.participants ==> p.event in EventIds(t))
    && (forall p :: p in t.participants && p.user.Some? ==> p.user.value in UserIds(t))
    && OneParticipantPerUser(t.participants)
  }

  /** Todos in key order; each belongs to an existing event. */
  predicate TodosValid(t: Tables) {
    && Ascending(t.todos, TodoKey)
    && (forall a, b :: a in t.todos && b in t.todos && a.id == b.id ==> a == b)
    && 0 < t.nextTodo
    && (forall x :: x in t.todos ==> 0 < x.id < t.nextTodo)
    && (forall x :: x in t.todos ==> x.event in EventIds(t))
  }

  /** Chat messages in key order; event and sender exist. */
  predicate MessagesValid(t: Tables) {
    && Ascending(t.messages, MessageKey)
    && (forall a, b :: a in t.messages && b in t.messages && a.id == b.id ==> a == b)
    && 0 < t.nextMessage
    && (forall m :: m in t.messages ==> 0 < m.id < t.nextMessage)
    && (forall m :: m in t.messages ==> m.event in EventIds(t) && m.sender in UserIds(t))
  }

  /** Friendships in key order, so a key identifies a row; both ends exist; the friend graph is valid. */
  predicate FriendshipsValid(t: Tables) {
    && Ascending(t.friendships, FriendshipKey)
    && (forall a, b :: a in t.friendships && b in t.friendships && a.id == b.id ==> a == b)
    && 0 < t.nextFriendship
    && (forall f :: f in t.friendships ==> 0 < f.id < t.nextFriendship)
    && (forall f :: f in t.friendships ==> f.fromUser in UserIds(t) && f.toUser in UserIds(t))
    && FriendGraphValid(t.friendships)
  }

  /** The state every handler starts from and leaves behind. */
  predicate Consistent(t: Tables) {
    && UsersValid(t)
    && EventsValid(t)
    && ParticipantsValid(t)
    && TodosValid(t)
    && MessagesValid(t)
    && FriendshipsValid(t)
  }

  /** No participant row refers to the next event key yet. */
  lemma NoParticipantsOfNextEvent(t: Tables)
    requires EventsValid(t) && ParticipantsValid(t)
    ensures forall q :: q in t.participants ==> q.event != t.nextEvent
  {
    forall q | q in t.participants ensures q.event != t.nextEvent {
      var x :| x in t.events && x.id == q.event;
    }
  }

  /** A new edge between two users not yet joined keeps the friend graph valid. */
  lemma AppendKeepsGraph(fs: seq<Friendship>, f: Friendship)
    requires FriendGraphValid(fs)
    requires f.fromUser != f.toUser && forall g :: g in fs ==> !SamePair(f, g)
    ensures FriendGraphValid(fs + [f])
  {
    var r := fs + [f];
    forall a, b | a in r && b in r && SamePair(a, b) ensures a == b {
      assert a in fs || a == f;
      assert b in fs || b == f;
    }
  }

  /** Dropping edges keeps the friend graph valid. */
  lemma FewerEdgesKeepGraph(fs: seq<Friendship>, r: seq<Friendship>)
    requires FriendGraphValid(fs) && forall x :: x in r ==> x in fs
    ensures FriendGraphValid(r)
  {
  }

  /** Dropping participant rows keeps one row per (event, user). */
  lemma FewerRowsKeepOnePerUser(ps: seq<Participant>, r: seq<Participant>)
    requires OneParticipantPerUser(ps) && forall x :: x in r ==> x in ps
    ensures OneParticipantPerUser(r)
  {
  }

  /** A row for a user not yet in its event keeps one row per (event, user). */
  lemma AppendKeepsOnePerUser(ps: seq<Participant>, p: Participant)
    requires OneParticipantPerUser(ps)
    requires p.user.Some? ==> forall q :: q in ps ==> !(q.event == p.event && q.user == p.user)
    ensures OneParticipantPerUser(ps + [p])
  {
    var r := ps + [p];
    forall a, b | a in r && b in r && a.user.Some? && a.event == b.event && a.user == b.user ensures a == b {
      assert a in ps || a == p;
      assert b in ps || b == p;
    }
  }

  /** Tables that differ only in the friendship table keep every other table valid. */
  lemma OnlyFriendshipsChanged(t: Tables, r: Tables)
    requires r == t.(friendships := r.friendships, nextFriendship := r.nextFriendship)
    requires UsersValid(t) && EventsValid(t) && ParticipantsValid(t) && TodosValid(t) && MessagesValid(t)
    ensures UsersValid(r) && EventsValid(r) && ParticipantsValid(r) && TodosValid(r) && MessagesValid(r)
  {
    assert UserIds(r) == UserIds(t) && EventIds(r) == EventIds(t);
  }

  /** The friend-graph invariant implies the constraint the table declares. */
  lemma FriendGraphValidUniqueTogether(fs: seq<Friendship>)
    requires FriendGraphValid(fs)
    ensures UniqueTogether(fs)
  {
  }

  /** Deleting an event cascades to its participants, todos and chat messages; nothing else changes. */
  function DeleteEvent(t: Tables, id: Id): (r: Tables)
    ensures forall e :: e in r.events <==> e in t.events && e.id != id
    ensures forall p :: p in r.participants <==> p in t.participants && p.event != id
    ensures forall x :: x in r.todos <==> x in t.todos && x.event != id
    ensures forall m :: m in r.messages <==> m in t.messages && m.event != id
    ensures r.users == t.users && r.friendships == t.friendships && r.themes == t.themes
  {
    t.(events := Filter(t.events, (e: Event) => e.id != id),
       participants := Filter(t.participants, (p: Participant) => p.event != id),
       todos := Filter(t.todos, (x: Todo) => x.event != id),
       messages := Filter(t.messages, (m: ChatMessage) => m.event != id))
  }

  /** The cascade removes exactly the deleted key from the event keys. */
  lemma DeleteEventIds(t: Tables, id: Id)
    ensures EventIds(DeleteEvent(t, id)) == EventIds(t) - {id}
  {
  }

  lemma DeleteEventKeepsParticipants(t: Tables, id: Id)
    requires ParticipantsValid(t)
    ensures ParticipantsValid(DeleteEvent(t, id))
  {
    var r := DeleteEvent(t, id);
    FilterAscending(t.participants, (p: Participant) => p.event != id, ParticipantKey);
    FewerRowsKeepOnePerUser(t.participants, r.participants);
    DeleteEventIds(t, id);
    assert UserIds(r) == UserIds(t);
  }

  lemma DeleteEventKeepsEvents(t: Tables, id: Id)
    requires EventsValid(t)
    ensures EventsValid(DeleteEvent(t, id))
  {
    var r := DeleteEvent(t, id);
    FilterAscending(t.events, (e: Event) => e.id != id, EventKey);
    assert UserIds(r) == UserIds(t);
  }

  lemma DeleteEventKeepsTodos(t: Tables, id: Id)
    requires TodosValid(t)
    ensures TodosValid(DeleteEvent(t, id))
  {
    FilterAscending(t.todos, (x: Todo) => x.event != id, TodoKey);
    DeleteEventIds(t, id);
  }

  lemma DeleteEventKeepsMessages(t: Tables, id: Id)
    requires MessagesValid(t)
    ensures MessagesValid(DeleteEvent(t, id))
  {
    var r := DeleteEvent(t, id);
    FilterAscending(t.messages, (m: ChatMessage) => m.event != id, MessageKey);
    DeleteEventIds(t, id);
    assert UserIds(r) == UserIds(t);
  }

  lemma DeleteEventKeepsRest(t: Tables, id: Id)
    requires UsersValid(t) && FriendshipsValid(t)
    ensures UsersValid(DeleteEvent(t, id)) && FriendshipsValid(DeleteEvent(t, id))
  {
    var r := DeleteEvent(t, id);
    assert UserIds(r) == UserIds(t);
  }

  lemma DeleteEventConsistent(t: Tables, id: Id)
    requires Consistent(t)
    ensures Consistent(DeleteEvent(t, id))
  {
    DeleteEventKeepsEvents(t, id);
    DeleteEventKeepsParticipants(t, id);
    DeleteEventKeepsTodos(t, id);
    DeleteEventKeepsMessages(t, id);
    DeleteEventKeepsRest(t, id);
  }

  /** `Event.host` is `SET_NULL`: the host's events stay, host-less. */
  function ClearHost(e: Event, uid: Id): (r: Event)
    ensures r.host == if e.host == Some(uid) then None else e.host
    ensures r == e.(host := r.host)
  {
    if e.host == Some(uid) then e.(host := None) else e
  }

  /** The event table after `SET_NULL` on the host `uid`. */
  function ClearHosts(events: seq<Event>, uid: Id): (r: seq<Event>)
    ensures |r| == |events|
    ensures forall i :: 0 <= i < |events| ==> r[i] == ClearHost(events[i], uid)
  {
    Map(events, (e: Event) => ClearHost(e, uid))
  }

  lemma ClearHostsRows(events: seq<Event>, uid: Id)
    ensures forall y :: y in ClearHosts(events, uid) ==> exists x :: x in events && y == ClearHost(x, uid)
  {
    var r := ClearHosts(events, uid);
    forall y | y in r ensures exists x :: x in events && y == ClearHost(x, uid) {
      var i :| 0 <= i < |r| && r[i] == y;
      assert events[i] in events;
    }
  }

  /**
   * Deleting a user: `SET_NULL` on the events they host; `CASCADE` to their
   * participant rows, the chat messages they sent and every friendship they
   * are on either end of.
   */
  function DeleteUser(t: Tables, uid: Id): (r: Tables)
    ensures forall u :: u in r.users <==> u in t.users && u.id != uid
    ensures |r.events| == |t.events|
    ensures forall i :: 0 <= i < |t.events| ==> r.events[i] == ClearHost(t.events[i], uid)
    ensures forall p :: p in r.participants <==> p in t.participants && p.user != Some(uid)
    ensures forall m :: m in r.messages <==> m in t.messages && m.sender != uid
    ensures forall f :: f in r.friendships <==> f in t.friendships && f.fromUser != uid && f.toUser != uid
    ensures r.todos == t.todos && r.themes == t.themes
  {
    t.(users := Filter(t.users, (u: User) => u.id != uid),
       events := ClearHosts(t.events, uid),
       participants := Filter(t.participants, (p: Participant) => p.user != Some(uid)),
       messages := Filter(t.messages, (m: ChatMessage) => m.sender != uid),
       friendships := Filter(t.friendships, (f: Friendship) => f.fromUser != uid && f.toUser != uid))
  }

  /** The cascade removes exactly the deleted key from the user keys. */
  lemma DeleteUserIds(t: Tables, uid: Id)
    ensures UserIds(DeleteUser(t, uid)) == UserIds(t) - {uid}
  {
  }

  /** Deleting a user keeps every event, each with the same key and invite code. */
  lemma DeleteUserKeepsEvents(t: Tables, uid: Id)
    ensures EventIds(DeleteUser(t, uid)) == EventIds(t)
    ensures forall i :: 0 <= i < |t.events| ==>
      DeleteUser(t, uid).events[i].inviteCode == t.events[i].inviteCode
  {
    var r := DeleteUser(t, uid);
    forall id | id in EventIds(t) ensures id in EventIds(r) {
      var e :| e in t.events && e.id == id;
      var i :| 0 <= i < |t.events| && t.events[i] == e;
      assert r.events[i].id == id;
    }
    forall id | id in EventIds(r) ensures id in EventIds(t) {
      var e :| e in r.events && e.id == id;
      var i :| 0 <= i < |r.events| && r.events[i] == e;
      assert t.events[i].id == id;
    }
  }

  /** The events after `SET_NULL` still have distinct keys and distinct invite codes. */
  lemma ClearHostKeepsKeys(events: seq<Event>, uid: Id)
    requires forall a, b :: a in events && b in events && a.id == b.id ==> a == b
    requires UniqueInviteCodes(events)
    ensures var r := ClearHosts(events, uid);
      && (forall a, b :: a in r && b in r && a.id == b.id ==> a == b)
      && UniqueInviteCodes(r)
  {
    var r := ClearHosts(events, uid);
    ClearHostsRows(events, uid);
    forall a, b | a in r && b in r && (a.id == b.id || a.inviteCode == b.inviteCode) ensures a == b {
      var xa :| xa in events && a == ClearHost(xa, uid);
      var xb :| xb in events && b == ClearHost(xb, uid);
    }
  }

  /** `SET_NULL` rewrites rows in place, so the event table stays in key order. */
  lemma ClearHostKeepsOrder(events: seq<Event>, uid: Id)
    requires Ascending(events, EventKey)
    ensures Ascending(ClearHosts(events, uid), EventKey)
  {
    MapAscending(events, (e: Event) => ClearHost(e, uid), EventKey);
  }

  lemma DeleteUserKeepsParticipants(t: Tables, uid: Id)
    requires ParticipantsValid(t)
    ensures ParticipantsValid(DeleteUser(t, uid))
  {
    var r := DeleteUser(t, uid);
    FilterAscending(t.participants, (p: Participant) => p.user != Some(uid), ParticipantKey);
    DeleteUserKeepsEvents(t, uid);
    DeleteUserIds(t, uid);
    FewerRowsKeepOnePerUser(t.participants, r.participants);
  }

  lemma DeleteUserKeepsEventsValid(t: Tables, uid: Id)
    requires EventsValid(t)
    ensures EventsValid(DeleteUser(t, uid))
  {
    var r := DeleteUser(t, uid);
    ClearHostKeepsKeys(t.events, uid);
    ClearHostKeepsOrder(t.events, uid);
    ClearHostsRows(t.events, uid);
    DeleteUserIds(t, uid);
    forall e | e in r.events ensures 0 < e.id < r.nextEvent && (e.host.Some? ==> e.host.value in UserIds(r)) {
      var x :| x in t.events && e == ClearHost(x, uid);
    }
  }

  lemma DeleteUserKeepsUsers(t: Tables, uid: Id)
    requires UsersValid(t)
    ensures UsersValid(DeleteUser(t, uid))
  {
    FilterAscending(t.users, (u: User) => u.id != uid, UserKey);
  }

  lemma DeleteUserKeepsTodos(t: Tables, uid: Id)
    requires TodosValid(t)
    ensures TodosValid(DeleteUser(t, uid))
  {
    DeleteUserKeepsEvents(t, uid);
  }

  lemma DeleteUserKeepsMessages(t: Tables, uid: Id)
    requires MessagesValid(t)
    ensures MessagesValid(DeleteUser(t, uid))
  {
    var r := DeleteUser(t, uid);
    FilterAscending(t.messages, (m: ChatMessage) => m.sender != uid, MessageKey);
    DeleteUserKeepsEvents(t, uid);
    DeleteUserIds(t, uid);
  }

  lemma DeleteUserKeepsFriendships(t: Tables, uid: Id)
    requires FriendshipsValid(t)
    ensures FriendshipsValid(DeleteUser(t, uid))
  {
    var r := DeleteUser(t, uid);
    FilterAscending(t.friendships, (f: Friendship) => f.fromUser != uid && f.toUser != uid, FriendshipKey);
    FewerEdgesKeepGraph(t.friendships, r.friendships);
    DeleteUserIds(t, uid);
  }

  /** Deleting a user, with its cascades and `SET_NULL`, keeps the tables consistent. */
  lemma DeleteUserConsistent(t: Tables, uid: Id)
    requires Consistent(t)
    ensures Consistent(DeleteUser(t, uid))
  {
    DeleteUserKeepsUsers(t, uid);
    DeleteUserKeepsEventsValid(t, uid);
    DeleteUserKeepsParticipants(t, uid);
    DeleteUserKeepsTodos(t, uid);
    DeleteUserKeepsMessages(t, uid);
    DeleteUserKeepsFriendships(t, uid);
  }

  /** One row after `friendship.status = st; friendship.save()` on the row with key `id`. */
  function StatusUpdate(f: Friendship, id: Id, st: FriendStatus): (r: Friendship)
    ensures r.id == f.id && r.fromUser == f.fromUser && r.toUser == f.toUser && r.createdAt == f.createdAt
  {
    if f.id == id then f.(status := st) else f
  }

  /** The friendship table after that save. */
  function SetStatus(fs: seq<Friendship>, id: Id, st: FriendStatus): (r: seq<Friendship>)
    ensures |r| == |fs|
    ensures forall i :: 0 <= i < |fs| ==> r[i] == StatusUpdate(fs[i], id, st)
  {
    Map(fs, (f: Friendship) => StatusUpdate(f, id, st))
  }

  lemma SetStatusRows(fs: seq<Friendship>, id: Id, st: FriendStatus)
    ensures forall f :: f in SetStatus(fs, id, st) ==> exists g :: g in fs && f == StatusUpdate(g, id, st)
  {
    var r := SetStatus(fs, id, st);
    forall f | f in r ensures exists g :: g in fs && f == StatusUpdate(g, id, st) {
      var i :| 0 <= i < |r| && r[i] == f;
      assert fs[i] in fs;
    }
  }

  /** Changing a status keeps keys and pairs unique: both are read from fields the change leaves alone. */
  lemma SetStatusKeepsGraph(fs: seq<Friendship>, id: Id, st: FriendStatus)
    requires forall a, b :: a in fs && b in fs && a.id == b.id ==> a == b
    requires FriendGraphValid(fs)
    ensures var r := SetStatus(fs, id, st);
      && (forall a, b :: a in r && b in r && a.id == b.id ==> a == b)
      && FriendGraphValid(r)
  {
    var r := SetStatus(fs, id, st);
    SetStatusRows(fs, id, st);
    forall a, b | a in r && b in r && (a.id == b.id || SamePair(a, b)) ensures a == b {
      var ga :| ga in fs && a == StatusUpdate(ga, id, st);
      var gb :| gb in fs && b == StatusUpdate(gb, id, st);
      assert a.id == b.id ==> ga == gb;
      assert SamePair(a, b) ==> SamePair(ga, gb);
    }
    forall f | f in r ensures f.fromUser != f.toUser {
      var g :| g in fs && f == StatusUpdate(g, id, st);
    }
  }

  lemma SetStatusKeepsFriendships(t: Tables, id: Id, st: FriendStatus)
    requires FriendshipsValid(t)
    ensures FriendshipsValid(t.(friendships := SetStatus(t.friendships, id, st)))
  {
    var fs := SetStatus(t.friendships, id, st);
    SetStatusRows(t.friendships, id, st);
    SetStatusKeepsGraph(t.friendships, id, st);
    var r := t.(friendships := fs);
    assert UserIds(r) == UserIds(t);
    forall f | f in fs
      ensures f.id < t.nextFriendship
      ensures f.fromUser in UserIds(r) && f.toUser in UserIds(r)
    {
      var g :| g in t.friendships && f == StatusUpdate(g, id, st);
    }
  }

  lemma SetStatusConsistent(t: Tables, id: Id, st: FriendStatus)
    requires Consistent(t)
    ensures Consistent(t.(friendships := SetStatus(t.friendships, id, st)))
  {
    SetStatusKeepsFriendships(t, id, st);
    OnlyFriendshipsChanged(t, t.(friendships := SetStatus(t.friendships, id, st)));
  }

  /** One row after saving the edited event `e` over the row with its key. */
  function EventReplacement(x: Event, e: Event): Event {
    if x.id == e.id then e else x
  }

  /** Saving an edited event over the row with the same key. */
  function ReplaceEvent(events: seq<Event>, e: Event): (r: seq<Event>)
    ensures |r| == |events|
    ensures forall i :: 0 <= i < |events| ==> r[i] == EventReplacement(events[i], e)
  {
    Map(events, (x: Event) => EventReplacement(x, e))
  }

  lemma ReplaceEventRows(events: seq<Event>, e: Event)
    ensures forall y :: y in ReplaceEvent(events, e) ==> exists x :: x in events && y == EventReplacement(x, e)
    ensures forall x :: x in events ==> EventReplacement(x, e) in ReplaceEvent(events, e)
  {
    var r := ReplaceEvent(events, e);
    forall y | y in r ensures exists x :: x in events && y == EventReplacement(x, e) {
      var i :| 0 <= i < |r| && r[i] == y;
      assert events[i] in events;
    }
    forall x | x in events ensures EventReplacement(x, e) in r {
      var i :| 0 <= i < |events| && events[i] == x;
      assert r[i] == EventReplacement(x, e);
    }
  }

  /** Replacing the row `x0` by `e`, which keeps its key and code, keeps keys and codes unique. */
  lemma ReplaceEventKeepsUnique(events: seq<Event>, e: Event, x0: Event)
    requires forall a, b :: a in events && b in events && a.id == b.id ==> a == b
    requires UniqueInviteCodes(events)
    requires x0 in events && x0.id == e.id && x0.inviteCode == e.inviteCode
    ensures var r := ReplaceEvent(events, e);
      && (forall a, b :: a in r && b in r && a.id == b.id ==> a == b)
      && UniqueInviteCodes(r)
  {
    var r := ReplaceEvent(events, e);
    ReplaceEventRows(events, e);
    forall a, b | a in r && b in r && (a.id == b.id || a.inviteCode == b.inviteCode) ensures a == b {
      var xa :| xa in events && a == EventReplacement(xa, e);
      var xb :| xb in events && b == EventReplacement(xb, e);
      assert xa.id == e.id ==> xa == x0;
      assert xb.id == e.id ==> xb == x0;
    }
  }

  lemma ReplaceEventKeepsEvents(t: Tables, e: Event)
    requires EventsValid(t)
    requires exists x :: x in t.events && x.id == e.id && x.inviteCode == e.inviteCode && x.host == e.host
    ensures EventsValid(t.(events := ReplaceEvent(t.events, e)))
  {
    var es := ReplaceEvent(t.events, e);
    var x0 :| x0 in t.events && x0.id == e.id && x0.inviteCode == e.inviteCode && x0.host == e.host;
    ReplaceEventRows(t.events, e);
    ReplaceEventKeepsUnique(t.events, e, x0);
    MapAscending(t.events, (x: Event) => EventReplacement(x, e), EventKey);
    var r := t.(events := es);
    assert UserIds(r) == UserIds(t);
    forall y | y in es ensures 0 < y.id < t.nextEvent && (y.host.Some? ==> y.host.value in UserIds(r)) {
      var x :| x in t.events && y == EventReplacement(x, e);
      assert x.id == e.id ==> x == x0;
    }
  }

  lemma ReplaceEventKeepsEventIds(t: Tables, e: Event)
    requires exists x :: x in t.events && x.id == e.id
    ensures EventIds(t.(events := ReplaceEvent(t.events, e))) == EventIds(t)
  {
    var es := ReplaceEvent(t.events, e);
    ReplaceEventRows(t.events, e);
    var r := t.(events := es);
    assert EventIds(r) == EventIds(t) by {
      forall id | id in EventIds(t) ensures id in EventIds(r) {
        var x :| x in t.events && x.id == id;
        assert EventReplacement(x, e) in es;
      }
      forall id | id in EventIds(r) ensures id in EventIds(t) {
        var y :| y in es && y.id == id;
        var x :| x in t.events && y == EventReplacement(x, e);
      }
    }
  }

  /** An edit that keeps the key, the invite code and the host keeps the tables consistent. */
  lemma ReplaceEventConsistent(t: Tables, e: Event)
    requires Consistent(t)
    requires exists x :: x in t.events && x.id == e.id && x.inviteCode == e.inviteCode && x.host == e.host
    ensures Consistent(t.(events := ReplaceEvent(t.events, e)))
  {
    ReplaceEventKeepsEvents(t, e);
    ReplaceEventKeepsEventIds(t, e);
    var r := t.(events := ReplaceEvent(t.events, e));
    assert UserIds(r) == UserIds(t);
    assert UsersValid(r) && ParticipantsValid(r);
    assert TodosValid(r) && MessagesValid(r) && FriendshipsValid(r);
  }
}
