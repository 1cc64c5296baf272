/**
 * The database every handler shares, standing in for the ORM: `objects.create`,
 * `save()` and `delete()` on the tables of `Models`. Each insert takes the
 * table's next key; the database-level constraints (unique columns, foreign
 * keys) surface as `None`, Django's IntegrityError.
 */
module Store {

  import opened Optional
  import opened Seqs
  import opened Models
  import Uuids

  /** ASCII lower-casing (Python's `str.lower` on ASCII text). */
  function Lower(s: string): (r: string)
    ensures |r| == |s|
    ensures forall i :: 0 <= i < |s| ==> r[i] == if 'A' <= s[i] <= 'Z' then (s[i] as int + 32) as char else s[i]
  {
    if s == [] then []
    else [if 'A' <= s[0] <= 'Z' then (s[0] as int + 32) as char else s[0]] + Lower(s[1..])
  }

  /** Index of the last '@' in `s`, if any. */
  function LastAt(s: string): (r: Option<nat>)
    ensures r.Some? ==> r.value < |s| && s[r.value] == '@' && forall i :: r.value < i < |s| ==> s[i] != '@'
    ensures r.None? ==> forall i :: 0 <= i < |s| ==> s[i] != '@'
  {
    if s == [] then None
    else if s[|s| - 1] == '@' then Some(|s| - 1)
    else LastAt(s[..|s| - 1])
  }

  /** `normalize_email`: the domain after the last '@' lower-cased, the local part kept. */
  function NormalizeEmail(email: string): (r: string)
    ensures |r| == |email|
    ensures LastAt(email).None? ==> r == email
    ensures LastAt(email).Some? ==> r[..LastAt(email).value + 1] == email[..LastAt(email).value + 1]
    ensures LastAt(email).Some? ==> r[LastAt(email).value + 1..] == Lower(email[LastAt(email).value + 1..])
  {
    match LastAt(email)
    case None => email
    case Some(k) => email[..k] + "@" + Lower(email[k + 1..])
  }

  /** Lower-casing twice is lower-casing once. */
  lemma LowerIdempotent(s: string)
    ensures Lower(Lower(s)) == Lower(s)
  {
    var once := Lower(s);
    var twice := Lower(once);
    forall i | 0 <= i < |s| ensures twice[i] == once[i] {
      assert once[i] == if 'A' <= s[i] <= 'Z' then (s[i] as int + 32) as char else s[i];
    }
  }

  /** A normalized email is its own normal form: the last '@' stays where it was. */
  lemma NormalizeEmailIdempotent(email: string)
    ensures NormalizeEmail(NormalizeEmail(email)) == NormalizeEmail(email)
  {
    var r := NormalizeEmail(email);
    if LastAt(email).Some? {
      var k := LastAt(email).value;
      var rest := email[k + 1..];
      assert r[k + 1..] == Lower(rest);
      assert r[k] == email[k] by { assert r[..k + 1][k] == email[..k + 1][k]; }
      forall i | k < i < |r| ensures r[i] != '@' {
        assert r[i] == r[k + 1..][i - k - 1];
      }
      LastAtOf(r, k);
      LowerIdempotent(rest);
      var n := NormalizeEmail(r);
      assert n[..k + 1] == r[..k + 1];
      assert n[k + 1..] == r[k + 1..];
      assert n == n[..k + 1] + n[k + 1..];
    }
  }

  /** `LastAt` finds an '@' with none after it. */
  lemma LastAtOf(s: string, k: nat)
    requires k < |s| && s[k] == '@' && forall i :: k < i < |s| ==> s[i] != '@'
    ensures LastAt(s) == Some(k)
  {
  }

  /** The tables after `u` is saved as the next user row. */
  function WithUser(t: Tables, u: User): Tables {
    t.(users := t.users + [u], nextUser := t.nextUser + 1)
  }

  /** The tables after `e` is saved as the next event row. */
  function WithEvent(t: Tables, e: Event): Tables {
    t.(events := t.events + [e], nextEvent := t.nextEvent + 1)
  }

  /** The tables after `p` is saved as the next participant row. */
  function WithParticipant(t: Tables, p: Participant): Tables {
    t.(participants := t.participants + [p], nextParticipant := t.nextParticipant + 1)
  }

  /** The tables after `m` is saved as the next chat message row. */
  function WithMessage(t: Tables, m: ChatMessage): Tables {
    t.(messages := t.messages + [m], nextMessage := t.nextMessage + 1)
  }

  /** The tables after `f` is saved as the next friendship row. */
  function WithFriendship(t: Tables, f: Friendship): Tables {
    t.(friendships := t.friendships + [f], nextFriendship := t.nextFriendship + 1)
  }

  lemma AddUserKeepsUsers(t: Tables, u: User)
    requires UsersValid(t)
    requires u.id == t.nextUser
    requires forall x :: x in t.users ==> x.username != u.username
    ensures UsersValid(WithUser(t, u))
  {
    AppendAscending(t.users, u, UserKey);
  }

  /** A new user row leaves the other tables valid: their user keys only gain a target. */
  lemma AddUserKeepsOthers(t: Tables, u: User)
    requires EventsValid(t) && ParticipantsValid(t) && TodosValid(t) && MessagesValid(t) && FriendshipsValid(t)
    ensures var r := WithUser(t, u);
      EventsValid(r) && ParticipantsValid(r) && TodosValid(r) && MessagesValid(r) && FriendshipsValid(r)
  {
    var r := WithUser(t, u);
    assert UserIds(r) == UserIds(t) + {u.id};
    assert EventIds(r) == EventIds(t);
  }

  lemma AddUserConsistent(t: Tables, u: User)
    requires Consistent(t)
    requires u.id == t.nextUser
    requires forall x :: x in t.users ==> x.username != u.username
    ensures Consistent(WithUser(t, u))
  {
    AddUserKeepsUsers(t, u);
    AddUserKeepsOthers(t, u);
  }


  /** A new event row leaves the tables other than the event table valid: their keys only gain a target. */
  lemma AddEventKeepsOthers(t: Tables, e: Event)
    requires UsersValid(t) && ParticipantsValid(t) && TodosValid(t) && MessagesValid(t) && FriendshipsValid(t)
    ensures var r := WithEvent(t, e);
      UsersValid(r) && ParticipantsValid(r) && TodosValid(r) && MessagesValid(r) && FriendshipsValid(r)
  {
    var r := WithEvent(t, e);
    assert EventIds(t) <= EventIds(r);
    assert UserIds(r) == UserIds(t);
  }

  lemma AddEventKeepsEvents(t: Tables, e: Event)
    requires EventsValid(t)
    requires e.id == t.nextEvent
    requires e.host.Some? ==> e.host.value in UserIds(t)
    requires forall x :: x in t.events ==> x.inviteCode != e.inviteCode
    ensures EventsValid(WithEvent(t, e))
  {
    var r := WithEvent(t, e);
    AppendAscending(t.events, e, EventKey);
    assert UserIds(r) == UserIds(t);
  }

  lemma AddEventConsistent(t: Tables, e: Event)
    requires Consistent(t)
    requires e.id == t.nextEvent
    requires e.host.Some? ==> e.host.value in UserIds(t)
    requires forall x :: x in t.events ==> x.inviteCode != e.inviteCode
    ensures Consistent(WithEvent(t, e))
  {
    AddEventKeepsOthers(t, e);
    AddEventKeepsEvents(t, e);
  }

  lemma AddParticipantKeepsParticipants(t: Tables, p: Participant)
    requires ParticipantsValid(t)
    requires p.id == t.nextParticipant
    requires p.event in EventIds(t)
    requires p.user.Some? ==> p.user.value in UserIds(t)
    requires p.user.Some? ==> forall q :: q in t.participants ==> !(q.event == p.event && q.user == p.user)
    ensures ParticipantsValid(WithParticipant(t, p))
  {
    var r := WithParticipant(t, p);
    AppendAscending(t.participants, p, ParticipantKey);
    AppendKeepsOnePerUser(t.participants, p);
    assert UserIds(r) == UserIds(t) && EventIds(r) == EventIds(t);
  }

  lemma AddParticipantConsistent(t: Tables, p: Participant)
    requires Consistent(t)
    requires p.id == t.nextParticipant
    requires p.event in EventIds(t)
    requires p.user.Some? ==> p.user.value in UserIds(t)
    requires p.user.Some? ==> forall q :: q in t.participants ==> !(q.event == p.event && q.user == p.user)
    ensures Consistent(WithParticipant(t, p))
  {
    var r := WithParticipant(t, p);
    AddParticipantKeepsParticipants(t, p);
    assert UserIds(r) == UserIds(t) && EventIds(r) == EventIds(t);
  }

  lemma AddMessageKeepsMessages(t: Tables, m: ChatMessage)
    requires MessagesValid(t)
    requires m.id == t.nextMessage
    requires m.event in EventIds(t) && m.sender in UserIds(t)
    ensures MessagesValid(WithMessage(t, m))
  {
    var r := WithMessage(t, m);
    AppendAscending(t.messages, m, MessageKey);
    assert UserIds(r) == UserIds(t) && EventIds(r) == EventIds(t);
  }

  lemma AddMessageConsistent(t: Tables, m: ChatMessage)
    requires Consistent(t)
    requires m.id == t.nextMessage
    requires m.event in EventIds(t) && m.sender in UserIds(t)
    ensures Consistent(WithMessage(t, m))
  {
    var r := WithMessage(t, m);
    AddMessageKeepsMessages(t, m);
    assert UserIds(r) == UserIds(t) && EventIds(r) == EventIds(t);
  }

  lemma AddFriendshipKeepsFriendships(t: Tables, f: Friendship)
    requires FriendshipsValid(t)
    requires f.id == t.nextFriendship
    requires f.fromUser in UserIds(t) && f.toUser in UserIds(t) && f.fromUser != f.toUser
    requires forall g :: g in t.friendships ==> !SamePair(f, g)
    ensures FriendshipsValid(WithFriendship(t, f))
  {
    var r := WithFriendship(t, f);
    AppendAscending(t.friendships, f, FriendshipKey);
    AppendKeepsGraph(t.friendships, f);
    assert UserIds(r) == UserIds(t);
  }

  lemma AddFriendshipConsistent(t: Tables, f: Friendship)
    requires Consistent(t)
    requires f.id == t.nextFriendship
    requires f.fromUser in UserIds(t) && f.toUser in UserIds(t) && f.fromUser != f.toUser
    requires forall g :: g in t.friendships ==> !SamePair(f, g)
    ensures Consistent(WithFriendship(t, f))
  {
    OnlyFriendshipsChanged(t, WithFriendship(t, f));
    AddFriendshipKeepsFriendships(t, f);
  }

  /** The database: one `Tables` value that every operation replaces as a whole. */
  class Database {
    var t: Tables

    predicate Valid()
      reads this
    {
      Consistent(t)
    }

    /** An empty database holding only the fixed theme rows. */
    constructor (themes: seq<Theme>)
      ensures Valid()
      ensures t == Tables([], [], [], [], [], [], themes, 1, 1, 1, 1, 1, 1)
    {
      t := Tables([], [], [], [], [], [], themes, 1, 1, 1, 1, 1, 1);
    }

    /** `User.objects.create_user(username, email, password, first_name=...)`. */
    method CreateUser(username: string, email: string, firstName: string, password: string) returns (u: Option<User>)
      requires Valid()
      modifies this
      ensures Valid()
      ensures (exists x :: x in old(t).users && x.username == username) ==> u.None? && t == old(t)
      ensures (forall x :: x in old(t).users ==> x.username != username) ==>
        && u == Some(User(old(t).nextUser, username, NormalizeEmail(email), firstName, Hashed(password)))
        && t == WithUser(old(t), u.value)
    {
      if exists x :: x in t.users && x.username == username {
        u := None;
      } else {
        var row := User(t.nextUser, username, NormalizeEmail(email), firstName, Hashed(password));
        AddUserConsistent(t, row);
        t := WithUser(t, row);
        u := Some(row);
      }
    }

    /** `Event.objects.create(...)` with a freshly generated invite code. */
    method CreateEvent(f: EventFields, host: Option<Id>, code: Uuids.Uuid) returns (e: Option<Event>)
      requires Valid()
      requires host.Some? ==> host.value in UserIds(t)
      modifies this
      ensures Valid()
      ensures e.Some? ==> e.value in t.events && forall q :: q in t.participants ==> q.event != e.value.id
      ensures CodeTaken(old(t), code) ==> e.None? && t == old(t)
      ensures !CodeTaken(old(t), code) ==>
        && e == Some(NewEvent(old(t).nextEvent, f, host, code))
        && t == WithEvent(old(t), e.value)
    {
      if CodeTaken(t, code) {
        e := None;
      } else {
        var row := NewEvent(t.nextEvent, f, host, code);
        var r := WithEvent(t, row);
        AddEventConsistent(t, row);
        NoParticipantsOfNextEvent(t);
        t := r;
        e := Some(row);
      }
    }

    /** `Participant.objects.create(event=..., user=..., name=...)`, stamped `now`. */
    method CreateParticipant(event: Id, user: Option<Id>, name: string, now: int) returns (p: Participant)
      requires Valid()
      requires event in EventIds(t)
      requires user.Some? ==> user.value in UserIds(t)
      requires user.Some? ==> forall q :: q in t.participants ==> !(q.event == event && q.user == user)
      modifies this
      ensures Valid()
      ensures p == Participant(old(t).nextParticipant, event, user, name, now)
      ensures t == WithParticipant(old(t), p)
    {
      p := Participant(t.nextParticipant, event, user, name, now);
      AddParticipantConsistent(t, p);
      t := WithParticipant(t, p);
    }

    /** `ChatMessage.objects.create(event_id=..., sender_id=..., message=...)`, stamped `now`;
        `None` when either key names no row (a foreign-key IntegrityError). */
    method CreateMessage(event: int, sender: int, text: string, now: int) returns (m: Option<ChatMessage>)
      requires Valid()
      modifies this
      ensures Valid()
      ensures !(event in EventIds(old(t)) && sender in UserIds(old(t))) ==> m.None? && t == old(t)
      ensures event in EventIds(old(t)) && sender in UserIds(old(t)) ==>
        && m == Some(ChatMessage(old(t).nextMessage, event, sender, text, now))
        && t == WithMessage(old(t), m.value)
    {
      if event in EventIds(t) && sender in UserIds(t) {
        var row := ChatMessage(t.nextMessage, event, sender, text, now);
        AddMessageConsistent(t, row);
        t := WithMessage(t, row);
        m := Some(row);
      } else {
        m := None;
      }
    }

    /** `Friendship.objects.create(from_user=..., to_user=..., status='pending')`, stamped `now`. */
    method CreateFriendship(from: Id, to: Id, now: int) returns (f: Friendship)
      requires Valid()
      requires from in UserIds(t) && to in UserIds(t) && from != to
      requires forall g :: g in t.friendships ==> !SamePair(Friendship(0, from, to, 0, Pending), g)
      modifies this
      ensures Valid()
      ensures f == Friendship(old(t).nextFriendship, from, to, now, Pending)
      ensures t == WithFriendship(old(t), f)
    {
      f := Friendship(t.nextFriendship, from, to, now, Pending);
      AddFriendshipConsistent(t, f);
      t := WithFriendship(t, f);
    }

    /** `friendship.status = st; friendship.save()`. */
    method SaveFriendshipStatus(id: Id, st: FriendStatus)
      requires Valid()
      modifies this
      ensures Valid()
      ensures t == old(t).(friendships := SetStatus(old(t).friendships, id, st))
    {
      SetStatusConsistent(t, id, st);
      t := t.(friendships := SetStatus(t.friendships, id, st));
    }

    /** `event.save()` after an edit that kept its key, invite code and host. */
    method SaveEvent(e: Event)
      requires Valid()
      requires exists x :: x in t.events && x.id == e.id && x.inviteCode == e.inviteCode && x.host == e.host
      modifies this
      ensures Valid()
      ensures t == old(t).(events := ReplaceEvent(old(t).events, e))
    {
      ReplaceEventConsistent(t, e);
      t := t.(events := ReplaceEvent(t.events, e));
    }

    /** `event.delete()`, with its cascades. */
    method DeleteEvent(id: Id)
      requires Valid()
      modifies this
      ensures Valid()
      ensures t == Models.DeleteEvent(old(t), id)
    {
      DeleteEventConsistent(t, id);
      t := Models.DeleteEvent(t, id);
    }
  }
}
