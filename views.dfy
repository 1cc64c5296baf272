/**
 * The REST handlers of the party app: the event view set (host-only edit and
 * delete, creation with the creator enrolled, lookup by invite code, the
 * "joined" list), joining an event, and the friendship state machine.
 *
 * Each handler is specified by a pure step `...Step(t, ...)` from the tables
 * before the request to the response and the tables after it; the view-set
 * methods perform the same handler statement by statement against the
 * `Database` and are proved to agree with their step.
 */
module Views {

  import opened Optional
  import opened Seqs
  import opened Values
  import opened Models
  import opened Serializers
  import Uuids
  import Store

  /** Who sends a request: `request.user`. */
  datatype Actor = Anonymous | Authenticated(user: User)

  /** The requesting user, when authenticated, is a row of the user table. */
  predicate Known(t: Tables, a: Actor) {
    a.Authenticated? ==> a.user in t.users
  }

  const OK: int := 200
  const CREATED: int := 201
  const NO_CONTENT: int := 204
  const BAD_REQUEST: int := 400
  const UNAUTHORIZED: int := 401
  const FORBIDDEN: int := 403
  const NOT_FOUND: int := 404
  const SERVER_ERROR: int := 500

  datatype Body =
    | Empty
    | Error(text: string)            // {'error': text}
    | Message(text: string)          // {'message': text}
    | Invalid                        // the serializer's field errors
    | Detail                         // the framework's own 401/404 detail
    | Crash                          // an uncaught exception
    | EventBody(view: EventView)
    | EventsBody(views: seq<EventView>)
    | ParticipantBody(participant: Participant)
    | FriendshipBody(friendship: Friendship, fromUser: UserData, toUser: UserData)

  datatype Response = Response(status: int, body: Body)

  /** A handled request: what the client gets back and the tables left behind. */
  datatype Step = Step(response: Response, after: Tables)

  // ------------------------------------------------------------- lookups

  function EventWithId(id: int): Event -> bool {
    (e: Event) => e.id == id
  }

  function EventWithCode(code: Uuids.Uuid): Event -> bool {
    (e: Event) => e.inviteCode == code
  }

  /** `get_object()` on the event list: the event with key `pk`. */
  function FindEvent(t: Tables, pk: int): (r: Option<Event>)
    ensures r.Some? ==> r.value in t.events && r.value.id == pk
    ensures r.None? <==> forall e :: e in t.events ==> e.id != pk
  {
    First(t.events, EventWithId(pk))
  }

  /** Later rows do not change which existing event a key names. */
  lemma FindEventUnique(t: Tables, e: Event)
    requires EventsValid(t) && e in t.events
    ensures FindEvent(t, e.id) == Some(e)
  {
    assert EventWithId(e.id)(e);
  }

  // ------------------------------------------------ EventViewSet: queries

  function NegDate(e: Event): int {
    -e.date
  }

  /** `get_queryset`: every event, latest date first. */
  function EventList(t: Tables): (r: seq<Event>)
    ensures multiset(r) == multiset(t.events)
    ensures forall i, j :: 0 <= i < j < |r| ==> r[i].date >= r[j].date
  {
    var r := SortBy(t.events, NegDate);
    assert forall i, j :: 0 <= i < j < |r| ==> NegDate(r[i]) <= NegDate(r[j]);
    r
  }

  /** `order_by('-date')`: the same events, latest date first. */
  function LatestFirst(s: seq<Event>): (r: seq<Event>)
    ensures multiset(r) == multiset(s)
    ensures forall e :: e in r <==> e in s
    ensures forall i, j :: 0 <= i < j < |r| ==> r[i].date >= r[j].date
  {
    SortByMembers(s, NegDate);
    var r := SortBy(s, NegDate);
    assert forall i, j :: 0 <= i < j < |r| ==> NegDate(r[i]) <= NegDate(r[j]);
    r
  }

  /** The user has a participant row in the event. */
  predicate HasJoined(t: Tables, event: Id, uid: Id) {
    exists p :: p in t.participants && p.event == event && p.user == Some(uid)
  }

  /** The participant rows of a user. */
  function RowOfUser(uid: Id): Participant -> bool {
    (p: Participant) => p.user == Some(uid)
  }

  /** The participant rows in an event. */
  function RowInEvent(event: Id): Participant -> bool {
    (p: Participant) => p.event == event
  }

  /**
   * The inner join of participant rows with the event table: for each row, in
   * order, the stored event it points at. The query has no `.distinct()`, so
   * an event comes once per row.
   */
  function JoinRows(events: seq<Event>, rows: seq<Participant>): (r: seq<Event>)
    ensures forall e :: e in r ==> e in events && exists p :: p in rows && p.event == e.id
    ensures forall p, e :: p in rows && e in events && e.id == p.event ==> e in r
  {
    if rows == [] then []
    else
      assert forall p :: p in rows[1..] ==> p in rows;
      assert forall p :: p in rows ==> p == rows[0] || p in rows[1..];
      Filter(events, EventWithId(rows[0].event)) + JoinRows(events, rows[1..])
  }

  /** An event is in the join of a user's rows exactly when it is stored and the user joined it. */
  lemma JoinRowsOfUser(t: Tables, uid: Id)
    ensures var r := JoinRows(t.events, Filter(t.participants, RowOfUser(uid)));
      forall e :: e in r <==> e in t.events && HasJoined(t, e.id, uid)
  {
    var rows := Filter(t.participants, RowOfUser(uid));
    forall e | e in t.events && HasJoined(t, e.id, uid)
      ensures e in JoinRows(t.events, rows)
    {
      var p :| p in t.participants && p.event == e.id && p.user == Some(uid);
      assert p in rows;
    }
  }

  /** `Event.objects.filter(participant__user=user).order_by('-date')`: the join, latest date first. */
  function JoinedEvents(t: Tables, uid: Id): (r: seq<Event>)
    ensures forall e :: e in r <==> e in t.events && HasJoined(t, e.id, uid)
    ensures forall i, j :: 0 <= i < j < |r| ==> r[i].date >= r[j].date
    ensures multiset(r) == multiset(JoinRows(t.events, Filter(t.participants, RowOfUser(uid))))
  {
    JoinRowsOfUser(t, uid);
    LatestFirst(JoinRows(t.events, Filter(t.participants, RowOfUser(uid))))
  }

  /** Over a table with unique keys, the join lists a stored event once per row that points at it. */
  lemma {:induction false} JoinRowsMultiplicity(events: seq<Event>, rows: seq<Participant>, e: Event)
    requires Ascending(events, EventKey) && e in events
    ensures multiset(JoinRows(events, rows))[e] == |Filter(rows, RowInEvent(e.id))|
  {
    if rows != [] {
      var head := Filter(events, EventWithId(rows[0].event));
      JoinRowsMultiplicity(events, rows[1..], e);
      assert JoinRows(events, rows) == head + JoinRows(events, rows[1..]);
      if e.id == rows[0].event {
        FilterAscending(events, EventWithId(rows[0].event), EventKey);
        AscendingDistinct(head, EventKey);
        DistinctMultiplicity(head, e);
        assert e in head;
      } else {
        assert e !in head;
      }
    }
  }

  /** `joined` lists each stored event once per participant row the user has in it. */
  lemma JoinedEventsPerRow(t: Tables, uid: Id, e: Event)
    requires EventsValid(t) && e in t.events
    ensures multiset(JoinedEvents(t, uid))[e]
              == |Filter(Filter(t.participants, RowOfUser(uid)), RowInEvent(e.id))|
  {
    JoinRowsMultiplicity(t.events, Filter(t.participants, RowOfUser(uid)), e);
  }

  /** In a valid participant table a user has at most one row per event. */
  lemma AtMostOneRow(t: Tables, uid: Id, event: Id)
    requires ParticipantsValid(t)
    ensures |Filter(Filter(t.participants, RowOfUser(uid)), RowInEvent(event))| <= 1
  {
    var rows := Filter(t.participants, RowOfUser(uid));
    var s := Filter(rows, RowInEvent(event));
    FilterAscending(t.participants, RowOfUser(uid), ParticipantKey);
    FilterAscending(rows, RowInEvent(event), ParticipantKey);
    assert forall a, b :: a in s && b in s ==> a == b by {
      assert OneParticipantPerUser(t.participants);
    }
    AscendingFirstTwo(s, ParticipantKey);
  }

  /** In a consistent database, where a user has one row per event, `joined` lists each event once. */
  lemma JoinedEventsDistinct(t: Tables, uid: Id)
    requires EventsValid(t) && ParticipantsValid(t)
    ensures Distinct(JoinedEvents(t, uid))
  {
    var r := JoinedEvents(t, uid);
    forall x | x in r ensures multiset(r)[x] <= 1 {
      JoinedEventsPerRow(t, uid, x);
      AtMostOneRow(t, uid, x.id);
    }
    MultiplicityDistinct(r);
  }

  /** Two rows of the user in one event list that event twice: the query does not deduplicate. */
  lemma JoinedEventsRepeat(t: Tables, uid: Id, e: Event, p: Participant, q: Participant)
    requires t.events == [e] && t.participants == [p, q]
    requires p.event == e.id && q.event == e.id && p.user == Some(uid) && q.user == Some(uid)
    ensures JoinedEvents(t, uid) == [e, e]
  {
    var rows := Filter(t.participants, RowOfUser(uid));
    assert t.participants[1..] == [q] && [q][1..] == [];
    assert Filter([q], RowOfUser(uid)) == [q];
    assert rows == [p, q];
    assert Filter([e], EventWithId(e.id)) == [e];
    assert JoinRows(t.events, [q]) == [e];
    assert JoinRows(t.events, rows) == [e, e];
    var r := JoinedEvents(t, uid);
    assert multiset(r) == multiset([e, e]);
    assert r[0] in multiset(r) && r[1] in multiset(r);
  }

  /** `joined`: 401 for an anonymous caller, otherwise the events the caller joined. */
  function Joined(t: Tables, a: Actor, origin: string): (r: Response)
    ensures r.status == UNAUTHORIZED <==> a.Anonymous?
    ensures r.status == OK ==> r.body.EventsBody? && |r.body.views| == |JoinedEvents(t, a.user.id)|
    ensures r.status == OK ==> forall v :: v in r.body.views ==> v.event in t.events && HasJoined(t, v.event.id, a.user.id)
    ensures a.Authenticated? ==>
      && r.status == OK && r.body.EventsBody?
      && var es := JoinedEvents(t, a.user.id);
      && |r.body.views| == |es|
      && forall i :: 0 <= i < |es| ==> r.body.views[i] == Serialize(t, es[i], Some(origin))
  {
    match a
    case Anonymous => Response(UNAUTHORIZED, Error("Authentication required."))
    case Authenticated(u) =>
      var es := JoinedEvents(t, u.id);
      var vs := SerializeAll(t, es, Some(origin));
      assert forall v :: v in vs ==> v.event in es by {
        forall v | v in vs ensures v.event in es {
          var i :| 0 <= i < |vs| && vs[i] == v;
        }
      }
      Response(OK, EventsBody(vs))
  }

  /** The paths the router sends to `retrieve_by_invite_code`: one non-empty segment without '/' or '.'. */
  predicate InviteRoute(code: string) {
    |code| > 0 && '/' !in code && '.' !in code
  }

  /**
   * `retrieve_by_invite_code`: a text that is not a UUID fails the column's
   * conversion (an uncaught ValidationError); a UUID no event carries is 404.
   */
  function RetrieveByInviteCode(t: Tables, code: string, origin: string): (r: Response)
    requires InviteRoute(code)
    ensures Uuids.Parse(code).None? <==> r.status == SERVER_ERROR
    ensures r.status == NOT_FOUND <==>
      Uuids.Parse(code).Some? && forall e :: e in t.events ==> e.inviteCode != Uuids.Parse(code).value
    ensures r.status == OK ==>
      r.body.EventBody? && r.body.view.event in t.events && Uuids.Parse(code) == Some(r.body.view.event.inviteCode)
    ensures r.status in {OK, NOT_FOUND, SERVER_ERROR}
  {
    match Uuids.Parse(code)
    case None => Response(SERVER_ERROR, Crash)
    case Some(u) =>
      match First(t.events, EventWithCode(u))
      case None => Response(NOT_FOUND, Empty)
      case Some(e) => Response(OK, EventBody(Serialize(t, e, Some(origin))))
  }

  /** Following an event's invite code, in its canonical text, finds exactly that event. */
  lemma InviteCodeFindsEvent(t: Tables, e: Event, origin: string)
    requires EventsValid(t) && e in t.events
    ensures InviteRoute(Uuids.Format(e.inviteCode))
    ensures RetrieveByInviteCode(t, Uuids.Format(e.inviteCode), origin)
      == Response(OK, EventBody(Serialize(t, e, Some(origin))))
  {
    Uuids.FormatPathSafe(e.inviteCode);
    Uuids.ParseFormat(e.inviteCode);
    assert EventWithCode(e.inviteCode)(e);
  }

  // ---------------------------------------------- EventViewSet: host check

  /** `check_host_permission`: signed in, and the event has no host or the caller is its host. */
  function CheckHostPermission(a: Actor, e: Event): (ok: bool)
    ensures ok <==> a.Authenticated? && (e.host.None? || e.host == Some(a.user.id))
  {
    if !a.Authenticated? then false
    else if e.host.Some? && e.host != Some(a.user.id) then false
    else true
  }

  /** `update`: 404 for an unknown key, 403 unless the host check passes, 400 when a full
      write lacks a required field, otherwise the edit is saved. */
  function UpdateStep(t: Tables, a: Actor, pk: int, input: EventInput, partial: bool, origin: string): (s: Step)
    ensures s.response.status != OK ==> s.after == t
    ensures s.response.status == NOT_FOUND <==> FindEvent(t, pk).None?
    ensures s.response.status == FORBIDDEN <==> FindEvent(t, pk).Some? && !CheckHostPermission(a, FindEvent(t, pk).value)
    ensures s.response.status == BAD_REQUEST <==>
      FindEvent(t, pk).Some? && CheckHostPermission(a, FindEvent(t, pk).value) && !Acceptable(input, partial)
    ensures s.response.status == OK <==>
      FindEvent(t, pk).Some? && CheckHostPermission(a, FindEvent(t, pk).value) && Acceptable(input, partial)
    ensures s.response.status == OK ==>
      && s.after == t.(events := ReplaceEvent(t.events, ApplyUpdate(FindEvent(t, pk).value, input)))
      && s.response.body == EventBody(Serialize(s.after, ApplyUpdate(FindEvent(t, pk).value, input), Some(origin)))
    ensures s.response.status in {OK, BAD_REQUEST, FORBIDDEN, NOT_FOUND}
  {
    match FindEvent(t, pk)
    case None => Step(Response(NOT_FOUND, Detail), t)
    case Some(e) =>
      if !CheckHostPermission(a, e) then Step(Response(FORBIDDEN, Error("Only host can edit this party.")), t)
      else if !Acceptable(input, partial) then Step(Response(BAD_REQUEST, Invalid), t)
      else
        var edited := ApplyUpdate(e, input);
        var after := t.(events := ReplaceEvent(t.events, edited));
        Step(Response(OK, EventBody(Serialize(after, edited, Some(origin)))), after)
  }

  /** `destroy`: 404, then 403 as for an edit; otherwise the event and everything hanging off it go. */
  function DestroyStep(t: Tables, a: Actor, pk: int): (s: Step)
    ensures s.response.status != NO_CONTENT ==> s.after == t
    ensures s.response.status == NOT_FOUND <==> FindEvent(t, pk).None?
    ensures s.response.status == FORBIDDEN <==> FindEvent(t, pk).Some? && !CheckHostPermission(a, FindEvent(t, pk).value)
    ensures s.response.status == NO_CONTENT ==>
      FindEvent(t, pk).Some? && CheckHostPermission(a, FindEvent(t, pk).value) && s.after == DeleteEvent(t, pk)
    ensures s.response.status in {NO_CONTENT, FORBIDDEN, NOT_FOUND}
  {
    match FindEvent(t, pk)
    case None => Step(Response(NOT_FOUND, Detail), t)
    case Some(e) =>
      if !CheckHostPermission(a, e) then Step(Response(FORBIDDEN, Error("Only host can delete this party.")), t)
      else Step(Response(NO_CONTENT, Empty), DeleteEvent(t, pk))
  }

  /** The host edits their own event: the edit is saved in place and sent back, members and all. */
  lemma HostEditsOwnEvent(t: Tables, u: User, e: Event, input: EventInput, partial: bool, origin: string)
    requires EventsValid(t) && e in t.events && e.host == Some(u.id)
    requires Acceptable(input, partial)
    ensures var s := UpdateStep(t, Authenticated(u), e.id, input, partial, origin);
      && s.response.status == OK
      && ApplyUpdate(e, input) in s.after.events
      && (forall x :: x in t.events && x.id != e.id ==> x in s.after.events)
      && (forall x :: x in s.after.events && x.id == e.id ==> x == ApplyUpdate(e, input))
      && s.response.body.EventBody? && s.response.body.view.event == ApplyUpdate(e, input)
      && (forall p :: p in s.response.body.view.members <==> p in t.participants && p.event == e.id)
  {
    FindEventUnique(t, e);
    ReplaceEventRows(t.events, ApplyUpdate(e, input));
  }

  /** Blank text in name, theme or host name is a 400 for an edit and for a create alike. */
  lemma BlankTextRefused(t: Tables, a: Actor, pk: int, input: EventInput, partial: bool, code: Uuids.Uuid, now: int, origin: string)
    requires input.name == Some("") || input.theme == Some("") || input.hostName == Some("")
    ensures var s := UpdateStep(t, a, pk, input, partial, origin);
      s.response.status in {BAD_REQUEST, FORBIDDEN, NOT_FOUND} && s.after == t
    ensures CreateStep(t, a, input, code, now, origin) == Step(Response(BAD_REQUEST, Invalid), t)
  {
  }

  /** The host check is all that stands between an authenticated caller and a host-less event. */
  lemma HostlessEventEditable(t: Tables, a: Actor, pk: int, input: EventInput, partial: bool, origin: string)
    requires a.Authenticated? && FindEvent(t, pk).Some? && FindEvent(t, pk).value.host.None?
    requires Acceptable(input, partial)
    ensures UpdateStep(t, a, pk, input, partial, origin).response.status == OK
    ensures DestroyStep(t, a, pk).response.status == NO_CONTENT
  {
  }

  // ------------------------------------------------- EventViewSet: create

  /** The name `perform_create` records as host: the username, or "Guest". */
  function HostName(a: Actor): (n: string)
    ensures a.Anonymous? ==> n == "Guest"
    ensures a.Authenticated? ==> n == a.user.username
  {
    match a
    case Anonymous => "Guest"
    case Authenticated(u) => u.username
  }

  function HostOf(a: Actor): (h: Option<Id>)
    ensures a.Anonymous? <==> h.None?
    ensures a.Authenticated? ==> h == Some(a.user.id)
  {
    match a
    case Anonymous => None
    case Authenticated(u) => Some(u.id)
  }

  /** The participant rows `perform_create` adds: the creator, when signed in. */
  function CreatorRows(a: Actor, event: Id, id: Id, now: int): (ps: seq<Participant>)
    ensures a.Anonymous? <==> ps == []
    ensures a.Authenticated? ==> ps == [Participant(id, event, Some(a.user.id), a.user.username, now)]
  {
    match a
    case Anonymous => []
    case Authenticated(u) => [Participant(id, event, Some(u.id), u.username, now)]
  }

  /** What `perform_create` leaves: the saved event and the tables after it. */
  datatype Created = Created(event: Event, after: Tables)

  /**
   * `perform_create`: the event is saved with the generated invite code
   * `code`, the caller as host and the host name from `HostName` (a code
   * already in use is an IntegrityError, `None`); a signed-in creator is
   * then enrolled as its first participant.
   */
  function PerformCreateStep(t: Tables, a: Actor, input: EventInput, code: Uuids.Uuid, now: int): (r: Option<Created>)
    requires HasRequired(input)
    ensures r.None? <==> CodeTaken(t, code)
    ensures r.Some? ==>
      && r.value.event.id == t.nextEvent && r.value.event.inviteCode == code && r.value.event.host == HostOf(a)
      && r.value.after.events == t.events + [r.value.event]
      && r.value.after.participants == t.participants + CreatorRows(a, t.nextEvent, t.nextParticipant, now)
  {
    if CodeTaken(t, code) then None
    else
      var e := NewEvent(t.nextEvent, CreateFields(input, HostName(a)), HostOf(a), code);
      Some(Created(e, EnrolStep(Store.WithEvent(t, e), a, e.id, now)))
  }

  /** The end of `perform_create`: the creator rows appended to the participant table. */
  function EnrolStep(t: Tables, a: Actor, event: Id, now: int): (r: Tables)
    ensures a.Anonymous? ==> r == t
    ensures a.Authenticated? ==>
      && r.participants == t.participants + [Participant(t.nextParticipant, event, Some(a.user.id), a.user.username, now)]
      && r == t.(participants := r.participants, nextParticipant := t.nextParticipant + 1)
  {
    var ps := CreatorRows(a, event, t.nextParticipant, now);
    t.(participants := t.participants + ps, nextParticipant := t.nextParticipant + |ps|)
  }

  /**
   * `create` with `perform_create`: a write without name or date, or with blank text, is 400; the
   * event gets the generated invite code `code` (a code already in use is an
   * uncaught IntegrityError), the caller as host and the host name from
   * `HostName`; a signed-in creator is enrolled as its first participant.
   */
  function CreateStep(t: Tables, a: Actor, input: EventInput, code: Uuids.Uuid, now: int, origin: string): (s: Step)
    ensures s.response.status in {CREATED, BAD_REQUEST, SERVER_ERROR}
    ensures s.response.status != CREATED ==> s.after == t
    ensures s.response.status == CREATED ==>
      && s.response.body.EventBody? && s.response.body.view.event in s.after.events
      && s.response.body.view.event.inviteCode == code && s.response.body.view.event.host == HostOf(a)
  {
    if !Acceptable(input, false) then Step(Response(BAD_REQUEST, Invalid), t)
    else match PerformCreateStep(t, a, input, code, now)
      case None => Step(Response(SERVER_ERROR, Crash), t)
      case Some(c) => Step(Response(CREATED, EventBody(Serialize(c.after, c.event, Some(origin)))), c.after)
  }

  /** The outcomes of `CreateStep`, one per branch of the handler. */
  lemma CreateStepOutcomes(t: Tables, a: Actor, input: EventInput, code: Uuids.Uuid, now: int, origin: string)
    ensures var s := CreateStep(t, a, input, code, now, origin);
      && (s.response.status != CREATED ==> s.after == t)
      && (s.response.status == BAD_REQUEST <==> !Acceptable(input, false))
      && (s.response.status == SERVER_ERROR <==>
            Acceptable(input, false) && CodeTaken(t, code))
      && (s.response.status == CREATED ==>
            var e := NewEvent(t.nextEvent, CreateFields(input, HostName(a)), HostOf(a), code);
            && s.after.events == t.events + [e]
            && s.after.participants == t.participants + CreatorRows(a, e.id, t.nextParticipant, now)
            && s.after == t.(events := s.after.events, participants := s.after.participants,
                             nextEvent := t.nextEvent + 1, nextParticipant := s.after.nextParticipant))
      && s.response.status in {CREATED, BAD_REQUEST, SERVER_ERROR}
  {
  }

  /** A signed-in creator is the host of the new event, and the one member of it. */
  lemma CreatorIsHostAndMember(t: Tables, u: User, input: EventInput, code: Uuids.Uuid, now: int, origin: string)
    requires Consistent(t)
    requires CreateStep(t, Authenticated(u), input, code, now, origin).response.status == CREATED
    ensures var s := CreateStep(t, Authenticated(u), input, code, now, origin);
      && s.response.body.EventBody?
      && s.response.body.view.event.host == Some(u.id)
      && s.response.body.view.event.hostName == u.username
      && s.response.body.view.members == [Participant(t.nextParticipant, t.nextEvent, Some(u.id), u.username, now)]
  {
    var s := CreateStep(t, Authenticated(u), input, code, now, origin);
    CreateStepOutcomes(t, Authenticated(u), input, code, now, origin);
    var e := s.response.body.view.event;
    var p := Participant(t.nextParticipant, t.nextEvent, Some(u.id), u.username, now);
    var ms := s.response.body.view.members;
    assert forall q :: q in t.participants ==> q.event != t.nextEvent by {
      forall q | q in t.participants ensures q.event != t.nextEvent {
        var x :| x in t.events && x.id == q.event;
      }
    }
    FilterOfAppendOne(t.participants, p, MemberOf(t.nextEvent));
  }

  /** Filtering rows that all fail, then one that passes, leaves that one. */
  lemma {:induction false} FilterOfAppendOne<T(!new)>(s: seq<T>, x: T, p: T -> bool)
    requires forall y :: y in s ==> !p(y)
    requires p(x)
    ensures Filter(s + [x], p) == [x]
  {
    if s == [] {
      assert [] + [x] == [x];
    } else {
      assert (s + [x])[1..] == s[1..] + [x];
      assert s[0] in s;
      FilterOfAppendOne(s[1..], x, p);
    }
  }

  // ---------------------------------------------------- ParticipantViewSet

  /** How `create` reads the `event` field: all digits means a key, anything else an invite code. */
  datatype EventRef = ById(id: int) | ByCode(code: Uuids.Uuid) | BadRef

  function ParseEventRef(v: Value): (r: EventRef)
    requires Truthy(v)
    ensures r.ById? <==> IsDigits(PyStr(v))
    ensures r.ById? && v.Int? ==> r.id == v.i
    ensures r.ById? && v.Str? ==> r.id == DigitsValue(v.s)
    ensures v.Str? && !IsDigits(v.s) ==> (r.ByCode? <==> Uuids.Parse(v.s).Some?)
    ensures r.ByCode? ==> v.Str? && Uuids.Parse(v.s) == Some(r.code)
  {
    IsDigitsOfPyStr(v);
    match v
    case Int(i) =>
      // `uuid.UUID(int=i)` rejects a negative integer
      if i >= 0 then ById(i) else BadRef
    case Str(s) =>
      if IsDigits(s) then ById(DigitsValue(s))
      else match Uuids.Parse(s)
        case Some(u) => ByCode(u)
        case None => BadRef
  }

  function ResolveEvent(t: Tables, r: EventRef): (e: Option<Event>)
    ensures r.BadRef? ==> e.None?
    ensures e.Some? ==> e.value in t.events
    ensures r.ById? ==> e == FindEvent(t, r.id)
    ensures r.ByCode? ==> (e.None? <==> forall x :: x in t.events ==> x.inviteCode != r.code)
    ensures r.ByCode? && e.Some? ==> e.value.inviteCode == r.code
  {
    match r
    case ById(id) => FindEvent(t, id)
    case ByCode(c) => First(t.events, EventWithCode(c))
    case BadRef => None
  }

  /** The participant name: the supplied `name` when non-empty, else the username. */
  function JoinName(u: User, data: Data): (n: string)
    ensures Truthy(Get(data, "name")) ==> n == PyStr(Get(data, "name"))
    ensures !Truthy(Get(data, "name")) ==> n == u.username
  {
    if Truthy(Get(data, "name")) then PyStr(Get(data, "name")) else u.username
  }

  /**
   * `ParticipantViewSet.create`: 401 before 400 before the lookup; a text that
   * is neither a key nor a UUID is an uncaught error; no event is 404; a user
   * already in the event gets 200 and nothing changes; otherwise one row is added.
   */
  function JoinStep(t: Tables, a: Actor, data: Data, now: int): (s: Step)
    ensures s.response.status == UNAUTHORIZED <==> a.Anonymous?
    ensures s.response.status != CREATED ==> s.after == t
    ensures s.response.status == CREATED ==>
      && s.response.body.ParticipantBody? && s.response.body.participant.user == Some(a.user.id)
      && s.after == Store.WithParticipant(t, s.response.body.participant)
  {
    match a
    case Anonymous => Step(Response(UNAUTHORIZED, Error("Authentication required.")), t)
    case Authenticated(u) =>
      var v := Get(data, "event");
      if !Truthy(v) then Step(Response(BAD_REQUEST, Error("Event ID is required.")), t)
      else
        var r := ParseEventRef(v);
        if r.BadRef? then Step(Response(SERVER_ERROR, Crash), t)
        else match ResolveEvent(t, r)
          case None => Step(Response(NOT_FOUND, Error("Event not found.")), t)
          case Some(e) =>
            if HasJoined(t, e.id, u.id) then Step(Response(OK, Message("Already joined.")), t)
            else
              var p := Participant(t.nextParticipant, e.id, Some(u.id), JoinName(u, data), now);
              Step(Response(CREATED, ParticipantBody(p)),
                   Store.WithParticipant(t, p))
  }

  /** The outcomes of `JoinStep`, one per branch of the handler. */
  lemma JoinStepOutcomes(t: Tables, a: Actor, data: Data, now: int)
    ensures var s := JoinStep(t, a, data, now);
      && (a.Anonymous? ==> s == Step(Response(UNAUTHORIZED, Error("Authentication required.")), t))
      && (a.Authenticated? && !Truthy(Get(data, "event")) ==>
            s == Step(Response(BAD_REQUEST, Error("Event ID is required.")), t))
      && (s.response.status == UNAUTHORIZED <==> a.Anonymous?)
      && (s.response.status == BAD_REQUEST <==> a.Authenticated? && !Truthy(Get(data, "event")))
      && (s.response.status == SERVER_ERROR <==>
            a.Authenticated? && Truthy(Get(data, "event")) && ParseEventRef(Get(data, "event")).BadRef?)
      && (s.response.status == CREATED <==>
            && a.Authenticated? && Truthy(Get(data, "event")) && !ParseEventRef(Get(data, "event")).BadRef?
            && ResolveEvent(t, ParseEventRef(Get(data, "event"))).Some?
            && !HasJoined(t, ResolveEvent(t, ParseEventRef(Get(data, "event"))).value.id, a.user.id))
      && (s.response.status != CREATED ==> s.after == t)
      && (s.response.status == NOT_FOUND <==>
            a.Authenticated? && Truthy(Get(data, "event")) && !ParseEventRef(Get(data, "event")).BadRef?
            && ResolveEvent(t, ParseEventRef(Get(data, "event"))).None?)
      && (s.response == Response(OK, Message("Already joined.")) <==>
            a.Authenticated? && Truthy(Get(data, "event")) && ResolveEvent(t, ParseEventRef(Get(data, "event"))).Some?
            && HasJoined(t, ResolveEvent(t, ParseEventRef(Get(data, "event"))).value.id, a.user.id))
      && (s.response.status == CREATED ==>
            && a.Authenticated? && Truthy(Get(data, "event"))
            && var e := ResolveEvent(t, ParseEventRef(Get(data, "event")));
            && e.Some? && !HasJoined(t, e.value.id, a.user.id)
            && var p := Participant(t.nextParticipant, e.value.id, Some(a.user.id), JoinName(a.user, data), now);
            && s.response.body == ParticipantBody(p)
            && s.after == Store.WithParticipant(t, p))
      && s.response.status in {CREATED, OK, BAD_REQUEST, UNAUTHORIZED, NOT_FOUND, SERVER_ERROR}
  {
  }

  /** Joining is idempotent: the same request again, at any later time, is "Already joined." and changes nothing. */
  lemma JoinIdempotent(t: Tables, a: Actor, data: Data, now: int, later: int)
    requires JoinStep(t, a, data, now).response.status == CREATED
    ensures var t1 := JoinStep(t, a, data, now).after;
      JoinStep(t1, a, data, later) == Step(Response(OK, Message("Already joined.")), t1)
  {
    var s := JoinStep(t, a, data, now);
    JoinStepOutcomes(t, a, data, now);
    var t1 := s.after;
    var r := ParseEventRef(Get(data, "event"));
    var e := ResolveEvent(t, r).value;
    assert t1.events == t.events;
    assert ResolveEvent(t1, r) == ResolveEvent(t, r);
    var p := s.response.body.participant;
    assert p in t1.participants && p.event == e.id && p.user == Some(a.user.id);
  }

  /** Every stored event can be joined by its integer key: keys start at 1, so none is the
      falsy 0 that the handler rejects as missing. */
  lemma JoinByStoredKey(t: Tables, u: User, e: Event, data: Data, now: int)
    requires EventsValid(t) && e in t.events
    requires Get(data, "event") == Int(e.id)
    ensures var s := JoinStep(t, Authenticated(u), data, now);
      && (s.response.status == CREATED <==> !HasJoined(t, e.id, u.id))
      && (s.response.status != CREATED ==> s.response == Response(OK, Message("Already joined.")))
  {
    assert Truthy(Get(data, "event"));
    FindEventUnique(t, e);
    assert ParseEventRef(Get(data, "event")) == ById(e.id);
  }

  /** Joining keeps one row per (event, user): the step preserves the whole-database invariant. */
  lemma JoinConsistent(t: Tables, a: Actor, data: Data, now: int)
    requires Consistent(t) && Known(t, a)
    ensures Consistent(JoinStep(t, a, data, now).after)
  {
    var s := JoinStep(t, a, data, now);
    JoinStepOutcomes(t, a, data, now);
    if s.response.status == CREATED {
      Store.AddParticipantConsistent(t, s.response.body.participant);
    }
  }

  // ----------------------------------------------------- FriendshipViewSet

  function Involves(uid: Id): Friendship -> bool {
    (f: Friendship) => f.fromUser == uid || f.toUser == uid
  }

  /** `FriendshipViewSet.get_queryset`: the edges the caller is on either end of. */
  function VisibleFriendships(t: Tables, uid: Id): (r: seq<Friendship>)
    ensures forall f :: f in r <==> f in t.friendships && (f.fromUser == uid || f.toUser == uid)
  {
    Filter(t.friendships, Involves(uid))
  }

  /** Each edge the caller is on is listed once. */
  lemma VisibleFriendshipsDistinct(t: Tables, uid: Id)
    requires FriendshipsValid(t)
    ensures Distinct(VisibleFriendships(t, uid))
  {
    FilterAscending(t.friendships, Involves(uid), FriendshipKey);
    AscendingDistinct(VisibleFriendships(t, uid), FriendshipKey);
  }

  function Between(a: Id, b: Id): Friendship -> bool {
    (f: Friendship) => (f.fromUser == a && f.toUser == b) || (f.fromUser == b && f.toUser == a)
  }

  /** The edge between two users, whichever way it points. */
  function EdgeBetween(t: Tables, a: Id, b: Id): (r: Option<Friendship>)
    ensures r.None? <==> forall f :: f in t.friendships ==> !Between(a, b)(f)
    ensures r.Some? ==> r.value in t.friendships && Between(a, b)(r.value)
  {
    First(t.friendships, Between(a, b))
  }

  /** The users `User.objects.get(email=...)` sees. */
  function UsersWithEmail(t: Tables, email: string): (r: seq<User>)
    ensures forall u :: u in r <==> u in t.users && u.email == email
  {
    Filter(t.users, EmailMatch(email))
  }

  function ExistingMessage(f: Friendship): (m: string)
    ensures f.status == Accepted <==> m == "Already friends."
  {
    if f.status == Accepted then "Already friends." else "Request already sent or received."
  }

  /**
   * `FriendshipViewSet.create`: a signed-in caller names the target by email.
   * No email is 400, no such user 404 (two users with it: an uncaught
   * MultipleObjectsReturned), oneself 400; an edge in either direction is
   * reported with 200; otherwise one pending edge caller -> target is added.
   */
  function FriendRequestStep(t: Tables, a: Actor, data: Data, now: int): (s: Step)
    ensures s.response.status == UNAUTHORIZED <==> a.Anonymous?
    ensures s.response.status != CREATED ==> s.after == t
    ensures s.response.status == CREATED ==>
      && s.response.body.FriendshipBody? && s.response.body.friendship.fromUser == a.user.id
      && s.response.body.friendship.toUser != a.user.id && s.response.body.friendship.status == Pending
      && s.after == Store.WithFriendship(t, s.response.body.friendship)
      && s.response.body.fromUser == ToUserData(a.user)
      && s.response.body.toUser.id == s.response.body.friendship.toUser
      && s.response.body.toUser.email == PyStr(Get(data, "email"))
  {
    match a
    case Anonymous => Step(Response(UNAUTHORIZED, Detail), t)
    case Authenticated(u) =>
      var email := Get(data, "email");
      if !Truthy(email) then Step(Response(BAD_REQUEST, Error("Email is required.")), t)
      else
        var targets := UsersWithEmail(t, PyStr(email));
        if |targets| == 0 then Step(Response(NOT_FOUND, Error("User not found.")), t)
        else if |targets| > 1 then Step(Response(SERVER_ERROR, Crash), t)
        else if targets[0].id == u.id then Step(Response(BAD_REQUEST, Error("Cannot send request to yourself.")), t)
        else match EdgeBetween(t, u.id, targets[0].id)
          case Some(f) => Step(Response(OK, Message(ExistingMessage(f))), t)
          case None =>
            var f := Friendship(t.nextFriendship, u.id, targets[0].id, now, Pending);
            Step(Response(CREATED, FriendshipBody(f, ToUserData(u), ToUserData(targets[0]))),
                 Store.WithFriendship(t, f))
  }

  /** The outcomes of `FriendRequestStep`, one per branch of the handler. */
  lemma FriendRequestStepOutcomes(t: Tables, a: Actor, data: Data, now: int)
    ensures var s := FriendRequestStep(t, a, data, now);
            var named := a.Authenticated? && Truthy(Get(data, "email"));
            var targets := UsersWithEmail(t, PyStr(Get(data, "email")));
      && (a.Anonymous? ==> s == Step(Response(UNAUTHORIZED, Detail), t))
      && (a.Authenticated? && !Truthy(Get(data, "email")) ==>
            s == Step(Response(BAD_REQUEST, Error("Email is required.")), t))
      && (s.response.status == UNAUTHORIZED <==> a.Anonymous?)
      && (s.response.status != CREATED ==> s.after == t)
      && (s.response == Response(NOT_FOUND, Error("User not found.")) <==> named && targets == [])
      && (s.response.status == SERVER_ERROR <==> named && |targets| > 1)
      && (s.response == Response(BAD_REQUEST, Error("Cannot send request to yourself.")) <==>
            named && |targets| == 1 && targets[0].id == a.user.id)
      && (s.response.status == OK <==>
            named && |targets| == 1 && targets[0].id != a.user.id
            && EdgeBetween(t, a.user.id, targets[0].id).Some?)
      && (s.response.status == CREATED <==>
            named && |targets| == 1 && targets[0].id != a.user.id
            && EdgeBetween(t, a.user.id, targets[0].id).None?)
      && (s.response.status == CREATED ==>
            && named && |targets| == 1
            && var f := Friendship(t.nextFriendship, a.user.id, targets[0].id, now, Pending);
            && s.response.body == FriendshipBody(f, ToUserData(a.user), ToUserData(targets[0]))
            && s.after == Store.WithFriendship(t, f))
      && (s.response.status == OK ==>
            && named && |targets| == 1 && EdgeBetween(t, a.user.id, targets[0].id).Some?
            && s.response.body == Message(ExistingMessage(EdgeBetween(t, a.user.id, targets[0].id).value)))
      && s.response.status in {CREATED, OK, BAD_REQUEST, UNAUTHORIZED, NOT_FOUND, SERVER_ERROR}
  {
  }

  /** A created request keeps the friend graph valid (no self-edge, one edge per pair). */
  lemma FriendRequestConsistent(t: Tables, a: Actor, data: Data, now: int)
    requires Consistent(t) && Known(t, a)
    ensures Consistent(FriendRequestStep(t, a, data, now).after)
  {
    var s := FriendRequestStep(t, a, data, now);
    FriendRequestStepOutcomes(t, a, data, now);
    if s.response.status == CREATED {
      var u := a.user;
      var targets := UsersWithEmail(t, PyStr(Get(data, "email")));
      var f := Friendship(t.nextFriendship, u.id, targets[0].id, now, Pending);
      assert targets[0] in targets;
      forall g | g in t.friendships ensures !SamePair(f, g) {
        assert !Between(u.id, targets[0].id)(g);
      }
      Store.AddFriendshipConsistent(t, f);
    }
  }

  /** After a created request `f` from `a`, `f` is the one edge between `a` and its target, either way round. */
  lemma RequestRecorded(t: Tables, a: User, data: Data, now: int, f: Friendship)
    requires var r := FriendRequestStep(t, Authenticated(a), data, now).response;
      r.status == CREATED && r.body.FriendshipBody? && r.body.friendship == f
    ensures var t1 := FriendRequestStep(t, Authenticated(a), data, now).after;
      && t1.users == t.users && f.fromUser == a.id && f.toUser != a.id && f.status == Pending
      && UsersWithEmail(t1, PyStr(Get(data, "email"))) == UsersWithEmail(t, PyStr(Get(data, "email")))
      && EdgeBetween(t1, a.id, f.toUser) == Some(f)
      && EdgeBetween(t1, f.toUser, a.id) == Some(f)
  {
    var s := FriendRequestStep(t, Authenticated(a), data, now);
    FriendRequestStepOutcomes(t, Authenticated(a), data, now);
    var t1 := s.after;
    assert f in t1.friendships;
    // the only edge between the two is the new one
    forall g | g in t1.friendships && Between(a.id, f.toUser)(g) ensures g == f {
      assert g == f || g in t.friendships;
    }
    var e1 := EdgeBetween(t1, a.id, f.toUser);
    var e2 := EdgeBetween(t1, f.toUser, a.id);
    assert Between(a.id, f.toUser)(f) && Between(f.toUser, a.id)(f);
    assert e2 == Some(f) by {
      assert Between(a.id, f.toUser)(e2.value);
    }
  }

  /** Requests are deduplicated in both directions: once a request `f` from `a` to `b` exists,
      the same request again, or `b`'s request back to `a`, adds nothing and is reported pending. */
  lemma FriendRequestDeduplicated(t: Tables, a: User, b: User, data: Data, back: Data, now: int, later: int, f: Friendship)
    requires UsersValid(t) && a in t.users && b in t.users
    requires var r := FriendRequestStep(t, Authenticated(a), data, now).response;
      r.status == CREATED && r.body.FriendshipBody? && r.body.friendship == f
    requires f.toUser == b.id
    requires Truthy(Get(back, "email")) && PyStr(Get(back, "email")) == a.email
    requires forall u :: u in t.users && u.email == a.email ==> u == a
    ensures var t1 := FriendRequestStep(t, Authenticated(a), data, now).after;
      && FriendRequestStep(t1, Authenticated(a), data, later)
           == Step(Response(OK, Message("Request already sent or received.")), t1)
      && FriendRequestStep(t1, Authenticated(b), back, later)
           == Step(Response(OK, Message("Request already sent or received.")), t1)
  {
    var t1 := FriendRequestStep(t, Authenticated(a), data, now).after;
    RequestRecorded(t, a, data, now, f);
    FriendRequestStepOutcomes(t, Authenticated(a), data, now);
    assert UsersValid(t1);
    UniqueEmailFindsUser(t1, a);
  }

  /** A user no one else shares an email with is the one user `User.objects.get(email=...)` finds. */
  lemma UniqueEmailFindsUser(t: Tables, a: User)
    requires UsersValid(t) && a in t.users
    requires forall u :: u in t.users && u.email == a.email ==> u == a
    ensures UsersWithEmail(t, a.email) == [a]
  {
    var r := UsersWithEmail(t, a.email);
    FilterAscending(t.users, EmailMatch(a.email), UserKey);
    AscendingCountAtMostOne(r, UserKey, a);
    assert a in r;
    assert r[0] in r;
  }

  /** The edge with key `pk`, if the caller may see it. */
  function FindVisible(t: Tables, uid: Id, pk: int): (r: Option<Friendship>)
    ensures r.Some? ==> r.value in t.friendships && r.value.id == pk && (r.value.fromUser == uid || r.value.toUser == uid)
    ensures r.None? <==> forall f :: f in t.friendships && (f.fromUser == uid || f.toUser == uid) ==> f.id != pk
  {
    First(VisibleFriendships(t, uid), FriendshipWithId(pk))
  }

  function FriendshipWithId(pk: int): Friendship -> bool {
    (f: Friendship) => f.id == pk
  }

  /**
   * `accept`: an edge the caller is not on is 404; only its recipient may
   * accept it (403); accepting sets the status to accepted and nothing else.
   */
  function AcceptStep(t: Tables, a: Actor, pk: int): (s: Step)
    ensures a.Anonymous? ==> s == Step(Response(UNAUTHORIZED, Detail), t)
    ensures s.response.status == UNAUTHORIZED <==> a.Anonymous?
    ensures s.response.status == OK <==>
      a.Authenticated? && FindVisible(t, a.user.id, pk).Some? && FindVisible(t, a.user.id, pk).value.toUser == a.user.id
    ensures s.response.status != OK ==> s.after == t
    ensures s.response.status == NOT_FOUND <==> a.Authenticated? && FindVisible(t, a.user.id, pk).None?
    ensures s.response.status == FORBIDDEN <==>
      a.Authenticated? && FindVisible(t, a.user.id, pk).Some? && FindVisible(t, a.user.id, pk).value.toUser != a.user.id
    ensures s.response.status == OK ==>
      && s.response.body == Message("Friend request accepted.")
      && s.after == t.(friendships := SetStatus(t.friendships, pk, Accepted))
    ensures s.response.status in {OK, UNAUTHORIZED, FORBIDDEN, NOT_FOUND}
  {
    match a
    case Anonymous => Step(Response(UNAUTHORIZED, Detail), t)
    case Authenticated(u) =>
      match FindVisible(t, u.id, pk)
      case None => Step(Response(NOT_FOUND, Detail), t)
      case Some(f) =>
        if f.toUser != u.id then Step(Response(FORBIDDEN, Error("No permission to accept this request.")), t)
        else Step(Response(OK, Message("Friend request accepted.")),
                  t.(friendships := SetStatus(t.friendships, pk, Accepted)))
  }

  /** Setting a status twice is setting it once. */
  lemma {:induction false} SetStatusIdempotent(fs: seq<Friendship>, id: Id, st: FriendStatus)
    ensures SetStatus(SetStatus(fs, id, st), id, st) == SetStatus(fs, id, st)
  {
    var once := SetStatus(fs, id, st);
    var twice := SetStatus(once, id, st);
    assert |twice| == |once|;
    forall i | 0 <= i < |once| ensures twice[i] == once[i] {
      assert once[i] == StatusUpdate(fs[i], id, st);
    }
  }

  /** After an accept the accepted edge, and only it, is accepted; every other edge is as it was. */
  lemma AcceptChangesOneStatus(t: Tables, a: Actor, pk: int)
    requires FriendshipsValid(t)
    requires AcceptStep(t, a, pk).response.status == OK
    ensures var t1 := AcceptStep(t, a, pk).after;
      && t1.users == t.users && t1.events == t.events && t1.participants == t.participants
      && t1.messages == t.messages && t1.todos == t.todos
      && |t1.friendships| == |t.friendships|
      && forall i :: 0 <= i < |t.friendships| ==>
           if t.friendships[i].id == pk then t1.friendships[i] == t.friendships[i].(status := Accepted)
           else t1.friendships[i] == t.friendships[i]
  {
  }

  /** Accepting again is 200 and changes nothing more. */
  lemma AcceptIdempotent(t: Tables, a: Actor, pk: int)
    requires FriendshipsValid(t)
    requires AcceptStep(t, a, pk).response.status == OK
    ensures var t1 := AcceptStep(t, a, pk).after;
      AcceptStep(t1, a, pk) == Step(Response(OK, Message("Friend request accepted.")), t1)
  {
    var t1 := AcceptStep(t, a, pk).after;
    var f := FindVisible(t, a.user.id, pk).value;
    SetStatusIdempotent(t.friendships, pk, Accepted);
    var i :| 0 <= i < |t.friendships| && t.friendships[i] == f;
    var g := t1.friendships[i];
    assert g == StatusUpdate(f, pk, Accepted);
    assert g in t1.friendships && g.id == pk && g.toUser == a.user.id;
    var h := FindVisible(t1, a.user.id, pk).value;
    var j :| 0 <= j < |t1.friendships| && t1.friendships[j] == h;
    assert h == StatusUpdate(t.friendships[j], pk, Accepted);
    assert t.friendships[j] in t.friendships && t.friendships[j].id == f.id;
    assert h.toUser == a.user.id;
  }

  /** Once accepted, a new request either way between the two is answered "Already friends.". */
  lemma AcceptedMeansAlreadyFriends(t: Tables, f: Friendship, a: User, data: Data, now: int)
    requires FriendshipsValid(t) && f in t.friendships && f.status == Accepted
    requires a.id == f.fromUser || a.id == f.toUser
    requires Truthy(Get(data, "email"))
    requires var ts := UsersWithEmail(t, PyStr(Get(data, "email")));
      |ts| == 1 && ts[0].id != a.id && (ts[0].id == f.fromUser || ts[0].id == f.toUser)
    ensures FriendRequestStep(t, Authenticated(a), data, now) == Step(Response(OK, Message("Already friends.")), t)
  {
    var b := UsersWithEmail(t, PyStr(Get(data, "email")))[0];
    assert Between(a.id, b.id)(f);
    var e := EdgeBetween(t, a.id, b.id).value;
    assert SamePair(e, f) && e in t.friendships;
    assert e == f by { assert FriendGraphValid(t.friendships); }
    assert ExistingMessage(e) == "Already friends.";
  }

  // ------------------------------------------------------------ view sets

  /** `EventViewSet`: the handlers that change the tables. */
  class EventViewSet {
    const db: Store.Database

    constructor (db: Store.Database)
      ensures this.db == db
    {
      this.db := db;
    }

    method Update(a: Actor, pk: int, input: EventInput, partial: bool, origin: string) returns (resp: Response)
      requires db.Valid()
      modifies db
      ensures db.Valid()
      ensures Step(resp, db.t) == UpdateStep(old(db.t), a, pk, input, partial, origin)
    {
      var instance := First(db.t.events, EventWithId(pk));
      if instance.None? {
        return Response(NOT_FOUND, Detail);
      }
      if !CheckHostPermission(a, instance.value) {
        return Response(FORBIDDEN, Error("Only host can edit this party."));
      }
      if !Acceptable(input, partial) {
        return Response(BAD_REQUEST, Invalid);
      }
      var edited := ApplyUpdate(instance.value, input);
      db.SaveEvent(edited);
      resp := Response(OK, EventBody(Serialize(db.t, edited, Some(origin))));
    }

    method Destroy(a: Actor, pk: int) returns (resp: Response)
      requires db.Valid()
      modifies db
      ensures db.Valid()
      ensures Step(resp, db.t) == DestroyStep(old(db.t), a, pk)
    {
      var instance := First(db.t.events, EventWithId(pk));
      if instance.None? {
        return Response(NOT_FOUND, Detail);
      }
      if !CheckHostPermission(a, instance.value) {
        return Response(FORBIDDEN, Error("Only host can delete this party."));
      }
      db.DeleteEvent(pk);
      resp := Response(NO_CONTENT, Empty);
    }

    /** `perform_create`; `code` is the invite code the column default generates. */
    method PerformCreate(a: Actor, input: EventInput, code: Uuids.Uuid, now: int) returns (event: Option<Event>)
      requires HasRequired(input)
      requires db.Valid() && Known(db.t, a)
      modifies db
      ensures db.Valid()
      ensures event.None? <==> PerformCreateStep(old(db.t), a, input, code, now).None?
      ensures event.None? ==> db.t == old(db.t)
      ensures event.Some? ==> PerformCreateStep(old(db.t), a, input, code, now) == Some(Created(event.value, db.t))
    {
      var hostName := HostName(a);
      var host := HostOf(a);
      assert host.Some? ==> host.value in UserIds(db.t);
      event := db.CreateEvent(CreateFields(input, hostName), host, code);
      if event.None? {
        return;
      }
      EnrolCreator(a, event.value.id, now);
    }

    /** The end of `perform_create`: a signed-in creator joins the event just saved. */
    method EnrolCreator(a: Actor, event: Id, now: int)
      requires db.Valid() && Known(db.t, a)
      requires event in EventIds(db.t)
      requires forall q :: q in db.t.participants ==> q.event != event
      modifies db
      ensures db.Valid()
      ensures db.t == EnrolStep(old(db.t), a, event, now)
    {
      if a.Authenticated? {
        var p := db.CreateParticipant(event, Some(a.user.id), a.user.username, now);
        assert CreatorRows(a, event, old(db.t).nextParticipant, now) == [p];
      } else {
        assert db.t.participants + CreatorRows(a, event, db.t.nextParticipant, now) == db.t.participants;
      }
    }

    /** `create`: validate the input, `perform_create`, answer 201 with the serialized event. */
    method Create(a: Actor, input: EventInput, code: Uuids.Uuid, now: int, origin: string) returns (resp: Response)
      requires db.Valid() && Known(db.t, a)
      modifies db
      ensures db.Valid()
      ensures Step(resp, db.t) == CreateStep(old(db.t), a, input, code, now, origin)
    {
      if !Acceptable(input, false) {
        return Response(BAD_REQUEST, Invalid);
      }
      var event := PerformCreate(a, input, code, now);
      if event.None? {
        return Response(SERVER_ERROR, Crash);
      }
      resp := Response(CREATED, EventBody(Serialize(db.t, event.value, Some(origin))));
    }
  }

  /** `ParticipantViewSet.create`. */
  class ParticipantViewSet {
    const db: Store.Database

    constructor (db: Store.Database)
      ensures this.db == db
    {
      this.db := db;
    }

    method Create(a: Actor, data: Data, now: int) returns (resp: Response)
      requires db.Valid() && Known(db.t, a)
      modifies db
      ensures db.Valid()
      ensures Step(resp, db.t) == JoinStep(old(db.t), a, data, now)
    {
      var eventId := Get(data, "event");
      if a.Anonymous? {
        return Response(UNAUTHORIZED, Error("Authentication required."));
      }
      var user := a.user;
      if !Truthy(eventId) {
        return Response(BAD_REQUEST, Error("Event ID is required."));
      }
      var event: Option<Event>;
      if IsDigits(PyStr(eventId)) {
        var key := ParseEventRef(eventId).id;
        event := First(db.t.events, EventWithId(key));
      } else {
        var r := ParseEventRef(eventId);
        if r.BadRef? {
          return Response(SERVER_ERROR, Crash);
        }
        event := First(db.t.events, EventWithCode(r.code));
      }
      if event.None? {
        return Response(NOT_FOUND, Error("Event not found."));
      }
      if HasJoined(db.t, event.value.id, user.id) {
        return Response(OK, Message("Already joined."));
      }
      var name := user.username;
      if Truthy(Get(data, "name")) {
        name := PyStr(Get(data, "name"));
      }
      var participant := db.CreateParticipant(event.value.id, Some(user.id), name, now);
      resp := Response(CREATED, ParticipantBody(participant));
    }
  }

  /** `FriendshipViewSet.create` and `accept`. */
  class FriendshipViewSet {
    const db: Store.Database

    constructor (db: Store.Database)
      ensures this.db == db
    {
      this.db := db;
    }

    method Create(a: Actor, data: Data, now: int) returns (resp: Response)
      requires db.Valid() && Known(db.t, a)
      modifies db
      ensures db.Valid()
      ensures Step(resp, db.t) == FriendRequestStep(old(db.t), a, data, now)
    {
      if a.Anonymous? {
        return Response(UNAUTHORIZED, Detail);
      }
      var targetEmail := Get(data, "email");
      if !Truthy(targetEmail) {
        return Response(BAD_REQUEST, Error("Email is required."));
      }
      var found := UsersWithEmail(db.t, PyStr(targetEmail));
      if |found| == 0 {
        return Response(NOT_FOUND, Error("User not found."));
      } else if |found| > 1 {
        return Response(SERVER_ERROR, Crash);
      }
      var target := found[0];
      if target.id == a.user.id {
        return Response(BAD_REQUEST, Error("Cannot send request to yourself."));
      }
      var existing := EdgeBetween(db.t, a.user.id, target.id);
      if existing.Some? {
        if existing.value.status == Accepted {
          return Response(OK, Message("Already friends."));
        }
        return Response(OK, Message("Request already sent or received."));
      }
      assert target in found;
      forall g | g in db.t.friendships
        ensures !SamePair(Friendship(0, a.user.id, target.id, 0, Pending), g)
      {
        assert !Between(a.user.id, target.id)(g);
      }
      var friendship := db.CreateFriendship(a.user.id, target.id, now);
      resp := Response(CREATED, FriendshipBody(friendship, ToUserData(a.user), ToUserData(target)));
    }

    method Accept(a: Actor, pk: int) returns (resp: Response)
      requires db.Valid()
      modifies db
      ensures db.Valid()
      ensures Step(resp, db.t) == AcceptStep(old(db.t), a, pk)
    {
      if a.Anonymous? {
        return Response(UNAUTHORIZED, Detail);
      }
      var friendship := First(VisibleFriendships(db.t, a.user.id), FriendshipWithId(pk));
      if friendship.None? {
        return Response(NOT_FOUND, Detail);
      }
      if friendship.value.toUser != a.user.id {
        return Response(FORBIDDEN, Error("No permission to accept this request."));
      }
      db.SaveFriendshipStatus(pk, Accepted);
      resp := Response(OK, Message("Friend request accepted."));
    }
  }
}
