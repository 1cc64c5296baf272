/**
 * The serializer rules the handlers rely on: login-identifier resolution,
 * the register field mapping, the event representation with its invite URL,
 * and the event fields a client may write.
 */
module Serializers {

  import opened Optional
  import opened Seqs
  import opened Values
  import opened Models
  import Uuids
  import Store

  // ---------------------------------------------------------------- login

  function EmailMatch(login: string): User -> bool {
    (u: User) => u.email == login
  }

  function UsernameMatch(login: string): User -> bool {
    (u: User) => u.username == login
  }

  /**
   * The user a login identifier names: the first user (in key order) whose
   * email is the identifier, and only when there is none, the first whose
   * username is.
   */
  function LoginUser(users: seq<User>, login: string): (r: Option<User>)
    ensures r.None? <==> forall u :: u in users ==> u.email != login && u.username != login
    ensures r.Some? ==> r.value in users && (r.value.email == login || r.value.username == login)
    ensures (exists u :: u in users && u.email == login) ==> r.Some? && r.value.email == login
  {
    match First(users, EmailMatch(login))
    case Some(u) => Some(u)
    case None => First(users, UsernameMatch(login))
  }

  /** An email match is taken even when another user has the identifier as username,
      and it is the earliest user with that email. */
  lemma LoginPrefersEmail(users: seq<User>, login: string, a: User)
    requires a in users && a.email == login
    ensures LoginUser(users, login).Some? && LoginUser(users, login).value.email == login
    ensures exists i ::
              && 0 <= i < |users| && users[i] == LoginUser(users, login).value
              && forall j :: 0 <= j < i ==> users[j].email != login
  {
    assert EmailMatch(login)(a);
    FirstIsEarliest(users, EmailMatch(login));
  }

  /**
   * The attribute rewrite of `EmailTokenObtainPairSerializer.validate` before it
   * hands over to the token library: with both an identifier and a password, the
   * identifier is replaced by the username of the user it names.
   */
  function ResolveLogin(attrs: Data, users: seq<User>): (r: Data)
    ensures !(Truthy(Get(attrs, "username")) && Truthy(Get(attrs, "password"))) ==> r == attrs
    ensures LoginUser(users, PyStr(Get(attrs, "username"))).None? ==> r == attrs
    ensures forall k :: k != "username" ==> (k in r <==> k in attrs) && (k in r ==> r[k] == attrs[k])
    ensures r != attrs ==> "username" in r
    ensures r != attrs ==> exists u ::
              && u in users && r["username"] == Str(u.username)
              && (u.email == PyStr(Get(attrs, "username")) || u.username == PyStr(Get(attrs, "username")))
    ensures Truthy(Get(attrs, "username")) && Truthy(Get(attrs, "password"))
            && LoginUser(users, PyStr(Get(attrs, "username"))).Some? ==>
              r == attrs["username" := Str(LoginUser(users, PyStr(Get(attrs, "username"))).value.username)]
  {
    var login := Get(attrs, "username");
    if Truthy(login) && Truthy(Get(attrs, "password")) then
      match LoginUser(users, PyStr(login))
      case Some(u) => attrs["username" := Str(u.username)]
      case None => attrs
    else attrs
  }

  /** When one user has the identifier as email and another has it as username, the
      login resolves to the first one: the identifier becomes that user's username. */
  lemma LoginEmailBeatsUsername(users: seq<User>, a: User, b: User, login: string, password: string)
    requires a in users && b in users && a != b
    requires a.email == login && b.username == login
    requires forall x :: x in users && x.email == login ==> x == a
    requires login != "" && password != ""
    ensures ResolveLogin(map["username" := Str(login), "password" := Str(password)], users)
      == map["username" := Str(a.username), "password" := Str(password)]
  {
    var attrs := map["username" := Str(login), "password" := Str(password)];
    assert Get(attrs, "username") == Str(login) && Get(attrs, "password") == Str(password);
    assert LoginUser(users, login) == Some(a);
    assert attrs["username" := Str(a.username)] == map["username" := Str(a.username), "password" := Str(password)];
  }

  /** The serializer's `attrs` dictionary, rewritten in place by `Validate`. */
  class LoginSerializer {
    var attrs: Data

    constructor (data: Data)
      ensures attrs == data
    {
      attrs := data;
    }

    method Validate(users: seq<User>)
      modifies this
      ensures attrs == ResolveLogin(old(attrs), users)
    {
      var login := Get(attrs, "username");
      var password := Get(attrs, "password");
      if Truthy(login) && Truthy(password) {
        var user := First(users, EmailMatch(PyStr(login)));
        if user.None? {
          user := First(users, UsernameMatch(PyStr(login)));
        }
        if user.Some? {
          attrs := attrs["username" := Str(user.value.username)];
        }
      }
    }
  }

  // ------------------------------------------------------------- register

  /** The validated fields of a sign-up; the password is write-only and never echoed. */
  datatype RegisterInput = RegisterInput(username: string, email: string, password: string)

  /** `UserSerializer`: what a client gets to see of a user; it also shows both ends of a friendship. */
  datatype UserData = UserData(id: Id, username: string, name: string, email: string)

  function ToUserData(u: User): (d: UserData)
    ensures d.id == u.id && d.name == u.username && d.username == u.username && d.email == u.email
  {
    UserData(u.id, u.username, u.username, u.email)
  }

  /** `RegisterSerializer.create`: the email becomes the username, the submitted username the first name. */
  method Register(db: Store.Database, input: RegisterInput) returns (u: Option<User>)
    requires db.Valid()
    modifies db
    ensures db.Valid()
    ensures u.Some? <==> forall x :: x in old(db.t).users ==> x.username != input.email
    ensures u.None? ==> db.t == old(db.t)
    ensures u.Some? ==>
      && u.value.username == input.email
      && u.value.email == Store.NormalizeEmail(input.email)
      && u.value.firstName == input.username
      && u.value.password == Hashed(input.password)
      && db.t == Store.WithUser(old(db.t), u.value)
  {
    u := db.CreateUser(input.email, input.email, input.username, input.password);
  }

  /** A newly registered user logs in with the email they signed up with,
      unless an earlier account already claims that text as email or username. */
  lemma RegisteredUserLogsIn(users: seq<User>, u: User, password: string)
    requires forall x :: x in users ==> x.email != u.username && x.username != u.username
    requires u.username != "" && password != ""
    ensures ResolveLogin(map["username" := Str(u.username), "password" := Str(password)], users + [u])
      == map["username" := Str(u.username), "password" := Str(password)]
    ensures LoginUser(users + [u], u.username) == Some(u)
  {
    var login := u.username;
    var all := users + [u];
    assert u in all;
    if u.email == login {
      assert EmailMatch(login)(u);
      var v := First(all, EmailMatch(login)).value;
      assert v in users || v == u;
    } else {
      assert First(all, EmailMatch(login)).None?;
      assert UsernameMatch(login)(u);
      var v := First(all, UsernameMatch(login)).value;
      assert v in users || v == u;
    }
  }

  // ---------------------------------------------------------------- events

  /** `build_absolute_uri("/invite/<code>")` against the request's origin, or nothing outside a request. */
  function InviteUrl(origin: Option<string>, code: Uuids.Uuid): (r: Option<string>)
    ensures r.None? <==> origin.None?
    ensures r.Some? ==> |r.value| == |origin.value| + 44 && r.value[..|origin.value|] == origin.value
  {
    match origin
    case None => None
    case Some(o) => Some(o + "/invite/" + Uuids.Format(code))
  }

  /** The invite code read back from the end of its invite URL is the event's code. */
  lemma InviteUrlCarriesCode(origin: string, code: Uuids.Uuid)
    ensures InviteUrl(Some(origin), code).value[|origin|..|origin| + 8] == "/invite/"
    ensures Uuids.Parse(InviteUrl(Some(origin), code).value[|origin| + 8..]) == Some(code)
  {
    var url := InviteUrl(Some(origin), code).value;
    assert url == origin + "/invite/" + Uuids.Format(code);
    assert url[|origin| + 8..] == Uuids.Format(code);
    Uuids.ParseFormat(code);
  }

  function MemberOf(id: Id): Participant -> bool {
    (p: Participant) => p.event == id
  }

  /** `EventSerializer` output: the row, its participants (`members`) and its invite URL. */
  datatype EventView = EventView(event: Event, members: seq<Participant>, inviteUrl: Option<string>)

  function Serialize(t: Tables, e: Event, origin: Option<string>): (v: EventView)
    ensures v.event == e
    ensures forall p :: p in v.members <==> p in t.participants && p.event == e.id
    ensures v.inviteUrl == InviteUrl(origin, e.inviteCode)
  {
    EventView(e, Filter(t.participants, MemberOf(e.id)), InviteUrl(origin, e.inviteCode))
  }

  function SerializeAll(t: Tables, es: seq<Event>, origin: Option<string>): (vs: seq<EventView>)
    ensures |vs| == |es|
    ensures forall i :: 0 <= i < |es| ==> vs[i] == Serialize(t, es[i], origin)
  {
    if es == [] then [] else [Serialize(t, es[0], origin)] + SerializeAll(t, es[1..], origin)
  }

  /**
   * What a client sends for an event. An absent field is `None`; a nullable
   * field may be sent as null (`Some(None)`). `inviteCode` and `host` may be
   * sent too, but they are read-only and the serializer drops them.
   */
  datatype EventInput = EventInput(
    name: Option<string>,
    description: Option<Option<string>>,
    date: Option<int>,
    locationName: Option<Option<string>>,
    placeId: Option<Option<string>>,
    theme: Option<string>,
    foodDescription: Option<Option<string>>,
    hostName: Option<string>,
    fee: Option<int>,
    maxMembers: Option<nat>,
    inviteCode: Option<string>,
    host: Option<Id>)

  /** The two fields a full (non-partial) write must carry: neither has a default. */
  predicate HasRequired(i: EventInput) {
    i.name.Some? && i.date.Some?
  }

  /**
   * The text columns declared without `blank=True` (name, theme, host name)
   * become fields with `allow_blank=False`: an empty string in any of them is refused.
   */
  predicate NoBlankText(i: EventInput) {
    i.name != Some("") && i.theme != Some("") && i.hostName != Some("")
  }

  /**
   * Whether the serializer accepts the input: no blank text on any write, and on
   * a full write the fields without a default; a partial update needs no field.
   */
  predicate Acceptable(i: EventInput, partial: bool)
    ensures Acceptable(i, partial) ==> i.name != Some("") && i.theme != Some("") && i.hostName != Some("")
    ensures Acceptable(i, partial) && !partial ==> i.name.Some? && i.date.Some?
    ensures partial && NoBlankText(i) ==> Acceptable(i, partial)
    ensures !partial && HasRequired(i) && NoBlankText(i) ==> Acceptable(i, partial)
  {
    NoBlankText(i) && (partial || HasRequired(i))
  }

  /** The columns an insert receives from validated input; `host_name` comes from the view. */
  function CreateFields(i: EventInput, hostName: string): (f: EventFields)
    requires HasRequired(i)
    ensures f.name == i.name.value && f.date == i.date.value && f.hostName == Some(hostName)
    ensures f.theme == i.theme && f.fee == i.fee && f.maxMembers == i.maxMembers
  {
    EventFields(i.name.value, i.description.GetOr(None), i.date.value, i.locationName.GetOr(None),
      i.placeId.GetOr(None), i.theme, i.foodDescription.GetOr(None), Some(hostName), i.fee, i.maxMembers)
  }

  /** `serializer.update`: every writable field the input carries is set, the rest are kept. */
  function ApplyUpdate(e: Event, i: EventInput): (r: Event)
    ensures r.id == e.id && r.inviteCode == e.inviteCode && r.host == e.host
  {
    e.(name := i.name.GetOr(e.name),
       description := i.description.GetOr(e.description),
       date := i.date.GetOr(e.date),
       locationName := i.locationName.GetOr(e.locationName),
       placeId := i.placeId.GetOr(e.placeId),
       theme := i.theme.GetOr(e.theme),
       foodDescription := i.foodDescription.GetOr(e.foodDescription),
       hostName := i.hostName.GetOr(e.hostName),
       fee := i.fee.GetOr(e.fee),
       maxMembers := i.maxMembers.GetOr(e.maxMembers))
  }

  /** Whatever the client puts in the read-only fields, the stored event is the same. */
  lemma ReadOnlyFieldsIgnored(e: Event, i: EventInput, code: Option<string>, host: Option<Id>, hostName: string)
    ensures ApplyUpdate(e, i.(inviteCode := code, host := host)) == ApplyUpdate(e, i)
    ensures HasRequired(i) ==>
      CreateFields(i.(inviteCode := code, host := host), hostName) == CreateFields(i, hostName)
  {
  }

  /** Sending the same edit twice leaves the event as sending it once. */
  lemma ApplyUpdateIdempotent(e: Event, i: EventInput)
    ensures ApplyUpdate(ApplyUpdate(e, i), i) == ApplyUpdate(e, i)
  {
  }

  /** An empty partial update changes nothing. */
  lemma ApplyEmptyUpdate(e: Event)
    ensures ApplyUpdate(e, EventInput(None, None, None, None, None, None, None, None, None, None, None, None)) == e
  {
  }
}
