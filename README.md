# A verified model of the party app backend

The backend of the party app serves two kinds of client request.

REST handlers (`core/views.py`) let a user:
- create, list, edit and delete parties ("events");
- look a party up by its invite code;
- join a party by its key or its invite code;
- list the parties they joined;
- send friend requests by email and accept them.

Two Socket.IO namespaces (`joiny_server/sio.py`) handle realtime traffic.
- `/location` forwards position updates within a party room.
- `/chat` stores chat lines and sends each joiner the history since they joined.

The serializers (`core/serializers.py`) do three things:
- resolve a login identifier that may be an email or a username;
- map the sign-up fields onto Django's user;
- render an event with its members and its invite URL.

The model keeps the whole database as one value, `Models.Tables`. It holds:
- the user, event, participant, todo, chat-message, friendship and theme tables, each in primary-key order;
- each table's next key.

`Models.Consistent` is the invariant every modelled handler starts from and leaves behind. It covers:
- keys from 1 up to (not including) each table's next key, unique, rows in ascending key order;
- unique usernames and invite codes;
- one participant row per (event, user);
- at most one friendship edge per unordered pair of users, and no self-edge;
- every foreign key naming a stored row.

`Store.Database` is the ORM: a class whose one field is that value. Every insert, save and delete is a method on it that keeps the invariant.

Every REST handler is a pure step function, for example `Views.JoinStep(t, actor, data, now)`. It gives the response (status and body) and the tables after the request. The view-set classes perform the same handler statement by statement against the database, and each method is proved to agree with its step. The responses a step can give are listed branch by branch in a lemma beside it (`Views.JoinStepOutcomes` for `Views.JoinStep`). The properties of the handlers are lemmas about the steps:
- idempotence;
- deduplication;
- "nothing else changes";
- preservation of the invariant.

In the realtime model:
- each namespace is a class whose field is its room map, from room name to a set of session ids;
- each handler is one atomic step that returns the emissions it makes, each with the exact set of sessions it reaches.

Request bodies and payloads are maps to `Values.Value`: null, text or integer. Python's truthiness, `str()`, `int()` and ASCII `isdigit()` are modelled on them. Invite codes are 128-bit UUIDs with their canonical text form and the parser Django applies to text compared with the column.

The model takes these as parameters:
- clock readings: `now`, as an integer;
- the invite code the column default generates;
- the request's origin, for absolute URLs;
- the session id.

## Model

| member | source | states |
|---|---|---|
| Models.NewEvent | core/models.py:20-41 | a new event takes the generated invite code and the given host; theme defaults to 기본, host name to 주최자, fee to 0 and max members to 10 |
| Models.FriendGraphValidUniqueTogether | core/models.py:93-94 | the friend-graph invariant (one edge per unordered pair) implies the declared `unique_together` on (from_user, to_user) |
| Models.AppendKeepsGraph | core/models.py:83-94 | adding an edge between two distinct users with no edge yet keeps one edge per pair and no self-edge |
| Models.FewerEdgesKeepGraph | core/models.py:83-94 | any subset of a valid friend graph is valid |
| Models.AppendKeepsOnePerUser | core/models.py:47-51 | adding a row for a user not yet in the event keeps one row per (event, user) |
| Models.FewerRowsKeepOnePerUser | core/models.py:47-51 | any subset of the participant rows keeps one row per (event, user) |
| Models.DeleteEvent | core/models.py:47-48 | deleting an event removes exactly its participants, todos and chat messages, and the event; users and friendships are untouched |
| Models.DeleteEventIds | core/models.py:47-48 | after an event delete the event keys are the old ones less the deleted key |
| Models.DeleteEventKeepsParticipants | core/models.py:47-51 | the participant cascade leaves the participant table in key order with valid foreign keys |
| Models.DeleteEventKeepsEvents | core/models.py:20-41 | the event table stays in key order with unique keys and invite codes after an event delete |
| Models.DeleteEventKeepsTodos | core/models.py:58-59 | the todo cascade leaves only todos of stored events, in key order |
| Models.DeleteEventKeepsMessages | core/models.py:70-72 | the chat-message cascade leaves only messages of stored events by stored users, in key order |
| Models.DeleteEventKeepsRest | core/models.py:83-94 | users and friendships stay valid after an event delete |
| Models.DeleteEventConsistent | core/models.py:47-74 | the cascade of an event delete leaves the database consistent |
| Models.ClearHost | core/models.py:36 | `SET_NULL`: an event hosted by the deleted user loses its host and nothing else |
| Models.DeleteUser | core/models.py:36-74 | deleting a user keeps every event, host cleared, and removes exactly their participant rows, the messages they sent and every friendship either way |
| Models.DeleteUserKeepsEvents | core/models.py:36 | after a user delete the same event keys exist, each with its invite code |
| Models.ClearHosts | core/models.py:36 | `SET_NULL` over the event table: row by row, each event loses the deleted user as host |
| Models.ClearHostsRows | core/models.py:36 | every row after `SET_NULL` is an old row with the host cleared |
| Models.ClearHostKeepsKeys | core/models.py:36-40 | on any event sequence, `SET_NULL` keeps keys and invite codes unique |
| Models.ClearHostKeepsOrder | core/models.py:36 | `SET_NULL` keeps the rows in key order |
| Models.DeleteUserIds | core/models.py:36-74 | after a user delete the user keys are the old ones less the deleted key |
| Models.DeleteUserKeepsParticipants | core/models.py:47-51 | the participant table stays in key order with valid foreign keys and one row per (event, user) |
| Models.DeleteUserKeepsEventsValid | core/models.py:20-41 | the event table stays valid after the host is cleared |
| Models.DeleteUserKeepsUsers | core/models.py:36-74 | the user table stays in key order with unique usernames after a user delete |
| Models.DeleteUserKeepsTodos | core/models.py:58-59 | todos stay valid after a user delete: they refer to events only |
| Models.DeleteUserKeepsMessages | core/models.py:70-74 | the sender cascade leaves only messages by stored users, in key order |
| Models.DeleteUserKeepsFriendships | core/models.py:83-94 | removing every edge of the deleted user keeps the friend graph valid |
| Models.DeleteUserConsistent | core/models.py:36-94 | a user delete, with its cascades and `SET_NULL`, leaves the database consistent |
| Models.StatusUpdate | core/models.py:83-91 | a status save keeps the edge's key, ends and creation time |
| Models.SetStatus | core/models.py:87-91 | saving a status touches exactly the row with that key |
| Models.SetStatusRows | core/models.py:87-91 | every row after a status save is an old row, possibly with the new status |
| Models.SetStatusKeepsGraph | core/models.py:83-94 | a status change keeps edge keys unique, one edge per unordered pair and no self-edge |
| Models.SetStatusKeepsFriendships | core/models.py:83-94 | a status change keeps the friend graph valid |
| Models.SetStatusConsistent | core/models.py:83-94 | a status change keeps the whole database consistent |
| Models.OnlyFriendshipsChanged | core/models.py:83-94 | a change confined to the friendship table keeps every other table valid |
| Models.ReplaceEvent | core/models.py:20-41 | saving an edited event replaces exactly the row with its key |
| Models.ReplaceEventRows | core/models.py:20-41 | every row after the save is an old row or the edited event, and every old row is represented |
| Models.ReplaceEventKeepsUnique | core/models.py:36-40 | replacing a row by an edit with the same key and invite code keeps keys and invite codes unique |
| Models.ReplaceEventKeepsEvents | core/models.py:36-40 | an edit that keeps key, invite code and host keeps event keys and invite codes unique |
| Models.ReplaceEventKeepsEventIds | core/models.py:20-41 | an edit keeps the set of event keys |
| Models.ReplaceEventConsistent | core/models.py:20-41 | such an edit keeps the database consistent |
| Store.NormalizeEmail | core/serializers.py:39-46 | `create_user` stores the email with the same length, the part up to the last '@' unchanged and the part after it lower-cased; without '@' unchanged |
| Store.NormalizeEmailIdempotent | core/serializers.py:39-46 | normalizing a normalized email changes nothing |
| Store.LowerIdempotent | core/serializers.py:39-46 | lower-casing twice is lower-casing once |
| Store.Lower | core/serializers.py:39-46 | ASCII lower-casing, character by character |
| Store.LastAt | core/serializers.py:39-46 | the position of the last '@', or none |
| Store.AddUserKeepsUsers | core/serializers.py:39-46 | a user row with the next key and a fresh username keeps the user table in key order with unique usernames |
| Store.AddUserConsistent | core/serializers.py:39-46 | inserting a user with a fresh username and the next key keeps the database consistent |
| Models.NoParticipantsOfNextEvent | core/models.py:47-51 | in a valid database no participant row refers to the next event key, so a new event starts with no members |
| Store.AddEventConsistent | core/models.py:36-40 | inserting an event with a fresh invite code and a stored or empty host keeps the database consistent |
| Store.AddParticipantConsistent | core/models.py:47-51 | inserting a participant for a stored event and a user not yet in it keeps the database consistent |
| Store.AddMessageConsistent | core/models.py:70-74 | inserting a message with stored event and sender keeps the database consistent |
| Store.AddFriendshipKeepsFriendships | core/models.py:83-94 | an edge between two distinct stored users with no edge yet keeps the friendship table valid |
| Store.AddFriendshipConsistent | core/models.py:83-94 | inserting an edge between two distinct stored users with no edge yet keeps the database consistent |
| Store.Database.constructor | core/models.py:9-14 | an empty database with only the theme rows, every next key 1 as in Django's auto-increment, is consistent |
| Store.Database.CreateUser | core/serializers.py:39-46 | a taken username changes nothing; otherwise exactly one user row with the next key and the normalized email is appended |
| Store.Database.CreateEvent | core/models.py:40 | a taken invite code changes nothing (IntegrityError); otherwise exactly one event row is appended |
| Store.Database.CreateParticipant | core/models.py:47-51 | appends exactly one participant row, stamped `now` |
| Store.Database.CreateMessage | core/models.py:70-74 | a message whose event or sender is missing changes nothing; otherwise exactly one row, stamped `now`, is appended |
| Store.Database.CreateFriendship | core/models.py:83-91 | appends one edge with status pending, stamped `now` |
| Store.Database.SaveFriendshipStatus | core/models.py:87-91 | the friendship table becomes `SetStatus` of the old one; nothing else changes |
| Store.Database.SaveEvent | core/models.py:20-41 | the event table becomes `ReplaceEvent` of the old one; nothing else changes |
| Store.Database.DeleteEvent | core/models.py:47-74 | the tables become `Models.DeleteEvent` of the old ones |
| Serializers.LoginUser | core/serializers.py:54-61 | no user iff no email and no username matches; a found user matches; an email match always wins |
| Serializers.LoginPrefersEmail | core/serializers.py:56-60 | with an email match, the result is the first user in key order with that email |
| Serializers.ResolveLogin | core/serializers.py:50-67 | without both identifier and password, or with no match, attrs are unchanged; otherwise "username" becomes the found user's username and every other key is kept |
| Serializers.LoginEmailBeatsUsername | core/serializers.py:56-65 | when one user has the identifier as email and another as username, login resolves to the email owner |
| Serializers.LoginSerializer.Validate | core/serializers.py:50-65 | rewrites `attrs` in place to `ResolveLogin` of the old attrs |
| Serializers.LoginSerializer.constructor | core/serializers.py:50-52 | the serializer holds the submitted attrs |
| Serializers.ToUserData | core/serializers.py:20-25 | a user is shown as id, username, name (= username) and email |
| Serializers.Register | core/serializers.py:39-46 | sign-up stores username = email, email = normalized email and first name = submitted username, or changes nothing when that username is taken |
| Serializers.RegisteredUserLogsIn | core/serializers.py:39-65 | a fresh account logs in with the email it registered with, and login resolves to it |
| Serializers.InviteUrl | core/serializers.py:93-99 | no request gives no URL; otherwise the URL starts with the origin and is 44 characters longer |
| Serializers.InviteUrlCarriesCode | core/serializers.py:93-99 | the URL is origin + "/invite/" + a text that parses back to the invite code |
| Serializers.Serialize | core/serializers.py:78-99 | an event is shown with exactly its participants as members and its invite URL |
| Serializers.SerializeAll | core/serializers.py:78-99 | a list is shown element by element, in order |
| Serializers.CreateFields | core/serializers.py:78-91 | an insert takes name, date, theme, fee and max members from the input and the host name from the view |
| Serializers.ApplyUpdate | core/serializers.py:91 | an edit never changes the key, the invite code or the host |
| Serializers.Acceptable | core/serializers.py:82-91 | name, theme and host name are never accepted blank (their columns lack `blank=True`); beyond that a partial update is accepted, and a full write needs name and date |
| Serializers.ReadOnlyFieldsIgnored | core/serializers.py:91 | client values for invite code and host change neither an insert nor an edit |
| Serializers.ApplyUpdateIdempotent | core/serializers.py:91 | sending the same edit twice is sending it once |
| Serializers.ApplyEmptyUpdate | core/serializers.py:91 | an empty partial update changes nothing |
| Views.FindEvent | core/views.py:37 | `get_object` finds the event with that key, or reports there is none |
| Views.FindEventUnique | core/views.py:37 | in a valid table a stored event's key finds exactly that event |
| Views.EventList | core/views.py:23-26 | every event, each once, latest date first |
| Seqs.First | core/views.py:221-224 | `.first()`: none iff no row matches; otherwise a matching row |
| Seqs.FirstIsEarliest | core/views.py:221-224 | `.first()` on a table in key order picks the earliest match |
| Views.LatestFirst | core/views.py:86 | `order_by('-date')`: the same events, each as often as before, latest date first |
| Views.JoinRows | core/views.py:86 | the join through the participant table: an event is in it iff it is stored and one of the rows points at it |
| Views.JoinRowsOfUser | core/views.py:86 | the join of a user's rows holds exactly the stored events the user joined |
| Views.JoinedEvents | core/views.py:86 | exactly the events with a participant row for the user, latest date first, each as often as the join gives it |
| Views.JoinRowsMultiplicity | core/views.py:86 | over a table with unique keys, the join lists a stored event once per row pointing at it |
| Views.JoinedEventsPerRow | core/views.py:86 | `joined` lists each stored event once per participant row the user has in it |
| Views.AtMostOneRow | core/models.py:45-49 | in a participant table that keeps `Models.Consistent`, a user has at most one row per event (the table itself has no such constraint) |
| Views.JoinedEventsRepeat | core/views.py:86 | two rows of the user in one event make `joined` list that event twice: the query has no `.distinct()` |
| Views.Joined | core/views.py:76-89 | 401 iff anonymous; otherwise 200 with exactly `JoinedEvents`, each serialized with its members and invite URL, in the same order |
| Views.JoinedEventsDistinct | core/views.py:86 | in a consistent database, with one row per (event, user), `joined` lists each event once |
| Views.RetrieveByInviteCode | core/views.py:63-73 | text that is not a UUID gives 500; a UUID no event carries gives 404; otherwise 200 with the event bearing that code |
| Views.InviteCodeFindsEvent | core/views.py:63-73 | an event's invite code, as text, is routed to the handler and finds exactly that event |
| Views.CheckHostPermission | core/views.py:28-34 | allowed iff authenticated and the event has no host or the caller is the host |
| Views.UpdateStep | core/views.py:36-40 | 404 iff the key is unknown, 403 iff the host check fails, 400 iff the host check passes and the input is not acceptable, 200 otherwise; only a 200 changes the tables, by saving the edit over that event, and it answers with the edited event serialized from the saved tables |
| Views.DestroyStep | core/views.py:42-46 | 404, then 403 iff the host check fails; only a 204 changes the tables, by the event delete with its cascades |
| Views.HostlessEventEditable | core/views.py:28-46 | any authenticated user may edit and delete a host-less event |
| Views.HostEditsOwnEvent | core/views.py:36-40 | the host's acceptable edit of their own event is 200: the edit replaces that event's row, every other event stays, and the body is the edited event with its members |
| Views.BlankTextRefused | core/models.py:21-35 | a blank name, theme or host name never changes the tables: 400 for a create, and 400 (or the earlier 404/403) for an edit |
| Views.HostName | core/views.py:50 | the username, or "Guest" for an anonymous creator |
| Views.HostOf | core/views.py:51 | the creator as host, or none for an anonymous creator |
| Views.CreatorRows | core/views.py:55-60 | one participant row (event, creator, username) iff the creator is signed in |
| Views.PerformCreateStep | core/views.py:48-60 | fails iff the generated invite code is taken; otherwise the new event has the next key, that code and the creator as host, and is appended with the creator rows |
| Views.EnrolStep | core/views.py:54-60 | an anonymous creator adds nothing; a signed-in one adds exactly their row with the next key; nothing else changes |
| Views.CreateStep | core/views.py:48-60 | only 201, 400 or 500; only a 201 changes the tables, and it returns a stored event with the generated code and the creator as host |
| Views.CreateStepOutcomes | core/views.py:48-60 | 400 iff name or date is missing or a text field is blank, 500 iff the generated code is taken; otherwise one event and the creator rows are appended, and nothing else changes |
| Views.CreatorIsHostAndMember | core/views.py:48-60 | a signed-in creator is the host, the host name is their username, and they are the event's only member |
| Views.ParseEventRef | core/views.py:120-123 | a value whose text is all digits is a key; other text is an invite code when it parses as a UUID |
| Views.ResolveEvent | core/views.py:120-125 | a key finds the event with that key; a code finds the event with that code or none |
| Views.JoinName | core/views.py:133-136 | the supplied name when non-empty, else the username |
| Views.JoinStep | core/views.py:97-141 | 401 iff anonymous; only a 201 changes the tables, by adding the returned row, which belongs to the caller |
| Views.JoinStepOutcomes | core/views.py:97-141 | 401 iff anonymous; 400 iff signed in without an event; 500 iff the text is neither a key nor a UUID; 404 iff no event; 200 "Already joined." iff the user has a row; 201 iff none of these, and then exactly one row (event, user, name) is appended |
| Views.JoinByStoredKey | core/views.py:114-138 | a stored event's integer key is never the falsy 0: joining by it is 201 iff the user has no row, else 200 "Already joined." |
| Views.JoinIdempotent | core/views.py:127-129 | repeating a successful join is 200 "Already joined." and changes nothing |
| Views.JoinConsistent | core/views.py:97-141 | a join keeps the database consistent, so one row per (event, user) |
| Views.VisibleFriendships | core/views.py:201-204 | exactly the edges the caller is on either end of |
| Views.VisibleFriendshipsDistinct | core/views.py:201-204 | each edge the caller is on is listed once |
| Views.EdgeBetween | core/views.py:221-224 | the edge between two users in either direction, or none |
| Views.UsersWithEmail | core/views.py:213 | exactly the users with that email |
| Views.ExistingMessage | core/views.py:226-229 | "Already friends." iff the edge is accepted |
| Views.FriendRequestStep | core/views.py:206-234 | 401 iff anonymous; only a 201 changes the tables, by adding the returned pending edge from the caller to someone else; its body shows the caller as `from_user` and, as `to_user`, the user with the requested email |
| Views.FriendRequestStepOutcomes | core/views.py:206-234 | 401 iff anonymous; 400 without email; 404 iff no user has it; 500 iff several do; 400 iff it is the caller's own; 200 iff an edge exists either way, with its message; 201 otherwise, appending exactly one pending edge caller→target |
| Views.FriendRequestConsistent | core/views.py:206-234 | a friend request keeps the database consistent: no self-edge, one edge per pair |
| Views.RequestRecorded | core/views.py:220-234 | after a created request the new pending edge is the one edge between caller and target, looked up either way round, and the users are unchanged |
| Views.UniqueEmailFindsUser | core/views.py:213 | a user whose email no one else has is the only user the email lookup finds |
| Views.FriendRequestDeduplicated | core/views.py:220-229 | after a request a→b, repeating it or b's request back to a (by a's unique email) is 200 "Request already sent or received." and changes nothing |
| Views.FindVisible | core/views.py:201-204 | the edge with that key, only if the caller is on it |
| Views.AcceptStep | core/views.py:236-246 | 401 iff anonymous; 404 iff the caller cannot see the edge; 403 iff the caller is not its recipient; 200 iff none of these, and then only that edge's status becomes accepted |
| Views.SetStatusIdempotent | core/views.py:244-245 | saving the same status twice is saving it once |
| Views.AcceptChangesOneStatus | core/views.py:236-246 | an accept changes only that edge's status; every other row and table is as before |
| Views.AcceptIdempotent | core/views.py:236-246 | accepting again is 200 and changes nothing |
| Views.AcceptedMeansAlreadyFriends | core/views.py:226-228 | once accepted, a request either way between the two is answered "Already friends." |
| Views.EventViewSet.Update | core/views.py:36-40 | performs `UpdateStep` on the database, keeping it consistent |
| Views.EventViewSet.Destroy | core/views.py:42-46 | performs `DestroyStep` on the database, keeping it consistent |
| Views.EventViewSet.PerformCreate | core/views.py:48-60 | `perform_create` fails, changing nothing, iff the generated invite code is taken; otherwise it stores the event and enrols a signed-in creator exactly as `PerformCreateStep` says, keeping the database consistent |
| Views.EventViewSet.EnrolCreator | core/views.py:54-60 | a signed-in creator's participant row is appended to a fresh event; an anonymous creator adds nothing |
| Views.EventViewSet.Create | core/views.py:48-60 | performs `CreateStep` on the database, keeping it consistent |
| Views.ParticipantViewSet.Create | core/views.py:97-141 | performs `JoinStep` on the database, keeping it consistent |
| Views.FriendshipViewSet.Create | core/views.py:206-234 | performs `FriendRequestStep` on the database, keeping it consistent |
| Views.FriendshipViewSet.Accept | core/views.py:236-246 | performs `AcceptStep` on the database, keeping it consistent |
| Values.Get | joiny_server/sio.py:23 | `data.get(key)` is the stored value, or None |
| Values.Truthy | core/views.py:114 | None, "" and 0 are false: a text is true iff non-empty, an integer iff its `str()` is not "0" |
| Values.IsDigits | core/views.py:120 | a digit string is non-empty and has no sign |
| Values.PyStr | core/views.py:120 | `str()` keeps text, writes a non-negative integer as digits of its value, a negative one as '-' and the digits of its magnitude |
| Values.PyInt | joiny_server/sio.py:83-90 | `int()` keeps an integer and reads digits with an optional '+' or '-' sign as their signed decimal value; None and any other text are rejected |
| Values.StrIntRoundTrip | core/views.py:120-121 | `int(str(i)) == i` for every integer |
| Values.IsDigitsOfPyStr | core/views.py:120 | `str(v).isdigit()` holds iff v is a non-negative integer or a digit string |
| Values.DigitsValueOfNatToString | core/views.py:120-121 | decimal notation read back gives the number |
| Uuids.Format | core/models.py:40 | the canonical text of a UUID is 36 characters |
| Uuids.FormatShape | core/models.py:40 | hyphens exactly at 8, 13, 18 and 23, lower-case hex digits elsewhere |
| Uuids.Parse | core/views.py:67 | `uuid.UUID(text)`: after removing "urn:", "uuid:", braces and hyphens, exactly 32 characters read as a hexadecimal `int()`; shorter text is rejected |
| Uuids.HexIntOfHex | core/views.py:67 | 32 hex digits read back give their value |
| Uuids.CleanedFormat | core/views.py:67 | cleaning the canonical text leaves its 32 digits |
| Uuids.ParseFormat | core/models.py:40 | the canonical text of a UUID parses back to it |
| Uuids.ParseUrn | core/views.py:67 | "urn:uuid:" followed by the canonical text parses to the same UUID |
| Uuids.FormatInjective | core/models.py:40 | distinct invite codes have distinct texts |
| Uuids.FormatPathSafe | core/views.py:63 | the canonical text has no '/' or '.', so the route accepts it |
| Uuids.RemoveHyphensOfFormat | core/models.py:40 | removing the hyphens from the canonical text leaves the 32 digits |
| Realtime.RoomKey | joiny_server/sio.py:24 | the room name is "party_" followed by `str(party_id)` |
| Realtime.RoomKeyInjective | joiny_server/sio.py:23-25 | two party ids share a room iff their `str()` is equal |
| Realtime.Members | joiny_server/sio.py:48 | the sessions in a room; none for an unknown room |
| Realtime.EnterRoom | joiny_server/sio.py:25 | the room gains the session; every other room is unchanged; no empty room appears |
| Realtime.LeaveRoom | joiny_server/sio.py:32 | the room loses the session and is dropped when empty; every other room is unchanged |
| Realtime.EnterThenLeave | joiny_server/sio.py:19-33 | entering a room and leaving it restores the rooms exactly |
| Realtime.Recipients | joiny_server/sio.py:143-148 | the room's sessions, less the skipped one |
| Realtime.BroadcastRecipients | joiny_server/sio.py:48-148 | a location update skips its sender; a chat line reaches the whole room |
| Realtime.SelectHistory | joiny_server/sio.py:85-91 | exactly the event's messages created at or after the join, in ascending creation time |
| Realtime.SelectHistoryDistinct | joiny_server/sio.py:87-90 | each stored message appears in a history at most once |
| Realtime.Entry | joiny_server/sio.py:94-100 | a history line is the sender's username, the text, the time and the marker "history" |
| Realtime.Entries | joiny_server/sio.py:93-101 | one history line per selected message, in order |
| Realtime.ChatHistory | joiny_server/sio.py:79-104 | an id `int()` rejects escapes as an error; no participant row gives the empty history |
| Realtime.HistoryOfParticipant | joiny_server/sio.py:82-101 | for a participant, the history is the lines of their event's messages since their `joined_at` |
| Realtime.HistoryInOrderSince | joiny_server/sio.py:85-101 | history lines are in time order, none before the join |
| Realtime.JoinEmissions | joiny_server/sio.py:73-108 | an emission happens iff both ids are given and the history is found and non-empty; it is then exactly one "chat_history" with that history, to the joiner only |
| Realtime.ParticipantReceivesHistory | joiny_server/sio.py:66-108 | a participant joining with their keys gets exactly their event's messages since they joined, to their session only, when there are any |
| Realtime.SaveChat | joiny_server/sio.py:127-140 | a message is stored iff a user id is given and both ids convert and name stored rows; then exactly that row is appended |
| Realtime.SavedChatInHistory | joiny_server/sio.py:79-140 | a stored chat line is in the history of every participant who joined by then |
| Realtime.ChatFromStoredKeysSaved | joiny_server/sio.py:127-137 | a chat line naming a stored event and user by their integer keys is saved as exactly one new message |
| Realtime.LocationNamespace.constructor | joiny_server/sio.py:150 | the namespace starts with no rooms |
| Realtime.LocationNamespace.OnJoinParty | joiny_server/sio.py:19-26 | without a party id nothing happens; otherwise the session enters the room and only it gets the ack |
| Realtime.LocationNamespace.OnLeaveParty | joiny_server/sio.py:28-33 | without a party id nothing happens; otherwise the session leaves the room and only it gets the ack |
| Realtime.LocationNamespace.OnLocationUpdate | joiny_server/sio.py:35-48 | the payload goes unchanged to every room member except the sender; rooms and tables are untouched |
| Realtime.ChatNamespace.constructor | joiny_server/sio.py:151 | the namespace starts with no rooms, over a consistent database |
| Realtime.ChatNamespace.BuildHistory | joiny_server/sio.py:93-101 | the loop builds one history line per message, in order |
| Realtime.ChatNamespace.GetChatHistory | joiny_server/sio.py:79-104 | computes `ChatHistory` |
| Realtime.ChatNamespace.OnJoinParty | joiny_server/sio.py:66-111 | without a party id nothing happens; otherwise the session enters the room and receives `JoinEmissions`; the tables are untouched |
| Realtime.ChatNamespace.OnLeaveParty | joiny_server/sio.py:113-116 | the session leaves the room; no ack; the tables are untouched |
| Realtime.ChatNamespace.OnChatMessage | joiny_server/sio.py:118-148 | with party id and message, the tables become `SaveChat` and the line goes to the whole room, whether or not it was stored; otherwise nothing happens |

## Left out

- `joiny_server/urls.py`, `core/admin.py` and `debug_500.py`: routing, admin registration and a debugging script; none of these files is part of this model. The router's invite-code pattern appears only as the precondition `Views.InviteRoute`: one non-empty path segment without '/' or '.'.
- JWT issuance (`RefreshToken.for_user`, the token library's `validate`) and password hashing: foreign library calls. A stored password is `Hashed(password)`, and login stops at the rewritten attrs.
- `build_absolute_uri`: the scheme and host come in as the `origin` parameter.
- `TodoViewSet`, `ThemeViewSet`, `RegisterView`, `UserDetailView`: framework code with nothing custom. The same goes for the default list, retrieve and destroy actions of the other view sets. Todos and themes are plain records.
- The default `update` and `partial_update` of `FriendshipViewSet` and `ParticipantViewSet` are framework actions. They are not modelled, and `Models.Consistent` is not claimed for them. `status` stays writable in the friendship serializer, so a PATCH lets a sender accept their own request, or lets either side set it back to pending. A participant PUT or PATCH can move a row onto an (event, user) pair that already has one, which breaks one row per (event, user).
- Field validation by the serializers beyond the required name and date and the non-blank name, theme and host name of an event: lengths, email syntax, non-negative `max_members`, and the unique-username validator of sign-up. That validator checks the submitted `username`, which is stored as `first_name`, so the model's sign-up skips its 400.
- `Store.Database.CreateUser`, `Serializers.Register`: a taken email, which becomes the username, passes validation and makes `create_user` fail with an IntegrityError, a 500. The model reports it as `None` and changes nothing.
- `Store.Lower`, `Store.NormalizeEmail`, `Serializers.Register`: Django lower-cases the domain with Unicode `str.lower` and NFKC-normalizes the username. The model lower-cases ASCII letters only and stores the username as given.
- `Views.ParseEventRef`, `Values.PyInt`, `Values.IsDigits`: Python's `int()` also accepts surrounding whitespace and underscores between digits, and `isdigit()` and `int()` accept non-ASCII digits. The model takes ASCII digits with an optional sign only, and rejects the rest.
- `Uuids.Parse`: `int(..., 16)` also strips the separators U+001C to U+001F and non-ASCII whitespace, and accepts non-ASCII digits. The model strips space, tab, line feed, carriage return, vertical tab and form feed, and takes the hex digits 0-9, a-f and A-F. A '-' sign never reaches `int()` because the hyphens are removed first.
- `Views.FindEvent`, `Views.FindVisible`: the URL key is taken as an integer. The router passes any `[^/.]+` segment to `update`, `destroy` and `accept`. A non-numeric key reaches `get_object`, which answers 404 as for an unknown key; the model has no such key.
- `Views.JoinedEvents`, `Views.EventList`, `Realtime.SelectHistory`: the database leaves the order of rows with the same sort key unspecified, that is events with the same date and messages with the same `created_at`. The model's insertion sort fixes one such order.
- Latitude and longitude: they are only forwarded, inside the opaque location payload.
- Floats and booleans in request bodies: values are null, text or integers only.
- Times are integers; `isoformat()` in the history lines is not modelled, so a history line carries the integer time.
- Anonymous calls to the friendship view set are answered 401 by the framework's authentication before the handler runs; the model returns 401 directly.
- Concurrency: each handler is one atomic step, so races between concurrent joins or friend requests are not modelled. Both handlers check then create.
- `Models.Consistent` asks for one participant row per (event, user), which the database does not enforce. Every modelled step preserves it; the framework update actions above and concurrent joins can break it. The handlers are modelled for any tables: `Views.JoinedEventsRepeat` shows an event listed twice by `joined`, and `Realtime.ChatHistory` treats several rows as the error it swallows.
- Connect and disconnect handlers, logging, `sync_to_async` and CORS configuration: I/O and plumbing only.
- Disconnecting does not remove a session from its rooms in the model, because the connect and disconnect handlers are not modelled.
