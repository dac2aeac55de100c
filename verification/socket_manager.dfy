/**
  The Python back end's socket registry: which user holds which socket and
  which rooms each user has joined, as the connect, disconnect, join and
  leave handlers keep them, and the rooms a notification is sent to.
  The socket library's own room membership and the transport of events are
  not modelled: each handler returns the registry it leaves behind and the
  event it emits to the calling socket.
 */
module SocketManager {
  import opened Wrappers
  import opened Text

  /** One `connected_users` entry: the user, the socket, the connection time and the rooms. */
  datatype Connection = Connection(user: nat, socketId: string, connectedAt: nat, rooms: seq<string>)

  /**
    `connected_users` as an insertion-ordered dictionary (a Python `dict`
    keeps the position of a key that is overwritten), and `user_rooms`.
   */
  datatype Registry = Registry(connected: seq<Connection>, userRooms: map<nat, seq<string>>)

  /** The registry of a freshly started server. */
  const Empty := Registry([], map[])

  /** An id carried in an event payload: a JSON number or a JSON string. */
  datatype PayloadId = NumberId(n: nat) | TextId(s: string)

  /** Python truthiness of an id: `0` and `''` are false. */
  predicate Truthy(id: PayloadId) {
    match id
    case NumberId(n) => n != 0
    case TextId(s) => s != ""
  }

  /** `data.get(key)` is present and truthy. */
  predicate Present(id: Option<PayloadId>) {
    id.Some? && Truthy(id.value)
  }

  /** The id as an f-string prints it. */
  function Render(id: PayloadId): string {
    match id
    case NumberId(n) => NatToString(n)
    case TextId(s) => s
  }

  /** A user's personal room, `user_{uid}`. */
  function PersonalRoom(uid: nat): (r: string)
    ensures |r| > 5 && r[..5] == "user_" && r[5..] == NatToString(uid)
  {
    "user_" + NatToString(uid)
  }

  /** A phone number's room, `phone_{id}`; it is never a personal room. */
  function PhoneRoom(id: PayloadId): (r: string)
    ensures |r| >= 6 && r[..6] == "phone_" && r[6..] == Render(id)
    ensures forall uid :: r != PersonalRoom(uid)
  {
    var r := "phone_" + Render(id);
    assert forall uid :: PersonalRoom(uid)[0] == 'u';
    r
  }

  const IdRequired := "Phone number ID required"
  const LeaveFailed := "Failed to leave room"

  /** What a handler emits to the calling socket. */
  datatype Event =
    | Connected(user: nat)
    | Refused
    | JoinedRoom(room: string)
    | LeftRoom(room: string)
    | ErrorEvent(message: string)

  /** The registry a handler leaves behind and the event it emits. */
  datatype Step = Step(registry: Registry, event: Event)

  // ---------------------------------------------------------------------
  // connected_users as an ordered dictionary
  // ---------------------------------------------------------------------

  /** The keys of `connected_users`. */
  function Users(c: seq<Connection>): set<nat> {
    set x | x in c :: x.user
  }

  /** Dictionary keys are unique. */
  predicate DistinctUsers(c: seq<Connection>) {
    forall i, j :: 0 <= i < j < |c| ==> c[i].user != c[j].user
  }

  /** Two entries of a dictionary with the same key are the same entry. */
  lemma SameUserSameEntry(c: seq<Connection>, x: Connection, y: Connection)
    requires DistinctUsers(c) && x in c && y in c && x.user == y.user
    ensures x == y
  {
    var i :| 0 <= i < |c| && c[i] == x;
    var j :| 0 <= j < |c| && c[j] == y;
    assert i == j;
  }

  /** `connected_users.get(uid)`. */
  function Lookup(c: seq<Connection>, uid: nat): (r: Option<Connection>)
    ensures r.Some? <==> uid in Users(c)
    ensures r.Some? ==> r.value in c && r.value.user == uid
    decreases |c|
  {
    if |c| == 0 then None
    else if c[0].user == uid then Some(c[0])
    else
      var rest := Lookup(c[1..], uid);
      assert Users(c) == {c[0].user} + Users(c[1..]) by {
        assert forall x :: x in c <==> x == c[0] || x in c[1..];
      }
      rest
  }

  /** `connected_users[e.user] = e`: overwrites the entry in place, or appends a new key. */
  function Put(c: seq<Connection>, e: Connection): (r: seq<Connection>)
    requires DistinctUsers(c)
    ensures DistinctUsers(r)
    ensures Users(r) == Users(c) + {e.user}
    ensures e in r
    ensures forall x :: x in r && x.user != e.user ==> x in c
    ensures forall x :: x in c && x.user != e.user ==> x in r
    decreases |c|
  {
    if |c| == 0 then [e]
    else
      TailUsersDiffer(c);
      assert forall x :: x in c <==> x == c[0] || x in c[1..];
      if c[0].user == e.user then
        var r := [e] + c[1..];
        assert forall x :: x in r <==> x == e || x in c[1..];
        r
      else
        var tail := Put(c[1..], e);
        var r := [c[0]] + tail;
        assert forall x :: x in r <==> x == c[0] || x in tail;
        r
  }

  /** In a dictionary, the first key does not occur again. */
  lemma TailUsersDiffer(c: seq<Connection>)
    requires DistinctUsers(c) && |c| > 0
    ensures forall x :: x in c[1..] ==> x.user != c[0].user
  {
    forall x | x in c[1..] ensures x.user != c[0].user {
      var k :| 0 <= k < |c[1..]| && c[1..][k] == x;
      assert c[0].user != c[k + 1].user;
    }
  }

  /** Sequences with the same members, but for key `uid`, have the same keys but for `uid`. */
  lemma UsersWithout(r: seq<Connection>, c: seq<Connection>, uid: nat)
    requires forall x :: x in r <==> x in c && x.user != uid
    ensures Users(r) == Users(c) - {uid}
  {
  }

  /** `del connected_users[uid]`. */
  function Delete(c: seq<Connection>, uid: nat): (r: seq<Connection>)
    requires DistinctUsers(c)
    ensures DistinctUsers(r)
    ensures forall x :: x in r <==> x in c && x.user != uid
    ensures Users(r) == Users(c) - {uid}
  {
    var r := DeleteFrom(c, uid);
    UsersWithout(r, c, uid);
    r
  }

  /** The entries of `c` whose key is not `uid`, in order. */
  function DeleteFrom(c: seq<Connection>, uid: nat): (r: seq<Connection>)
    requires DistinctUsers(c)
    ensures DistinctUsers(r)
    ensures forall x :: x in r <==> x in c && x.user != uid
    decreases |c|
  {
    if |c| == 0 then []
    else
      var tail := DeleteFrom(c[1..], uid);
      assert forall x :: x in c <==> x == c[0] || x in c[1..];
      if c[0].user == uid then tail
      else
        TailUsersDiffer(c);
        [c[0]] + tail
  }

  /** `len(connected_users)` counts the keys, because keys are unique. */
  lemma {:induction false} DistinctUsersCount(c: seq<Connection>)
    requires DistinctUsers(c)
    ensures |Users(c)| == |c|
    decreases |c|
  {
    if |c| > 0 {
      DistinctUsersCount(c[1..]);
      assert forall x :: x in c <==> x == c[0] || x in c[1..];
      assert Users(c) == {c[0].user} + Users(c[1..]);
      TailUsersDiffer(c);
    }
  }

  /** `get_user_id_from_socket`: the first user, in dictionary order, whose socket is `sid`. */
  function UserOfSocket(c: seq<Connection>, sid: string): (r: Option<nat>)
    ensures r.None? <==> forall x :: x in c ==> x.socketId != sid
    ensures r.Some? ==> exists i :: 0 <= i < |c| && c[i].socketId == sid && c[i].user == r.value
    ensures r.Some? ==> r.value in Users(c)
    decreases |c|
  {
    if |c| == 0 then None
    else if c[0].socketId == sid then Some(c[0].user)
    else
      var rest := UserOfSocket(c[1..], sid);
      assert forall x :: x in c <==> x == c[0] || x in c[1..];
      if rest.Some? then
        var i :| 0 <= i < |c[1..]| && c[1..][i].socketId == sid && c[1..][i].user == rest.value;
        assert c[i + 1] in c;
        rest
      else rest
  }

  /** The socket a tracked user is known by, as the handlers see it (`if user_id:`). */
  function Tracked(reg: Registry, sid: string): (r: Option<nat>)
    ensures r.Some? ==> r.value != 0 && r.value in Users(reg.connected)
    ensures r.Some? ==> r == UserOfSocket(reg.connected, sid)
    ensures r.None? <==> UserOfSocket(reg.connected, sid).None? || UserOfSocket(reg.connected, sid).value == 0
  {
    var holder := UserOfSocket(reg.connected, sid);
    if holder.Some? && holder.value != 0 then holder else None
  }

  /** `user_rooms.get(uid, [])`. */
  function RoomsOf(reg: Registry, uid: nat): seq<string> {
    if uid in reg.userRooms then reg.userRooms[uid] else []
  }

  /** The position of the first occurrence of `x` (`list.index(x)`). */
  function IndexOf(s: seq<string>, x: string): (k: nat)
    requires x in s
    ensures k < |s| && s[k] == x && x !in s[..k]
  {
    if s[0] == x then 0
    else
      var k := IndexOf(s[1..], x);
      assert s[..k + 1] == [s[0]] + s[1..][..k];
      k + 1
  }

  /** `list.remove(x)`: drops the first occurrence of `x`. */
  function RemoveFirst(s: seq<string>, x: string): (r: seq<string>)
    requires x in s
    ensures multiset(r) == multiset(s) - multiset{x}
    ensures |r| == |s| - 1
    ensures exists k :: 0 <= k < |s| && s[k] == x && x !in s[..k] && r == s[..k] + s[k + 1..]
  {
    var k := IndexOf(s, x);
    assert s == s[..k] + [x] + s[k + 1..];
    s[..k] + s[k + 1..]
  }

  // ---------------------------------------------------------------------
  // Handlers
  // ---------------------------------------------------------------------

  /**
    The registry invariant the handlers keep: keys are unique, both
    dictionaries have the same keys, and the rooms recorded on a connection
    are among the rooms recorded for its user.
   */
  predicate Consistent(reg: Registry) {
    && DistinctUsers(reg.connected)
    && Users(reg.connected) == reg.userRooms.Keys
    && forall x :: x in reg.connected ==> multiset(x.rooms) <= multiset(reg.userRooms[x.user])
  }

  lemma EmptyIsConsistent()
    ensures Consistent(Empty)
  {
  }

  /**
    `handle_connect`: `token` is the auth payload's `token` entry and
    `decode` stands for the JWT decoder together with the `sub` lookup
    (`None` when either raises). The connection records only the personal
    room; `user_rooms` gains the personal room once more on every connect.
   */
  function Connect(reg: Registry, token: Option<string>, sid: string, now: nat, decode: string -> Option<nat>): (r: Step)
    requires DistinctUsers(reg.connected)
    ensures r.event.Refused? <==> (token.None? || token.value == "" || decode(token.value).None?)
    ensures r.event.Refused? ==> r.registry == reg
    ensures !r.event.Refused? ==> token.Some? && decode(token.value).Some?
    ensures !r.event.Refused? ==>
      var uid := decode(token.value).value;
      && r.event == Connected(uid)
      && DistinctUsers(r.registry.connected)
      && Connection(uid, sid, now, [PersonalRoom(uid)]) in r.registry.connected
      && Users(r.registry.connected) == Users(reg.connected) + {uid}
      && (forall x :: x in reg.connected && x.user != uid ==> x in r.registry.connected)
      && r.registry.userRooms == reg.userRooms[uid := RoomsOf(reg, uid) + [PersonalRoom(uid)]]
  {
    if token.None? || token.value == "" then Step(reg, Refused)
    else match decode(token.value)
      case None => Step(reg, Refused)
      case Some(uid) =>
        var room := PersonalRoom(uid);
        var entry := Connection(uid, sid, now, [room]);
        Step(Registry(Put(reg.connected, entry), reg.userRooms[uid := RoomsOf(reg, uid) + [room]]), Connected(uid))
  }

  /** Replaces the rooms of `uid`'s connection. */
  function WithRooms(c: seq<Connection>, uid: nat, rooms: seq<string>): (r: seq<Connection>)
    requires DistinctUsers(c) && uid in Users(c)
    ensures DistinctUsers(r) && Users(r) == Users(c)
    ensures Lookup(c, uid).value.(rooms := rooms) in r
    ensures forall x :: x in r && x.user != uid ==> x in c
    ensures forall x :: x in c && x.user != uid ==> x in r
  {
    Put(c, Lookup(c, uid).value.(rooms := rooms))
  }

  /**
    `handle_join_phone_room`: a missing or empty id is answered with an
    error; otherwise the socket is acknowledged, and a tracked user gets the
    room added to both records unless `user_rooms` already holds it.
   */
  function Join(reg: Registry, sid: string, phoneId: Option<PayloadId>): (r: Step)
    requires DistinctUsers(reg.connected)
    ensures !Present(phoneId) ==> r == Step(reg, ErrorEvent(IdRequired))
    ensures Present(phoneId) ==> r.event == JoinedRoom(PhoneRoom(phoneId.value))
    ensures DistinctUsers(r.registry.connected)
    ensures Users(r.registry.connected) == Users(reg.connected)
    ensures Present(phoneId) && Tracked(reg, sid).Some? ==>
      var uid := Tracked(reg, sid).value;
      var room := PhoneRoom(phoneId.value);
      && uid in r.registry.userRooms
      && room in r.registry.userRooms[uid]
      && (room in RoomsOf(reg, uid) ==> r.registry == reg)
      && (room !in RoomsOf(reg, uid) ==>
            && r.registry.userRooms == reg.userRooms[uid := RoomsOf(reg, uid) + [room]]
            && Lookup(reg.connected, uid).value.(rooms := Lookup(reg.connected, uid).value.rooms + [room]) in r.registry.connected
            && (forall x :: x in reg.connected && x.user != uid ==> x in r.registry.connected))
    ensures Tracked(reg, sid).None? ==> r.registry == reg
  {
    if !Present(phoneId) then Step(reg, ErrorEvent(IdRequired))
    else
      var room := PhoneRoom(phoneId.value);
      var holder := Tracked(reg, sid);
      if holder.None? then Step(reg, JoinedRoom(room))
      else
        var uid := holder.value;
        var prior := RoomsOf(reg, uid);
        if room in prior then Step(reg, JoinedRoom(room))
        else
          var e := Lookup(reg.connected, uid).value;
          Step(Registry(WithRooms(reg.connected, uid, e.rooms + [room]), reg.userRooms[uid := prior + [room]]), JoinedRoom(room))
  }

  /**
    `handle_leave_phone_room`: a tracked user whose `user_rooms` holds the
    room loses one copy of it there; then the same room is removed from the
    connection's own list, and when that list does not hold it the
    `ValueError` is caught and reported as `Failed to leave room`, with
    `user_rooms` already changed.
   */
  function Leave(reg: Registry, sid: string, phoneId: Option<PayloadId>): (r: Step)
    requires DistinctUsers(reg.connected)
    ensures !Present(phoneId) ==> r == Step(reg, ErrorEvent(IdRequired))
    ensures Present(phoneId) ==>
      r.event == LeftRoom(PhoneRoom(phoneId.value)) || r.event == ErrorEvent(LeaveFailed)
    ensures DistinctUsers(r.registry.connected)
    ensures Users(r.registry.connected) == Users(reg.connected)
    ensures r.registry.userRooms.Keys == reg.userRooms.Keys
    ensures (Tracked(reg, sid).None? || Tracked(reg, sid).value !in reg.userRooms) ==> r.registry == reg
    ensures Present(phoneId) && Tracked(reg, sid).Some? && Tracked(reg, sid).value in reg.userRooms ==>
      var uid := Tracked(reg, sid).value;
      var room := PhoneRoom(phoneId.value);
      && (forall u :: u in reg.userRooms && u != uid ==> r.registry.userRooms[u] == reg.userRooms[u])
      && multiset(r.registry.userRooms[uid]) == multiset(reg.userRooms[uid]) - multiset{room}
      && (r.event == ErrorEvent(LeaveFailed) <==>
            room in reg.userRooms[uid] && room !in Lookup(reg.connected, uid).value.rooms)
      && (r.event.ErrorEvent? ==> r.registry.connected == reg.connected)
      && (r.event.LeftRoom? && room in reg.userRooms[uid] ==>
            Lookup(reg.connected, uid).value.(rooms := RemoveFirst(Lookup(reg.connected, uid).value.rooms, room)) in r.registry.connected)
      && (room !in reg.userRooms[uid] ==> r == Step(reg, LeftRoom(room)))
      && (room in reg.userRooms[uid] ==> r.registry.userRooms == reg.userRooms[uid := RemoveFirst(reg.userRooms[uid], room)])
    ensures forall x :: x in r.registry.connected && (Tracked(reg, sid).None? || x.user != Tracked(reg, sid).value) ==> x in reg.connected
  {
    if !Present(phoneId) then Step(reg, ErrorEvent(IdRequired))
    else
      var room := PhoneRoom(phoneId.value);
      var holder := Tracked(reg, sid);
      if holder.None? || holder.value !in reg.userRooms then Step(reg, LeftRoom(room))
      else LeaveTracked(reg, holder.value, room)
  }

  /** The part of `handle_leave_phone_room` that runs for a tracked user with a `user_rooms` entry. */
  function LeaveTracked(reg: Registry, uid: nat, room: string): (r: Step)
    requires DistinctUsers(reg.connected) && uid in Users(reg.connected) && uid in reg.userRooms
    ensures r.event == LeftRoom(room) || r.event == ErrorEvent(LeaveFailed)
    ensures DistinctUsers(r.registry.connected)
    ensures Users(r.registry.connected) == Users(reg.connected)
    ensures r.registry.userRooms.Keys == reg.userRooms.Keys
    ensures forall u :: u in reg.userRooms && u != uid ==> r.registry.userRooms[u] == reg.userRooms[u]
    ensures multiset(r.registry.userRooms[uid]) == multiset(reg.userRooms[uid]) - multiset{room}
    ensures r.event == ErrorEvent(LeaveFailed) <==>
      room in reg.userRooms[uid] && room !in Lookup(reg.connected, uid).value.rooms
    ensures r.event.ErrorEvent? ==> r.registry.connected == reg.connected
    ensures r.event.LeftRoom? && room in reg.userRooms[uid] ==>
      Lookup(reg.connected, uid).value.(rooms := RemoveFirst(Lookup(reg.connected, uid).value.rooms, room)) in r.registry.connected
    ensures forall x :: x in r.registry.connected && x.user != uid ==> x in reg.connected
    ensures room !in reg.userRooms[uid] ==> r == Step(reg, LeftRoom(room))
    ensures room in reg.userRooms[uid] ==> r.registry.userRooms == reg.userRooms[uid := RemoveFirst(reg.userRooms[uid], room)]
  {
    if room !in reg.userRooms[uid] then
      assert multiset(reg.userRooms[uid])[room] == 0;
      Step(reg, LeftRoom(room))
    else
      var kept := reg.userRooms[uid := RemoveFirst(reg.userRooms[uid], room)];
      var e := Lookup(reg.connected, uid).value;
      if room in e.rooms then
        Step(Registry(WithRooms(reg.connected, uid, RemoveFirst(e.rooms, room)), kept), LeftRoom(room))
      else
        Step(reg.(userRooms := kept), ErrorEvent(LeaveFailed))
  }

  /**
    `handle_disconnect`: the first user whose socket is `sid` loses both
    entries; an unknown socket (or the falsy user id 0) changes nothing.
   */
  function Disconnect(reg: Registry, sid: string): (r: Registry)
    requires DistinctUsers(reg.connected)
    ensures Tracked(reg, sid).None? ==> r == reg
    ensures Tracked(reg, sid).Some? ==>
      var uid := Tracked(reg, sid).value;
      && uid !in Users(r.connected) && uid !in r.userRooms
      && Users(r.connected) == Users(reg.connected) - {uid}
      && r.userRooms == reg.userRooms - {uid}
      && (forall x :: x in r.connected <==> x in reg.connected && x.user != uid)
    ensures DistinctUsers(r.connected)
  {
    match Tracked(reg, sid)
    case None => reg
    case Some(uid) => Registry(Delete(reg.connected, uid), reg.userRooms - {uid})
  }

  // ---------------------------------------------------------------------
  // Queries
  // ---------------------------------------------------------------------

  /** `get_connected_users_count`: the number of connected users. */
  function ConnectedCount(reg: Registry): (n: nat)
    requires DistinctUsers(reg.connected)
    ensures n == |Users(reg.connected)|
  {
    DistinctUsersCount(reg.connected);
    |reg.connected|
  }

  /** `is_user_connected`: whether `uid` is a key of `connected_users`. */
  function IsUserConnected(reg: Registry, uid: nat): (b: bool)
    ensures b <==> exists x :: x in reg.connected && x.user == uid
  {
    Lookup(reg.connected, uid).Some?
  }

  /** `get_user_connection_info`: the user's entry, or `None`. */
  function ConnectionInfo(reg: Registry, uid: nat): (r: Option<Connection>)
    requires DistinctUsers(reg.connected)
    ensures r.Some? <==> IsUserConnected(reg, uid)
    ensures r.Some? ==> forall x :: x in reg.connected && x.user == uid ==> x == r.value
  {
    var r := Lookup(reg.connected, uid);
    assert r.Some? ==> forall x :: x in reg.connected && x.user == uid ==> x == r.value by {
      if r.Some? {
        forall x | x in reg.connected && x.user == uid ensures x == r.value {
          SameUserSameEntry(reg.connected, x, r.value);
        }
      }
    }
    r
  }

  // ---------------------------------------------------------------------
  // Notifications
  // ---------------------------------------------------------------------

  /** The rooms a notification about `user` and `phone` goes to, personal room first. */
  function NotifyTargets(user: Option<PayloadId>, phone: Option<PayloadId>): (r: seq<string>)
    ensures Present(user) ==> "user_" + Render(user.value) in r
    ensures Present(phone) ==> PhoneRoom(phone.value) in r
    ensures forall t :: t in r ==>
      (Present(user) && t == "user_" + Render(user.value)) || (Present(phone) && t == PhoneRoom(phone.value))
    ensures |r| == (if Present(user) then 1 else 0) + (if Present(phone) then 1 else 0)
    ensures Present(user) ==> r[0] == "user_" + Render(user.value)
  {
    (if Present(user) then ["user_" + Render(user.value)] else [])
    + (if Present(phone) then [PhoneRoom(phone.value)] else [])
  }

  /** `data.get(key)`. */
  function Get(data: map<string, PayloadId>, key: string): Option<PayloadId> {
    if key in data then Some(data[key]) else None
  }

  /** The payload key that names the phone-number room: `phone_number_id` in `notify_new_message`. */
  const NewMessageRoomKey := "phone_number_id"

  /** The payload key that names the phone-number room: the number's own `id` in `notify_number_status_change`. */
  const NumberStatusRoomKey := "id"

  /**
   * `notify_new_message` (with `NewMessageRoomKey`) and `notify_number_status_change`
   * (with `NumberStatusRoomKey`): the rooms the notification is emitted to.
   */
  function NotificationTargets(data: map<string, PayloadId>, roomKey: string): (r: seq<string>)
    ensures Present(Get(data, "user_id")) ==> "user_" + Render(data["user_id"]) in r
    ensures Present(Get(data, roomKey)) ==> PhoneRoom(data[roomKey]) in r
    ensures forall t :: t in r ==>
      (Present(Get(data, "user_id")) && t == "user_" + Render(data["user_id"]))
      || (Present(Get(data, roomKey)) && t == PhoneRoom(data[roomKey]))
    ensures |r| == (if Present(Get(data, "user_id")) then 1 else 0) + (if Present(Get(data, roomKey)) then 1 else 0)
    ensures Present(Get(data, "user_id")) ==> r[0] == "user_" + Render(data["user_id"])
  {
    NotifyTargets(Get(data, "user_id"), Get(data, roomKey))
  }

  // ---------------------------------------------------------------------
  // Properties
  // ---------------------------------------------------------------------

  /** Every handler keeps the registry consistent. */
  lemma ConnectKeepsConsistent(reg: Registry, token: Option<string>, sid: string, now: nat, decode: string -> Option<nat>)
    requires Consistent(reg)
    ensures Consistent(Connect(reg, token, sid, now, decode).registry)
  {
    var r := Connect(reg, token, sid, now, decode);
    if !r.event.Refused? {
      var uid := decode(token.value).value;
      var after := r.registry;
      forall x | x in after.connected
        ensures multiset(x.rooms) <= multiset(after.userRooms[x.user])
      {
        if x.user == uid {
          SameUserSameEntry(after.connected, x, Connection(uid, sid, now, [PersonalRoom(uid)]));
        }
      }
    }
  }

  /** Giving a user's connection and `user_rooms` entry new room lists keeps the registry consistent. */
  lemma RoomsUpdateConsistent(reg: Registry, uid: nat, rooms: seq<string>, recorded: seq<string>)
    requires Consistent(reg) && uid in Users(reg.connected)
    requires multiset(rooms) <= multiset(recorded)
    ensures Consistent(Registry(WithRooms(reg.connected, uid, rooms), reg.userRooms[uid := recorded]))
  {
    var e := Lookup(reg.connected, uid).value;
    var c := WithRooms(reg.connected, uid, rooms);
    var m := reg.userRooms[uid := recorded];
    assert Users(c) == m.Keys;
    assert forall x :: x in c ==> multiset(x.rooms) <= multiset(m[x.user]) by {
      forall x | x in c
        ensures multiset(x.rooms) <= multiset(m[x.user])
      {
        if x.user == uid {
          SameUserSameEntry(c, x, e.(rooms := rooms));
        } else {
          assert x in reg.connected;
        }
      }
    }
  }

  /** Dropping from `user_rooms` a room the user's connection does not hold keeps the registry consistent. */
  lemma RecordedRoomDropped(reg: Registry, uid: nat, room: string)
    requires Consistent(reg) && uid in reg.userRooms && room in reg.userRooms[uid]
    requires room !in Lookup(reg.connected, uid).value.rooms
    ensures Consistent(reg.(userRooms := reg.userRooms[uid := RemoveFirst(reg.userRooms[uid], room)]))
  {
    var e := Lookup(reg.connected, uid).value;
    var m := reg.userRooms[uid := RemoveFirst(reg.userRooms[uid], room)];
    assert Users(reg.connected) == m.Keys;
    assert forall x :: x in reg.connected ==> multiset(x.rooms) <= multiset(m[x.user]) by {
      forall x | x in reg.connected
        ensures multiset(x.rooms) <= multiset(m[x.user])
      {
        if x.user == uid {
          SameUserSameEntry(reg.connected, x, e);
          assert multiset(e.rooms)[room] == 0;
        }
      }
    }
  }

  lemma JoinKeepsConsistent(reg: Registry, sid: string, phoneId: Option<PayloadId>)
    requires Consistent(reg)
    ensures Consistent(Join(reg, sid, phoneId).registry)
  {
    if Present(phoneId) && Tracked(reg, sid).Some? {
      var uid := Tracked(reg, sid).value;
      var room := PhoneRoom(phoneId.value);
      if room !in RoomsOf(reg, uid) {
        var e := Lookup(reg.connected, uid).value;
        assert multiset(e.rooms) <= multiset(reg.userRooms[uid]);
        RoomsUpdateConsistent(reg, uid, e.rooms + [room], RoomsOf(reg, uid) + [room]);
      }
    }
  }

  lemma LeaveKeepsConsistent(reg: Registry, sid: string, phoneId: Option<PayloadId>)
    requires Consistent(reg)
    ensures Consistent(Leave(reg, sid, phoneId).registry)
  {
    if Present(phoneId) && Tracked(reg, sid).Some? && Tracked(reg, sid).value in reg.userRooms {
      LeaveTrackedKeepsConsistent(reg, Tracked(reg, sid).value, PhoneRoom(phoneId.value));
    }
  }

  lemma LeaveTrackedKeepsConsistent(reg: Registry, uid: nat, room: string)
    requires Consistent(reg) && uid in Users(reg.connected) && uid in reg.userRooms
    ensures Consistent(LeaveTracked(reg, uid, room).registry)
  {
    if room in reg.userRooms[uid] {
      var e := Lookup(reg.connected, uid).value;
      var kept := RemoveFirst(reg.userRooms[uid], room);
      assert multiset(e.rooms) <= multiset(reg.userRooms[uid]);
      if room in e.rooms {
        RoomsUpdateConsistent(reg, uid, RemoveFirst(e.rooms, room), kept);
      } else {
        RecordedRoomDropped(reg, uid, room);
      }
    }
  }

  lemma DisconnectKeepsConsistent(reg: Registry, sid: string)
    requires Consistent(reg)
    ensures Consistent(Disconnect(reg, sid))
  {
  }

  /** Connecting the same user twice records the personal room twice in `user_rooms`. */
  lemma ReconnectDuplicatesPersonalRoom(token: string, s1: string, s2: string, t1: nat, t2: nat, decode: string -> Option<nat>)
    requires token != "" && decode(token).Some?
    ensures
      var uid := decode(token).value;
      var once := Connect(Empty, Some(token), s1, t1, decode).registry;
      var twice := Connect(once, Some(token), s2, t2, decode).registry;
      && twice.userRooms[uid] == [PersonalRoom(uid), PersonalRoom(uid)]
      && twice.connected == [Connection(uid, s2, t2, [PersonalRoom(uid)])]
  {
    var uid := decode(token).value;
    var once := Connect(Empty, Some(token), s1, t1, decode).registry;
    assert once.connected == [Connection(uid, s1, t1, [PersonalRoom(uid)])];
  }

  /** Joining a room a second time changes nothing: a room is recorded at most once per join. */
  lemma JoinIdempotent(reg: Registry, sid: string, phoneId: Option<PayloadId>)
    requires Consistent(reg)
    ensures Join(Join(reg, sid, phoneId).registry, sid, phoneId).registry == Join(reg, sid, phoneId).registry
  {
    var once := Join(reg, sid, phoneId).registry;
    if Present(phoneId) && Tracked(reg, sid).Some? {
      var uid := Tracked(reg, sid).value;
      TrackedAfterJoin(reg, sid, phoneId);
      assert Tracked(once, sid) == Some(uid);
    }
  }

  /** A join does not change which user a socket belongs to. */
  lemma TrackedAfterJoin(reg: Registry, sid: string, phoneId: Option<PayloadId>)
    requires DistinctUsers(reg.connected)
    ensures Tracked(Join(reg, sid, phoneId).registry, sid) == Tracked(reg, sid)
  {
    var once := Join(reg, sid, phoneId).registry;
    if once != reg {
      var uid := Tracked(reg, sid).value;
      var room := PhoneRoom(phoneId.value);
      var e := Lookup(reg.connected, uid).value;
      SocketsUnchanged(reg.connected, uid, e.rooms + [room]);
      UserOfSocketBySockets(once.connected, reg.connected, sid);
    }
  }

  /** Replacing a connection's rooms keeps every socket with its user. */
  lemma SocketsUnchanged(c: seq<Connection>, uid: nat, rooms: seq<string>)
    requires DistinctUsers(c) && uid in Users(c)
    ensures UserOfSocketList(WithRooms(c, uid, rooms)) == UserOfSocketList(c)
  {
    var e := Lookup(c, uid).value;
    PutSameUser(c, e.(rooms := rooms));
  }

  /** The sockets of a dictionary, each with its user, in dictionary order. */
  function UserOfSocketList(c: seq<Connection>): (r: seq<(string, nat)>)
    ensures |r| == |c|
    ensures forall i :: 0 <= i < |c| ==> r[i] == (c[i].socketId, c[i].user)
  {
    if |c| == 0 then [] else [(c[0].socketId, c[0].user)] + UserOfSocketList(c[1..])
  }

  /** Overwriting a user's entry with one carrying the same socket keeps the socket list. */
  lemma {:induction false} PutSameUser(c: seq<Connection>, e: Connection)
    requires DistinctUsers(c)
    requires exists x :: x in c && x.user == e.user && x.socketId == e.socketId
    ensures UserOfSocketList(Put(c, e)) == UserOfSocketList(c)
    decreases |c|
  {
    if c[0].user != e.user {
      var x :| x in c && x.user == e.user && x.socketId == e.socketId;
      assert x in c[1..];
      PutSameUser(c[1..], e);
    } else {
      var x :| x in c && x.user == e.user && x.socketId == e.socketId;
      SameUserSameEntry(c, x, c[0]);
    }
  }

  /** The socket lookup depends only on the socket list. */
  lemma {:induction false} UserOfSocketBySockets(c: seq<Connection>, d: seq<Connection>, sid: string)
    requires UserOfSocketList(c) == UserOfSocketList(d)
    ensures UserOfSocket(c, sid) == UserOfSocket(d, sid)
    decreases |c|
  {
    if |c| > 0 {
      assert UserOfSocketList(c[1..]) == UserOfSocketList(c)[1..];
      assert UserOfSocketList(d[1..]) == UserOfSocketList(d)[1..];
      UserOfSocketBySockets(c[1..], d[1..], sid);
    }
  }

  /** A user who connects is reached by the notifications addressed to their id. */
  lemma ConnectedUserIsNotified(reg: Registry, token: string, sid: string, now: nat, decode: string -> Option<nat>, phone: Option<PayloadId>)
    requires DistinctUsers(reg.connected)
    requires token != "" && decode(token).Some? && decode(token).value != 0
    ensures
      var uid := decode(token).value;
      var r := Connect(reg, Some(token), sid, now, decode).registry;
      && PersonalRoom(uid) in r.userRooms[uid]
      && PersonalRoom(uid) in NotifyTargets(Some(NumberId(uid)), phone)
  {
  }

  /** A room a tracked user joins is the room the phone number's notifications go to. */
  lemma JoinedRoomIsNotified(reg: Registry, sid: string, id: PayloadId, user: Option<PayloadId>)
    requires DistinctUsers(reg.connected)
    requires Truthy(id) && Tracked(reg, sid).Some?
    ensures
      var uid := Tracked(reg, sid).value;
      var r := Join(reg, sid, Some(id));
      && r.event == JoinedRoom(PhoneRoom(id))
      && PhoneRoom(id) in r.registry.userRooms[uid]
      && PhoneRoom(id) in NotifyTargets(user, Some(id))
  {
  }

  // ---------------------------------------------------------------------
  // Leaving a room after a reconnect
  // ---------------------------------------------------------------------

  /**
    A reconnect resets the connection's room list to the personal room while
    `user_rooms` keeps the phone rooms, so leaving a phone room joined before
    the reconnect reports `Failed to leave room`.
   */
  lemma ReconnectThenLeaveFails(reg: Registry, token: string, sid: string, now: nat, decode: string -> Option<nat>, id: PayloadId)
    requires DistinctUsers(reg.connected)
    requires token != "" && decode(token).Some? && decode(token).value != 0
    requires forall x :: x in reg.connected ==> x.socketId != sid
    requires Truthy(id) && PhoneRoom(id) in RoomsOf(reg, decode(token).value)
    ensures
      var again := Connect(reg, Some(token), sid, now, decode).registry;
      Leave(again, sid, Some(id)).event == ErrorEvent(LeaveFailed)
  {
    var uid := decode(token).value;
    var again := Connect(reg, Some(token), sid, now, decode).registry;
    var entry := Connection(uid, sid, now, [PersonalRoom(uid)]);
    ReconnectedSocketIsTracked(reg, again, entry, sid);
    SameUserSameEntry(again.connected, Lookup(again.connected, uid).value, entry);
  }

  /** The only connection with a fresh socket is the one just recorded for it. */
  lemma ReconnectedSocketIsTracked(reg: Registry, again: Registry, entry: Connection, sid: string)
    requires DistinctUsers(again.connected) && entry in again.connected
    requires entry.socketId == sid && entry.user != 0
    requires forall x :: x in reg.connected ==> x.socketId != sid
    requires forall x :: x in again.connected && x.user != entry.user ==> x in reg.connected
    ensures Tracked(again, sid) == Some(entry.user)
  {
    var holder := UserOfSocket(again.connected, sid);
    var i :| 0 <= i < |again.connected| && again.connected[i].socketId == sid && again.connected[i].user == holder.value;
    assert again.connected[i] in again.connected;
  }

  /** The scenario: connect, join phone room `id`, reconnect on a new socket, leave `id`. */
  lemma LeaveAfterReconnectFails(token: string, s1: string, s2: string, t1: nat, t2: nat, decode: string -> Option<nat>, id: PayloadId)
    requires s1 != s2 && token != "" && decode(token).Some? && decode(token).value != 0 && Truthy(id)
    ensures
      var first := Connect(Empty, Some(token), s1, t1, decode).registry;
      var joined := Join(first, s1, Some(id)).registry;
      var again := Connect(joined, Some(token), s2, t2, decode).registry;
      && Leave(again, s2, Some(id)).event == ErrorEvent(LeaveFailed)
      && LeaveFixed(again, s2, Some(id)).event == LeftRoom(PhoneRoom(id))
  {
    var uid := decode(token).value;
    var first := Connect(Empty, Some(token), s1, t1, decode).registry;
    assert first.connected == [Connection(uid, s1, t1, [PersonalRoom(uid)])];
    assert Tracked(first, s1) == Some(uid);
    var joined := Join(first, s1, Some(id)).registry;
    assert PhoneRoom(id) in RoomsOf(joined, uid);
    assert forall x :: x in joined.connected ==> x.socketId != s2 by {
      forall x | x in joined.connected ensures x.socketId != s2 {
        assert x.user == uid;
      }
    }
    ReconnectThenLeaveFails(joined, token, s2, t2, decode, id);
  }

  /**
    `handle_leave_phone_room` as evidently intended: the room is removed
    from the connection's list only when that list holds it (which the
    bookkeeping above already does once the error is caught), and a leave
    with an id is always acknowledged.
   */
  function LeaveFixed(reg: Registry, sid: string, phoneId: Option<PayloadId>): (r: Step)
    requires DistinctUsers(reg.connected)
    ensures !Present(phoneId) ==> r == Step(reg, ErrorEvent(IdRequired))
    ensures Present(phoneId) ==> r.event == LeftRoom(PhoneRoom(phoneId.value))
  {
    if !Present(phoneId) then Step(reg, ErrorEvent(IdRequired))
    else
      var room := PhoneRoom(phoneId.value);
      var holder := Tracked(reg, sid);
      if holder.None? || holder.value !in reg.userRooms then Step(reg, LeftRoom(room))
      else Step(LeaveTracked(reg, holder.value, room).registry, LeftRoom(room))
  }

  /** The corrected handler leaves the same registry and keeps it consistent; only the reply differs. */
  lemma LeaveFixedAgrees(reg: Registry, sid: string, phoneId: Option<PayloadId>)
    requires Consistent(reg)
    ensures LeaveFixed(reg, sid, phoneId).registry == Leave(reg, sid, phoneId).registry
    ensures Consistent(LeaveFixed(reg, sid, phoneId).registry)
    ensures Leave(reg, sid, phoneId).event.LeftRoom? ==> LeaveFixed(reg, sid, phoneId) == Leave(reg, sid, phoneId)
  {
    LeaveKeepsConsistent(reg, sid, phoneId);
  }
}
