/** The chat server's connection registry and its four event handlers
    (server.js:19-125). Two maps are kept: `users` from a socket id to the
    username and room it joined with, and `rooms` from a room id to its member
    ids. A JavaScript Set keeps insertion order and holds no duplicates, so a
    member set is a sequence without repetitions. Emissions are appended to
    `log` together with the kind of recipients they are addressed to. */
module Server {
  import opened Wrappers
  import opened Protocol

  /** What the server stores per joined socket (`{username, room}`). */
  datatype UserRecord = UserRecord(username: string, room: RoomId)

  /** `Set.prototype.add`: appends `x` unless it is already a member. */
  function SetAdd(s: seq<SocketId>, x: SocketId): (r: seq<SocketId>)
    ensures forall y :: y in r <==> y in s || y == x
    ensures Distinct(s) ==> Distinct(r)
    ensures x in s ==> r == s
    ensures x !in s ==> |r| == |s| + 1
  {
    if x in s then s else s + [x]
  }

  /** `Set.prototype.delete`: removes `x`, keeping the order of the others. */
  function SetDelete(s: seq<SocketId>, x: SocketId): (r: seq<SocketId>)
    ensures forall y :: y in r <==> y in s && y != x
    ensures |r| <= |s|
    ensures Distinct(s) ==> Distinct(r)
    ensures Distinct(s) && x in s ==> |r| == |s| - 1
    ensures x !in s ==> r == s
  {
    if s == [] then []
    else
      var rest := SetDelete(s[1..], x);
      DistinctTail(s);
      if s[0] == x then rest
      else
        DistinctCons(s[0], rest);
        [s[0]] + rest
  }

  lemma DistinctTail(s: seq<SocketId>)
    requires s != []
    ensures Distinct(s) ==> Distinct(s[1..]) && s[0] !in s[1..]
  {
  }

  lemma DistinctCons(a: SocketId, t: seq<SocketId>)
    ensures a !in t && Distinct(t) ==> Distinct([a] + t)
  {
    if a !in t && Distinct(t) {
      var s := [a] + t;
      forall i, j | 0 <= i < j < |s| ensures s[i] != s[j] {
        assert s[j] == t[j - 1];
        if i > 0 { assert s[i] == t[i - 1]; }
      }
    }
  }

  /** The `join` payload normalisation (server.js:28-29): a bare string is the
      username in the default room; an object gives its username and its room
      when that is truthy, i.e. present and non-empty. */
  function Normalize(data: JoinPayload): (r: UserRecord)
    ensures r.room != []
    ensures data.Bare? ==> r == UserRecord(data.name, DefaultRoom)
    ensures data.Fields? ==> r.username == data.username
    ensures data.Fields? && data.room.Some? && data.room.value != [] ==> r.room == data.room.value
    ensures data.Fields? && (data.room == None || data.room == Some([])) ==> r.room == DefaultRoom
  {
    match data
    case Bare(name) => UserRecord(name, DefaultRoom)
    case Fields(username, room) =>
      UserRecord(username, if room.Some? && room.value != [] then room.value else DefaultRoom)
  }

  /** The snapshot `join` sends to the newcomer (server.js:44-52): walking the
      member set in insertion order, every member other than `self` that still
      has a `users` entry, paired with its stored username. */
  function RoomUsers(members: seq<SocketId>, users: map<SocketId, UserRecord>, self: SocketId)
    : seq<PeerInfo>
  {
    if members == [] then []
    else
      var id := members[|members| - 1];
      var front := RoomUsers(members[..|members| - 1], users, self);
      if id != self && id in users then front + [PeerInfo(id, users[id].username)] else front
  }

  /** The snapshot lists exactly the members other than the newcomer that have
      a `users` entry, each with its stored username, at most once each when
      the member set has no repetitions. */
  lemma {:induction false} RoomUsersExactly(members: seq<SocketId>, users: map<SocketId, UserRecord>,
                                            self: SocketId)
    ensures forall p :: p in RoomUsers(members, users, self) ==>
              p.socketId in members && p.socketId != self && p.socketId in users
              && p.username == users[p.socketId].username
    ensures forall id :: id in members && id != self && id in users ==>
              exists p :: p in RoomUsers(members, users, self) && p.socketId == id
    ensures Distinct(members) ==> DistinctIds(RoomUsers(members, users, self))
  {
    if members != [] {
      var last := members[|members| - 1];
      var init := members[..|members| - 1];
      RoomUsersExactly(init, users, self);
      var front := RoomUsers(init, users, self);
      var r := RoomUsers(members, users, self);
      assert members == init + [last];
      assert forall y :: y in members <==> y in init || y == last;
      if last != self && last in users {
        assert r == front + [PeerInfo(last, users[last].username)];
        if Distinct(members) {
          assert Distinct(init);
          assert last !in init;
          assert forall k :: 0 <= k < |front| ==> front[k] in front;
        }
      } else {
        assert r == front;
        if Distinct(members) {
          assert Distinct(init);
        }
      }
    }
  }

  /** Registration on the room side (server.js:38-41): the room's member set
      is created when absent and the socket is added to it; every other room
      is left alone. */
  function Enrol(rooms: map<RoomId, seq<SocketId>>, room: RoomId, id: SocketId)
    : (r: map<RoomId, seq<SocketId>>)
    ensures r.Keys == rooms.Keys + {room}
    ensures forall y :: y in r[room] <==> y == id || (room in rooms && y in rooms[room])
    ensures forall q :: q in rooms && q != room ==> r[q] == rooms[q]
  {
    rooms[room := SetAdd(if room in rooms then rooms[room] else [], id)]
  }

  /** Unregistration on the room side (server.js:103-108): the socket leaves
      the room's member set, and a room left empty is deleted. */
  function Withdraw(rooms: map<RoomId, seq<SocketId>>, room: RoomId, id: SocketId)
    : (r: map<RoomId, seq<SocketId>>)
    ensures room !in rooms ==> r == rooms
    ensures room in rooms ==>
              (room in r <==> SetDelete(rooms[room], id) != [])
              && (room in r ==> r[room] == SetDelete(rooms[room], id))
    ensures forall q :: q != room ==> (q in r <==> q in rooms) && (q in rooms ==> r[q] == rooms[q])
  {
    if room !in rooms then rooms
    else
      var rest := SetDelete(rooms[room], id);
      if rest == [] then rooms - {room} else rooms[room := rest]
  }

  /** The invariant every handler keeps: member sets have no repetitions, no
      room is kept with an empty member set, and every joined socket is a
      member of the room it joined. */
  ghost predicate ValidState(users: map<SocketId, UserRecord>, rooms: map<RoomId, seq<SocketId>>) {
    && (forall r :: r in rooms ==> Distinct(rooms[r]) && rooms[r] != [])
    && (forall id :: id in users ==> users[id].room in rooms && id in rooms[users[id].room])
  }

  /** The invariant that holds while no socket has moved to a second room: in
      addition, every member of a room is a joined socket of that room. */
  ghost predicate ExactState(users: map<SocketId, UserRecord>, rooms: map<RoomId, seq<SocketId>>) {
    && ValidState(users, rooms)
    && (forall r, id :: r in rooms && id in rooms[r] ==> id in users && users[id].room == r)
  }

  /** A join keeps the invariant, whatever the socket did before. */
  lemma JoinKeepsValid(users: map<SocketId, UserRecord>, rooms: map<RoomId, seq<SocketId>>,
                       id: SocketId, u: UserRecord)
    requires ValidState(users, rooms)
    ensures ValidState(users[id := u], Enrol(rooms, u.room, id))
  {
    var rooms' := Enrol(rooms, u.room, id);
    forall r | r in rooms' ensures Distinct(rooms'[r]) && rooms'[r] != [] {
      if r == u.room {
        assert id in rooms'[r];
      }
    }
  }

  /** A join keeps the exact invariant unless it moves an already joined
      socket to another room. */
  lemma JoinKeepsExact(users: map<SocketId, UserRecord>, rooms: map<RoomId, seq<SocketId>>,
                       id: SocketId, u: UserRecord)
    requires ExactState(users, rooms)
    requires id in users ==> users[id].room == u.room
    ensures ExactState(users[id := u], Enrol(rooms, u.room, id))
  {
    JoinKeepsValid(users, rooms, id, u);
  }

  /** A disconnect keeps the invariant. */
  lemma DisconnectKeepsValid(users: map<SocketId, UserRecord>, rooms: map<RoomId, seq<SocketId>>,
                             id: SocketId)
    requires ValidState(users, rooms) && id in users
    ensures ValidState(users - {id}, Withdraw(rooms, users[id].room, id))
  {
    var room := users[id].room;
    var rooms' := Withdraw(rooms, room, id);
    forall other | other in users - {id}
      ensures users[other].room in rooms' && other in rooms'[users[other].room]
    {
      if users[other].room == room {
        assert other in SetDelete(rooms[room], id);
      }
    }
  }

  /** A disconnect keeps the exact invariant. */
  lemma DisconnectKeepsExact(users: map<SocketId, UserRecord>, rooms: map<RoomId, seq<SocketId>>,
                             id: SocketId)
    requires ExactState(users, rooms) && id in users
    ensures ExactState(users - {id}, Withdraw(rooms, users[id].room, id))
  {
    DisconnectKeepsValid(users, rooms, id);
  }

  /** Under the invariant, the room a disconnecting socket belongs to loses
      exactly one member, and it is deleted exactly when that was its last one. */
  lemma DisconnectShrinksRoom(users: map<SocketId, UserRecord>, rooms: map<RoomId, seq<SocketId>>,
                              id: SocketId)
    requires ValidState(users, rooms) && id in users
    ensures var room := users[id].room;
            var rooms' := Withdraw(rooms, room, id);
            && room in rooms
            && (room !in rooms' <==> rooms[room] == [id])
            && (room in rooms' ==> |rooms'[room]| == |rooms[room]| - 1 && id !in rooms'[room])
  {
    var room := users[id].room;
    var rest := SetDelete(rooms[room], id);
    if rest == [] {
      assert |rooms[room]| == 1;
      assert rooms[room] == [rooms[room][0]];
    }
  }

  function JoinedText(username: string): string { username + " joined the chat" }

  function LeftText(username: string): string { username + " left the chat" }

  class Registry {
    var users: map<SocketId, UserRecord>
    var rooms: map<RoomId, seq<SocketId>>
    var log: seq<Emission>

    ghost predicate Valid()
      reads this`users, this`rooms
    {
      ValidState(users, rooms)
    }

    ghost predicate Exact()
      reads this`users, this`rooms
    {
      ExactState(users, rooms)
    }

    constructor ()
      ensures users == map[] && rooms == map[] && log == []
      ensures Exact()
    {
      users, rooms, log := map[], map[], [];
    }

    /** The `forEach` over the room's member set that builds `roomUsers`. */
    method CollectRoomUsers(room: RoomId, self: SocketId) returns (roomUsers: seq<PeerInfo>)
      requires room in rooms
      ensures roomUsers == RoomUsers(rooms[room], users, self)
    {
      var members := rooms[room];
      roomUsers := [];
      var i := 0;
      while i < |members|
        invariant 0 <= i <= |members|
        invariant roomUsers == RoomUsers(members[..i], users, self)
      {
        var id := members[i];
        assert members[..i + 1][..i] == members[..i];
        if id != self && id in users {
          roomUsers := roomUsers + [PeerInfo(id, users[id].username)];
        }
        i := i + 1;
      }
      assert members[..i] == members;
    }

    /** The registration steps of `join` (server.js:35-41): store the user
        record, create the room's member set if absent, add the socket to it. */
    method Register(socketId: SocketId, u: UserRecord)
      modifies this`users, this`rooms
      ensures users == old(users)[socketId := u]
      ensures rooms == Enrol(old(rooms), u.room, socketId)
      ensures old(Valid()) ==> Valid()
      ensures old(Exact()) && (socketId in old(users) ==> old(users)[socketId].room == u.room) ==> Exact()
    {
      ghost var users0, rooms0 := users, rooms;
      users := users[socketId := u];
      if u.room !in rooms {
        rooms := rooms[u.room := []];
      }
      rooms := rooms[u.room := SetAdd(rooms[u.room], socketId)];
      assert rooms == Enrol(rooms0, u.room, socketId);
      if ValidState(users0, rooms0) { JoinKeepsValid(users0, rooms0, socketId, u); }
      if ExactState(users0, rooms0) && (socketId in users0 ==> users0[socketId].room == u.room) {
        JoinKeepsExact(users0, rooms0, socketId, u);
      }
    }

    /** The `join` handler (server.js:27-68): register the socket, send it the
        snapshot of the other members, tell the others, send everyone the new
        member count. */
    method Join(socketId: SocketId, data: JoinPayload)
      modifies this
      ensures var u := Normalize(data);
              && users == old(users)[socketId := u]
              && rooms == Enrol(old(rooms), u.room, socketId)
              && log == old(log) + [
                   Emission(ToSender(socketId), Init(RoomUsers(rooms[u.room], users, socketId))),
                   Emission(ToRoomExcept(u.room, socketId), UserJoined(socketId, u.username, JoinedText(u.username))),
                   Emission(ToRoom(u.room), UserCount(|rooms[u.room]|))]
      ensures old(Valid()) ==> Valid()
      ensures old(Exact()) && (socketId in old(users) ==> old(users)[socketId].room == Normalize(data).room)
              ==> Exact()
    {
      var u := Normalize(data);
      var username, room := u.username, u.room;
      Register(socketId, UserRecord(username, room));
      var roomUsers := CollectRoomUsers(room, socketId);
      log := log + [Emission(ToSender(socketId), Init(roomUsers))];
      log := log + [Emission(ToRoomExcept(room, socketId), UserJoined(socketId, username, JoinedText(username)))];
      log := log + [Emission(ToRoom(room), UserCount(|rooms[room]|))];
    }

    /** The `chat message` handler (server.js:71-82); `timestamp` stands for the
        server's local time string. */
    method ChatMessage(socketId: SocketId, message: string, timestamp: string)
      modifies this`log
      ensures users == old(users) && rooms == old(rooms)
      ensures socketId !in users ==> log == old(log)
      ensures socketId in users ==>
                log == old(log) + [Emission(ToRoom(users[socketId].room),
                                            ServerEvent.ChatMessage(socketId, users[socketId].username, message, timestamp))]
    {
      if socketId !in users {
        return;
      }
      var user := users[socketId];
      log := log + [Emission(ToRoom(user.room), ServerEvent.ChatMessage(socketId, user.username, message, timestamp))];
    }

    /** The `typing` handler (server.js:85-94). */
    method Typing(socketId: SocketId, isTyping: bool)
      modifies this`log
      ensures users == old(users) && rooms == old(rooms)
      ensures socketId !in users ==> log == old(log)
      ensures socketId in users ==>
                log == old(log) + [Emission(ToRoomExcept(users[socketId].room, socketId),
                                            ServerEvent.Typing(socketId, users[socketId].username, isTyping))]
    {
      if socketId in users {
        var user := users[socketId];
        log := log + [Emission(ToRoomExcept(user.room, socketId), ServerEvent.Typing(socketId, user.username, isTyping))];
      }
    }

    /** The `disconnect` handler (server.js:97-125): unregister the socket and,
        unless its room is now gone, tell the rest of the room. */
    method Disconnect(socketId: SocketId)
      modifies this
      ensures users == old(users) - {socketId}
      ensures socketId !in old(users) ==> rooms == old(rooms) && log == old(log)
      ensures socketId in old(users) ==>
                var u := old(users)[socketId];
                && rooms == Withdraw(old(rooms), u.room, socketId)
                && log == old(log) + (if u.room in rooms then [
                            Emission(ToRoom(u.room), UserLeft(socketId, u.username, LeftText(u.username))),
                            Emission(ToRoom(u.room), UserCount(|rooms[u.room]|))]
                          else [])
      ensures old(Valid()) ==> Valid()
      ensures old(Exact()) ==> Exact()
    {
      if socketId !in users {
        return;
      }
      var user := users[socketId];
      var username, room := user.username, user.room;
      if Valid() { DisconnectKeepsValid(users, rooms, socketId); }
      if Exact() { DisconnectKeepsExact(users, rooms, socketId); }
      if room in rooms {
        rooms := rooms[room := SetDelete(rooms[room], socketId)];
        if |rooms[room]| == 0 {
          rooms := rooms - {room};
        } else {
          log := log + [Emission(ToRoom(room), UserLeft(socketId, username, LeftText(username)))];
          log := log + [Emission(ToRoom(room), UserCount(|rooms[room]|))];
        }
      }
      users := users - {socketId};
    }
  }
}
