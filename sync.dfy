/** How the client's presence cache follows the server's registry: what the
    join form sends is what the server stores, the `init` snapshot rebuilds
    the room's membership in a fresh cache, and the `user joined` and
    `user left` deltas keep it equal to the room's member set. */
module Sync {
  import opened Protocol
  import opened Text
  import opened Server
  import opened Client

  /** A payload built by the join form is stored by the server as the trimmed
      nickname in the trimmed room, or in the default room for a blank room:
      the server's own `|| 'default'` never applies to it. */
  lemma JoinFormReachesRegistry(nickname: string, room: string)
    requires JoinRequest(nickname, room).Some?
    ensures Normalize(JoinRequest(nickname, room).value)
            == UserRecord(Trim(nickname), if Trim(room) == [] then DefaultRoom else Trim(room))
  {
    TrimEmptyIffBlank(room);
  }

  /** A client that joined `room` and applies the `init` snapshot the server
      computed for it to its empty cache holds exactly the room's members,
      with their registered names and no typing flags, provided no socket has
      moved between rooms. */
  lemma {:induction false} InitMirrorsRoom(users: map<SocketId, UserRecord>, rooms: map<RoomId, seq<SocketId>>,
                                           room: RoomId, self: SocketId, myName: string)
    requires ExactState(users, rooms) && room in rooms && self in rooms[room]
    ensures var cache := InitEntries(map[self := Peer(myName, false)], RoomUsers(rooms[room], users, self), self);
            && cache.Keys == Members(rooms[room])
            && forall id :: id in cache && id != self ==>
                 cache[id] == Peer(users[id].username, false)
  {
    var members := rooms[room];
    var snapshot := RoomUsers(members, users, self);
    var start := map[self := Peer(myName, false)];
    var cache := InitEntries(start, snapshot, self);
    RoomUsersExactly(members, users, self);
    InitEntriesKeys(start, snapshot, self);
    assert ListedIds(snapshot, self) == Members(members) - {self} by {
      forall id | id in Members(members) - {self} ensures id in ListedIds(snapshot, self) {
        assert id in users;
        var p :| p in snapshot && p.socketId == id;
      }
    }
    forall id | id in cache && id != self ensures cache[id] == Peer(users[id].username, false) {
      var p :| p in snapshot && p.socketId == id;
      var k :| 0 <= k < |snapshot| && snapshot[k] == p;
      InitEntriesListed(start, snapshot, self, k);
    }
  }

  /** The deltas keep the mirror: when a cache holds exactly a room's members,
      applying `user joined` for a socket that joins the room, or `user left`
      for one that disconnects from it while the room survives, yields exactly
      the new member set. */
  lemma DeltasKeepMirror(cache: map<SocketId, Peer>, rooms: map<RoomId, seq<SocketId>>,
                         room: RoomId, id: SocketId, name: string)
    requires room in rooms && cache.Keys == Members(rooms[room])
    ensures cache[id := Peer(name, false)].Keys == Members(Enrol(rooms, room, id)[room])
    ensures room in Withdraw(rooms, room, id) ==>
              (cache - {id}).Keys == Members(Withdraw(rooms, room, id)[room])
  {
  }
}
