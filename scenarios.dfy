/** Concrete runs of the server and the client, derived from the handlers'
    contracts alone: two users meeting in a room, a chat line, the two
    disconnects, a refused blank nickname, and a socket that joins twice.
    Each step is its own method from one concrete registry state to the next. */
module Scenarios {
  import opened Wrappers
  import opened Protocol
  import opened Server
  import opened Client

  const Ann := UserRecord("Ann", "lobby")
  const Bob := UserRecord("Bob", "lobby")

  method AnnJoins(server: Registry)
    requires server.users == map[] && server.rooms == map[]
    modifies server
    ensures server.users == map["c1" := Ann] && server.rooms == map["lobby" := ["c1"]]
    ensures server.log == old(server.log) + [
      Emission(ToSender("c1"), Init([])),
      Emission(ToRoomExcept("lobby", "c1"), UserJoined("c1", "Ann", JoinedText("Ann"))),
      Emission(ToRoom("lobby"), UserCount(1))]
  {
    server.Join("c1", Fields("Ann", Some("lobby")));
    assert Normalize(Fields("Ann", Some("lobby"))) == Ann;
    assert ["c1"][..0] == [];
    assert RoomUsers(["c1"], server.users, "c1") == [];
  }

  method BobJoins(server: Registry)
    requires server.users == map["c1" := Ann] && server.rooms == map["lobby" := ["c1"]]
    modifies server
    ensures server.users == map["c1" := Ann, "c2" := Bob]
    ensures server.rooms == map["lobby" := ["c1", "c2"]]
    ensures server.log == old(server.log) + [
      Emission(ToSender("c2"), Init([PeerInfo("c1", "Ann")])),
      Emission(ToRoomExcept("lobby", "c2"), UserJoined("c2", "Bob", JoinedText("Bob"))),
      Emission(ToRoom("lobby"), UserCount(2))]
  {
    server.Join("c2", Fields("Bob", Some("lobby")));
    assert Normalize(Fields("Bob", Some("lobby"))) == Bob;
    assert "c1"[1] != "c2"[1];
    assert SetAdd(["c1"], "c2") == ["c1", "c2"];
    assert ["c1", "c2"][..1] == ["c1"];
    assert ["c1"][..0] == [];
    assert RoomUsers(["c1"], server.users, "c2") == [PeerInfo("c1", "Ann")];
    assert RoomUsers(["c1", "c2"], server.users, "c2") == [PeerInfo("c1", "Ann")];
  }

  method AnnLeaves(server: Registry)
    requires server.users == map["c1" := Ann, "c2" := Bob]
    requires server.rooms == map["lobby" := ["c1", "c2"]]
    modifies server
    ensures server.users == map["c2" := Bob] && server.rooms == map["lobby" := ["c2"]]
    ensures server.log == old(server.log) + [
      Emission(ToRoom("lobby"), UserLeft("c1", "Ann", LeftText("Ann"))),
      Emission(ToRoom("lobby"), UserCount(1))]
  {
    server.Disconnect("c1");
    assert "c1"[1] != "c2"[1];
    assert ["c1", "c2"][1..] == ["c2"];
    assert SetDelete(["c2"], "c1") == ["c2"];
    assert SetDelete(["c1", "c2"], "c1") == ["c2"];
    assert server.users == map["c2" := Bob];
  }

  method BobLeaves(server: Registry)
    requires server.users == map["c2" := Bob] && server.rooms == map["lobby" := ["c2"]]
    modifies server
    ensures server.users == map[] && server.rooms == map[]
    ensures server.log == old(server.log)
  {
    server.Disconnect("c2");
    assert SetDelete(["c2"], "c2") == [];
  }

  /** "Ann" (c1) and then "Bob" (c2) join room "lobby"; Ann says "hi"; Ann
      disconnects, then Bob. Each result is what the server emitted at that
      stage; Bob's disconnect empties and deletes the room and emits nothing. */
  method LobbyConversation(stamp: string)
    returns (joins: seq<Emission>, chat: seq<Emission>, firstLeave: seq<Emission>,
             lastLeave: seq<Emission>, roomsAfterFirst: map<RoomId, seq<SocketId>>,
             roomsAtEnd: map<RoomId, seq<SocketId>>)
    ensures joins == [
      Emission(ToSender("c1"), Init([])),
      Emission(ToRoomExcept("lobby", "c1"), UserJoined("c1", "Ann", JoinedText("Ann"))),
      Emission(ToRoom("lobby"), UserCount(1)),
      Emission(ToSender("c2"), Init([PeerInfo("c1", "Ann")])),
      Emission(ToRoomExcept("lobby", "c2"), UserJoined("c2", "Bob", JoinedText("Bob"))),
      Emission(ToRoom("lobby"), UserCount(2))]
    ensures chat == [Emission(ToRoom("lobby"), ServerEvent.ChatMessage("c1", "Ann", "hi", stamp))]
    ensures firstLeave == [
      Emission(ToRoom("lobby"), UserLeft("c1", "Ann", LeftText("Ann"))),
      Emission(ToRoom("lobby"), UserCount(1))]
    ensures roomsAfterFirst == map["lobby" := ["c2"]]
    ensures lastLeave == [] && roomsAtEnd == map[]
  {
    var server := new Registry();
    AnnJoins(server);
    BobJoins(server);
    joins := server.log;
    var before := |server.log|;
    server.ChatMessage("c1", "hi", stamp);
    chat := server.log[before..];
    before := |server.log|;
    AnnLeaves(server);
    firstLeave := server.log[before..];
    roomsAfterFirst := server.rooms;
    before := |server.log|;
    BobLeaves(server);
    lastLeave := server.log[before..];
    roomsAtEnd := server.rooms;
  }

  method AnnMovesToB(server: Registry)
    requires server.users == map["c1" := UserRecord("Ann", "a")] && server.rooms == map["a" := ["c1"]]
    modifies server
    ensures server.users == map["c1" := UserRecord("Ann", "b")]
    ensures server.rooms == map["a" := ["c1"], "b" := ["c1"]]
  {
    server.Join("c1", Fields("Ann", Some("b")));
    assert Normalize(Fields("Ann", Some("b"))) == UserRecord("Ann", "b");
    assert "a"[0] != "b"[0];
  }

  method CyJoinsA(server: Registry)
    requires server.users == map[] && server.rooms == map["a" := ["c1"]]
    modifies server
    ensures server.rooms == map["a" := ["c1", "c2"]]
    ensures server.log == old(server.log) + [
      Emission(ToSender("c2"), Init([])),
      Emission(ToRoomExcept("a", "c2"), UserJoined("c2", "Cy", JoinedText("Cy"))),
      Emission(ToRoom("a"), UserCount(2))]
  {
    server.Join("c2", Fields("Cy", Some("a")));
    assert Normalize(Fields("Cy", Some("a"))) == UserRecord("Cy", "a");
    assert "c1"[1] != "c2"[1];
    assert SetAdd(["c1"], "c2") == ["c1", "c2"];
    assert ["c1", "c2"][..1] == ["c1"];
    assert ["c1"][..0] == [];
    assert RoomUsers(["c1"], server.users, "c2") == [];
    assert RoomUsers(["c1", "c2"], server.users, "c2") == [];
  }

  /** A socket that joins room "a" and then room "b" before disconnecting
      stays listed in room "a": the room is never deleted, and a later joiner
      of "a" is sent an empty snapshot but a count of two. */
  method RejoinLeavesStaleMember()
    returns (roomsAfterDisconnect: map<RoomId, seq<SocketId>>, newcomerSees: seq<Emission>)
    ensures roomsAfterDisconnect == map["a" := ["c1"]]
    ensures newcomerSees == [
      Emission(ToSender("c2"), Init([])),
      Emission(ToRoomExcept("a", "c2"), UserJoined("c2", "Cy", JoinedText("Cy"))),
      Emission(ToRoom("a"), UserCount(2))]
  {
    var server := new Registry();
    server.Join("c1", Fields("Ann", Some("a")));
    assert Normalize(Fields("Ann", Some("a"))) == UserRecord("Ann", "a");
    AnnMovesToB(server);
    server.Disconnect("c1");
    assert SetDelete(["c1"], "c1") == [];
    assert "a"[0] != "b"[0];
    roomsAfterDisconnect := server.rooms;
    var before := |server.log|;
    CyJoinsA(server);
    newcomerSees := server.log[before..];
  }

  /** A blank nickname is refused before anything is emitted. */
  method BlankNicknameSendsNothing() returns (sent: seq<ClientEvent>, name: string)
    ensures sent == [] && name == []
  {
    var client := new ChatClient("c1", 0);
    client.ClickJoin(" \t ", "lobby");
    sent, name := client.outbox, client.myUsername;
  }
}
