/** The events exchanged between the chat server and its clients. The
    transport (Socket.IO) is abstracted away: a server emission is recorded
    with the kind of recipients it is addressed to, a client emission is
    recorded in the order it is sent. */
module Protocol {
  import opened Wrappers

  /** Connection identifiers assigned by the transport. */
  type SocketId = string
  type RoomId = string

  /** A sequence of socket ids without repetitions (a JavaScript Set in its
      insertion order). */
  predicate Distinct(s: seq<SocketId>) {
    forall i, j :: 0 <= i < j < |s| ==> s[i] != s[j]
  }

  /** The set of ids a sequence holds. */
  function Members(s: seq<SocketId>): set<SocketId> {
    set id | id in s
  }

  /** The room a join falls back to when none is given. */
  const DefaultRoom: RoomId := "default"

  /** The payload of an inbound `join`: either a bare username (the older
      shorthand) or an object with a username and an optional room, where
      `None` stands for a missing, null or undefined `room` field. */
  datatype JoinPayload =
    | Bare(name: string)
    | Fields(username: string, room: Option<string>)

  /** One entry of the `init` snapshot. */
  datatype PeerInfo = PeerInfo(socketId: SocketId, username: string)

  predicate DistinctIds(ps: seq<PeerInfo>) {
    forall i, j :: 0 <= i < j < |ps| ==> ps[i].socketId != ps[j].socketId
  }

  /** Events the server emits. */
  datatype ServerEvent =
    | Init(users: seq<PeerInfo>)
    | UserJoined(socketId: SocketId, username: string, message: string)
    | UserLeft(socketId: SocketId, username: string, message: string)
    | UserCount(count: nat)
    | ChatMessage(socketId: SocketId, username: string, message: string, timestamp: string)
    | Typing(socketId: SocketId, username: string, isTyping: bool)

  /** Who an emission is addressed to: the sending socket alone (`socket.emit`),
      the room without the sender (`socket.to(room).emit`), or the whole room
      (`io.to(room).emit`). */
  datatype Recipients =
    | ToSender(socketId: SocketId)
    | ToRoomExcept(room: RoomId, except: SocketId)
    | ToRoom(room: RoomId)

  datatype Emission = Emission(to: Recipients, event: ServerEvent)

  /** Events a client emits to the server. */
  datatype ClientEvent =
    | Join(payload: JoinPayload)
    | Chat(message: string)
    | TypingFlag(isTyping: bool)
}
