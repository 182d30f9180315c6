# BonziWorld chat: room presence and broadcast, in Dafny

This project models the core of a small real-time chat. Each participant is an avatar in a room.

The **server** (`server.js`) keeps two maps:

- `users` maps a socket id to the `{username, room}` it joined with.
- `rooms` maps a room id to the set of its member ids.

The server reacts to four events: `join`, `chat message`, `typing` and `disconnect`.

The **client** (`public/client.js`) keeps a presence cache `users` that mirrors the room. It also has:

- the join-form validation;
- the typing indicator and the `user count` label;
- a one-second debounce that turns keystrokes into `typing` emissions.

## Modules

- `wrappers.dfy`, `Wrappers`: `Option`.
- `text.dfy`, `Text`: JavaScript `String.prototype.trim`, with the ECMAScript whitespace and line-terminator set. Also decimal rendering of a count, and reading it back.
- `protocol.dfy`, `Protocol`: the wire events, the join payload and the recipient kinds.
- `server.dfy`, `Server`: the registry as a class `Registry` with fields `users`, `rooms` and `log`, plus one method per handler.
  - A JavaScript `Set` keeps insertion order and has no duplicates. So a member set is a `seq` without repetitions (`Distinct`), `add` is `SetAdd` and `delete` is `SetDelete`. This makes the order of the `init` snapshot exact.
  - Each emission is appended to `log` with its recipient kind:
    - `ToSender` for `socket.emit`;
    - `ToRoomExcept` for `socket.to(room).emit`;
    - `ToRoom` for `io.to(room).emit`.
- `client.dfy`, `Client`: the class `ChatClient` with one method per socket or DOM handler. Next to it are pure rules: the join request, the count label, the typing summary, the `init` fold, and the debounce as a `Timer` with an explicit clock and at most one pending deadline.
- `sync.dfy`, `Sync`: lemmas that tie the two sides together.
  - The join form's payload is stored unchanged by the server.
  - A fresh client that applies its `init` snapshot holds exactly the room's members.
  - `user joined` and `user left` keep that mirror exact.
- `scenarios.dfy`, `Scenarios`: concrete runs proved from the handler contracts. Two users meet, chat and leave. A blank nickname is refused. A socket joins twice.

### Two invariants

`Server.ValidState` holds after every handler, with no premise:

- member sets have no repetitions;
- no room is kept with an empty member set;
- every joined socket is a member of the room it joined.

`Server.ExactState` adds one more condition: every member of a room is a joined socket of that room. It is kept by every handler except a `join` that moves an already-joined socket to another room. That move is the source's behaviour: server.js:35 overwrites the `users` entry, and server.js:41 adds the id to the new room without removing it from the old one. The disconnect then cleans only the new room. `Scenarios.RejoinLeavesStaleMember` shows the outcome. The old room keeps the stale id forever. A later joiner of that room gets an empty `init` snapshot (the id has no `users` entry) but a `user count` of 2.

### Behaviour of the code a reader might not expect (modelled as written)

- **Join while registered.** A `join` from a socket that already joined is not rejected. It overwrites the socket's `users` entry (server.js:35), as above.
- **`user joined` on a known id.** The client's handler always overwrites the cache entry, with a new avatar and `isTyping` reset (public/client.js:270-276). It does not check whether the id is already present.
- **When `typing(true)` is sent.** It is sent on every `input` event, not only on the first keystroke of a burst (public/client.js:241).
- **Own chat messages.** The client ignores a `chat message` carrying its own id (public/client.js:290). It shows its own bubble when sending instead (public/client.js:229).
- The typing indicator is recomputed only by the `typing` handler. A typist who leaves stays in the indicator text until the next `typing` event.
- The client's `users` Map is iterated in insertion order in `updateTypingIndicator`. The output does not depend on that order: one typist is named, several are only counted. So the cache is a Dafny `map`.

## Model

| member | source | states |
|---|---|---|
| Text.Trim | public/client.js:53-54 | the trimmed text is the slice of the input between leading and trailing whitespace, and it neither starts nor ends with whitespace |
| Text.TrimEmptyIffBlank | public/client.js:53-56 | the `!nickname` test after trim rejects exactly the inputs made only of whitespace |
| Text.DecimalString | public/client.js:258 | a count is printed as a non-empty string of decimal digits with no leading zero |
| Text.DecimalRoundTrip | public/client.js:258 | the printed digits read back as the count |
| Server.SetAdd | server.js:41 | `Set.add` adds the id exactly once, and keeps the set free of repetitions |
| Server.SetDelete | server.js:104 | `Set.delete` removes exactly that id, keeps the rest, and shrinks a repetition-free set holding it by one |
| Server.Normalize | server.js:28-29 | a bare string is the username in room `default`; an object gives its username and its room if that is non-empty, else `default`; the room is never empty |
| Server.RoomUsers | server.js:44-52 | the snapshot: for each member of the room's set, in set order, the id and stored name of every member other than the joiner that has a `users` entry |
| Server.RoomUsersExactly | server.js:44-52 | the `init` snapshot lists exactly the room members other than the joiner that have a `users` entry, with their stored names, each once |
| Server.Enrol | server.js:38-41 | after registration the room exists, its members are the old ones plus the joiner, and every other room is unchanged |
| Server.Withdraw | server.js:103-108 | on unregistration the id leaves its room; the room is deleted exactly when that leaves it empty; other rooms are unchanged |
| Server.JoinKeepsValid | server.js:35-41 | a join keeps: no repetitions, no empty room, every joined socket a member of its room |
| Server.JoinKeepsExact | server.js:35-41 | a join that does not move a joined socket to another room also keeps every member registered in that room |
| Server.DisconnectKeepsValid | server.js:97-122 | a disconnect keeps: no repetitions, no empty room, every joined socket a member of its room |
| Server.DisconnectKeepsExact | server.js:97-122 | a disconnect keeps every member of a room registered in that room |
| Server.DisconnectShrinksRoom | server.js:103-118 | under the invariant the leaver's room exists, loses exactly one member, and is deleted exactly when the leaver was its only member |
| Server.Registry.constructor | server.js:19-20 | the registry starts with no users, no rooms and nothing emitted, and satisfies the invariants |
| Server.Registry.CollectRoomUsers | server.js:44-52 | the `forEach` loop builds exactly the snapshot `RoomUsers` of the room's member set |
| Server.Registry.Register | server.js:35-41 | stores the user record, enrols the socket in its room, and keeps both invariants (the exact one if the socket stays in its room) |
| Server.Registry.Join | server.js:27-68 | new `users` and `rooms`; then, in order, `init` with the snapshot to the sender, `user joined` to the room except the sender, and `user count` equal to the room's post-insertion size to the whole room; the invariants are kept |
| Server.Registry.ChatMessage | server.js:71-82 | never changes the maps; unregistered sender: nothing emitted; otherwise one `chat message` with the sender's id, name, text and timestamp to the whole room |
| Server.Registry.Typing | server.js:85-94 | never changes the maps; unregistered sender: nothing emitted; otherwise one `typing` with id, name and flag to the room except the sender |
| Server.Registry.Disconnect | server.js:97-125 | the socket leaves `users`; an unknown socket changes nothing else and emits nothing; otherwise it leaves its room; an emptied room is deleted silently, else `user left` then `user count` with the post-removal size go to the room; the invariants are kept |
| Client.JoinRequest | public/client.js:53-65 | a join is produced exactly when the nickname is not blank; it carries the trimmed nickname and the trimmed room, or `default` when the room is blank |
| Client.CountLabel | public/client.js:257-259 | the label is the count in decimal followed by " user online" when the count is 1 and " users online" otherwise; its leading digits read back as the count |
| Client.TypingSummary | public/client.js:203-217 | the indicator text for the other sockets marked typing: empty for none, "<name> is typing..." for one, "<n> people are typing..." for several |
| Client.TypingSummaryBlank | public/client.js:203-217 | the indicator is empty exactly when no other socket is typing; the local socket's own entry never affects it |
| Client.InitEntries | public/client.js:320-338 | the cache after the `init` loop: each listed socket other than the local one, in list order, is entered (or re-entered) with its listed name and typing off |
| Client.InitEntriesKeys | public/client.js:320-338 | after `init` the cache holds the earlier entries plus every listed id other than the local one, and none of those is typing |
| Client.InitEntriesUntouched | public/client.js:320-338 | entries `init` does not list keep their value |
| Client.InitEntriesListed | public/client.js:320-338 | when listed ids are not repeated, each listed id other than the local one gets its own listed name |
| Client.Keystroke | public/client.js:241-246 | an input event cancels any pending timeout and sets one due 1000 ms after the current time |
| Client.Elapse | public/client.js:243-246 | as time passes, a pending timeout whose deadline is reached fires once, emitting `typing(false)`, and leaves nothing pending; otherwise nothing is emitted |
| Client.BurstEmitsOneStop | public/client.js:240-247 | keystrokes less than a second apart followed by a second of quiet emit `typing(true)` once per keystroke and exactly one `typing(false)`; no timeout is left pending |
| Client.QuietSecondFires | public/client.js:240-247 | after a keystroke the timeout fires exactly when at least 1000 ms have passed |
| Client.ChatClient.constructor | public/client.js:18-23 | the client starts with an empty cache, no name, nothing emitted and no pending timeout |
| Client.ChatClient.ClickJoin | public/client.js:52-73 | a blank nickname changes nothing and emits nothing; otherwise `myUsername` becomes the trimmed nickname and exactly one `join` with the form's payload is emitted |
| Client.ChatClient.SendMessage | public/client.js:221-230 | a blank draft changes nothing; otherwise the trimmed draft is emitted as `chat message`, the box is cleared, and the local avatar shows it if the local socket is in the cache |
| Client.ChatClient.Input | public/client.js:240-247 | every input event emits `typing(true)` and replaces any pending timeout by one due 1000 ms later |
| Client.ChatClient.Advance | public/client.js:243-246 | as time passes, a due timeout fires once, emitting `typing(false)`, and nothing remains pending |
| Client.ChatClient.OnUserCount | public/client.js:257-259 | the label becomes `CountLabel` of the received count |
| Client.ChatClient.OnUserJoined | public/client.js:261-277 | the id's entry is set (overwritten if present) to the name with typing off, on a new avatar with no bubble; all other entries and bubbles are unchanged; every bubble stays on a known avatar |
| Client.ChatClient.OnUserLeft | public/client.js:279-287 | a known id's entry is removed together with its avatar's bubble; an unknown id changes neither; every bubble stays on a known avatar |
| Client.ChatClient.OnChatMessage | public/client.js:289-293 | a message from another known socket replaces that socket's bubble; own or unknown ids change nothing; every bubble stays on a known avatar |
| Client.ChatClient.TypingIndicatorText | public/client.js:203-217 | the loop over the cache yields the summary: empty, "<name> is typing...", or "<n> people are typing..." for the other sockets that are typing |
| Client.ChatClient.OnTyping | public/client.js:295-301 | a known id's typing flag is set and the indicator recomputed; an unknown id changes neither the cache nor the indicator |
| Client.ChatClient.OnInit | public/client.js:303-340 | the cache gains the local entry with `myUsername`, then every listed id other than the local one, and keeps earlier entries; the re-created avatars show no bubble; every bubble stays on a known avatar |
| Sync.JoinFormReachesRegistry | server.js:28-29 | the server stores a form-built join as the trimmed nickname in the trimmed room, or `default`; its own fallback never applies |
| Sync.InitMirrorsRoom | server.js:44-55 | a fresh client applying its `init` snapshot holds exactly the room's member set, with the registered names, when no socket has changed rooms |
| Sync.DeltasKeepMirror | public/client.js:270-286 | with a cache equal to the member set, `user joined` and `user left` (room not emptied) give exactly the server's new member set |
| Scenarios.LobbyConversation | server.js:27-125 | two users join a room, one chats, both leave: the exact emissions at each step; the last leave emits nothing and deletes the room |
| Scenarios.RejoinLeavesStaleMember | server.js:35-41 | a socket that joins room "a", then "b", then disconnects stays a member of "a"; a later joiner of "a" gets an empty snapshot but a count of 2 |
| Scenarios.BlankNicknameSendsNothing | public/client.js:56-62 | a whitespace-only nickname emits nothing and leaves the username empty |

## Left out

- Socket.IO transport, `socket.join`, Express static serving, and `server.listen` with its port lookup (server.js:1-16, 128-131). These are library calls and I/O. As written, `process.nv.PORT` (server.js:128) reads a property of `undefined` and throws a TypeError at startup, so the server never listens; the handlers are modelled as they would run once that typo is fixed. The model records emissions with their recipient kind and does not compute delivery. Socket.IO's own room membership, which decides delivery, is not modelled.
- `console.log` calls.
- Server.Registry.ChatMessage: the timestamp is a parameter. `new Date().toLocaleTimeString()` depends on the clock and the locale.
- Server.Normalize: only string usernames and string-or-absent rooms are modelled. A payload whose `username` is not a string (undefined, a number) is stored as that value by the source. A `null` payload makes the source throw. Neither is modelled. The same goes for non-string `message` and non-boolean `typing` payloads.
- Client.ChatClient.OnInit: the `if (data.users)` guard for a missing list is not modelled. The server always sends an array.
- Client.ChatClient.constructor: `socket.id` is fixed when the client is created. The `connect` handler and reconnection with a new id are not modelled.
- Client.ChatClient.Advance: time moves in steps, and a due timeout fires at the end of the step in which its deadline falls. Timer ordering within one step is not modelled.
- DOM and presentation: the SVG template, avatar elements, screen switching, the red outline on a blank nickname, system messages, and the removal of speech bubbles after 5 s and of system messages after 3 s. The model keeps only which text the bubble on each cached avatar shows. That text is the last one shown: the 5 s timeout does not clear it.
- When `user joined` or `init` re-creates the avatar of a socket already in the cache, the source leaves the old avatar element, and any bubble on it, in the page (public/client.js:268-276, 327-336). The model tracks only the avatar the cache refers to.
- Dragging (public/client.js:112-162): mouse events and pixel coordinates.
- Random positions and colours from `Math.random` (public/client.js:264-266, 304-307, 323-325). The cache entries keep only the name and the typing flag.
- The leave button (socket disconnect and page reload) and the Enter-key handlers. The Enter keys only trigger the click and send handlers, which are modelled.
- The source's syntax errors at public/client.js:94, 273 and 307. They touch only positions, which are not modelled. The evident intent is assumed.
