/** The browser client (public/client.js): the join form, the presence cache
    that mirrors the room (`users`), the typing indicator, the user-count
    label and the debounce that turns keystrokes into `typing` emissions.
    DOM elements, avatar positions and colours are not modelled; the socket is
    an outbox of emitted events. */
module Client {
  import opened Wrappers
  import opened Protocol
  import opened Text

  /** What the client keeps per known socket: its name and whether it is typing. */
  datatype Peer = Peer(username: string, isTyping: bool)

  /** The join button (client.js:53-65): a blank nickname is refused; otherwise
      the payload carries the trimmed nickname and the trimmed room, or the
      default room when the room field is blank. */
  function JoinRequest(nickname: string, room: string): (r: Option<JoinPayload>)
    ensures r.Some? <==> !BlankBetween(nickname, 0, |nickname|)
    ensures r.Some? ==> r.value.Fields? && r.value.username == Trim(nickname)
                        && r.value.username != [] && r.value.room.Some?
    ensures r.Some? && BlankBetween(room, 0, |room|) ==> r.value.room == Some(DefaultRoom)
    ensures r.Some? && !BlankBetween(room, 0, |room|) ==> r.value.room == Some(Trim(room))
  {
    TrimEmptyIffBlank(nickname);
    TrimEmptyIffBlank(room);
    var name := Trim(nickname);
    var place := Trim(room);
    if name == [] then None
    else Some(Fields(name, Some(if place == [] then DefaultRoom else place)))
  }

  /** The `user count` label (client.js:258): the count in decimal, then
      " user online" for a count of one and " users online" for any other.
      The count can be read back from the label's leading digits. */
  function CountLabel(count: nat): (r: string)
    ensures |r| == |DecimalString(count)| + (if count == 1 then 12 else 13)
    ensures r[..|DecimalString(count)|] == DecimalString(count)
    ensures count == 1 ==> r[|DecimalString(count)|..] == " user online"
    ensures count != 1 ==> r[|DecimalString(count)|..] == " users online"
    ensures DigitsValue(LeadingDigits(r)) == count
    ensures |r| >= 8 && (r[|r| - 8..] == "s online" <==> count != 1)
  {
    var digits := DecimalString(count);
    var suffix := if count != 1 then " users online" else " user online";
    DecimalRoundTrip(count);
    LeadingDigitsOfConcat(digits, suffix);
    var r := digits + suffix;
    assert r[|r| - 8..] == suffix[|suffix| - 8..];
    r
  }

  /** The other sockets the cache marks as typing. */
  ghost function TypingIds(users: map<SocketId, Peer>, self: SocketId): set<SocketId> {
    set id | id in users && users[id].isTyping && id != self
  }

  /** The typing indicator's text (client.js:203-217): empty when no other
      socket is typing, the typist's name when one is, the number of typists
      when several are. */
  ghost function TypingSummary(users: map<SocketId, Peer>, self: SocketId): string {
    var typists := TypingIds(users, self);
    if |typists| == 0 then ""
    else if |typists| == 1 then
      var id :| id in typists; users[id].username + " is typing..."
    else DecimalString(|typists|) + " people are typing..."
  }

  /** The indicator is blank exactly when no other socket is typing; the local
      socket's own flag never shows. */
  lemma TypingSummaryBlank(users: map<SocketId, Peer>, self: SocketId, mine: Peer)
    ensures TypingSummary(users, self) == [] <==> TypingIds(users, self) == {}
    ensures TypingSummary(users[self := mine], self) == TypingSummary(users, self)
  {
    var typists := TypingIds(users, self);
    assert TypingIds(users[self := mine], self) == typists;
    if |typists| == 1 {
      var id :| id in typists;
      assert typists == {id} by {
        assert |typists - {id}| == 0;
      }
    }
  }

  /** The number of distinct elements of a sequence without repetitions. */
  lemma {:induction false} DistinctCardinality(s: seq<SocketId>)
    requires Distinct(s)
    ensures |Members(s)| == |s|
  {
    if s != [] {
      var init := s[..|s| - 1];
      var last := s[|s| - 1];
      assert Distinct(init);
      DistinctCardinality(init);
      assert last !in init;
      assert Members(s) == Members(init) + {last};
    }
  }

  /** The cache after the `init` loop over the listed peers (client.js:320-338):
      every listed socket other than the local one is (re)entered with its
      name and no typing flag. */
  function InitEntries(users: map<SocketId, Peer>, listed: seq<PeerInfo>, self: SocketId)
    : map<SocketId, Peer>
  {
    if listed == [] then users
    else
      var p := listed[|listed| - 1];
      var front := InitEntries(users, listed[..|listed| - 1], self);
      if p.socketId != self then front[p.socketId := Peer(p.username, false)] else front
  }

  /** The sockets an `init` list enters into the cache. */
  function ListedIds(listed: seq<PeerInfo>, self: SocketId): set<SocketId> {
    set p | p in listed && p.socketId != self :: p.socketId
  }

  /** After `init`, the cache holds the earlier entries plus every listed
      socket other than the local one, and none of those is typing. */
  lemma {:induction false} InitEntriesKeys(users: map<SocketId, Peer>, listed: seq<PeerInfo>, self: SocketId)
    ensures InitEntries(users, listed, self).Keys == users.Keys + ListedIds(listed, self)
    ensures forall id :: id in ListedIds(listed, self) ==> !InitEntries(users, listed, self)[id].isTyping
  {
    if listed != [] {
      var init := listed[..|listed| - 1];
      InitEntriesKeys(users, init, self);
      assert listed == init + [listed[|listed| - 1]];
      assert ListedIds(listed, self) == ListedIds(init, self) +
        (if listed[|listed| - 1].socketId != self then {listed[|listed| - 1].socketId} else {});
    }
  }

  /** `init` leaves every earlier entry it does not list untouched. */
  lemma {:induction false} InitEntriesUntouched(users: map<SocketId, Peer>, listed: seq<PeerInfo>,
                                                self: SocketId, id: SocketId)
    requires id in users && id !in ListedIds(listed, self)
    ensures id in InitEntries(users, listed, self) && InitEntries(users, listed, self)[id] == users[id]
  {
    if listed != [] {
      var init := listed[..|listed| - 1];
      assert listed == init + [listed[|listed| - 1]];
      assert ListedIds(init, self) <= ListedIds(listed, self);
      InitEntriesUntouched(users, init, self, id);
    }
  }

  /** When the listed ids are not repeated, each listed socket other than the
      local one is entered with its own name. */
  lemma {:induction false} InitEntriesListed(users: map<SocketId, Peer>, listed: seq<PeerInfo>,
                                             self: SocketId, k: nat)
    requires DistinctIds(listed) && k < |listed| && listed[k].socketId != self
    ensures listed[k].socketId in InitEntries(users, listed, self)
    ensures InitEntries(users, listed, self)[listed[k].socketId] == Peer(listed[k].username, false)
  {
    var init := listed[..|listed| - 1];
    var last := listed[|listed| - 1];
    InitEntriesKeys(users, init, self);
    InitEntriesKeys(users, listed, self);
    assert listed[k] in listed;
    if k < |listed| - 1 {
      assert init[k] == listed[k];
      assert DistinctIds(init);
      InitEntriesListed(users, init, self, k);
      assert listed[k].socketId != last.socketId;
    }
  }

  /** The typing debounce (client.js:240-247): the wall-clock time and the
      deadline of the one pending `typing(false)` timeout, if any. */
  datatype Timer = Timer(clock: int, deadline: Option<int>)

  const TypingIdleMs: nat := 1000

  /** An input event: the pending timeout is cleared and a new one is set to
      fire one second from now (the `typing(true)` emission goes beside it). */
  function Keystroke(t: Timer): Timer {
    Timer(t.clock, Some(t.clock + TypingIdleMs))
  }

  /** Time passes; a timeout whose deadline is reached fires and emits
      `typing(false)`. */
  function Elapse(t: Timer, elapsed: nat): (Timer, seq<bool>) {
    var now := t.clock + elapsed;
    if t.deadline.Some? && t.deadline.value <= now then (Timer(now, None), [false])
    else (Timer(now, t.deadline), [])
  }

  /** What the user does at the message box. */
  datatype Activity = Key | Wait(ms: nat)

  function Step(t: Timer, act: Activity): (Timer, seq<bool>) {
    match act
    case Key => (Keystroke(t), [true])
    case Wait(ms) => Elapse(t, ms)
  }

  /** The `typing` flags emitted over a run of activity. */
  function Run(t: Timer, acts: seq<Activity>): (Timer, seq<bool>)
    decreases |acts|
  {
    if acts == [] then (t, [])
    else
      var first := Step(t, acts[0]);
      var rest := Run(first.0, acts[1..]);
      (rest.0, first.1 + rest.1)
  }

  function Trues(n: nat): (r: seq<bool>)
    ensures |r| == n && forall i :: 0 <= i < n ==> r[i]
  {
    if n == 0 then [] else [true] + Trues(n - 1)
  }

  /** A burst of keystrokes less than a second apart, followed by a quiet
      period of at least a second. */
  function Burst(gaps: seq<nat>, quiet: nat): seq<Activity> {
    if gaps == [] then [Key, Wait(quiet)] else [Key, Wait(gaps[0])] + Burst(gaps[1..], quiet)
  }

  /** Every keystroke of a burst emits `typing(true)`, earlier timeouts never
      fire, and exactly one `typing(false)` follows once the quiet period
      reaches a second; no timeout is left pending. */
  lemma {:induction false} BurstEmitsOneStop(t: Timer, gaps: seq<nat>, quiet: nat)
    requires forall i :: 0 <= i < |gaps| ==> gaps[i] < TypingIdleMs
    requires quiet >= TypingIdleMs
    ensures Run(t, Burst(gaps, quiet)).1 == Trues(|gaps| + 1) + [false]
    ensures Run(t, Burst(gaps, quiet)).0.deadline == None
    decreases |gaps|
  {
    var k := Keystroke(t);
    if gaps == [] {
      var acts := Burst(gaps, quiet);
      assert acts[1..] == [Wait(quiet)];
      assert [Wait(quiet)][1..] == [];
      assert Step(k, Wait(quiet)) == (Timer(k.clock + quiet, None), [false]);
      assert Run(Timer(k.clock + quiet, None), []) == (Timer(k.clock + quiet, None), []);
      assert [Wait(quiet)][0] == Wait(quiet);
      assert [false] + [] == [false];
      assert Run(k, [Wait(quiet)]) == (Timer(k.clock + quiet, None), [false]);
    } else {
      var acts := Burst(gaps, quiet);
      var rest := Burst(gaps[1..], quiet);
      assert acts[1..] == [Wait(gaps[0])] + rest;
      assert ([Wait(gaps[0])] + rest)[1..] == rest;
      var w := Elapse(k, gaps[0]);
      assert w == (Timer(k.clock + gaps[0], k.deadline), []);
      BurstEmitsOneStop(w.0, gaps[1..], quiet);
      assert Trues(|gaps| + 1) == [true] + Trues(|gaps|);
    }
  }

  /** After a keystroke, the pending timeout fires exactly when a full second
      has passed. */
  lemma QuietSecondFires(t: Timer, elapsed: nat)
    ensures Elapse(Keystroke(t), elapsed).1 == [false] <==> elapsed >= TypingIdleMs
    ensures Elapse(Keystroke(t), elapsed).0.deadline.Some? <==> elapsed < TypingIdleMs
  {
  }

  class ChatClient {
    /** `socket.id` once connected. */
    const selfId: SocketId
    var myUsername: string
    /** The presence cache `users` without its DOM and position fields. */
    var users: map<SocketId, Peer>
    /** The text of the speech bubble shown on the avatar element the cache
        holds for each socket. */
    var bubbles: map<SocketId, string>
    var typingIndicator: string
    var userCountLabel: string
    /** The message box's content. */
    var draft: string
    var clock: int
    var typingDeadline: Option<int>
    /** Everything emitted on the socket, in order. */
    var outbox: seq<ClientEvent>

    constructor (id: SocketId, now: int)
      ensures selfId == id && clock == now
      ensures myUsername == [] && users == map[] && bubbles == map[] && outbox == []
      ensures typingIndicator == [] && userCountLabel == [] && draft == [] && typingDeadline == None
    {
      selfId := id;
      myUsername, users, bubbles := [], map[], map[];
      typingIndicator, userCountLabel, draft := [], [], [];
      clock, typingDeadline, outbox := now, None, [];
    }

    /** Every speech bubble sits on an avatar the cache knows. */
    predicate BubblesOnAvatars()
      reads this`users, this`bubbles
    {
      bubbles.Keys <= users.Keys
    }

    ghost function TypingTimer(): Timer
      reads this
    {
      Timer(clock, typingDeadline)
    }

    /** The join button's click handler (client.js:52-73). */
    method ClickJoin(nickname: string, room: string)
      modifies this`myUsername, this`outbox
      ensures JoinRequest(nickname, room).None? ==>
                myUsername == old(myUsername) && outbox == old(outbox)
      ensures JoinRequest(nickname, room).Some? ==>
                myUsername == Trim(nickname) && outbox == old(outbox) + [Join(JoinRequest(nickname, room).value)]
    {
      var request := JoinRequest(nickname, room);
      if request.None? {
        return;
      }
      myUsername := Trim(nickname);
      outbox := outbox + [Join(request.value)];
    }

    /** `sendMessage` (client.js:221-230): a blank draft sends nothing; else
        the trimmed draft is emitted, the box is cleared and the local avatar
        shows it. */
    method SendMessage()
      modifies this`draft, this`outbox, this`bubbles
      ensures Trim(old(draft)) == [] ==>
                draft == old(draft) && outbox == old(outbox) && bubbles == old(bubbles)
      ensures Trim(old(draft)) != [] ==>
                && outbox == old(outbox) + [Chat(Trim(old(draft)))]
                && draft == []
                && bubbles == if selfId in users then old(bubbles)[selfId := Trim(old(draft))] else old(bubbles)
      ensures old(BubblesOnAvatars()) ==> BubblesOnAvatars()
    {
      var message := Trim(draft);
      if message == [] {
        return;
      }
      outbox := outbox + [Chat(message)];
      draft := [];
      if selfId in users {
        bubbles := bubbles[selfId := message];
      }
    }

    /** The message box's `input` listener (client.js:240-247), after the
        browser has set the box to `value`. */
    method Input(value: string)
      modifies this`draft, this`outbox, this`typingDeadline
      ensures draft == value
      ensures outbox == old(outbox) + [TypingFlag(true)]
      ensures TypingTimer() == Keystroke(old(TypingTimer()))
    {
      draft := value;
      outbox := outbox + [TypingFlag(true)];
      typingDeadline := Some(clock + TypingIdleMs);
    }

    /** The clock advances; the pending timeout fires if its time has come. */
    method Advance(elapsed: nat)
      modifies this`clock, this`typingDeadline, this`outbox
      ensures TypingTimer() == Elapse(old(TypingTimer()), elapsed).0
      ensures outbox == old(outbox) + seq(|Elapse(old(TypingTimer()), elapsed).1|,
                                          i requires 0 <= i < |Elapse(old(TypingTimer()), elapsed).1| =>
                                            TypingFlag(Elapse(old(TypingTimer()), elapsed).1[i]))
    {
      clock := clock + elapsed;
      if typingDeadline.Some? && typingDeadline.value <= clock {
        typingDeadline := None;
        outbox := outbox + [TypingFlag(false)];
      }
    }

    /** The `user count` handler (client.js:257-259). */
    method OnUserCount(count: nat)
      modifies this`userCountLabel
      ensures userCountLabel == CountLabel(count)
    {
      userCountLabel := CountLabel(count);
    }

    /** The `user joined` handler (client.js:261-277): the entry is (re)set,
        even for a socket already known, with a fresh avatar that shows no
        speech bubble. */
    method OnUserJoined(socketId: SocketId, username: string)
      modifies this`users, this`bubbles
      ensures users == old(users)[socketId := Peer(username, false)]
      ensures bubbles == old(bubbles) - {socketId}
      ensures old(BubblesOnAvatars()) ==> BubblesOnAvatars()
    {
      users := users[socketId := Peer(username, false)];
      bubbles := bubbles - {socketId};
    }

    /** The `user left` handler (client.js:279-287): a known socket's avatar is
        removed together with its speech bubble. */
    method OnUserLeft(socketId: SocketId)
      modifies this`users, this`bubbles
      ensures users == old(users) - {socketId}
      ensures socketId in old(users) ==> bubbles == old(bubbles) - {socketId}
      ensures socketId !in old(users) ==> users == old(users) && bubbles == old(bubbles)
      ensures old(BubblesOnAvatars()) ==> BubblesOnAvatars()
    {
      if socketId in users {
        users := users - {socketId};
        bubbles := bubbles - {socketId};
      }
    }

    /** The `chat message` handler (client.js:289-293): another known socket's
        message replaces the bubble above its avatar. */
    method OnChatMessage(socketId: SocketId, message: string)
      modifies this`bubbles
      ensures socketId != selfId && socketId in users ==> bubbles == old(bubbles)[socketId := message]
      ensures socketId == selfId || socketId !in users ==> bubbles == old(bubbles)
      ensures old(BubblesOnAvatars()) ==> BubblesOnAvatars()
    {
      if socketId != selfId && socketId in users {
        bubbles := bubbles[socketId := message];
      }
    }

    /** `updateTypingIndicator`'s loop (client.js:203-217): it walks the cache,
        collects the names of the other sockets that are typing and formats them. */
    method TypingIndicatorText() returns (text: string)
      ensures text == TypingSummary(users, selfId)
    {
      var typingUsers: seq<string> := [];
      ghost var listed: seq<SocketId> := [];
      var remaining := users.Keys;
      while remaining != {}
        invariant remaining <= users.Keys
        invariant forall k :: 0 <= k < |listed| ==> listed[k] in users
        invariant Distinct(listed)
        invariant forall id :: id in listed ==> id !in remaining
        invariant Members(listed) == TypingIds(users, selfId) - remaining
        invariant |typingUsers| == |listed|
        invariant forall k :: 0 <= k < |listed| ==> typingUsers[k] == users[listed[k]].username
        decreases remaining
      {
        var id :| id in remaining;
        if users[id].isTyping && id != selfId {
          typingUsers := typingUsers + [users[id].username];
          assert Members(listed + [id]) == Members(listed) + {id};
          listed := listed + [id];
        }
        remaining := remaining - {id};
      }
      DistinctCardinality(listed);
      var typists := TypingIds(users, selfId);
      if |typingUsers| == 0 {
        text := [];
      } else if |typingUsers| == 1 {
        assert typists == {listed[0]} by {
          assert listed == [listed[0]];
        }
        text := typingUsers[0] + " is typing...";
      } else {
        text := DecimalString(|typingUsers|) + " people are typing...";
      }
    }

    /** The `typing` handler (client.js:295-301): a known socket's flag is
        updated and the indicator recomputed; an unknown socket is ignored. */
    method OnTyping(socketId: SocketId, isTyping: bool)
      modifies this`users, this`typingIndicator
      ensures socketId !in old(users) ==> users == old(users) && typingIndicator == old(typingIndicator)
      ensures socketId in old(users) ==>
                && users == old(users)[socketId := old(users)[socketId].(isTyping := isTyping)]
                && typingIndicator == TypingSummary(users, selfId)
      ensures old(BubblesOnAvatars()) ==> BubblesOnAvatars()
    {
      if socketId in users {
        users := users[socketId := users[socketId].(isTyping := isTyping)];
        typingIndicator := TypingIndicatorText();
      }
    }

    /** The `init` handler (client.js:303-340): the local socket's entry, then
        one per listed socket other than the local one, each with a fresh
        avatar that shows no speech bubble. Earlier entries stay. */
    method OnInit(listed: seq<PeerInfo>)
      modifies this`users, this`bubbles
      ensures users == InitEntries(old(users)[selfId := Peer(myUsername, false)], listed, selfId)
      ensures bubbles == old(bubbles) - ({selfId} + ListedIds(listed, selfId))
      ensures old(BubblesOnAvatars()) ==> BubblesOnAvatars()
    {
      ghost var wasOnAvatars := BubblesOnAvatars();
      users := users[selfId := Peer(myUsername, false)];
      bubbles := bubbles - {selfId};
      ghost var start := users;
      ghost var shown := bubbles;
      var i := 0;
      while i < |listed|
        invariant 0 <= i <= |listed|
        invariant users == InitEntries(start, listed[..i], selfId)
        invariant bubbles == shown - ListedIds(listed[..i], selfId)
        invariant wasOnAvatars ==> BubblesOnAvatars()
      {
        var p := listed[i];
        assert listed[..i + 1][..i] == listed[..i];
        assert listed[..i + 1] == listed[..i] + [p];
        assert ListedIds(listed[..i + 1], selfId) ==
          ListedIds(listed[..i], selfId) + (if p.socketId != selfId then {p.socketId} else {});
        if p.socketId != selfId {
          users := users[p.socketId := Peer(p.username, false)];
          bubbles := bubbles - {p.socketId};
        }
        i := i + 1;
      }
      assert listed[..i] == listed;
    }
  }
}
