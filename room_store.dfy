/**
 The room/presence bookkeeping of the voice-chat relay, as values.

 The process-wide `rooms` dictionary maps a room id to a record of four parts:
 the connected users (connection id -> member record), the chat history, the
 microphone slots (slot -> user name) and the reverse index (user name -> slot).
 Every socket handler is a function from the server state before the event to
 the state after it; the state also holds the insertion order of the room ids
 (a Python dict iterates in that order, which decides which room `disconnect`
 visits first) and the outbox, the list of everything `emit` was asked to send.
 */
module RoomStore {
  import opened Wrappers
  import opened PyStrings

  /** A Socket.IO connection id (`request.sid`). */
  type Sid = string
  /** A room id after `str(...)`. */
  type RoomId = string
  /** A wall-clock reading (`datetime.now().isoformat()`), carried but never inspected. */
  type Timestamp = string

  /** An entry of `room["users"]`. */
  datatype Member = Member(name: string, joinedAt: Timestamp)

  /** An entry of `room["messages"]`. */
  datatype Msg = Msg(user: string, text: string, timestamp: Timestamp)

  datatype Room = Room(
    users: map<Sid, Member>,
    messages: seq<Msg>,
    micSlots: map<string, string>,
    userSlots: map<string, string>)

  /** The record `get_or_create_room` stores for a room id it has not seen. */
  const EmptyRoom := Room(map[], [], map[], map[])

  /** Whom an `emit` addresses. */
  datatype Target =
    | ToSid(sid: Sid)                       // `to=request.sid`
    | ToRoom(room: RoomId)                  // `room=room_id`
    | ToRoomExcept(room: RoomId, skip: Sid) // `room=room_id, include_self=False`

  /** The outbound events, with their payloads. */
  datatype Event =
    | RoomData(users: map<Sid, Member>, micSlots: map<string, string>, roomId: RoomId, yourName: string)
    | NewMessage(msg: Msg)
    | MicError(message: string)
    | MicUpdate(micSlots: map<string, string>)

  datatype Emit = Emit(event: Event, target: Target)

  datatype ServerState = ServerState(rooms: map<RoomId, Room>, order: seq<RoomId>, outbox: seq<Emit>)

  /** The state at process start: `rooms = {}`, nothing sent. */
  const Init := ServerState(map[], [], [])

  const SystemUser := "System"
  const SlotTaken := "Slot already taken"

  // ---------------------------------------------------------------------------
  // Invariants
  // ---------------------------------------------------------------------------

  predicate Distinct(s: seq<RoomId>)
  {
    forall i, j :: 0 <= i < j < |s| ==> s[i] != s[j]
  }

  /** `order` lists every stored room id exactly once. */
  predicate WellOrdered(st: ServerState)
  {
    && Distinct(st.order)
    && (forall id :: id in st.order ==> id in st.rooms)
    && (forall id :: id in st.rooms ==> id in st.order)
  }

  /** `user_slots[u] == s` implies `mic_slots[s] == u`. */
  predicate SlotsLinked(room: Room)
  {
    forall u :: u in room.userSlots ==>
      room.userSlots[u] in room.micSlots && room.micSlots[room.userSlots[u]] == u
  }

  /** What every stored room satisfies between two events. */
  predicate RoomValid(room: Room)
  {
    room.users != map[] && SlotsLinked(room)
  }

  predicate Valid(st: ServerState)
  {
    && WellOrdered(st)
    && (forall id :: id in st.rooms ==> RoomValid(st.rooms[id]))
  }

  // ---------------------------------------------------------------------------
  // Helpers on the room order
  // ---------------------------------------------------------------------------

  /** The order after `del rooms[id]`: the other ids, in their old order. */
  function Without(s: seq<RoomId>, x: RoomId): (r: seq<RoomId>)
    ensures forall y :: y in r <==> y in s && y != x
    ensures Distinct(s) ==> Distinct(r)
    ensures x !in s ==> r == s
  {
    if s == [] then []
    else if s[0] == x then Without(s[1..], x)
    else
      var rest := Without(s[1..], x);
      assert Distinct(s) ==> Distinct(s[1..]) && s[0] !in s[1..];
      [s[0]] + rest
  }

  /**
   Deleting the id at index `k` of a duplicate-free order removes exactly that
   entry: the ids before and after it keep their relative order.
   */
  lemma {:induction false} WithoutAt(s: seq<RoomId>, x: RoomId, k: nat)
    requires Distinct(s) && k < |s| && s[k] == x
    ensures Without(s, x) == s[..k] + s[k + 1..]
  {
    if k == 0 {
      assert x !in s[1..];
      assert s[1..] == s[..0] + s[1..];
    } else {
      assert Distinct(s[1..]);
      WithoutAt(s[1..], x, k - 1);
      assert s[1..][..k - 1] + s[1..][k..] == s[1..k] + s[k + 1..];
      assert s[..k] + s[k + 1..] == [s[0]] + (s[1..k] + s[k + 1..]);
    }
  }

  /** Room `id` is stored and connection `sid` is one of its users. */
  predicate HasSid(rooms: map<RoomId, Room>, id: RoomId, sid: Sid)
  {
    id in rooms && sid in rooms[id].users
  }

  /** The first room id in `order` whose room holds `sid`, as the loop in `disconnect` finds it. */
  function FirstRoomWith(order: seq<RoomId>, rooms: map<RoomId, Room>, sid: Sid): (r: Option<RoomId>)
    ensures r.Some? ==> r.value in order && HasSid(rooms, r.value, sid)
  {
    if order == [] then None
    else if HasSid(rooms, order[0], sid) then Some(order[0])
    else FirstRoomWith(order[1..], rooms, sid)
  }

  /**
   `FirstRoomWith` is the first match: if no entry before index `i` holds `sid`
   and the entry at `i` (if any) does, the search finds that entry, and it finds
   nothing when `i` is past the end.
   */
  lemma {:induction false} FirstRoomWithIsFirst(order: seq<RoomId>, rooms: map<RoomId, Room>, sid: Sid, i: nat)
    requires i <= |order|
    requires forall j :: 0 <= j < i ==> !HasSid(rooms, order[j], sid)
    requires i < |order| ==> HasSid(rooms, order[i], sid)
    ensures FirstRoomWith(order, rooms, sid) == if i < |order| then Some(order[i]) else None
  {
    if order != [] && i > 0 {
      assert !HasSid(rooms, order[0], sid);
      FirstRoomWithIsFirst(order[1..], rooms, sid, i - 1);
    }
  }

  /** A connection id no room holds is found nowhere; one that some room holds is found. */
  lemma {:induction false} FirstRoomWithNone(order: seq<RoomId>, rooms: map<RoomId, Room>, sid: Sid)
    ensures FirstRoomWith(order, rooms, sid) == None <==>
            forall j :: 0 <= j < |order| ==> !HasSid(rooms, order[j], sid)
  {
    if order != [] {
      FirstRoomWithNone(order[1..], rooms, sid);
      if !HasSid(rooms, order[0], sid) {
        forall j | 0 <= j < |order[1..]| ensures order[1..][j] == order[j + 1] { }
      }
    }
  }

  // ---------------------------------------------------------------------------
  // The handlers, as state transitions
  // ---------------------------------------------------------------------------

  /** `get_or_create_room(room_id)`: the state after it; the room it returns is `r.rooms[roomId]`. */
  function GetOrCreateRoom(st: ServerState, roomId: RoomId): (r: ServerState)
    ensures roomId in r.rooms
  {
    if roomId in st.rooms then st
    else st.(rooms := st.rooms[roomId := EmptyRoom], order := st.order + [roomId])
  }

  function JoinedText(name: string): string { name + " joined the room" }
  function LeftText(name: string): string { name + " left the room" }

  /** Handler of `join_room`. */
  function Join(st: ServerState, sid: Sid, roomIdField: Option<string>, userNameField: Option<string>, now: Timestamp): (r: ServerState)
    ensures PyStr(roomIdField) in r.rooms && sid in r.rooms[PyStr(roomIdField)].users
    ensures r.rooms.Keys == st.rooms.Keys + {PyStr(roomIdField)}
    ensures |r.outbox| == |st.outbox| + 2 && r.outbox[..|st.outbox|] == st.outbox
  {
    var roomId := PyStr(roomIdField);
    var name := GetOr(userNameField, "User");
    var created := GetOrCreateRoom(st, roomId);
    var room := created.rooms[roomId];
    var users := room.users[sid := Member(name, now)];
    var msg := Msg(SystemUser, JoinedText(name), now);
    created.(
      rooms := created.rooms[roomId := room.(users := users, messages := room.messages + [msg])],
      outbox := created.outbox + [
        Emit(RoomData(users, room.micSlots, roomId, name), ToSid(sid)),
        Emit(NewMessage(msg), ToRoomExcept(roomId, sid))])
  }

  /** Handler of `send_message`. */
  function SendMessage(st: ServerState, roomIdField: Option<string>, textField: Option<string>, userNameField: Option<string>, now: Timestamp): (r: ServerState)
    ensures r.rooms.Keys == st.rooms.Keys && r.order == st.order
    ensures r != st ==> |r.outbox| == |st.outbox| + 1 && r.outbox[..|st.outbox|] == st.outbox
  {
    var roomId := PyStr(roomIdField);
    var text := Strip(GetOr(textField, ""));
    var name := GetOr(userNameField, "User");
    if text == [] || roomId !in st.rooms then st
    else
      var room := st.rooms[roomId];
      var msg := Msg(name, text, now);
      st.(rooms := st.rooms[roomId := room.(messages := room.messages + [msg])],
          outbox := st.outbox + [Emit(NewMessage(msg), ToRoom(roomId))])
  }

  /** Handler of `join_mic`; `name` is the `userName` field. */
  function JoinMic(st: ServerState, sid: Sid, roomIdField: Option<string>, slotField: Option<string>, name: string): (r: ServerState)
    ensures r.rooms.Keys == st.rooms.Keys && r.order == st.order
    ensures (PyStr(roomIdField) in st.rooms) == (|r.outbox| == |st.outbox| + 1)
  {
    var roomId := PyStr(roomIdField);
    var slot := PyStr(slotField);
    if roomId !in st.rooms then st
    else
      var room := st.rooms[roomId];
      if slot in room.micSlots then
        st.(outbox := st.outbox + [Emit(MicError(SlotTaken), ToSid(sid))])
      else
        var mic := room.micSlots[slot := name];
        st.(rooms := st.rooms[roomId := room.(micSlots := mic, userSlots := room.userSlots[name := slot])],
            outbox := st.outbox + [Emit(MicUpdate(mic), ToRoom(roomId))])
  }

  /**
   `leave_mic` would raise KeyError at `del room["mic_slots"][slot]`: the user
   holds a non-empty slot that is not in `mic_slots`.
   */
  predicate LeaveMicFaults(st: ServerState, roomId: RoomId, name: string)
  {
    && roomId in st.rooms
    && name in st.rooms[roomId].userSlots
    && st.rooms[roomId].userSlots[name] != ""
    && st.rooms[roomId].userSlots[name] !in st.rooms[roomId].micSlots
  }

  /**
   Handler of `leave_mic`; `name` is the `userName` field. A slot stored as the
   empty string is falsy in Python, so `if slot:` skips it. Should the `del`
   raise, the handler stops before changing or sending anything.
   */
  function LeaveMic(st: ServerState, roomIdField: Option<string>, name: string): (r: ServerState)
    ensures r.rooms.Keys == st.rooms.Keys && r.order == st.order
    ensures r != st ==> |r.outbox| == |st.outbox| + 1
  {
    var roomId := PyStr(roomIdField);
    if roomId !in st.rooms then st
    else
      var room := st.rooms[roomId];
      if name !in room.userSlots || room.userSlots[name] == "" then st
      else
        var slot := room.userSlots[name];
        if slot !in room.micSlots then st
        else
          var mic := room.micSlots - {slot};
          st.(rooms := st.rooms[roomId := room.(micSlots := mic, userSlots := room.userSlots - {name})],
              outbox := st.outbox + [Emit(MicUpdate(mic), ToRoom(roomId))])
  }

  /** Handler of `disconnect`. */
  function Disconnect(st: ServerState, sid: Sid, now: Timestamp): (r: ServerState)
    ensures r.rooms.Keys <= st.rooms.Keys
    ensures |st.rooms.Keys - r.rooms.Keys| <= 1
    ensures r != st ==> |r.outbox| == |st.outbox| + 1 && r.outbox[..|st.outbox|] == st.outbox
  {
    match FirstRoomWith(st.order, st.rooms, sid)
    case None => st
    case Some(roomId) =>
      var room := st.rooms[roomId];
      var msg := Msg(SystemUser, LeftText(room.users[sid].name), now);
      var users := room.users - {sid};
      var outbox := st.outbox + [Emit(NewMessage(msg), ToRoom(roomId))];
      if users == map[] then
        ServerState(st.rooms - {roomId}, Without(st.order, roomId), outbox)
      else
        ServerState(st.rooms[roomId := room.(users := users, messages := room.messages + [msg])], st.order, outbox)
  }

  // ---------------------------------------------------------------------------
  // get_or_create_room
  // ---------------------------------------------------------------------------

  /**
   On a known id `get_or_create_room` changes nothing; on a new id it adds one
   empty room, appended to the iteration order, and leaves every other room and
   the outbox alone. Calling it twice is calling it once.
   */
  lemma GetOrCreateRoomSpec(st: ServerState, roomId: RoomId)
    ensures var r := GetOrCreateRoom(st, roomId);
      && GetOrCreateRoom(r, roomId) == r
      && (roomId in st.rooms ==> r == st)
      && (roomId !in st.rooms ==>
            && r.rooms[roomId] == EmptyRoom
            && r.rooms.Keys == st.rooms.Keys + {roomId}
            && |r.rooms| == |st.rooms| + 1
            && r.order == st.order + [roomId])
      && (forall id :: id in st.rooms ==> id in r.rooms && (id != roomId ==> r.rooms[id] == st.rooms[id]))
      && r.outbox == st.outbox
  {
    var r := GetOrCreateRoom(st, roomId);
    if roomId !in st.rooms {
      assert r.rooms.Keys == st.rooms.Keys + {roomId};
    }
  }

  lemma GetOrCreateRoomWellOrdered(st: ServerState, roomId: RoomId)
    requires WellOrdered(st)
    ensures WellOrdered(GetOrCreateRoom(st, roomId))
  {
    if roomId !in st.rooms {
      var o := st.order + [roomId];
      forall i, j | 0 <= i < j < |o| ensures o[i] != o[j] {
        if j == |o| - 1 { assert o[i] in st.order; }
      }
    }
  }

  // ---------------------------------------------------------------------------
  // join_room
  // ---------------------------------------------------------------------------

  /**
   After `join_room` the room exists and maps the connection to the given name
   (default "User"); its history gained exactly one System "joined" message;
   its slots are as before (none for a new room); the outbox gained `room_data`
   to the sender followed by the message to everyone else in the room; no other
   room changed.
   */
  lemma JoinEffect(st: ServerState, sid: Sid, roomIdField: Option<string>, userNameField: Option<string>, now: Timestamp)
    ensures var roomId := PyStr(roomIdField);
      var name := GetOr(userNameField, "User");
      var before := if roomId in st.rooms then st.rooms[roomId] else EmptyRoom;
      var r := Join(st, sid, roomIdField, userNameField, now);
      var msg := Msg(SystemUser, JoinedText(name), now);
      && roomId in r.rooms
      && r.rooms[roomId].users == before.users[sid := Member(name, now)]
      && r.rooms[roomId].messages == before.messages + [msg]
      && r.rooms[roomId].micSlots == before.micSlots
      && r.rooms[roomId].userSlots == before.userSlots
      && r.outbox == st.outbox + [
           Emit(RoomData(r.rooms[roomId].users, before.micSlots, roomId, name), ToSid(sid)),
           Emit(NewMessage(msg), ToRoomExcept(roomId, sid))]
      && r.rooms.Keys == st.rooms.Keys + {roomId}
      && r.order == (if roomId in st.rooms then st.order else st.order + [roomId])
      && (forall id :: id in st.rooms && id != roomId ==> r.rooms[id] == st.rooms[id])
  {
    GetOrCreateRoomSpec(st, PyStr(roomIdField));
  }

  lemma JoinPreservesValid(st: ServerState, sid: Sid, roomIdField: Option<string>, userNameField: Option<string>, now: Timestamp)
    requires Valid(st)
    ensures Valid(Join(st, sid, roomIdField, userNameField, now))
  {
    var roomId := PyStr(roomIdField);
    GetOrCreateRoomWellOrdered(st, roomId);
    JoinEffect(st, sid, roomIdField, userNameField, now);
    var r := Join(st, sid, roomIdField, userNameField, now);
    assert r.order == GetOrCreateRoom(st, roomId).order;
    assert r.rooms.Keys == GetOrCreateRoom(st, roomId).rooms.Keys;
    assert sid in r.rooms[roomId].users;
  }

  // ---------------------------------------------------------------------------
  // send_message
  // ---------------------------------------------------------------------------

  /**
   `send_message` with a missing, empty or whitespace-only text, or for a room
   that is not stored, changes nothing and sends nothing (in particular it
   creates no room).
   */
  lemma SendMessageIgnored(st: ServerState, roomIdField: Option<string>, textField: Option<string>, userNameField: Option<string>, now: Timestamp)
    requires Blank(GetOr(textField, "")) || PyStr(roomIdField) !in st.rooms
    ensures SendMessage(st, roomIdField, textField, userNameField, now) == st
  {
    StripEmptyIffBlank(GetOr(textField, ""));
  }

  /**
   Otherwise it appends exactly one message (author = `userName`, default
   "User"; text = the stripped text) to that room and sends it to the whole
   room, changing nothing else.
   */
  lemma SendMessageAppends(st: ServerState, roomIdField: Option<string>, textField: Option<string>, userNameField: Option<string>, now: Timestamp)
    requires !Blank(GetOr(textField, "")) && PyStr(roomIdField) in st.rooms
    ensures var roomId := PyStr(roomIdField);
      var r := SendMessage(st, roomIdField, textField, userNameField, now);
      var msg := Msg(GetOr(userNameField, "User"), Strip(GetOr(textField, "")), now);
      && r.rooms == st.rooms[roomId := st.rooms[roomId].(messages := st.rooms[roomId].messages + [msg])]
      && r.order == st.order
      && r.outbox == st.outbox + [Emit(NewMessage(msg), ToRoom(roomId))]
  {
    StripEmptyIffBlank(GetOr(textField, ""));
  }

  lemma SendMessagePreservesValid(st: ServerState, roomIdField: Option<string>, textField: Option<string>, userNameField: Option<string>, now: Timestamp)
    requires Valid(st)
    ensures Valid(SendMessage(st, roomIdField, textField, userNameField, now))
  {
    if Blank(GetOr(textField, "")) || PyStr(roomIdField) !in st.rooms {
      SendMessageIgnored(st, roomIdField, textField, userNameField, now);
    } else {
      SendMessageAppends(st, roomIdField, textField, userNameField, now);
    }
  }

  // ---------------------------------------------------------------------------
  // join_mic
  // ---------------------------------------------------------------------------

  /**
   `join_mic` for a room that is not stored changes nothing. For a stored room:
   a slot already in `mic_slots` is refused, the maps stay as they are and only
   `mic_error` goes to the sender; a free slot gets `mic_slots[slot] = name` and
   `user_slots[name] = slot`, then `mic_update` with the new slots goes to the
   room. Nothing else changes.
   */
  lemma JoinMicEffect(st: ServerState, sid: Sid, roomIdField: Option<string>, slotField: Option<string>, name: string)
    ensures var roomId := PyStr(roomIdField);
      var slot := PyStr(slotField);
      var r := JoinMic(st, sid, roomIdField, slotField, name);
      && r.order == st.order
      && r.rooms.Keys == st.rooms.Keys
      && (roomId !in st.rooms ==> r == st)
      && (roomId in st.rooms && slot in st.rooms[roomId].micSlots ==>
            r.rooms == st.rooms && r.outbox == st.outbox + [Emit(MicError(SlotTaken), ToSid(sid))])
      && (roomId in st.rooms && slot !in st.rooms[roomId].micSlots ==>
            var room := st.rooms[roomId];
            && r.rooms[roomId].micSlots == room.micSlots[slot := name]
            && r.rooms[roomId].userSlots == room.userSlots[name := slot]
            && r.rooms[roomId].users == room.users
            && r.rooms[roomId].messages == room.messages
            && (forall id :: id in st.rooms && id != roomId ==> r.rooms[id] == st.rooms[id])
            && r.outbox == st.outbox + [Emit(MicUpdate(r.rooms[roomId].micSlots), ToRoom(roomId))])
  {
  }

  /** A taken slot is never given to someone else: `join_mic` only adds slots. */
  lemma JoinMicNeverOverwrites(st: ServerState, sid: Sid, roomIdField: Option<string>, slotField: Option<string>, name: string, roomId: RoomId, slot: string)
    requires roomId in st.rooms && slot in st.rooms[roomId].micSlots
    ensures var r := JoinMic(st, sid, roomIdField, slotField, name);
      roomId in r.rooms && slot in r.rooms[roomId].micSlots
      && r.rooms[roomId].micSlots[slot] == st.rooms[roomId].micSlots[slot]
  {
  }

  lemma JoinMicPreservesValid(st: ServerState, sid: Sid, roomIdField: Option<string>, slotField: Option<string>, name: string)
    requires Valid(st)
    ensures Valid(JoinMic(st, sid, roomIdField, slotField, name))
  {
    var roomId := PyStr(roomIdField);
    var slot := PyStr(slotField);
    if roomId in st.rooms && slot !in st.rooms[roomId].micSlots {
      var room := st.rooms[roomId];
      assert RoomValid(room);
      var room' := room.(micSlots := room.micSlots[slot := name], userSlots := room.userSlots[name := slot]);
      forall u | u in room'.userSlots
        ensures room'.userSlots[u] in room'.micSlots && room'.micSlots[room'.userSlots[u]] == u
      {
        if u != name {
          assert room.userSlots[u] in room.micSlots;
        }
      }
      assert RoomValid(room');
      assert JoinMic(st, sid, roomIdField, slotField, name).rooms == st.rooms[roomId := room'];
    }
  }

  // ---------------------------------------------------------------------------
  // leave_mic
  // ---------------------------------------------------------------------------

  /** Under the invariant the `del room["mic_slots"][str(slot)]` in `leave_mic` always finds its key. */
  lemma LeaveMicNeverFaults(st: ServerState, roomId: RoomId, name: string)
    requires Valid(st)
    ensures !LeaveMicFaults(st, roomId, name)
  {
    if roomId in st.rooms && name in st.rooms[roomId].userSlots {
      assert RoomValid(st.rooms[roomId]);
    }
  }

  /**
   `leave_mic` changes nothing when the room is not stored or the user holds no
   non-empty slot; otherwise (the invariant holding) it removes the user's slot
   from both maps and sends `mic_update` with the remaining slots to the room.
   */
  lemma LeaveMicEffect(st: ServerState, roomIdField: Option<string>, name: string)
    requires Valid(st)
    ensures var roomId := PyStr(roomIdField);
      var r := LeaveMic(st, roomIdField, name);
      && r.order == st.order
      && r.rooms.Keys == st.rooms.Keys
      && ((roomId !in st.rooms || name !in st.rooms[roomId].userSlots || st.rooms[roomId].userSlots[name] == "")
            <==> r == st)
      && (roomId in st.rooms && name in st.rooms[roomId].userSlots && st.rooms[roomId].userSlots[name] != "" ==>
            var room := st.rooms[roomId];
            var slot := room.userSlots[name];
            && r.rooms[roomId].micSlots == room.micSlots - {slot}
            && r.rooms[roomId].userSlots == room.userSlots - {name}
            && r.rooms[roomId].users == room.users
            && r.rooms[roomId].messages == room.messages
            && (forall id :: id in st.rooms && id != roomId ==> r.rooms[id] == st.rooms[id])
            && r.outbox == st.outbox + [Emit(MicUpdate(r.rooms[roomId].micSlots), ToRoom(roomId))])
  {
    var roomId := PyStr(roomIdField);
    LeaveMicNeverFaults(st, roomId, name);
    var r := LeaveMic(st, roomIdField, name);
    if roomId in st.rooms && name in st.rooms[roomId].userSlots && st.rooms[roomId].userSlots[name] != "" {
      assert |r.outbox| == |st.outbox| + 1;
    }
  }

  lemma LeaveMicPreservesValid(st: ServerState, roomIdField: Option<string>, name: string)
    requires Valid(st)
    ensures Valid(LeaveMic(st, roomIdField, name))
  {
    var roomId := PyStr(roomIdField);
    if roomId in st.rooms && name in st.rooms[roomId].userSlots && st.rooms[roomId].userSlots[name] != "" {
      var room := st.rooms[roomId];
      assert RoomValid(room);
      var slot := room.userSlots[name];
      var room' := room.(micSlots := room.micSlots - {slot}, userSlots := room.userSlots - {name});
      forall u | u in room'.userSlots
        ensures room'.userSlots[u] in room'.micSlots && room'.micSlots[room'.userSlots[u]] == u
      {
        assert room.micSlots[room.userSlots[u]] == u;
        assert room.userSlots[u] != slot;
      }
      assert LeaveMic(st, roomIdField, name).rooms == st.rooms[roomId := room'];
    }
  }

  // ---------------------------------------------------------------------------
  // disconnect
  // ---------------------------------------------------------------------------

  /** `disconnect` of a connection that no room holds changes nothing and sends nothing. */
  lemma DisconnectUnknown(st: ServerState, sid: Sid, now: Timestamp)
    requires forall j :: 0 <= j < |st.order| ==> !HasSid(st.rooms, st.order[j], sid)
    ensures Disconnect(st, sid, now) == st
  {
    FirstRoomWithNone(st.order, st.rooms, sid);
  }

  /**
   `disconnect` acts on the first room in iteration order (index `i`) that holds
   the connection: the connection is removed from that room's users, a System
   "left" message naming it is sent to the room, and the room is deleted exactly
   when no user is left (else the message is appended to its history). Its mic
   slots stay as they were, and every other room is untouched.
   */
  lemma DisconnectFirst(st: ServerState, sid: Sid, now: Timestamp, i: nat)
    requires i < |st.order| && HasSid(st.rooms, st.order[i], sid)
    requires forall j :: 0 <= j < i ==> !HasSid(st.rooms, st.order[j], sid)
    ensures var r := Disconnect(st, sid, now);
      var roomId := st.order[i];
      var room := st.rooms[roomId];
      var msg := Msg(SystemUser, LeftText(room.users[sid].name), now);
      && r.outbox == st.outbox + [Emit(NewMessage(msg), ToRoom(roomId))]
      && (roomId !in r.rooms <==> room.users.Keys == {sid})
      && (roomId in r.rooms ==>
            && r.rooms[roomId].users == room.users - {sid}
            && r.rooms[roomId].messages == room.messages + [msg]
            && r.rooms[roomId].micSlots == room.micSlots
            && r.rooms[roomId].userSlots == room.userSlots)
      && r.order == (if room.users.Keys == {sid} then Without(st.order, roomId) else st.order)
      && (forall id :: id != roomId ==> (id in r.rooms <==> id in st.rooms))
      && (forall id :: id in st.rooms && id != roomId ==> r.rooms[id] == st.rooms[id])
  {
    FirstRoomWithIsFirst(st.order, st.rooms, sid, i);
    var room := st.rooms[st.order[i]];
    if room.users.Keys == {sid} {
      assert (room.users - {sid}).Keys == {};
      assert room.users - {sid} == map[];
    }
    if room.users - {sid} == map[] {
      assert forall k :: k in room.users ==> k == sid || k in room.users - {sid};
    }
  }

  lemma DisconnectPreservesValid(st: ServerState, sid: Sid, now: Timestamp)
    requires Valid(st)
    ensures Valid(Disconnect(st, sid, now))
  {
    var found := FirstRoomWith(st.order, st.rooms, sid);
    if found.Some? {
      var roomId := found.value;
      var r := Disconnect(st, sid, now);
      var room := st.rooms[roomId];
      if room.users - {sid} != map[] {
        assert RoomValid(st.rooms[roomId]);
        assert RoomValid(r.rooms[roomId]);
      }
    }
  }

  // ---------------------------------------------------------------------------
  // Runs of events
  // ---------------------------------------------------------------------------

  /** One inbound socket event, with the connection it arrived on and the clock reading. */
  datatype Request =
    | JoinRoomReq(sid: Sid, roomId: Option<string>, userName: Option<string>, now: Timestamp)
    | SendMessageReq(sid: Sid, roomId: Option<string>, text: Option<string>, userName: Option<string>, now: Timestamp)
    | JoinMicReq(sid: Sid, roomId: Option<string>, slot: Option<string>, name: string)
    | LeaveMicReq(sid: Sid, roomId: Option<string>, name: string)
    | DisconnectReq(sid: Sid, now: Timestamp)

  function Handle(st: ServerState, req: Request): (r: ServerState)
    ensures st.outbox <= r.outbox
  {
    match req
    case JoinRoomReq(sid, roomId, userName, now) => Join(st, sid, roomId, userName, now)
    case SendMessageReq(_, roomId, text, userName, now) => SendMessage(st, roomId, text, userName, now)
    case JoinMicReq(sid, roomId, slot, name) => JoinMic(st, sid, roomId, slot, name)
    case LeaveMicReq(_, roomId, name) => LeaveMic(st, roomId, name)
    case DisconnectReq(sid, now) => Disconnect(st, sid, now)
  }

  /** The events handled one after the other, each as one atomic step. */
  function Run(st: ServerState, reqs: seq<Request>): ServerState
    decreases |reqs|
  {
    if reqs == [] then st else Run(Handle(st, reqs[0]), reqs[1..])
  }

  lemma HandlePreservesValid(st: ServerState, req: Request)
    requires Valid(st)
    ensures Valid(Handle(st, req))
  {
    match req
    case JoinRoomReq(sid, roomId, userName, now) => JoinPreservesValid(st, sid, roomId, userName, now);
    case SendMessageReq(_, roomId, text, userName, now) => SendMessagePreservesValid(st, roomId, text, userName, now);
    case JoinMicReq(sid, roomId, slot, name) => JoinMicPreservesValid(st, sid, roomId, slot, name);
    case LeaveMicReq(_, roomId, name) => LeaveMicPreservesValid(st, roomId, name);
    case DisconnectReq(sid, now) => DisconnectPreservesValid(st, sid, now);
  }

  /**
   No handler reassigns a taken slot: after any event, a slot that was held is
   either gone (freed by `leave_mic`, or its room deleted) or still held by the
   same user.
   */
  lemma SlotNeverReassigned(st: ServerState, req: Request, id: RoomId, slot: string)
    requires Valid(st) && id in st.rooms && slot in st.rooms[id].micSlots
    ensures var r := Handle(st, req);
      id !in r.rooms || slot !in r.rooms[id].micSlots || r.rooms[id].micSlots[slot] == st.rooms[id].micSlots[slot]
  {
    match req
    case JoinRoomReq(sid, roomId, userName, now) => JoinEffect(st, sid, roomId, userName, now);
    case SendMessageReq(_, roomId, text, userName, now) =>
      if Blank(GetOr(text, "")) || PyStr(roomId) !in st.rooms {
        SendMessageIgnored(st, roomId, text, userName, now);
      } else {
        SendMessageAppends(st, roomId, text, userName, now);
      }
    case JoinMicReq(sid, roomId, slotField, name) => JoinMicNeverOverwrites(st, sid, roomId, slotField, name, id, slot);
    case LeaveMicReq(_, roomId, name) => LeaveMicEffect(st, roomId, name);
    case DisconnectReq(sid, now) => DisconnectKeepsSlots(st, sid, now, id);
  }

  /** `disconnect` deletes a room or leaves its mic slots as they were. */
  lemma DisconnectKeepsSlots(st: ServerState, sid: Sid, now: Timestamp, id: RoomId)
    requires id in st.rooms
    ensures var r := Disconnect(st, sid, now);
      id !in r.rooms || r.rooms[id].micSlots == st.rooms[id].micSlots
  {
  }

  /**
   From process start, after any sequence of events, every stored room has a
   user, every `user_slots` entry is mirrored in `mic_slots`, and the iteration
   order lists exactly the stored rooms.
   */
  lemma {:induction false} RunPreservesValid(st: ServerState, reqs: seq<Request>)
    requires Valid(st)
    ensures Valid(Run(st, reqs))
    decreases |reqs|
  {
    if reqs != [] {
      HandlePreservesValid(st, reqs[0]);
      RunPreservesValid(Handle(st, reqs[0]), reqs[1..]);
    }
  }

  /** The outbox only grows: nothing once sent is taken back. */
  lemma {:induction false} RunExtendsOutbox(st: ServerState, reqs: seq<Request>)
    ensures st.outbox <= Run(st, reqs).outbox
    decreases |reqs|
  {
    if reqs != [] {
      var next := Handle(st, reqs[0]);
      assert st.outbox <= next.outbox;
      RunExtendsOutbox(next, reqs[1..]);
    }
  }

  /** Only `disconnect` deletes a room. */
  lemma OnlyDisconnectDeletes(st: ServerState, req: Request, id: RoomId)
    requires id in st.rooms && !req.DisconnectReq?
    ensures id in Handle(st, req).rooms
  {
  }

  lemma InitValid()
    ensures Valid(Init)
  {
  }
}
