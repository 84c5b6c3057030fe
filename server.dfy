/**
 The socket server's mutable state and its handlers, written as the source
 writes them: each handler reads `data` fields, updates the `rooms` dictionary
 in place and calls `emit`. Every method is proved to produce exactly the state
 the matching `RoomStore` transition describes, and to keep `RoomStore.Valid`.
 */
module SocketServer {
  import opened Wrappers
  import opened PyStrings
  import opened RoomStore

  class Server {
    /** The process-wide `rooms` dictionary. */
    var rooms: map<RoomId, Room>
    /** The insertion order of `rooms`' keys, which is the order `rooms.items()` yields them in. */
    var order: seq<RoomId>
    /** Everything `emit` was asked to send, oldest first. */
    var outbox: seq<Emit>

    function State(): ServerState
      reads this
    {
      ServerState(rooms, order, outbox)
    }

    ghost predicate Valid()
      reads this
    {
      RoomStore.Valid(State())
    }

    /** Process start: `rooms = {}`. */
    constructor ()
      ensures Valid() && State() == Init
    {
      rooms, order, outbox := map[], [], [];
    }

    /** `get_or_create_room(room_id)`; returns the stored room record. */
    method GetOrCreateRoom(roomId: RoomId) returns (room: Room)
      requires WellOrdered(State())
      modifies this
      ensures State() == RoomStore.GetOrCreateRoom(old(State()), roomId)
      ensures WellOrdered(State())
      ensures roomId in rooms && room == rooms[roomId]
    {
      GetOrCreateRoomWellOrdered(State(), roomId);
      if roomId !in rooms {
        rooms := rooms[roomId := EmptyRoom];
        order := order + [roomId];
      }
      room := rooms[roomId];
    }

    /** Handler of `join_room` for connection `sid`. */
    method Join(sid: Sid, roomIdField: Option<string>, userNameField: Option<string>, now: Timestamp)
      requires Valid()
      modifies this
      ensures Valid()
      ensures State() == RoomStore.Join(old(State()), sid, roomIdField, userNameField, now)
    {
      ghost var before := State();
      JoinPreservesValid(before, sid, roomIdField, userNameField, now);
      var roomId := PyStr(roomIdField);
      var username := GetOr(userNameField, "User");
      var room := GetOrCreateRoom(roomId);
      ghost var created := State();
      room := room.(users := room.users[sid := Member(username, now)]);
      rooms := rooms[roomId := room];
      outbox := outbox + [Emit(RoomData(room.users, room.micSlots, roomId, username), ToSid(sid))];
      var msg := Msg(SystemUser, JoinedText(username), now);
      room := room.(messages := room.messages + [msg]);
      rooms := rooms[roomId := room];
      outbox := outbox + [Emit(NewMessage(msg), ToRoomExcept(roomId, sid))];
      assert rooms == created.rooms[roomId := room];
      assert State() == RoomStore.Join(before, sid, roomIdField, userNameField, now);
    }

    /** Handler of `send_message`. */
    method SendMessage(roomIdField: Option<string>, textField: Option<string>, userNameField: Option<string>, now: Timestamp)
      requires Valid()
      modifies this
      ensures Valid()
      ensures State() == RoomStore.SendMessage(old(State()), roomIdField, textField, userNameField, now)
    {
      SendMessagePreservesValid(State(), roomIdField, textField, userNameField, now);
      var roomId := PyStr(roomIdField);
      var text := Strip(GetOr(textField, ""));
      var username := GetOr(userNameField, "User");
      if text == [] || roomId !in rooms {
        return;
      }
      var msg := Msg(username, text, now);
      rooms := rooms[roomId := rooms[roomId].(messages := rooms[roomId].messages + [msg])];
      outbox := outbox + [Emit(NewMessage(msg), ToRoom(roomId))];
    }

    /** Handler of `join_mic` for connection `sid`; `username` is the `userName` field. */
    method JoinMic(sid: Sid, roomIdField: Option<string>, slotField: Option<string>, username: string)
      requires Valid()
      modifies this
      ensures Valid()
      ensures State() == RoomStore.JoinMic(old(State()), sid, roomIdField, slotField, username)
    {
      JoinMicPreservesValid(State(), sid, roomIdField, slotField, username);
      var roomId := PyStr(roomIdField);
      var slot := PyStr(slotField);
      if roomId !in rooms {
        return;
      }
      var room := rooms[roomId];
      if slot in room.micSlots {
        outbox := outbox + [Emit(MicError(SlotTaken), ToSid(sid))];
        return;
      }
      room := room.(micSlots := room.micSlots[slot := username]);
      room := room.(userSlots := room.userSlots[username := slot]);
      rooms := rooms[roomId := room];
      outbox := outbox + [Emit(MicUpdate(room.micSlots), ToRoom(roomId))];
    }

    /** Handler of `leave_mic`; `username` is the `userName` field. */
    method LeaveMic(roomIdField: Option<string>, username: string)
      requires Valid()
      modifies this
      ensures Valid()
      ensures State() == RoomStore.LeaveMic(old(State()), roomIdField, username)
    {
      LeaveMicPreservesValid(State(), roomIdField, username);
      var roomId := PyStr(roomIdField);
      if roomId !in rooms {
        return;
      }
      var room := rooms[roomId];
      if username in room.userSlots && room.userSlots[username] != "" {
        var slot := room.userSlots[username];
        LeaveMicNeverFaults(State(), roomId, username);
        room := room.(micSlots := room.micSlots - {slot});
        room := room.(userSlots := room.userSlots - {username});
        rooms := rooms[roomId := room];
        outbox := outbox + [Emit(MicUpdate(room.micSlots), ToRoom(roomId))];
      }
    }

    /**
     Handler of `disconnect` for connection `sid`: walks a snapshot of the room
     ids in order and handles the first room that holds `sid`, then stops.
     */
    method Disconnect(sid: Sid, now: Timestamp)
      requires Valid()
      modifies this
      ensures Valid()
      ensures State() == RoomStore.Disconnect(old(State()), sid, now)
    {
      ghost var before := State();
      DisconnectPreservesValid(before, sid, now);
      assert WellOrdered(before);
      var ids := order;
      var i := 0;
      while i < |ids|
        invariant 0 <= i <= |ids|
        invariant State() == before
        invariant forall j :: 0 <= j < i ==> !HasSid(rooms, ids[j], sid)
      {
        var roomId := ids[i];
        var room := rooms[roomId];
        if sid in room.users {
          FirstRoomWithIsFirst(ids, rooms, sid, i);
          var username := room.users[sid].name;
          room := room.(users := room.users - {sid});
          var msg := Msg(SystemUser, LeftText(username), now);
          room := room.(messages := room.messages + [msg]);
          outbox := outbox + [Emit(NewMessage(msg), ToRoom(roomId))];
          if room.users == map[] {
            rooms := rooms - {roomId};
            order := Without(order, roomId);
          } else {
            rooms := rooms[roomId := room];
          }
          break;
        }
        i := i + 1;
      }
      if i == |ids| {
        FirstRoomWithIsFirst(ids, before.rooms, sid, i);
      }
    }
  }
}
