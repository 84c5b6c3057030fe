/**
 Concrete runs of the handlers from process start, showing how the code as
 written behaves where a reader might expect otherwise: slots are refused, not
 overwritten; a user may end up holding a slot nobody can release; disconnect
 leaves mic slots behind; a connection may be listed in several rooms.
 */
module Scenarios {
  import opened Wrappers
  import opened RoomStore

  const R1 := Some("R1")
  const R2 := Some("R2")

  /** A second `join_mic` on a taken slot is refused: the first occupant keeps it and only the second caller hears. */
  lemma TakenSlotRefused()
    ensures var s1 := Join(Init, "a", R1, Some("A"), "t1");
      var s2 := Join(s1, "b", R1, Some("B"), "t2");
      var s3 := JoinMic(s2, "a", R1, Some("1"), "A");
      var s4 := JoinMic(s3, "b", R1, Some("1"), "B");
      && s4.rooms["R1"].micSlots == map["1" := "A"]
      && s4.rooms["R1"].userSlots == map["A" := "1"]
      && s4.outbox == s3.outbox + [Emit(MicError(SlotTaken), ToSid("b"))]
  {
    var s1 := Join(Init, "a", R1, Some("A"), "t1");
    var s2 := Join(s1, "b", R1, Some("B"), "t2");
    JoinEffect(s1, "b", R1, Some("B"), "t2");
    var s3 := JoinMic(s2, "a", R1, Some("1"), "A");
    assert s3.rooms["R1"].micSlots == map["1" := "A"];
  }

  /**
   A user who takes a second slot without leaving the first keeps both entries
   in `mic_slots`; `leave_mic` then frees only the later one, and the earlier
   slot stays taken with no `user_slots` entry left to release it.
   */
  lemma SecondSlotStrandsFirst()
    ensures var s1 := Join(Init, "a", R1, Some("A"), "t1");
      var s2 := JoinMic(s1, "a", R1, Some("1"), "A");
      var s3 := JoinMic(s2, "a", R1, Some("2"), "A");
      var s4 := LeaveMic(s3, R1, "A");
      && s3.rooms["R1"].micSlots == map["1" := "A", "2" := "A"]
      && s3.rooms["R1"].userSlots == map["A" := "2"]
      && s4.rooms["R1"].micSlots == map["1" := "A"]
      && s4.rooms["R1"].userSlots == map[]
      && (forall n :: LeaveMic(s4, R1, n) == s4)
  {
    var s1 := Join(Init, "a", R1, Some("A"), "t1");
    var s2 := JoinMic(s1, "a", R1, Some("1"), "A");
    assert s2.rooms["R1"].micSlots == map["1" := "A"];
    var s3 := JoinMic(s2, "a", R1, Some("2"), "A");
    assert s3.rooms["R1"].micSlots == map["1" := "A", "2" := "A"];
    var s4 := LeaveMic(s3, R1, "A");
    assert s4.rooms["R1"].micSlots == map["1" := "A", "2" := "A"] - {"2"};
    assert s4.rooms["R1"].userSlots == map["A" := "2"] - {"A"};
  }

  /** A slot sent as the empty string is taken by `join_mic` but is falsy, so `leave_mic` never frees it. */
  lemma EmptySlotNeverFreed()
    ensures var s1 := Join(Init, "a", R1, Some("A"), "t1");
      var s2 := JoinMic(s1, "a", R1, Some(""), "A");
      && s2.rooms["R1"].micSlots == map["" := "A"]
      && LeaveMic(s2, R1, "A") == s2
  {
    var s1 := Join(Init, "a", R1, Some("A"), "t1");
    assert s1.rooms["R1"].micSlots == map[];
  }

  /** Connections "a" (as A) and "b" (as B) in room R1, and nothing else. */
  lemma TwoInR1()
    ensures var s2 := Join(Join(Init, "a", R1, Some("A"), "t1"), "b", R1, Some("B"), "t2");
      && s2.order == ["R1"]
      && s2.rooms.Keys == {"R1"}
      && s2.rooms["R1"].users.Keys == {"a", "b"}
      && s2.rooms["R1"].micSlots == map[]
      && s2.rooms["R1"].userSlots == map[]
  {
    var s1 := Join(Init, "a", R1, Some("A"), "t1");
    JoinEffect(s1, "b", R1, Some("B"), "t2");
  }

  /** From `TwoInR1`, A takes slot "1": R1 is still the only room and A is connection "a". */
  lemma TwoInR1WithSlot()
    ensures var s2 := Join(Join(Init, "a", R1, Some("A"), "t1"), "b", R1, Some("B"), "t2");
      var s3 := JoinMic(s2, "a", R1, Some("1"), "A");
      && s3.order == ["R1"]
      && s3.rooms.Keys == {"R1"}
      && s3.rooms["R1"].users == s2.rooms["R1"].users
      && s3.rooms["R1"].users.Keys == {"a", "b"}
      && s3.rooms["R1"].users["a"].name == "A"
      && s3.rooms["R1"].micSlots == map["1" := "A"]
      && s3.outbox == s2.outbox + [Emit(MicUpdate(map["1" := "A"]), ToRoom("R1"))]
  {
    TwoInR1();
  }

  /**
   Disconnecting "a" (named A, holding slot "1") from a state whose only room R1
   also holds "b": the room stays, keeps the slot and gets only A's "left" message.
   */
  lemma MicHolderDisconnects(s3: ServerState)
    requires s3.order == ["R1"] && "R1" in s3.rooms
    requires s3.rooms["R1"].users.Keys == {"a", "b"} && s3.rooms["R1"].users["a"].name == "A"
    requires s3.rooms["R1"].micSlots == map["1" := "A"]
    ensures var s4 := Disconnect(s3, "a", "t3");
      && "R1" in s4.rooms
      && s4.rooms["R1"].users.Keys == {"b"}
      && s4.rooms["R1"].micSlots == map["1" := "A"]
      && s4.outbox == s3.outbox + [Emit(NewMessage(Msg(SystemUser, "A left the room", "t3")), ToRoom("R1"))]
  {
    assert s3.rooms["R1"].users.Keys != {"a"};
    DisconnectFirst(s3, "a", "t3", 0);
    assert s3.rooms["R1"].users.Keys - {"a"} == {"b"};
    assert LeftText("A") == "A left the room";
  }

  /**
   When a user on the mic disconnects while others stay, the room keeps the slot
   assigned to the departed user; only the "left" message is sent.
   */
  lemma DisconnectKeepsSlot()
    ensures var s2 := Join(Join(Init, "a", R1, Some("A"), "t1"), "b", R1, Some("B"), "t2");
      var s3 := JoinMic(s2, "a", R1, Some("1"), "A");
      var s4 := Disconnect(s3, "a", "t3");
      && "R1" in s4.rooms
      && s4.rooms["R1"].users.Keys == {"b"}
      && s4.rooms["R1"].micSlots == map["1" := "A"]
      && s4.outbox == s3.outbox + [Emit(NewMessage(Msg(SystemUser, "A left the room", "t3")), ToRoom("R1"))]
  {
    TwoInR1WithSlot();
    var s2 := Join(Join(Init, "a", R1, Some("A"), "t1"), "b", R1, Some("B"), "t2");
    MicHolderDisconnects(JoinMic(s2, "a", R1, Some("1"), "A"));
  }

  /**
   `join_room` never takes a connection out of its previous room, so one
   connection can be in two rooms; `disconnect` then leaves only the room that
   was created first (deleting it, as it held nobody else) and the connection
   stays listed in the other.
   */
  lemma DisconnectLeavesFirstRoomOnly()
    ensures var s1 := Join(Init, "a", R1, Some("A"), "t1");
      var s2 := Join(s1, "a", R2, Some("A"), "t2");
      var s3 := Disconnect(s2, "a", "t3");
      && s3.rooms.Keys == {"R2"}
      && s3.order == ["R2"]
      && "a" in s3.rooms["R2"].users
  {
    var s1 := Join(Init, "a", R1, Some("A"), "t1");
    assert s1.order == ["R1"];
    var s2 := Join(s1, "a", R2, Some("A"), "t2");
    assert s2.order == ["R1", "R2"];
    assert s2.rooms["R1"].users.Keys == {"a"};
    DisconnectFirst(s2, "a", "t3", 0);
    var s3 := Disconnect(s2, "a", "t3");
    assert s3.rooms.Keys == {"R1", "R2"} - {"R1"};
    assert s3.order == Without(["R1", "R2"], "R1");
    assert Without(["R1", "R2"], "R1") == ["R2"];
  }

  /** Two connections join a room and both disconnect: the room is gone, and only then. */
  lemma LastDisconnectDeletesRoom()
    ensures var s1 := Join(Init, "a", R1, Some("A"), "t1");
      var s2 := Join(s1, "b", R1, Some("B"), "t2");
      var s3 := Disconnect(s2, "a", "t3");
      var s4 := Disconnect(s3, "b", "t4");
      && "R1" in s3.rooms
      && "R1" !in s4.rooms
      && s4.rooms == map[]
      && s4.order == []
  {
    TwoInR1();
    var s1 := Join(Init, "a", R1, Some("A"), "t1");
    var s2 := Join(s1, "b", R1, Some("B"), "t2");
    DisconnectFirst(s2, "a", "t3", 0);
    var s3 := Disconnect(s2, "a", "t3");
    assert s3.rooms["R1"].users.Keys == {"b"};
    DisconnectFirst(s3, "b", "t4", 0);
    var s4 := Disconnect(s3, "b", "t4");
    assert s4.rooms.Keys == {};
  }
}
