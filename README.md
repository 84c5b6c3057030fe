# Voice-chat room/presence bookkeeping, in Dafny

This project models the only stateful logic of the voice-chat relay server:
the process-wide `rooms` dictionary in `backend/app.py` and the five Socket.IO
handlers that change it (`join_room`, `send_message`, `join_mic`, `leave_mic`,
`disconnect`), together with the helper `get_or_create_room`.

A room record has four parts:
- `users`: connection id to member record (name, join time);
- `messages`: the chat history, only ever appended to;
- `mic_slots`: slot to user name;
- `user_slots`: user name to slot.

Every `emit` goes into an outbox. Each entry records the event, its payload and
its target: the sender, the whole room, or the room minus the sender.

Files:
- `wrappers.dfy`: `Option` and `dict.get` with a default.
- `pystrings.dfy`: Python's `str()` of an optional field (an absent key reads as
  `"None"`) and `str.strip()`, with lemmas characterising `strip`.
- `room_store.dfy`: the data model, one pure transition function per handler
  (`RoomStore.GetOrCreateRoom`, `Join`, `SendMessage`, `JoinMic`, `LeaveMic`,
  `Disconnect`), the invariant `RoomStore.Valid` and the lemmas about them. The
  transition functions are specified by the `...Effect`, `...Ignored`,
  `...Appends`, `...First`, `...Unknown` and `...PreservesValid` lemmas below.
- `server.dfy`: class `SocketServer.Server` with the fields `rooms`, `order` and
  `outbox`. It has one method per handler, written step by step as the Python
  is. Each method is proved to reach exactly the state the matching transition
  function gives, and to keep the invariant.
- `scenarios.dfy`: concrete runs from process start, and one step of such a run
  (`Scenarios.MicHolderDisconnects`) stated for any state of that shape.

The invariant `RoomStore.Valid` has three parts:
- every stored room has at least one user;
- `user_slots[u] == s` implies `mic_slots[s] == u`;
- `order` lists each stored room id exactly once.

`order` is the insertion order of the dictionary's keys. It matters because
`join_room` never removes a connection from the room it was in before, so a
connection can be a user of several rooms. `disconnect` walks `rooms.items()`
in insertion order and stops at the first room that holds the connection.

Where a reader might expect otherwise (last-write-wins slots, a `leave_room`
handler, a 50-message history), the model follows the code:
- `join_mic` refuses a taken slot (it emits `mic_error` to the sender). It does
  not overwrite the occupant.
- `disconnect` leaves `mic_slots` and `user_slots` as they were.
- There are no `leave_room` or `get_user_slot` handlers, no user ids, no
  `user_joined`/`user_left`/`user_slot_info` events, and no connection registry.
  Cleanup finds the connection by scanning the rooms' `users`.
- `room_data` carries the users and mic slots but no messages, so there is no
  50-message truncation.
- Slots are strings (`str(data.get("slot"))`), not integers.

## Model

| member | source | states |
|---|---|---|
| Wrappers.GetOr | backend/app.py:115 | `dict.get(key, default)`: the value when present, else the default; `RoomStore.JoinEffect` and `RoomStore.SendMessageAppends` state the "User" default of `userName` through it, and `RoomStore.SendMessageIgnored` the "" default of `text` |
| PyStrings.PyStr | backend/app.py:114 | `str(data.get(key))`: a present field is its own text and an absent one reads as `"None"` (so a `join_room` without `roomId` joins room "None"); the handlers are specified through it by `RoomStore.JoinEffect`, `RoomStore.SendMessageIgnored` and `RoomStore.JoinMicEffect` |
| PyStrings.IsSpace | backend/app.py:144 | the characters Python's `str.isspace` accepts, which `strip()` removes; `PyStrings.StripSlice` and `PyStrings.StripEmptyIffBlank` characterise `strip()` by it |
| PyStrings.Strip | backend/app.py:144 | the result is no longer than the text, and is empty or neither starts nor ends with whitespace; `PyStrings.StripSlice`, `PyStrings.StripEmptyIffBlank` and `PyStrings.StripIdempotent` complete the specification |
| PyStrings.TrimStart | backend/app.py:144 | the result is a suffix of the input, every character dropped is whitespace, and the result is empty or starts with a non-whitespace character |
| PyStrings.TrimEnd | backend/app.py:144 | the result is a prefix of the input, every character dropped is whitespace, and the result is empty or ends with a non-whitespace character |
| PyStrings.StripSlice | backend/app.py:144 | `strip()` returns the slice of the text between its leading and trailing whitespace; a non-empty result neither starts nor ends with whitespace |
| PyStrings.StripEmptyIffBlank | backend/app.py:144-148 | the stripped text is empty exactly when the text is empty or all whitespace, the case in which `send_message` returns early |
| PyStrings.StripIdempotent | backend/app.py:144 | stripping an already stripped text changes nothing |
| RoomStore.Without | backend/app.py:109 | `del rooms[room_id]` drops exactly that id from the iteration order, keeps the order free of duplicates, and changes nothing when the id is not listed; `RoomStore.WithoutAt` shows the other ids keep their order |
| RoomStore.WithoutAt | backend/app.py:109 | in a duplicate-free order, deleting the id at index `k` leaves exactly the ids before it followed by the ids after it, both in their old order |
| RoomStore.FirstRoomWith | backend/app.py:95-96 | a room the search finds is one of the listed rooms and holds the connection |
| RoomStore.FirstRoomWithIsFirst | backend/app.py:95-110 | the search returns the first room in iteration order that holds the connection (the loop's `break`), or nothing if no room holds it |
| RoomStore.FirstRoomWithNone | backend/app.py:95-96 | the search finds nothing exactly when no listed room holds the connection |
| RoomStore.GetOrCreateRoom | backend/app.py:33-44 | afterwards the room id is stored; the full effect is `RoomStore.GetOrCreateRoomSpec` |
| RoomStore.GetOrCreateRoomSpec | backend/app.py:33-44 | idempotent; on a known id it changes nothing; on a new id it adds exactly one empty room at the end of the order; other rooms and the outbox are untouched |
| RoomStore.GetOrCreateRoomWellOrdered | backend/app.py:35-36 | creating a room keeps the order listing each stored room exactly once |
| RoomStore.Join | backend/app.py:112-139 | after `join_room` the room exists and lists the connection; the stored room ids grow by exactly that id; the outbox keeps its old entries and gains two; the full effect is `RoomStore.JoinEffect`, the invariant `RoomStore.JoinPreservesValid` |
| RoomStore.JoinedText | backend/app.py:134 | the System message text `f"{username} joined the room"`; `RoomStore.JoinEffect` states that it is appended and sent |
| RoomStore.LeftText | backend/app.py:102 | the System message text `f"{username} left the room"`; `RoomStore.DisconnectFirst` states that it is appended and sent |
| RoomStore.JoinEffect | backend/app.py:112-139 | after `join_room` the room exists and `users[sid]` is the given name (default "User"); exactly one System "joined the room" message is appended; the slots are unchanged; the outbox gains `room_data` to the sender and then `new_message` to the room without the sender; the room set grows by at most that id, which a new room is appended to the iteration order for; no other room changes |
| RoomStore.JoinPreservesValid | backend/app.py:117-121 | `join_room` keeps the invariant; the joined room has a user |
| RoomStore.SendMessage | backend/app.py:141-157 | `send_message` never creates or deletes a room nor reorders them, and when it does anything it appends exactly one entry to the outbox; the full effect is `RoomStore.SendMessageIgnored` and `RoomStore.SendMessageAppends` |
| RoomStore.SendMessageIgnored | backend/app.py:141-148 | with an absent, empty or whitespace-only text, or an unknown room, `send_message` changes no state, sends nothing and creates no room |
| RoomStore.SendMessageAppends | backend/app.py:150-157 | otherwise exactly one message (author = `userName`, default "User"; the stripped text) is appended to that room and broadcast to the room, and nothing else changes |
| RoomStore.SendMessagePreservesValid | backend/app.py:141-157 | `send_message` keeps the invariant |
| RoomStore.JoinMic | backend/app.py:159-176 | `join_mic` never creates or deletes a room nor reorders them, and it emits exactly one event when the room exists and none otherwise; the full effect is `RoomStore.JoinMicEffect` and `RoomStore.JoinMicNeverOverwrites` |
| RoomStore.JoinMicEffect | backend/app.py:159-176 | unknown room: no-op; taken slot: both maps unchanged and only `mic_error` "Slot already taken" goes to the sender; free slot: `mic_slots[slot] = name` and `user_slots[name] = slot`, then `mic_update` with the new slots goes to the room; no other room changes |
| RoomStore.JoinMicNeverOverwrites | backend/app.py:169-171 | after `join_mic`, every slot that was taken is still held by the same user |
| RoomStore.JoinMicPreservesValid | backend/app.py:169-174 | `join_mic` keeps `user_slots[u] == s` implies `mic_slots[s] == u` |
| RoomStore.LeaveMicFaults | backend/app.py:187-190 | the case in which `del room["mic_slots"][str(slot)]` would raise `KeyError`: the user's slot is recorded but not in `mic_slots`; `RoomStore.LeaveMicNeverFaults` shows it never holds under the invariant |
| RoomStore.LeaveMic | backend/app.py:178-191 | `leave_mic` never creates or deletes a room nor reorders them, and a call that changes anything emits exactly one event; the full effect is `RoomStore.LeaveMicEffect` |
| RoomStore.LeaveMicNeverFaults | backend/app.py:187-190 | under the invariant, the `del room["mic_slots"][str(slot)]` always finds its key |
| RoomStore.LeaveMicEffect | backend/app.py:178-191 | unknown room, or no non-empty slot for the user, exactly when `leave_mic` is a no-op; otherwise the user's slot is removed from both maps and `mic_update` goes to the room; nothing else changes |
| RoomStore.LeaveMicPreservesValid | backend/app.py:187-190 | `leave_mic` keeps the invariant |
| RoomStore.Disconnect | backend/app.py:93-110 | `disconnect` deletes at most one room and creates none, and a call that changes anything appends exactly one entry to the outbox; the full effect is `RoomStore.DisconnectUnknown` and `RoomStore.DisconnectFirst` |
| RoomStore.DisconnectUnknown | backend/app.py:93-110 | a connection that no room holds: `disconnect` changes nothing |
| RoomStore.DisconnectFirst | backend/app.py:95-110 | only the first room holding the connection is touched: the connection leaves its users, a System "left the room" message is sent to the room, the room is deleted exactly when the connection was its last user (else the message is appended), its mic slots stay, its id leaves the iteration order exactly when the room is deleted, and no other room changes |
| RoomStore.DisconnectKeepsSlots | backend/app.py:95-110 | `disconnect` either deletes a room or leaves its `mic_slots` as they were, even for the departing user |
| RoomStore.DisconnectPreservesValid | backend/app.py:95-110 | `disconnect` keeps the invariant; no stored room is left without users |
| RoomStore.Handle | backend/app.py:93-191 | dispatching one event to its handler never removes anything from the outbox; `RoomStore.HandlePreservesValid` and `RoomStore.OnlyDisconnectDeletes` say the rest |
| RoomStore.Run | backend/app.py:93-191 | the handlers run one event after another; `RoomStore.RunPreservesValid` and `RoomStore.RunExtendsOutbox` state what a run keeps |
| RoomStore.SlotNeverReassigned | backend/app.py:93-191 | under the invariant, no handler gives a taken slot to another user: after any event the slot is gone or held by the same user as before |
| RoomStore.HandlePreservesValid | backend/app.py:93-191 | every handler keeps the invariant |
| RoomStore.RunPreservesValid | backend/app.py:93-191 | from a valid state, any sequence of handled events leads to a valid state |
| RoomStore.RunExtendsOutbox | backend/app.py:93-191 | everything emitted stays emitted; handlers only append to the outbox |
| RoomStore.OnlyDisconnectDeletes | backend/app.py:108-109 | no handler but `disconnect` removes a room |
| RoomStore.InitValid | backend/app.py:30 | the empty `rooms` at start satisfies the invariant |
| SocketServer.Server.constructor | backend/app.py:30 | the server starts with no rooms and an empty outbox |
| SocketServer.Server.GetOrCreateRoom | backend/app.py:33-44 | the in-place update equals `RoomStore.GetOrCreateRoom`, and the returned record is the stored one |
| SocketServer.Server.Join | backend/app.py:112-139 | the in-place update equals `RoomStore.Join` and keeps the invariant |
| SocketServer.Server.SendMessage | backend/app.py:141-157 | the in-place update equals `RoomStore.SendMessage` and keeps the invariant |
| SocketServer.Server.JoinMic | backend/app.py:159-176 | the in-place update equals `RoomStore.JoinMic` and keeps the invariant |
| SocketServer.Server.LeaveMic | backend/app.py:178-191 | the in-place update equals `RoomStore.LeaveMic` and keeps the invariant |
| SocketServer.Server.Disconnect | backend/app.py:93-110 | the loop over a snapshot of the room ids with `break` equals `RoomStore.Disconnect` and keeps the invariant |
| Scenarios.TakenSlotRefused | backend/app.py:169-171 | a second `join_mic` on slot "1" by another user leaves A in the slot and sends `mic_error` to the second caller only |
| Scenarios.SecondSlotStrandsFirst | backend/app.py:173-174 | a user who takes slot "2" while holding "1" keeps both in `mic_slots`; `leave_mic` frees only "2", and "1" stays taken: no further `leave_mic` in R1, by any user name, changes anything |
| Scenarios.EmptySlotNeverFreed | backend/app.py:187-188 | a slot sent as the empty string is taken, but `if slot:` is false for it, so `leave_mic` never frees it |
| Scenarios.TwoInR1 | backend/app.py:112-139 | after two joins to R1, R1 is the only room, with both connections and no slots |
| Scenarios.TwoInR1WithSlot | backend/app.py:159-176 | after A takes free slot "1" in R1, R1 is still the only room and `mic_update` with `{"1": "A"}` goes to R1 |
| Scenarios.MicHolderDisconnects | backend/app.py:95-110 | from any state whose iteration order lists only R1, where R1 holds "a" (named A, in slot "1") and "b", disconnecting "a" keeps R1, only "b", and the slot, and sends only "A left the room" |
| Scenarios.DisconnectKeepsSlot | backend/app.py:95-110 | a mic holder who disconnects while another user stays keeps the slot, and only "A left the room" is sent |
| Scenarios.DisconnectLeavesFirstRoomOnly | backend/app.py:95-110 | a connection that joined R1 and then R2 is removed only from R1 on disconnect (R1 is deleted), and it stays a user of R2 |
| Scenarios.LastDisconnectDeletesRoom | backend/app.py:108-109 | R1 survives the first of two disconnects and is deleted on the second |

## Left out

- HTTP routes `home`, `chat`, `health`, `get_agora_appid`, `agora_config` and the 404 handler: static files and JSON wrappers around configuration.
- Loading `.env`, the `AGORA_APP_ID` check and `socketio.run`: process configuration and I/O.
- The `connect` handler and the Socket.IO transport. `join_room(room_id)` membership is not modelled, and neither is delivery: an outbox entry names its target only.
- `update_room_timestamp`: it is never called. The room's `created_at`/`updated_at` are dropped, since no handler reads or emits them.
- Clock readings: each handler takes one opaque `now`. The source calls `datetime.now()` separately for `joined_at` and for the message timestamp.
- The `threading` async mode: handlers are modelled as sequential, atomic steps.
- Dict order inside payloads: `room_data` carries the `users` mapping where the source sends `list(users.values())` in insertion order, and the key order of `mic_slots` in payloads is not kept.
- Payload values that are not strings. The model assumes `str()` of a number gives its decimal text, which the caller passes. A non-string `text` would make `.strip()` raise; this is not modelled.
- An explicit JSON `null` for `userName` or `text`, which `dict.get` returns instead of the default. It is not modelled: the field counts as present or absent.
- `join_mic`/`leave_mic` take `userName` as a string. An absent `userName` would put Python's `None` into the slot maps; this is not modelled.
- Exceptions other than the `KeyError` of `leave_mic`'s `del`, for example a payload that is not a dictionary. The `KeyError` case is modelled as "nothing changes", and `RoomStore.LeaveMicNeverFaults` shows it cannot happen.
