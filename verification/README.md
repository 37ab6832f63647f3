# Chat room broker, modelled in Dafny

This project models the core of a small Go websocket chat server
(`day0/chat`). Each chat room runs one event loop over three kinds of event:

- **join**: a client connects to the room and is greeted with the list of commands;
- **leave**: a client disconnects. Its mailbox is closed. The room tears itself down when it becomes empty;
- **forward**: a client sends a line.
  - A line that starts with `/` once trimmed is a command: `create`, `join`, `unjoin`, `list`, `who`, or the unknown-command fallback.
  - Any other line is fanned out to the clients whose current sub-room is the line's sub-room.

A process-wide directory maps room names to rooms. It creates a room on first lookup and deletes it by name.

Files:

- `go_strings.dfy` (module `GoStrings`): the parts of Go's `strings.TrimSpace`, `strings.HasPrefix`, `strings.Split`, `strings.Join` and `%d` that the room uses. Split and Join are each proved to invert the other, and the decimal rendering is proved to read back.
- `commands.dfy` (module `Commands`): recognising and tokenising a command line, and which command a line selects. It also holds the reply texts, in the original Polish wording.
- `chat.dfy` (module `Chat`): the `message` and `subroom` values, and the `Client`, `Room` and `Directory` classes.
  - `Room.Join`, `Room.Leave` and `Room.Forward` are the three branches of the room's event loop, one atomic step each.
  - A command is handled by `Room.Dispatch`. It first works out the reply from the room as it is (`Room.Answer`, the `if … else if` chain over the command word), then adds a `create`d sub-room, then sends the reply. That is the order of effects in `room.go`, because each reply depends only on the sub-rooms before the command.
  - `Directory.GetRoom` and `Directory.RemoveRoom` are the map logic of `getRoom` and `removeRoom`.
  - `room.go` and `main.go` share one module because they refer to each other (the room removes itself from the directory, and the directory holds rooms).
- `scenario.dfy` (module `LobbyScenario`): a lobby walked through using only the contracts above.

How the source maps onto the model:

- A client's channel `send` is a `mailbox` sequence; a send appends to it, and `close` sets `closed`.
- The client's shape (`name`, `subroomName`, `send`) is the one `room.go` uses at room.go:71-72, 162 and 185-190. `client.go` declares a different struct, and that file is not part of this model.
- The `for … range` loops over Go maps visit entries in an unspecified order. The model visits them in an arbitrary order too, picking with `:|`.
  - What `list` and `who` report is stated as "each name exactly once" (`Enumerates`) or "one name per client" (`Roster`), never as a fixed order.
  - `Room.Forward` returns, as a ghost value, the order it actually used.
- No code in the repository ever writes a client's `subroomName`. `room.go` never assigns it, and the connection type in `client.go` has no such field; its read loop forwards bare text with no sub-room. `join` and `unjoin` only change the `subroomName` of the reply message, so in the program as written they never affect fan-out or `who`. The scenario (`LobbyScenario.MoveTalkLeave`) sets Bob's sub-room by hand, to exercise the routing.

What `room.go` does (and does not do):

- It keeps no member set per sub-room. `join <name>` and `unjoin` only set the `subroomName` of the reply, and `unjoin` ignores its parameter and always returns to the main sub-room.
- `who` takes no name. It lists the clients whose sub-room is the invoking message's sub-room.
- There is no `msg` command. A line sent with a sub-room name is simply fanned out to that sub-room's clients.
- `leave` touches no sub-room. Sub-rooms and their owners outlive their creators.
- A send always appends to the mailbox.
- `newRoom` only builds the room; `getRoom` files it and then starts its loop (main.go:41-45). The model sets `running` in `Directory.GetRoom` accordingly.

## Model

| member | source | states |
|---|---|---|
| GoStrings.TrimSpace | day0/chat/room.go:111 | the trimmed text begins and ends with a non-space character (or is empty) and is never longer than the input |
| GoStrings.TrimSpaceSlice | day0/chat/room.go:111 | the trimmed text is a contiguous slice of the input, and everything cut off on either side is white space |
| GoStrings.TrimSpaceIdempotent | day0/chat/room.go:111 | trimming an already trimmed text changes nothing |
| GoStrings.TrimSpacePadded | day0/chat/room.go:111 | white space added around a trimmed text is exactly what trimming removes |
| GoStrings.Split | day0/chat/room.go:114 | splitting always yields at least one piece, so `chunks[0]` exists, and no piece contains the separator |
| GoStrings.SplitHead | day0/chat/room.go:114-119 | the first piece is the text up to the first separator; a second piece exists iff there is a separator; the rest is the split of what follows it |
| GoStrings.JoinSplit | day0/chat/room.go:114 | joining the pieces with the separator gives back the original text |
| GoStrings.SplitJoin | day0/chat/room.go:114 | splitting a join of separator-free pieces gives back the pieces |
| GoStrings.Join | day0/chat/room.go:152-155 | no parts join to ""; otherwise the text starts with the first part and, when there are two or more, continues with the separator and the second part |
| GoStrings.Itoa | day0/chat/room.go:152 | the `%d` count is a non-empty string of decimal digits with no leading zero |
| GoStrings.ItoaRoundTrip | day0/chat/room.go:152 | the decimal count shown in a reply reads back as the number it renders |
| Commands.Parse | day0/chat/room.go:111-120 | a recognised line carries its trimmed text, and neither the command word nor the parameter contains a space |
| Commands.ParseTokens | day0/chat/room.go:111-120 | a line is a command iff its trimmed form starts with `/`; the command is the text after `/` up to the first space, and the parameter is the second space-delimited token or "" |
| Commands.Tokenise | day0/chat/room.go:113-120 | a trimmed line that is recognised carries itself as its trimmed text, and neither its command word nor its parameter contains a space |
| Commands.TokeniseTokens | day0/chat/room.go:113-120 | an already trimmed line is a command iff it starts with `/`, and then its command word and parameter are the first and second space-delimited tokens after the `/` |
| Commands.SplitTokens | day0/chat/room.go:114-120 | the first piece after "/" is the command word, and the second piece (or "" without one) is the parameter |
| Commands.PlainLine | day0/chat/room.go:111-113 | a line whose first character is neither white space nor "/" is never taken for a command |
| Commands.ParseCommandLine | day0/chat/room.go:113-120 | a command line typed from white-space-free tokens parses back into exactly those tokens |
| Commands.Classify | day0/chat/room.go:121-157 | `create` and `join` are selected only with a non-empty parameter, which becomes their name; `unjoin`, `list` and `who` ignore the parameter; everything else is unknown |
| Commands.ErrorReplies | day0/chat/room.go:130-157 | the "already exists", "does not exist" and "unknown command" replies carry the error prefix; the success replies and the welcome do not |
| Commands.DoubleSpaceIsUnknown | day0/chat/room.go:114-121 | `/create  tech` (two spaces) has an empty parameter and falls back to the unknown-command reply |
| Commands.ParseExample | day0/chat/room.go:111-120 | surrounding white space is ignored and tokens after the parameter are dropped |
| Chat.EnumerationSize | day0/chat/room.go:147-152 | a list naming each sub-room exactly once has as many entries as there are sub-rooms, so the `list` count matches the list |
| Chat.RosterSize | day0/chat/room.go:153-155 | the `who` count equals the number of clients in the sub-room |
| Chat.SendFromServer | day0/chat/room.go:62-66 | the reply, with the new text and the server flag, is appended to the mailbox of the message's own client and nowhere else |
| Chat.Welcome | day0/chat/room.go:85-89 | the greeting goes to the joining client, server-flagged, in the main sub-room "", with the command list, which is not an error text |
| Chat.SubroomsAfter | day0/chat/room.go:121-133 | no command removes or rewrites a sub-room (an existing owner is never overwritten); the names grow only by a `create`d name, which is then stored under itself and owned by the invoker |
| Chat.SubroomsKeepOwners | day0/chat/room.go:121-133 | sub-rooms stay stored under their own names, and a second `create` of a name, by anyone, leaves the first creator as owner |
| Chat.ReplyTo | day0/chat/room.go:121-157 | every reply goes back to the invoker with the server flag, and its sub-room differs from the message's only for `join` or `unjoin` |
| Chat.ReplyShape | day0/chat/room.go:121-157 | every reply goes back to the invoker with the server flag. Its sub-room changes only on a successful `join` (to the joined name) and on `unjoin` (to ""). It is an error exactly for an existing `create`, a missing `join` and an unknown command |
| Chat.UnjoinIdempotent | day0/chat/room.go:144-146 | `unjoin` applied to its own reply gives the same reply, in the main sub-room "" |
| Chat.Client.constructor | day0/chat/room.go:185-190 | a client starts in the main sub-room with an empty, open mailbox |
| Chat.Room.constructor | day0/chat/room.go:51-60 | a new room has no clients and no sub-rooms, and its loop is not started yet |
| Chat.Room.UsersInChannel | day0/chat/room.go:68-76 | the names of exactly the clients whose sub-room is the given one, one per client |
| Chat.Room.SubroomNames | day0/chat/room.go:147-151 | every sub-room name exactly once, as many names as sub-rooms |
| Chat.Room.Join | day0/chat/room.go:81-92 | the client is added and gets exactly one welcome message (server-flagged, sub-room "", command list); sub-rooms and other mailboxes are unchanged |
| Chat.Room.Leave | day0/chat/room.go:93-107 | only that client is removed and its mailbox closed; when none is left the room's name is deleted from the directory and the loop stops, otherwise both stay |
| Chat.Room.Broadcast | day0/chat/room.go:159-166 | the line is appended to the mailbox of exactly the clients whose sub-room is the line's, and to no other |
| Chat.Room.Dispatch | day0/chat/room.go:113-158 | the sub-rooms become SubroomsAfter of the command and the invoker receives exactly the reply ReplyTo describes; `list` enumerates every sub-room once and `who` gives the roster of the sub-room |
| Chat.Room.Answer | day0/chat/room.go:121-157 | the reply message and text are exactly what ReplyTo gives for the sub-rooms before the command; `list` enumerates every sub-room once and `who` gives the roster of the message's sub-room; nothing changes |
| Chat.Room.Forward | day0/chat/room.go:109-168 | a command changes the sub-rooms and answers only the invoker; a plain line reaches exactly the clients of its sub-room; the clients and their sub-rooms never change |
| Chat.Directory.constructor | day0/chat/main.go:12 | the directory starts empty |
| Chat.Directory.GetRoom | day0/chat/main.go:37-49 | an existing room is returned and the map is unchanged; otherwise a fresh empty room is filed under the name, its loop is started, and it is returned |
| Chat.Directory.RemoveRoom | day0/chat/main.go:53-57 | only the given name is deleted, every other entry is unchanged, and removing an absent name changes nothing |
| LobbyScenario.Connect | day0/chat/main.go:37-49 | two clients joining the same name reach one room, and both are welcomed |
| LobbyScenario.AliceCreates | day0/chat/room.go:121-130 | any line that selects `create name` makes the sender the owner of the new sub-room and answers only the sender |
| LobbyScenario.BobJoins | day0/chat/room.go:134-140 | any line that selects `join name` of an existing sub-room answers only the joiner, with a reply naming that sub-room |
| LobbyScenario.Talk | day0/chat/room.go:159-166 | a line that starts with a visible character other than "/", sent in a sub-room, reaches its only member and not the client in the main sub-room |
| LobbyScenario.TypedCreate | day0/chat/room.go:113-124 | the line `/create name` typed with a white-space-free name selects the `create` command for that name |
| LobbyScenario.TypedJoin | day0/chat/room.go:113-134 | the line `/join name` typed with a white-space-free name selects the `join` command for that name |
| LobbyScenario.Session | day0/chat/room.go:93-166 | after a create, a join, a move into the sub-room and a line there, both clients leave and the room is removed from the directory and stopped |
| LobbyScenario.MoveTalkLeave | day0/chat/room.go:93-107 | once Bob has moved to the sub-room his `join` reply names and talked there, both leave and the room is removed from the directory and stopped |
| LobbyScenario.Disconnect | day0/chat/room.go:93-107 | the room stays in the directory after the first leave and is removed and stopped after the last |

## Left out

- HTTP and websocket transport: `room.ServeHTTP`, `templateHandler`, `main`, and the `name`/`uname` query parsing with its `log.Fatal`. The model keeps only the fact that a client starts in the main sub-room and joins the room.
- `day0/chat/client.go`: its read and write loops are socket I/O, and its `client` type does not match how `room.go` uses clients. That file is not part of this model.
- Concurrency:
  - Goroutines, `select` fairness, blocking on unbuffered channels, and the 256-slot mailbox capacity (a full mailbox would block the loop; here a send always appends).
  - The `sync.RWMutex` around the directory; each directory call is one atomic step.
  - Interleavings across rooms and connections. In particular, a client may look up a room that then empties and stops before its join arrives. The model makes every event require a running room, so that interleaving is outside it.
- Go runtime panics: sending on or closing a client's channel that is already closed. The events require the client's mailbox to be open, which the connection protocol guarantees (a connection forwards only before its leave, and leaves once).
- The `ok == false` branches of `select`: the room closes its channels only just before returning, so the loop never observes them.
- Logging (`log.Println`, `log.Printf`).
- Map iteration order: the properties hold for any visiting order and do not fix one.
- Invalid UTF-8 in a message: text is a sequence of Unicode characters. `strings.Split` is modelled only for the one-character separator `" "` that `room.go` uses.
- LobbyScenario.Talk: takes only lines whose first character is neither white space nor "/". That is a narrower class than all non-command lines, and it keeps the scenario's proofs from unfolding the trimming of an arbitrary line.
