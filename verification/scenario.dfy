/**
 A lobby walked through from the contracts of the room and the directory
 alone: two users join, one creates a sub-room, the other joins it and talks
 there, and the room disappears from the directory when both have left.
 */
module LobbyScenario {
  import opened Commands
  import opened Chat

  /** Alice and Bob connect to a new lobby; each gets the welcome message and the second lookup finds the same room. */
  method Connect() returns (directory: Directory, lobby: Room, alice: Client, bob: Client)
    ensures fresh(directory) && fresh(alice) && fresh(bob) && alice != bob
    ensures directory.Valid() && directory.rooms == map["lobby" := lobby]
    ensures lobby.Valid() && lobby.running && lobby.name == "lobby"
    ensures lobby.clients == {alice, bob} && lobby.allSubrooms == map[]
    ensures alice.name == "alice" && alice.subroomName == "" && alice.mailbox == [Welcome(alice)]
    ensures bob.name == "bob" && bob.subroomName == "" && bob.mailbox == [Welcome(bob)]
  {
    directory := new Directory();
    lobby := directory.GetRoom("lobby");
    alice := new Client("alice");
    lobby.Join(alice);
    bob := new Client("bob");
    lobby.Join(bob);
    var again := directory.GetRoom("lobby");
    assert again == lobby;
  }

  /** Alice sends `line`, which reads `/create name`: she owns the new sub-room and only she hears back. */
  method AliceCreates(lobby: Room, alice: Client, bob: Client, name: string, line: string)
    requires lobby.Valid() && lobby.running && lobby.clients == {alice, bob} && alice != bob
    requires lobby.allSubrooms == map[] && !alice.closed
    requires Parse(line).Some? && CommandOf(Parse(line).value) == Create(name)
    modifies lobby, alice, bob
    ensures lobby.Valid() && lobby.running && lobby.clients == {alice, bob}
    ensures lobby.allSubrooms == map[name := Subroom(name, alice)]
    ensures alice.mailbox == old(alice.mailbox) + [Message("", CreatedText(name), alice, true)]
    ensures bob.mailbox == old(bob.mailbox)
    ensures alice.subroomName == old(alice.subroomName) && bob.subroomName == old(bob.subroomName)
  {
    var listed := lobby.Forward(Message("", line, alice, false));
  }

  /** Bob sends `line`, which reads `/join name`: the reply, to him alone, names the sub-room. */
  method BobJoins(lobby: Room, alice: Client, bob: Client, name: string, line: string)
    requires lobby.Valid() && lobby.running && lobby.clients == {alice, bob} && alice != bob
    requires name in lobby.allSubrooms && !bob.closed
    requires Parse(line).Some? && CommandOf(Parse(line).value) == JoinSubroom(name)
    modifies lobby, alice, bob
    ensures lobby.Valid() && lobby.running && lobby.clients == {alice, bob}
    ensures lobby.allSubrooms == old(lobby.allSubrooms)
    ensures bob.mailbox == old(bob.mailbox) + [Message(name, JoinedText(name), bob, true)]
    ensures alice.mailbox == old(alice.mailbox)
    ensures alice.subroomName == old(alice.subroomName) && bob.subroomName == old(bob.subroomName)
  {
    assert lobby.allSubrooms[name].name == name;
    var listed := lobby.Forward(Message("", line, bob, false));
  }

  /** Bob, now in sub-room `name`, sends a plain line: he is the only client there, so Alice hears nothing. */
  method Talk(lobby: Room, alice: Client, bob: Client, name: string, line: string)
    requires lobby.Valid() && lobby.running && lobby.clients == {alice, bob} && alice != bob
    requires alice.subroomName == "" && bob.subroomName == name && name != [] && StartsPlain(line)
    modifies lobby, alice, bob
    ensures bob.mailbox == old(bob.mailbox) + [Message(name, line, bob, false)]
    ensures alice.mailbox == old(alice.mailbox)
    ensures lobby.Valid() && lobby.running && lobby.clients == {alice, bob}
  {
    var listed := lobby.Forward(Message(name, line, bob, false));
    PlainLine(line);
  }

  /** Both leave; the lobby stays filed until the last one goes, then it is removed and stops. */
  method Disconnect(directory: Directory, lobby: Room, alice: Client, bob: Client)
    requires directory.Valid() && directory.rooms == map["lobby" := lobby] && lobby.name == "lobby"
    requires lobby.Valid() && lobby.running && lobby.clients == {alice, bob} && alice != bob
    modifies directory, lobby, alice, bob
    ensures directory.rooms == map[] && !lobby.running && alice.closed && bob.closed
  {
    lobby.Leave(alice, directory);
    assert bob in lobby.clients;
    assert directory.rooms == map["lobby" := lobby] && lobby.running;
    lobby.Leave(bob, directory);
    assert directory.rooms == map["lobby" := lobby] - {"lobby"};
  }

  /** The line a user types for `/create name` selects that command. */
  lemma TypedCreate(create: string, name: string)
    requires create == "create" && IsToken(name) && name != []
    ensures Parse(CommandLine(create, name)).Some? && CommandOf(Parse(CommandLine(create, name)).value) == Create(name)
  {
    ParseCommandLine(create, name);
  }

  /** The line a user types for `/join name` selects that command. */
  lemma TypedJoin(join: string, name: string)
    requires join == "join" && IsToken(name) && name != []
    ensures Parse(CommandLine(join, name)).Some? && CommandOf(Parse(CommandLine(join, name)).value) == JoinSubroom(name)
  {
    ParseCommandLine(join, name);
  }

  /**
   The whole walk-through, for any line Alice sends that selects `create name`
   (TypedCreate gives the usual one), any line Bob sends that selects
   `join name` (TypedJoin), and any line Bob then sends in the sub-room that starts with a
   visible character other than "/".
   */
  method Lobby(name: string, createLine: string, joinLine: string, line: string)
    requires Parse(createLine).Some? && CommandOf(Parse(createLine).value) == Create(name)
    requires Parse(joinLine).Some? && CommandOf(Parse(joinLine).value) == JoinSubroom(name)
    requires StartsPlain(line)
  {
    var directory, lobby, alice, bob := Connect();
    Session(directory, lobby, alice, bob, name, createLine, joinLine, line);
  }

  /** Everything after the two connections: create, join, move, talk and leave. */
  method Session(directory: Directory, lobby: Room, alice: Client, bob: Client,
                 name: string, createLine: string, joinLine: string, line: string)
    requires directory.Valid() && directory.rooms == map["lobby" := lobby] && lobby.name == "lobby"
    requires lobby.Valid() && lobby.running && lobby.clients == {alice, bob} && alice != bob
    requires lobby.allSubrooms == map[] && alice.subroomName == ""
    requires Parse(createLine).Some? && CommandOf(Parse(createLine).value) == Create(name)
    requires Parse(joinLine).Some? && CommandOf(Parse(joinLine).value) == JoinSubroom(name)
    requires StartsPlain(line)
    modifies directory, lobby, alice, bob
    ensures directory.rooms == map[] && !lobby.running && alice.closed && bob.closed
  {
    AliceCreates(lobby, alice, bob, name, createLine);
    BobJoins(lobby, alice, bob, name, joinLine);
    MoveTalkLeave(directory, lobby, alice, bob, name, line);
  }

  /**
   Bob's connection adopts the sub-room named in the reply to his `join`, he
   talks there, and both leave.
   */
  method MoveTalkLeave(directory: Directory, lobby: Room, alice: Client, bob: Client, name: string, line: string)
    requires directory.Valid() && directory.rooms == map["lobby" := lobby] && lobby.name == "lobby"
    requires lobby.Valid() && lobby.running && lobby.clients == {alice, bob} && alice != bob
    requires alice.subroomName == "" && name != [] && StartsPlain(line)
    requires |bob.mailbox| >= 1 && bob.mailbox[|bob.mailbox| - 1].subroomName == name
    modifies directory, lobby, alice, bob
    ensures directory.rooms == map[] && !lobby.running && alice.closed && bob.closed
  {
    bob.subroomName := bob.mailbox[|bob.mailbox| - 1].subroomName;
    Talk(lobby, alice, bob, name, line);
    Disconnect(directory, lobby, alice, bob);
  }
}
