/**
 The chat server's room: the per-room event loop that admits clients, lets
 them leave, and either interprets a forwarded line as a slash command or
 fans it out to the clients of the line's sub-room; and the process-wide
 directory of rooms by name. Each event is one atomic step of the loop, and
 a send on a client's channel appends to that client's mailbox.
 */
module Chat {
  import opened Commands

  /** A line travelling through a room: its sub-room, its text, the client it comes from or is for, and whether the server wrote it. */
  datatype Message = Message(subroomName: string, text: string, sender: Client, fromServer: bool)

  /** A sub-room of a room: its name and the client that created it. */
  datatype Subroom = Subroom(name: string, owner: Client)

  /** A connected user as the room sees it: a name, a current sub-room and an outbound mailbox. */
  class Client {
    const name: string
    var subroomName: string
    var mailbox: seq<Message>
    var closed: bool

    /** A client connects in the main sub-room ("") with an empty, open mailbox. */
    constructor (name: string)
      ensures this.name == name && subroomName == "" && mailbox == [] && !closed
    {
      this.name := name;
      subroomName := "";
      mailbox := [];
      closed := false;
    }
  }

  /** `s` lists each element of `elems` exactly once, in some order. */
  ghost predicate Enumerates<T>(s: seq<T>, elems: set<T>)
  {
    (forall i, j :: 0 <= i < j < |s| ==> s[i] != s[j]) &&
    (forall i :: 0 <= i < |s| ==> s[i] in elems) &&
    (forall x :: x in elems ==> x in s)
  }

  /** A list naming each element of a set exactly once is as long as the set is large. */
  lemma {:induction false} EnumerationSize<T>(s: seq<T>, elems: set<T>)
    requires Enumerates(s, elems)
    ensures |s| == |elems|
  {
    if s != [] {
      var rest := elems - {s[0]};
      assert Enumerates(s[1..], rest) by {
        forall x
          ensures x in s[1..] <==> x in rest
        {
          if x in s[1..] {
            var k :| 0 <= k < |s[1..]| && s[1..][k] == x;
            assert s[k + 1] == x && s[0] != s[k + 1];
          }
          if x in rest {
            var k :| 0 <= k < |s| && s[k] == x;
            assert k != 0;
            assert s[1..][k - 1] == x;
          }
        }
      }
      EnumerationSize(s[1..], rest);
    }
  }

  /** `listed` holds the names of the clients in `members`, one entry per client, in some order. */
  ghost predicate Roster(listed: seq<string>, members: set<Client>)
  {
    exists order: seq<Client> :: RosterIn(listed, order, members)
  }

  /** `order` enumerates `members` and `listed` holds their names in that order. */
  ghost predicate RosterIn(listed: seq<string>, older order: seq<Client>, members: set<Client>)
  {
    Enumerates(order, members) &&
    |order| == |listed| && forall i :: 0 <= i < |listed| ==> listed[i] == order[i].name
  }

  /** A roster has one entry per member, so the count a `who` reply shows is the number of members. */
  lemma RosterSize(listed: seq<string>, members: set<Client>)
    requires Roster(listed, members)
    ensures |listed| == |members|
  {
    var order: seq<Client> :| RosterIn(listed, order, members);
    EnumerationSize(order, members);
  }

  /** The reply the server makes of a message: the same message, with the given text, flagged as from the server. */
  function ServerReply(msg: Message, text: string): Message
  {
    msg.(text := text, fromServer := true)
  }

  /** Sends `text` back to the message's own client only, as a server reply. */
  method SendFromServer(msg: Message, text: string)
    requires !msg.sender.closed
    modifies msg.sender
    ensures msg.sender.mailbox == old(msg.sender.mailbox) + [ServerReply(msg, text)]
    ensures msg.sender.subroomName == old(msg.sender.subroomName) && !msg.sender.closed
  {
    msg.sender.mailbox := msg.sender.mailbox + [ServerReply(msg, text)];
  }

  /** The greeting a client gets when it joins: a server message in the main sub-room listing the commands. */
  function Welcome(c: Client): (r: Message)
    ensures r.sender == c && r.fromServer && r.subroomName == ""
    ensures r.text == WELCOME_TEXT && !IsError(r.text)
  {
    ErrorReplies([], 0, [], []);
    ServerReply(Message("", [], c, false), WELCOME_TEXT)
  }

  /**
   The sub-rooms after `command` from `invoker`. No command removes or
   rewrites a sub-room: every entry survives with its owner, and the only
   possible new entry is a `create`d name owned by the invoker.
   */
  function SubroomsAfter(subrooms: map<string, Subroom>, command: Command, invoker: Client): (after: map<string, Subroom>)
    ensures forall n :: n in subrooms ==> n in after && after[n] == subrooms[n]
    ensures after.Keys == subrooms.Keys + (if command.Create? then {command.name} else {})
    ensures command.Create? && command.name !in subrooms ==> after[command.name] == Subroom(command.name, invoker)
  {
    match command
    case Create(n) => if n in subrooms then subrooms else subrooms[n := Subroom(n, invoker)]
    case _ => subrooms
  }

  /**
   The reply to a command, given the sub-rooms before it, the trimmed line and,
   for `list` and `who`, the names in the order the room enumerated them.
   */
  function ReplyTo(msg: Message, subrooms: map<string, Subroom>, command: Command,
                   trimmed: string, listed: seq<string>): (r: Message)
    ensures r.sender == msg.sender && r.fromServer
    ensures r.subroomName != msg.subroomName ==> command.JoinSubroom? || command.Unjoin?
  {
    match command
    case Create(n) => ServerReply(msg, if n in subrooms then ExistsText(n) else CreatedText(n))
    case JoinSubroom(n) =>
      if n in subrooms then ServerReply(msg.(subroomName := subrooms[n].name), JoinedText(n))
      else ServerReply(msg, NoSuchText(n))
    case Unjoin => ServerReply(msg.(subroomName := ""), UNJOINED_TEXT)
    case List => ServerReply(msg, ListText(|subrooms|, listed))
    case Who => ServerReply(msg, WhoText(listed))
    case Unknown => ServerReply(msg, UnknownText(trimmed))
  }

  /** Sub-rooms are stored under their own names. */
  ghost predicate NamedByKey(subrooms: map<string, Subroom>)
  {
    forall n :: n in subrooms ==> subrooms[n].name == n
  }

  /**
   Sub-rooms stay stored under their own names, and a second `create` of a
   name, by anyone, leaves the first creator as its owner.
   */
  lemma SubroomsKeepOwners(subrooms: map<string, Subroom>, command: Command, invoker: Client, other: Client)
    ensures NamedByKey(subrooms) ==> NamedByKey(SubroomsAfter(subrooms, command, invoker))
    ensures command.Create? ==>
      SubroomsAfter(SubroomsAfter(subrooms, command, invoker), command, other) ==
      SubroomsAfter(subrooms, command, invoker)
  {
  }

  /**
   Every command reply goes back to its invoker, flagged as a server message;
   it keeps the message's sub-room except after a successful `join` (the
   joined name) and after `unjoin` (the main sub-room ""). It is an error
   reply exactly for `create` of an existing name, `join` of a missing one,
   and an unknown command.
   */
  lemma ReplyShape(msg: Message, subrooms: map<string, Subroom>, command: Command,
                   trimmed: string, listed: seq<string>)
    requires NamedByKey(subrooms)
    ensures var r := ReplyTo(msg, subrooms, command, trimmed, listed);
      r.fromServer && r.sender == msg.sender &&
      r.subroomName == (match command
                        case JoinSubroom(n) => if n in subrooms then n else msg.subroomName
                        case Unjoin => ""
                        case _ => msg.subroomName)
    ensures IsError(ReplyTo(msg, subrooms, command, trimmed, listed).text) <==>
      (command.Create? && command.name in subrooms) ||
      (command.JoinSubroom? && command.name !in subrooms) ||
      command.Unknown?
  {
    var n := if command.Create? || command.JoinSubroom? then command.name else "";
    ErrorReplies(n, |subrooms|, listed, trimmed);
  }

  /** Repeating `unjoin` on its own reply gives that reply again. */
  lemma UnjoinIdempotent(msg: Message, s1: map<string, Subroom>, s2: map<string, Subroom>,
                         t1: string, t2: string, l1: seq<string>, l2: seq<string>)
    ensures var r := ReplyTo(msg, s1, Unjoin, t1, l1);
      ReplyTo(r, s2, Unjoin, t2, l2) == r && r.subroomName == ""
  {
  }

  /** A room: its clients, its sub-rooms by name, and whether its loop still runs. */
  class Room {
    const name: string
    var clients: set<Client>
    var allSubrooms: map<string, Subroom>
    var running: bool

    /**
     Connected clients have open mailboxes, sub-rooms are stored under their
     names, and a stopped room has no clients.
     */
    ghost predicate Valid()
      reads this, clients
    {
      (forall c :: c in clients ==> !c.closed) &&
      NamedByKey(allSubrooms) &&
      (!running ==> clients == {})
    }

    /** A new room has no clients and no sub-rooms; its loop is not started yet. */
    constructor (name: string)
      ensures this.name == name && clients == {} && allSubrooms == map[] && !running
      ensures Valid()
    {
      this.name := name;
      clients := {};
      allSubrooms := map[];
      running := false;
    }

    /** The connected clients whose current sub-room is `subroomName`. */
    ghost function InChannel(subroomName: string): set<Client>
      reads this, clients
    {
      set c | c in clients && c.subroomName == subroomName
    }

    /** The names of the clients in sub-room `subroomName`, one per client, in the order the clients are visited. */
    method UsersInChannel(subroomName: string) returns (names: seq<string>, ghost members: seq<Client>)
      ensures Enumerates(members, InChannel(subroomName))
      ensures |names| == |members| && forall i :: 0 <= i < |names| ==> names[i] == members[i].name
      ensures Roster(names, InChannel(subroomName))
    {
      names, members := [], [];
      var rest := clients;
      while rest != {}
        invariant rest <= clients
        invariant Enumerates(members, InChannel(subroomName) - rest)
        invariant |names| == |members| && forall i :: 0 <= i < |names| ==> names[i] == members[i].name
        decreases |rest|
      {
        var c :| c in rest;
        if c.subroomName == subroomName {
          names, members := names + [c.name], members + [c];
        }
        rest := rest - {c};
      }
      assert InChannel(subroomName) - {} == InChannel(subroomName);
      assert RosterIn(names, members, InChannel(subroomName));
    }

    /** The names of all sub-rooms, each exactly once, in the order the map is visited. */
    method SubroomNames() returns (names: seq<string>)
      ensures Enumerates(names, allSubrooms.Keys)
      ensures |names| == |allSubrooms|
    {
      names := [];
      var rest := allSubrooms.Keys;
      while rest != {}
        invariant rest <= allSubrooms.Keys
        invariant Enumerates(names, allSubrooms.Keys - rest)
        decreases |rest|
      {
        var n :| n in rest;
        names := names + [n];
        rest := rest - {n};
      }
      assert allSubrooms.Keys - {} == allSubrooms.Keys;
      EnumerationSize(names, allSubrooms.Keys);
    }

    /** A client joins: it becomes a member and receives the welcome message, and nothing else changes. */
    method Join(c: Client)
      requires Valid() && running && !c.closed
      modifies this, c
      ensures Valid() && running
      ensures clients == old(clients) + {c}
      ensures allSubrooms == old(allSubrooms)
      ensures c.mailbox == old(c.mailbox) + [Welcome(c)]
      ensures c.subroomName == old(c.subroomName) && !c.closed
    {
      clients := clients + {c};
      SendFromServer(Message("", [], c, false), WELCOME_TEXT);
    }

    /**
     A client leaves: it stops being a member and its mailbox is closed. When
     no client is left, the room is removed from the directory and its loop
     stops; otherwise the room carries on.
     */
    method Leave(c: Client, directory: Directory)
      requires Valid() && running && !c.closed
      requires directory.Valid()
      modifies this, c, directory
      ensures Valid()
      ensures clients == old(clients) - {c}
      ensures allSubrooms == old(allSubrooms)
      ensures c.closed && c.mailbox == old(c.mailbox) && c.subroomName == old(c.subroomName)
      ensures running <==> clients != {}
      ensures directory.Valid()
      ensures directory.rooms == if clients == {} then old(directory.rooms) - {name} else old(directory.rooms)
    {
      clients := clients - {c};
      c.closed := true;
      if clients == {} {
        running := false;
        directory.RemoveRoom(name);
      }
    }

    /** A plain line goes to every client whose current sub-room is the line's own, and to no other client. */
    method Broadcast(msg: Message)
      requires Valid()
      modifies clients
      ensures forall c :: c in clients ==>
        c.mailbox == old(c.mailbox) + (if c.subroomName == msg.subroomName then [msg] else [])
      ensures forall c :: c in clients ==> c.subroomName == old(c.subroomName) && c.closed == old(c.closed)
      ensures Valid()
    {
      var rest := clients;
      while rest != {}
        invariant rest <= clients
        invariant forall c :: c in clients && c !in rest ==>
          c.mailbox == old(c.mailbox) + (if c.subroomName == msg.subroomName then [msg] else [])
        invariant forall c :: c in rest ==> c.mailbox == old(c.mailbox)
        invariant forall c :: c in clients ==> c.subroomName == old(c.subroomName) && c.closed == old(c.closed)
        decreases |rest|
      {
        var c :| c in rest;
        if c.subroomName == msg.subroomName {
          c.mailbox := c.mailbox + [msg];
        }
        rest := rest - {c};
      }
    }

    /**
     A command line: its effect on the sub-rooms and its one reply to the
     invoker. `listed` is the enumeration that a `list` or `who` reply shows.
     */
    method Dispatch(msg: Message, inv: Invocation) returns (ghost listed: seq<string>)
      requires Valid() && !msg.sender.closed
      modifies this, msg.sender
      ensures Valid()
      ensures clients == old(clients) && running == old(running)
      ensures allSubrooms == SubroomsAfter(old(allSubrooms), CommandOf(inv), msg.sender)
      ensures msg.sender.mailbox ==
        old(msg.sender.mailbox) + [ReplyTo(msg, old(allSubrooms), CommandOf(inv), inv.trimmed, listed)]
      ensures msg.sender.subroomName == old(msg.sender.subroomName) && !msg.sender.closed
      ensures CommandOf(inv).List? ==> Enumerates(listed, old(allSubrooms).Keys)
      ensures CommandOf(inv).Who? ==> Roster(listed, old(InChannel(msg.subroomName)))
    {
      var command := CommandOf(inv);
      var reply, text;
      reply, text, listed := Answer(msg, command, inv.trimmed);
      if command.Create? && command.name !in allSubrooms {
        allSubrooms := allSubrooms[command.name := Subroom(command.name, msg.sender)];
      }
      SendFromServer(reply, text);
    }

    /**
     The reply a command gets, worked out from the room as it is before the
     command: the message it answers (with the sub-room a `join` or `unjoin`
     moves it to) and the text. For `list` and `who`, `listed` is the
     enumeration of sub-room names or user names the text shows.
     */
    method Answer(msg: Message, command: Command, trimmed: string)
      returns (reply: Message, text: string, listed: seq<string>)
      ensures ServerReply(reply, text) == ReplyTo(msg, allSubrooms, command, trimmed, listed)
      ensures command.List? ==> Enumerates(listed, allSubrooms.Keys)
      ensures command.Who? ==> Roster(listed, InChannel(msg.subroomName))
    {
      listed := [];
      match command {
        case Create(n) =>
          reply, text := msg, if n in allSubrooms then ExistsText(n) else CreatedText(n);
        case JoinSubroom(n) =>
          if n in allSubrooms {
            reply, text := msg.(subroomName := allSubrooms[n].name), JoinedText(n);
          } else {
            reply, text := msg, NoSuchText(n);
          }
        case Unjoin =>
          reply, text := msg.(subroomName := ""), UNJOINED_TEXT;
        case List =>
          var names := SubroomNames();
          listed := names;
          reply, text := msg, ListText(|allSubrooms|, names);
          assert Enumerates(listed, allSubrooms.Keys);
        case Who =>
          var names, members := UsersInChannel(msg.subroomName);
          listed := names;
          reply, text := msg, WhoText(names);
          assert Roster(listed, InChannel(msg.subroomName));
        case Unknown =>
          reply, text := msg, UnknownText(trimmed);
      }
    }

    /**
     A forwarded line. A command changes the sub-rooms as SubroomsAfter says
     and puts exactly one reply in the invoker's mailbox; a plain line is
     appended to the mailbox of exactly the clients of its sub-room. Neither
     changes the clients of the room.
     */
    method Forward(msg: Message) returns (ghost listed: seq<string>)
      requires Valid() && running && !msg.sender.closed
      modifies this, clients, msg.sender
      ensures Valid() && running
      ensures clients == old(clients)
      ensures forall c :: c in clients ==> c.subroomName == old(c.subroomName) && c.closed == old(c.closed)
      ensures msg.sender.subroomName == old(msg.sender.subroomName) && !msg.sender.closed
      ensures Parse(msg.text).None? ==>
        allSubrooms == old(allSubrooms) &&
        (forall c :: c in clients ==>
          c.mailbox == old(c.mailbox) + (if c.subroomName == msg.subroomName then [msg] else [])) &&
        (msg.sender !in clients ==> msg.sender.mailbox == old(msg.sender.mailbox))
      ensures Parse(msg.text).Some? ==>
        var inv := Parse(msg.text).value;
        allSubrooms == SubroomsAfter(old(allSubrooms), CommandOf(inv), msg.sender) &&
        msg.sender.mailbox ==
          old(msg.sender.mailbox) + [ReplyTo(msg, old(allSubrooms), CommandOf(inv), inv.trimmed, listed)] &&
        (forall c :: c in clients && c != msg.sender ==> c.mailbox == old(c.mailbox)) &&
        (CommandOf(inv).List? ==> Enumerates(listed, old(allSubrooms).Keys)) &&
        (CommandOf(inv).Who? ==> Roster(listed, old(InChannel(msg.subroomName))))
    {
      var parsed := Parse(msg.text);
      if parsed.Some? {
        listed := Dispatch(msg, parsed.value);
        assert forall c :: c in clients && c != msg.sender ==> unchanged(c);
      } else {
        Broadcast(msg);
        listed := [];
      }
    }
  }

  /** The process-wide directory of rooms by name. */
  class Directory {
    var rooms: map<string, Room>

    /** Each room is filed under its own name. */
    ghost predicate Valid()
      reads this
    {
      forall n :: n in rooms ==> rooms[n].name == n
    }

    constructor ()
      ensures rooms == map[] && Valid()
    {
      rooms := map[];
    }

    /**
     The room filed under `name`: the existing one, leaving the directory as it
     was, or else a new, empty, running room that is filed under `name`.
     */
    method GetRoom(name: string) returns (room: Room)
      requires Valid()
      modifies this
      ensures Valid() && name in rooms && rooms[name] == room
      ensures name in old(rooms) ==> room == old(rooms)[name] && rooms == old(rooms)
      ensures name !in old(rooms) ==>
        fresh(room) && rooms == old(rooms)[name := room] &&
        room.name == name && room.clients == {} && room.allSubrooms == map[] && room.running && room.Valid()
    {
      if name in rooms {
        room := rooms[name];
      } else {
        room := new Room(name);
        rooms := rooms[name := room];
        // the room's loop is started once it is filed
        room.running := true;
      }
    }

    /** Removes the entry for `name`, if any; every other entry stays as it was. */
    method RemoveRoom(name: string)
      requires Valid()
      modifies this
      ensures Valid()
      ensures rooms == old(rooms) - {name}
      ensures name !in rooms && forall n :: n in old(rooms) && n != name ==> n in rooms && rooms[n] == old(rooms)[n]
    {
      rooms := rooms - {name};
    }
  }
}
