/**
 The slash-command protocol of a chat room: how a forwarded line is
 recognised as a command and cut into a command word and one parameter, which
 of the room's commands it selects, and the texts of the server's replies.
 */
module Commands {
  import opened GoStrings

  datatype Option<T> = None | Some(value: T)

  /** A recognised command line: the command word, its first parameter and the trimmed line. */
  datatype Invocation = Invocation(cmd: string, params: string, trimmed: string)

  /**
   A forwarded text is a command when, trimmed of white space, it starts with
   "/". The command word is the first space-separated piece after the "/",
   the parameter the second piece or "" when there is none; further pieces are
   ignored.
   */
  function Parse(text: string): (r: Option<Invocation>)
    ensures r.Some? ==> r.value.trimmed == TrimSpace(text)
    ensures r.Some? ==> ' ' !in r.value.cmd && ' ' !in r.value.params
  {
    Tokenise(TrimSpace(text))
  }

  /** Parse after the trimming: the cutting of an already trimmed line into command word and parameter. */
  function Tokenise(trimmed: string): (r: Option<Invocation>)
    ensures r.Some? ==> r.value.trimmed == trimmed
    ensures r.Some? ==> ' ' !in r.value.cmd && ' ' !in r.value.params
  {
    if HasPrefix(trimmed, "/") then
      var chunks := Split(trimmed[1..], ' ');
      var params := if |chunks| > 1 then chunks[1] else "";
      Some(Invocation(chunks[0], params, trimmed))
    else
      None
  }

  /** The command word: the text after "/" up to its first space. */
  function CommandWord(trimmed: string): string
    requires |trimmed| >= 1
  {
    var u := trimmed[1..];
    u[..FirstIndex(u, ' ')]
  }

  /** The parameter: the text after the first space up to the next space, or "" without a first space. */
  function Parameter(trimmed: string): string
    requires |trimmed| >= 1
  {
    var u := trimmed[1..];
    var i := FirstIndex(u, ' ');
    if i == |u| then ""
    else
      var v := u[i + 1..];
      v[..FirstIndex(v, ' ')]
  }

  /**
   A text is a command exactly when its trimmed form starts with "/", and then
   its command word and parameter are the first and second space-delimited
   tokens after the "/".
   */
  lemma ParseTokens(text: string)
    ensures var t := TrimSpace(text);
      Parse(text).Some? <==> (|t| >= 1 && t[0] == '/')
    ensures var t := TrimSpace(text);
      Parse(text).Some? ==>
        Parse(text).value.cmd == CommandWord(t) && Parse(text).value.params == Parameter(t)
  {
    TokeniseTokens(TrimSpace(text));
  }

  /** ParseTokens for a line that is already trimmed. */
  lemma TokeniseTokens(t: string)
    ensures Tokenise(t).Some? <==> (|t| >= 1 && t[0] == '/')
    ensures Tokenise(t).Some? ==> Tokenise(t).value.cmd == CommandWord(t) && Tokenise(t).value.params == Parameter(t)
  {
    assert HasPrefix(t, "/") <==> |t| >= 1 && t[0] == '/';
    if HasPrefix(t, "/") {
      SplitTokens(t);
    }
  }

  /** The first two pieces of a split command line are its command word and parameter. */
  lemma SplitTokens(t: string)
    requires |t| >= 1
    ensures var chunks := Split(t[1..], ' ');
      chunks[0] == CommandWord(t) &&
      (if |chunks| > 1 then chunks[1] else "") == Parameter(t)
  {
    var u := t[1..];
    var chunks := Split(u, ' ');
    var i := FirstIndex(u, ' ');
    SplitHead(u, ' ');
    if i < |u| {
      var v := u[i + 1..];
      SplitHead(v, ' ');
      assert chunks[1..] == Split(v, ' ');
    }
  }

  /** A line whose first character is neither white space nor "/". */
  predicate StartsPlain(line: string)
  {
    line != [] && !IsSpace(line[0]) && line[0] != '/'
  }

  /** A line that starts with a visible character other than "/" is never taken for a command. */
  lemma PlainLine(line: string)
    requires StartsPlain(line)
    ensures Parse(line).None?
  {
    var kept := TrimRightSpace(line);
    assert kept != [] && kept[0] == line[0];
    assert TrimSpace(line) == kept;
  }

  /** The line a user types for command word `cmd` with parameter `params` (none when empty). */
  function CommandLine(cmd: string, params: string): string
  {
    "/" + cmd + (if params == [] then [] else " " + params)
  }

  /** Whether `s` holds no white space. */
  predicate IsToken(s: string)
  {
    forall k :: 0 <= k < |s| ==> !IsSpace(s[k])
  }

  /** A command line built from white-space-free tokens parses back into those tokens. */
  lemma ParseCommandLine(cmd: string, params: string)
    requires IsToken(cmd) && IsToken(params)
    ensures Parse(CommandLine(cmd, params)) == Some(Invocation(cmd, params, CommandLine(cmd, params)))
  {
    var t := CommandLine(cmd, params);
    CommandLineTrimmed(cmd, params);
    assert HasPrefix(t, "/");
    CommandLineSplit(cmd, params);
  }

  lemma CommandLineTrimmed(cmd: string, params: string)
    requires IsToken(cmd) && IsToken(params)
    ensures TrimSpace(CommandLine(cmd, params)) == CommandLine(cmd, params)
  {
    var t := CommandLine(cmd, params);
    assert t[0] == '/';
    assert !IsSpace(t[|t| - 1]) by {
      if params != [] {
        assert t[|t| - 1] == params[|params| - 1];
      } else if cmd != [] {
        assert t[|t| - 1] == cmd[|cmd| - 1];
      }
    }
    assert [] + t + [] == t;
    TrimSpacePadded([], t, []);
  }

  lemma CommandLineSplit(cmd: string, params: string)
    requires IsToken(cmd) && IsToken(params)
    ensures Split(CommandLine(cmd, params)[1..], ' ') == if params == [] then [cmd] else [cmd, params]
  {
    var t := CommandLine(cmd, params);
    assert ' ' !in cmd && ' ' !in params by {
      assert IsSpace(' ');
    }
    if params == [] {
      assert t[1..] == cmd;
      SplitNoSeparator(cmd, ' ');
    } else {
      assert t[1..] == Join([cmd, params], [' ']);
      SplitJoin([cmd, params], ' ');
    }
  }

  /** The room's commands, as room.go dispatches them. */
  datatype Command =
    | Create(name: string)
    | JoinSubroom(name: string)
    | Unjoin
    | List
    | Who
    | Unknown

  /**
   The dispatch of a command word and parameter: `create` and `join` need a
   non-empty parameter, `unjoin`, `list` and `who` ignore theirs, and
   everything else is unknown.
   */
  function Classify(cmd: string, params: string): (c: Command)
    ensures c.Create? <==> cmd == "create" && params != []
    ensures c.JoinSubroom? <==> cmd == "join" && params != []
    ensures (c.Create? || c.JoinSubroom?) ==> c.name == params
    ensures c.Unjoin? <==> cmd == "unjoin"
    ensures c.List? <==> cmd == "list"
    ensures c.Who? <==> cmd == "who"
  {
    if cmd == "create" && |params| > 0 then Create(params)
    else if cmd == "join" && |params| > 0 then JoinSubroom(params)
    else if cmd == "unjoin" then Unjoin
    else if cmd == "list" then List
    else if cmd == "who" then Who
    else Unknown
  }

  /** The command a parsed line selects. */
  function CommandOf(inv: Invocation): Command
  {
    Classify(inv.cmd, inv.params)
  }

  const WELCOME_TEXT: string := "Dostępne polecenia: " + "/create, /join, /unjoin, /list, /who"
  const UNJOINED_TEXT: string := "Udany powrót do kanału głównego"
  const ERROR_PREFIX: string := "Błąd: "

  function CreatedText(name: string): string { "Kanał " + name + " utworzony" }

  function ExistsText(name: string): string
  {
    ERROR_PREFIX + "istnieje już kanał o takiej nazwie (" + name + ")"
  }

  function JoinedText(name: string): string { "Udane przejście do kanału " + name }

  function NoSuchText(name: string): string
  {
    ERROR_PREFIX + "nie istnieje kanał o takiej nazwie (" + name + ")"
  }

  function ListText(count: nat, names: seq<string>): string
  {
    "Dostępne kanały (" + Itoa(count) + "): " + Join(names, ", ")
  }

  function WhoText(names: seq<string>): string
  {
    "W bieżącym kanale są użytkownicy (" + Itoa(|names|) + "): " + Join(names, ", ")
  }

  function UnknownText(trimmed: string): string
  {
    ERROR_PREFIX + "nieznane polecenie: " + trimmed
  }

  /** Whether a reply text reports an error. */
  predicate IsError(text: string)
  {
    HasPrefix(text, ERROR_PREFIX)
  }

  /** The failure replies, and only they, carry the error prefix. */
  lemma ErrorReplies(name: string, count: nat, names: seq<string>, trimmed: string)
    ensures IsError(ExistsText(name)) && IsError(NoSuchText(name)) && IsError(UnknownText(trimmed))
    ensures !IsError(CreatedText(name)) && !IsError(JoinedText(name)) && !IsError(UNJOINED_TEXT)
    ensures !IsError(ListText(count, names)) && !IsError(WhoText(names)) && !IsError(WELCOME_TEXT)
  {
    assert ExistsText(name)[..|ERROR_PREFIX|] == ERROR_PREFIX;
    assert NoSuchText(name)[..|ERROR_PREFIX|] == ERROR_PREFIX;
    assert UnknownText(trimmed)[..|ERROR_PREFIX|] == ERROR_PREFIX;
    assert CreatedText(name)[0] != ERROR_PREFIX[0];
    assert JoinedText(name)[0] != ERROR_PREFIX[0];
    assert ListText(count, names)[0] != ERROR_PREFIX[0];
    assert WhoText(names)[0] != ERROR_PREFIX[0];
    assert WELCOME_TEXT[0] != ERROR_PREFIX[0];
  }

  /** A line with the parameter after two spaces has an empty parameter, so `create` falls back to unknown. */
  lemma DoubleSpaceIsUnknown(t: string)
    requires t == "/create  tech"
    ensures Parse(t).Some? && CommandOf(Parse(t).value) == Unknown
  {
    assert TrimSpace(t) == t by { DoubleSpaceTrimmed(t); }
    DoubleSpaceTokens(t);
    ParseTokens(t);
  }

  lemma DoubleSpaceTrimmed(t: string)
    requires t == "/create  tech"
    ensures TrimSpace(t) == t
  {
    assert [] + t + [] == t;
    TrimSpacePadded([], t, []);
  }

  lemma DoubleSpaceTokens(t: string)
    requires t == "/create  tech"
    ensures CommandWord(t) == "create" && Parameter(t) == ""
  {
    var u := t[1..];
    assert u == "create  tech";
    FirstIndexIs(u, ' ', 6);
    assert u[7..] == " tech";
    FirstIndexIs(u[7..], ' ', 0);
  }

  /** Surrounding white space is ignored and pieces after the parameter are dropped. */
  lemma ParseExample(text: string)
    requires text == "  /join tech extra\n"
    ensures Parse(text) == Some(Invocation("join", "tech", "/join tech extra"))
  {
    ExampleTrimmed(text);
    ExampleParsed(text);
  }

  lemma ExampleTrimmed(text: string)
    requires text == "  /join tech extra\n"
    ensures TrimSpace(text) == "/join tech extra"
  {
    var t := "/join tech extra";
    assert text == "  " + t + "\n";
    TrimSpacePadded("  ", t, "\n");
  }

  lemma ExampleParsed(text: string)
    requires TrimSpace(text) == "/join tech extra"
    ensures Parse(text) == Some(Invocation("join", "tech", "/join tech extra"))
  {
    ExampleTokens("/join tech extra");
    ParseTokens(text);
  }

  lemma ExampleTokens(t: string)
    requires t == "/join tech extra"
    ensures CommandWord(t) == "join" && Parameter(t) == "tech"
  {
    var u := t[1..];
    assert u == "join tech extra";
    FirstIndexIs(u, ' ', 4);
    assert u[5..] == "tech extra";
    FirstIndexIs(u[5..], ' ', 4);
  }
}
