/** The command line that resumes a saved session: how it is printed, how a shell splits it into words, and how the
    wrapper reads those words back. */
module Resume {
  import opened Bytes

  datatype Session = Session(id: string, name: string, harness: string, rooms: seq<string>, role: string,
                             command: seq<string>)

  // ---- Printing ----

  predicate IsSafe(c: char) {
    'A' <= c <= 'Z' || 'a' <= c <= 'z' || '0' <= c <= '9'
    || c == '_' || c == '@' || c == '%' || c == '+' || c == '=' || c == ':' || c == ',' || c == '.' || c == '/'
    || c == '-'
  }

  /** Every single quote leaves the quoted text, stands in double quotes, and enters it again. */
  function Escaped(s: string): string {
    if s == "" then ""
    else (if s[0] == '\'' then "'\"'\"'" else [s[0]]) + Escaped(s[1..])
  }

  function ShellQuote(s: string): string {
    if s == "" then "''"
    else if forall c | c in s :: IsSafe(c) then s
    else "'" + (Escaped(s) + "'")
  }

  function Joined(words: seq<string>): string {
    if words == [] then ""
    else if |words| == 1 then ShellQuote(words[0])
    else ShellQuote(words[0]) + (" " + Joined(words[1..]))
  }

  function RoomArgs(rooms: seq<string>): seq<string> {
    if rooms == [] then [] else ["--room", rooms[0]] + RoomArgs(rooms[1..])
  }

  /** The short form of a name: what stands before its first '@', whether or not a project is appended to it. */
  function ShortName(name: string): string {
    if name == "" || name[0] == '@' then "" else [name[0]] + ShortName(name[1..])
  }

  function Optional(flag: string, value: string): seq<string> {
    if value != "" then [flag, value] else []
  }

  function ResumedBy(s: Session): seq<string> {
    if s.id != "" then ["--resume-id", s.id] else ["--resume-name", ShortName(s.name)]
  }

  function RoomsOrAuto(rooms: seq<string>): seq<string> {
    if rooms == [] then ["--auto-room"] else RoomArgs(rooms)
  }

  function HarnessOn(s: Session): seq<string> {
    Optional("--harness", s.harness)
      + (RoomsOrAuto(s.rooms) + (Optional("--assume-role", s.role) + (["--"] + s.command)))
  }

  /** The arguments after the program's name. */
  function ResumeArgs(s: Session): seq<string> {
    ResumedBy(s) + HarnessOn(s)
  }

  predicate Resumable(s: Session) {
    s.id != "" || s.name != ""
  }

  /** The line as the program builds it: a list of words, each quoted, and joined. */
  method ResumeLine(s: Session) returns (line: string)
    ensures line == if Resumable(s) then Joined(["aimebu", "agent"] + ResumeArgs(s)) else ""
    ensures line == "" <==> s.id == "" && s.name == ""
  {
    var parts := ["aimebu", "agent"];
    if s.id != "" {
      parts := parts + ["--resume-id", s.id];
    } else if s.name != "" {
      parts := parts + ["--resume-name", ShortName(s.name)];
    } else {
      return "";
    }
    parts := AppendOptional(parts, "--harness", s.harness);
    parts := AppendRooms(parts, s.rooms);
    parts := AppendOptional(parts, "--assume-role", s.role);
    parts := parts + ["--"];
    parts := parts + s.command;
    Nested(["aimebu", "agent"], ResumedBy(s), Optional("--harness", s.harness), RoomsOrAuto(s.rooms),
           Optional("--assume-role", s.role), ["--"], s.command);
    line := QuoteAndJoin(parts);
  }

  lemma Nested<T>(a: seq<T>, b: seq<T>, c: seq<T>, d: seq<T>, e: seq<T>, f: seq<T>, g: seq<T>)
    ensures a + b + c + d + e + f + g == a + (b + (c + (d + (e + (f + g)))))
  {
  }

  method AppendOptional(parts: seq<string>, flag: string, value: string) returns (r: seq<string>)
    ensures r == parts + Optional(flag, value)
  {
    r := parts;
    if value != "" {
      r := r + [flag, value];
    }
  }

  method AppendRooms(parts: seq<string>, rooms: seq<string>) returns (r: seq<string>)
    ensures r == parts + RoomsOrAuto(rooms)
  {
    r := parts;
    if |rooms| == 0 {
      r := r + ["--auto-room"];
    } else {
      for i := 0 to |rooms|
        invariant parts + RoomArgs(rooms) == r + RoomArgs(rooms[i..])
      {
        assert rooms[i..][0] == rooms[i] && rooms[i..][1..] == rooms[i + 1..];
        r := r + ["--room", rooms[i]];
      }
    }
  }

  method QuoteAndJoin(words: seq<string>) returns (line: string)
    requires words != []
    ensures line == Joined(words)
  {
    line := ShellQuote(words[|words| - 1]);
    for i := |words| - 1 downto 0
      invariant line == Joined(words[i..])
    {
      assert words[i..][0] == words[i] && words[i..][1..] == words[i + 1..];
      line := ShellQuote(words[i]) + (" " + line);
    }
  }

  // ---- A shell's words: section 2.2 of the POSIX Shell Command Language ----

  /** Characters that a shell gives a meaning of its own when they are not quoted. */
  predicate IsActive(c: char) {
    || c == '|' || c == '&' || c == ';' || c == '<' || c == '>' || c == '(' || c == ')' || c == '$' || c == '`'
    || c == '*'
    || c == '?' || c == '[' || c == ']' || c == '{' || c == '}' || c == '~' || c == '!' || c == '\n'
  }

  function Begun(word: Option<string>): string {
    match word case None => "" case Some(w) => w
  }

  function Grown(word: Option<string>, c: char): Option<string> {
    Some(Begun(word) + [c])
  }

  function Finished(word: Option<string>): seq<string> {
    match word case None => [] case Some(w) => [w]
  }

  /** The words of a simple command without expansions: None when the text is anything else. `word` is what has been
      read of a word so far. */
  function Words(s: string, word: Option<string>): Option<seq<string>>
    decreases |s|
  {
    if s == "" then Some(Finished(word))
    else if s[0] == ' ' || s[0] == '\t' then
      match Words(s[1..], None)
      case None => None
      case Some(more) => Some(Finished(word) + more)
    else if s[0] == '\'' then InSingle(s[1..], Begun(word))
    else if s[0] == '"' then InDouble(s[1..], Begun(word))
    else if s[0] == '\\' then
      if |s| < 2 then None
      else if s[1] == '\n' then Words(s[2..], word)
      else Words(s[2..], Grown(word, s[1]))
    else if IsActive(s[0]) || (s[0] == '#' && word == None) then None
    else Words(s[1..], Grown(word, s[0]))
  }

  /** Inside single quotes everything up to the next single quote is literal. */
  function InSingle(s: string, word: string): Option<seq<string>>
    decreases |s|
  {
    if s == "" then None
    else if s[0] == '\'' then Words(s[1..], Some(word))
    else InSingle(s[1..], word + [s[0]])
  }

  /** Inside double quotes a backslash quotes only $, `, ", \ and newline, and $ and ` start expansions. */
  function InDouble(s: string, word: string): Option<seq<string>>
    decreases |s|
  {
    if s == "" then None
    else if s[0] == '"' then Words(s[1..], Some(word))
    else if s[0] == '$' || s[0] == '`' then None
    else if s[0] == '\\' && |s| >= 2 && (s[1] == '$' || s[1] == '`' || s[1] == '"' || s[1] == '\\') then
      InDouble(s[2..], word + [s[1]])
    else if s[0] == '\\' && |s| >= 2 && s[1] == '\n' then InDouble(s[2..], word)
    else InDouble(s[1..], word + [s[0]])
  }

  lemma {:induction false} EscapedReads(s: string, rest: string, word: string)
    ensures InSingle(Escaped(s) + ("'" + rest), word) == Words(rest, Some(word + s))
    decreases |s|
  {
    var text := Escaped(s) + ("'" + rest);
    if s == "" {
      assert text == "'" + rest && text[1..] == rest && word + s == word;
    } else {
      var tail := Escaped(s[1..]) + ("'" + rest);
      assert (word + [s[0]]) + s[1..] == word + s;
      EscapedReads(s[1..], rest, word + [s[0]]);
      if s[0] == '\'' {
        QuoteReads(tail, word);
        assert text == "'\"'\"'" + tail;
      } else {
        assert text == [s[0]] + tail && text[1..] == tail;
      }
    }
  }

  /** How a quoted single quote reads inside single quotes. */
  lemma QuoteReads(tail: string, word: string)
    ensures InSingle("'\"'\"'" + tail, word) == InSingle(tail, word + "'")
  {
    var text := "'\"'\"'" + tail;
    var afterQuote := text[1..];
    assert InSingle(text, word) == Words(afterQuote, Some(word));
    assert afterQuote[0] == '"';
    var inDouble := afterQuote[1..];
    assert Words(afterQuote, Some(word)) == InDouble(inDouble, word);
    assert inDouble[0] == '\'';
    var closing := inDouble[1..];
    assert InDouble(inDouble, word) == InDouble(closing, word + "'");
    assert closing[0] == '"';
    var reopened := closing[1..];
    assert InDouble(closing, word + "'") == Words(reopened, Some(word + "'"));
    assert reopened[0] == '\'' && reopened[1..] == tail;
  }

  lemma {:induction false} SafeReads(s: string, rest: string, word: Option<string>)
    requires forall c | c in s :: IsSafe(c)
    requires s != "" || word.Some?
    ensures Words(s + rest, word) == Words(rest, Some(Begun(word) + s))
    decreases |s|
  {
    hide Words, IsSafe;
    if s == "" {
      assert s + rest == rest && Begun(word) + s == Begun(word);
    } else {
      SafeChar(s[0], s[1..] + rest, word);
      assert forall c | c in s[1..] :: c in s;
      SafeReads(s[1..], rest, Grown(word, s[0]));
      assert s + rest == [s[0]] + (s[1..] + rest);
      assert (Begun(word) + [s[0]]) + s[1..] == Begun(word) + s;
    }
  }

  lemma SafeChar(c: char, rest: string, word: Option<string>)
    requires IsSafe(c)
    ensures Words([c] + rest, word) == Words(rest, Grown(word, c))
  {
    hide IsSafe, IsActive;
    SafeIsOrdinary(c);
    assert ([c] + rest)[1..] == rest;
  }

  lemma SafeIsOrdinary(c: char)
    requires IsSafe(c)
    ensures !IsActive(c) && c !in " \t'\"\\#"
  {
  }

  /** A quoted word reads as that word, whatever it holds. */
  lemma QuotedReads(s: string, rest: string)
    ensures Words(ShellQuote(s) + rest, None) == Words(rest, Some(s))
  {
    if s != "" && forall c | c in s :: IsSafe(c) {
      SafeReads(s, rest, None);
      assert "" + s == s;
    } else {
      EnclosedReads(s, rest);
      assert s == "" ==> "'" + (Escaped(s) + "'") == "''";
    }
  }

  lemma EnclosedReads(s: string, rest: string)
    ensures Words("'" + (Escaped(s) + "'") + rest, None) == Words(rest, Some(s))
  {
    var text := "'" + (Escaped(s) + "'") + rest;
    var inner := Escaped(s) + ("'" + rest);
    assert text[1..] == inner;
    assert Words(text, None) == InSingle(inner, "");
    EscapedReads(s, rest, "");
    assert "" + s == s;
  }

  /** Quoted words joined by blanks are read back one by one. */
  lemma {:induction false} JoinedReads(words: seq<string>)
    ensures Words(Joined(words), None) == Some(words)
  {
    if |words| == 1 {
      QuotedReads(words[0], "");
      assert ShellQuote(words[0]) + "" == ShellQuote(words[0]) && words == [words[0]];
    } else if words != [] {
      var rest := " " + Joined(words[1..]);
      QuotedReads(words[0], rest);
      assert rest[1..] == Joined(words[1..]);
      JoinedReads(words[1..]);
      assert Finished(Some(words[0])) + words[1..] == words;
    }
  }

  // ---- The wrapper's flags ----

  datatype Options = Options(
    harness: string, rooms: seq<string>, autoRoom: bool, name: string, role: string,
    resumeId: string, resumeName: string, command: seq<string>)

  datatype Flags = Read(options: Options) | MissingValue(flag: string) | UnknownFlag(flag: string)

  const NO_OPTIONS := Options("", [], false, "", "", "", "", [])
  const VALUE_FLAGS := ["--harness", "--room", "--name", "--assume-role", "--resume-id", "--resume-name"]

  function WithValue(o: Options, flag: string, value: string): Options {
    match flag
    case "--harness" => o.(harness := value)
    case "--room" => o.(rooms := o.rooms + [value])
    case "--name" => o.(name := value)
    case "--assume-role" => o.(role := value)
    case "--resume-id" => o.(resumeId := value)
    case _ => o.(resumeName := value)
  }

  /** The flag, of those that take a value, that an argument gives a value to after an equals sign. */
  function FlagWithEquals(arg: string, flags: seq<string>): (r: Option<string>)
    ensures r.Some? ==> r.value + "=" <= arg
  {
    if flags == [] then None
    else if flags[0] + "=" <= arg then Some(flags[0])
    else FlagWithEquals(arg, flags[1..])
  }

  function ReadFlags(args: seq<string>, o: Options): Flags
    decreases |args|
  {
    if args == [] then Read(o)
    else
      var arg := args[0];
      if arg in VALUE_FLAGS then
        if |args| < 2 then MissingValue(arg) else ReadFlags(args[2..], WithValue(o, arg, args[1]))
      else if arg == "--auto-room" || arg == "--auto-room=true" then ReadFlags(args[1..], o.(autoRoom := true))
      else if arg == "--auto-room=false" then ReadFlags(args[1..], o.(autoRoom := false))
      else if arg == "--" then Read(o.(command := args[1..]))
      else
        match FlagWithEquals(arg, VALUE_FLAGS)
        case None => UnknownFlag(arg)
        case Some(flag) => ReadFlags(args[1..], WithValue(o, flag, arg[|flag| + 1..]))
  }

  lemma {:induction false} RoomsRead(rooms: seq<string>, rest: seq<string>, o: Options)
    ensures ReadFlags(RoomArgs(rooms) + rest, o) == ReadFlags(rest, o.(rooms := o.rooms + rooms))
  {
    if rooms == [] {
      assert RoomArgs(rooms) + rest == rest && o.rooms + rooms == o.rooms;
    } else {
      var args := RoomArgs(rooms) + rest;
      assert args[2..] == RoomArgs(rooms[1..]) + rest;
      assert (o.rooms + [rooms[0]]) + rooms[1..] == o.rooms + rooms;
      OneFlag(args, o);
      RoomsRead(rooms[1..], rest, o.(rooms := o.rooms + [rooms[0]]));
    }
  }

  /** A flag and its value, whatever the value looks like. */
  lemma OneFlag(args: seq<string>, o: Options)
    requires |args| >= 2 && args[0] in VALUE_FLAGS
    ensures ReadFlags(args, o) == ReadFlags(args[2..], WithValue(o, args[0], args[1]))
  {
  }

  lemma FlagAndRest(flag: string, value: string, rest: seq<string>, o: Options)
    requires flag in VALUE_FLAGS
    ensures ReadFlags([flag, value] + rest, o) == ReadFlags(rest, WithValue(o, flag, value))
  {
    var args := [flag, value] + rest;
    assert args[2..] == rest;
    OneFlag(args, o);
  }

  lemma OptionalRead(flag: string, value: string, rest: seq<string>, o: Options)
    requires flag in VALUE_FLAGS && (value == "" ==> WithValue(o, flag, value) == o)
    ensures ReadFlags(Optional(flag, value) + rest, o) == ReadFlags(rest, WithValue(o, flag, value))
  {
    if value == "" {
      assert [] + rest == rest;
    } else {
      FlagAndRest(flag, value, rest, o);
    }
  }

  /** What resuming a session should tell the wrapper. */
  function Recovered(s: Session): Options {
    Options(s.harness, s.rooms, s.rooms == [], "", s.role, s.id,
            if s.id != "" then "" else ShortName(s.name), s.command)
  }

  /** From any session that can be resumed, a shell splits the printed line into the program's name and arguments from
      which the wrapper reads the session's id or short name, its harness, its rooms (or that the room follows from the
      directory), its role and its command, whatever quotes, blanks or dashes they contain. */
  lemma ResumeRoundTrip(s: Session)
    requires Resumable(s)
    ensures var args := ResumeArgs(s);
            && Words(Joined(["aimebu", "agent"] + args), None) == Some(["aimebu", "agent"] + args)
            && ReadFlags(args, NO_OPTIONS) == Read(Recovered(s))
  {
    JoinedReads(["aimebu", "agent"] + ResumeArgs(s));
    var o := NO_OPTIONS.(resumeId := s.id, resumeName := if s.id != "" then "" else ShortName(s.name));
    ResumedByRead(s, HarnessOn(s));
    HarnessOnRead(s, o);
  }

  lemma ResumedByRead(s: Session, rest: seq<string>)
    ensures ReadFlags(ResumedBy(s) + rest, NO_OPTIONS)
         == ReadFlags(rest, NO_OPTIONS.(resumeId := s.id, resumeName := if s.id != "" then "" else ShortName(s.name)))
  {
    if s.id != "" {
      FlagAndRest("--resume-id", s.id, rest, NO_OPTIONS);
    } else {
      FlagAndRest("--resume-name", ShortName(s.name), rest, NO_OPTIONS);
    }
  }

  lemma HarnessOnRead(s: Session, o: Options)
    requires o.harness == "" && o.role == "" && o.rooms == [] && !o.autoRoom
    ensures ReadFlags(HarnessOn(s), o)
         == Read(o.(harness := s.harness, rooms := s.rooms, autoRoom := s.rooms == [], role := s.role,
                    command := s.command))
  {
    var command := ["--"] + s.command;
    var role := Optional("--assume-role", s.role) + command;
    var p := o.(harness := s.harness);
    var q := p.(rooms := s.rooms, autoRoom := s.rooms == []);
    OptionalRead("--harness", s.harness, RoomsOrAuto(s.rooms) + role, o);
    RoomsOrAutoRead(s.rooms, role, p);
    OptionalRead("--assume-role", s.role, command, q);
    CommandRead(s.command, q.(role := s.role));
  }

  lemma RoomsOrAutoRead(rooms: seq<string>, rest: seq<string>, o: Options)
    requires o.rooms == [] && !o.autoRoom
    ensures ReadFlags(RoomsOrAuto(rooms) + rest, o) == ReadFlags(rest, o.(rooms := rooms, autoRoom := rooms == []))
  {
    if rooms == [] {
      assert (["--auto-room"] + rest)[1..] == rest;
    } else {
      RoomsRead(rooms, rest, o);
      assert o.rooms + rooms == rooms;
    }
  }

  lemma CommandRead(command: seq<string>, o: Options)
    ensures ReadFlags(["--"] + command, o) == Read(o.(command := command))
  {
    assert (["--"] + command)[1..] == command;
  }

  /** The wrapper's loop over its arguments. */
  method ParseFlags(args: seq<string>) returns (r: Flags)
    ensures r == ReadFlags(args, NO_OPTIONS)
  {
    var o := NO_OPTIONS;
    var i := 0;
    while i < |args|
      invariant i <= |args| && ReadFlags(args, NO_OPTIONS) == ReadFlags(args[i..], o)
    {
      assert args[i..][0] == args[i] && args[i..][1..] == args[i + 1..];
      if args[i] in VALUE_FLAGS {
        if i + 1 >= |args| {
          return MissingValue(args[i]);
        }
        assert args[i..][2..] == args[i + 2..];
        o := WithValue(o, args[i], args[i + 1]);
        i := i + 2;
      } else if args[i] == "--auto-room" || args[i] == "--auto-room=true" {
        o := o.(autoRoom := true);
        i := i + 1;
      } else if args[i] == "--auto-room=false" {
        o := o.(autoRoom := false);
        i := i + 1;
      } else if args[i] == "--" {
        return Read(o.(command := args[i + 1..]));
      } else {
        var flag := FlagWithEquals(args[i], VALUE_FLAGS);
        if flag.None? {
          return UnknownFlag(args[i]);
        }
        o := WithValue(o, flag.value, args[i][|flag.value| + 1..]);
        i := i + 1;
      }
    }
    r := Read(o);
  }
}
