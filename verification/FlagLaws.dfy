/** What the wrapper's arguments set: every flag in both of its forms, in any order. */
module FlagLaws {
  import opened Bytes
  import opened Resume

  /** A flag that takes a value, given as two arguments or joined by an equals sign. */
  datatype Setting = Setting(flag: string, value: string, joined: bool)

  predicate IsValueFlag(f: string) {
    f in {"--harness", "--room", "--name", "--assume-role", "--resume-id", "--resume-name"}
  }

  predicate AreSettings(ss: seq<Setting>) {
    forall s | s in ss :: IsValueFlag(s.flag)
  }

  function ArgsOf(s: Setting): seq<string> {
    if s.joined then [s.flag + "=" + s.value] else [s.flag, s.value]
  }

  function AllArgs(ss: seq<Setting>): seq<string> {
    if ss == [] then [] else ArgsOf(ss[0]) + AllArgs(ss[1..])
  }

  /** The last value given to a flag; what it was when none is. */
  function LastValue(ss: seq<Setting>, flag: string, was: string): string {
    if ss == [] then was else LastValue(ss[1..], flag, if ss[0].flag == flag then ss[0].value else was)
  }

  function AllValues(ss: seq<Setting>, flag: string): seq<string> {
    if ss == [] then [] else (if ss[0].flag == flag then [ss[0].value] else []) + AllValues(ss[1..], flag)
  }

  /** The options after some settings: each of the last value it was given, and all the rooms in order. */
  function SetAll(o: Options, ss: seq<Setting>): Options {
    Options(LastValue(ss, "--harness", o.harness), o.rooms + AllValues(ss, "--room"), o.autoRoom,
            LastValue(ss, "--name", o.name), LastValue(ss, "--assume-role", o.role),
            LastValue(ss, "--resume-id", o.resumeId), LastValue(ss, "--resume-name", o.resumeName), o.command)
  }

  // ---- One setting ----

  lemma FlagsAre(f: string)
    ensures f in VALUE_FLAGS <==> IsValueFlag(f)
    ensures IsValueFlag(f) ==> '=' !in f
  {
  }

  lemma EqualsEndsFlag(f: string, g: string, value: string)
    requires '=' !in f && '=' !in g && g + "=" <= f + "=" + value
    ensures f == g
  {
    var arg, start := f + "=" + value, g + "=";
    assert arg[|f|] == '=' && start[|g|] == '=' && forall k | 0 <= k <= |g| :: start[k] == arg[k];
    assert forall k | 0 <= k < |g| :: g[k] == start[k];
    assert forall k | 0 <= k < |f| :: f[k] == arg[k];
  }

  lemma {:induction false} FlagIsFound(f: string, value: string, flags: seq<string>)
    requires f in flags && forall g | g in flags :: '=' !in g
    ensures FlagWithEquals(f + "=" + value, flags) == Some(f)
  {
    var arg := f + "=" + value;
    if flags[0] + "=" <= arg {
      EqualsEndsFlag(f, flags[0], value);
    } else {
      assert f + "=" <= arg by { assert arg[..|f| + 1] == f + "="; }
      FlagIsFound(f, value, flags[1..]);
    }
  }

  /** Both forms of a flag set it alike. */
  lemma SettingIsRead(s: Setting, rest: seq<string>, o: Options)
    requires IsValueFlag(s.flag)
    ensures ReadFlags(ArgsOf(s) + rest, o) == ReadFlags(rest, WithValue(o, s.flag, s.value))
  {
    hide WithValue;
    FlagsAre(s.flag);
    var args := ArgsOf(s) + rest;
    if s.joined {
      var arg := s.flag + "=" + s.value;
      assert '=' in arg by { assert arg[|s.flag|] == '='; }
      forall g | g in VALUE_FLAGS ensures '=' !in g {
        FlagsAre(g);
      }
      NotAutoRoom(s.flag, s.value);
      FlagIsFound(s.flag, s.value, VALUE_FLAGS);
      assert args[0] == arg && args[1..] == rest && arg[|s.flag| + 1..] == s.value;
      JoinedIsRead(arg, s.flag, args, o);
    } else {
      assert args[0] == s.flag && args[1] == s.value && args[2..] == rest;
    }
  }

  lemma NotAutoRoom(f: string, value: string)
    requires IsValueFlag(f)
    ensures f + "=" + value !in {"--auto-room", "--auto-room=true", "--auto-room=false", "--"}
  {
    var arg := f + "=" + value;
    FlagsAre(f);
    assert arg[|f|] == '=';
    assert '=' !in "--auto-room";
    assert "--auto-room" + "=" <= "--auto-room=true" && "--auto-room" + "=" <= "--auto-room=false";
    if "--auto-room" + "=" <= arg {
      EqualsEndsFlag(f, "--auto-room", value);
    }
  }

  lemma JoinedIsRead(arg: string, flag: string, args: seq<string>, o: Options)
    requires args != [] && args[0] == arg && FlagWithEquals(arg, VALUE_FLAGS) == Some(flag)
    requires arg !in VALUE_FLAGS && arg !in {"--auto-room", "--auto-room=true", "--auto-room=false", "--"}
    ensures ReadFlags(args, o) == ReadFlags(args[1..], WithValue(o, flag, arg[|flag| + 1..]))
  {
    hide WithValue, FlagWithEquals;
  }

  /** The short form of a name is its part before the first '@'. */
  lemma {:induction false} ShortNameIs(name: string, rest: string)
    requires '@' !in name
    ensures ShortName(name) == ShortName(name + ("@" + rest)) == name
  {
    if name == "" {
      assert name + ("@" + rest) == "@" + rest;
    } else {
      assert (name + ("@" + rest))[0] == name[0] && (name + ("@" + rest))[1..] == name[1..] + ("@" + rest);
      ShortNameIs(name[1..], rest);
    }
  }

  // ---- Any arguments ----

  lemma {:induction false} SettingsAreRead(ss: seq<Setting>, rest: seq<string>, o: Options)
    requires AreSettings(ss)
    ensures ReadFlags(AllArgs(ss) + rest, o) == ReadFlags(rest, SetAll(o, ss))
    decreases |ss|
  {
    hide ReadFlags, WithValue;
    if ss == [] {
      assert AllArgs(ss) + rest == rest && SetAll(o, ss) == o;
    } else {
      var s := ss[0];
      assert AllArgs(ss) + rest == ArgsOf(s) + (AllArgs(ss[1..]) + rest);
      SettingIsRead(s, AllArgs(ss[1..]) + rest, o);
      SettingsAreRead(ss[1..], rest, WithValue(o, s.flag, s.value));
      SetFirst(o, ss);
    }
  }

  lemma SetFirst(o: Options, ss: seq<Setting>)
    requires ss != [] && IsValueFlag(ss[0].flag)
    ensures SetAll(WithValue(o, ss[0].flag, ss[0].value), ss[1..]) == SetAll(o, ss)
  {
    var rooms := AllValues(ss[1..], "--room");
    assert (o.rooms + [ss[0].value]) + rooms == o.rooms + ([ss[0].value] + rooms) && [] + rooms == rooms;
  }

  /** How the arguments may end: with nothing, or with "--" and the command. */
  lemma ArgumentsAreRead(ss: seq<Setting>, command: seq<string>, o: Options)
    requires AreSettings(ss)
    ensures ReadFlags(AllArgs(ss), o) == Read(SetAll(o, ss))
    ensures ReadFlags(AllArgs(ss) + (["--"] + command), o) == Read(SetAll(o, ss).(command := command))
  {
    hide SetAll, WithValue;
    assert AllArgs(ss) + [] == AllArgs(ss);
    SettingsAreRead(ss, [], o);
    SettingsAreRead(ss, ["--"] + command, o);
    assert (["--"] + command)[1..] == command;
    assert "--" !in VALUE_FLAGS by { FlagsAre("--"); }
  }

  /** The room may be chosen by the program, or not; the last word on it counts. */
  lemma AutoRoomIsRead(arg: string, rest: seq<string>, o: Options)
    requires arg in {"--auto-room", "--auto-room=true", "--auto-room=false"}
    ensures ReadFlags([arg] + rest, o) == ReadFlags(rest, o.(autoRoom := arg != "--auto-room=false"))
  {
    FlagsAre(arg);
    assert ([arg] + rest)[1..] == rest;
  }

  /** A flag that ends the arguments lacks its value, and anything else is no flag, whatever comes before. */
  lemma ErrorsAreRead(ss: seq<Setting>, arg: string, rest: seq<string>, o: Options)
    requires AreSettings(ss)
    ensures IsValueFlag(arg) ==> ReadFlags(AllArgs(ss) + [arg], o) == MissingValue(arg)
    ensures !IsFlag(arg) ==> ReadFlags(AllArgs(ss) + ([arg] + rest), o) == UnknownFlag(arg)
  {
    hide SetAll, WithValue, IsValueFlag;
    FlagsAre(arg);
    SettingsAreRead(ss, [arg], o);
    SettingsAreRead(ss, [arg] + rest, o);
    if !IsFlag(arg) {
      NoneIsFound(arg, VALUE_FLAGS);
    }
  }

  predicate IsFlag(arg: string) {
    || IsValueFlag(arg) || arg in {"--", "--auto-room", "--auto-room=true", "--auto-room=false"}
    || exists k | 0 <= k < |arg| :: arg[k] == '=' && IsValueFlag(arg[..k])
  }

  lemma JoinedIsFlag(f: string, arg: string)
    requires IsValueFlag(f)
    ensures f + "=" <= arg ==> IsFlag(arg)
  {
    hide IsValueFlag;
    if f + "=" <= arg {
      var start := f + "=";
      assert start[|f|] == '=' && start[..|f|] == f && arg[..|f|] == start[..|f|];
    }
  }

  lemma {:induction false} NoneIsFound(arg: string, flags: seq<string>)
    requires !IsFlag(arg) && forall f | f in flags :: f in VALUE_FLAGS
    ensures FlagWithEquals(arg, flags) == None
  {
    hide IsValueFlag;
    if flags != [] {
      var f := flags[0];
      FlagsAre(f);
      JoinedIsFlag(f, arg);
      NoneIsFound(arg, flags[1..]);
    }
  }
}
