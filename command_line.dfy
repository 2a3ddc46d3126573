/**
 * `Command::run`: the argument parser shared by every subcommand. Options are declared as
 * flags (boolean, false unless given) or valued options (with a default). Leading
 * arguments that start with a dash are options; the first argument that does not (or is
 * empty) starts the positional tail, which is passed through untouched. Parsing stops at
 * the first malformed option without calling the subcommand.
 */
module CommandLine {

  import opened Wrappers

  datatype Kind = Flag | Valued

  datatype OptionSpec = OptionSpec(name: string, description: string, kind: Kind, defaultValue: string)

  datatype Command = Command(name: string, description: string, options: seq<OptionSpec>, argumentPlaceholder: string)

  /** What the subcommand's `execute` receives. */
  datatype Arguments = Arguments(flags: map<string, bool>, options: map<string, string>, tail: seq<string>)

  /** Why parsing stopped; each is reported on the error stream, followed by the usage text. */
  datatype Rejection =
    | Unrecognized(argument: string)
    | RequiresValue(name: string)
    | BooleanFlag(name: string)

  datatype Parse = Parsed(arguments: Arguments) | Rejected(reason: Rejection)

  /** The name-to-option table; inserting a name that is already present keeps the first option. */
  function OptionTable(options: seq<OptionSpec>): map<string, OptionSpec> {
    if options == [] then map[]
    else
      var table := OptionTable(options[..|options| - 1]);
      var option := options[|options| - 1];
      if option.name in table then table else table[option.name := option]
  }

  /** Every flag starts out false; a later declaration of a name overwrites an earlier one. */
  function DefaultFlags(options: seq<OptionSpec>): map<string, bool> {
    if options == [] then map[]
    else
      var flags := DefaultFlags(options[..|options| - 1]);
      var option := options[|options| - 1];
      if option.kind == Flag then flags[option.name := false] else flags
  }

  /** Every valued option starts out at its default value. */
  function DefaultOptions(options: seq<OptionSpec>): map<string, string> {
    if options == [] then map[]
    else
      var values := DefaultOptions(options[..|options| - 1]);
      var option := options[|options| - 1];
      if option.kind == Valued then values[option.name := option.defaultValue] else values
  }

  /** An argument is an option when it is non-empty and starts with a dash. */
  predicate IsOption(argument: string) {
    |argument| > 0 && argument[0] == '-'
  }

  function LeadingDashes(s: string): (n: nat)
    ensures n <= |s|
    ensures forall k :: 0 <= k < n ==> s[k] == '-'
    ensures n < |s| ==> s[n] != '-'
  {
    if s != [] && s[0] == '-' then 1 + LeadingDashes(s[1..]) else 0
  }

  /** The option text after all of its leading dashes. */
  function OptionText(argument: string): string {
    argument[LeadingDashes(argument)..]
  }

  /** The index of the first occurrence of `c` in `s`. */
  function Find(s: string, c: char): (r: Option<nat>)
    ensures r.None? ==> forall k :: 0 <= k < |s| ==> s[k] != c
    ensures r.Some? ==> r.value < |s| && s[r.value] == c && forall k :: 0 <= k < r.value ==> s[k] != c
  {
    if s == [] then None
    else if s[0] == c then Some(0)
    else match Find(s[1..], c)
      case None => None
      case Some(k) => Some(k + 1)
  }

  /** `name=value` split at the first `=`; with no `=`, the value is empty. */
  datatype Setting = Setting(name: string, value: string, hasValue: bool)

  function Split(text: string): (r: Setting)
    ensures !r.hasValue ==> r.name == text && r.value == [] && '=' !in text
    ensures r.hasValue ==> text == r.name + "=" + r.value
    ensures '=' !in r.name
  {
    match Find(text, '=')
    case None => Setting(text, [], false)
    case Some(k) =>
      assert text == text[..k] + "=" + text[k + 1..];
      Setting(text[..k], text[k + 1..], true)
  }

  datatype State = State(flags: map<string, bool>, options: map<string, string>)

  /** What one option argument does; it depends on the option table alone, not on earlier arguments. */
  datatype Effect =
    | Reject(reason: Rejection)
    | SetFlag(name: string, on: bool)
    | SetOption(name: string, value: string)

  /** Look the name up, then check the value against the option's kind. */
  function EffectOf(table: map<string, OptionSpec>, argument: string): Effect {
    var setting := Split(OptionText(argument));
    if setting.name !in table then Reject(Unrecognized(argument))
    else
      var option := table[setting.name];
      if option.kind == Valued then
        if setting.value == [] then Reject(RequiresValue(option.name))
        else SetOption(option.name, setting.value)
      else if setting.hasValue then
        if setting.value == "true" then SetFlag(option.name, true)
        else if setting.value == "false" then SetFlag(option.name, false)
        else Reject(BooleanFlag(option.name))
      else SetFlag(option.name, true)
  }

  function Perform(state: State, effect: Effect): State
    requires !effect.Reject?
  {
    match effect
    case SetFlag(name, on) => State(state.flags[name := on], state.options)
    case SetOption(name, value) => State(state.flags, state.options[name := value])
  }

  function ParseFrom(table: map<string, OptionSpec>, state: State, arguments: seq<string>): Parse
    decreases |arguments|
  {
    if arguments == [] then Parsed(Arguments(state.flags, state.options, []))
    else if !IsOption(arguments[0]) then Parsed(Arguments(state.flags, state.options, arguments))
    else match EffectOf(table, arguments[0])
      case Reject(reason) => Rejected(reason)
      case _ => ParseFrom(table, Perform(state, EffectOf(table, arguments[0])), arguments[1..])
  }

  /** What `run` hands to `execute`, or why it stops before calling it. */
  function ParseArguments(command: Command, arguments: seq<string>): Parse {
    ParseFrom(OptionTable(command.options),
              State(DefaultFlags(command.options), DefaultOptions(command.options)),
              arguments)
  }

  /** The parsing half of `run`, with its loops. */
  method ParseCommandLine(command: Command, arguments: seq<string>) returns (p: Parse)
    ensures p == ParseArguments(command, arguments)
  {
    var table, state := Initialise(command.options);
    var tail: seq<string> := [];
    var i := 0;
    while i < |arguments|
      invariant i <= |arguments|
      invariant ParseArguments(command, arguments) == ParseFrom(table, state, arguments[i..])
    {
      var argument := arguments[i];
      if |argument| > 0 && argument[0] == '-' {
        var effect := ReadOption(table, argument);
        ParseFromOption(table, state, arguments[i..]);
        assert arguments[i..][1..] == arguments[i + 1..];
        if effect.Reject? {
          return Rejected(effect.reason);
        }
        state := Perform(state, effect);
      } else {
        tail := CopyTail(arguments, i);
        break;
      }
      i := i + 1;
    }
    return Parsed(Arguments(state.flags, state.options, tail));
  }

  /** The positional tail: every argument from index `start` on, in order. */
  method CopyTail(arguments: seq<string>, start: nat) returns (tail: seq<string>)
    requires start <= |arguments|
    ensures tail == arguments[start..]
  {
    tail := [];
    for j := start to |arguments|
      invariant tail == arguments[start..j]
    {
      tail := tail + [arguments[j]];
    }
  }

  /** One option argument: it either stops the parse or updates the state parsing continues from. */
  lemma ParseFromOption(table: map<string, OptionSpec>, state: State, arguments: seq<string>)
    requires arguments != [] && IsOption(arguments[0])
    ensures EffectOf(table, arguments[0]).Reject? ==>
              ParseFrom(table, state, arguments) == Rejected(EffectOf(table, arguments[0]).reason)
    ensures !EffectOf(table, arguments[0]).Reject? ==>
              ParseFrom(table, state, arguments) ==
              ParseFrom(table, Perform(state, EffectOf(table, arguments[0])), arguments[1..])
  {
  }

  /** Fills the option table and the default flag and option values, one declaration at a time. */
  method Initialise(options: seq<OptionSpec>) returns (table: map<string, OptionSpec>, state: State)
    ensures table == OptionTable(options)
    ensures state == State(DefaultFlags(options), DefaultOptions(options))
  {
    var flags: map<string, bool> := map[];
    var values: map<string, string> := map[];
    table := map[];
    for k := 0 to |options|
      invariant table == OptionTable(options[..k])
      invariant flags == DefaultFlags(options[..k])
      invariant values == DefaultOptions(options[..k])
    {
      var option := options[k];
      assert options[..k + 1][..k] == options[..k];
      if option.name !in table {
        table := table[option.name := option];
      }
      match option.kind {
        case Flag => flags := flags[option.name := false];
        case Valued => values := values[option.name := option.defaultValue];
      }
    }
    assert options[..|options|] == options;
    state := State(flags, values);
  }

  /** One option argument: look the name up, then type-check the value against the option's kind. */
  method ReadOption(table: map<string, OptionSpec>, argument: string) returns (effect: Effect)
    requires IsOption(argument)
    ensures effect == EffectOf(table, argument)
  {
    var start := SkipDashes(argument);
    var setting := Split(argument[start..]);
    if setting.name !in table {
      return Reject(Unrecognized(argument));
    }
    var option := table[setting.name];
    if option.kind == Valued {
      if setting.value == [] {
        return Reject(RequiresValue(option.name));
      }
      effect := SetOption(option.name, setting.value);
    } else if setting.hasValue {
      if setting.value == "true" {
        effect := SetFlag(option.name, true);
      } else if setting.value == "false" {
        effect := SetFlag(option.name, false);
      } else {
        return Reject(BooleanFlag(option.name));
      }
    } else {
      effect := SetFlag(option.name, true);
    }
  }

  /** The index just past an option argument's leading dashes. */
  method SkipDashes(argument: string) returns (start: nat)
    requires IsOption(argument)
    ensures start == LeadingDashes(argument)
  {
    start := 1;
    assert argument[1..] == argument[start..];
    while start < |argument| && argument[start] == '-'
      invariant 1 <= start <= |argument|
      invariant LeadingDashes(argument) == start + LeadingDashes(argument[start..])
    {
      assert argument[start..][1..] == argument[start + 1..];
      start := start + 1;
    }
  }

  /**
   * `run`: parses the arguments and, only if they are well formed, returns what the
   * subcommand's `execute` returns on them.
   */
  method Run(command: Command, arguments: seq<string>, execute: Arguments -> bool) returns (ok: bool, parsed: Parse)
    ensures parsed == ParseArguments(command, arguments)
    ensures parsed.Rejected? ==> !ok
    ensures parsed.Parsed? ==> ok == execute(parsed.arguments)
  {
    parsed := ParseCommandLine(command, arguments);
    match parsed {
      case Rejected(_) => ok := false;
      case Parsed(a) => ok := execute(a);
    }
  }

  /** The option table holds exactly the declared names. */
  lemma {:induction false} OptionTableNames(options: seq<OptionSpec>, name: string)
    ensures name in OptionTable(options) <==> exists i :: 0 <= i < |options| && options[i].name == name
  {
    if options != [] {
      var prefix := options[..|options| - 1];
      OptionTableNames(prefix, name);
      if name in OptionTable(prefix) {
        var i :| 0 <= i < |prefix| && prefix[i].name == name;
        assert options[i] == prefix[i];
      }
      if exists i :: 0 <= i < |options| && options[i].name == name {
        var i :| 0 <= i < |options| && options[i].name == name;
        if i < |prefix| {
          assert prefix[i].name == name;
        }
      }
    }
  }

  /** The option table maps a name to the first option declared with that name. */
  lemma {:induction false} OptionTableFirst(options: seq<OptionSpec>, name: string, i: nat)
    requires i < |options| && options[i].name == name
    requires forall j :: 0 <= j < i ==> options[j].name != name
    ensures name in OptionTable(options) && OptionTable(options)[name] == options[i]
  {
    var prefix := options[..|options| - 1];
    if i < |prefix| {
      assert forall j :: 0 <= j <= i ==> prefix[j] == options[j];
      OptionTableFirst(prefix, name, i);
    } else {
      OptionTableNames(prefix, name);
      assert forall j :: 0 <= j < |prefix| ==> prefix[j] == options[j];
    }
  }

  /** Before parsing, the flags are exactly the declared flags, all false. */
  lemma {:induction false} DefaultFlagsFalse(options: seq<OptionSpec>, name: string)
    ensures name in DefaultFlags(options) <==>
            exists i :: 0 <= i < |options| && options[i].kind == Flag && options[i].name == name
    ensures name in DefaultFlags(options) ==> !DefaultFlags(options)[name]
  {
    if options != [] {
      var prefix := options[..|options| - 1];
      DefaultFlagsFalse(prefix, name);
      if exists i :: 0 <= i < |options| && options[i].kind == Flag && options[i].name == name {
        var i :| 0 <= i < |options| && options[i].kind == Flag && options[i].name == name;
        if i < |prefix| {
          assert prefix[i].kind == Flag && prefix[i].name == name;
        }
      }
      if exists i :: 0 <= i < |prefix| && prefix[i].kind == Flag && prefix[i].name == name {
        var i :| 0 <= i < |prefix| && prefix[i].kind == Flag && prefix[i].name == name;
        assert options[i] == prefix[i];
      }
    }
  }

  /** Before parsing, a valued option holds the default of its last declaration. */
  lemma {:induction false} DefaultOptionsValue(options: seq<OptionSpec>, i: nat)
    requires i < |options| && options[i].kind == Valued
    requires forall j :: i < j < |options| && options[j].kind == Valued ==> options[j].name != options[i].name
    ensures options[i].name in DefaultOptions(options)
    ensures DefaultOptions(options)[options[i].name] == options[i].defaultValue
  {
    var prefix := options[..|options| - 1];
    if i < |prefix| {
      forall j | i < j < |prefix| && prefix[j].kind == Valued
        ensures prefix[j].name != prefix[i].name
      {
        assert prefix[j] == options[j];
      }
      DefaultOptionsValue(prefix, i);
    }
  }

  /** Where the positional tail starts: the first argument that is not an option. */
  function TailStart(arguments: seq<string>): (k: nat)
    ensures k <= |arguments|
    ensures forall j :: 0 <= j < k ==> IsOption(arguments[j])
    ensures k < |arguments| ==> !IsOption(arguments[k])
  {
    if arguments == [] || !IsOption(arguments[0]) then 0
    else 1 + TailStart(arguments[1..])
  }

  /**
   * The tail is exactly the suffix from the first non-option argument on; arguments after
   * it pass through even when they start with a dash.
   */
  lemma {:induction false} TailIsSuffix(table: map<string, OptionSpec>, state: State, arguments: seq<string>)
    requires ParseFrom(table, state, arguments).Parsed?
    ensures ParseFrom(table, state, arguments).arguments.tail == arguments[TailStart(arguments)..]
    decreases |arguments|
  {
    if arguments != [] && IsOption(arguments[0]) {
      var next := Perform(state, EffectOf(table, arguments[0]));
      TailIsSuffix(table, next, arguments[1..]);
      assert arguments[1..][TailStart(arguments[1..])..] == arguments[TailStart(arguments)..];
    }
  }

  /** Any number of leading dashes is accepted: `-x`, `--x` and `---x` mean the same. */
  lemma {:induction false} DashesEquivalent(dashes: string, text: string)
    requires |dashes| >= 1 && forall k :: 0 <= k < |dashes| ==> dashes[k] == '-'
    requires text == [] || text[0] != '-'
    ensures OptionText(dashes + text) == text
    ensures OptionText(dashes + text) == OptionText("-" + text)
  {
    DashesPrefix(dashes, text);
    DashesPrefix("-", text);
  }

  lemma {:induction false} DashesPrefix(dashes: string, text: string)
    requires forall k :: 0 <= k < |dashes| ==> dashes[k] == '-'
    requires text == [] || text[0] != '-'
    ensures LeadingDashes(dashes + text) == |dashes|
  {
    if dashes != [] {
      assert (dashes + text)[1..] == dashes[1..] + text;
      DashesPrefix(dashes[1..], text);
    } else {
      assert dashes + text == text;
    }
  }

  /** Two arguments with the same option text have the same effect, unless the name is unknown. */
  lemma SameTextSameEffect(table: map<string, OptionSpec>, a: string, b: string)
    requires OptionText(a) == OptionText(b)
    ensures EffectOf(table, a) == EffectOf(table, b) || EffectOf(table, a) == Reject(Unrecognized(a))
    ensures EffectOf(table, a).Reject? <==> EffectOf(table, b).Reject?
  {
  }

  /** An unknown option name stops parsing, naming the argument as written. */
  lemma UnknownRejects(table: map<string, OptionSpec>, state: State, argument: string, rest: seq<string>)
    requires IsOption(argument)
    requires Split(OptionText(argument)).name !in table
    ensures ParseFrom(table, state, [argument] + rest) == Rejected(Unrecognized(argument))
  {
  }

  /** A valued option given no value, or an empty one, stops parsing. */
  lemma EmptyValueRejects(table: map<string, OptionSpec>, state: State, argument: string, rest: seq<string>)
    requires IsOption(argument)
    requires var s := Split(OptionText(argument)); s.name in table && table[s.name].kind == Valued && s.value == []
    ensures ParseFrom(table, state, [argument] + rest) ==
            Rejected(RequiresValue(table[Split(OptionText(argument)).name].name))
  {
  }

  /** A bare flag followed by a positional argument: the flag is set over the defaults and the argument is the tail. */
  lemma BareFlagLine(command: Command, name: string, path: string)
    requires var table := OptionTable(command.options);
             name in table && table[name].kind == Flag && table[name].name == name
    requires '=' !in name && (name == [] || name[0] != '-')
    requires !IsOption(path)
    ensures ParseArguments(command, ["-" + name, path]) ==
            Parsed(Arguments(DefaultFlags(command.options)[name := true], DefaultOptions(command.options), [path]))
  {
    var table := OptionTable(command.options);
    var state := State(DefaultFlags(command.options), DefaultOptions(command.options));
    FlagBare(table, name);
    ParseFromOption(table, state, ["-" + name, path]);
    assert ["-" + name, path][1..] == [path];
  }

  /** The bare form of a flag sets it. */
  lemma FlagBare(table: map<string, OptionSpec>, name: string)
    requires name in table && table[name].kind == Flag && table[name].name == name
    requires '=' !in name && (name == [] || name[0] != '-')
    ensures EffectOf(table, "-" + name) == SetFlag(name, true)
  {
    OptionText1(name);
  }

  /**
   * A flag with a value: `=true` sets it, `=false` clears it, and any other value (the
   * empty one included) stops parsing.
   */
  lemma FlagValue(table: map<string, OptionSpec>, name: string, value: string)
    requires name in table && table[name].kind == Flag && table[name].name == name
    requires '=' !in name && (name == [] || name[0] != '-')
    ensures EffectOf(table, "-" + name + "=" + value) ==
            if value == "true" then SetFlag(name, true)
            else if value == "false" then SetFlag(name, false)
            else Reject(BooleanFlag(name))
  {
    assert "-" + name + "=" + value == "-" + (name + "=" + value);
    OptionText1(name + "=" + value);
    SplitAtFirst(name, value);
  }

  lemma OptionText1(text: string)
    requires text == [] || text[0] != '-'
    ensures OptionText("-" + text) == text
  {
    DashesPrefix("-", text);
  }

  lemma SplitAtFirst(name: string, value: string)
    requires '=' !in name
    ensures Split(name + "=" + value) == Setting(name, value, true)
  {
    var text := name + "=" + value;
    assert text[|name|] == '=';
    assert forall k :: 0 <= k < |name| ==> text[k] == name[k];
    var k := Find(text, '=').value;
    assert k == |name|;
    assert text[..k] == name && text[k + 1..] == value;
  }

  /**
   * A later occurrence of an option overwrites what an earlier one set: applying both
   * leaves the state the later one alone would.
   */
  lemma LaterOverwrites(table: map<string, OptionSpec>, state: State, a: string, b: string)
    requires !EffectOf(table, a).Reject? && !EffectOf(table, b).Reject?
    requires Split(OptionText(a)).name == Split(OptionText(b)).name
    ensures Perform(Perform(state, EffectOf(table, a)), EffectOf(table, b)) == Perform(state, EffectOf(table, b))
  {
    EffectNames(table, a);
    EffectNames(table, b);
    PerformOverwrites(state, EffectOf(table, a), EffectOf(table, b));
  }

  /** An accepted argument acts on the option its name denotes, as that option's kind says. */
  lemma EffectNames(table: map<string, OptionSpec>, a: string)
    requires !EffectOf(table, a).Reject?
    ensures var name := Split(OptionText(a)).name;
            name in table && EffectOf(table, a).name == table[name].name &&
            (EffectOf(table, a).SetFlag? <==> table[name].kind == Flag)
  {
  }

  lemma PerformOverwrites(state: State, first: Effect, second: Effect)
    requires !first.Reject? && !second.Reject?
    requires first.name == second.name && (first.SetFlag? <==> second.SetFlag?)
    ensures Perform(Perform(state, first), second) == Perform(state, second)
  {
    if second.SetFlag? {
      assert state.flags[first.name := first.on][second.name := second.on] == state.flags[second.name := second.on];
    } else {
      assert state.options[first.name := first.value][second.name := second.value] ==
             state.options[second.name := second.value];
    }
  }
}
