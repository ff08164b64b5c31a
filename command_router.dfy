/** Parsing and routing of "<runner-id>:<payload>" extension commands. */
module CommandRouter {
  import opened AppTypes

  /** A command split at its first colon. */
  datatype CommandSpec = CommandSpec(runnerId: string, payload: string)

  /** What the host does with a command string. */
  datatype Action =
    | Ignore                  // no colon: silently dropped
    | Reserved                // runner id "ext": not yet implemented
    | Script(source: string)  // anything else: run as a script

  /** The runner id reserved for commands registered by extensions. */
  const ExtRunner := "ext"

  /** Position of the first `c` in `s`, or None where std::string::find
      would return npos. */
  function FindFirst(s: string, c: char): (r: Option<nat>)
    ensures r.Some? ==> r.value < |s| && s[r.value] == c
    ensures r.Some? ==> forall k :: 0 <= k < r.value ==> s[k] != c
    ensures r.None? <==> c !in s
  {
    if s == [] then None
    else if s[0] == c then Some(0)
    else
      match FindFirst(s[1..], c)
      case None => None
      case Some(i) => Some(i + 1)
  }

  /** The command string a spec stands for. */
  function Format(spec: CommandSpec): string
  {
    spec.runnerId + ":" + spec.payload
  }

  /** Splits a command at its first colon; None when there is no colon. */
  function Parse(command: string): (r: Option<CommandSpec>)
    ensures r.None? <==> ':' !in command
    ensures r.Some? ==> ':' !in r.value.runnerId && Format(r.value) == command
  {
    match FindFirst(command, ':')
    case None => None
    case Some(i) =>
      var spec := CommandSpec(command[..i], command[i + 1..]);
      assert Format(spec) == command;
      Some(spec)
  }

  /** Parsing undoes formatting whenever the runner id has no colon; the
      payload may hold further colons. */
  lemma {:induction false} ParseFormat(spec: CommandSpec)
    requires ':' !in spec.runnerId
    ensures Parse(Format(spec)) == Some(spec)
  {
    var s := Format(spec);
    var n := |spec.runnerId|;
    assert s[n] == ':';
    assert forall k :: 0 <= k < n ==> s[k] == spec.runnerId[k];
    assert s[..n] == spec.runnerId;
    assert s[n + 1..] == spec.payload;
  }

  /** The runner id is exactly "ext" precisely when the command starts
      with "ext:". */
  lemma ReservedPrefix(command: string)
    ensures (Parse(command).Some? && Parse(command).value.runnerId == ExtRunner)
        <==> |command| >= 4 && command[..4] == "ext:"
  {
    if |command| >= 4 && command[..4] == "ext:" {
      assert command[3] == ':';
      var spec := Parse(command).value;
      var n := |spec.runnerId|;
      assert forall k :: 0 <= k < 3 ==> command[k] == "ext:"[k];
      assert forall k :: 0 <= k < n ==> spec.runnerId[k] == command[k];
      assert n == 3;
      assert spec.runnerId == command[..3] == "ext";
    }
    if Parse(command).Some? && Parse(command).value.runnerId == ExtRunner {
      assert command == "ext" + ":" + Parse(command).value.payload;
      assert command[..4] == "ext:";
    }
  }

  /** Routes a command: no colon is ignored, the runner id "ext" is
      reserved, and every other runner gets the whole original command. */
  function Route(command: string): (a: Action)
    ensures a == Ignore <==> ':' !in command
    ensures a == Reserved <==> |command| >= 4 && command[..4] == "ext:"
    ensures a.Script? ==> a.source == command
  {
    ReservedPrefix(command);
    match Parse(command)
    case None => Ignore
    case Some(spec) =>
      if spec.runnerId == ExtRunner then Reserved else Script(command)
  }
}
