/**
 The `ssh_reboot` management command: build one ssh argument vector, then
 try each reboot command over it in order until one exits with status zero.

 The child process is an oracle: given the argument vector and the timeout in
 seconds, it reports what `subprocess.check_output` saw. The host validator
 is a predicate on the hostname. A run records, besides how `handle` ended,
 every argument vector it handed to the oracle, in order.
 */
module SshReboot {
  import opened Wrappers
  import opened PyStrings

  /** The parsed command-line options `handle` reads. */
  datatype SshOptions = SshOptions(loginName: string, identityFile: string, port: int, timeout: int)

  /** What one `ssh` child process did: exited zero with its merged output, exited non-zero, or outlived the timeout. */
  datatype Outcome = Ok(output: string) | NonZeroExit(error: string) | Timeout

  /** Runs one argument vector under a timeout (in seconds). */
  type Oracle = (seq<string>, int) -> Outcome

  /** The exceptions that leave `handle`. */
  datatype Failure =
    | HostRejected(hostname: string)                   // raised by the host validator
    | TimeoutExpired(argv: seq<string>, timeout: int)  // raised by the child process call and never caught
    | CommandError(message: string)                    // every reboot command exited non-zero

  datatype Handled = Returned(output: string) | Raised(failure: Failure)

  datatype Run = Run(result: Handled, attempts: seq<seq<string>>)

  /**
   The fixed `-o` options. The last two switch host-key checking off: any host
   key is accepted and none is remembered, which trusts the management network.
   */
  const SshOptionArgs: seq<string> := [
    "-o", "PasswordAuthentication=no",
    "-o", "ServerAliveInterval=2",
    "-o", "LogLevel=ERROR",
    "-o", "StrictHostKeyChecking=no",
    "-o", "UserKnownHostsFile=/dev/null"
  ]

  /** Tried in this order: the POSIX command first, then the Windows one spelled for a bash shell. */
  const RebootCommands: seq<string> := ["reboot", "shutdown -f -t 3 -r"]

  const FailureSuffix: string := " All ssh reboot commands failed."

  /** The argument vector shared by every attempt. */
  function BaseArgs(hostname: string, options: SshOptions): (argv: seq<string>)
    ensures |argv| == 18
    ensures argv[..11] == ["ssh"] + SshOptionArgs
    ensures argv[11..] == ["-i", options.identityFile, "-l", options.loginName, "-p", IntToStr(options.port), hostname]
  {
    ["ssh"] + SshOptionArgs
    + ["-i", options.identityFile, "-l", options.loginName, "-p", IntToStr(options.port), hostname]
  }

  /** The connection an argument vector asks ssh for. */
  datatype Target = Target(hostname: string, identityFile: string, loginName: string, port: int)

  /** Reads back the connection from an argument vector laid out as `BaseArgs` lays it out. */
  function ParseBaseArgs(argv: seq<string>): Option<Target> {
    if |argv| == 18 && argv[..11] == ["ssh"] + SshOptionArgs
       && argv[11] == "-i" && argv[13] == "-l" && argv[15] == "-p"
    then
      match ParseInt(argv[16])
      case Some(port) => Some(Target(argv[17], argv[12], argv[14], port))
      case None => None
    else None
  }

  lemma BaseArgsRoundTrip(hostname: string, options: SshOptions)
    ensures ParseBaseArgs(BaseArgs(hostname, options))
         == Some(Target(hostname, options.identityFile, options.loginName, options.port))
  {
    var argv := BaseArgs(hostname, options);
    assert argv[..11] == ["ssh"] + SshOptionArgs;
    IntToStrRoundTrip(options.port);
  }

  /** Distinct connections never share an argument vector. */
  lemma BaseArgsInjective(h1: string, o1: SshOptions, h2: string, o2: SshOptions)
    requires BaseArgs(h1, o1) == BaseArgs(h2, o2)
    ensures h1 == h2
    ensures o1.identityFile == o2.identityFile && o1.loginName == o2.loginName && o1.port == o2.port
  {
    BaseArgsRoundTrip(h1, o1);
    BaseArgsRoundTrip(h2, o2);
  }

  /** The argument vector of one attempt: the shared part, then the remote command as a single element. */
  function AttemptArgs(base: seq<string>, command: string): (argv: seq<string>)
    ensures |argv| == |base| + 1 && argv[..|base|] == base && argv[|base|] == command
  {
    base + [command]
  }

  /** The message of the terminal `CommandError`. */
  function FailureMessage(hostname: string): (message: string)
    ensures |hostname| <= |message| && message[..|hostname|] == hostname
  {
    hostname + FailureSuffix
  }

  /** The hostname a failure message names, if it is one. */
  function FailedHost(message: string): Option<string> {
    if |FailureSuffix| <= |message| && message[|message| - |FailureSuffix|..] == FailureSuffix
    then Some(message[..|message| - |FailureSuffix|])
    else None
  }

  lemma FailureMessageNamesHost(hostname: string)
    ensures FailedHost(FailureMessage(hostname)) == Some(hostname)
  {}

  /**
   How `handle` ends once the last attempt it makes has the given outcome. A
   non-zero exit ends it only when no command is left, which `IsFallbackRun` ensures.
   */
  function Settle(hostname: string, argv: seq<string>, timeout: int, outcome: Outcome): Handled {
    match outcome
    case Ok(output) => Returned(output)
    case Timeout => Raised(TimeoutExpired(argv, timeout))
    case NonZeroExit(_) => Raised(CommandError(FailureMessage(hostname)))
  }

  /**
   What the fallback loop promises, stated over the run as a whole: it tried a
   prefix of the commands in order, every attempt but the last exited non-zero,
   it stopped early only on an attempt that did not exit non-zero, and the last
   attempt (or, with no command at all, exhaustion) decides the result.
   */
  predicate IsFallbackRun(hostname: string, base: seq<string>, commands: seq<string>,
                          timeout: int, oracle: Oracle, run: Run)
  {
    var a := run.attempts;
    && |a| <= |commands|
    && (forall i :: 0 <= i < |a| ==> a[i] == AttemptArgs(base, commands[i]))
    && (forall i :: 0 <= i < |a| - 1 ==> oracle(a[i], timeout).NonZeroExit?)
    && (|a| < |commands| ==> 0 < |a| && !oracle(a[|a| - 1], timeout).NonZeroExit?)
    && run.result == (if |a| == 0 then Raised(CommandError(FailureMessage(hostname)))
                      else Settle(hostname, a[|a| - 1], timeout, oracle(a[|a| - 1], timeout)))
  }

  /**
   The loop over the reboot commands. Only a non-zero exit is caught and moves
   on; a zero exit returns and a timeout propagates, both at once.
   */
  function TryCommands(hostname: string, base: seq<string>, commands: seq<string>,
                       timeout: int, oracle: Oracle): (run: Run)
    ensures IsFallbackRun(hostname, base, commands, timeout, oracle, run)
    decreases |commands|
  {
    if |commands| == 0 then Run(Raised(CommandError(FailureMessage(hostname))), [])
    else
      var argv := AttemptArgs(base, commands[0]);
      match oracle(argv, timeout)
      case Ok(output) => Run(Returned(output), [argv])
      case Timeout => Run(Raised(TimeoutExpired(argv, timeout)), [argv])
      case NonZeroExit(_) =>
        var rest := TryCommands(hostname, base, commands[1..], timeout, oracle);
        Run(rest.result, [argv] + rest.attempts)
  }

  /** The description `IsFallbackRun` pins down exactly one run: the one `TryCommands` produces. */
  lemma FallbackRunUnique(hostname: string, base: seq<string>, commands: seq<string>,
                          timeout: int, oracle: Oracle, run: Run)
    requires IsFallbackRun(hostname, base, commands, timeout, oracle, run)
    ensures run == TryCommands(hostname, base, commands, timeout, oracle)
  {}

  /**
   When attempts before `k` exit non-zero and attempt `k` does not, the loop
   makes exactly attempts 0..k and attempt `k` decides the result.
   */
  lemma DecidedAt(hostname: string, base: seq<string>, commands: seq<string>,
                  timeout: int, oracle: Oracle, k: nat)
    requires k < |commands|
    requires forall j :: 0 <= j < k ==> oracle(AttemptArgs(base, commands[j]), timeout).NonZeroExit?
    requires !oracle(AttemptArgs(base, commands[k]), timeout).NonZeroExit?
    ensures var run := TryCommands(hostname, base, commands, timeout, oracle);
            && |run.attempts| == k + 1
            && (forall i :: 0 <= i <= k ==> run.attempts[i] == AttemptArgs(base, commands[i]))
            && run.result == Settle(hostname, AttemptArgs(base, commands[k]), timeout,
                                    oracle(AttemptArgs(base, commands[k]), timeout))
  {}

  /** When every command exits non-zero, all of them are tried and `CommandError` names the host. */
  lemma Exhausted(hostname: string, base: seq<string>, commands: seq<string>,
                  timeout: int, oracle: Oracle)
    requires forall j :: 0 <= j < |commands| ==> oracle(AttemptArgs(base, commands[j]), timeout).NonZeroExit?
    ensures var run := TryCommands(hostname, base, commands, timeout, oracle);
            && |run.attempts| == |commands|
            && (forall i :: 0 <= i < |commands| ==> run.attempts[i] == AttemptArgs(base, commands[i]))
            && run.result == Raised(CommandError(FailureMessage(hostname)))
  {}

  /** `Command.handle`: validate the host, then fall back through the reboot commands. */
  function Handle(hostname: string, options: SshOptions, validHost: string -> bool, oracle: Oracle): (run: Run)
    ensures !validHost(hostname) ==> run == Run(Raised(HostRejected(hostname)), [])
    ensures validHost(hostname) ==>
              IsFallbackRun(hostname, BaseArgs(hostname, options), RebootCommands, options.timeout, oracle, run)
    ensures validHost(hostname) ==>
              && 1 <= |run.attempts| <= 2
              && run.attempts[0] == BaseArgs(hostname, options) + ["reboot"]
              && (|run.attempts| == 2 ==> run.attempts[1] == BaseArgs(hostname, options) + ["shutdown -f -t 3 -r"])
  {
    if !validHost(hostname) then Run(Raised(HostRejected(hostname)), [])
    else TryCommands(hostname, BaseArgs(hostname, options), RebootCommands, options.timeout, oracle)
  }

  /** A zero exit of `reboot` is returned at once; `shutdown` is never run. */
  lemma FirstCommandSucceeds(hostname: string, options: SshOptions, validHost: string -> bool,
                             oracle: Oracle, output: string)
    requires validHost(hostname)
    requires oracle(BaseArgs(hostname, options) + ["reboot"], options.timeout) == Ok(output)
    ensures Handle(hostname, options, validHost, oracle)
         == Run(Returned(output), [BaseArgs(hostname, options) + ["reboot"]])
  {}

  /** A timeout of `reboot` leaves `handle` at once; `shutdown` is never run. */
  lemma FirstCommandTimesOut(hostname: string, options: SshOptions, validHost: string -> bool, oracle: Oracle)
    requires validHost(hostname)
    requires oracle(BaseArgs(hostname, options) + ["reboot"], options.timeout) == Timeout
    ensures Handle(hostname, options, validHost, oracle)
         == Run(Raised(TimeoutExpired(BaseArgs(hostname, options) + ["reboot"], options.timeout)),
                [BaseArgs(hostname, options) + ["reboot"]])
  {}

  /** A non-zero exit of `reboot` is caught; `shutdown` runs and its outcome decides. */
  lemma FallsBackToShutdown(hostname: string, options: SshOptions, validHost: string -> bool,
                            oracle: Oracle)
    requires validHost(hostname)
    requires oracle(BaseArgs(hostname, options) + ["reboot"], options.timeout).NonZeroExit?
    ensures var run := Handle(hostname, options, validHost, oracle);
            var second := BaseArgs(hostname, options) + ["shutdown -f -t 3 -r"];
            && run.attempts == [BaseArgs(hostname, options) + ["reboot"], second]
            && run.result == Settle(hostname, second, options.timeout, oracle(second, options.timeout))
  {}

  /** Both commands exiting non-zero raise `CommandError` whose message begins with the hostname. */
  lemma AllCommandsFail(hostname: string, options: SshOptions, validHost: string -> bool, oracle: Oracle)
    requires validHost(hostname)
    requires oracle(BaseArgs(hostname, options) + ["reboot"], options.timeout).NonZeroExit?
    requires oracle(BaseArgs(hostname, options) + ["shutdown -f -t 3 -r"], options.timeout).NonZeroExit?
    ensures var run := Handle(hostname, options, validHost, oracle);
            && |run.attempts| == 2
            && run.result == Raised(CommandError(hostname + " All ssh reboot commands failed."))
  {}
}
