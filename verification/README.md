# relops hardware controller: ssh reboot and CORS headers, in Dafny

This project models two pieces of the relops hardware controller.

- **`ssh_reboot` management command (`Command.handle`).** It validates the
  hostname. Then it builds one ssh argument vector from the hostname, login
  name, identity file and port. It runs that vector with `reboot` appended,
  then with `shutdown -f -t 3 -r` appended, and stops at the first command
  that exits with status zero, returning that command's merged output. A
  non-zero exit is caught and the next command is tried. A timeout is not
  caught: it leaves `handle` at once. When every command exits non-zero,
  `handle` raises `CommandError("<hostname> All ssh reboot commands failed.")`.
- **`set_cors_headers` decorator.** A string `methods` is turned into a
  one-element list. The wrapped view's response then gets
  `Access-Control-Allow-Origin` set to `origin` and
  `Access-Control-Allow-Methods` set to the methods joined by `,`.

Files:

- `wrappers.dfy` (`Wrappers`): `Option`, standing for Python's `None`.
- `pystrings.dfy` (`PyStrings`): Python's `str(int)` and `sep.join`, each
  checked against its inverse (`ParseInt`, `Split`).
- `ssh_reboot.dfy` (`SshReboot`): the argument vector, the fallback loop and
  `handle`.
- `cors.dfy` (`Cors`): the decorator.

The child process is an oracle of type `(argv, timeout) -> Outcome`. An
`Outcome` is `Ok(output)`, `NonZeroExit(error)` or `Timeout`. The host
validator is a predicate `string -> bool`. A `Run` records how `handle`
ended: `Returned(output)`, or `Raised` with `HostRejected`, `TimeoutExpired`
or `CommandError`. It also records every argument vector passed to the
oracle, in order. This record is what lets the model say "no later command
was tried".

`IsFallbackRun` describes the loop's promise without recursion. `TryCommands`
satisfies it, and `FallbackRunUnique` shows that only one run can satisfy it.

Three facts about the code shape the model:

- A `TimeoutExpired` is not caught (only `CalledProcessError` is), so a
  timeout ends `handle` after that attempt (`FirstCommandTimesOut`).
- `CommandError` carries only the message, not the attempts.
- Neither the port nor the timeout is range-checked, so the model accepts
  any `int` for both.

## Model

| member | source | states |
|---|---|---|
| `SshReboot.BaseArgs` | relops_hardware_controller/api/management/commands/ssh_reboot.py:63-78 | the shared argument vector has 18 elements: `ssh` and the five `-o` pairs in order (the last two switch host-key checking off), then `-i` identity file, `-l` login name, `-p` and `str(port)` as `IntToStr` spells it, and the hostname last |
| `SshReboot.BaseArgsRoundTrip` | relops_hardware_controller/api/management/commands/ssh_reboot.py:63-78 | hostname, identity file, login name and port are read back from their fixed positions behind the `ssh`/`-o` prefix and the `-i`, `-l`, `-p` flags; the port is read back from its decimal spelling |
| `SshReboot.BaseArgsInjective` | relops_hardware_controller/api/management/commands/ssh_reboot.py:74-77 | two connections that differ in hostname, identity file, login name or port never produce the same vector |
| `PyStrings.IntToStr` | relops_hardware_controller/api/management/commands/ssh_reboot.py:76 | `str(port)` starts with `-` exactly for a negative port, followed by the decimal digits of its magnitude, which have no leading zero |
| `PyStrings.IntToStrRoundTrip` | relops_hardware_controller/api/management/commands/ssh_reboot.py:76 | `str(port)` is a decimal spelling that reads back as the same integer, negatives included |
| `PyStrings.DecimalRoundTrip` | relops_hardware_controller/api/management/commands/ssh_reboot.py:76 | the digits of a natural number read back as that number |
| `PyStrings.NatToDecimal` | relops_hardware_controller/api/management/commands/ssh_reboot.py:76 | the digits of `str(n)` are non-empty decimal digits, with a leading zero only for zero |
| `SshReboot.AttemptArgs` | relops_hardware_controller/api/management/commands/ssh_reboot.py:88 | an attempt's vector is the shared vector unchanged, followed by the reboot command as one final element |
| `SshReboot.TryCommands` | relops_hardware_controller/api/management/commands/ssh_reboot.py:86-95 | tries a prefix of the commands in order, with the same shared vector and timeout each time; every attempt but the last exited non-zero; it stops early only after a zero exit (returning its output) or a timeout (raising it); running out of commands raises `CommandError` |
| `SshReboot.FallbackRunUnique` | relops_hardware_controller/api/management/commands/ssh_reboot.py:86-95 | that description allows exactly one run for given inputs and oracle |
| `SshReboot.DecidedAt` | relops_hardware_controller/api/management/commands/ssh_reboot.py:86-92 | if command k is the first not to exit non-zero, exactly commands 0..k are tried and command k's outcome decides the result |
| `SshReboot.Exhausted` | relops_hardware_controller/api/management/commands/ssh_reboot.py:92-95 | if every command exits non-zero, every command is tried in order and `CommandError` with the host's message is raised |
| `SshReboot.Handle` | relops_hardware_controller/api/management/commands/ssh_reboot.py:60-95 | a rejected host gives zero attempts; otherwise 1 or 2 attempts are made, `reboot` first and `shutdown -f -t 3 -r` second, following the fallback description |
| `SshReboot.FirstCommandSucceeds` | relops_hardware_controller/api/management/commands/ssh_reboot.py:87-91 | a zero exit of `reboot` returns its output after that single attempt |
| `SshReboot.FirstCommandTimesOut` | relops_hardware_controller/api/management/commands/ssh_reboot.py:86-92 | a timeout of `reboot` is raised after that single attempt, and `shutdown` never runs |
| `SshReboot.FallsBackToShutdown` | relops_hardware_controller/api/management/commands/ssh_reboot.py:86-93 | a non-zero exit of `reboot` is caught; `shutdown` is tried second and its outcome decides |
| `SshReboot.AllCommandsFail` | relops_hardware_controller/api/management/commands/ssh_reboot.py:95 | both commands exiting non-zero raise `CommandError(hostname + ' All ssh reboot commands failed.')` after two attempts |
| `SshReboot.FailureMessage` | relops_hardware_controller/api/management/commands/ssh_reboot.py:95 | the failure message begins with the hostname |
| `SshReboot.FailureMessageNamesHost` | relops_hardware_controller/api/management/commands/ssh_reboot.py:95 | the hostname can be recovered from the failure message |
| `Cors.SetCorsHeaders` | relops_hardware_controller/api/decorators.py:9-12 | the origin is kept; a string `methods` becomes a one-element list and a list is kept as given |
| `Cors.StringMethodsVerbatim` | relops_hardware_controller/api/decorators.py:9-12 | a string `methods` is sent verbatim as the methods header; the defaults send `None` and `GET` |
| `Cors.Inner` | relops_hardware_controller/api/decorators.py:17-21 | the response is the view's response with both headers present: origin as given, including `None`, and methods joined by `,`; earlier values of these two are overwritten and every other header is unchanged |
| `Cors.MethodsValue` | relops_hardware_controller/api/decorators.py:20 | the methods header holds the methods in order, each but the last followed by a bare `,`, with nothing after the last; no methods give the empty string |
| `Cors.MethodsValueSplits` | relops_hardware_controller/api/decorators.py:20 | for a non-empty list of comma-free method names, splitting the methods header on `,` gives the names back in order |
| `Cors.OuterDecoratorWins` | relops_hardware_controller/api/decorators.py:14-23 | with two stacked decorators the outer one's values are sent; decorating twice with the same arguments changes nothing |
| `PyStrings.Join` | relops_hardware_controller/api/decorators.py:20 | `sep.join(items)` places each item, in order, at its offset, puts exactly `sep` between consecutive items and nothing after the last; joining no items gives the empty string |
| `PyStrings.SplitJoin` | relops_hardware_controller/api/decorators.py:20 | joining a non-empty list of comma-free items with `,` and splitting on `,` gives the items back |
| `PyStrings.JoinSplit` | relops_hardware_controller/api/decorators.py:20 | splitting on `,` and joining with `,` restores the string, so every string is the join of some list |

## Left out

- `subprocess.check_output` is replaced by the oracle. Left out with it: the ssh process, its output encoding, merging stderr into stdout, and the timer. Process clean-up on timeout is also left out.
- The `logger.debug` line (79) and the `logger.info` line (93) are left out because they only log.
- The Django plumbing is left out: `BaseCommand`, the argparse declarations and their defaults (lines 18-58), and `CommandError` as a framework class. `CommandError` is a constructor of `Failure` here.
- `validate_host` is not part of this model. It is the predicate `validHost`, and rejection is `HostRejected`. What the real validator raises is not modelled.
- `subprocess.TimeoutExpired` is modelled with only its command and its timeout. The partial output it may carry is left out.
- Cors.Inner: the model has no object identity. It cannot say that the same response object is returned, or that the view runs exactly once. It says that the result is built from the single value `view(args)`.
- Cors.Inner: header names are compared exactly. Django compares response header names case-insensitively, so it would replace a header such as `access-control-allow-origin` that is already on the response. The model keeps that header as a separate key.
- Cors.SetCorsHeaders: a list `methods` is copied when the decorator is applied. The code keeps a reference and `inner` reads the list again on every call, so a caller who changes the list afterwards changes later headers. The model does not cover that.
- Django's conversion of header values to text (for example, `None` becomes `"None"`) is left out. Headers are a map from names to `Option<string>`.
- `functools.wraps` metadata copying is left out, as is any `methods` value that is neither a string nor a list of strings.
