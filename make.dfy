/**
 * The `Make` helper: what each `make` target is run with (command, timeout, expected number of
 * progress steps), the line matchers that advance the progress bar, and the decision procedure
 * that starts or resumes the file-synchronisation session.
 */
module Make {
  import opened Wrappers
  import opened Text
  import opened Process

  datatype Operation = Build | Start(install: bool) | Stop | Purge

  /** The arguments handed to the progress-bar runner. */
  datatype Target = Target(command: seq<string>, timeout: nat, total: nat)

  /** Command, timeout in seconds and step total for `containers` services and `volumes`
      volumes; `verbosity` is `SHELL_VERBOSITY`. */
  function TargetOf(op: Operation, containers: nat, volumes: nat, verbosity: int): (r: Target)
    ensures |r.command| == 2 && r.command[0] == "make"
    ensures 60 <= r.timeout <= 600
    ensures containers <= r.total
    ensures op == Purge || op == Start(true) ==> containers + volumes < r.total
  {
    match op
    case Start(install) =>
      Target(["make", "start"], if verbosity >= 1 then 360 else 60,
             if install then containers + volumes + 2 else containers + 1)
    case Build => Target(["make", "build"], 600, containers)
    case Stop => Target(["make", "stop"], 60, containers + 1)
    case Purge => Target(["make", "purge"], 300, containers * 2 + volumes + 2)
  }

  /** An installing start also waits for the volumes and one more step, under the same
      timeout. */
  lemma TotalsRelate(c: nat, v: nat, verbosity: int)
    ensures TargetOf(Start(true), c, v, verbosity).total == TargetOf(Start(false), c, v, verbosity).total + v + 1
    ensures TargetOf(Start(true), c, v, verbosity).timeout == TargetOf(Start(false), c, v, verbosity).timeout
  {
  }

  /** `false !== stripos($line, $word)`. */
  predicate Has(line: string, word: string) {
    FindCI(line, word).Some?
  }

  /** `stripos($line, $word)` used as a boolean: offset 0 is falsy, so only a first occurrence
      after the start of the line counts. */
  predicate Truthy(line: string, word: string) {
    FindCI(line, word).Some? && FindCI(line, word).value > 0
  }

  /** The matcher closure of each target: the line advances the progress bar. Only a line
      that reports a finished step (`done`, a network or volume, a skipped or tagged image)
      ever does. */
  predicate Counts(op: Operation, line: string)
    ensures Counts(op, line) ==>
      Has(line, "done") || Has(line, "network") || Has(line, "volume") || Has(line, "skipping") || Has(line, "tagged")
  {
    match op
    case Start(_) =>
      (Has(line, "Creating") && (Has(line, "network") || Has(line, "volume") || Has(line, "done")))
      || (Has(line, "Starting") && Has(line, "done"))
    case Build => Truthy(line, "skipping") || Truthy(line, "tagged")
    case Stop => Has(line, "stopping") && Has(line, "done")
    case Purge =>
      (Truthy(line, "done") && (Has(line, "stopping") || Has(line, "removing")))
      || (Has(line, "removing") && (Has(line, "network") || Has(line, "volume")))
  }

  /** `Has` is a case-insensitive occurrence anywhere in the line. */
  lemma HasIff(line: string, word: string)
    ensures Has(line, word) <==> exists j :: AtCI(line, j, word)
  {
  }

  /** `Truthy` is an occurrence that is not at the start of the line. */
  lemma TruthyIff(line: string, word: string)
    ensures Truthy(line, word) <==> Has(line, word) && !AtCI(line, 0, word)
  {
  }

  lemma HasIgnoresCase(line: string, word: string)
    ensures Has(LowerStr(line), word) == Has(line, word)
    ensures Truthy(LowerStr(line), word) == Truthy(line, word)
  {
    FindCIFromIgnoresCase(line, word, 0);
  }

  /** Every matcher ignores the case of the line. */
  lemma CountsIgnoresCase(op: Operation, line: string)
    ensures Counts(op, LowerStr(line)) == Counts(op, line)
  {
    match op
    case Start(_) =>
      HasIgnoresCase(line, "Creating");
      HasIgnoresCase(line, "Starting");
      HasIgnoresCase(line, "network");
      HasIgnoresCase(line, "volume");
      HasIgnoresCase(line, "done");
    case Build =>
      HasIgnoresCase(line, "skipping");
      HasIgnoresCase(line, "tagged");
    case Stop =>
      HasIgnoresCase(line, "stopping");
      HasIgnoresCase(line, "done");
    case Purge =>
      HasIgnoresCase(line, "done");
      HasIgnoresCase(line, "stopping");
      HasIgnoresCase(line, "removing");
      HasIgnoresCase(line, "network");
      HasIgnoresCase(line, "volume");
  }

  /** A build line that starts with `tagged` is not counted, though it mentions `tagged`,
      unless it also mentions `skipping` later on. */
  lemma BuildSkipsLeadingKeyword(line: string)
    requires AtCI(line, 0, "tagged") && !Truthy(line, "skipping")
    ensures Has(line, "tagged") && !Counts(Build, line)
  {
  }

  /** A line starting with `done` that mentions `stopping` advances `make stop`, but not
      `make purge` unless it is about removing a network or a volume. */
  lemma PurgeSkipsLeadingDone(line: string)
    requires AtCI(line, 0, "done") && Has(line, "stopping")
    requires !(Has(line, "removing") && (Has(line, "network") || Has(line, "volume")))
    ensures Counts(Stop, line) && !Counts(Purge, line)
  {
    assert FindCI(line, "done") == Some(0);
  }

  /** The synchronisation session as the session tool reports it: none, paused, running, or
      existing in some other state (halted on an error, say), which `isPaused` does not report. */
  datatype SessionState = NoSession | Paused | Running | Other

  /** What `startMutagen` asks the session tool to do. */
  datatype SessionCall = Resume | Create

  /** The session after the calls. A creation or a resume may fail; `startMutagen` checks the
      creation but not the resume. Calls only ever bring a session to `Running`, and leave a
      running session, or one in any other state, as it is. */
  function After(state: SessionState, calls: seq<SessionCall>, createSucceeds: bool, resumeSucceeds: bool): (r: SessionState)
    ensures r == state || r == Running
    ensures state == Running || state == Other ==> r == state
    decreases |calls|
  {
    if |calls| == 0 then state
    else
      var next := match calls[0]
        case Resume => if state == Paused && resumeSucceeds then Running else state
        case Create => if state == NoSession && createSucceeds then Running else state;
      After(next, calls[1..], createSucceeds, resumeSucceeds)
  }

  /** `startMutagen`: nothing is touched unless the `synchro` container is up; an existing
      session is resumed only when paused; a missing session is created, and a failed creation
      is an error. Success does not mean the session runs: a failed resume and a session in
      another state both go unnoticed. */
  method StartMutagen(synchroUp: bool, state: SessionState, createSucceeds: bool, resumeSucceeds: bool)
    returns (r: Result<bool, Failure>, calls: seq<SessionCall>)
    ensures !synchroUp ==> r == Failure(ProcessException("Synchro container is not started")) && calls == []
    ensures r.Success? <==> synchroUp && (state != NoSession || createSucceeds)
    ensures r.Success? ==> r.value
    ensures r.Success? ==>
      (After(state, calls, createSucceeds, resumeSucceeds) == Running
       <==> state == Running || state == NoSession || (state == Paused && resumeSucceeds))
    ensures synchroUp && state == NoSession && !createSucceeds ==>
      r == Failure(ProcessException("Mutagen session could not be created"))
    ensures Resume in calls <==> synchroUp && state == Paused
    ensures Create in calls <==> synchroUp && state == NoSession
    ensures |calls| <= 1
  {
    calls := [];
    if !synchroUp {
      return Failure(ProcessException("Synchro container is not started")), calls;
    }
    if state != NoSession {
      if state == Paused {
        calls := calls + [Resume];
      }
    } else {
      calls := calls + [Create];
      if !createSucceeds {
        return Failure(ProcessException("Mutagen session could not be created")), calls;
      }
    }
    r := Success(true);
  }
}
