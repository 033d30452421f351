/**
 * An instance renders one page for one deferred job.  The constructor
 * fixes the renderer's paths and limits and the time left of the job's
 * budget; `run` arms a deadline for that budget and starts attempts, one
 * after another, until one yields a whole page or the deadline passes.
 *
 * Every timer, process and stream callback of `run` is a method taking
 * the clock reading `now` where the source reads the clock.  The class
 * invariant `Valid` states what holds between any two callbacks: the job
 * is answered at most once, a `finish` only with a page that passed
 * validation, and attempts start at least 500 ms apart.
 */
module Impress {
  import opened Wrappers
  import opened JsText
  import opened Args
  import opened Timing
  import opened Outcome
  import opened Supervisor
  import opened Validation
  import Command

  datatype JobOutcome = Finished(result: Payload) | Rejected(reason: string)

  /** The job: its address, when it was created, its budget, and the
      answers it has been given through `finish` and `reject`. */
  class Deferred {
    const url: string
    const createdTime: int
    const timeout: int
    var outcomes: seq<JobOutcome>

    constructor (url: string, createdTime: int, timeout: int)
      ensures this.url == url && this.createdTime == createdTime && this.timeout == timeout
      ensures outcomes == []
    {
      this.url := url;
      this.createdTime := createdTime;
      this.timeout := timeout;
      outcomes := [];
    }

    method Finish(result: Payload)
      modifies this
      ensures outcomes == old(outcomes) + [Finished(result)]
    {
      outcomes := outcomes + [Finished(result)];
    }

    method Reject(reason: string)
      modifies this
      ensures outcomes == old(outcomes) + [Rejected(reason)]
    {
      outcomes := outcomes + [Rejected(reason)];
    }
  }

  /** The constructor's options; a missing option is `None` (or `false`,
      or `Falsy` for the arguments), which is also what `options || {}`
      gives for a missing options object. */
  datatype Options = Options(
    phantomBinary: Option<string>,
    phantomScript: Option<string>,
    phantomExecTimeout: Option<int>,
    impressMaxContentLength: Option<int>,
    impressNotices: bool,
    impressWarnings: bool,
    phantomArgs: ArgsInput)

  /** `option || fallback` on a string: missing and `""` give the fallback. */
  function PathOrDefault(option: Option<string>, fallback: string): (r: string)
    ensures option.Some? && option.value != "" ==> r == option.value
    ensures option.None? || option.value == "" ==> r == fallback
  {
    if option.Some? && option.value != "" then option.value else fallback
  }

  /** The default renderer and script paths, below the package directory. */
  function DefaultBinary(packageDir: string): string {
    packageDir + "/phantomjs/binary/phantomjs"
  }

  function DefaultScript(packageDir: string): string {
    packageDir + "/phantomjs/impress.js"
  }

  /** The reason the job is rejected with when its budget runs out. */
  function TimeoutMessage(url: string, timeout: int): string {
    "FAIL page \"" + url + "\" impress timeout " + IntToString(timeout)
  }

  /** One call of `exec`: the command and its `timeout` and `maxBuffer`. */
  datatype Exec = Exec(command: string, timeout: int, maxBuffer: int)

  /** The listener `run` subscribes to every attempt. */
  const RunListener: nat := 0

  /** Attempt start times at least the minimum interval apart. */
  ghost predicate Spaced(starts: seq<int>) {
    forall i :: 0 < i < |starts| ==> starts[i - 1] + MinInvokeInterval <= starts[i]
  }

  /** The payload the job is finished with: the accepted one, compressed. */
  function Delivered(result: Payload, compress: string -> string): Payload {
    result.(content := compress(result.content))
  }

  class ImpressInstance {
    var args: ArgList
    const binary: string
    const scriptPath: string
    const execTimeout: int
    const maxContentLength: int
    const notices: bool
    const warnings: bool
    const timeout: int
    const deferred: Deferred
    /** `new HtmlCompressor(content).getContent()`. */
    const compress: string -> string
    /** `JSON.parse` of an attempt's stdout. */
    const parse: string -> ParseResult

    /** `run`'s state: the current attempt (`resultPromise`), whether the
        deadline and a retry timer are pending and when the retry is due,
        and when the current attempt started. */
    var current: Attempt?
    var deadlineArmed: bool
    var deadlineDue: int
    var retryArmed: bool
    var retryDue: int
    var startTime: int
    /** The processes started and the reports written. */
    var execs: seq<Exec>
    var reports: seq<Report>
    /** The start times of all attempts, and the answers the job had before. */
    ghost var starts: seq<int>
    ghost const answeredBefore: nat

    ghost predicate Unanswered()
      reads deferred
    {
      |deferred.outcomes| == answeredBefore
    }

    ghost predicate Valid()
      reads this`args, this`current, this`deadlineArmed, this`retryArmed, this`retryDue, this`startTime, this`starts
      reads deferred, current
    {
      UniqueKeys(args) && RunValid()
    }

    /** The invariant of `run`'s state, which the flags do not affect. */
    ghost predicate RunValid()
      reads this`current, this`deadlineArmed, this`retryArmed, this`retryDue, this`startTime, this`starts
      reads deferred, current
    {
      && answeredBefore <= |deferred.outcomes| <= answeredBefore + 1
      && Spaced(starts)
      && (current == null ==> !deadlineArmed && !retryArmed && Unanswered() && starts == [])
      && (current != null ==>
           && current.Valid() && current.parse == parse && current.listeners == [RunListener]
           && starts != [] && startTime == starts[|starts| - 1])
      && (current != null && Unanswered() ==>
           && deadlineArmed && !current.canceled
           && (retryArmed <==> current.performed)
           && (current.performed ==> Judge(current.delivered.value).Retry?))
      && (retryArmed ==> current != null && retryDue >= startTime + MinInvokeInterval)
      && (!Unanswered() ==>
           && current != null && !deadlineArmed
           && match deferred.outcomes[answeredBefore]
              case Rejected(reason) =>
                current.canceled && reason == TimeoutMessage(deferred.url, timeout)
              case Finished(result) =>
                && !current.canceled && current.performed && !retryArmed
                && Judge(current.delivered.value).Accept?
                && result == Delivered(Judge(current.delivered.value).result, compress))
    }

    /** The job's answers since this instance was made. */
    ghost function Answers(): seq<JobOutcome>
      reads deferred
      requires answeredBefore <= |deferred.outcomes|
    {
      deferred.outcomes[answeredBefore..]
    }

    constructor (deferred: Deferred, options: Options, packageDir: string, now: int,
                 compress: string -> string, parse: string -> ParseResult)
      ensures Valid() && Unanswered()
      ensures this.deferred == deferred && deferred.outcomes == old(deferred.outcomes)
      ensures binary == PathOrDefault(options.phantomBinary, DefaultBinary(packageDir))
      ensures scriptPath == PathOrDefault(options.phantomScript, DefaultScript(packageDir))
      ensures maxContentLength == OrDefault(options.impressMaxContentLength, DefaultMaxContentLength)
      ensures notices == options.impressNotices && warnings == options.impressWarnings
      ensures timeout == RemainingBudget(deferred.timeout, deferred.createdTime, now)
      ensures execTimeout == ExecTimeout(OrDefault(options.phantomExecTimeout, DefaultExecTimeout), timeout)
      ensures args == if IsFalsy(options.phantomArgs) then SeedArgs else Merge(SeedArgs, Collection(options.phantomArgs))
      ensures current == null && execs == [] && reports == []
      ensures this.compress == compress && this.parse == parse
    {
      binary := PathOrDefault(options.phantomBinary, DefaultBinary(packageDir));
      scriptPath := PathOrDefault(options.phantomScript, DefaultScript(packageDir));
      maxContentLength := OrDefault(options.impressMaxContentLength, DefaultMaxContentLength);
      notices := options.impressNotices;
      warnings := options.impressWarnings;
      var budget := RemainingBudget(deferred.timeout, deferred.createdTime, now);
      timeout := budget;
      execTimeout := ExecTimeout(OrDefault(options.phantomExecTimeout, DefaultExecTimeout), budget);
      this.deferred := deferred;
      this.compress := compress;
      this.parse := parse;
      answeredBefore := |deferred.outcomes|;
      SeedArgsFacts();
      // The seeded flags, then `this.addArgs(options.phantomArgs)`.
      var initial := ArgsAfter(SeedArgs, options.phantomArgs);
      args := initial;
      current := null;
      deadlineArmed := false;
      deadlineDue := 0;
      retryArmed := false;
      retryDue := 0;
      startTime := 0;
      execs := [];
      reports := [];
      starts := [];
    }

    /** `addArgs(args)`: `None` is the `undefined` returned for falsy
        arguments, which change nothing; otherwise the arguments are
        collected by name and merged under their `--name` form, and the
        merged flags are returned. */
    method AddArgs(input: ArgsInput) returns (r: Option<ArgList>)
      requires UniqueKeys(args)
      modifies this`args
      ensures UniqueKeys(args)
      ensures IsFalsy(input) ==> r.None? && args == old(args)
      ensures !IsFalsy(input) ==> args == Merge(old(args), Collection(input)) && r == Some(args)
    {
      args := ArgsAfter(args, input);
      r := if IsFalsy(input) then None else Some(args);
    }

    /** The flags after `addArgs(input)` on `args`. */
    static method ArgsAfter(args: ArgList, input: ArgsInput) returns (r: ArgList)
      requires UniqueKeys(args)
      ensures UniqueKeys(r)
      ensures r == if IsFalsy(input) then args else Merge(args, Collection(input))
    {
      if IsFalsy(input) {
        return args;
      }
      var collection := CollectArgs(input);
      r := MergeCollection(args, collection);
    }

    /** The merge loop of `addArgs`: each collected name in its `--name`
        form is assigned in turn. */
    static method MergeCollection(args: ArgList, collection: ArgList) returns (r: ArgList)
      requires UniqueKeys(args)
      ensures r == Merge(args, collection) && UniqueKeys(r)
    {
      r := args;
      for i := 0 to |collection|
        invariant r == PutAll(args, Canonicalised(collection[..i]))
        invariant UniqueKeys(r)
      {
        var key := collection[i].0;
        if !IsCanonical(key) {
          if |key| > 0 && key[0] == '-' {
            key := key[1..];
          }
          key := "--" + key;
        }
        assert key == CanonicalKey(collection[i].0);
        CanonicalisedSnoc(collection, i);
        PutAllSnoc(args, Canonicalised(collection[..i]), (key, collection[i].1));
        r := Put(r, key, collection[i].1);
      }
      assert collection[..|collection|] == collection;
    }

    /** The `collection` object `addArgs` fills before merging. */
    static method CollectArgs(input: ArgsInput) returns (collection: ArgList)
      ensures collection == Collection(input)
    {
      match input {
        case ObjectArgs(entries) => collection := CollectObject(entries);
        case ArrayArgs(items) => collection := CollectArray(items);
        case StringArgs(text) => collection := CollectTokens(SplitOnSpaces(CollapseAroundEquals(text)));
        case _ => collection := [];
      }
    }

    static method CollectObject(entries: seq<(string, ArgValue)>) returns (collection: ArgList)
      ensures collection == PutAll([], ObjectPairs(entries))
    {
      collection := [];
      for i := 0 to |entries|
        invariant collection == PutAll([], ObjectPairs(entries[..i]))
      {
        ObjectPairsSnoc(entries, i);
        PutAllSnoc([], ObjectPairs(entries[..i]), (entries[i].0, Stringify(entries[i].1)));
        collection := Put(collection, entries[i].0, Stringify(entries[i].1));
      }
      assert entries[..|entries|] == entries;
    }

    static method CollectArray(items: seq<string>) returns (collection: ArgList)
      ensures collection == PutAll([], ArrayPairs(items))
    {
      collection := [];
      for i := 0 to |items|
        invariant collection == PutAll([], ArrayPairs(items[..i]))
      {
        var kv := KeyValue(items[i]);
        ArrayPairsSnoc(items, i);
        PutAllSnoc([], ArrayPairs(items[..i]), kv);
        collection := Put(collection, kv.0, kv.1);
      }
      assert items[..|items|] == items;
    }

    /** The string form's loop over the split words; empty words are skipped. */
    static method CollectTokens(tokens: seq<string>) returns (collection: ArgList)
      ensures collection == PutAll([], TokenPairs(tokens))
    {
      collection := [];
      for i := 0 to |tokens|
        invariant collection == PutAll([], TokenPairs(tokens[..i]))
      {
        TokenPairsSnoc(tokens, i);
        if tokens[i] != "" {
          var kv := KeyValue(tokens[i]);
          PutAllSnoc([], TokenPairs(tokens[..i]), kv);
          collection := Put(collection, kv.0, kv.1);
        }
      }
      assert tokens[..|tokens|] == tokens;
    }

    /** `_getCommandExecString()`, called without an argument. */
    function CommandExecString(): string
      reads this`args
    {
      Command.CommandLine(binary, args, scriptPath, deferred.url, None, notices, warnings)
    }

    /** `invoke()`: a new attempt, started `now`, with `run`'s listener. */
    method Invoke(now: int)
      modifies this
      ensures fresh(current) && current.Valid() && current.parse == parse && current.listeners == [RunListener]
      ensures current.Untouched()
      ensures startTime == now && starts == old(starts) + [now] && !retryArmed
      ensures args == old(args) && execs == old(execs) && reports == old(reports)
      ensures deadlineArmed == old(deadlineArmed) && deadlineDue == old(deadlineDue) && retryDue == old(retryDue)
    {
      var attempt := new Attempt(parse);
      attempt.Subscribe(Some(RunListener));
      current := attempt;
      startTime := now;
      starts := starts + [now];
      retryArmed := false;
    }

    /** `run()`: arms the deadline for the remaining budget and starts the
        first attempt. */
    method Run(now: int)
      requires Valid() && current == null
      modifies this
      ensures Valid() && Unanswered()
      ensures fresh(current) && current.Untouched() && current.listeners == [RunListener]
      ensures deadlineArmed && deadlineDue == now + timeout
      ensures starts == [now] && startTime == now
      ensures args == old(args) && execs == old(execs) && reports == old(reports)
    {
      deadlineArmed := true;
      deadlineDue := now + timeout;
      Invoke(now);
    }

    /** The state in which `run`'s listener is called: the current attempt
        has just delivered and nothing else has happened since. */
    ghost predicate Delivering()
      reads this`args, this`current, this`deadlineArmed, this`retryArmed, this`startTime, this`starts
      reads deferred, current
    {
      && current != null && current.Valid() && current.performed && !current.canceled
      && current.parse == parse && current.listeners == [RunListener]
      && Unanswered() && deadlineArmed && !retryArmed
      && UniqueKeys(args) && Spaced(starts)
      && starts != [] && startTime == starts[|starts| - 1]
    }

    /** `run`'s listener, called when the current attempt delivers: accept
        a whole page (stop the deadline, report, compress and finish the
        job) or schedule the next attempt. */
    method Complete(now: int)
      requires Delivering()
      modifies this`retryArmed, this`retryDue, this`deadlineArmed, this`reports, deferred
      ensures Valid()
      ensures Judge(current.delivered.value).Retry? ==>
        (&& deferred.outcomes == old(deferred.outcomes) && retryArmed && retryDue == RetryDue(startTime, now)
         && reports == old(reports))
      ensures Judge(current.delivered.value).Accept? ==>
        (&& Answers() == [Finished(Delivered(Judge(current.delivered.value).result, compress))]
         && !deadlineArmed
         && reports == old(reports) + ImpressReports(warnings, notices, Judge(current.delivered.value).result, deferred.url))
    {
      if Judge(current.delivered.value).Retry? {
        ScheduleRetry(now);
      } else {
        AcceptPage();
      }
    }

    /** A failed attempt: the next one is due at least 500 ms after this
        one started. */
    method ScheduleRetry(now: int)
      requires Delivering() && Judge(current.delivered.value).Retry?
      modifies this`retryArmed, this`retryDue
      ensures Valid() && Unanswered()
      ensures retryArmed && retryDue == RetryDue(startTime, now)
    {
      RetryDueIsSpaced(startTime, now);
      retryArmed := true;
      retryDue := RetryDue(startTime, now);
    }

    /** `finish(err, result)` of `run`: stop the deadline, report, compress
        the content and finish the job. */
    method AcceptPage()
      requires Delivering() && Judge(current.delivered.value).Accept?
      modifies this`deadlineArmed, this`reports, deferred
      ensures Valid()
      ensures Answers() == [Finished(Delivered(Judge(current.delivered.value).result, compress))]
      ensures !deadlineArmed
      ensures reports == old(reports) + ImpressReports(warnings, notices, Judge(current.delivered.value).result, deferred.url)
    {
      var result := Judge(current.delivered.value).result;
      deadlineArmed := false;
      Report(result);
      deferred.Finish(Delivered(result, compress));
      assert deferred.outcomes[answeredBefore] == Finished(Delivered(result, compress));
      assert current.Valid() && current.performed && !current.canceled && !retryArmed;
      assert !Unanswered() && answeredBefore <= |deferred.outcomes| <= answeredBefore + 1;
      assert RunValid();
    }

    /** `_performImpressReport(result)`. */
    method Report(result: Payload)
      modifies this`reports
      ensures reports == old(reports) + ImpressReports(warnings, notices, result, deferred.url)
    {
      reports := reports + ImpressReports(warnings, notices, result, deferred.url);
    }

    /** The current attempt's deferred spawn; `thrown` is the exception
        `exec` raised, if any.  A process that starts is recorded with its
        command line and limits. */
    method SpawnTick(thrown: Option<string>, now: int)
      requires Valid() && current != null && !current.ticked
      modifies this`execs, this`retryArmed, this`retryDue, current
      ensures Valid()
      ensures deferred.outcomes == old(deferred.outcomes) && reports == old(reports) && deadlineArmed == old(deadlineArmed)
      ensures current.ticked && current.listeners == old(current.listeners) && current.canceled == old(current.canceled)
      ensures current.stdoutChunks == old(current.stdoutChunks) && current.stderrChunks == old(current.stderrChunks)
      ensures current.childKills == old(current.childKills)
      ensures thrown.None? ==>
        && execs == old(execs) + [Exec(CommandExecString(), execTimeout, maxContentLength)]
        && current.spawned && current.kills == old(current.kills)
        && current.delivered == old(current.delivered) && current.notified == old(current.notified)
        && retryArmed == old(retryArmed) && retryDue == old(retryDue)
      ensures thrown.Some? ==>
        && execs == old(execs) && !current.spawned && current.kills == old(current.kills) + 1
        && (old(Unanswered()) && !old(current.performed) ==>
              && current.delivered == Some(Failed(Raised(thrown.value)))
              && Unanswered() && retryArmed && retryDue == RetryDue(startTime, now))
        && (old(current.performed) || old(current.canceled) ==>
              && current.delivered == old(current.delivered) && current.notified == old(current.notified)
              && retryArmed == old(retryArmed) && retryDue == old(retryDue))
    {
      if thrown.None? {
        SpawnStarted();
      } else {
        SpawnRaised(thrown.value, now);
      }
    }

    /** The deferred spawn when `exec` returns a child: the process is
        recorded and nothing is delivered. */
    method SpawnStarted()
      requires Valid() && current != null && !current.ticked
      modifies this`execs, current
      ensures Valid()
      ensures execs == old(execs) + [Exec(CommandExecString(), execTimeout, maxContentLength)]
      ensures current.spawned && current.ticked
      ensures current.performed == old(current.performed)
      ensures current.delivered == old(current.delivered) && current.notified == old(current.notified)
      ensures current.listeners == old(current.listeners) && current.canceled == old(current.canceled)
      ensures current.stdoutChunks == old(current.stdoutChunks) && current.stderrChunks == old(current.stderrChunks)
      ensures current.kills == old(current.kills) && current.childKills == old(current.childKills)
    {
      RecordExec();
      var fired := current.SpawnTick(None);
    }

    /** The deferred spawn when `exec` throws `e`: the attempt finishes with
        that error, and `run`'s listener (`Complete`), which judges every
        error a retry, schedules the next attempt. */
    method SpawnRaised(e: string, now: int)
      requires Valid() && current != null && !current.ticked
      modifies this`retryArmed, this`retryDue, current
      ensures Valid()
      ensures old(Unanswered()) && !old(current.performed) ==>
        && current.delivered == Some(Failed(Raised(e)))
        && retryArmed && retryDue == RetryDue(startTime, now)
      ensures old(current.performed) || old(current.canceled) ==>
        && current.delivered == old(current.delivered) && current.notified == old(current.notified)
        && retryArmed == old(retryArmed) && retryDue == old(retryDue)
      ensures current.ticked && !current.spawned
      ensures current.listeners == old(current.listeners) && current.canceled == old(current.canceled)
      ensures current.stdoutChunks == old(current.stdoutChunks) && current.stderrChunks == old(current.stderrChunks)
      ensures current.kills == old(current.kills) + 1 && current.childKills == old(current.childKills)
    {
      var fired := current.SpawnTick(Some(e));
      if fired {
        assert Judge(current.delivered.value).Retry?;
        ScheduleRetry(now);
      }
    }

    /** `exec(command, {timeout, maxBuffer})`. */
    method RecordExec()
      modifies this`execs
      ensures execs == old(execs) + [Exec(CommandExecString(), execTimeout, maxContentLength)]
    {
      execs := execs + [Exec(CommandExecString(), execTimeout, maxContentLength)];
    }

    method ChildStdout(chunk: string)
      requires Valid() && current != null && current.spawned
      modifies current
      ensures Valid()
      ensures current.stdoutChunks == old(current.stdoutChunks) + [chunk]
      ensures current.stderrChunks == old(current.stderrChunks)
      ensures current.listeners == old(current.listeners) && current.canceled == old(current.canceled)
      ensures current.performed == old(current.performed) && current.delivered == old(current.delivered)
      ensures current.notified == old(current.notified)
      ensures current.kills == old(current.kills) && current.childKills == old(current.childKills)
      ensures current.ticked == old(current.ticked) && current.spawned == old(current.spawned)
    {
      current.StdoutData(chunk);
    }

    method ChildStderr(chunk: string)
      requires Valid() && current != null && current.spawned
      modifies current
      ensures Valid()
      ensures current.stderrChunks == old(current.stderrChunks) + [chunk]
      ensures current.stdoutChunks == old(current.stdoutChunks)
      ensures current.listeners == old(current.listeners) && current.canceled == old(current.canceled)
      ensures current.performed == old(current.performed) && current.delivered == old(current.delivered)
      ensures current.notified == old(current.notified)
      ensures current.kills == old(current.kills) && current.childKills == old(current.childKills)
      ensures current.ticked == old(current.ticked) && current.spawned == old(current.spawned)
    {
      current.StderrData(chunk);
    }

    /** An `error` event of the current child or one of its streams. */
    method ChildError(thrown: Option<string>, now: int)
      requires Valid() && current != null && current.spawned
      modifies this`retryArmed, this`retryDue, this`deadlineArmed, this`reports, current, deferred
      ensures Valid()
      ensures !old(Unanswered()) ==> deferred.outcomes == old(deferred.outcomes)
      ensures old(Unanswered()) && !old(current.performed) ==>
        && current.delivered == Some(Failed(HandlerError(thrown, Flatten(current.stderrChunks))))
        && deferred.outcomes == old(deferred.outcomes) && retryArmed && retryDue == RetryDue(startTime, now)
      ensures old(current.performed) || old(current.canceled) ==>
        && current.delivered == old(current.delivered) && current.notified == old(current.notified)
        && deferred.outcomes == old(deferred.outcomes) && retryArmed == old(retryArmed) && retryDue == old(retryDue)
        && deadlineArmed == old(deadlineArmed) && reports == old(reports)
      ensures reports == old(reports) && deadlineArmed == old(deadlineArmed)
      ensures current.listeners == old(current.listeners) && current.canceled == old(current.canceled)
      ensures current.stdoutChunks == old(current.stdoutChunks) && current.stderrChunks == old(current.stderrChunks)
      ensures current.kills == old(current.kills) + 1 && current.childKills == old(current.childKills) + 1
      ensures current.ticked == old(current.ticked) && current.spawned == old(current.spawned)
    {
      var fired := current.ErrorEvent(thrown);
      if fired {
        Complete(now);
      }
    }

    /** The current child's `close` event. */
    method ChildClose(code: Option<int>, now: int)
      requires Valid() && current != null && current.spawned
      modifies this`retryArmed, this`retryDue, this`deadlineArmed, this`reports, current, deferred
      ensures Valid()
      ensures !old(Unanswered()) ==> deferred.outcomes == old(deferred.outcomes)
      ensures old(Unanswered()) && !old(current.performed) ==>
        var stdout := Flatten(current.stdoutChunks);
        && current.delivered == Some(CloseOutcome(code, Flatten(current.stderrChunks), stdout, parse(stdout)))
        && (Judge(current.delivered.value).Retry? ==>
              deferred.outcomes == old(deferred.outcomes) && retryArmed && retryDue == RetryDue(startTime, now))
        && (Judge(current.delivered.value).Accept? ==>
              && Answers() == [Finished(Delivered(Judge(current.delivered.value).result, compress))]
              && !deadlineArmed
              && reports == old(reports) + ImpressReports(warnings, notices, Judge(current.delivered.value).result, deferred.url))
      ensures old(current.performed) || old(current.canceled) ==>
        && current.delivered == old(current.delivered) && current.notified == old(current.notified)
        && deferred.outcomes == old(deferred.outcomes) && retryArmed == old(retryArmed) && retryDue == old(retryDue)
        && deadlineArmed == old(deadlineArmed) && reports == old(reports)
      ensures current.delivered.Some? && Judge(current.delivered.value).Retry? ==> reports == old(reports)
      ensures current.listeners == old(current.listeners) && current.canceled == old(current.canceled)
      ensures current.stdoutChunks == old(current.stdoutChunks) && current.stderrChunks == old(current.stderrChunks)
      ensures current.kills == old(current.kills) + 1 && current.childKills == old(current.childKills) + 1
      ensures current.ticked == old(current.ticked) && current.spawned == old(current.spawned)
    {
      var fired := current.Close(code);
      if fired {
        Complete(now);
      }
    }

    /** The deadline: cancel the current attempt, reject the job, and
        cancel again. */
    method DeadlineFires(now: int)
      requires Valid() && deadlineArmed && now >= deadlineDue
      modifies this`deadlineArmed, current, deferred
      ensures Valid()
      ensures Answers() == [Rejected(TimeoutMessage(deferred.url, timeout))]
      ensures current.canceled && !deadlineArmed
      ensures current.kills == old(current.kills) + 2
      ensures current.childKills == old(current.childKills) + (if old(current.spawned) then 2 else 0)
      ensures current.performed == old(current.performed) && current.delivered == old(current.delivered)
      ensures current.notified == old(current.notified) && current.listeners == old(current.listeners)
      ensures current.ticked == old(current.ticked) && current.spawned == old(current.spawned)
      ensures current.stdoutChunks == old(current.stdoutChunks) && current.stderrChunks == old(current.stderrChunks)
    {
      deadlineArmed := false;
      current.Cancel();
      deferred.Reject(TimeoutMessage(deferred.url, timeout));
      current.Cancel();
      assert deferred.outcomes[answeredBefore] == Rejected(TimeoutMessage(deferred.url, timeout));
      assert current.Valid() && current.canceled && current.listeners == [RunListener] && current.parse == parse;
    }

    /** The retry timer: the next attempt starts unless the current one
        was canceled meanwhile. */
    method RetryFires(now: int)
      requires Valid() && retryArmed && now >= retryDue
      modifies this
      ensures Valid() && !retryArmed
      ensures old(current.canceled) ==> current == old(current) && starts == old(starts)
      ensures !old(current.canceled) ==>
        && fresh(current) && current.Untouched() && current.listeners == [RunListener]
        && starts == old(starts) + [now] && startTime == now
      ensures deferred.outcomes == old(deferred.outcomes)
      ensures args == old(args) && execs == old(execs) && reports == old(reports)
      ensures deadlineArmed == old(deadlineArmed) && deadlineDue == old(deadlineDue)
    {
      if current.canceled {
        retryArmed := false;
      } else {
        Invoke(now);
      }
    }
  }

  /** However the callbacks unfold, the job is answered at most once. */
  lemma AnsweredAtMostOnce(instance: ImpressInstance)
    requires instance.Valid()
    ensures |instance.Answers()| <= 1
  {
  }

  /** A job finished by an instance gets a page that passed validation,
      with its content compressed. */
  lemma FinishedWithValidPage(instance: ImpressInstance, result: Payload)
    requires instance.Valid()
    requires Finished(result) in instance.Answers()
    ensures exists p: Payload :: MatchesOpenPattern(p.content) && MatchesClosePattern(p.content)
                        && result == Delivered(p, instance.compress)
  {
    var p := Judge(instance.current.delivered.value).result;
    JudgeMeaning(instance.current.delivered.value);
    assert instance.Answers()[0] == instance.deferred.outcomes[instance.answeredBefore];
  }
}
