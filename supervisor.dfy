/**
 * One attempt to render a page (`_invoke`): a result promise that
 * collects listeners, a child process fed by a deferred spawn, the text
 * the child writes, and a `finish` that kills the child and then calls
 * the listeners at most once, and never once the promise is canceled.
 *
 * Listeners are identified by number; `notified` records which of them
 * were called with the delivered outcome.  Each process or timer callback
 * is a method; the event loop runs one at a time.
 */
module Supervisor {
  import opened Wrappers
  import opened JsText
  import opened Outcome

  class Attempt {
    var listeners: seq<nat>
    var canceled: bool
    var performed: bool
    /** The deferred spawn has run, and `spawned` says whether it made a child. */
    var ticked: bool
    var spawned: bool
    /** Calls of `kill()`, and how many of them found a child to signal. */
    var kills: nat
    var childKills: nat
    var stdoutChunks: seq<string>
    var stderrChunks: seq<string>
    var delivered: Option<AttemptOutcome>
    var notified: seq<nat>
    /** `JSON.parse`, applied to the whole of stdout. */
    const parse: string -> ParseResult

    ghost predicate Valid()
      reads this
    {
      && (performed <==> delivered.Some?)
      && (!performed ==> notified == [])
      && (performed ==> notified <= listeners)
      && (delivered.Some? && delivered.value.Failed? ==> Truthy(delivered.value.error))
      && (spawned ==> ticked)
      && childKills <= kills
    }

    /** A promise as `invoke()` makes it: nothing spawned, signalled,
        written, canceled or delivered yet. */
    ghost predicate Untouched()
      reads this
    {
      && !canceled && !performed && !ticked && !spawned
      && kills == 0 && childKills == 0 && stdoutChunks == [] && stderrChunks == []
      && delivered == None && notified == []
    }

    constructor (parse: string -> ParseResult)
      ensures Valid()
      ensures listeners == [] && !canceled && !performed && !ticked && !spawned
      ensures kills == 0 && childKills == 0 && stdoutChunks == [] && stderrChunks == []
      ensures delivered == None && notified == [] && this.parse == parse
    {
      listeners := [];
      canceled := false;
      performed := false;
      ticked := false;
      spawned := false;
      kills := 0;
      childKills := 0;
      stdoutChunks := [];
      stderrChunks := [];
      delivered := None;
      notified := [];
      this.parse := parse;
    }

    /** Calling the promise with a callback; `None` is anything that is not
        a function, which is ignored. */
    method Subscribe(listener: Option<nat>)
      requires Valid()
      modifies this
      ensures Valid()
      ensures listeners == old(listeners) + (if listener.Some? then [listener.value] else [])
      ensures canceled == old(canceled) && performed == old(performed) && delivered == old(delivered)
      ensures notified == old(notified) && kills == old(kills) && childKills == old(childKills)
      ensures ticked == old(ticked) && spawned == old(spawned)
      ensures stdoutChunks == old(stdoutChunks) && stderrChunks == old(stderrChunks)
    {
      if listener.Some? {
        listeners := listeners + [listener.value];
      }
    }

    /** `kill()`: signals the child when there is one. */
    method Kill()
      requires Valid()
      modifies this
      ensures Valid()
      ensures kills == old(kills) + 1
      ensures childKills == old(childKills) + (if spawned then 1 else 0)
      ensures listeners == old(listeners) && canceled == old(canceled) && performed == old(performed)
      ensures delivered == old(delivered) && notified == old(notified)
      ensures ticked == old(ticked) && spawned == old(spawned)
      ensures stdoutChunks == old(stdoutChunks) && stderrChunks == old(stderrChunks)
    {
      kills := kills + 1;
      if spawned {
        childKills := childKills + 1;
      }
    }

    /** `resultPromise.cancel()`: marks the promise canceled and kills the
        child; the outcome, if any, is left as it was. */
    method Cancel()
      requires Valid()
      modifies this
      ensures Valid()
      ensures canceled
      ensures kills == old(kills) + 1
      ensures childKills == old(childKills) + (if spawned then 1 else 0)
      ensures listeners == old(listeners) && performed == old(performed)
      ensures delivered == old(delivered) && notified == old(notified)
      ensures ticked == old(ticked) && spawned == old(spawned)
      ensures stdoutChunks == old(stdoutChunks) && stderrChunks == old(stderrChunks)
    {
      canceled := true;
      Kill();
    }

    /** `finish(error, result)`: always kills first; delivers `o` to every
        listener subscribed so far only when nothing was delivered before
        and the promise is not canceled. */
    method Finish(o: AttemptOutcome) returns (fired: bool)
      requires Valid()
      requires o.Failed? ==> Truthy(o.error)
      modifies this
      ensures Valid()
      ensures fired <==> !old(performed) && !old(canceled)
      ensures fired ==> performed && delivered == Some(o) && notified == listeners
      ensures !fired ==> performed == old(performed) && delivered == old(delivered) && notified == old(notified)
      ensures kills == old(kills) + 1
      ensures childKills == old(childKills) + (if spawned then 1 else 0)
      ensures listeners == old(listeners) && canceled == old(canceled)
      ensures ticked == old(ticked) && spawned == old(spawned)
      ensures stdoutChunks == old(stdoutChunks) && stderrChunks == old(stderrChunks)
    {
      Kill();
      if performed || canceled {
        return false;
      }
      performed := true;
      delivered := Some(o);
      notified := listeners;
      return true;
    }

    /** The deferred spawn: `thrown` is the exception `exec` raised, if it
        raised one.  It runs whether or not the promise was canceled in the
        meantime. */
    method SpawnTick(thrown: Option<string>) returns (fired: bool)
      requires Valid() && !ticked
      modifies this
      ensures Valid() && ticked
      ensures spawned <==> thrown.None?
      ensures thrown.None? ==>
        (!fired && kills == old(kills) && performed == old(performed) && delivered == old(delivered) && notified == old(notified))
      ensures thrown.Some? ==> (fired <==> !old(performed) && !old(canceled)) && kills == old(kills) + 1
      ensures thrown.Some? && fired ==> delivered == Some(Failed(Raised(thrown.value))) && notified == listeners
      ensures thrown.Some? && !fired ==> performed == old(performed) && delivered == old(delivered) && notified == old(notified)
      ensures childKills == old(childKills)
      ensures listeners == old(listeners) && canceled == old(canceled)
      ensures stdoutChunks == old(stdoutChunks) && stderrChunks == old(stderrChunks)
    {
      ticked := true;
      if thrown.Some? {
        fired := Finish(Failed(HandlerError(thrown, Flatten(stderrChunks))));
      } else {
        spawned := true;
        fired := false;
      }
    }

    method StdoutData(chunk: string)
      requires Valid() && spawned
      modifies this
      ensures Valid()
      ensures stdoutChunks == old(stdoutChunks) + [chunk]
      ensures stderrChunks == old(stderrChunks)
      ensures listeners == old(listeners) && canceled == old(canceled) && performed == old(performed)
      ensures delivered == old(delivered) && notified == old(notified)
      ensures kills == old(kills) && childKills == old(childKills)
      ensures ticked == old(ticked) && spawned == old(spawned)
    {
      stdoutChunks := stdoutChunks + [chunk];
    }

    method StderrData(chunk: string)
      requires Valid() && spawned
      modifies this
      ensures Valid()
      ensures stderrChunks == old(stderrChunks) + [chunk]
      ensures stdoutChunks == old(stdoutChunks)
      ensures listeners == old(listeners) && canceled == old(canceled) && performed == old(performed)
      ensures delivered == old(delivered) && notified == old(notified)
      ensures kills == old(kills) && childKills == old(childKills)
      ensures ticked == old(ticked) && spawned == old(spawned)
    {
      stderrChunks := stderrChunks + [chunk];
    }

    /** An `error` event of the child or of one of its streams. */
    method ErrorEvent(thrown: Option<string>) returns (fired: bool)
      requires Valid() && spawned
      modifies this
      ensures Valid()
      ensures fired <==> !old(performed) && !old(canceled)
      ensures fired ==> delivered == Some(Failed(HandlerError(thrown, Flatten(stderrChunks)))) && notified == listeners
      ensures !fired ==> performed == old(performed) && delivered == old(delivered) && notified == old(notified)
      ensures kills == old(kills) + 1 && childKills == old(childKills) + 1
      ensures listeners == old(listeners) && canceled == old(canceled)
      ensures ticked == old(ticked) && spawned == old(spawned)
      ensures stdoutChunks == old(stdoutChunks) && stderrChunks == old(stderrChunks)
    {
      fired := Finish(Failed(HandlerError(thrown, Flatten(stderrChunks))));
    }

    /** The child's `close` event with its exit code. */
    method Close(code: Option<int>) returns (fired: bool)
      requires Valid() && spawned
      modifies this
      ensures Valid()
      ensures fired <==> !old(performed) && !old(canceled)
      ensures fired ==>
        (notified == listeners && delivered == Some(CloseOutcome(code, Flatten(stderrChunks), Flatten(stdoutChunks), parse(Flatten(stdoutChunks)))))
      ensures !fired ==> performed == old(performed) && delivered == old(delivered) && notified == old(notified)
      ensures kills == old(kills) + 1 && childKills == old(childKills) + 1
      ensures listeners == old(listeners) && canceled == old(canceled)
      ensures ticked == old(ticked) && spawned == old(spawned)
      ensures stdoutChunks == old(stdoutChunks) && stderrChunks == old(stderrChunks)
    {
      var stdout := Flatten(stdoutChunks);
      fired := Finish(CloseOutcome(code, Flatten(stderrChunks), stdout, parse(stdout)));
    }
  }
}
