# ImpressInstance, modelled in Dafny

An `ImpressInstance` renders one web page for one deferred job. It runs
PhantomJS with the `impress.js` script and waits for the result.

- **Setup.** The constructor sets the renderer's binary and script paths,
  the per-process timeout, the largest output it accepts, and what is left
  of the job's time budget. It seeds two SSL flags and merges the
  configured PhantomJS arguments on top.
- **Arguments.** `addArgs` takes arguments as an object, an array of
  `key=value` strings, or one space-separated string. Each name is stored
  in its `--name` form: an existing flag is replaced in place, a new flag
  is appended.
- **Command line.** `_getCommandExecString` joins into one command line,
  separated by spaces:
  - the binary,
  - one `name=value` word per flag,
  - the script,
  - the page address (quoted base64 of its UTF-8 bytes, followed by
    `--url-base64-encoded`),
  - the optional `--notices` and `--warnings` switches.
- **Running.** `run` arms a deadline for the remaining budget, then starts
  attempts (`_invoke`) one after another until one of them returns a page
  that opens with `<html` or `<!doctype` and ends with `/html`, optional
  whitespace and `>`.
  - When an attempt fails or its page is incomplete, the next attempt
    starts at least 500 ms after the failed one began.
  - When the deadline passes, the job is rejected and the current attempt
    is canceled.
  - An accepted page has its warnings and notices reported, its content
    compressed, and then the job is finished.
- **One attempt.** Each attempt spawns the child process on the next tick.
  It collects the child's stdout and stderr and turns the exit code and
  output into an error or a parsed payload. Its `finish` kills the child
  and then calls the listeners, at most once, and never after a cancel.

The modules follow the source's parts:

| module | part of the source |
|---|---|
| `JsText` | the JavaScript string operations used: the `\s` class, the `i` flag's case folding, `split`, `join`, trimming, integer to decimal |
| `Base64`, `Utf8` | `base64encode`, as section 4 of RFC 4648, over UTF-8 |
| `Args` | `this.args` and `addArgs`'s collection as insertion-ordered property lists, the three argument forms, key canonicalisation, the merge |
| `Command` | `_getCommandExecString` as a list of words and their join |
| `Timing` | the budget, the per-process timeout and the retry spacing |
| `Validation` | `_validateContentAndGetValidationError`: both regular expressions, stated as patterns and proved equal to the trimming check that decides them |
| `Outcome` | what the `close` and `error` handlers make of an attempt, `run`'s accept-or-retry decision, `_performImpressReport` |
| `Supervisor` | class `Attempt`: the `resultPromise` of `_invoke` and its callbacks |
| `Impress` | classes `Deferred` (the job) and `ImpressInstance`: the constructor, `addArgs`, `run` and every timer and process callback as a method, with a class invariant |

**Callbacks.** Each timer, process and stream callback is a method that
takes the clock reading `now` where the source calls `Date.now()`.

**Class invariant.** `ImpressInstance.Valid` holds between any two
callbacks. It says:

- the job is answered at most once;
- a job is finished only with a page that passed validation, and then
  the deadline is disarmed;
- a job is rejected only with the timeout message, and then the attempt is
  canceled;
- attempt start times are at least 500 ms apart.

## Model

| member | source | states |
|---|---|---|
| Timing.OrDefault | lib/impress/ImpressInstance.js:26-27 | A missing or zero option gives the default; any other number is kept. |
| Timing.RemainingBudget | lib/impress/ImpressInstance.js:31 | The budget left plus the time since the job was created is the job's timeout. |
| Timing.ExecTimeout | lib/impress/ImpressInstance.js:32 | The per-process timeout is at most the configured one and at most the budget, and it is one of the two. |
| Timing.ExecTimeoutIsGreatest | lib/impress/ImpressInstance.js:32 | Any bound below both is below the per-process timeout, so it is the minimum. |
| Timing.RetryTimerFor | lib/impress/ImpressInstance.js:190-195 | A timer is armed exactly when the attempt took under 500 ms. Its delay is positive and tops the attempt's time up to 500 ms. |
| Timing.RetryDueIsSpaced | lib/impress/ImpressInstance.js:176-195 | The retry runs no earlier than 500 ms after the failed attempt started and no earlier than the failure. It runs at the first moment that meets both. |
| JsText.SplitOn | lib/impress/ImpressInstance.js:61 | `split('=')` gives at least one part. No part holds `=`, and joining the parts with `=` restores the string. |
| JsText.SplitOnSpacesCuts | lib/impress/ImpressInstance.js:73 | `split(/\s+/)` cuts exactly at the maximal whitespace runs. The string is the parts with one non-empty whitespace run between each two. No part holds whitespace, and only the first and last parts may be empty. |
| JsText.SplitOnSpacesKeepsText | lib/impress/ImpressInstance.js:73 | The parts, concatenated, are exactly the non-whitespace characters of the string. |
| JsText.SplitOnSpacesJoin | lib/impress/ImpressInstance.js:73 | Splitting non-empty, whitespace-free words joined by spaces gives back the words. |
| JsText.NatToString | lib/impress/ImpressInstance.js:155 | The decimal form of a number is at least one digit, and it starts with `0` only for zero, so there is no leading zero. |
| JsText.NatToStringValue | lib/impress/ImpressInstance.js:155 | The decimal form of a number reads back as that number. |
| Base64.Encode | lib/impress/ImpressInstance.js:139-141 | The encoding has four characters per started group of three bytes, all from the base64 alphabet or `=`. |
| Base64.DecodeEncode | lib/impress/ImpressInstance.js:139-141 | Decoding the encoding of any byte sequence gives back the bytes. |
| Base64.EncodeDecode | lib/impress/ImpressInstance.js:139-141 | Any string that decodes is the encoding of its bytes. Decoding rejects set bits left over in a padded group, as in the canonical encoding of section 3.5 of RFC 4648. So the encoding is the only string that decodes to the bytes, with zero bits in the unused positions of its last symbol. |
| Utf8.EncodeString | lib/impress/ImpressInstance.js:140 | Each character takes one to four bytes. |
| Args.Put | lib/impress/ImpressInstance.js:93 | Assigning a property keeps an existing name in its place and appends a new one. The name then holds the value, every other name keeps its value, and names stay distinct. |
| Args.PutAllLookup | lib/impress/ImpressInstance.js:83-94 | After a series of assignments, each name holds the value it was last assigned, or its earlier value if it was not assigned. |
| Args.PutAllKeys | lib/impress/ImpressInstance.js:83-94 | The existing names keep their order, new names follow in order of first assignment, and names stay distinct. |
| Args.CanonicalKeyForm | lib/impress/ImpressInstance.js:87-92 | Every stored name starts with `--`. A key is stored unchanged exactly when it matches `/^--[^-]/`. |
| Args.CanonicalKeyDashes | lib/impress/ImpressInstance.js:87-92 | `name`, `-name` and `--name` are stored as the same flag `--name`. |
| Args.KeyValueMeaning | lib/impress/ImpressInstance.js:61-62 | The key is the text before the first `=`. The value is the text between the first and a following `=` or the end; it is empty when there is no `=`. Neither part holds `=`. |
| Args.CollapseAroundEquals | lib/impress/ImpressInstance.js:72 | The replacement keeps every non-whitespace character in order, leaves no whitespace next to an `=`, and keeps a non-space first character. |
| Args.CollapseKeepsLoneRun | lib/impress/ImpressInstance.js:72 | A whitespace run that touches no `=` survives the replacement unchanged. The text before it and the text after it are replaced separately. |
| Args.CollapseSplitsAfterPlain | lib/impress/ImpressInstance.js:72 | Text that ends in a character that is neither whitespace nor `=` is replaced independently of the text after it. |
| Args.CollapseIdempotent | lib/impress/ImpressInstance.js:72 | Applying the replacement twice is the same as applying it once. |
| Args.SeedFlagsStayFirst | lib/impress/ImpressInstance.js:19-22 | Whatever is merged, `--ignore-ssl-errors` and `--ssl-protocol` stay the first two flags. They keep `true` and `tlsv1` unless the arguments name them, in which case they take the last value assigned. |
| Args.StringFormMatchesArrayForm | lib/impress/ImpressInstance.js:57-81 | A space-separated string of plain `key=value` words collects the same arguments as the array of those words. |
| Args.ObjectFormMatchesArrayForm | lib/impress/ImpressInstance.js:57-70 | An object of string values collects the same arguments as the array of its `key=value` strings, when no key or value holds `=`. |
| Args.MergeFresh | lib/impress/ImpressInstance.js:83-94 | Distinct new names are appended after the existing flags, in insertion order, and the existing flags are left as they were. |
| Command.FlagTokens | lib/impress/ImpressInstance.js:112-116 | One word per flag, in the flags' order: its name, `=`, and its value. |
| Command.EncodedUrlToken | lib/impress/ImpressInstance.js:122 | The address word is in double quotes, and what is between them decodes to the UTF-8 bytes of the address. |
| Command.UrlTokens | lib/impress/ImpressInstance.js:104-106 | An absent or true argument gives the quoted encoding followed by `--url-base64-encoded`; false gives the raw address. |
| Command.CommandTokens | lib/impress/ImpressInstance.js:108-135 | The words are the binary, one `name=value` word per flag in order, the script, the address words, then the switches. |
| Command.SwitchesFollowScript | lib/impress/ImpressInstance.js:130-135 | `--notices` and `--warnings` appear after the script exactly when their options are set. |
| Command.EncodedUrlIsOneWord | lib/impress/ImpressInstance.js:120-125 | The encoded address is never empty and holds no whitespace, whatever the address. |
| Command.CommandLineWords | lib/impress/ImpressInstance.js:137 | If the binary, script, names and values hold no whitespace, splitting the joined command line on whitespace gives back exactly its words. |
| Validation.OpenMarkerMatches | lib/impress/ImpressInstance.js:206 | The text starts with `<html` or `<!doctype` (any case) after its leading whitespace exactly when the case-insensitive pattern of line 206 (leading whitespace, then either opening) matches. |
| Validation.CloseMarkerMatches | lib/impress/ImpressInstance.js:209 | The text ends, before trailing whitespace, with `/html`, whitespace and `>` exactly when the case-insensitive pattern of line 209 matches. |
| Validation.ValidationErrorMeaning | lib/impress/ImpressInstance.js:205-213 | The missing-open-tag message comes exactly when the first pattern fails. The missing-close-tag message comes exactly when only the second fails. There is no error exactly when both match. |
| Outcome.OrElse | lib/impress/ImpressInstance.js:300 | JavaScript's `or` on two strings: the first unless it is empty, else the second. |
| Outcome.CloseOutcome | lib/impress/ImpressInstance.js:294-318 | A payload is delivered exactly on exit code 0 with empty stderr and a parsed payload marked ok. Otherwise the error is, in turn: stderr, else stdout, else `Unknown Error` (non-zero code or stderr); the parse exception; or the payload's errors, else `Unknown Error`. Every error is truthy. |
| Outcome.HandlerError | lib/impress/ImpressInstance.js:275-281 | The error passed on, or else the stderr text, or else `Unknown Error`; always truthy. |
| Outcome.JudgeMeaning | lib/impress/ImpressInstance.js:188 | Accepted exactly when the attempt delivered a payload that matches both patterns, and then that payload. A failure is retried with its own error; an invalid page is retried with the first failing check's message. |
| Outcome.ImpressReportsMeaning | lib/impress/ImpressInstance.js:215-225 | At most two reports, warnings first. Each appears exactly when its flag is set and its list is not empty. Each carries its own list and the payload's url, else the job's. |
| Supervisor.Attempt.constructor | lib/impress/ImpressInstance.js:228-244 | A new promise: no listeners, not canceled or performed, no child yet, no output. |
| Supervisor.Attempt.Subscribe | lib/impress/ImpressInstance.js:239-243 | A function is appended to the listeners; anything else is ignored. Nothing else changes. |
| Supervisor.Attempt.Kill | lib/impress/ImpressInstance.js:250-257 | Counts one kill, and one signal to the child when there is a child. |
| Supervisor.Attempt.Cancel | lib/impress/ImpressInstance.js:245-248 | Marks the promise canceled and kills; the outcome is left as it was. |
| Supervisor.Attempt.Finish | lib/impress/ImpressInstance.js:259-273 | Always kills. It delivers to every listener exactly when nothing was delivered before and the promise is not canceled; otherwise nothing else changes. |
| Supervisor.Attempt.SpawnTick | lib/impress/ImpressInstance.js:287-292 | The deferred spawn runs even after a cancel. A child exists exactly when `exec` did not throw. A throw is finished as that error. |
| Supervisor.Attempt.StdoutData | lib/impress/ImpressInstance.js:322-324 | The chunk is appended to stdout; nothing else changes. |
| Supervisor.Attempt.StderrData | lib/impress/ImpressInstance.js:328-330 | The chunk is appended to stderr; nothing else changes. |
| Supervisor.Attempt.ErrorEvent | lib/impress/ImpressInstance.js:293 | An `error` event finishes with the handler's error, subject to the at-most-once rule. |
| Supervisor.Attempt.Close | lib/impress/ImpressInstance.js:294-318 | The `close` event finishes with the close outcome of the code, stderr, stdout and its parse, subject to the at-most-once rule. |
| Impress.Deferred.Finish | lib/impress/ImpressInstance.js:171 | The job records one more answer: finished with the result. |
| Impress.Deferred.Reject | lib/impress/ImpressInstance.js:155 | The job records one more answer: rejected with the reason. |
| Impress.PathOrDefault | lib/impress/ImpressInstance.js:24-25 | A missing or empty path gives the default below the package directory; any other path is kept. |
| Impress.ImpressInstance.constructor | lib/impress/ImpressInstance.js:16-39 | Sets the paths and limits from the options or their defaults, the budget and the per-process timeout. The flags are the seeds with `phantomArgs` merged unless it is falsy. No attempt, no process and no answer yet, with the invariant established. |
| Impress.ImpressInstance.AddArgs | lib/impress/ImpressInstance.js:47-97 | Falsy input changes nothing and returns undefined. Otherwise the collection is merged under canonical names and the flags are returned. Names stay distinct. |
| Impress.ImpressInstance.ArgsAfter | lib/impress/ImpressInstance.js:53-94 | The flags after `addArgs`: unchanged for falsy input, otherwise merged with the collection; names stay distinct. |
| Impress.ImpressInstance.MergeCollection | lib/impress/ImpressInstance.js:83-94 | The merge loop computes the canonicalised assignments in collection order, keeping names distinct. |
| Impress.ImpressInstance.CollectArgs | lib/impress/ImpressInstance.js:57-81 | The collection for each input form; a truthy value of any other type collects nothing. |
| Impress.ImpressInstance.CollectObject | lib/impress/ImpressInstance.js:66-68 | Each property, stringified, is assigned in key order. |
| Impress.ImpressInstance.CollectArray | lib/impress/ImpressInstance.js:58-63 | Each item's key and value are assigned in order. |
| Impress.ImpressInstance.CollectTokens | lib/impress/ImpressInstance.js:73-80 | Each non-empty word's key and value are assigned in order; empty words are skipped. |
| Impress.ImpressInstance.Invoke | lib/impress/ImpressInstance.js:174-178 | A fresh attempt with `run`'s one listener, started now. Nothing about it is spawned, ticked, killed, written, canceled or delivered yet. |
| Impress.ImpressInstance.Run | lib/impress/ImpressInstance.js:144-161 | The deadline is armed for now plus the budget, and the first attempt starts, with the invariant kept. The attempt is fresh, with `run`'s one listener, and nothing about it is spawned, ticked, killed, written, canceled or delivered yet. |
| Impress.ImpressInstance.Complete | lib/impress/ImpressInstance.js:178-201 | A retry verdict leaves the job's answers unchanged, arms the retry at its due time and writes no report. An accept verdict finishes the job once with the compressed accepted payload, disarms the deadline and appends its reports. |
| Impress.ImpressInstance.ScheduleRetry | lib/impress/ImpressInstance.js:183-195 | The retry is armed for the due time of the failed attempt; the job stays unanswered. |
| Impress.ImpressInstance.AcceptPage | lib/impress/ImpressInstance.js:167-172 | Disarms the deadline, appends the reports and finishes the job once with the compressed payload. |
| Impress.ImpressInstance.Report | lib/impress/ImpressInstance.js:215-225 | Appends the payload's reports. |
| Impress.ImpressInstance.SpawnTick | lib/impress/ImpressInstance.js:287-292 | The spawn runs once: afterwards the attempt is ticked, and it has a child exactly when `exec` did not throw. A spawn that does not throw records one process with the command line and the two limits, and delivers nothing. A throw on an unanswered, undelivered attempt delivers the exception as the attempt's error, and the retry is then armed at its due time. A throw on an attempt that already delivered or was canceled delivers nothing, and leaves the timers as they were. In every case the job's answers are unchanged and no report is written, and the attempt's listeners, buffers and `canceled` flag are unchanged. |
| Impress.ImpressInstance.SpawnStarted | lib/impress/ImpressInstance.js:287-292 | When `exec` returns a child, one process is recorded with the command line and the two limits. The attempt has a child and delivers nothing. Its listeners, buffers, kill counts and `canceled` flag are unchanged. |
| Impress.ImpressInstance.SpawnRaised | lib/impress/ImpressInstance.js:287-335 | When `exec` throws `e` on an unanswered, undelivered attempt, the attempt delivers the error `Raised(e)` and the retry is armed at its due time. On an attempt that already delivered or was canceled, the throw only kills once, and the outcome and retry timer stay as they were. No process is recorded. |
| Impress.ImpressInstance.RecordExec | lib/impress/ImpressInstance.js:289-292 | Records `exec` of the command line with the per-process timeout and the largest output. |
| Impress.ImpressInstance.ChildStdout | lib/impress/ImpressInstance.js:322-324 | The attempt's stdout grows by the chunk. Its stderr, listeners, flags, outcome and kill counts are unchanged, and the invariant is kept. |
| Impress.ImpressInstance.ChildStderr | lib/impress/ImpressInstance.js:328-330 | The attempt's stderr grows by the chunk. Its stdout, listeners, flags, outcome and kill counts are unchanged, and the invariant is kept. |
| Impress.ImpressInstance.ChildError | lib/impress/ImpressInstance.js:275-293 | On an unanswered, undelivered attempt, the handler's error is delivered, the job's answers are unchanged, and the retry is armed at its due time. On an attempt that already delivered or was canceled, nothing is delivered, and the job, the timers and the reports are unchanged. It writes no report in either case. It always kills the child once, and the attempt's listeners, buffers and `canceled` flag are unchanged. |
| Impress.ImpressInstance.ChildClose | lib/impress/ImpressInstance.js:294-318 | On an unanswered, undelivered attempt, the close outcome of the code, stderr, stdout and its parse is delivered. A rejected or invalid outcome arms the retry at its due time, leaves the job's answers unchanged and writes no report. An accepted one finishes the job once with the compressed payload, disarms the deadline and appends the payload's reports. On an attempt that already delivered or was canceled, nothing is delivered, and the job, the timers and the reports are unchanged. It always kills the child once, and the attempt's listeners, buffers and `canceled` flag are unchanged. |
| Impress.ImpressInstance.DeadlineFires | lib/impress/ImpressInstance.js:152-159 | The job's only answer is the rejection `FAIL page "<url>" impress timeout <budget>`. The attempt is canceled, a kill is counted twice, and the child, if any, is signalled twice. The attempt's outcome, listeners, buffers and child are otherwise unchanged. |
| Impress.ImpressInstance.RetryFires | lib/impress/ImpressInstance.js:183-187 | A canceled attempt starts nothing. Otherwise a fresh attempt with `run`'s one listener starts now, with nothing spawned, ticked, killed, written, canceled or delivered yet. The job's answers are unchanged, and the single deadline armed by `run` keeps its due time. |
| Impress.AnsweredAtMostOnce | lib/impress/ImpressInstance.js:163-172 | Whatever order the callbacks run in, the instance answers its job at most once. |
| Impress.FinishedWithValidPage | lib/impress/ImpressInstance.js:188-200 | A job the instance finished got a payload whose content matched both patterns before it was compressed. |

## Left out

- `destroy` (lines 43-45) only clears `this.deferred`. That reference is a `const` of the model, and no later call is modelled.
- `inherit.js` and the `Deferred` queue the instance is given are not part of this model. The job is a small class that records its answers.
- `process.nextTick`, `setTimeout`, `clearTimeout` and `Date.now()` are left out as real timers and clocks. Each callback is a method. `now` is a parameter. The deadline and retry timers are flags with due times. A timer that runs is modelled as its callback being called at or after its due time.
- `child_process.exec` and the child's streams are events: `SpawnTick` with the exception `exec` raised (if any), then `ChildStdout`, `ChildStderr`, `ChildError` and `ChildClose`. The process's own behaviour under its `timeout` and `maxBuffer` is outside the model. Only the two values passed are recorded.
- `JSON.parse` is the function parameter `parse`, and `HtmlCompressor` is the function parameter `compress`; both are taken as given.
- Console logging (lines 189, 198, 220, 223, 255, 269) is left out, except that `_performImpressReport`'s two reports are recorded as values.
- Exceptions thrown by a listener (caught at lines 266-271) and by `child.kill()` (lines 251-256) are left out. The only listener is `run`'s, and the kill count does not depend on the outcome.
- `Object.keys` lists integer-like keys first, in numeric order, and a `__proto__` key is special. Neither is modelled: keys are kept in insertion order.
- Array items that are not strings (which would make `arg.split` throw) are left out. An item is a string.
- `String(value)` is modelled for strings, booleans, `null`, `undefined` and integers below 2^53 in magnitude, which JavaScript holds exactly and prints digit by digit. Larger numbers (inexact past 2^53, printed in exponent form such as `1e+21` from 10^21 on), fractional numbers, objects and arrays as property values are left out; the same holds for the budget printed in the timeout message.
- The notices and warnings options are booleans. Any other truthy value is not modelled.
- `path.join` normalisation of the default paths is not modelled. A default is the package directory followed by the fixed relative path.
- Strings are sequences of Unicode scalar values. UTF-16 lone surrogates, which `new Buffer` would replace, are left out.
- A missing `content` in a payload is left out. The payload always has a string `content`.
- A JSON answer that is `null` is left out. `JSON.parse` accepts it at line 305, and then `data.ok` at line 312 throws inside the `close` listener, outside the `try` of lines 304-310. Nothing is delivered, and the uncaught exception is left to the process. `parse` yields an error or an object. Any other non-object JSON value (a number, string, boolean or array) has no `ok` and no `errors`, so it behaves like `Parsed` of a payload with `ok` false and no `errors`.
- Callbacks of an attempt that was replaced by a later one are left out. Its child has been killed, and its listener (`run`'s own closure) is never called again, because that attempt has already delivered, so its `finish` returns at line 261.
- The command line with a raw, unencoded address (`_getCommandExecString(false)`) is modelled by `Command.CommandTokens`, but `run` never requests it, so the instance only uses the encoded form.
- A negative budget makes the deadline due before `run` starts. The minimum delay `setTimeout` applies to it, and a non-numeric budget, are not modelled. Node's `setTimeout` also fires after 1 ms for any delay above 2147483647 ms; this applies to the deadline at line 152 and to the timeout behind `exec`'s `timeout` option. The model does not capture it: `Run` states the deadline as due at `now` plus the budget, whatever its size.
- Impress.ImpressInstance.AddArgs: preserves only that names stay distinct. It does not restate the whole invariant, because the method changes only `args` and the rest of the invariant does not read it; after the constructor, `run` never calls it.
- Impress.ImpressInstance.Run: is called once per instance. `run` has no guard of its own, and a second call would arm a second deadline and start a second chain of attempts, each able to answer the job. The instance's owner calls `run` once, and the at-most-once guarantee (`AnsweredAtMostOnce`) is proved under that assumption.
- Utf8.EncodeString: states only the length bounds of the encoding, not that it is the standard UTF-8 bit layout; the body is that layout.

## Notes on the source

- The spawn scheduled by `_invoke` runs even when the attempt was canceled in the meantime: the canceled flag is not checked at line 287. The child then runs until it exits or reaches its own timeout, and its outcome is dropped. `Supervisor.Attempt.SpawnTick` models this: it marks a child without counting a kill.
- The retry timer set at line 191 is never cleared. If the deadline passes while a retry is pending, the retry still runs later, and only the `canceled` check at line 184 stops a new attempt. `RetryFires` models this.
- `invokeTime` at line 180 is measured when `run`'s listener is called, not when the attempt ends. The model uses the clock reading at the listener's call, `now`.
- The rejection reads `FAIL page "<url>" impress timeout <budget>`.
- The closing check is `/\/html\s*>\s*$/i` and does not require `<`.
- The instance has no `cancel` of its own; only the deadline cancels an attempt.
