# dew — a verified model of its task runner

`dew` is a command-line script (`dew.py`) that loads a Python function from
a script, reads an input file as a stream of task values, calls the function
on every task value on a thread pool, and prints one JSON object mapping each
task value to the function's result (`null` where the call raised).

This project models the sequential logic of that script in Dafny:

- `code_ref.dfy` (module `CodeRef`): splitting the code reference `PYFILE`
  into a script path and an entry-point name. The default name is `f`. With a
  colon present the split is at the last colon, as `rsplit(":", 1)` does.
- `line_reader.dfy` (module `LineReader`): the `lines` input reader. Each
  line becomes one task value with `rstrip("\r\n")` applied, which removes
  every trailing carriage return and line feed.
- `executor.dfy` (module `Executor`): `run_in_parallel`. There is one
  future per task. Each call goes through the wrapper `_wrapped_func`, whose
  handler catches only `Exception`. A dict comprehension folds the
  completed `(task, result)` pairs into the result mapping in completion
  order.
  - The completion order is an input: any permutation of the futures.
  - What each call of the user function did is an input too, one outcome
    per submitted task, so the function may be impure. A call returns a
    value, raises an `Exception`, or raises a `BaseException` that is not an
    `Exception` (such as `SystemExit`).
  - Whether the entry point has a `__name__` attribute is an input. The
    handler reads it, so without it the handler itself fails.
  - An exception that leaves the wrapper is re-raised where its future is
    awaited, and the run is aborted. A `max_workers` that is not positive
    makes the thread pool refuse to start, which also aborts the run.
  - `RunInParallel` is the imperative loop. The function `Aggregate`
    specifies it, and `Collect` specifies the fold inside it. The lemmas
    cover when a run finishes, the key set, last-writer-wins, and order
    independence for a pure function.
- `wrappers.dfy` (module `Wrappers`): the `Option` type. A Python value is
  an `Option`, where `None` is Python's `None`.

## Model

| member | source | states |
|---|---|---|
| `CodeRef.LastIndexOf` | dew.py:69 | the position `rsplit(":", 1)` splits at: absent exactly when the string has no colon; otherwise it holds a colon and no colon follows it |
| `CodeRef.ParseCodeRef` | dew.py:67-69 | no colon: the reference is the path and the entry is `"f"`; with a colon: the entry holds no colon and `path + ":" + entry` is the original string |
| `CodeRef.ParseCodeRefUnique` | dew.py:68-69 | the split is the only one with a colon-free entry: any `path + ":" + entry` with no colon in `entry` parses to exactly that path and entry, even when the path holds colons |
| `CodeRef.ParseCodeRefExamples` | dew.py:67-69 | `a:b:c` gives (`a:b`, `c`); `x:` gives (`x`, empty entry); `job.py` gives (`job.py`, `f`) |
| `LineReader.StripLineEnd` | dew.py:18 | `rstrip("\r\n")` returns a prefix of the line that does not end in `\r` or `\n`, and everything it removed is `\r`/`\n` |
| `LineReader.StripLineEndUnique` | dew.py:18 | those three facts determine the result: for any split of the line into a part not ending in a line end plus a suffix made only of line ends, stripping returns that part |
| `LineReader.StripLineEndIdempotent` | dew.py:18 | stripping an already stripped line changes nothing |
| `LineReader.ReadLines` | dew.py:18 | the `lines` reader yields exactly one task per input line, in input order, the i-th task being the i-th line stripped |
| `LineReader.ReadLinesStripped` | dew.py:18 | no task from the `lines` reader ends in a line end, and each is a prefix of its line |
| `LineReader.ReadLinesExample` | dew.py:18 | `a\r\n`, `b\n`, `\n`, `c` become `a`, `b`, empty, `c` |
| `Executor.Wrapped` | dew.py:27-36 | an exception escapes `_wrapped_func` exactly when it is not an `Exception`, or when it is one and the entry point has no `__name__`; otherwise the pair's first component is the task value and its second is the returned value, or the failure marker `None` after a caught `Exception`; the second component is `None` exactly when the call raised or returned `None` |
| `Executor.Submit` | dew.py:42-44 | one future per task, in task order; future i settles with the wrapper's result for task i and call i's outcome |
| `Executor.Completed` | dew.py:48-50 | the completion stream has one element per entry of the completion order, and its i-th element is the future that completed i-th |
| `Executor.CompletionOrderCovers` | dew.py:49-50 | a completion order of `n` futures (each index once, all below `n`) includes every future, so every submitted task completes |
| `Executor.CompletedPermutes` | dew.py:49-50 | the completion stream is a permutation of the futures: each future's result is yielded exactly once |
| `Executor.Collect` | dew.py:46-52 | the comprehension's keys are exactly the keys occurring in the stream of completed pairs |
| `Executor.CollectLastWriterWins` | dew.py:46-52 | the entry for a key is the value of the last pair with that key in completion order |
| `Executor.CollectEntryOccurs` | dew.py:46-52 | every entry of the result is one of the completed pairs |
| `Executor.CollectSameElements` | dew.py:46-52 | when no two pairs disagree on a key's value, the result depends only on which pairs occur, not on their order or repetition |
| `Executor.CollectPermutation` | dew.py:46-52 | folding any permutation of such a stream gives the same mapping |
| `Executor.Aggregate` | dew.py:40-52 | a run returns a mapping exactly when `max_workers` is positive and no call's exception escapes the wrapper, and then its keys are exactly the distinct submitted task values; otherwise it aborts |
| `Executor.RunInParallel` | dew.py:26-52 | the method's outcome is `Aggregate`'s; a finished run consumed exactly `len(futures)` completions; every completion consumed came from a call whose exception did not escape; a run aborted after the pool started stops at the first completion whose exception escaped |
| `Executor.AggregateEntry` | dew.py:27-52 | in a finished run each key's entry is the wrapped result of the last completed call with that task value: `None` if it raised or returned `None`, its value otherwise; no later completion has that value |
| `Executor.PureAggregate` | dew.py:42-52 | with a pure user function, a positive pool size and no escaping exception, every distinct task value maps to the wrapped result of the function on it, whatever the completion order |
| `Executor.PureFinishes` | dew.py:27-52 | a run of a pure user function finishes when the pool size is positive and the function escapes the handler on no task value |
| `Executor.PureEntry` | dew.py:42-52 | in a finished run of a pure user function each task value maps to the wrapped result of the function on that value |
| `Executor.PureAggregateOrderIndependent` | dew.py:42-52 | with a pure user function any two completion orders give the same outcome, proved through the permutation of the completion stream |
| `Executor.PureAggregateWorkerIndependent` | dew.py:40-52 | with a pure user function, two runs with any positive `--max-workers` settings and any completion orders give the same outcome |
| `Executor.DuplicateCollapses` | dew.py:46-52 | tasks `x`, `y`, `x` with a pure function that does not escape give exactly one entry per distinct value in every completion order |
| `Executor.AggregateDuplicateExample` | dew.py:42-52 | tasks `a`, `b`, `a` with a length function give `{"a": 1, "b": 1}` in every completion order |
| `Executor.AggregateFailureExample` | dew.py:27-52 | with a named entry point, a task whose call raises an `Exception` maps to `None` and the other task keeps its value |
| `Executor.UnnamedEntryPointAborts` | dew.py:30-31 | with an entry point that has no `__name__`, that same raising task aborts the whole run |
| `Executor.NamedEntryPointIsolates` | dew.py:27-36 | with an entry point that has `__name__`, a run with a positive pool size finishes unless some call raises a `BaseException` that is not an `Exception`; any number of `Exception`s are absorbed |

## Left out

- Threads, `ThreadPoolExecutor`, `run_in_executor`, `asyncio.as_completed` and the event loop (dew.py:40-44, 49-50, 74-75). The model replaces them with an explicit completion order, which may be any permutation of the futures. A positive `max_workers` therefore appears only through that order. A `max_workers` of zero or less makes the pool raise `ValueError` at dew.py:40, and the model records that as an aborted run.
- What happens after an abort is not modelled: the futures still running, the pool's shutdown, and the resulting traceback and exit status. The model records only that no mapping is returned.
- The user function itself and the exceptions it raises. Each call is an input outcome: `Returned(v)`, `Raised` (an `Exception`) or `RaisedBase` (any other `BaseException`).
- Executor.Wrapped: does not model a call that never returns. The run then waits forever, because dew.py:49-50 awaits with no timeout. Every outcome in the model is a finished call.
- Executor.Wrapped: does not model the other ways the handler can fail: `repr(val)` or `repr(e)` raising, or writing to standard error failing (dew.py:31-35). The handler is taken to fail only when the entry point has no `__name__`. For the string task values of the `lines` reader, `repr(val)` cannot raise.
- The `tqdm` progress bar (dew.py:50). It is a display side effect. The model keeps only the count of consumed completions.
- Diagnostics written to standard error: the `echo` calls and the traceback extraction and formatting (dew.py:14, 31-35).
- The `json`, `jsonl`, `csv` and `csv-bare` readers (dew.py:19-22). They are library parsers.
  - Dict and list rows are unhashable in Python, so with those readers the comprehension at dew.py:47 would raise.
  - The code does not turn structured values into strings before using them as keys. The model therefore takes task values to be hashable and comparable for equality, and adds no such conversion.
- The splitting of the input file into lines by Python's file iteration, including newline translation. `ReadLines` starts from the sequence of raw lines.
- Loading the script with `run_path` and looking up the entry point (dew.py:71). Both are dynamic code loading.
- Command-line parsing with click (dew.py:55-63) and the JSON output with `json.dumps`, including how it turns keys into strings (dew.py:76).
- The insertion order of the result dict (dew.py:46-52). A Python dict keeps each key at its first insertion, so the printed JSON lists keys in the order of each value's first completion. The model's `map` has no order. This affects only the printed key order, not the mapping.
- The unused `res = {}` at dew.py:38. The comprehension's own variable shadows it, so it has no behaviour.

## Findings

| source | as written | input that shows it | evidently intended | confidence | as-written member | corrected member |
|---|---|---|---|---|---|---|
| dew.py:30-31 | the `except Exception` handler formats `func.__name__`, and an entry point without that attribute makes the handler raise `AttributeError` | an entry point that is a `functools.partial` object or a callable instance, and a task on which it raises `ValueError`: the `AttributeError` leaves `_wrapped_func`, is re-raised at dew.py:49, and aborts the run with no output | any `Exception` from the user function is caught, recorded as `None`, and the batch continues | not executed; medium | `Executor.UnnamedEntryPointAborts` | `Executor.NamedEntryPointIsolates` |

The model keeps `named` as an input so that it models the code as written. `NamedEntryPointIsolates` proves the intended isolation for the wrapper whose handler cannot fail, which is `Wrapped` with `named` true. The worked examples use that wrapper.
