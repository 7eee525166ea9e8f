# Celery base execution pool and notebook conversion, in Dafny

This project models two pieces of Python and proves properties of the models.

1. **Celery's base execution pool** (`celery/concurrency/base.py`):
   - `apply_target` is the trampoline a worker uses to run one job. It reports acceptance, calls the target, and sorts the target's outcome. The outcome either escapes as an exception, or is delivered once through the completion callback.
   - `BasePool` is the pool controller. It has the lifecycle state `_state`, four lifecycle operations that call backend hooks in a fixed order around the state assignment, the submission surface `apply_async`, and the `info`, `active` and `num_processes` queries.
2. **The script-to-notebook converter** (`tools.py`):
   - `source_to_list` splits a script into lines.
   - `to_ipynb` cuts a script into cells at every `"\n\n\n"`.
   - `do_conversion` derives the output file name.

Modules:

- `Wrappers` (wrappers.dfy) holds `Option` and `Result`.
- `Json` (json.dfy) holds JSON values: the values of the `info` map and the `metadata` and `outputs` of the notebook and its cells. The notebook and cells themselves are the `Notebook` and `Cell` datatypes.
- `PyStrings` (pystrings.dfy) defines Python's `str.find`, `str.split(sep)`, `sep.join` and `str.replace` for a non-empty separator. Occurrences are found left to right and never overlap. It also defines a reference count of occurrences, written as a separate left-to-right scan. The lemmas relate these operations: split then join is the identity, no piece contains the separator, a split has count + 1 pieces, and `replace` equals join-after-split.
- `Notebook` (notebook.dfy) models `tools.py`. `to_ipynb` is a method whose loop grows the cell list. It is proved equal to the closed-form `NotebookOf`, and the lemmas are about `NotebookOf`.
- `Trampoline` (trampoline.dfy) models `apply_target` as a pure function.
  - The target's behaviour is an input: it returns a value or raises an exception.
  - An exception is the set of class names `isinstance` accepts for it, plus its `repr`.
  - `propagate` is a set of class names.
  - The result is a trace of events (`Accept`, `Call`, `Callback`) and how `apply_target` ends: normally, or by re-raising.
- `Pool` (pool.dfy) models `BasePool`.
  - It is a class with the mutable field `state`, which is `_state`, and `doesDebug`, which is `_does_debug`.
  - A ghost `log` records every hook call with the state the hook saw, every debug trace and every `on_apply` request.
  - Each lifecycle method is tied to the pure `Step` function. Sequences of operations are studied through `Replay`, the fold of `Step`.

The code does not guard lifecycle transitions. `close` assigns CLOSE and `start` assigns RUN whatever the current state is. So transitions are not forward-only: `NotForwardOnly` shows that a terminated pool can be started or closed again. Forward progress is proved for the call sequence `start(); close(); terminate()` from any state (`ForwardProgress`).

The three re-raising clauses of `apply_target` are checked in the order `propagate`, `Exception`, `WorkerShutdown`/`WorkerTerminate`. All three re-raise the exception unchanged, so their order is not observable.

## Model

| member | source | states |
|---|---|---|
| `PyStrings.JoinSplit` | tools.py:21 | joining the pieces of `s.split(sep)` with `sep` gives back `s`, for every `s` |
| `PyStrings.SplitPiecesFree` | tools.py:14 | no piece of `s.split(sep)` contains `sep` |
| `PyStrings.SplitCount` | tools.py:14 | `s.split(sep)` has one piece more than the non-overlapping left-to-right count of `sep` in `s` |
| `PyStrings.CountChar` | tools.py:14 | for a one-character separator, that count is the number of times the character occurs |
| `PyStrings.ReplaceIsJoinSplit` | tools.py:59 | `s.replace(pat, repl)` (a left-to-right scan) equals `repl.join(s.split(pat))` |
| `PyStrings.ReplaceAbsent` | tools.py:59 | a string without an occurrence of `pat` is not changed by `replace` |
| `Notebook.SourceToListLength` | tools.py:12-14 | `source_to_list(code)` has exactly (number of `"\n"` in `code`) + 1 elements |
| `Notebook.SourceToListLines` | tools.py:12-14 | every element ends in `"\n"` and contains no other newline |
| `Notebook.SourceToListConcat` | tools.py:14 | concatenating `source_to_list(code)` gives `code + "\n"` |
| `Notebook.SourceToListEmpty` | tools.py:14 | `source_to_list("")` is `["\n"]` |
| `Notebook.CellsFor` | tools.py:21-31 | there are two cells per chunk |
| `Notebook.CellsForShape` | tools.py:22-31 | cell `2i` is a code cell with `source_to_list(chunk_i)` as source, no execution count, no outputs and empty metadata; cell `2i+1` is a markdown cell with empty source and metadata |
| `Notebook.NotebookOf` | tools.py:32-37 | the notebook has `nbformat` 4, `nbformat_minor` 2 and language name `"python"` |
| `Notebook.ToIpynb` | tools.py:17-37 | the loop that grows `cells` with `+=` returns exactly `NotebookOf(code)`, whose cells are those of the chunks of `code.split("\n\n\n")` |
| `Notebook.ChunksOfCells` | tools.py:21-31 | the code cells built for a list of chunks hold exactly those chunks, in order |
| `Notebook.NotebookRoundTrip` | tools.py:21-31 | joining the code chunks of `to_ipynb(code)` back with `"\n\n\n"` reproduces `code` |
| `Notebook.OutputPathRewritesEveryPy` | tools.py:58-59 | the output path is the input path with every non-overlapping `".py"`, found left to right, replaced by `"_fa.ipynb"` |
| `Notebook.OutputPathOfScript` | tools.py:58-59 | a path whose only `".py"` is its extension gets `"_fa.ipynb"` in place of the extension |
| `Notebook.OutputPathRewritesDirectories` | tools.py:59 | `"a.py/b.py"` becomes `"a_fa.ipynb/b_fa.ipynb"`, which differs from the suffix-only rewrite |
| `Notebook.IntendedOfScript` | tools.py:59 | the suffix-only rewrite turns `stem + ".py"` into `stem + "_fa.ipynb"` for every stem |
| `Notebook.IntendedAgreesOnScripts` | tools.py:59 | both rewrites agree on every path whose only `".py"` is its extension |
| `Trampoline.AcceptPid` | celery/concurrency/base.py:37 | `pid or getpid()`: a missing or zero pid falls back to the worker's own pid |
| `Trampoline.KeywordArgs` | celery/concurrency/base.py:35 | missing keyword arguments become `{}` and present ones are kept |
| `Trampoline.ApplyTarget` | celery/concurrency/base.py:22-52 | events come in the order accept, call, callback, each at most once. The first event is `Accept(pid or getpid(), monotonic())` exactly when an accept callback is given. The target is called with `args` and the normalised kwargs. The callback fires exactly when no exception escapes: a return delivers the returned value; a re-raised exception is the target's own, unchanged, and escapes exactly when it is in `propagate`, an `Exception`, or a `WorkerShutdown`/`WorkerTerminate`; any other exception is delivered as `WorkerLostError(repr(exc))` |
| `Trampoline.ExactlyOnce` | celery/concurrency/base.py:36-52 | the target runs exactly once; the accept callback fires once if given and never otherwise; `callback` fires exactly once if nothing escapes and never if something does |
| `Trampoline.AcceptFirst` | celery/concurrency/base.py:36-39 | with an accept callback, acceptance is the first event and everything after it is the call or the callback |
| `Trampoline.PropagateTakesPriority` | celery/concurrency/base.py:40-50 | a non-`Exception`, non-control exception is delivered as a lost worker, but re-raised once any one of its classes, whichever, is added to `propagate` |
| `Pool.ReplayHooks` | celery/concurrency/base.py:133-148 | every lifecycle operation makes exactly one hook call; `on_start`/`on_stop` see the state before the operation, and `on_close`/`on_terminate` see the state just assigned |
| `Pool.ReplayState` | celery/concurrency/base.py:133-148 | the state after a sequence of operations is the one the last operation assigns, or the initial state if there were none |
| `Pool.ActiveIffStartedLast` | celery/concurrency/base.py:194-196 | starting from `_state = None`, the pool is active iff its last lifecycle operation was `start`, so it is inactive before any `start` |
| `Pool.ForwardProgress` | celery/concurrency/base.py:133-148 | from any state `s`, `start(); close(); terminate()` passes through RUN, CLOSE and TERMINATE, and the hooks see `s`, CLOSE and TERMINATE |
| `Pool.NotForwardOnly` | celery/concurrency/base.py:141-148 | `start` or `close` after `terminate` makes the pool RUN or CLOSE again: transitions are not guarded |
| `Pool.TerminateRepeated` | celery/concurrency/base.py:137-139 | after any history, `n >= 1` calls of `terminate` leave TERMINATE and make `n` terminate-hook calls, each seeing TERMINATE |
| `Pool.ApplyCall` | celery/concurrency/base.py:153-176 | falsy `args` become `[]`; missing `kwargs` become `{}`; `on_apply` gets `waitforslot=putlocks`, the constructor's `callbacks_propagate`, and the call options unchanged; a call option named `waitforslot` or `callbacks_propagate` raises a duplicate-keyword TypeError instead |
| `Pool.BasePool.constructor` | celery/concurrency/base.py:81-95 | the configuration is stored; `_state` starts as None and `_does_debug` as True |
| `Pool.BasePool.Start` | celery/concurrency/base.py:141-144 | `_does_debug` takes the logger's debug flag; `on_start` runs seeing the old state; then the state is RUN |
| `Pool.BasePool.Close` | celery/concurrency/base.py:146-148 | the state becomes CLOSE whatever it was, then `on_close` runs seeing CLOSE |
| `Pool.BasePool.Stop` | celery/concurrency/base.py:133-135 | `on_stop` runs seeing the old state, then the state is TERMINATE |
| `Pool.BasePool.Terminate` | celery/concurrency/base.py:137-139 | the state becomes TERMINATE, then `on_terminate` runs seeing TERMINATE |
| `Pool.BasePool.DidStartOk` | celery/concurrency/base.py:100-101 | the base pool always reports a healthy start |
| `Pool.BasePool.TerminateJob` | celery/concurrency/base.py:127-128 | always raises NotImplementedError "`<class 'module.qualname'>` does not implement kill_job", the text of `str(type(self))` |
| `Pool.BasePool.Restart` | celery/concurrency/base.py:130-131 | always raises NotImplementedError "`<class 'module.qualname'>` does not implement restart" |
| `Pool.BasePool.ApplyAsync` | celery/concurrency/base.py:153-176 | the returned `on_apply` request or error is `ApplyCall` of the inputs and configuration. The log gains a debug trace if `_does_debug` is set, then the `on_apply` call if there is no error. The state is not touched |
| `Pool.BasePool.Info` | celery/concurrency/base.py:178-192 | `info` has exactly the keys `implementation` (`module:name`, with the class's `__name__`) and `max-concurrency`, and the latter reads back as `limit` |
| `Pool.BasePool.Active` | celery/concurrency/base.py:194-196 | `active` is true iff the state is RUN |
| `Pool.BasePool.NumProcesses` | celery/concurrency/base.py:198-200 | `num_processes` is the configured limit |
| `Pool.StartCloseTerminate` | celery/concurrency/base.py:133-148 | a fresh pool taken through `start(); close(); terminate(); terminate()` ends TERMINATE, and the log holds the four hook calls in order, each with the state it saw |

## Left out

- The debug trace of `apply_async` is an opaque `DebugTrace(target)` event. `truncate(safe_repr(...), 1024)` and the logger are code that is not part of this model.
- `logger.isEnabledFor(logging.DEBUG)` in `start` is the parameter `debugEnabled`.
- The internals of `reraise`, tracebacks, `ExceptionInfo` and `WorkerLostError` are left out. The callback receives the datatype value `LostInfo(WorkerLostError(repr))`, and `repr` is given with the exception.
- `os.getpid()` and `time.monotonic()` are the parameters `ownPid` and `now`.
- Callbacks and backend hooks are assumed to return normally. The model does not cover an accept callback, completion callback or hook that raises. The timing of each hook relative to its state assignment is captured by the state each hook call records.
- `apply_target`'s `callback=None` default is not modelled. The code calls `callback` unconditionally, so the model always has a callback.
- The no-op extension points `flush`, `register_with_event_loop`, `on_soft_timeout`, `on_hard_timeout` and `maintain_pool` do nothing in the base class, so there is nothing to state about them.
- `Timer`, `signal_safe`, `is_green`, `uses_semaphore`, `task_join_will_block`, `body_can_be_buffer` and `_pool` are constants with no logic. The `app` argument is stored and never used. The integer values 0x1, 0x2 and 0x3 of RUN, CLOSE and TERMINATE are represented by an enumeration.
- ApplyAsync: the value a backend's `on_apply` returns is not modelled. The base `on_apply` returns None. The model returns the request `on_apply` receives.
- ApplyAsync: the model does not name which keyword CPython reports when both `waitforslot` and `callbacks_propagate` appear in the call options, because that depends on dict order.
- The target is an outcome given as input. Argument unpacking errors (`*args` of a non-iterable) count as part of that outcome.
- PyStrings.Split: an empty separator, which makes Python raise ValueError, is excluded by `requires`. `tools.py` only splits on the non-empty literals `"\n"` and `"\n\n\n"`.
- Python strings are sequences of Unicode code points. The model uses Dafny `char` sequences, and no operation here depends on the difference.
- From `tools.py`, the file-system, async and serialisation code is left out: `load_code`, `write_ipynb`, `main` (`os.walk`, `aiofiles`, `asyncio.run`) and `to_json` (`json.dumps`).
- The other files of the repository (graphene_django, confluent_kafka, allauth, django.contrib.gis, pika) are unrelated to these two components and are not part of this model.

## Findings

| source | as written | input that shows it | evidently intended | confidence | as-written member | corrected member |
|---|---|---|---|---|---|---|
| tools.py:59 | `path.replace(".py", "_fa.ipynb")` rewrites every `".py"` in the path, directory names included | `"a.py/b.py"` becomes `"a_fa.ipynb/b_fa.ipynb"`, a file in a directory that does not exist | only the trailing extension is replaced: `"a.py/b_fa.ipynb"` | medium, not executed | `Notebook.OutputPathRewritesDirectories` | `Notebook.IntendedOfScript` |
