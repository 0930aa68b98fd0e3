# lazykit core, modelled in Dafny

lazykit is a small Python toolbox. This project models four of its helpers and proves what they promise:

- **Retry decorator** (`tool_kit.py`). `retry(...)` resolves a policy once, at decoration time. It takes `max_retries` and `delay` from the process-wide `DEFAULT_RETRY_CONFIG` unless given truthy values, and `setup_retry` overwrites that config. The wrapper calls the decorated function up to `max_retries` times. It sleeps `delay * backoff^i` between attempts. It logs an alert from attempt `alert_threshold` on, gives up once `max_duration` has elapsed, and re-raises the last exception as it is.
- **Dependency check** (`tool_kit.py`). `check_module_installed` normalises its `modules`/`version` arguments and probes each module in order. It then returns `None`, returns the list of issues, or raises `ImportError` with the issues joined by newlines.
- **Unique paths** (`path_kit.py`).
  - `gen_unique_path` rejects a path whose parent is missing and keeps a path that does not exist. Otherwise it picks `stem_N.suffix` by galloping over powers of two and then bisecting.
  - `is_system_file` tests whether a path's base name is one of five well-known system files.
- **Codec registry** (`decode_kit.py`). `Codec` keeps two name-to-function tables, `ENCODERS` and `DECODERS`.
  - `encode`/`decode` look names up case-insensitively and refuse non-dict data for exactly `'dict'`. They pass `char_sets` only to functions whose `__code__.co_varnames` holds `char_sets`, and wrap every failure in `CodecError`.
  - `register` adds or replaces an entry pair.
  - Hex (`str.encode(cs).hex()` / `bytes.fromhex(h).decode(cs)`) is modelled concretely.
- **Help formatting** (`arg_kit.py`). `ArgFormatter._format_action_invocation` prints `-o, --option OPTION` rather than argparse's `-o OPTION, --option OPTION`.

Modules:

- `Wrappers`: `Option` and `Result`.
- `Strings`: ASCII case mapping, `str.join` and character counting.
- `Retry`, `ModuleCheck`, `PathKit`, `DecodeKit` and `ArgKit`.

Code that changes state is modelled as methods:

- the retry defaults and the codec tables are classes whose methods update their fields;
- the attempt loop, the module loop, the two search loops and the option loop are `while` loops.

Each loop is proved equal to a recursive specification function, and the properties are proved about that function; the state-changing class methods state the new field values.

Inputs that come from the environment:

- **Wrapped function.** `call(k)` is the outcome of its k-th invocation.
- **Clock.** `clock(0)` is the start time. `clock(k)` is the time read after the k-th failure.
- **Module probe.** `_check_module_installed` is a probe function.
- **File system.** `gen_unique_path` sees it as an `FsView`: whether the parent and the path exist, and the set of taken numbers N.
- **Text encodings.** A character set is a pair of partial functions.
- **argparse helpers.** `_metavar_formatter`/`_format_args` are given as functions.

## Model

| member | source | states |
|---|---|---|
| Retry.RetryDefaults.constructor | src/lazykit/tool_kit.py:14 | The process-wide defaults start at three attempts and a one-second delay. |
| Retry.RetryDefaults.SetupRetry | src/lazykit/tool_kit.py:107-110 | `setup_retry` overwrites both defaults with exactly the given values, 3 and 1.0 when omitted. |
| Retry.RestoreDefaults | src/lazykit/tool_kit.py:107-110 | `setup_retry()` without arguments puts back three attempts and a one-second delay, whatever the defaults were. |
| Retry.RetryDefaults.Retry | src/lazykit/tool_kit.py:135-136 | An absent or zero `max_retries`/`delay` is replaced by the current default; a truthy one is kept. Backoff, exceptions, maximum duration and alert threshold are taken as given. |
| Retry.DecorateThenReconfigure | src/lazykit/tool_kit.py:107-136 | A decorator built before `setup_retry` keeps the policy it resolved. One built afterwards sees the new defaults wherever its own arguments are falsy, and the defaults end up holding the new values. |
| Retry.AlertLog | src/lazykit/tool_kit.py:149-150 | At most one alert per failure, logged exactly when the threshold is truthy and the attempt has reached it. |
| Retry.OutOfTime | src/lazykit/tool_kit.py:151 | Time is up when the maximum duration is truthy and the time since the start has reached it. |
| Retry.NextDelay | src/lazykit/tool_kit.py:156 | The next delay is the current one times the backoff factor. |
| Retry.RunFrom | src/lazykit/tool_kit.py:143-156 | The attempt semantics from a given attempt and delay: return on success; re-raise an uncaught exception, the last attempt's exception, or one after the duration ran out; otherwise log, sleep and go on. Its properties are the lemmas below. |
| Retry.Run | src/lazykit/tool_kit.py:140-143 | A wrapper call starts at attempt 1 with the resolved delay. |
| Retry.Wrapper | src/lazykit/tool_kit.py:140-156 | The wrapper's loop produces exactly the trace of the recursive attempt semantics: exit, number of calls, log messages and sleeps. With `max_retries <= 0` it makes no call and returns `None`. |
| Retry.RetryStep | src/lazykit/tool_kit.py:146-156 | A caught failure before the last attempt, with time left, logs the alert (if due) and the retry message, sleeps the current delay and continues with the delay times backoff. |
| Retry.ThenThen | src/lazykit/tool_kit.py:143-156 | Running effects in sequence is associative, so the loop's accumulated effects compose with the rest of the run. |
| Retry.DelayAtPow | src/lazykit/tool_kit.py:142-156 | The delay before the sleep after failure i is `delay * backoff^i`. |
| Retry.DelayAtShift | src/lazykit/tool_kit.py:142-156 | Starting one step later in the schedule is starting with the next delay. |
| Retry.AfterRetries | src/lazykit/tool_kit.py:143-156 | After k-1 retried attempts, the wrapper has made k-1 calls, logged their messages, slept the first k-1 scheduled delays, and goes on at attempt k with the k-th delay. |
| Retry.SucceedsOnAttempt | src/lazykit/tool_kit.py:144-145 | A success on attempt k returns exactly that value after k calls and k-1 sleeps. |
| Retry.ExhaustsRetries | src/lazykit/tool_kit.py:147-148 | If all attempts fail with caught exceptions and time never runs out, the wrapper calls `max_retries` times and re-raises the last exception object unchanged. |
| Retry.AlwaysFailing | src/lazykit/tool_kit.py:143-148 | With no maximum duration, a function that always raises a caught exception is called exactly `max_retries` times, with `max_retries - 1` sleeps, and its last exception is re-raised. |
| Retry.StopsOnDuration | src/lazykit/tool_kit.py:149-153 | Once a truthy maximum duration has elapsed after a caught failure, the wrapper logs the alert (if due) and the termination message. It then re-raises that failure without sleeping. |
| Retry.UncaughtPropagates | src/lazykit/tool_kit.py:144-146 | An exception outside `exceptions` propagates from the attempt that raised it, without a message or sleep of its own. |
| Retry.RunFromShape | src/lazykit/tool_kit.py:142-156 | From any attempt: calls are bounded by the remaining attempts, and there is one sleep between consecutive calls, following the schedule. The run ends with exactly its last call's value or exception. |
| Retry.WrapperShape | src/lazykit/tool_kit.py:140-156 | Whole wrapper: at least one call exactly when `max_retries >= 1`, and at most `max_retries`. The i-th sleep is `delay * backoff^i`. The result is exactly what the last call returned or raised. |
| ModuleCheck.ModuleNames | src/lazykit/tool_kit.py:85-86 | A single module name becomes a one-element list. |
| ModuleCheck.VersionNames | src/lazykit/tool_kit.py:88-89 | A single version is repeated once per module; a list is kept. |
| ModuleCheck.VersionAt | src/lazykit/tool_kit.py:94 | The version checked at a position: the list's entry when the list is non-empty and long enough, otherwise none. |
| ModuleCheck.IssuesUpTo | src/lazykit/tool_kit.py:93-97 | The truthy messages of the first n modules, in order; never more than n of them. |
| ModuleCheck.Outcome | src/lazykit/tool_kit.py:99-104 | No issues gives `None`; otherwise `ImportError` of the newline-joined issues, or the issue list. |
| ModuleCheck.CheckModuleInstalled | src/lazykit/tool_kit.py:85-104 | The loop gathers the issues of the modules in order and ends with the outcome they determine. |
| ModuleCheck.VersionsPerModule | src/lazykit/tool_kit.py:85-94 | How each module's version is chosen. A single name is one module. A single version applies to every module. A list gives each module the version at its position. Modules past the list's end get no version. |
| ModuleCheck.IssuesInModuleOrder | src/lazykit/tool_kit.py:93-97 | The issue list has one entry per failing module, in module order, each being that module's message. |
| ModuleCheck.FailCountMonotone | src/lazykit/tool_kit.py:93-97 | Considering more modules never reduces the number of failures. |
| ModuleCheck.NoIssuesIffAllPass | src/lazykit/tool_kit.py:99-104 | The call returns `None` exactly when no module fails. Otherwise, with `raise_error` it raises `ImportError` with the issues joined by newlines, and without it returns the issues. |
| ModuleCheck.FailCountZero | src/lazykit/tool_kit.py:93-97 | There are zero failures exactly when every module passes. |
| PathKit.TakenFromShrinks | src/lazykit/path_kit.py:184-185 | Each probe past a taken number strictly shrinks the set of taken numbers still ahead, so the gallop terminates. |
| PathKit.Gallop | src/lazykit/path_kit.py:183-185 | The gallop stops at a number that is at least where it started and is free. |
| PathKit.GallopEndsFree | src/lazykit/path_kit.py:183-185 | Starting from 1, the gallop ends at a free power of two, and every smaller power of two it passed is taken. |
| PathKit.PowersOfTwoDouble | src/lazykit/path_kit.py:185 | Between two powers of two, the larger is at least twice the smaller. |
| PathKit.Bisect | src/lazykit/path_kit.py:187-194 | The bisection over [start, end] stays within that range. |
| PathKit.SearchIndex | src/lazykit/path_kit.py:183-194 | The number the gallop and bisection select is at least 1 and free. |
| PathKit.BisectFindsFree | src/lazykit/path_kit.py:187-194 | The bisection, started below a free number, returns a free number within its range. |
| PathKit.GenUniquePath | src/lazykit/path_kit.py:171-201 | A missing parent gives `ValueError` with the prefixed message. A path that does not exist is returned unchanged. Otherwise the result is `stem_N.suffix` with N >= 1 free. N is the number the gallop and bisection select, and when the taken numbers are 1..n-1 it is the first free one. |
| PathKit.FirstFreeWhenConsecutive | src/lazykit/path_kit.py:182-196 | When the taken numbers are exactly 1..n-1, the search selects n. |
| PathKit.GapCounterexample | src/lazykit/path_kit.py:182-196 | With numbers 1-4, 6 and 7 taken, 5 is free but the search selects 8. |
| PathKit.FirstFreeIndex | src/lazykit/path_kit.py:182 | A linear scan returns the least free number N >= 1. |
| PathKit.GenUniquePathFirstFree | src/lazykit/path_kit.py:171-201 | Same error and unchanged-path cases as `gen_unique_path`, but the numbered path uses the least free N. |
| PathKit.Basename | src/lazykit/path_kit.py:121 | `os.path.basename`: the longest suffix of the path that contains no `/`. |
| PathKit.BasenameOfJoin | src/lazykit/path_kit.py:121 | A directory ending in `/` joined with a slash-free name has that name as base name. |
| PathKit.IsSystemFile | src/lazykit/path_kit.py:105-121 | `is_system_file`: the base name is one of the five names; characterised by IsSystemFileIff. |
| PathKit.IsSystemFileIff | src/lazykit/path_kit.py:105-121 | A path is a system file exactly when it is one of the five names, or ends with `/` followed by one of them. |
| PathKit.BasenameOfSuffix | src/lazykit/path_kit.py:121 | A path ending in a system name (alone or after `/`) has that name as base name. |
| PathKit.NoSlashInSystemNames | src/lazykit/path_kit.py:114-120 | None of the five system file names contains `/`. |
| DecodeKit.Invoke | src/lazykit/decode_kit.py:146-151 | The function is called with `char_sets` when that name is in its `__code__.co_varnames` (a parameter or a local variable), and without it otherwise. |
| DecodeKit.Wrap | src/lazykit/decode_kit.py:146-153 | A call that returns gives its value; one that raises gives a CodecError carrying its message. |
| DecodeKit.Dispatch | src/lazykit/decode_kit.py:136-172 | An unknown lower-cased name raises `Unsupported codec` listing the table's names. The dict-only error is raised exactly for the name `'dict'` with non-dict data. In every other case the result is the selected function's value, or a CodecError carrying what it raised. |
| DecodeKit.Codec.constructor | src/lazykit/decode_kit.py:118-132 | The tables hold exactly base64, percent, hex, unicode and dict, with hex bound to the hex functions. |
| DecodeKit.Codec.Encode | src/lazykit/decode_kit.py:136-153 | `encode` rejects unknown names and raises the dict-only error exactly for `'dict'` with non-dict data. Otherwise it returns what the encoder for the lower-cased name returned, or a CodecError carrying what it raised. |
| DecodeKit.Codec.Decode | src/lazykit/decode_kit.py:155-172 | `decode` rejects unknown names and raises the dict-only error exactly for `'dict'` with non-dict data. Otherwise it returns what the decoder for the lower-cased name returned, or a CodecError carrying what it raised. |
| DecodeKit.Codec.Register | src/lazykit/decode_kit.py:174-178 | `register` binds both functions under the lower-cased name, replacing any previous pair, and leaves every other name unchanged. |
| DecodeKit.CaseInsensitiveLookup | src/lazykit/decode_kit.py:139-160 | Names with the same lower-case form select the same entry and give the same result (the `'dict'` check aside). |
| DecodeKit.RegisteredDispatch | src/lazykit/decode_kit.py:174-178 | After `register`, any casing of the name dispatches to the registered pair, with failures wrapped in `CodecError`. |
| DecodeKit.StoredKeyDispatch | src/lazykit/decode_kit.py:139-178 | A name as `register` stored it, used again as the codec name, reaches the stored encoder and decoder. |
| DecodeKit.DictCheckIsCaseSensitive | src/lazykit/decode_kit.py:143-163 | `'dict'` with text raises the dict-only error. `'DICT'` with text passes the check and reaches the dict encoder. |
| DecodeKit.LowerDict | src/lazykit/decode_kit.py:139-144 | `'DICT'` and `'dict'` lower-case to the same table key. |
| DecodeKit.RoundTrip | src/lazykit/decode_kit.py:136-172 | For a name whose encoder and decoder are inverse, decoding what `encode` produced gives the original data. |
| DecodeKit.ToHex | src/lazykit/decode_kit.py:22-24 | `bytes.hex()` yields two lower-case hex digits per byte. |
| DecodeKit.HexValue | src/lazykit/decode_kit.py:29 | A hex digit of either case has a value below 16. |
| DecodeKit.FromHex | src/lazykit/decode_kit.py:29 | `bytes.fromhex` yields at most one byte per two characters read. |
| DecodeKit.HexDigitValue | src/lazykit/decode_kit.py:24-29 | Every digit `hex()` writes is read back by `fromhex` as its own value and is not white space. |
| DecodeKit.FromHexPair | src/lazykit/decode_kit.py:29 | `fromhex` reads a leading pair of digits as one byte, followed by the rest. |
| DecodeKit.HexRoundTrip | src/lazykit/decode_kit.py:22-29 | `bytes.fromhex(b.hex()) == b` for every byte string. |
| DecodeKit.HexEncode | src/lazykit/decode_kit.py:22-24 | `encode_to_hex` succeeds exactly on text the character set can encode, giving the hex of those bytes. |
| DecodeKit.HexDecode | src/lazykit/decode_kit.py:27-29 | `decode_from_hex` succeeds exactly on text that is valid hex whose bytes the character set can decode, giving that text. |
| DecodeKit.HexEncoder | src/lazykit/decode_kit.py:22-24 | The hex encoder entry is called with `char_sets`, falling back to the default character set. |
| DecodeKit.HexDecoder | src/lazykit/decode_kit.py:27-29 | The hex decoder entry is called with `char_sets`, falling back to the default character set. |
| DecodeKit.HexInverse | src/lazykit/decode_kit.py:22-29 | When every character set decodes what it encodes, the hex encoder and decoder, called with `char_sets`, are inverse. |
| DecodeKit.HexCodecRoundTrip | src/lazykit/decode_kit.py:121-172 | `Codec.encode(s, 'hex', cs)` is the hex of `s` encoded in `cs`, and `Codec.decode` of that gives `s` back. |
| DecodeKit.Reverse | src/lazykit/decode_kit.py:100-105 | `data[::-1]` has the same length, with position i holding the character mirrored from the end. |
| DecodeKit.ReverseExample | src/lazykit/decode_kit.py:99-114 | Registering `'reverse'` adds that entry to both tables and changes nothing else; encoding `'Hello'` then gives `'olleH'` and decoding that gives `'Hello'`. |
| ArgKit.WithArgs | src/lazykit/arg_kit.py:49-51 | Every option string is kept in order, and only the last one gets the argument text appended. |
| ArgKit.FormatActionInvocation | src/lazykit/arg_kit.py:37-52 | A positional action shows its metavar alone, and fails with the unpacking ValueError when the formatter yields other than exactly one metavar. With `nargs == 0`, the option strings are joined by `", "`. Otherwise they are joined with the text formatted from the upper-cased `dest` after the last one only. |
| ArgKit.SeparatorCount | src/lazykit/arg_kit.py:49-52 | With no commas in the option strings or the argument text, the output has exactly one comma fewer than there are option strings. |
| ArgKit.DocumentedOption | src/lazykit/arg_kit.py:29-52 | `-o/--option` with dest `option` is shown as `-o, --option OPTION`. |
| Strings.Lower | src/lazykit/decode_kit.py:139 | `str.lower()` on ASCII: same length, each letter mapped to lower case. |
| Strings.Upper | src/lazykit/arg_kit.py:47 | `str.upper()` on ASCII: same length, each letter mapped to upper case. |
| Strings.Join | src/lazykit/arg_kit.py:52 | `sep.join(parts)`: the parts in order with the separator between neighbours. |
| Strings.LowerIdempotent | src/lazykit/decode_kit.py:177-178 | Lower-casing a registered name again gives the same key. |
| Strings.JoinCountsSeparators | src/lazykit/arg_kit.py:52 | Joining k comma-free parts with a one-comma separator gives k-1 commas. |
| Strings.CountCharAppend | src/lazykit/arg_kit.py:51-52 | Counts of a character add up over concatenation. |

## Left out

- Time and sleeping: the clock is an input sequence, and sleeps are recorded rather than performed. `functools.wraps`, `*args/**kwargs` and `log_func`'s text are not modelled. The log holds structured messages in place of the formatted strings.
- Retry.Policy: `exceptions` is the set of every class name the `except` clause catches, the listed classes and their subclasses; the class hierarchy that produces that set is not modelled.
- Retry.Wrapper: `log_func` is assumed not to raise. In Python an exception from `log_func` (or from formatting `e` for the retry message) escapes the wrapper at once, before any sleep or further call; the model's log is a record that cannot fail.
- Retry.Wrapper: negative delays and backoffs are not rejected. In Python, `time.sleep` with a negative length raises `ValueError`, which escapes the wrapper. The model records the negative sleep and goes on.
- Retry.NextDelay: reals stand for Python floats, so rounding in `current_delay *= backoff` and in the duration test is not modelled.
- ModuleCheck.CheckModuleInstalled: `_check_module_installed` (the `importlib`/`pkg_resources` lookup, version comparison and its own `raise_error`) is a probe function. The probe's own exceptions are not modelled, for instance `importlib.util.find_spec` raising on an empty name or on a dotted name whose parent package is missing; such an exception would escape `check_module_installed`.
- ModuleCheck.CheckModuleInstalled: the docstring says the call returns `None` when `raise_error` is false. The code returns the issue list in that case, and the model follows the code.
- PathKit.GenUniquePath: the file system is a snapshot (`FsView`), so races between checks are not modelled. `OSError` re-raising and `Path` parsing failures are left out. The result `Numbered(N)` stands for `parent / f'{stem}{delimiter}{N}{suffix}'`.
- PathKit.Basename: POSIX separators only; Windows `\` and drive letters are not modelled.
- The other path helpers (`move_file`, `count_file`, `resolve_abs_path` and the rest of path_kit.py) are outside this model.
- DecodeKit.Codec.constructor: the base64, percent, unicode-escape and JSON dict codecs come from the Python standard library and are given as opaque entries. Only hex is modelled concretely.
- DecodeKit.Invoke: whether `char_sets` appears in `__code__.co_varnames` is a flag stored with each entry.
- Default arguments: `retry`'s `backoff=2.0` and `exceptions=(Exception,)` and the `char_sets=CODEC` (`'utf-8'`) default of `Codec.encode`/`Codec.decode` have no Dafny defaults; callers pass these values explicitly.
- DecodeKit.CodecError: errors are structured values. The message text (`Unsupported codec: ...`, `編碼失敗: ...`) and the ordering of the `Available:` list are not modelled.
- DecodeKit.Codec: the class-level tables are fields of one object, so sharing between all users of the class is not modelled. The default `char_sets` comes from `DEFAULT_CODEC`. constant.py is not part of this model, so the default is a constructor argument.
- Strings.Lower: `str.lower()`/`str.upper()` are modelled for ASCII letters only.
- ArgKit.FormatActionInvocation: argparse's `_metavar_formatter` and `_format_args` are opaque functions; the first is taken as returning the tuple of metavars for one argument, whose unpacking into `(metavar,)` is modelled, and the second as returning the argument text. The rest of `RawTextHelpFormatter` and the `spacing` constructor argument are not modelled.

## Findings

| source | as written | input that shows it | evidently intended | confidence | as-written member | corrected member |
|---|---|---|---|---|---|---|
| src/lazykit/path_kit.py:182-196 | The gallop/bisect search assumes the taken numbers are 1..n-1 with no gaps. | `name.txt`, `name_1`–`name_4`, `name_6`, `name_7` exist: the gallop stops at 8 and bisecting [1, 8] lands on 8, though 5 is free. | The comment at line 182 says it finds the first available number, i.e. `name_5`. | medium, not executed | PathKit.GapCounterexample | PathKit.GenUniquePathFirstFree |
