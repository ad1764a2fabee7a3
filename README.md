# rasa-completion: a Dafny model of `rasa_complete.py`

`rasa_complete.py` produces shell-completion suggestions for the `rasa` command
line. It does not hard-code rasa's argument grammar. Instead it runs the tool with
`--help`, scrapes the help text for positional choices (`{a,b,c}`) and optional
flags (`--flag`), and caches the result per command line for a fixed time.

This project models the three parts of that script and proves properties about them:

- **Help-text extractors** (`HelpText`, in `help_text.dfy`):
  - `find_positional_arguments` is `re.search(r"{(.*)}")`, followed by `strip()` and `split(",")`.
  - `find_optional_arguments` is `re.findall(r"[^\[](--[^\s]+)")`, with each group stripped.
  - Both patterns are written out as index functions on the text. This is
    not a general regex engine. Python's `.` matches anything but a line
    feed. `\s`, `str.strip()` and `str.split()` all use the same whitespace
    set, Python's `str.isspace` (`Strings.IsSpace`, in `strings.dfy`).
- **Command prober** (`Probe`, in `probe.dfy`):
  - `call_rasa` appends `--help` to the list it is given, in place, and runs the tool.
  - `call_rasa_until_valid` tries the whole tokenised command line. If that
    fails and stderr does not contain "expected one argument", it makes one
    more try with the last token dropped.
  - The tool is an oracle from an argument list to `Ok(stdout)` or
    `Err(stderr)`. A `Tool` object logs every argument list it was run with.
  - Python lists that are changed in place are `ArgList` objects.
  - `Backoff` is the function that specifies the prober.
- **Suggestion cache and main flow** (`SuggestionCache` in `cache.dfy`,
  `Completion` in `completion.dfy`):
  - The cache is an in-memory map from command line to `Entry(args, timestamp)`.
  - The main flow pops the command line from the map.
  - It recomputes the suggestions when the entry is missing, falsy, or more than 345600 seconds old.
  - It always stores the result back through `store_cache`, unless caching is turned off.
  - `Outcome` is the function that specifies one run.
- **Worked examples** (`Scenarios`, in `scenarios.dfy`) are lemmas about fixed
  inputs that pin down behaviour that is easy to misread.

Where the code's names or comments suggest something other than what it does, the model follows the code:

- `max_caching_time = 345_600` is four days, although the comment says "4 weeks". `MaxCachingTime` is 345600.
- `call_rasa_until_valid` does not loop "until valid". It makes at most two calls. A failure of the second call is the result (`Scenarios.SingleRetry`).
- The pieces of the positional group are not stripped one by one. Only the whole group is stripped, so `"{a, b}"` gives `"a"` and `" b"` (`Scenarios.PositionalKeepsInnerSpaces`).
- The greedy `.*` captures up to the last `}` of the line, so `"{a}{b}"` gives `"a}{b"`.
- In the main flow the variable called `positional_arguments` holds the optional flags, and vice versa. The emitted list is the optional flags, then the positional choices.
- A cache hit is stored again with a new timestamp, so each hit moves its expiry forward.
- A failure of the retry is not caught in the source. It propagates out of the script, so nothing is stored and nothing is printed. The model returns `Err(stderr)` and leaves the map as it was after the pop.

Inputs that the source takes from its environment are parameters:

- the clock (`now` for the staleness test at line 78, `later` for the timestamp written at line 67; both are integers);
- whether `RASA_AUTOCOMPLETE_CACHING_OFF` is set to a non-empty value (`cachingOff`). An empty value is falsy in Python and leaves caching on; any non-empty value, `0` and `false` included, turns it off;
- the tool's behaviour (`Oracle`).

## Model

| member | source | states |
|---|---|---|
| `Strings.IsSpace` | rasa_complete.py:20 | the whitespace of `strip()` (line 20), `split()` (line 40) and `\s` (line 26) is Python's `str.isspace` set: code points 9-13, 28-32, 0x85, 0xA0, 0x1680, 0x2000-0x200A, 0x2028, 0x2029, 0x202F, 0x205F and 0x3000; its properties come through `RunEnd`, `StripIsTrimmedInfix` and `Tokens` |
| `Strings.RunEnd` | rasa_complete.py:26 | the end of the maximal run of non-whitespace from a position: everything before it is non-whitespace, and it is the end of the text or a whitespace character |
| `Strings.Strip` | rasa_complete.py:20 | `str.strip()`; its contract is stated by `StripIsTrimmedInfix` (the result is the input with the surrounding whitespace removed) and `StripUnpadded` (an unpadded text is its own strip) |
| `Strings.StripIsTrimmedInfix` | rasa_complete.py:20 | `strip()` returns an infix of its input that has only whitespace around it and that neither begins nor ends with whitespace |
| `Strings.StripUnpadded` | rasa_complete.py:29 | a text that neither begins nor ends with whitespace, in particular one without any whitespace, is unchanged by `strip()` |
| `Strings.Split` | rasa_complete.py:20 | `split(",")` always returns at least one piece, no piece contains the separator, and joining the pieces with the separator gives back the input |
| `Strings.SplitJoin` | rasa_complete.py:20 | splitting the join of separator-free pieces returns those pieces: split and join are inverse |
| `Strings.Tokens` | rasa_complete.py:40 | `str.split()` yields no empty token and no token with whitespace, and the tokens together are exactly the non-whitespace characters of the input, in order; that the tokens are the maximal runs is stated by `TokensSplitsAtSpace` and `TokensOfJoin` |
| `Strings.TokensOfJoin` | rasa_complete.py:40 | `str.split()` undoes a single-space join of non-empty, whitespace-free tokens |
| `Strings.TokensSplitsAtSpace` | rasa_complete.py:40 | `str.split()` cuts at every whitespace character: the tokens of `a + c + b`, where `c` is whitespace, are the tokens of `a` followed by those of `b`; with `TokensOfJoin` on one token this fixes the result as the maximal non-whitespace runs |
| `Strings.Contains` | rasa_complete.py:46 | the substring test `in`; `ContainsInfix` and `ContainsWitness` state that it holds exactly when the phrase occurs at some offset |
| `Strings.ContainsInfix` | rasa_complete.py:46 | the `in` test finds the phrase wherever it stands in the text |
| `Strings.ContainsWitness` | rasa_complete.py:46 | when the `in` test succeeds, there is an offset at which the phrase occurs |
| `Strings.DropLast` | rasa_complete.py:50 | `[:-1]` leaves an empty list empty, and otherwise is the list with its last element removed |
| `HelpText.LineEnd` | rasa_complete.py:16 | where `.` stops: the first line feed at or after a position, or the end of the text, with no line feed before it |
| `HelpText.LastClose` | rasa_complete.py:16 | the last `}` in a range, or none: there is no `}` after it in that range |
| `HelpText.CloseAt` | rasa_complete.py:16-18 | tried at a `{`, the greedy pattern ends at a `}` on the same line, and at the last one there |
| `HelpText.Search` | rasa_complete.py:16-18 | `re.search` finds no match exactly when there is no `{`…`}` pair on one line; otherwise its match starts at the leftmost qualifying `{` and ends at the last `}` of that line |
| `HelpText.CapturedGroup` | rasa_complete.py:16-20 | the group exists exactly when some `{` has a `}` after it on its line; it is the text between the first such `{` and the last `}` of its line, and it has no line feed |
| `HelpText.FindPositionalArguments` | rasa_complete.py:15-22 | the result is empty exactly when no `{` has a `}` after it on its line; otherwise its pieces have no comma, and joined with "," they give the stripped group |
| `HelpText.PositionalPiecesDetermined` | rasa_complete.py:20 | the positional result is the only comma-free list whose join is the stripped group |
| `HelpText.FlagSpans` | rasa_complete.py:26-28 | every `findall` match starts after a consumed character that exists and is not `[`, begins with `--`, and runs to the end of its non-whitespace run |
| `HelpText.FlagSpansOrdered` | rasa_complete.py:26-28 | the matches are in text order and do not overlap: each one, with its consumed character, begins at or after the end of the one before |
| `HelpText.FlagSpansComplete` | rasa_complete.py:26-28 | no match is skipped: every position where the pattern could begin lies inside a reported match |
| `HelpText.FlagGroup` | rasa_complete.py:26 | the group of a match is `--` followed by at least one character, with no whitespace, so `strip()` leaves it unchanged |
| `HelpText.Group` | rasa_complete.py:26-28 | a match's group is at least three characters long, starts with `--`, and has no whitespace |
| `HelpText.StrippedGroups` | rasa_complete.py:29 | the list comprehension keeps one item per match, in order, each equal to its group |
| `HelpText.FindOptionalArguments` | rasa_complete.py:25-29 | one item per `findall` match, in order; each item is the text of its group, starts with `--`, is at least three characters long and has no whitespace |
| `Probe.ArgList.Append` | rasa_complete.py:33 | `append` adds one item at the end of the list, in place |
| `Probe.ArgList.Copy` | rasa_complete.py:43 | `copy()` is a new list object with the same items |
| `Probe.ArgList.DropLastItem` | rasa_complete.py:50 | `[:-1]` is a new list object without the last item |
| `Probe.Tool.Run` | rasa_complete.py:34-36 | one run of the tool is logged with exactly its arguments, and its result is what the oracle gives for them |
| `Probe.CallRasa` | rasa_complete.py:32-36 | call_rasa appends `--help` to the list it was given, in place, and runs the tool once with that list |
| `Probe.Backoff` | rasa_complete.py:39-50 | the first call gets the tokens plus `--help`; a success returns its stdout; a failure whose stderr has the phrase returns `""` with no second call; any other failure leads to exactly one more call, with the last token dropped, whose outcome is the result; so there are never more than two calls, and an error only comes from the second one |
| `Probe.BackoffProbesPrefixes` | rasa_complete.py:40-50 | every probed argument list is `--help` after a prefix of the tokens, at most one token shorter than the full list |
| `Probe.BackoffDependsOnlyOnCalls` | rasa_complete.py:39-50 | the tool is consulted only at the recorded argument lists: two tools that agree there give the same probe |
| `Probe.BackoffStopsOnExpectedArgument` | rasa_complete.py:44-48 | if the first call's stderr contains "expected one argument" anywhere, the result is `""` after that one call |
| `Probe.CallRasaUntilValid` | rasa_complete.py:39-50 | the tool's log grows by exactly the calls `Backoff` lists, and the result is `Backoff`'s result; because the first call gets a copy, the retry drops a token of the command and not the appended `--help` |
| `SuggestionCache.MustRecompute` | rasa_complete.py:78 | recompute when there is no value or a falsy one, or when the entry is strictly more than 345600 seconds old; `FreshUntilMaxCachingTime` and `RecomputeIsMonotonic` state what it decides |
| `SuggestionCache.FreshUntilMaxCachingTime` | rasa_complete.py:78 | an entry is reused exactly while `now - timestamp <= 345600`: it is still reused at exactly 345600 seconds and recomputed one second later |
| `SuggestionCache.RecomputeIsMonotonic` | rasa_complete.py:78 | once an entry must be recomputed, it must be recomputed at every later time |
| `SuggestionCache.Stored` | rasa_complete.py:61-67 | with caching off the map is unchanged; otherwise the key set gains the command, the command maps to the arguments stamped now, and every other key keeps its value |
| `SuggestionCache.StoredThenFresh` | rasa_complete.py:67 | right after storing, the command's entry holds the stored arguments and needs no recomputation |
| `SuggestionCache.Cache.Pop` | rasa_complete.py:77 | `pop(key, None)` returns the value under the key, or none, and removes the key |
| `SuggestionCache.StoreCache` | rasa_complete.py:61-67 | store_cache changes the dictionary in place, exactly as `Stored` says |
| `Completion.Suggestions` | rasa_complete.py:81-83 | the optional flags of a help text followed by its positional choices; `MissProbes` states that a miss emits exactly this list |
| `Completion.Outcome` | rasa_complete.py:76-87 | one run of the main flow as a function of the cache, the clock, the caching switch and the tool; `Complete` is proved equal to it, and `RunStoresCommand`, `RunWithoutStore`, `HitRefreshes`, `MissProbes` and `SecondRunHits` state its properties |
| `Completion.RunStoresCommand` | rasa_complete.py:76-87 | with caching on, a run that emits suggestions ends with the old key set plus the command line; that key maps to the emitted list stamped with the store time; every other key is unchanged |
| `Completion.RunWithoutStore` | rasa_complete.py:76-87 | with caching off, or when probing fails, the map is the one read, without the popped command line |
| `Completion.HitRefreshes` | rasa_complete.py:84-87 | a fresh cache hit makes no tool call and emits the cached list; with caching on it stores that same list again with a new timestamp |
| `Completion.MissProbes` | rasa_complete.py:78-83 | a miss makes exactly the probe's calls and emits the optional flags of the help text followed by its positional choices, or else the probe's error |
| `Completion.SecondRunHits` | rasa_complete.py:76-87 | a second run no later than 345600 seconds after the first one's store makes no tool call and emits what the first run emitted |
| `Completion.Complete` | rasa_complete.py:76-87 | the main flow leaves the cache, the tool log and the result exactly as `Outcome` describes |
| `Scenarios.WholeLineGroup` | rasa_complete.py:16-20 | a one-line text that begins with `{` and ends with `}` captures everything in between |
| `Scenarios.PositionalKeepsInnerSpaces` | rasa_complete.py:20 | `"{a, b}"` gives `["a", " b"]`: the pieces keep their inner spaces |
| `Scenarios.PositionalGreedyAcrossGroups` | rasa_complete.py:16-20 | `"{a}{b}"` gives `["a}{b"]`: the greedy group spans two brace groups |
| `Scenarios.EmptyBraces` | rasa_complete.py:16-20 | `"{}"` gives `[""]`: an empty group splits into one empty piece |
| `Scenarios.PositionalNeedsOneLine` | rasa_complete.py:16-22 | `"{a\nb}"`, whose only `{` and `}` are on different lines, gives no positional arguments |
| `Scenarios.NoFlagNoSpans` | rasa_complete.py:26-29 | a text where the optional pattern can begin nowhere gives no optional arguments |
| `Scenarios.BracketedFlagSkipped` | rasa_complete.py:26-29 | `"x[--hidden"` gives no optional argument: the flag directly follows `[` |
| `Scenarios.FlagAfterSpace` | rasa_complete.py:26-29 | `" --a"` gives `["--a"]`: the consumed character is not part of the item |
| `Scenarios.FlagAtStartSkipped` | rasa_complete.py:26-29 | `"--a"` gives nothing: a flag at the start of the text has no preceding character |
| `Scenarios.ThreeTokens` | rasa_complete.py:40 | `"a b c".split()` is `["a", "b", "c"]` |
| `Scenarios.SingleRetry` | rasa_complete.py:39-50 | for `"a b c"`, with a tool that accepts only `a --help`, the calls are `a b c --help` and then `a b --help`, and the second failure is the result |

## Left out

- Running the subprocess and decoding its output as UTF-8 (lines 34-36, 45). The tool is an oracle that returns the stdout or stderr text. Errors other than a non-zero exit are not modelled, for example a missing executable (`FileNotFoundError`) or undecodable bytes.
- Reading and writing the cache file and its JSON encoding (`get_cache`, lines 53-58; lines 68-70). The model works on the in-memory map. It does not model a malformed cache file, which is a parse error.
- The cache file as distinct from the in-memory dictionary. `Outcome` gives the dictionary after one run. The file is rewritten only when caching is on and the run succeeds. With caching off, or after a failed probe, the file still holds the popped command line. Chaining `Outcome` in that case therefore does not describe what the next run reads.
- A cached value that is truthy but is not a well-formed entry, such as an object without `"timestamp"`, which makes the source raise `KeyError`. Falsy values (an empty object, `null`, and the like) are modelled as `Falsy`.
- The clock. `time.time()` is a float; the model uses integers `now` and `later`.
- The environment. The model takes a boolean `cachingOff` instead of calling `os.environ.get`. The boolean is true exactly when the variable has a non-empty value.
- Reading `argv[1]` (line 74) and printing the suggestions (lines 89-90).
- Two completions running at the same time and writing the same cache file. This is concurrency, which the sequential model does not cover.
- A general regular-expression engine. Only the two fixed patterns of lines 16 and 26 are modelled.
