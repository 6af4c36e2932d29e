# EDR event log normaliser — a Dafny model

This project models the event pipeline of `edr_task`:

- An input line is one JSON object describing a process event (exec, fork, create or open).
- The pipeline reads each line's timestamp text (`event_time_t::parse_time`).
- It classifies the event by kind and pulls out the process path and a kind-specific target path (`event_t::parse_event` and its helpers).
- It keeps every line that classifies and skips every line that fails.
- It sorts the kept events by timestamp and groups them by process path into a `std::map`.
- It renders each group as a fixed-width table (`CParser`).

Modules, in dependency order:

| module | file | contents |
|---|---|---|
| `Wrappers` | `wrappers.dfy` | `Option` and `Result`, in place of the C++ exceptions |
| `Text` | `text.dfy` | digit and whitespace classes, `std::string(k, c)`, and the UTF-8 bytes a `std::string` holds for a text |
| `Timestamps` | `timestamps.dfy` | `event_time_t` |
| `Json` | `json.dfy` | an already-parsed JSON value, with `contains`, the const `operator[]` and the string conversion |
| `Events` | `events.dfy` | `event_t` |
| `Store` | `store.dfy` | `CParser`'s ingest loop, `std::sort` and `group_by_process` |
| `Report` | `report.dfy` | the rows and rules of the two renderers, and `center` |

More detail on the four main modules:

- **`Timestamps`**
  - `parse_time` reads the UTF-8 bytes of its text (`ParseTime` is `ParseBytes` of `Utf8`). It follows the `>>` extractions one by one over the stream's remaining bytes: whitespace skip, optional sign, at least one digit, failure on `int`/`long long` overflow, one byte for a `char`, and `ignore(1)`.
  - `to_string` is `ToString`.
  - `operator<` is lexicographic order over the seven fields (`Less`).
- **`Events`**
  - The specification is the function `Classify`. It has one extraction rule per kind.
  - Class `EventRecord` holds the four fields of `event_t`. Its methods set those fields step by step, as the C++ helpers do.
  - `EventRecord.ParseEvent` is proved equal to `Classify`.
- **`Store`**
  - Class `Parser` holds the `events` vector as a sequence.
  - `Parse` appends one event per accepted line, then sorts and then groups.
  - The sort is an insertion sort by swaps, proved to produce a sorted permutation.
  - The map is a list of groups whose keys strictly ascend in string order.
- **`Report`**
  - Pure functions produce the bytes each renderer writes.
  - `setw` widths count bytes: the event's process, kind and target go into their cells as UTF-8 bytes.

## Model

| member | source | states |
|---|---|---|
| Timestamps.Less | task2/edr_task/include/edr_task.hpp:40-43 | `std::tie` comparison of the seven fields in order; its order properties are stated by the five lemmas below |
| Timestamps.LessIrreflexive | task2/edr_task/include/edr_task.hpp:40-43 | no timestamp is earlier than itself |
| Timestamps.LessTransitive | task2/edr_task/include/edr_task.hpp:40-43 | earlier-than is transitive |
| Timestamps.LessTrichotomy | task2/edr_task/include/edr_task.hpp:40-43 | two timestamps are incomparable exactly when all seven fields are equal, and never each earlier than the other |
| Timestamps.NotLessTransitive | task2/edr_task/include/edr_task.hpp:40-43 | "not earlier" is transitive too, so the order is total |
| Timestamps.LessDecidedByFirstDifference | task2/edr_task/include/edr_task.hpp:40-43 | the order is decided by the first of year … microsecond that differs |
| Timestamps.ReadInt | task2/edr_task/include/edr_task.hpp:21-23 | an integer extraction yields a value within the target type's range and consumes input |
| Timestamps.ReadIntValue | task2/edr_task/include/edr_task.hpp:21-23 | after any whitespace, an optional `-` or `+` and a run of digits, the extraction yields the signed value and stops at the first non-digit when the value fits the type, and fails when it does not |
| Timestamps.ReadIntNoDigit | task2/edr_task/include/edr_task.hpp:21-23 | whitespace and an optional sign with no digit after them fail the extraction, as does the end of input |
| Timestamps.ReadChar | task2/edr_task/include/edr_task.hpp:21-22 | a `char` extraction never yields whitespace and consumes input |
| Timestamps.ReadCharValue | task2/edr_task/include/edr_task.hpp:21-22 | a `char` extraction skips whitespace and takes exactly the next byte; at the end of input it fails |
| Timestamps.ParseTime | task2/edr_task/include/edr_task.hpp:17-26 | a text that reads gives every field a value of its C++ type: `int` for year to second, `long long` for the microsecond; `None` is the thrown "Invalid time format" |
| Timestamps.ToString | task2/edr_task/include/edr_task.hpp:28-38 | the seven fields zero-padded to widths 4, 2, 2, 2, 2, 2, 6 with `-`, `-`, space, `:`, `:`, `.` between them; its length, shape and round trip are stated by ToStringLength, ToStringCanonical and RoundTrip |
| Timestamps.PadLeft | task2/edr_task/include/edr_task.hpp:30-36 | `setw` with `setfill('0')` gives length max(width, text), ends with the text, fill in front: never cuts |
| Timestamps.ToStringLength | task2/edr_task/include/edr_task.hpp:28-38 | the text form is at least 26 characters, and exactly 26 when each field is non-negative and fits its width |
| Timestamps.ToStringCanonical | task2/edr_task/include/edr_task.hpp:28-38 | for such a timestamp the text is `YYYY-MM-DD HH:MM:SS.ffffff`: separators at fixed places, digits elsewhere |
| Timestamps.ToStringAscii | task2/edr_task/include/edr_task.hpp:28-38 | the text form is ASCII, so its bytes are its characters |
| Timestamps.RoundTrip | task2/edr_task/include/edr_task.hpp:17-38 | reading back the text of a timestamp whose fields fit gives that timestamp |
| Timestamps.ParseAnySeparators | task2/edr_task/include/edr_task.hpp:17-26 | the separators are not checked: any one-byte non-digit works, non-space where read with `>>`. Nor are calendar ranges: month 13 reads back as 13 |
| Timestamps.NonAsciiDelimiterFails | task2/edr_task/include/edr_task.hpp:17-23 | a separator outside ASCII after the year fails the text: `char delimiter` takes only its first byte, and the month extraction then meets a continuation byte |
| Timestamps.ParseCanonical | task2/edr_task/include/edr_task.hpp:17-26 | a canonical text reads as the values of its seven digit groups |
| Timestamps.CanonicalInjective | task2/edr_task/include/edr_task.hpp:17-26 | two canonical texts that read the same are the same text |
| Timestamps.CanonicalRoundTrip | task2/edr_task/include/edr_task.hpp:17-38 | every canonical text is the text form of the timestamp read from it |
| Timestamps.NoDigitsFails | task2/edr_task/include/edr_task.hpp:21-25 | a text without digits fails (the throw at line 24) |
| Timestamps.ParseNeedsSevenGroups | task2/edr_task/include/edr_task.hpp:21-25 | a text that reads has at least seven runs of digits: each integer extraction consumes exactly one |
| Timestamps.MissingTokenFails | task2/edr_task/include/edr_task.hpp:21-25 | every prefix of a canonical text that stops before the microsecond's digits fails, whichever token is cut: all seven tokens are required |
| Json.WalkAppend | task2/edr_task/include/edr_task.hpp:97-119 | a chain of `operator[]` accesses can be split at any point |
| Json.HasPathStep | task2/edr_task/include/edr_task.hpp:97-119 | a path extends by a key exactly when the object reached `contains` it |
| Events.Before | task2/edr_task/include/edr_task.hpp:71-73 | `event_t::operator<` compares the times only; Store.BeforeIsStrictWeakOrder states its order properties |
| Events.Classify | task2/edr_task/include/edr_task.hpp:52-119 | `parse_event` on a fresh record: the time, the first kind present, the process path and the kind's target, or the error that skips the line; the Events lemmas below state its properties, and EventRecord.ParseEvent is proved equal to it |
| Events.EventRecord.constructor | task2/edr_task/include/edr_task.hpp:46-50 | a fresh `event_t` has empty kind, process and target |
| Events.EventRecord.ParseEvent | task2/edr_task/include/edr_task.hpp:52-69 | on a fresh record, succeeds exactly when `Classify` does and then holds the classified event; fails with `Classify`'s error otherwise |
| Events.EventRecord.GetProcessPath | task2/edr_task/include/edr_task.hpp:76-80 | sets `process` from `process.executable.path` when `process` has `executable`, else leaves it; a failed access leaves it and reports the error |
| Events.EventRecord.ParseEventDetails | task2/edr_task/include/edr_task.hpp:82-95 | applies the target rule of the record's kind and changes nothing else |
| Events.EventRecord.ParseExecTarget | task2/edr_task/include/edr_task.hpp:97-101 | the exec target rule |
| Events.EventRecord.ParseForkTarget | task2/edr_task/include/edr_task.hpp:103-107 | the fork target rule |
| Events.EventRecord.ParseOpenTarget | task2/edr_task/include/edr_task.hpp:109-113 | the open target rule |
| Events.EventRecord.ParseCreateTarget | task2/edr_task/include/edr_task.hpp:115-119 | the create target rule |
| Events.EventRecord.TakeTarget | task2/edr_task/include/edr_task.hpp:97-119 | one guarded copy: `target` becomes the string at the full path when the guard key is there, and is left alone otherwise |
| Events.FirstKindFromSpec | task2/edr_task/include/edr_task.hpp:57-63 | the search from position i finds the first kind at or after i that is a key, or none exactly when there is none |
| Events.KindIsFirstPresent | task2/edr_task/include/edr_task.hpp:57-63 | the kind is the first of exec, fork, create, open present in `event` (both directions), and empty exactly when none is |
| Events.ClassifiedKind | task2/edr_task/include/edr_task.hpp:57-68 | a classified event's kind is that first match, and an empty kind comes with empty process and target |
| Events.UnclassifiedIsKept | task2/edr_task/include/edr_task.hpp:57-68 | an `event` object without any of the four kinds still yields an event with empty kind, process and target, even without a "process" key |
| Events.TimeOfEvent | task2/edr_task/include/edr_task.hpp:53-55 | the time is read from "time" when the key is there and is the record's initial value otherwise |
| Events.TimeFromString | task2/edr_task/include/edr_task.hpp:53-55 | a "time" string that reads gives the event exactly the time read from it |
| Events.BadTimeSkipsLine | task2/edr_task/include/edr_task.hpp:53-55 | a "time" that is not a string, or does not parse, fails the line |
| Events.CopyIfPresentMeaning | task2/edr_task/include/edr_task.hpp:97-119 | a guarded copy that succeeded took the string at the full path if the guard key was there and kept the old value if not |
| Events.ProcessFollowsPath | task2/edr_task/include/edr_task.hpp:76-80 | a classified event's process is the string at `process.executable.path` when `process.executable` exists, else empty |
| Events.TargetFollowsKindPath | task2/edr_task/include/edr_task.hpp:82-119 | the target follows its kind's path. exec: `event.exec.target.executable.path`. fork: `event.fork.child.executable.path`. create: `event.create.destination.existing_file.path`. open: `event.open.file.path`. Each is taken only when the guard key exists, else the target is empty |
| Events.SkippedLines | task2/edr_task/include/edr_task.hpp:52-80 | a JSON value that is not an object, an object without "event", and a classified line without "process" all fail |
| Events.ExecLineShape | task2/edr_task/include/edr_task.hpp:52-119 | an exec line with a target and a process path classifies as exec with both paths, whenever its time parses |
| Events.ExecLineTime | task2/edr_task/include/edr_task.hpp:17-38 | "2024-01-02 03:04:05.678901" is canonical, reads as that timestamp and renders back unchanged |
| Events.ExecLineClassified | task2/edr_task/include/edr_task.hpp:52-119 | the worked example: that exec line gives time 2024-01-02 03:04:05.678901, process /bin/bash, kind exec, target /bin/ls |
| Store.StrLessIrreflexive | task2/edr_task/include/edr_task.hpp:144-150 | the map's key order is irreflexive |
| Store.StrLessTransitive | task2/edr_task/include/edr_task.hpp:144-150 | the map's key order is transitive |
| Store.StrLessTotal | task2/edr_task/include/edr_task.hpp:144-150 | distinct keys are ordered one way or the other |
| Store.NotAfterTransitive | task2/edr_task/include/edr_task.hpp:71-73 | "not after" between events chains |
| Store.BeforeIsStrictWeakOrder | task2/edr_task/include/edr_task.hpp:71-73 | `event_t::operator<` is irreflexive and asymmetric, and events are unordered exactly when their times are equal: the strict weak order `std::sort` needs |
| Store.Append | task2/edr_task/include/edr_task.hpp:147 | `groupedEvents[e.process].push_back(e)` keeps keys ascending and adds e to the end of its own key's events and nowhere else. It grows the total by one |
| Store.AppendNonEmpty | task2/edr_task/include/edr_task.hpp:147 | appending never leaves a group without events |
| Store.Parser.constructor | task2/edr_task/include/edr_task.hpp:246 | the parser starts with no events |
| Store.Parser.Parse | task2/edr_task/include/edr_task.hpp:124-141 | afterwards `events` is a permutation of the old events plus one event per accepted line, sorted by time, and the groups are the grouping of it with sizes summing to its length |
| Store.Parser.SortEvents | task2/edr_task/include/edr_task.hpp:137 | the events become a permutation of themselves that is non-decreasing in time |
| Store.Parser.GroupByProcess | task2/edr_task/include/edr_task.hpp:144-150 | keys ascend, no group is empty, each key holds exactly the events with that process path in their order, and the sizes sum to the number of events |
| Store.Ingest | task2/edr_task/include/edr_task.hpp:127-135 | one line: not JSON fails; otherwise the outcome of `parse_event` on a fresh record |
| Store.Accepted | task2/edr_task/include/edr_task.hpp:126-136 | the events of the lines that `Ingest` accepts, in line order; the lemmas below state it |
| Store.AcceptedAppend | task2/edr_task/include/edr_task.hpp:126-136 | lines contribute independently and in order |
| Store.SkippedLine | task2/edr_task/include/edr_task.hpp:127-135 | a failing line (not JSON, bad time, rejected access) contributes nothing, and the lines after it are still read |
| Store.KeptLine | task2/edr_task/include/edr_task.hpp:127-132 | a line that classifies contributes exactly its event, at its place |
| Store.DegenerateLineKept | task2/edr_task/include/edr_task.hpp:126-136 | a line whose `event` holds none of the four kinds is kept, with empty kind, process and target |
| Store.AcceptedMembership | task2/edr_task/include/edr_task.hpp:126-136 | an event is accepted exactly when some line classifies to it |
| Store.FilterMembership | task2/edr_task/include/edr_task.hpp:144-150 | a process's events are exactly the events with that process path |
| Store.FilterSorted | task2/edr_task/include/edr_task.hpp:137-150 | taking one process's events out of a time-sorted sequence keeps them sorted |
| Store.GroupingComplete | task2/edr_task/include/edr_task.hpp:144-150 | every event is in the group of its process path, a group holds only events of its own path, and no path has two groups |
| Store.OrderWithinGroup | task2/edr_task/include/edr_task.hpp:137-150 | two events of one process with times T1 < T2 appear in that group as T1 before T2 |
| Report.Cell | task2/edr_task/include/edr_task.hpp:187-191 | a left-justified cell is max(width, value) bytes long, starts with the value's bytes, and the rest is spaces |
| Report.Row | task2/edr_task/include/edr_task.hpp:195-199 | one row: four left-justified cells and a newline; RowColumns, RowWidth and RowStart state its layout |
| Report.Header | task2/edr_task/include/edr_task.hpp:187-191 | the title row Time, Process, Event, Target; HeaderMatchesRule states its width |
| Report.Rule | task2/edr_task/include/edr_task.hpp:192 | dashes over the four widths and a newline; RuleWidths states it |
| Report.EventRow | task2/edr_task/include/edr_task.hpp:194-199 | an event's row: the time text, then the UTF-8 bytes of process, kind and target |
| Report.GroupBlock | task2/edr_task/include/edr_task.hpp:186-202 | one group: header, rule, a row per event in order, two newlines |
| Report.Blocks | task2/edr_task/include/edr_task.hpp:186-202 | one block per group, in map order: block k is the block of group k |
| Report.Render | task2/edr_task/include/edr_task.hpp:186-202 | the whole output: the blocks written one after the other; RenderConcat, RenderSplit and RenderKeyOrder state its order |
| Report.RowColumns | task2/edr_task/include/edr_task.hpp:194-199 | when the values fit, a row is the sum of the widths plus a newline, and each column starts at the sum of the widths before it |
| Report.RowWidth | task2/edr_task/include/edr_task.hpp:194-199 | a row's length is the sum of max(width, value) over its four cells plus one: nothing is cut |
| Report.RowStart | task2/edr_task/include/edr_task.hpp:195-196 | a row starts with its first value |
| Report.RuleWidths | task2/edr_task/include/edr_task.hpp:192 | the rule is one dash per column position and a newline; 132 dashes for the console and 295 for the file (line 232) |
| Report.HeaderMatchesRule | task2/edr_task/include/edr_task.hpp:187-192 | for both tables the header row is exactly as long as the rule under it |
| Report.TimeColumnReadsBack | task2/edr_task/include/edr_task.hpp:196 | a row starts with the text of the event's time, and reading that text back gives the time |
| Report.RowBlankTail | task2/edr_task/include/edr_task.hpp:194-199 | with the first two values fitting, empty third and fourth values give blanks up to the newline |
| Report.DegenerateRowBlank | task2/edr_task/include/edr_task.hpp:194-199 | an event without a kind shows blank Event and Target columns |
| Report.RenderConcat | task2/edr_task/include/edr_task.hpp:186-202 | the report of two lists of groups is the first report followed by the second |
| Report.RenderSplit | task2/edr_task/include/edr_task.hpp:186-202 | the report is the groups before group k, then the block of group k, then the groups after it |
| Report.RenderKeyOrder | task2/edr_task/include/edr_task.hpp:186-202 | of two groups, the one with the smaller process path is written first, with the groups between them written between them: the `std::map` iteration order |
| Report.Center | task2/edr_task/include/edr_task.hpp:172-178 | lengths are in bytes. A text at least `width` bytes long is returned as its bytes. Otherwise the result is exactly `width` long, with the text's bytes after (width - len) / 2 spaces, spaces after them, and a right pad equal to the left pad or one more |
| Text.Utf8Longer | task2/edr_task/include/edr_task.hpp:187-191 | text with a character outside ASCII has more bytes than characters, so it fills more of a `setw` column than its character count |

## Left out

Not modelled:

- **Reading input.**
  - `main` in `task2/edr_task/edr_task.cpp` and the `std::getline` loop over the file are not modelled.
  - `Parser.Parse` receives the lines already parsed as JSON: `Some(json)`, or `None` for a line that is not JSON.
- **JSON syntax.**
  - `json::parse` is not modelled.
  - Numbers, booleans, null and arrays are one `Other` value, because the classifier never looks inside them.
- **Missing keys.**
  - The const `operator[]` on a missing key is undefined behaviour in the JSON library.
  - It is modelled as a `MissingKey` failure, which skips the line.
- **Writing output.**
  - `write_grouped_events` (lines 152-170) is not modelled: it reads the menu choice and file name from standard input.
  - The `std::cout`/`std::ofstream` writes and the failure to open the output file (lines 220-224) are not modelled.
  - `Render(Console, groups)` and `Render(File, groups)` give the text that would be written.
- **Error reporting.** The `std::cerr` messages for skipped lines are not modelled. The line-level error is a `LineError` value.
- **The initial time.**
  - A record created for a line without "time" has an uninitialised time in the C++.
  - The model takes it as a parameter `unset`, with one value for all lines of a run.
- **`center` call sites.**
  - `center` has no callers in the code.
  - The lambda at lines 212-218 has the same body, so `Center` stands for both.
  - `int len = s.length()` narrowing for strings over 2^31 characters is not modelled.
- **Character model.**
  - Text from JSON is a sequence of Unicode characters. A `std::string` holds its UTF-8 bytes, given by `Utf8`; a byte is a character below 256.
  - `ParseTime` reads the bytes, so `char delimiter` takes one byte: a separator outside ASCII fails (`NonAsciiDelimiterFails`).
  - `Cell`, `EventRow` and `Center` count bytes, as `setw` and `length()` do; `Utf8Longer` states when bytes outnumber characters.
  - `StrLess` compares characters. For UTF-8 text this is the same order as comparing bytes as `unsigned char`, which `std::string` does.
- **Negative fields in `ToString`.** The fill goes in front of the minus sign, as `setw` with right alignment does ("00-5"). No property is claimed for negative fields beyond the length bound.

Deliberate limits of the contracts:

- Store.Parser.SortEvents:
  - The sort is an insertion sort, standing in for `std::sort`.
  - Its contract states only what `std::sort` promises: a permutation, non-decreasing in time.
  - It does not claim stability: the order of events with equal timestamps is unspecified in the C++.
- Events.EventRecord.ParseEvent:
  - The contract requires a freshly initialised record, which is the only way the caller uses it.
  - On failure it says nothing about the partially updated fields, because the caller discards the record.

Behaviour of the code that the model keeps:

- **No stability.** The sort at line 137 is `std::sort`, which is not stable, so no order among events with equal times is claimed.
- **Wrong-shaped fields skip the line.**
  - The target helpers (lines 97-119) check only the guard key. Below it they index and convert without checks.
  - A wrong shape throws a type error, or meets a missing key, and the line is skipped.
  - Examples: `target` present but not an object, `executable` missing below it, a non-string `path`.
- **A missing "process" skips the line.**
  - `get_process_path` (lines 76-80) indexes `json["process"]` unguarded, and it runs whenever a kind was found. So such a line is skipped.
  - A line with no kind never reads "process" and is kept.
