# todore: a verified model of the task list, its plaintext export and its command parser

todore is a small interactive TODO-list manager written in Rust (one file,
`src/main.rs`). A session keeps an ordered list of tasks in memory. Each task
has a `u32` id, a description and a status (`NotStarted`, `InProgress` or
`Completed`). One line of input at a time is parsed into a command (add,
remove, update, export, quit) and applied to the list. The list can be
exported as plain text, JSON or YAML, and can be seeded from JSON.

This project models the core of that program in Dafny and proves its
properties:

- `tasks.dfy` (module `Tasks`): `Task`, `TaskStatus`, `Task::new`, the status
  synonym table (`TaskStatus::from_str`) and the display names (`Display`).
- `task_list.dfy` (module `TaskLists`): `TaskList` as a class whose `tasks`
  field is changed in place by `Add`, `Remove` (the `retain` loop),
  `UpdateStatus`, `UpdateDescription` and `Import`; `Find` is the
  `iter_mut().find` loop and changes nothing. `Remove` is specified against
  the pure function `Without`, and `Find` and the two updates against
  `FirstMatch`; the lemmas beside those functions state what removal and
  update promise. `Add` and `Import` state the new list directly.
- `plaintext.dfy` (module `Plaintext`): `PlaintextFormatter::format`, one
  `<id>: <description>\t<status>` line per task, joined with newlines.
- `commands.dfy` (module `Commands`): `Format::from_str`,
  `TaskField::from_str` and `Command::from_str`, with its exact error
  messages.
- `strings.dfy`, `decimal.dfy`, `results.dfy`: the standard-library behaviour
  the core relies on. These are `split(" ")`, `join("\n")`, `to_lowercase`,
  printing a `u32` with `{}`, `str::parse::<u32>`, and `Result`/`Option`.

Two behaviours of `Command::from_str` differ from what the program's
interface suggests. The model follows the parsing code:

- `export` needs an output-file token: a line with fewer than three pieces
  fails with "Invalid arguments for export." (`src/main.rs:241`). The help
  text printed by `main` (`src/main.rs:279`) shows `export` with a format
  only.
- `Command::from_str` matches the command word and the format word exactly
  as typed. Only the field selector is lowercased (`src/main.rs:234`).
  Commands typed in capitals work in a session only because `main`
  lowercases the whole input line first (`src/main.rs:285`), and `main` is
  outside this model.

## Model

| member | source | states |
|---|---|---|
| `Tasks.NewTask` | src/main.rs:65-71 | a new task has exactly the given id and description, and status `NotStarted` |
| `Tasks.ParseStatus` | src/main.rs:81-91 | closed table: `NotStarted` iff "not started"/"ns", `InProgress` iff "in progress"/"ip", `Completed` iff "completed"/"c"; anything else fails with "Error while parsing task status" |
| `Tasks.ParseStatusRejects` | src/main.rs:405-411 | "", "notstarted", "done", "invalid" and the capitalised "Completed" are rejected |
| `Tasks.StatusName` | src/main.rs:93-103 | display names are non-empty and contain no newline or tab, so they never end a line with a newline |
| `Tasks.StatusNames` | src/main.rs:414-418 | the display names are exactly "Not Started", "In Progress" and "Completed" |
| `Tasks.StatusNameInjective` | src/main.rs:93-103 | distinct states have distinct display names |
| `Tasks.StatusNameParsesBack` | src/main.rs:81-103 | the lowercased display name of every state parses back to that state |
| `TaskLists.Without` | src/main.rs:118-120 | what `retain` keeps: no task with the id remains, nothing grows, and only tasks of the input appear |
| `TaskLists.WithoutLength` | src/main.rs:118-120 | exactly the tasks carrying the id are removed (all of them, not only the first) |
| `TaskLists.WithoutAppend` | src/main.rs:118-120 | removal distributes over concatenation, so the kept tasks keep their relative order |
| `TaskLists.WithoutKeepsOthers` | src/main.rs:118-120 | every task with another id is kept as many times as it occurred |
| `TaskLists.WithoutAbsent` | src/main.rs:118-120 | removing an id that no task carries is a no-op |
| `TaskLists.WithoutIdempotent` | src/main.rs:118-120 | removing the same id twice equals removing it once |
| `TaskLists.FirstMatch` | src/main.rs:123-131 | returns the index of a task carrying the id with no earlier one, or None exactly when no task carries it |
| `TaskLists.FirstMatchUnique` | src/main.rs:123-131 | any index meeting the first-match conditions is `FirstMatch` |
| `TaskLists.NotFoundMessage` | src/main.rs:127 | the message starts with "Task with id " and ends with " was not found", and the text between them parses back to the id |
| `TaskLists.MissingIdMessage` | src/main.rs:457-469 | the message for id 999 is exactly "Task with id 999 was not found" |
| `TaskLists.UpdateKeepsIds` | src/main.rs:122-137 | an update keeps every id, so later lookups are unchanged and removing the updated id erases the update |
| `TaskLists.TaskList.constructor` | src/main.rs:110-112 | a new list is empty |
| `TaskLists.TaskList.Add` | src/main.rs:114-116 | the task is appended at the end and all earlier tasks are unchanged |
| `TaskLists.TaskList.Remove` | src/main.rs:118-120 | the new list is `Without(old list, id)`; a missing id is not an error |
| `TaskLists.TaskList.Find` | src/main.rs:123 | the linear search returns `FirstMatch(tasks, id)` |
| `TaskLists.TaskList.UpdateStatus` | src/main.rs:122-129 | on a present id only the status of the first matching task changes and the result is Ok; on an absent id the list is unchanged and the error is "Task with id <id> was not found" |
| `TaskLists.TaskList.UpdateDescription` | src/main.rs:130-137 | the same, for the description field |
| `TaskLists.TaskList.Import` | src/main.rs:146-150 | a decoded payload replaces the whole list; a decoding error is returned and leaves the list unchanged |
| `Plaintext.Line` | src/main.rs:19 | a task's line is never empty, and it holds a newline exactly when the description does |
| `Plaintext.LineShape` | src/main.rs:19 | a line starts with the decimal id and ": ", ends with a tab and the status name, and holds exactly the description between them |
| `Plaintext.Lines` | src/main.rs:17-20 | one line per task, and a line holds a newline exactly when its task's description does |
| `Plaintext.Format` | src/main.rs:15-22 | the rendering is empty exactly when the list is |
| `Plaintext.FormatEmpty` | src/main.rs:15-22 | an empty list renders as "" |
| `Plaintext.FormatNoTrailingNewline` | src/main.rs:15-22 | a non-empty rendering never ends with a newline |
| `Plaintext.FormatOneLinePerTask` | src/main.rs:15-22 | with newline-free descriptions, splitting the output at newlines gives exactly one line per task, in list order, and there are |tasks| - 1 newlines |
| `Plaintext.FormatAppend` | src/main.rs:15-22 | appending a task appends a newline and that task's line |
| `Plaintext.FormatPair` | src/main.rs:15-22 | two tasks render as their two lines around one newline |
| `Plaintext.FormatExample` | src/main.rs:505-517 | the test's list of two fresh tasks renders as "1: Task 1\tNot Started\n2: Task 2\tNot Started" |
| `Plaintext.FormatCompletedExample` | src/main.rs:15-22 | a list whose second task is completed renders as "1: Task 1\tNot Started\n2: Task 2\tCompleted" |
| `Strings.Split` | src/main.rs:213 | splitting on a space yields at least one piece (so `parts[0]` always exists), and no piece contains the separator |
| `Strings.Join` | src/main.rs:21 | a join begins with its first piece and has at least one character per gap between pieces |
| `Strings.JoinSplit` | src/main.rs:213 | joining the pieces with the separator restores the line: splitting loses nothing |
| `Strings.SplitAppend` | src/main.rs:213 | splitting at a separator splits each side on its own |
| `Strings.SplitJoin` | src/main.rs:21 | splitting a join of separator-free pieces returns the pieces |
| `Strings.JoinEndsWithLast` | src/main.rs:21 | a join ends with its last piece |
| `Strings.JoinSeparatorCount` | src/main.rs:21 | a join of n separator-free pieces holds n - 1 separators |
| `Strings.ToLower` | src/main.rs:234 | lowercasing keeps the length, leaves no ASCII capital, keeps every other character in place, and maps each capital to the small letter at the same place in the alphabet |
| `Strings.LowerChar` | src/main.rs:234 | the same for one character |
| `Strings.ToLowerKeepsLower` | src/main.rs:234 | a string without capitals is its own lowercase |
| `Strings.ToLowerIdempotent` | src/main.rs:234 | lowercasing twice is lowercasing once |
| `Decimal.DecimalString` | src/main.rs:19 | an id prints as a non-empty run of digits, beginning with '0' only for zero |
| `Decimal.ParseU32` | src/main.rs:226 | parse errors are the empty-string, invalid-digit or too-large message |
| `Decimal.Accumulate` | src/main.rs:226 | the digit loop fails only with the invalid-digit or too-large message, and a success is never below the value read so far |
| `Decimal.MagnitudeDropsSign` | src/main.rs:226 | exactly one leading '+' is dropped and nothing else: the result is the input or the input without its first character, and it is shorter exactly when the input starts with '+' |
| `Decimal.ParseU32Accepts` | src/main.rs:226 | parse succeeds iff the text is an optional '+' then one or more digits whose value is at most 2^32 - 1, and it yields that value |
| `Decimal.ParseDecimalRoundTrip` | src/main.rs:226 | parsing the printed form of any u32 gives it back |
| `Decimal.ParseU32Examples` | src/main.rs:233 | "5", "007", "+10" parse; "", "-", "-1", "abc" fail with the stated messages |
| `Decimal.ParseU32Max` | src/main.rs:233 | "4294967295" parses to 2^32 - 1 |
| `Decimal.ParseU32PastMax` | src/main.rs:233 | "4294967296" fails as too large |
| `Commands.ParseFormat` | src/main.rs:180-191 | closed table: Json iff "j"/"json", Yaml iff "y"/"yaml", Plaintext iff "p"/"plaintext"; otherwise "Invalid export format." |
| `Commands.ParseField` | src/main.rs:199-209 | closed table: Description iff "description"/"d", Status iff "status"/"s"; otherwise "Invalid field argument" |
| `Commands.SelectorRejects` | src/main.rs:745-774 | "", "invalid", "txt", "name", "JSON" and "Status" are rejected by both tables |
| `Commands.FieldAnyCase` | src/main.rs:234 | the lowercased selector picks a field exactly when it equals one of that field's spellings up to ASCII case |
| `Commands.MinPieces` | src/main.rs:214-243 | every command word that takes arguments needs at least two pieces |
| `Commands.TooFewPieces` | src/main.rs:214-243 | for add, remove, update and export, the line fails with that command's "Invalid arguments for ..." message exactly when it has fewer pieces than the command needs (2, 2, 4, 3) |
| `Commands.ParseCommand` | src/main.rs:212-252 | every captured value is a single space-free token, and success implies the first token is a command word |
| `Commands.BareWord` | src/main.rs:214-250 | a command word alone: add, remove, update and export report their "Invalid arguments for ..." error, quit succeeds, any other word is "Invalid argument." |
| `Commands.UnknownWord` | src/main.rs:250 | an unknown first token gives "Invalid argument." whatever follows |
| `Commands.QuitIgnoresRest` | src/main.rs:239 | "q"/"quit" gives Quit whatever follows |
| `Commands.AddTakesOneWord` | src/main.rs:215-221 | add keeps only the token after the command word; the rest of the line is dropped |
| `Commands.RemoveReadsId` | src/main.rs:222-228 | remove yields the parsed u32 id, or the parse error |
| `Commands.ExportNeedsOutputFile` | src/main.rs:240-243 | export with a format and no file fails with "Invalid arguments for export." |
| `Commands.ExportReadsFormatAndFile` | src/main.rs:240-249 | export matches the format token exactly (no lowercasing) and captures the next single token as the file |
| `Commands.UpdateReadsThreeTokens` | src/main.rs:229-238 | update reads the id first, then the field in any letter case, then one word of value; the first error wins |
| `Commands.UpdateNeedsValue` | src/main.rs:230-232 | update with an id and a field but no value fails with "Invalid arguments for update." |
| `Commands.StatusValueIsOneWord` | src/main.rs:235 | a status value captured by update that the status table accepts is "ns", "ip", "completed" or "c"; the two-word spellings can never be reached |
| `Commands.AddExample` | src/main.rs:552-564 | "add Buy groceries" and "a Buy groceries" both give Add("Buy") |
| `Commands.RemoveExample` | src/main.rs:577-589 | "remove 5" gives Remove(5), "r 10" gives Remove(10) |
| `Commands.RemoveInvalidIdExample` | src/main.rs:602-605 | "remove abc" fails with the invalid-digit error |
| `Commands.TooFewArgumentsExample` | src/main.rs:567-599 | "add" and "remove" alone give their "Invalid arguments for ..." errors |
| `Commands.QuitExample` | src/main.rs:716-722 | "quit" and "q" give Quit |
| `Commands.InvalidCommandExample` | src/main.rs:725-729 | "invalid command" and the capitalised "ADD x" both give "Invalid argument." |
| `Commands.UpdateStatusExample` | src/main.rs:608-628 | "update 1 status completed" and "u 2 s ip" give status updates with those values |
| `Commands.UpdateDescriptionExample` | src/main.rs:631-651 | "update 1 description New description" keeps only "New"; "u 2 d Short desc" keeps only "Short" |
| `Commands.UpdateTooFewExample` | src/main.rs:654-661 | "update 1 status" and "update 1" fail with "Invalid arguments for update." |
| `Commands.UpdateFieldExample` | src/main.rs:664-667 | "update 1 invalid completed" fails with "Invalid field argument"; "update 1 STATUS completed" succeeds because the field is lowercased |
| `Commands.ExportExample` | src/main.rs:670-697 | "export json output.json", "e y output.yaml" and "e p output.txt" give the matching Export commands |
| `Commands.ExportErrorExample` | src/main.rs:700-713 | "export json" lacks a file; "export invalid output.txt" and "export JSON out" fail with "Invalid export format." |

## Left out

- `JsonFormatter` and `YamlFormatter` (src/main.rs:41-55): thin calls into `serde_json` and `serde_yaml`, whose output format is not part of this model. The JSON export-then-import round trip therefore is not stated.
- `export_to_string` (src/main.rs:139-144): pure dispatch to a formatter. Only the plaintext formatter is modelled. `Format` is modelled as a datatype.
- `TaskLists.TaskList.Import`: the JSON decoding (`serde_json::from_str`) is not modelled. The method takes the decoding outcome as a parameter and models only the whole-field replacement, or the unchanged list on error.
- `main` (src/main.rs:255-319): the prompt loop, the help text, stdin and stdout, reading `tasks.json`, writing export files, the id `counter`, trimming and lowercasing the whole input line, applying a parsed command to the list (including `TaskStatus::from_str` on an update value), and ending the session on the first error.
- `Strings.ToLower` and `Strings.LowerChar`: cover ASCII letters only, not Rust's full Unicode `to_lowercase`. No non-ASCII character lowercases into one of the field spellings "description", "d", "status", "s", so the field table accepts and rejects the same tokens either way.
- Rust's integer parser (`u32::from_str`) is not part of this model. `Decimal.ParseU32` follows its documented behaviour for unsigned types: one optional `+`, then digits only, checked left to right. A non-digit is reported before an overflow at the same position.
- Rust's derived `Debug`, `Serialize` and `Deserialize` implementations: these are not part of this model.
