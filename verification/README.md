# SQL agent — a Dafny model

This project models the SQL agent: a loop that answers a user's question by talking
to a chat-completion model and running the statements the model asks for against a
SQLite database. It covers:

- `clean_sql`: the DDL normaliser. It turns a table's stored `CREATE` text into a
  single comma-spaced line.
- `list_tables`: the schema catalog, returned as a list of normalised table definitions.
- `run_sql`: runs one statement or script and reports either a result or an error.
- `get_schema_context`: builds the schema text shown to the model.
- `get_completion`: one completion, with up to three provider requests and a JSON
  reminder added after a format failure.
- `process_message`: the step loop. It yields thoughts, statements, row counts,
  errors and the final answer, and it feeds results back into the conversation.

Modules, in dependency order:

| file | module | contents |
|---|---|---|
| text.dfy | `Text` | Python's `isspace`, `strip`, `split(None, 1)[0]`, ASCII `lower`, substring search, `str(n)` |
| json.dfy | `Optional`, `Json` | `None`-or-value; the `dict.get` view of a decoded JSON object |
| ddl.dfy | `Ddl` | every stage of `clean_sql`, with the exact semantics of each string or regex call |
| sql_parser.dfy | `SqlParser` | `list_tables`, `run_sql`, the statement dispatch |
| agent.dfy | `Agent` | schema text, system prompt, `get_completion`, the events and feedback of `process_message`, the step loop |

The model has no I/O of its own. Everything outside the program becomes a parameter:

- **SQLite.** The catalog query's rows are an input. Each execution is a call of an
  `engine` function, which returns the cursor state or the text of the
  `sqlite3.Error` raised. The `engine` is indexed by step, because the database
  changes as the conversation goes on.
- **The completion provider.** `provider(step)(attempt)` is the reply to one request:
  either the message text or the error description.
- Both oracles count steps from 0: step `k` is the value of `step` before the
  loop body increments it.
- **`json.loads`** is a function `string -> Parsed`.
- **`json.dumps(rows, default=str)`** is a function `seq<Row> -> string`.
- **Whether the database file exists** is an input, asked afresh each time the
  program checks: once for `list_tables` before the loop, and once per step for
  `run_sql`, which is indexed by step like the `engine`.

The generator `process_message` becomes a function that returns its whole
transcript: the events, the final conversation, the step count, the number of
provider requests, and how the run ended. An exception that escapes the generator
is a `Crashed` ending.

The model follows the code literally, including where its behaviour is easy to
misread:

- `get_completion` retries every provider failure, not only format failures. Only
  the third failure yields the empty text.
- The JSON reminder is appended to the caller's list in place, so it stays in the
  conversation for the rest of the run.
- `run_sql` sends a statement down the query path only when its first word is
  `select`. A `WITH` query, or `SELECT*…` with no space after the keyword, takes
  the mutation path and returns no rows.
- The agent reads `rows` from every ok result, so a successful mutation is reported
  as `SQL Result (0 rows)`. Its `rows_affected` is dropped.

## Model

| member | source | states |
|---|---|---|
| Text.Strip | sql_paraser.py:85 | stripping only shortens, and it leaves either nothing or a string with no whitespace at either end; the result is the slice of the input left after cutting a whitespace prefix, as long as the leading whitespace run, and a whitespace suffix |
| Text.StripChars | sql_paraser.py:15 | stripping never introduces a character that was not in the line |
| Text.StripEmpty | sql_paraser.py:85-87 | a statement strips to nothing exactly when every character is whitespace, which is when `run_sql` refuses it as empty |
| Text.StripKeepsText | sql_paraser.py:15 | stripping a line removes whitespace only: the line's other characters stay, in order |
| Text.FirstWord | sql_paraser.py:90 | the first word is a prefix with no whitespace, ending at whitespace or at the end of the text |
| Text.AsciiLower | sql_paraser.py:90 | lower-casing keeps the length and maps each character on its own |
| Text.ContainsIsInfix | sql_agent.py:53 | the left-to-right search used for the error-marker test succeeds exactly when the marker occurs somewhere in the text |
| Text.NatToString | sql_agent.py:147 | the decimal rendering of a count is non-empty, all digits, and has no leading zero |
| Text.NatToStringRoundTrip | sql_agent.py:135-147 | reading back the digits of a rendered count gives the count itself |
| Text.NatToStringInjective | sql_agent.py:147 | two different counts never render to the same text |
| Ddl.ReplaceCrlf | sql_paraser.py:10 | replacing CRLF pairs never lengthens the text or adds a character, and text without a carriage return is unchanged |
| Ddl.ReplaceCrlfDropsCr | sql_paraser.py:10 | replacing the pairs left to right is exactly deleting each carriage return that a line feed follows |
| Ddl.ReplaceChar | sql_paraser.py:10 | exactly the occurrences of the character are replaced, one for one |
| Ddl.DeleteChar | sql_paraser.py:11 | the result holds exactly the characters of the input other than the deleted one |
| Ddl.DeleteCharOne | sql_paraser.py:11 | a lone character is removed exactly when it is the character deleted |
| Ddl.DeleteCharAppend | sql_paraser.py:11 | deleting from a concatenation is deleting from each part, so with `Ddl.DeleteCharOne` the kept characters keep their order and number |
| Ddl.NormalizeNewlines | sql_paraser.py:10 | no carriage return survives, only line feeds are added, and text without carriage returns is unchanged |
| Ddl.NormalizeNewlinesKeepsText | sql_paraser.py:10 | turning line endings into line feeds changes whitespace only: every other character stays, in order |
| Ddl.StripQuoting | sql_paraser.py:11 | the result holds exactly the input's characters other than double quotes and square brackets |
| Ddl.StripQuotingAppend | sql_paraser.py:11 | a lone character is removed exactly when it is a quote or bracket, and removal from a concatenation is removal from each part, so the kept characters keep their order and number |
| Ddl.NonSpaceStripQuoting | sql_paraser.py:11 | removing quotes and brackets commutes with dropping whitespace |
| Ddl.MatchHeader | sql_paraser.py:12 | a header match starts with CREATE in any case, and its parenthesis is followed by whitespace up to a non-space or the end |
| Ddl.MatchHeaderIff | sql_paraser.py:12 | the header matches exactly when the text opens with CREATE, whitespace, TABLE or VIEW, whitespace and then text without a parenthesis up to a `(`, in any case; every such reading ends at the parenthesis the match reports |
| Ddl.CreateBreak | sql_paraser.py:12 | breaking after the CREATE header adds no character other than line feeds |
| Ddl.CreateBreakKeepsText | sql_paraser.py:12 | the header break changes whitespace only: every other character stays, in order |
| Ddl.CollapseBlanks | sql_paraser.py:13 | no tab and no two adjacent spaces remain, only spaces are added, and the text keeps its first character or becomes a space |
| Ddl.CollapseBlanksKeepsText | sql_paraser.py:13 | collapsing blank runs changes whitespace only: every other character stays, in order |
| Ddl.BreakAfterCommas | sql_paraser.py:14 | every comma is followed by a line feed, and only line feeds are added |
| Ddl.BreakAfterCommasKeepsText | sql_paraser.py:14 | breaking after commas changes whitespace only: every other character stays, in order |
| Ddl.Split | sql_paraser.py:15 | splitting gives at least one piece, no piece holds the separator, and joining the pieces gives back the text |
| Ddl.Join | sql_paraser.py:29 | the joined text is made of the pieces' characters and the separator |
| Ddl.JoinSplitRoundTrip | sql_paraser.py:15-29 | joining lines that hold no separator and splitting the text again gives back the same lines in order |
| Ddl.StripLines | sql_paraser.py:15 | the kept lines are at most as many as the pieces, and each is non-blank with no surrounding whitespace |
| Ddl.StripLinesChars | sql_paraser.py:15 | the kept lines use only characters from the pieces |
| Ddl.StripLinesMembers | sql_paraser.py:15 | a line is kept exactly when it is non-empty and is the stripped text of some piece |
| Ddl.StripLinesAppend | sql_paraser.py:15 | the kept lines of two runs of pieces are those of the first followed by those of the second, so the pieces' order is kept |
| Ddl.Indent | sql_paraser.py:17-27 | each line is kept, prefixed by whole four-space indents, and the first line is indented by its level |
| Ddl.IndentLevels | sql_paraser.py:17-27 | every line gets four spaces per level, its level being the running level after the lines before it, lowered by one (not below zero) when the line opens with `)`; the running level rises after a line that ends with `(` or holds `(` and no `)` |
| Ddl.IndentKeepsText | sql_paraser.py:17-27 | indenting changes whitespace only: the lines' other characters stay, line after line, in order |
| Ddl.SquashNewlineRuns | sql_paraser.py:30 | squashing keeps the text's first character, so a leading line feed stays for the strip that follows |
| Ddl.SquashNewlineRunsChars | sql_paraser.py:30 | squashing blank-line runs adds no character |
| Ddl.SquashLeavesNoTripleNewline | sql_paraser.py:30 | after squashing, no three consecutive line feeds remain anywhere |
| Ddl.SquashNewlineRunsKeepsOthers | sql_paraser.py:30 | squashing removes line feeds only: every other character, whitespace included, stays in order |
| Ddl.SquashNewlineRunsKeepsText | sql_paraser.py:30 | squashing changes whitespace only: every other character stays, in order |
| Ddl.DropEscapedNewlines | sql_paraser.py:31 | removing escaped newlines only shortens the text and adds nothing, and text without a backslash is unchanged |
| Ddl.DropEscapedNewlinesKeepsOutside | sql_paraser.py:31 | the removal keeps exactly the characters of the input that are not part of a backslash, `n` pair |
| Ddl.Flatten | sql_paraser.py:32 | no line feed remains, nothing is added, and text without line feeds is unchanged |
| Ddl.FlattenKeepsText | sql_paraser.py:32 | flattening removes whitespace only: every other character stays, in order |
| Ddl.SpaceAfterCommas | sql_paraser.py:33 | every comma is followed by a space, and only spaces are added |
| Ddl.SpaceAfterCommasRoundTrip | sql_paraser.py:33 | the comma spacing can be undone: dropping the character after each comma restores the text |
| Ddl.SpaceAfterCommasKeepsText | sql_paraser.py:33 | the comma spacing adds whitespace only: every other character stays, in order |
| Ddl.BreakDdl | sql_paraser.py:10-14 | the first stages remove carriage returns, tabs, quotes and brackets, and add only line feeds and spaces |
| Ddl.BreakDdlKeepsText | sql_paraser.py:10-14 | apart from whitespace, the first stages keep exactly the input's characters other than quotes and brackets, in order |
| Ddl.Reindent | sql_paraser.py:15-29 | the re-indentation adds only line feeds and spaces |
| Ddl.ReindentKeepsText | sql_paraser.py:15-29 | the re-indentation changes whitespace only: every other character stays, in order |
| Ddl.FlattenLines | sql_paraser.py:30-32 | flattening leaves no line feed and adds nothing |
| Ddl.FlattenLinesKeepsText | sql_paraser.py:30-32 | for text without a backslash, flattening changes whitespace only: every other character stays, in order |
| Ddl.Flat | sql_paraser.py:10-32 | before the comma spacing, the text is one line of input characters and spaces, with no tab, quote or bracket |
| Ddl.FlatKeepsText | sql_paraser.py:10-32 | for DDL without a backslash, apart from whitespace, the text before the comma spacing holds exactly the input's characters other than quotes and brackets, in order |
| Ddl.CleanSql | sql_paraser.py:6-35 | empty DDL gives empty text; otherwise the result is one line with no tab, quote or bracket, every comma followed by a space, and only the input's characters plus spaces |
| Ddl.CleanSqlKeepsText | sql_paraser.py:6-35 | for DDL without a backslash, apart from whitespace, the cleaned text holds exactly the input's characters other than quotes and brackets, in order |
| SqlParser.EntriesOf | sql_paraser.py:55-61 | there is one entry per catalog row, in the same order, each holding the row's name and its cleaned DDL |
| SqlParser.ListTables | sql_paraser.py:37-68 | a missing file or empty catalog gives `{}`; a catalog error escapes; otherwise there is one entry per row, keeping the name, cleaning the DDL, and cleaning a NULL definition to "" |
| SqlParser.RunStatement | sql_paraser.py:89-108 | the connection is opened and closed once, and the trimmed statement runs once in its dispatched mode; an engine error becomes an error result with its message, and an executed statement's result carries the cursor's columns and rows or its row count as the dispatch selects; exactly the successful mutations commit |
| SqlParser.RunSql | sql_paraser.py:70-108 | a missing file gives an error without connecting; only a truthy non-string statement escapes; a blank statement is refused after connecting; anything else runs trimmed |
| SqlParser.ClassifyQueryIff | sql_paraser.py:90-91 | the query path is taken exactly when the text starts with `select`, in any case, followed by whitespace or the end |
| SqlParser.FirstWordOfWord | sql_paraser.py:90 | a non-space prefix ended by whitespace or the end of the text is the first word |
| SqlParser.GluedStarIsNotQuery | sql_paraser.py:90-91 | a statement whose first six characters are followed by anything but whitespace (`SELECT*FROM t`, `SELECT(1)`) does not take the query path |
| SqlParser.WithClauseIsNotQuery | sql_paraser.py:90-91 | any statement whose first four characters are `with`, in any case, does not take the query path |
| SqlParser.ScriptIff | sql_paraser.py:90-98 | a statement that does not open with the word `select` runs as a script exactly when it holds a `;` anywhere, and as a single statement otherwise |
| Agent.SchemaBlocks | sql_agent.py:31-33 | the schema text is at least ten characters per table and opens with the first table's block |
| Agent.SchemaBlocksAppend | sql_agent.py:32-33 | the schema text of two lists of tables, one after the other, is the text of the first followed by the text of the second |
| Agent.SchemaBlocksAccumulate | sql_agent.py:31-33 | the loop adds one block per table: the text for a list is the text for all but its last table followed by that table's block |
| Agent.SchemaContext | sql_agent.py:27-34 | the schema text is empty exactly when there is no table to describe |
| Agent.SystemPrompt | sql_agent.py:73-100 | the schema text appears in the system prompt verbatim, after the fixed opening |
| Agent.WithReminder | sql_agent.py:56-57 | the reminder is appended unless the last message is already a system message, so the conversation then ends in a system message |
| Agent.Attempts | sql_agent.py:42-61 | one to three requests are made, the first carries the caller's conversation, and the conversation ends up unchanged or with the reminder |
| Agent.AttemptsOutcome | sql_agent.py:42-61 | all requests but the last failed; the text is that of the last reply when it succeeded, and empty only when the third request failed |
| Agent.AttemptsConversations | sql_agent.py:45-57 | every request asks for the requested response format; request `j` carries the caller's conversation with the one reminder exactly when an earlier request failed in a way that calls for it, and the caller's conversation as given otherwise |
| Agent.AttemptsReminder | sql_agent.py:53-58 | the reminder is added exactly when a failure that calls for it happens on a request that still has a retry after it |
| Agent.GetCompletion | sql_agent.py:36-62 | one to three requests are made, and the conversation is unchanged or gains the reminder as its last message |
| Agent.CompletionOutcome | sql_agent.py:36-62 | the completion text is the first success, or empty after three failures; each request carries the caller's conversation, with the reminder (unless it already ends in a system message) exactly from the request after the first format failure that left a retry |
| Agent.ThreeFailuresGiveEmptyText | sql_agent.py:59-61 | three failed requests, whatever their kind, give the empty text |
| Agent.ReminderPolicy | sql_agent.py:53-58 | the conversation grows by the system reminder exactly when it did not already end in a system message and a format failure hit the first or second request |
| Agent.Preview | sql_agent.py:139-140 | the model is shown the first ten rows, or all of them when there are at most ten |
| Agent.FeedbackStatesCount | sql_agent.py:139-147 | the feedback message opens with the true row count, which reads back as that count |
| Agent.FeedbackCarriesPreview | sql_agent.py:139-145 | the feedback message contains the serialisation of the previewed rows |
| Agent.ReportOf | sql_agent.py:133-155 | an ok result gives a row-count event whose count the feedback states; an error gives the error event and a feedback carrying the same message |
| Agent.StepCompletion | sql_agent.py:112 | each step makes one to three requests, and its conversation only grows |
| Agent.ThoughtEvents | sql_agent.py:122-125 | a thought is yielded exactly when it is truthy, and it is rendered as the response gave it |
| Agent.SqlStep | sql_agent.py:127-155 | the events are the thought, the announced statement and the report of the result; the response text and then the report's feedback (the row count and preview, or `SQL Error: ` and the message) join the conversation; a positive count comes from a query result |
| Agent.AnswerStep | sql_agent.py:157-160 | an answer ends the run with the thought and the answer as the events, and leaves the conversation unchanged |
| Agent.UnknownStep | sql_agent.py:162-164 | any other response type yields the complaint after the thought and adds one user note, without leaving the loop |
| Agent.ObjectStep | sql_agent.py:121-164 | the step opens with the thought events; it announces a statement exactly when `type` is `sql` and ends the run exactly when it is `answer`, with the final answer last; any other type yields the complaint last and adds only the unknown-type note |
| Agent.RunStep | sql_agent.py:109-164 | each step grows the conversation, makes one to three requests, and yields at most three events, the thought first; an undecodable response yields one parse failure with that text and adds the invalid-JSON note; a decoded non-object escapes; a statement is announced exactly when an object has `type` `sql`, and the run ends exactly when it has `type` `answer` |
| Agent.ProviderOutageStep | sql_agent.py:112-119 | a step whose three requests all fail uses three requests and takes the invalid-JSON path |
| Agent.OnlyQueriesReportRows | sql_agent.py:133-147 | a step reports a positive row count only for a statement dispatched as a query |
| Agent.Loop | sql_agent.py:106-167 | a run takes at most the remaining steps, with one to three requests each, and its conversation only grows; it ends with exactly one terminal event, the last, unless an exception escaped; the step-limit error comes only after the tenth step |
| Agent.After | sql_agent.py:109-167 | after each step the run keeps the same guarantees as `Loop` |
| Agent.RunOpensWithStep | sql_agent.py:109-119 | a run opens with its first step: that step's events and conversation begin the run's, its requests are counted, and the run takes that step |
| Agent.AnswerEndsTheRun | sql_agent.py:157-160 | an answer ends the run in the step that receives it, with the thought and the answer as that step's events |
| Agent.MalformedRunsOutOfSteps | sql_agent.py:114-119 | when no response decodes, every step yields one parse failure and the run ends at the step limit |
| Agent.ProcessMessage | sql_agent.py:64-167 | with no schema the run yields one error and makes no request; otherwise the conversation starts from the system prompt built from this catalog's schema text and the user input, there are at most ten steps with one to three requests each, and there is exactly one terminal event, the last, unless an exception escaped |
| Agent.RenderInjective | sql_agent.py:117-167 | two different events are never yielded as the same line, so each line gives back its kind and its text or count |
| Agent.CountLineInjective | sql_agent.py:147 | the row-count line determines the count |
| Agent.MalformedRunYieldsElevenEvents | sql_agent.py:64-167 | with a schema and no decodable response, the run yields ten parse failures and then the step-limit error |

## Left out

- `SQLAgent.__init__`, `get_client` and `run`, and the programs `app.py`, `func_2.py`, `func_calling.py` and `ollama_test.py`: these are construction, the console loop and separate experiments, not the agent's logic.
- Console output: the lines `list_tables` prints, including the `show_sql` variant, and the error lines `get_completion` prints. They do not affect any result.
- The filtering and ordering of the catalog query (`sqlite_%` names, tables and views, ordered by type and name) are done by SQLite. The model takes the rows as given.
- A failing `sqlite3.connect`, and engine exceptions that are not `sqlite3.Error`, are not modelled. An existing file is assumed to open, and each execution's outcome is the `engine` reply.
- Completion text that is `None`, when the provider returns no content, is not modelled. Every successful reply carries a string.
- The values of rows are opaque. `dict(row)` is taken to be what the engine returns, and `json.dumps` is the `serialize` oracle.
- Full Unicode lower-casing is modelled as ASCII lower-casing. The doc comment of `Text.AsciiLower` explains why this agrees on the two comparisons the program makes.
- Consumers that stop the generator early are not modelled. The transcript is the whole run.
- Ddl.CreateBreak: the contract only bounds the characters added, and `Ddl.CreateBreakKeepsText` states that every character other than whitespace stays, in order. Where the line breaks go is defined by the body, following the regular expression, and by `Ddl.MatchHeader`'s contract, not by a separate reference definition.
- Ddl.SquashNewlineRuns: its own contract states only that the first character is kept. `Ddl.SquashNewlineRunsKeepsOthers` states that every character other than a line feed stays, in order, and `Ddl.SquashNewlineRunsChars` and `Ddl.SquashLeavesNoTripleNewline` that no character is added and no run of three line feeds is left. How many line feeds each run keeps (exactly two for a run of two or more) is stated only by the body.
- Ddl.Reindent: the contract states only which characters may be added. `Ddl.ReindentKeepsText` states that every character other than whitespace stays, in order; the layout of the lines is stated by `Ddl.Indent` and `Ddl.IndentLevels`, and which lines are kept by `Ddl.StripLinesMembers`.
- Ddl.CleanSql: the contract states which characters can and cannot appear, and the comma spacing. `Ddl.CleanSqlKeepsText` states that, for DDL without a backslash, apart from whitespace the output is the input without quotes and brackets, in order. For DDL holding a backslash (where `\n` pairs are dropped) no such statement is made, and the exact whitespace of the output is not restated.
- Agent.ProcessMessage: the contract covers the shape of the run and the conversation it starts from. What each step yields and adds is stated by `Agent.RunStep` and the step functions, and `Agent.RunOpensWithStep` states that a run opens with its first step; the run is not restated as the concatenation of all its steps.
- Ddl.DeleteChar: its own contract states which characters remain; their order and number are stated by `Ddl.DeleteCharOne` and `Ddl.DeleteCharAppend`.
- Ddl.StripQuoting: its own contract states which characters remain; their order and number are stated by `Ddl.StripQuotingAppend`.
- Ddl.NormalizeNewlines: its own contract bounds the characters; that it changes whitespace only is stated by `Ddl.NormalizeNewlinesKeepsText`, and where the line feeds go only by the body and `Ddl.ReplaceCrlfDropsCr`.
- Ddl.CollapseBlanks: its own contract bounds the characters and the blank runs; that it changes whitespace only is stated by `Ddl.CollapseBlanksKeepsText`. That each run becomes exactly one space, where it stood, is stated only by the body.
- Ddl.BreakAfterCommas: its own contract bounds the characters; that it changes whitespace only is stated by `Ddl.BreakAfterCommasKeepsText`. That the whitespace after a comma is what goes is stated only by the body.
- Ddl.Flatten: its own contract bounds the characters; that it removes whitespace only is stated by `Ddl.FlattenKeepsText`. Which whitespace goes (each line feed and the run after it) is stated only by the body.
- Ddl.BreakDdl: its own contract bounds the characters; that, apart from whitespace, it keeps the input without quotes and brackets is stated by `Ddl.BreakDdlKeepsText`. The exact whitespace is stated by the stages' own contracts and bodies.
- Ddl.FlattenLines: its own contract bounds the characters; that it changes whitespace only, for text without a backslash, is stated by `Ddl.FlattenLinesKeepsText`.
- Ddl.Flat: its own contract bounds the characters; that, apart from whitespace, it keeps the input without quotes and brackets, for DDL without a backslash, is stated by `Ddl.FlatKeepsText`.
- ReplaceCrlf: its own contract bounds the characters; the exact result is stated by `Ddl.ReplaceCrlfDropsCr`.
- MatchHeader: its own contract states what a match implies; when the pattern matches is stated by `Ddl.MatchHeaderIff`.
- Join: its own contract states the characters; that it inverts `Ddl.Split` is stated by `Ddl.JoinSplitRoundTrip` and `Ddl.Split`.
- StripLines: its own contract bounds the count and the shape of each line; which lines are kept, and in which order, is stated by `Ddl.StripLinesMembers` and `Ddl.StripLinesAppend`.
- Indent: its own contract states the first line's level; every later line's level is stated by `Ddl.IndentLevels`.
- DropEscapedNewlines: its own contract bounds the length and the characters; which characters are removed is stated by `Ddl.DropEscapedNewlinesKeepsOutside`.
- SchemaBlocks: its own contract bounds the length and names the first block; the text block by block is stated by `Agent.SchemaBlocksAccumulate` and `Agent.SchemaBlocksAppend`.
- Column order: a result row is a map from column name to value, so the column order that `dict(row)` hands to `json.dumps` is not part of the model, and the `serialize` oracle sees only the map.
