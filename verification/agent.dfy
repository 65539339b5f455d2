/**
  The agent: `SQLAgent.get_schema_context`, `get_completion` and
  `process_message`.

  The chat-completion provider, the JSON decoder, the SQLite engine and the
  JSON encoder of result rows are oracles gathered in a `World`:
  - `provider(step)(attempt)` is the reply to the request made on that
    attempt (0, 1 or 2) of that step: the message text or the error
    description;
  - `parse` is `json.loads` on a completion text;
  - `engine(step)(mode, sql)` is the engine's answer to an execution issued
    at that step (the database changes as the conversation goes on);
  both are indexed by the step counted from 0, the value of `step` before
  the loop body increments it;
  - `serialize` is `json.dumps(rows, default=str)`.
  The generator `process_message` becomes a function returning the whole
  transcript: the events it yields, the final conversation, the number of
  steps and provider requests, and how it ended.
 */
module Agent {
  import opened Text
  import opened Optional
  import opened Json
  import opened SqlParser

  /** `max_steps`. */
  const MaxSteps: nat := 10
  /** `MAX_PREVIEW_ROWS`. */
  const MaxPreviewRows: nat := 10
  /** `max_retries`: provider requests per completion. */
  const MaxAttempts: nat := 3

  datatype Role = System | User | Assistant

  datatype Message = Message(role: Role, content: string)

  const JsonReminder := "IMPORTANT: You must respond ONLY with a valid JSON object. No conversational text before or after."
  const InvalidJsonNote := "Error: Invalid JSON response. Please respond with valid JSON."
  const UnknownTypeNote := "Error: Unknown response type. Use 'sql' or 'answer'."

  // ---------------------------------------------------------------------
  // get_schema_context
  // ---------------------------------------------------------------------

  /** The block one table contributes to the schema text. */
  function TableBlock(e: TableEntry): string {
    "Table: " + e.tableName + "\n" + e.tableSql + "\n\n"
  }

  /** The blocks of all tables, in order. */
  function SchemaBlocks(es: seq<TableEntry>): (r: string)
    ensures |r| >= 10 * |es|
    ensures |es| > 0 ==> TableBlock(es[0]) <= r
  {
    if |es| == 0 then "" else TableBlock(es[0]) + SchemaBlocks(es[1..])
  }

  /** The schema text is assembled table by table: the text for a
      concatenation of listings is the concatenation of their texts. */
  lemma {:induction false} SchemaBlocksAppend(a: seq<TableEntry>, b: seq<TableEntry>)
    ensures SchemaBlocks(a + b) == SchemaBlocks(a) + SchemaBlocks(b)
    decreases |a|
  {
    if |a| > 0 {
      assert (a + b)[0] == a[0];
      assert (a + b)[1..] == a[1..] + b;
      SchemaBlocksAppend(a[1..], b);
    } else {
      assert a + b == b;
    }
  }

  /** The loop appends one block per table: the text for a list is the text
      for all but its last table followed by the last table's block. */
  lemma SchemaBlocksAccumulate(es: seq<TableEntry>)
    ensures |es| > 0 ==> SchemaBlocks(es) == SchemaBlocks(es[..|es| - 1]) + TableBlock(es[|es| - 1])
  {
    if |es| > 0 {
      var last := es[|es| - 1];
      SchemaBlocksAppend(es[..|es| - 1], [last]);
      assert es[..|es| - 1] + [last] == es;
      assert [last][1..] == [];
    }
  }

  /** `get_schema_context()` given what `list_tables` returned: empty exactly
      when there is no table to describe, otherwise one block per entry. */
  function SchemaContext(listing: Listing): (r: string)
    ensures r == "" <==> listing.EmptyDict? || listing.entries == []
    ensures listing.TableList? && listing.entries != [] ==> TableBlock(listing.entries[0]) <= r
  {
    match listing
    case EmptyDict => ""
    case TableList(es) => SchemaBlocks(es)
  }

  const PromptHead := "You are a SQL agent. You have access to a SQLite database.\nSchema:\n"
  const PromptTail :=
    "\n\nYou interact with the database to answer the user's question.\n"
    + "You can iteratively execute SQL queries to investigate data.\n"
    + "You will query the database to get the answers, NEVER guess.\n"
    + "If a query returns too many rows, you will see a truncated result, and you should refine your query (e.g., using aggregations or limits).\n"
    + "\nRESPONSE FORMAT:\n"
    + "You must respond with a JSON object. Ensure the entire response is a single JSON object.\n"
    + "\nExample for SQL:\n{\n    \"type\": \"sql\",\n    \"sql\": \"SELECT ...\",\n    \"thought\": \"Brief logic\"\n}\n"
    + "\nExample for Answer:\n{\n    \"type\": \"answer\",\n    \"content\": \"Final human-readable answer\",\n    \"thought\": \"How I got here\"\n}\n"
    + "\nStrictly NO markdown blocks, NO preamble, and NO text outside the JSON.\n"

  /** The system prompt embeds the schema text verbatim between fixed instructions. */
  function SystemPrompt(schema: string): (p: string)
    ensures |p| == |PromptHead| + |schema| + |PromptTail|
    ensures PromptHead <= p && p[|PromptHead|..|PromptHead| + |schema|] == schema
  {
    PromptHead + schema + PromptTail
  }

  // ---------------------------------------------------------------------
  // get_completion
  // ---------------------------------------------------------------------

  datatype ProviderReply = Completed(text: string) | ProviderError(description: string)

  /** What one provider request carries: the conversation at that moment and
      whether a JSON object is demanded (`response_format`). */
  datatype Request = Request(conversation: seq<Message>, jsonMode: bool)

  /** The text `get_completion` returns, the conversation after it (it may
      have appended a reminder in place), and the requests it made. */
  datatype Completion = Completion(text: string, messages: seq<Message>, requests: seq<Request>)

  /** The provider's error text names a response-format validation failure. */
  predicate IsFormatFailure(description: string) {
    Contains(AsciiLower(description), "json_validate_failed") || Contains(description, "400")
  }

  predicate FormatFailed(reply: ProviderReply) {
    reply.ProviderError? && IsFormatFailure(reply.description)
  }

  /** The conversation after a format failure: a system reminder is added
      unless the last message already has the system role. */
  function WithReminder(messages: seq<Message>): (r: seq<Message>)
    requires |messages| > 0
    ensures messages[|messages| - 1].role != System ==> r == messages + [Message(System, JsonReminder)]
    ensures messages[|messages| - 1].role == System ==> r == messages
    ensures r[|r| - 1].role == System
  {
    if messages[|messages| - 1].role != System then messages + [Message(System, JsonReminder)] else messages
  }

  /** The retry loop of `get_completion` from attempt `attempt` on.
      `replies(k)` is the provider's reply to attempt `k`, and `remind` tells
      the error texts that call for the JSON reminder (`GetCompletion` passes
      `IsFormatFailure`). */
  function Attempts(messages: seq<Message>, jsonMode: bool, replies: nat -> ProviderReply, remind: string -> bool, attempt: nat): (c: Completion)
    requires |messages| > 0 && attempt < MaxAttempts
    ensures 1 <= |c.requests| <= MaxAttempts - attempt
    ensures c.requests[0] == Request(messages, jsonMode)
    ensures c.messages == messages || c.messages == WithReminder(messages)
    decreases MaxAttempts - attempt
  {
    var request := Request(messages, jsonMode);
    match replies(attempt)
    case Completed(text) =>
      Completion(text, messages, [request])
    case ProviderError(e) =>
      if remind(e) && attempt < MaxAttempts - 1 then
        var rest := Attempts(WithReminder(messages), jsonMode, replies, remind, attempt + 1);
        Completion(rest.text, rest.messages, [request] + rest.requests)
      else if attempt == MaxAttempts - 1 then
        Completion("", messages, [request])
      else
        var rest := Attempts(messages, jsonMode, replies, remind, attempt + 1);
        Completion(rest.text, rest.messages, [request] + rest.requests)
  }

  /** The replies from `attempt` on explain the completion `c`: every
      request but the last failed; the last succeeded unless the budget ran
      out; the text is that success's, or empty after the third failure. */
  ghost predicate Explains(replies: nat -> ProviderReply, attempt: nat, c: Completion) {
    |c.requests| > 0 &&
    var last := attempt + |c.requests| - 1;
    && (forall k :: attempt <= k < last ==> replies(k).ProviderError?)
    && (replies(last).Completed? ==> c.text == replies(last).text)
    && (replies(last).ProviderError? ==> c.text == "" && last == MaxAttempts - 1)
  }

  /** A failure that leaves a retry hands over to the next attempt, with the
      reminder when `remind` asks for it. */
  lemma RetryStep(messages: seq<Message>, jsonMode: bool, replies: nat -> ProviderReply, remind: string -> bool, attempt: nat)
    requires |messages| > 0 && attempt < MaxAttempts - 1 && replies(attempt).ProviderError?
    ensures var next := if remind(replies(attempt).description) then WithReminder(messages) else messages;
      var c := Attempts(messages, jsonMode, replies, remind, attempt);
      var rest := Attempts(next, jsonMode, replies, remind, attempt + 1);
      c == Completion(rest.text, rest.messages, [Request(messages, jsonMode)] + rest.requests)
  {
  }

  lemma {:induction false} AttemptsOutcome(messages: seq<Message>, jsonMode: bool, replies: nat -> ProviderReply, remind: string -> bool, attempt: nat)
    requires |messages| > 0 && attempt < MaxAttempts
    ensures Explains(replies, attempt, Attempts(messages, jsonMode, replies, remind, attempt))
    decreases MaxAttempts - attempt
  {
    if replies(attempt).ProviderError? && attempt < MaxAttempts - 1 {
      var next := if remind(replies(attempt).description) then WithReminder(messages) else messages;
      RetryStep(messages, jsonMode, replies, remind, attempt);
      AttemptsOutcome(next, jsonMode, replies, remind, attempt + 1);
    }
  }

  /** Every request asks for JSON as the caller said and carries the
      conversation as it stands when it is sent: request `j` carries the
      caller's messages with the reminder exactly when one of the requests
      before it failed in a way that calls for the reminder. */
  ghost predicate AsksAsTold(messages: seq<Message>, jsonMode: bool, replies: nat -> ProviderReply, remind: string -> bool, attempt: nat, requests: seq<Request>)
    requires |messages| > 0
  {
    forall j :: 0 <= j < |requests| ==>
      requests[j] == Request(if ReminderDue(replies, remind, attempt, j) then WithReminder(messages) else messages, jsonMode)
  }

  lemma {:induction false} AttemptsConversations(messages: seq<Message>, jsonMode: bool, replies: nat -> ProviderReply, remind: string -> bool, attempt: nat)
    requires |messages| > 0 && attempt < MaxAttempts
    ensures AsksAsTold(messages, jsonMode, replies, remind, attempt, Attempts(messages, jsonMode, replies, remind, attempt).requests)
    decreases MaxAttempts - attempt
  {
    assert !ReminderDue(replies, remind, attempt, 0);
    if replies(attempt).ProviderError? && attempt < MaxAttempts - 1 {
      var next := if remind(replies(attempt).description) then WithReminder(messages) else messages;
      var rest := Attempts(next, jsonMode, replies, remind, attempt + 1);
      RetryStep(messages, jsonMode, replies, remind, attempt);
      AttemptsConversations(next, jsonMode, replies, remind, attempt + 1);
      AsksAsToldCons(messages, jsonMode, replies, remind, attempt, rest.requests);
    }
  }

  /** A failed request followed by the requests of the next attempt on. */
  lemma AsksAsToldCons(messages: seq<Message>, jsonMode: bool, replies: nat -> ProviderReply, remind: string -> bool, attempt: nat, later: seq<Request>)
    requires |messages| > 0 && attempt < MaxAttempts - 1 && replies(attempt).ProviderError?
    requires var next := if remind(replies(attempt).description) then WithReminder(messages) else messages;
      AsksAsTold(next, jsonMode, replies, remind, attempt + 1, later)
    ensures AsksAsTold(messages, jsonMode, replies, remind, attempt, [Request(messages, jsonMode)] + later)
  {
    var all := [Request(messages, jsonMode)] + later;
    assert !ReminderDue(replies, remind, attempt, 0);
    forall j | 1 <= j < |all|
      ensures all[j] == Request(if ReminderDue(replies, remind, attempt, j) then WithReminder(messages) else messages, jsonMode)
    {
      assert all[j] == later[j - 1];
      ReminderCarriedOver(messages, replies, remind, attempt, j);
    }
  }

  /** The conversation request `j` carries, seen from the next attempt on. */
  lemma ReminderCarriedOver(messages: seq<Message>, replies: nat -> ProviderReply, remind: string -> bool, attempt: nat, j: nat)
    requires |messages| > 0 && attempt < MaxAttempts - 1 && replies(attempt).ProviderError? && j >= 1
    ensures var next := if remind(replies(attempt).description) then WithReminder(messages) else messages;
      (if ReminderDue(replies, remind, attempt + 1, j - 1) then WithReminder(next) else next)
      == (if ReminderDue(replies, remind, attempt, j) then WithReminder(messages) else messages)
  {
    if remind(replies(attempt).description) {
      assert ReminderDue(replies, remind, attempt, j);
      assert WithReminder(WithReminder(messages)) == WithReminder(messages);
    } else {
      assert ReminderDue(replies, remind, attempt, j) <==> ReminderDue(replies, remind, attempt + 1, j - 1);
    }
  }

  /** A failure that calls for the reminder on a request that still leaves a retry. */
  ghost predicate ReminderDue(replies: nat -> ProviderReply, remind: string -> bool, attempt: nat, made: nat) {
    exists k :: attempt <= k < attempt + made && k < MaxAttempts - 1 && replies(k).ProviderError? && remind(replies(k).description)
  }

  /** The conversation gains the reminder exactly when a failure that calls
      for it occurred on a request that still left a retry. */
  lemma {:induction false} AttemptsReminder(messages: seq<Message>, jsonMode: bool, replies: nat -> ProviderReply, remind: string -> bool, attempt: nat)
    requires |messages| > 0 && attempt < MaxAttempts
    ensures var c := Attempts(messages, jsonMode, replies, remind, attempt);
      c.messages == if ReminderDue(replies, remind, attempt, |c.requests|) then WithReminder(messages) else messages
    decreases MaxAttempts - attempt
  {
    var c := Attempts(messages, jsonMode, replies, remind, attempt);
    if replies(attempt).ProviderError? && attempt < MaxAttempts - 1 {
      if remind(replies(attempt).description) {
        var rest := Attempts(WithReminder(messages), jsonMode, replies, remind, attempt + 1);
        assert c.messages == rest.messages;
        assert ReminderDue(replies, remind, attempt, |c.requests|);
      } else {
        var rest := Attempts(messages, jsonMode, replies, remind, attempt + 1);
        assert c.messages == rest.messages && |c.requests| == 1 + |rest.requests|;
        AttemptsReminder(messages, jsonMode, replies, remind, attempt + 1);
        assert ReminderDue(replies, remind, attempt, |c.requests|) <==> ReminderDue(replies, remind, attempt + 1, |rest.requests|);
      }
    } else {
      assert |c.requests| == 1 && c.messages == messages;
      assert !ReminderDue(replies, remind, attempt, 1);
    }
  }

  /** `get_completion(messages, json_mode)`. */
  function GetCompletion(messages: seq<Message>, jsonMode: bool, replies: nat -> ProviderReply): (c: Completion)
    requires |messages| > 0
    ensures 1 <= |c.requests| <= MaxAttempts
    ensures c.messages == messages || c.messages == messages + [Message(System, JsonReminder)]
  {
    Attempts(messages, jsonMode, replies, IsFormatFailure, 0)
  }

  /** What one call returns: the text of the first successful reply, or the
      empty text after three failures; every request asks for the given
      response format and carries the conversation as it stands. */
  lemma CompletionOutcome(messages: seq<Message>, jsonMode: bool, replies: nat -> ProviderReply)
    requires |messages| > 0
    ensures var c := GetCompletion(messages, jsonMode, replies);
      Explains(replies, 0, c) && AsksAsTold(messages, jsonMode, replies, IsFormatFailure, 0, c.requests)
  {
    AttemptsOutcome(messages, jsonMode, replies, IsFormatFailure, 0);
    AttemptsConversations(messages, jsonMode, replies, IsFormatFailure, 0);
  }

  /** Every failure is retried, whatever its kind, until the third request;
      a third consecutive failure gives the empty text. */
  lemma ThreeFailuresGiveEmptyText(messages: seq<Message>, jsonMode: bool, replies: nat -> ProviderReply)
    requires |messages| > 0
    requires forall k :: 0 <= k < MaxAttempts ==> replies(k).ProviderError?
    ensures GetCompletion(messages, jsonMode, replies).text == ""
    ensures |GetCompletion(messages, jsonMode, replies).requests| == MaxAttempts
  {
    AttemptsOutcome(messages, jsonMode, replies, IsFormatFailure, 0);
  }

  /** A reminder is added only for a format failure on the first or second
      request, only when the conversation does not already end with a system
      message, and at most once per call. */
  lemma ReminderPolicy(messages: seq<Message>, jsonMode: bool, replies: nat -> ProviderReply)
    requires |messages| > 0
    ensures var c := GetCompletion(messages, jsonMode, replies);
      && (|c.messages| == |messages| + 1 <==>
            messages[|messages| - 1].role != System
            && exists k :: 0 <= k < |c.requests| && k < MaxAttempts - 1 && FormatFailed(replies(k)))
      && (|c.messages| == |messages| + 1 ==> c.messages[|messages|] == Message(System, JsonReminder))
  {
    var c := GetCompletion(messages, jsonMode, replies);
    AttemptsReminder(messages, jsonMode, replies, IsFormatFailure, 0);
    assert ReminderDue(replies, IsFormatFailure, 0, |c.requests|) <==>
      exists k :: 0 <= k < |c.requests| && k < MaxAttempts - 1 && FormatFailed(replies(k));
  }

  // ---------------------------------------------------------------------
  // process_message: events
  // ---------------------------------------------------------------------

  /** What `process_message` yields. */
  datatype Event =
    | Thought(thought: string)
    | ExecutingSql(sql: string)
    | SqlRowCount(rows: nat)
    | SqlFailure(message: string)
    | FinalAnswer(content: string)
    | ParseFailure(response: string)
    | UnknownType(shown: string)
    | SchemaUnavailable
    | StepLimitReached
  {
    /** The events after which nothing more is yielded. */
    predicate IsTerminal() {
      FinalAnswer? || SchemaUnavailable? || StepLimitReached?
    }

    /** The text line yielded for the event. */
    function Render(): string {
      match this
      case Thought(t) => "Thought: " + t
      case ExecutingSql(q) => "Executing SQL: " + q
      case SqlRowCount(n) => "SQL Result (" + NatToString(n) + " rows)"
      case SqlFailure(m) => "SQL Error: " + m
      case FinalAnswer(a) => "Final Answer: " + a
      case ParseFailure(t) => "Debug: Failed to parse JSON response: " + t
      case UnknownType(s) => "Debug: Unknown response type: " + s
      case SchemaUnavailable => "Error: Could not retrieve schema."
      // written in two pieces so that RenderKeyError can read the leading characters
      case StepLimitReached => "Error: Agent reached " + "maximum steps without a final answer."
    }
  }

  /** The characters at offsets 0, 1, 4 and 7 of a rendered line, which tell
      the kinds of event apart. */
  function Key(e: Event): (char, char, char, char) {
    match e
    case Thought(_) => ('T', 'h', 'g', ':')
    case ExecutingSql(_) => ('E', 'x', 'u', 'n')
    case SqlRowCount(_) => ('S', 'Q', 'R', 'u')
    case SqlFailure(_) => ('S', 'Q', 'E', 'o')
    case FinalAnswer(_) => ('F', 'i', 'l', 'n')
    case ParseFailure(_) => ('D', 'e', 'g', 'F')
    case UnknownType(_) => ('D', 'e', 'g', 'U')
    case SchemaUnavailable => ('E', 'r', 'r', 'C')
    case StepLimitReached => ('E', 'r', 'r', 'A')
  }

  lemma RenderKey(e: Event)
    ensures |e.Render()| >= 8
    ensures (e.Render()[0], e.Render()[1], e.Render()[4], e.Render()[7]) == Key(e)
  {
    if e.Thought? || e.ExecutingSql? || e.SqlRowCount? {
      RenderKeyProgress(e);
    } else if e.SqlFailure? || e.FinalAnswer? || e.ParseFailure? {
      RenderKeyOutcome(e);
    } else {
      RenderKeyError(e);
    }
  }

  lemma RenderKeyProgress(e: Event)
    requires e.Thought? || e.ExecutingSql? || e.SqlRowCount?
    ensures |e.Render()| >= 8
    ensures (e.Render()[0], e.Render()[1], e.Render()[4], e.Render()[7]) == Key(e)
  {
    match e
    case Thought(x) => LeadKey("Thought: ", x);
    case ExecutingSql(x) => LeadKey("Executing SQL: ", x);
    case SqlRowCount(n) => LeadKey("SQL Result (", NatToString(n) + " rows)");
  }

  lemma RenderKeyOutcome(e: Event)
    requires e.SqlFailure? || e.FinalAnswer? || e.ParseFailure?
    ensures |e.Render()| >= 8
    ensures (e.Render()[0], e.Render()[1], e.Render()[4], e.Render()[7]) == Key(e)
  {
    match e
    case SqlFailure(x) => LeadKey("SQL Error: ", x);
    case FinalAnswer(x) => LeadKey("Final Answer: ", x);
    case ParseFailure(x) => LeadKey("Debug: Failed to parse JSON response: ", x);
  }

  lemma RenderKeyError(e: Event)
    requires e.UnknownType? || e.SchemaUnavailable? || e.StepLimitReached?
    ensures |e.Render()| >= 8
    ensures (e.Render()[0], e.Render()[1], e.Render()[4], e.Render()[7]) == Key(e)
  {
    match e
    case UnknownType(x) => LeadKey("Debug: Unknown response type: ", x);
    case SchemaUnavailable =>
      var l := e.Render();
      assert l[0] == 'E' && l[1] == 'r' && l[4] == 'r' && l[7] == 'C';
    case StepLimitReached =>
      LeadKey("Error: Agent reached ", "maximum steps without a final answer.");
  }

  lemma LeadKey(lead: string, rest: string)
    requires |lead| >= 8
    ensures |lead + rest| >= 8
    ensures (lead + rest)[0] == lead[0] && (lead + rest)[1] == lead[1]
    ensures (lead + rest)[4] == lead[4] && (lead + rest)[7] == lead[7]
  {
  }

  /** `prefix + x` determines `x`. */
  lemma PrefixCancel(prefix: string, x: string, y: string)
    requires prefix + x == prefix + y
    ensures x == y
  {
    assert x == (prefix + x)[|prefix|..];
  }

  /** The length of the leading run of digits. */
  function DigitRun(s: string): nat {
    if |s| > 0 && IsDigit(s[0]) then 1 + DigitRun(s[1..]) else 0
  }

  lemma {:induction false} DigitRunOf(d: string, rest: string)
    requires forall i :: 0 <= i < |d| ==> IsDigit(d[i])
    requires rest == [] || !IsDigit(rest[0])
    ensures DigitRun(d + rest) == |d|
    decreases |d|
  {
    if |d| > 0 {
      assert (d + rest)[1..] == d[1..] + rest;
      DigitRunOf(d[1..], rest);
    } else {
      assert d + rest == rest;
    }
  }

  /** The count line determines the count: the digits end where " rows)" begins. */
  lemma CountLineInjective(m: nat, n: nat)
    requires SqlRowCount(m).Render() == SqlRowCount(n).Render()
    ensures m == n
  {
    var dm, dn := NatToString(m), NatToString(n);
    assert "SQL Result (" + dm + " rows)" == "SQL Result (" + (dm + " rows)");
    assert "SQL Result (" + dn + " rows)" == "SQL Result (" + (dn + " rows)");
    PrefixCancel("SQL Result (", dm + " rows)", dn + " rows)");
    DigitRunOf(dm, " rows)");
    DigitRunOf(dn, " rows)");
    assert dm == (dm + " rows)")[..|dm|];
    assert dn == (dn + " rows)")[..|dn|];
    NatToStringInjective(m, n);
  }

  /** Distinct events are yielded as distinct lines: the kind of event and
      its text, or its count, can be read back from the line. */
  lemma RenderInjective(a: Event, b: Event)
    ensures a.Render() == b.Render() ==> a == b
  {
    if a.Render() == b.Render() {
      RenderKey(a);
      RenderKey(b);
      assert Key(a) == Key(b);
      match a
      case Thought(x) => PrefixCancel("Thought: ", x, b.thought);
      case ExecutingSql(x) => PrefixCancel("Executing SQL: ", x, b.sql);
      case SqlRowCount(n) => CountLineInjective(n, b.rows);
      case SqlFailure(x) => PrefixCancel("SQL Error: ", x, b.message);
      case FinalAnswer(x) => PrefixCancel("Final Answer: ", x, b.content);
      case ParseFailure(x) => PrefixCancel("Debug: Failed to parse JSON response: ", x, b.response);
      case UnknownType(x) => PrefixCancel("Debug: Unknown response type: ", x, b.shown);
      case SchemaUnavailable =>
      case StepLimitReached =>
    }
  }

  // ---------------------------------------------------------------------
  // process_message: result feedback
  // ---------------------------------------------------------------------

  /** The rows shown to the model: the first ten when there are more. */
  function Preview(rows: seq<Row>): (p: seq<Row>)
    ensures |p| == if |rows| > MaxPreviewRows then MaxPreviewRows else |rows|
    ensures p == rows[..|p|]
  {
    if |rows| > MaxPreviewRows then rows[..MaxPreviewRows] else rows
  }

  /** `result.get("rows", [])`: only a query result has rows. */
  function ResultRows(result: SqlResult): seq<Row> {
    if result.Selected? then result.rows else []
  }

  const CountLead := "Query returned "
  const TooManyRowsNote := " rows. This is too many to show. Here are the first 10 rows:\n"
  const RefineNote := "\n\nPlease refine your query if you need more specific data, or use this sample to answer."

  /** The user message that carries an ok result back to the model. */
  function Feedback(rows: seq<Row>, serialize: seq<Row> -> string): string {
    var n := NatToString(|rows|);
    if |rows| > MaxPreviewRows then
      (CountLead + n + TooManyRowsNote) + serialize(rows[..MaxPreviewRows]) + RefineNote
    else (CountLead + n + " rows:\n") + serialize(rows)
  }

  /** `b` sits at offset `|a|` of `a + b + c`. */
  lemma Sandwich(a: string, b: string, c: string)
    ensures a <= a + b + c
    ensures OccursAt(b, a + b + c, |a|)
  {
    assert (a + b + c)[|a|..|a| + |b|] == b;
  }

  /** `f` opens with the lead words and the decimal count `n`, and the
      digits right after the lead words read back as `n`. */
  ghost predicate CountStated(n: nat, f: string) {
    var d := NatToString(n);
    CountLead + d <= f && DigitsValue(f[|CountLead|..|CountLead| + |d|]) == n
  }

  /** The feedback opens with the true row count. */
  lemma FeedbackStatesCount(rows: seq<Row>, serialize: seq<Row> -> string)
    ensures CountStated(|rows|, Feedback(rows, serialize))
  {
    var f := Feedback(rows, serialize);
    var n := NatToString(|rows|);
    NatToStringRoundTrip(|rows|);
    var ser := serialize(Preview(rows));
    if |rows| > MaxPreviewRows {
      Sandwich(CountLead, n, TooManyRowsNote + ser + RefineNote);
      assert f == CountLead + n + (TooManyRowsNote + ser + RefineNote);
    } else {
      Sandwich(CountLead, n, " rows:\n" + ser);
      assert f == CountLead + n + (" rows:\n" + ser);
    }
  }

  /** The feedback carries the serialisation of exactly the preview rows:
      all of them, or the first ten. */
  lemma FeedbackCarriesPreview(rows: seq<Row>, serialize: seq<Row> -> string)
    ensures IsInfix(serialize(Preview(rows)), Feedback(rows, serialize))
  {
    var f := Feedback(rows, serialize);
    var n := NatToString(|rows|);
    var ser := serialize(Preview(rows));
    if |rows| > MaxPreviewRows {
      Sandwich(CountLead + n + TooManyRowsNote, ser, RefineNote);
    } else {
      Sandwich(CountLead + n + " rows:\n", ser, "");
      assert f == CountLead + n + " rows:\n" + ser + "";
    }
  }

  // ---------------------------------------------------------------------
  // process_message: the step loop
  // ---------------------------------------------------------------------

  /** The oracles one run of `process_message` sees. `dbExists` answers the
      file check `list_tables` makes before the loop; `dbExistsAt(k)` answers
      the one `run_sql` makes again at step `k`, since the file may come or
      go while the conversation runs. */
  datatype World = World(
    dbPath: string,
    dbExists: bool,
    dbExistsAt: nat -> bool,
    catalog: CatalogReply,
    provider: nat -> nat -> ProviderReply,
    parse: string -> Parsed,
    engine: nat -> (ExecMode, string) -> EngineReply,
    serialize: seq<Row> -> string)

  /** Exceptions that escape the generator. */
  datatype Fault = CatalogFault(message: string) | NonObjectResponse | NonStringSql

  datatype Ending = Answered | StepLimit | NoSchema | Crashed(fault: Fault)

  /** The loop variables `step` and `messages`, and the provider requests made so far. */
  datatype AgentState = AgentState(step: nat, messages: seq<Message>, providerCalls: nat)

  /** What a run yields from some point on, the conversation it leaves, the
      step counter and request count it reaches, and how it ends. */
  datatype Transcript = Transcript(events: seq<Event>, messages: seq<Message>, steps: nat, providerCalls: nat, ending: Ending)

  /** One loop iteration: the conversation after it, the events it yielded,
      the provider requests it made, and the ending when it leaves the loop. */
  datatype StepResult = StepResult(messages: seq<Message>, events: seq<Event>, requests: nat, stop: Option<Ending>)

  /** The number of terminal events in a sequence of events. */
  function TerminalCount(es: seq<Event>): nat {
    if es == [] then 0
    else TerminalCount(es[..|es| - 1]) + (if es[|es| - 1].IsTerminal() then 1 else 0)
  }

  lemma {:induction false} TerminalCountAppend(a: seq<Event>, b: seq<Event>)
    ensures TerminalCount(a + b) == TerminalCount(a) + TerminalCount(b)
    decreases |b|
  {
    if b == [] {
      assert a + b == a;
    } else {
      assert (a + b)[..|a + b| - 1] == a + b[..|b| - 1];
      TerminalCountAppend(a, b[..|b| - 1]);
    }
  }

  /** The count is zero exactly when no event is terminal. */
  lemma {:induction false} TerminalCountZero(es: seq<Event>)
    ensures TerminalCount(es) == 0 <==> forall i :: 0 <= i < |es| ==> !es[i].IsTerminal()
    decreases |es|
  {
    if es != [] {
      var init := es[..|es| - 1];
      TerminalCountZero(init);
      assert forall i :: 0 <= i < |init| ==> init[i] == es[i];
    }
  }

  predicate NoTerminal(es: seq<Event>) {
    TerminalCount(es) == 0
  }

  /** Exactly one terminal event, and it comes last. */
  predicate EndsOnce(es: seq<Event>) {
    |es| > 0 && es[|es| - 1].IsTerminal() && TerminalCount(es) == 1
  }

  lemma NoTerminalAppend(a: seq<Event>, b: seq<Event>)
    requires NoTerminal(a) && NoTerminal(b)
    ensures NoTerminal(a + b)
  {
    TerminalCountAppend(a, b);
  }

  lemma EndsOnceAppend(a: seq<Event>, b: seq<Event>)
    requires NoTerminal(a) && EndsOnce(b)
    ensures EndsOnce(a + b)
  {
    TerminalCountAppend(a, b);
  }

  /** The completion a step obtains. */
  function StepCompletion(w: World, st: AgentState): (c: Completion)
    requires |st.messages| > 0
    ensures 1 <= |c.requests| <= MaxAttempts
    ensures st.messages <= c.messages
  {
    GetCompletion(st.messages, true, w.provider(st.step))
  }

  /** The thought event a decoded object yields, if its thought is truthy. */
  function ThoughtEvents(fields: map<string, Value>): (e: seq<Event>)
    ensures |e| <= 1 && (e != [] <==> Truthy(Get(fields, "thought")))
    ensures e != [] ==> e[0] == Thought(Show(Get(fields, "thought")))
    ensures NoTerminal(e)
  {
    var thought := Get(fields, "thought");
    if Truthy(thought) then [Thought(Show(thought))] else []
  }

  /** The `run_sql` call a step makes; the engine answers as the database stands at that step. */
  function StepSql(w: World, step: nat, query: Value): SqlRun {
    RunSql(w.dbPath, w.dbExistsAt(step), query, w.engine(step))
  }

  /** A row count event and the feedback message of its step agree. */
  ghost predicate CountAgrees(events: seq<Event>, messages: seq<Message>) {
    |events| > 0 && events[|events| - 1].SqlRowCount? && |messages| > 0 ==>
      CountStated(events[|events| - 1].rows, messages[|messages| - 1].content)
  }

  /** The event a statement's result yields and the user message that feeds it back. */
  datatype Report = Report(event: Event, feedback: string)

  /** An ok result is reported by its row count, stated again at the head of
      the feedback; an error by its message. */
  function ReportOf(result: SqlResult, serialize: seq<Row> -> string): (rep: Report)
    ensures rep.event.SqlRowCount? <==> result.IsOk()
    ensures rep.event.SqlRowCount? ==> rep.event.rows == |ResultRows(result)| && CountStated(rep.event.rows, rep.feedback)
    ensures !result.IsOk() ==> rep == Report(SqlFailure(result.error), "SQL Error: " + result.error)
  {
    if result.IsOk() then
      FeedbackStatesCount(ResultRows(result), serialize);
      Report(SqlRowCount(|ResultRows(result)|), Feedback(ResultRows(result), serialize))
    else Report(SqlFailure(result.error), "SQL Error: " + result.error)
  }

  /** What every step guarantees about the conversation it started from:
      the conversation only grows, one to three requests are made, a step
      that stays in the loop yields at least one event and no terminal one,
      an answer is the single terminal event and comes last, and a step cut
      short by an exception yields no terminal event. */
  predicate StepShape(before: seq<Message>, r: StepResult) {
    && before <= r.messages
    && 1 <= r.requests <= MaxAttempts
    && (r.stop.None? || r.stop == Some(Answered)
        || r.stop == Some(Crashed(NonObjectResponse)) || r.stop == Some(Crashed(NonStringSql)))
    && (r.stop.None? ==> |r.events| > 0 && NoTerminal(r.events))
    && (r.stop == Some(Answered) ==> EndsOnce(r.events) && r.events[|r.events| - 1].FinalAnswer?)
    && (r.stop.Some? && r.stop.value.Crashed? ==> NoTerminal(r.events))
  }

  /** Some event announces a statement. */
  predicate Announces(events: seq<Event>) {
    exists e :: e in events && e.ExecutingSql?
  }

  /** How a step's conversation follows its completion: a step that stays in
      the loop adds exactly one user message, preceded by the response text
      as an assistant message exactly when a statement was announced; a step
      that leaves the loop adds nothing. */
  predicate Converses(c: Completion, r: StepResult) {
    && c.messages <= r.messages
    && r.requests == |c.requests|
    && (r.stop.Some? ==> r.messages == c.messages)
    && (r.stop.None? ==>
          && |c.messages| < |r.messages| <= |c.messages| + 2
          && r.messages[|r.messages| - 1].role == User
          && (|r.messages| == |c.messages| + 2 <==> Announces(r.events))
          && (|r.messages| == |c.messages| + 2 ==> r.messages[|c.messages|] == Message(Assistant, c.text)))
  }

  /** Within a step the thought, when there is one, is yielded first, and a
      step yields at most three events. */
  predicate ThoughtFirst(events: seq<Event>) {
    |events| <= 3 && forall i :: 0 < i < |events| ==> !events[i].Thought?
  }

  /** The rest of a step whose response asked for a query: announce it, run
      it, and feed the outcome back after the response text. */
  function SqlStep(w: World, step: nat, c: Completion, thought: seq<Event>, query: Value): (r: StepResult)
    requires NoTerminal(thought) && |thought| <= 1 && 1 <= |c.requests| <= MaxAttempts
    ensures StepShape(c.messages, r) && Converses(c, r) && ThoughtFirst(r.events)
    ensures r.stop.None? || r.stop == Some(Crashed(NonStringSql))
    ensures ExecutingSql(Show(query)) in r.events
    ensures CountAgrees(r.events, r.messages)
    // only a query result has rows to count
    ensures r.events[|r.events| - 1].SqlRowCount? && r.events[|r.events| - 1].rows > 0 ==>
      StepSql(w, step, query).outcome.Returned? && StepSql(w, step, query).outcome.result.Selected?
    // a returned result is reported and fed back as `ReportOf` renders it
    ensures StepSql(w, step, query).outcome.Returned? ==>
      var rep := ReportOf(StepSql(w, step, query).outcome.result, w.serialize);
      && r.events == thought + [ExecutingSql(Show(query)), rep.event]
      && r.messages == c.messages + [Message(Assistant, c.text), Message(User, rep.feedback)]
  {
    var events := thought + [ExecutingSql(Show(query))];
    assert NoTerminal(events);
    match StepSql(w, step, query).outcome
    case Uncaught =>
      StepResult(c.messages, events, |c.requests|, Some(Crashed(NonStringSql)))
    case Returned(result) =>
      var rep := ReportOf(result, w.serialize);
      var all := events + [rep.event];
      assert all == thought + [ExecutingSql(Show(query)), rep.event];
      assert NoTerminal(all);
      assert all[|thought|] == ExecutingSql(Show(query));
      var messages := c.messages + [Message(Assistant, c.text), Message(User, rep.feedback)];
      assert messages[|c.messages|] == Message(Assistant, c.text);
      StepResult(messages, all, |c.requests|, None)
  }

  /** A response of type `answer`: the thought, then the answer, ends the run. */
  function AnswerStep(c: Completion, thought: seq<Event>, content: Value): (r: StepResult)
    requires NoTerminal(thought) && |thought| <= 1 && 1 <= |c.requests| <= MaxAttempts
    ensures StepShape(c.messages, r) && Converses(c, r) && ThoughtFirst(r.events)
    ensures r.stop == Some(Answered) && r.events == thought + [FinalAnswer(Show(content))]
  {
    var events := thought + [FinalAnswer(Show(content))];
    assert events[..|events| - 1] == thought;
    StepResult(c.messages, events, |c.requests|, Some(Answered))
  }

  /** A response of any other type: the thought, the complaint, and a reminder to the model. */
  function UnknownStep(c: Completion, thought: seq<Event>, kind: Value): (r: StepResult)
    requires NoTerminal(thought) && |thought| <= 1 && (thought == [] || thought[0].Thought?)
    requires 1 <= |c.requests| <= MaxAttempts
    ensures StepShape(c.messages, r) && Converses(c, r) && ThoughtFirst(r.events)
    ensures r.stop.None? && r.events == thought + [UnknownType(Show(kind))]
  {
    var events := thought + [UnknownType(Show(kind))];
    assert NoTerminal(events);
    assert !Announces(events) by {
      assert forall e :: e in events ==> e.Thought? || e.UnknownType?;
    }
    StepResult(c.messages + [Message(User, UnknownTypeNote)], events, |c.requests|, None)
  }

  /** The rest of a step whose response decoded to an object: dispatch on its `type`. */
  function ObjectStep(w: World, step: nat, c: Completion, fields: map<string, Value>): (r: StepResult)
    requires 1 <= |c.requests| <= MaxAttempts
    ensures StepShape(c.messages, r) && Converses(c, r) && ThoughtFirst(r.events)
    ensures CountAgrees(r.events, r.messages)
    // the step opens with the thought, if any
    ensures |ThoughtEvents(fields)| <= |r.events| && r.events[..|ThoughtEvents(fields)|] == ThoughtEvents(fields)
    // the dispatch on `type`
    ensures Announces(r.events) <==> Get(fields, "type") == Str("sql")
    ensures r.stop == Some(Answered) <==> Get(fields, "type") == Str("answer")
    ensures r.stop == Some(Answered) ==> r.events[|r.events| - 1] == FinalAnswer(Show(Get(fields, "content")))
    ensures Get(fields, "type") != Str("sql") && Get(fields, "type") != Str("answer") ==>
      && |r.events| > 0 && r.events[|r.events| - 1] == UnknownType(Show(Get(fields, "type")))
      && r.messages == c.messages + [Message(User, UnknownTypeNote)]
  {
    var kind := Get(fields, "type");
    var thought := ThoughtEvents(fields);
    if kind == Str("sql") then
      var r := SqlStep(w, step, c, thought, Get(fields, "sql"));
      assert r.events[..|thought|] == thought;
      r
    else if kind == Str("answer") then
      var r := AnswerStep(c, thought, Get(fields, "content"));
      assert r.events[..|thought|] == thought;
      assert !Announces(r.events) by {
        assert forall e :: e in r.events ==> e.Thought? || e.FinalAnswer?;
      }
      r
    else
      var r := UnknownStep(c, thought, kind);
      assert r.events[..|thought|] == thought;
      r
  }

  /** One iteration of the `while step < max_steps` loop. */
  function RunStep(w: World, st: AgentState): (r: StepResult)
    requires st.step < MaxSteps && |st.messages| > 0
    ensures StepShape(st.messages, r) && Converses(StepCompletion(w, st), r) && ThoughtFirst(r.events)
    // the count a step reports is the count its feedback states
    ensures CountAgrees(r.events, r.messages)
    // an undecodable response is echoed and answered with the invalid-JSON note
    ensures w.parse(StepCompletion(w, st).text).Malformed? ==>
      && r.events == [ParseFailure(StepCompletion(w, st).text)]
      && r.messages == StepCompletion(w, st).messages + [Message(User, InvalidJsonNote)]
    // a decoded non-object escapes the generator
    ensures r.stop == Some(Crashed(NonObjectResponse)) <==> w.parse(StepCompletion(w, st).text).NotAnObject?
    // the dispatch on `type`
    ensures Announces(r.events) <==>
      w.parse(StepCompletion(w, st).text).Object? && Get(w.parse(StepCompletion(w, st).text).fields, "type") == Str("sql")
    ensures r.stop == Some(Answered) <==>
      w.parse(StepCompletion(w, st).text).Object? && Get(w.parse(StepCompletion(w, st).text).fields, "type") == Str("answer")
  {
    var c := StepCompletion(w, st);
    match w.parse(c.text)
    case Malformed =>
      var events := [ParseFailure(c.text)];
      assert NoTerminal(events);
      assert !Announces(events);
      StepResult(c.messages + [Message(User, InvalidJsonNote)], events, |c.requests|, None)
    case NotAnObject =>
      StepResult(c.messages, [], |c.requests|, Some(Crashed(NonObjectResponse)))
    case Object(fields) =>
      ObjectStep(w, st.step, c, fields)
  }

  /** When every request of a step fails the completion is empty, and an empty
      completion takes the invalid-JSON path. */
  lemma ProviderOutageStep(w: World, st: AgentState)
    requires st.step < MaxSteps && |st.messages| > 0
    requires forall k :: 0 <= k < MaxAttempts ==> w.provider(st.step)(k).ProviderError?
    requires w.parse("") == Malformed
    ensures var r := RunStep(w, st);
      && r.requests == MaxAttempts
      && r.events == [ParseFailure("")]
      && r.stop.None?
      && r.messages[|r.messages| - 1] == Message(User, InvalidJsonNote)
  {
    ThreeFailuresGiveEmptyText(st.messages, true, w.provider(st.step));
  }

  /** Only a query yields rows: a statement step reports a non-zero count
      only when the trimmed statement is dispatched as a query, so a
      successful mutation reports zero rows whatever it changed. */
  lemma OnlyQueriesReportRows(w: World, step: nat, c: Completion, thought: seq<Event>, q: string)
    requires NoTerminal(thought) && |thought| <= 1 && 1 <= |c.requests| <= MaxAttempts
    ensures var r := SqlStep(w, step, c, thought, Str(q));
      r.events[|r.events| - 1].SqlRowCount? && r.events[|r.events| - 1].rows > 0 ==>
        Strip(q) != "" && Classify(Strip(q)) == Query
  {
    var run := StepSql(w, step, Str(q));
    if run.outcome.Returned? && run.outcome.result.Selected? {
      assert w.dbExistsAt(step);
    }
  }

  /** What every run from `st` guarantees: at most the remaining steps, one
      to three requests per step, a conversation that only grows, an ending
      of the loop's kinds with the step budget spent on `StepLimit`, and
      exactly one terminal event, the last, unless an exception escaped. */
  predicate RunShape(st: AgentState, t: Transcript) {
    && st.step <= t.steps <= MaxSteps
    && (st.step < MaxSteps ==> st.step < t.steps)
    && st.messages <= t.messages
    && st.providerCalls + (t.steps - st.step) <= t.providerCalls <= st.providerCalls + MaxAttempts * (t.steps - st.step)
    && (t.ending == Answered || t.ending == StepLimit
        || t.ending == Crashed(NonObjectResponse) || t.ending == Crashed(NonStringSql))
    && (t.ending == StepLimit ==> t.steps == MaxSteps)
    && (t.ending.Crashed? ==> NoTerminal(t.events))
    && (!t.ending.Crashed? ==> EndsOnce(t.events))
    && (t.ending == Answered ==> t.events[|t.events| - 1].FinalAnswer?)
    && (t.ending == StepLimit ==> t.events[|t.events| - 1] == StepLimitReached)
  }

  /** The state after a step that stays in the loop. */
  function Advance(st: AgentState, r: StepResult): AgentState {
    AgentState(st.step + 1, r.messages, st.providerCalls + r.requests)
  }

  /** The loop from the current state until an answer, an escaping exception,
      or the step budget. */
  function Loop(w: World, st: AgentState): (t: Transcript)
    requires st.step <= MaxSteps && |st.messages| > 0
    ensures RunShape(st, t)
    decreases MaxSteps - st.step, 1
  {
    if st.step >= MaxSteps then
      Transcript([StepLimitReached], st.messages, st.step, st.providerCalls, StepLimit)
    else
      After(w, st, RunStep(w, st))
  }

  /** The run after one step: it ends with the step, or goes on from the
      state the step leaves. */
  function After(w: World, st: AgentState, r: StepResult): (t: Transcript)
    requires st.step < MaxSteps && |st.messages| > 0 && StepShape(st.messages, r)
    ensures RunShape(st, t)
    decreases MaxSteps - st.step, 0
  {
    match r.stop
    case Some(ending) => Transcript(r.events, r.messages, st.step + 1, st.providerCalls + r.requests, ending)
    case None =>
      var rest := Loop(w, Advance(st, r));
      TerminalCountAppend(r.events, rest.events);
      rest.(events := r.events + rest.events)
  }

  /** A step that stays in the loop is followed by the rest of the run from
      the state it leaves; its events come before the rest's. */
  lemma LoopContinues(w: World, st: AgentState)
    requires st.step < MaxSteps && |st.messages| > 0
    requires RunStep(w, st).stop.None?
    ensures var r := RunStep(w, st);
      var rest := Loop(w, Advance(st, r));
      Loop(w, st) == rest.(events := r.events + rest.events)
  {
  }

  /** A run opens with its first step: that step's events come first, its
      conversation is kept, and its requests are counted. */
  lemma RunOpensWithStep(w: World, st: AgentState)
    requires st.step < MaxSteps && |st.messages| > 0
    ensures var r := RunStep(w, st);
      var t := Loop(w, st);
      && r.events <= t.events && r.messages <= t.messages
      && st.providerCalls + r.requests <= t.providerCalls && st.step < t.steps
  {
    var r := RunStep(w, st);
    if r.stop.None? {
      LoopContinues(w, st);
    }
  }

  /** An answer ends the run in the step that receives it, with the answer as
      the last event and the conversation as the completion left it. */
  lemma AnswerEndsTheRun(w: World, st: AgentState)
    requires st.step < MaxSteps && |st.messages| > 0
    requires w.parse(StepCompletion(w, st).text).Object?
    requires Get(w.parse(StepCompletion(w, st).text).fields, "type") == Str("answer")
    ensures var t := Loop(w, st);
      var fields := w.parse(StepCompletion(w, st).text).fields;
      && t.ending == Answered
      && t.steps == st.step + 1
      && t.events == ThoughtEvents(fields) + [FinalAnswer(Show(Get(fields, "content")))]
      && t.messages == StepCompletion(w, st).messages
  {
  }

  /** When no response ever decodes, every step yields one parse failure and
      the run ends on the step budget. */
  lemma {:induction false} MalformedRunsOutOfSteps(w: World, st: AgentState)
    requires st.step <= MaxSteps && |st.messages| > 0
    requires forall text :: w.parse(text) == Malformed
    ensures var t := Loop(w, st);
      && t.ending == StepLimit
      && |t.events| == MaxSteps - st.step + 1
      && forall i :: 0 <= i < |t.events| - 1 ==> t.events[i].ParseFailure?
    decreases MaxSteps - st.step
  {
    if st.step < MaxSteps {
      var c := StepCompletion(w, st);
      assert w.parse(c.text) == Malformed;
      var r := RunStep(w, st);
      assert r == StepResult(c.messages + [Message(User, InvalidJsonNote)], [ParseFailure(c.text)], |c.requests|, None);
      var next := Advance(st, r);
      MalformedRunsOutOfSteps(w, next);
      LoopContinues(w, st);
    }
  }

  /** The conversation `process_message` starts from. */
  function Seed(schema: string, input: string): seq<Message> {
    [Message(System, SystemPrompt(schema)), Message(User, input)]
  }

  /** `process_message(user_input)`. */
  function ProcessMessage(w: World, input: string): (t: Transcript)
    // a missing file or an empty catalog: one error event, no request, no conversation
    ensures !w.dbExists ==> t == Transcript([SchemaUnavailable], [], 0, 0, NoSchema)
    ensures w.dbExists && w.catalog == CatalogRows([]) ==> t == Transcript([SchemaUnavailable], [], 0, 0, NoSchema)
    // at most ten steps, each with one to three provider requests
    ensures t.steps <= MaxSteps && t.steps <= t.providerCalls <= MaxAttempts * t.steps
    ensures t.ending == StepLimit ==> t.steps == MaxSteps
    // the conversation starts as [system prompt, user input] and only grows
    ensures t.ending != NoSchema && !t.ending.Crashed? ==>
      && ListTables(w.dbExists, w.catalog).Listed?
      && Seed(SchemaContext(ListTables(w.dbExists, w.catalog).listing), input) <= t.messages
    // exactly one terminal event, the last one, unless an exception escaped
    ensures t.ending.Crashed? ==> NoTerminal(t.events)
    ensures !t.ending.Crashed? ==> EndsOnce(t.events)
  {
    match ListTables(w.dbExists, w.catalog)
    case ListRaised(m) => Transcript([], [], 0, 0, Crashed(CatalogFault(m)))
    case Listed(listing) =>
      var schema := SchemaContext(listing);
      if schema == "" then Transcript([SchemaUnavailable], [], 0, 0, NoSchema)
      else Loop(w, AgentState(0, Seed(schema, input), 0))
  }

  /** With a schema to show and a model whose responses never decode, the run
      yields ten parse failures and then the step-limit error. */
  lemma MalformedRunYieldsElevenEvents(w: World, input: string)
    requires w.dbExists && w.catalog.CatalogRows? && w.catalog.rows != []
    requires forall text :: w.parse(text) == Malformed
    ensures var t := ProcessMessage(w, input);
      && t.ending == StepLimit && t.steps == MaxSteps
      && |t.events| == MaxSteps + 1
      && t.events[MaxSteps] == StepLimitReached
      && forall i :: 0 <= i < MaxSteps ==> t.events[i].ParseFailure?
  {
    var listing := ListTables(w.dbExists, w.catalog).listing;
    assert listing.TableList? && listing.entries != [];
    var schema := SchemaContext(listing);
    MalformedRunsOutOfSteps(w, AgentState(0, Seed(schema, input), 0));
  }
}
