/**
 * The request handlers of app.py that carry logic: validation and stage
 * sequencing of `/api/optimize`, the gating of `/api/summarize`, turn
 * numbering in `/api/conversations` and the naming of sessions. Only the
 * decision each handler takes and the model calls it makes are modelled;
 * HTTP, cookies and storage are not.
 */
module App {
  import opened Wrappers
  import opened Text
  import Settings
  import Optimizer

  /** A text field of the request: a string, or another JSON value, on which `.strip()` raises. */
  datatype TextField = Str(s: string) | NotAString

  /**
   * The `conversation_history` field: a list; a string or object, which have
   * a length but are not lists; or a number, boolean or null, on which `len`
   * raises.
   */
  datatype HistoryField = Entries(entries: seq<Optimizer.Entry>) | Sized(size: nat) | Unsized

  /** The decoded JSON body: falsy (missing or empty), a non-object, or an object with its fields (absent ones defaulted). */
  datatype Body<F> = NoData | NotAnObject | Fields(fields: F)

  /** The fields of an optimisation request; absent ones default to "" and []. */
  datatype OptimizeInput = OptimizeInput(userText: TextField, history: HistoryField)

  /** Why a handler answers with an error. */
  datatype Failure =
    | NotInitialised      // 503
    | EmptyRequest        // 400
    | NothingToOptimize   // 400
    | RequirementTooLong  // 400
    | HistoryTooLong      // 400
    | EmptyContent        // 400
    | ContentTooShort     // 400
    | Internal            // 500: any exception, including a failed stage

  /** The HTTP status a handler answers a failure with. */
  function StatusOf(f: Failure): (status: int)
    ensures status == 503 <==> f == NotInitialised
    ensures status == 500 <==> f == Internal
    ensures status == 400 <==> f != NotInitialised && f != Internal
  {
    match f
    case NotInitialised => 503
    case Internal => 500
    case _ => 400
  }

  const MaxRequirementLength: nat := 10000
  const MaxHistoryTurns: nat := 50
  const MinSummaryLength: nat := 500

  /** `len(conversation_history)` for a value that has a length. */
  function HistoryLength(h: HistoryField): nat
    requires !h.Unsized?
  {
    if h.Entries? then |h.entries| else h.size
  }

  /** The history as the context builder receives it. */
  function AsHistory(h: HistoryField): Optimizer.History {
    if h.Entries? then Optimizer.List(h.entries) else Optimizer.NotAList
  }

  /** The validated inputs of the pipeline, or the reason the request is refused. */
  datatype Checked = Accepted(userText: string, history: Optimizer.History) | Rejected(failure: Failure)

  /**
   * The checks `/api/optimize` makes before any stage runs, in the order
   * emptiness, requirement length, history length. The requirement is
   * stripped first; a history value without a length fails already in the
   * request log line.
   */
  function CheckOptimize(input: OptimizeInput): (c: Checked)
    ensures c.Accepted? <==>
      && input.userText.Str? && !input.history.Unsized?
      && (Strip(input.userText.s) != "" || HistoryLength(input.history) > 0)
      && |Strip(input.userText.s)| <= MaxRequirementLength
      && HistoryLength(input.history) <= MaxHistoryTurns
    ensures c.Accepted? ==> c.userText == Strip(input.userText.s) && c.history == AsHistory(input.history)
    ensures input.userText.NotAString? || input.history.Unsized? ==> c == Rejected(Internal)
    ensures input.userText.Str? && !input.history.Unsized? && Strip(input.userText.s) == "" && HistoryLength(input.history) == 0 ==>
      c == Rejected(NothingToOptimize)
    ensures input.userText.Str? && !input.history.Unsized? && |Strip(input.userText.s)| > MaxRequirementLength ==>
      c == Rejected(RequirementTooLong)
    ensures input.userText.Str? && !input.history.Unsized? && |Strip(input.userText.s)| <= MaxRequirementLength ==>
      HistoryLength(input.history) > MaxHistoryTurns ==> c == Rejected(HistoryTooLong)
  {
    match input.userText
    case NotAString => Rejected(Internal)
    case Str(s) =>
      var userText := Strip(s);
      if input.history.Unsized? then Rejected(Internal)
      else
        var historyPresent := HistoryLength(input.history) > 0;
        if userText == "" && !historyPresent then Rejected(NothingToOptimize)
        else if userText != "" && |userText| > MaxRequirementLength then Rejected(RequirementTooLong)
        else if historyPresent && HistoryLength(input.history) > MaxHistoryTurns then Rejected(HistoryTooLong)
        else Accepted(userText, AsHistory(input.history))
  }

  /** The three stage outputs, all present together. */
  datatype Outputs = Outputs(deepseek: string, kimi: string, qwen: string)

  /** The three chained stages end with all outputs or at the first stage that failed. */
  datatype PipelineResult = Completed(outputs: Outputs) | StageFailed(stage: Optimizer.Stage)

  /**
   * The stages in order 1, 2, 3, each fed the context and every earlier
   * output, with the calls made so far: a failed stage stops the run, so
   * the later stages are never called.
   */
  function RunStages(ctx: Optimizer.Context, chains: Optimizer.Chains, config: Settings.Config)
    : (r: (PipelineResult, seq<Optimizer.Call>))
    ensures 1 <= |r.1| <= 3 && r.1[0] == Optimizer.Step1Call(ctx)
    ensures forall k :: 0 <= k < |r.1| ==> Optimizer.Input in r.1[k].bindings && r.1[k].bindings[Optimizer.Input] == ctx.text
    ensures r.0.Completed? <==> |r.1| == 3 && forall k :: 0 <= k < 3 ==> Optimizer.Invoke(chains, r.1[k], config).Some?
    ensures r.0.Completed? ==>
      var o := r.0.outputs;
      && r.1 == [Optimizer.Step1Call(ctx), Optimizer.Step2Call(ctx, o.deepseek), Optimizer.Step3Call(ctx, o.deepseek, o.kimi)]
      && Optimizer.Invoke(chains, r.1[0], config) == Some(o.deepseek)
      && Optimizer.Invoke(chains, r.1[1], config) == Some(o.kimi)
      && Optimizer.Invoke(chains, r.1[2], config) == Some(o.qwen)
    ensures r.0.StageFailed? ==>
      && Optimizer.Invoke(chains, r.1[|r.1| - 1], config).None?
      && (forall k :: 0 <= k < |r.1| - 1 ==> Optimizer.Invoke(chains, r.1[k], config).Some?)
      && |r.1| == (match r.0.stage case Step1 => 1 case Step2 => 2 case Step3 => 3)
    ensures |r.1| >= 2 ==> r.1[1] == Optimizer.Step2Call(ctx, Optimizer.Invoke(chains, r.1[0], config).value)
    ensures |r.1| == 3 ==>
      r.1[2] == Optimizer.Step3Call(ctx, Optimizer.Invoke(chains, r.1[0], config).value,
                                         Optimizer.Invoke(chains, r.1[1], config).value)
  {
    var call1 := Optimizer.Step1Call(ctx);
    match Optimizer.Invoke(chains, call1, config)
    case None => (StageFailed(Optimizer.Step1), [call1])
    case Some(deepseek) =>
      var call2 := Optimizer.Step2Call(ctx, deepseek);
      match Optimizer.Invoke(chains, call2, config)
      case None => (StageFailed(Optimizer.Step2), [call1, call2])
      case Some(kimi) =>
        var call3 := Optimizer.Step3Call(ctx, deepseek, kimi);
        match Optimizer.Invoke(chains, call3, config)
        case None =>
          assert Optimizer.Invoke(chains, [call1, call2, call3][2], config).None?;
          (StageFailed(Optimizer.Step3), [call1, call2, call3])
        case Some(qwen) => (Completed(Outputs(deepseek, kimi, qwen)), [call1, call2, call3])
  }

  /** The answer of `/api/optimize`: all three outputs, or an error and no data. */
  datatype OptimizeReply = Optimized(data: Outputs) | OptimizeFailed(failure: Failure)

  /** The stages run on an accepted request: the outputs when all three succeed, a 500 otherwise. */
  function RunAccepted(userText: string, history: Optimizer.History, chains: Optimizer.Chains, config: Settings.Config)
    : (r: (OptimizeReply, seq<Optimizer.Call>))
    ensures r.1 != []
    ensures r.0.OptimizeFailed? ==> r.0.failure == Internal
    ensures r.0.Optimized? <==> |r.1| == 3 && forall k :: 0 <= k < 3 ==> Optimizer.Invoke(chains, r.1[k], config).Some?
    ensures forall k :: 0 <= k < |r.1| ==>
      Optimizer.Input in r.1[k].bindings && r.1[k].bindings[Optimizer.Input] == Optimizer.BuildInputContext(userText, history, config).text
    ensures r.1[0] == Optimizer.Step1Call(Optimizer.BuildInputContext(userText, history, config))
    ensures r.0.Optimized? ==>
      && Optimizer.Invoke(chains, r.1[0], config) == Some(r.0.data.deepseek)
      && Optimizer.Invoke(chains, r.1[1], config) == Some(r.0.data.kimi)
      && Optimizer.Invoke(chains, r.1[2], config) == Some(r.0.data.qwen)
  {
    var ctx := Optimizer.BuildInputContext(userText, history, config);
    var (result, calls) := RunStages(ctx, chains, config);
    (if result.Completed? then Optimized(result.outputs) else OptimizeFailed(Internal), calls)
  }

  /**
   * `/api/optimize` as written, with the stage calls it makes. Refusals
   * make no call; an accepted request runs the stages on the context built
   * from the stripped requirement and the history, and a failing stage
   * turns into a 500 with no partial data.
   */
  function Optimize(initialised: bool, body: Body<OptimizeInput>, chains: Optimizer.Chains, config: Settings.Config)
    : (r: (OptimizeReply, seq<Optimizer.Call>))
    ensures r.0.OptimizeFailed? && StatusOf(r.0.failure) != 500 ==> r.1 == []
    ensures r.1 != [] <==> initialised && body.Fields? && CheckOptimize(body.fields).Accepted?
    ensures r.1 != [] ==>
      r == RunAccepted(CheckOptimize(body.fields).userText, CheckOptimize(body.fields).history, chains, config)
    ensures !initialised ==> r == (OptimizeFailed(NotInitialised), [])
    ensures initialised && body.NoData? ==> r == (OptimizeFailed(EmptyRequest), [])
    ensures initialised && body.NotAnObject? ==> r == (OptimizeFailed(Internal), [])
    ensures initialised && body.Fields? && CheckOptimize(body.fields).Rejected? ==>
      r == (OptimizeFailed(CheckOptimize(body.fields).failure), [])
  {
    if !initialised then (OptimizeFailed(NotInitialised), [])
    else
      match body
      case NoData => (OptimizeFailed(EmptyRequest), [])
      case NotAnObject => (OptimizeFailed(Internal), [])
      case Fields(input) =>
        match CheckOptimize(input)
        case Rejected(failure) => (OptimizeFailed(failure), [])
        case Accepted(userText, history) => RunAccepted(userText, history, chains, config)
  }

  /** A blank requirement with an empty history list is refused with 400 before any stage. */
  lemma EmptyRequestIsRefused(s: string, chains: Optimizer.Chains, config: Settings.Config)
    requires Strip(s) == ""
    ensures Optimize(true, Fields(OptimizeInput(Str(s), Entries([]))), chains, config) == (OptimizeFailed(NothingToOptimize), [])
  {
  }

  /** A requirement of exactly 10000 characters passes the length check; one more is refused. */
  lemma RequirementLengthBoundary(s: string, h: HistoryField)
    requires !h.Unsized? && HistoryLength(h) <= MaxHistoryTurns
    requires s == Strip(s) && s != ""
    ensures |s| == MaxRequirementLength ==> CheckOptimize(OptimizeInput(Str(s), h)).Accepted?
    ensures |s| == MaxRequirementLength + 1 ==> CheckOptimize(OptimizeInput(Str(s), h)) == Rejected(RequirementTooLong)
  {
  }

  /** A history of exactly 50 entries passes; 51 are refused. */
  lemma HistoryLengthBoundary(s: string, entries: seq<Optimizer.Entry>)
    requires |Strip(s)| <= MaxRequirementLength
    ensures |entries| == MaxHistoryTurns ==> CheckOptimize(OptimizeInput(Str(s), Entries(entries))).Accepted?
    ensures |entries| == MaxHistoryTurns + 1 ==> CheckOptimize(OptimizeInput(Str(s), Entries(entries))) == Rejected(HistoryTooLong)
  {
  }

  /** The requirement length is checked before the history length. */
  lemma RequirementCheckedFirst(s: string, h: HistoryField)
    requires !h.Unsized? && HistoryLength(h) > MaxHistoryTurns
    requires |Strip(s)| > MaxRequirementLength
    ensures CheckOptimize(OptimizeInput(Str(s), h)) == Rejected(RequirementTooLong)
  {
  }

  /**
   * When stage 2 fails, stage 1 has run and its output was handed to stage
   * 2, stage 3 never runs, and the reply is a 500 without data.
   */
  lemma Stage2FailureIsAttributed(ctx: Optimizer.Context, chains: Optimizer.Chains, config: Settings.Config)
    requires Optimizer.Invoke(chains, Optimizer.Step1Call(ctx), config).Some?
    requires Optimizer.Invoke(chains, Optimizer.Step2Call(ctx, Optimizer.Invoke(chains, Optimizer.Step1Call(ctx), config).value), config).None?
    ensures RunStages(ctx, chains, config) == (
      StageFailed(Optimizer.Step2),
      [Optimizer.Step1Call(ctx), Optimizer.Step2Call(ctx, Optimizer.Invoke(chains, Optimizer.Step1Call(ctx), config).value)])
  {
  }

  /**
   * The corrected handler: the same checks and stages, but a request whose
   * context would be empty (a blank requirement with a history that is not
   * a non-empty list) is refused like an empty request.
   */
  function OptimizeGuarded(initialised: bool, body: Body<OptimizeInput>, chains: Optimizer.Chains, config: Settings.Config)
    : (r: (OptimizeReply, seq<Optimizer.Call>))
    ensures forall k :: 0 <= k < |r.1| ==> Optimizer.Input in r.1[k].bindings && r.1[k].bindings[Optimizer.Input] != ""
    ensures r.0.OptimizeFailed? && StatusOf(r.0.failure) != 500 ==> r.1 == []
    ensures body.Fields? && body.fields.history.Entries? ==> r == Optimize(initialised, body, chains, config)
  {
    if initialised && body.Fields? && CheckOptimize(body.fields).Accepted? then
      var c := CheckOptimize(body.fields);
      if Optimizer.BuildInputContext(c.userText, c.history, config).text == "" then
        (OptimizeFailed(NothingToOptimize), [])
      else
        RunAccepted(c.userText, c.history, chains, config)
    else
      Optimize(initialised, body, chains, config)
  }

  /**
   * As written, a blank requirement with a history given as a non-empty
   * string passes every check and step 1 is invoked with an empty context.
   */
  lemma EmptyContextReachesStages(chains: Optimizer.Chains, config: Settings.Config)
    ensures var r := Optimize(true, Fields(OptimizeInput(Str(""), Sized(1))), chains, config);
      r.1 != [] && r.1[0] == Optimizer.Step1Call(Optimizer.Context("", false))
  {
  }

  // ---------------------------------------------------------------------
  // /api/summarize
  // ---------------------------------------------------------------------

  datatype SummaryData = SummaryData(originalLength: nat, summaryLength: nat, summary: string)

  datatype SummarizeReply = Summarized(data: SummaryData) | SummarizeFailed(failure: Failure)

  /**
   * `/api/summarize`: the stripped content must be non-empty and at least
   * 500 characters long before the summarisation call is made; the reply
   * reports both lengths.
   */
  function Summarize(initialised: bool, body: Body<TextField>, chains: Optimizer.Chains, config: Settings.Config)
    : (r: (SummarizeReply, seq<Optimizer.Call>))
    ensures r.0.SummarizeFailed? && StatusOf(r.0.failure) != 500 ==> r.1 == []
    ensures !initialised ==> r == (SummarizeFailed(NotInitialised), [])
    ensures initialised && body.NoData? ==> r == (SummarizeFailed(EmptyRequest), [])
    ensures initialised && (body.NotAnObject? || (body.Fields? && body.fields.NotAString?)) ==> r == (SummarizeFailed(Internal), [])
    ensures initialised && body.Fields? && body.fields.Str? && Strip(body.fields.s) == "" ==> r == (SummarizeFailed(EmptyContent), [])
    ensures initialised && body.Fields? && body.fields.Str? && 0 < |Strip(body.fields.s)| < MinSummaryLength ==>
      r == (SummarizeFailed(ContentTooShort), [])
    ensures r.0.Summarized? ==>
      && initialised && body.Fields? && body.fields.Str?
      && var content := Strip(body.fields.s);
      && |content| >= MinSummaryLength
      && r.1 == [Optimizer.SummaryCall(content)]
      && Optimizer.Invoke(chains, Optimizer.SummaryCall(content), config) == Some(r.0.data.summary)
      && r.0.data.originalLength == |content|
      && r.0.data.summaryLength == |r.0.data.summary|
    ensures initialised && body.Fields? && body.fields.Str? && |Strip(body.fields.s)| >= MinSummaryLength ==>
      && r.1 == [Optimizer.SummaryCall(Strip(body.fields.s))]
      && (r.0.Summarized? <==> Optimizer.Invoke(chains, r.1[0], config).Some?)
      && (r.0.SummarizeFailed? ==> r.0.failure == Internal)
  {
    if !initialised then (SummarizeFailed(NotInitialised), [])
    else
      match body
      case NoData => (SummarizeFailed(EmptyRequest), [])
      case NotAnObject => (SummarizeFailed(Internal), [])
      case Fields(NotAString) => (SummarizeFailed(Internal), [])
      case Fields(Str(s)) =>
        var content := Strip(s);
        if content == "" then (SummarizeFailed(EmptyContent), [])
        else if |content| < MinSummaryLength then (SummarizeFailed(ContentTooShort), [])
        else
          var call := Optimizer.SummaryCall(content);
          match Optimizer.Invoke(chains, call, config)
          case None => (SummarizeFailed(Internal), [call])
          case Some(summary) => (Summarized(SummaryData(|content|, |summary|, summary)), [call])
  }

  // ---------------------------------------------------------------------
  // Session names and conversation turns
  // ---------------------------------------------------------------------

  const DefaultSessionName: string := "新会话"
  const MaxSessionNameLength: nat := 15

  /** A generated title: the model's reply stripped and cut to 15 characters. */
  function ClipName(response: string): (name: string)
    ensures |name| <= MaxSessionNameLength
    ensures StartsWith(Strip(response), name)
    ensures |Strip(response)| <= MaxSessionNameLength ==> name == Strip(response)
    ensures |Strip(response)| > MaxSessionNameLength ==> |name| == MaxSessionNameLength
  {
    Head(Strip(response), MaxSessionNameLength)
  }

  const TitleInstruction: string := "请为以下内容生成一个简短的标题，不超过15个字，只返回标题本身，不要其他内容：\n\n"
  const RenameInstruction: string := "请为以下对话生成一个简短的会话标题，不超过15个字，只返回标题本身，不要其他内容：\n\n"

  /**
   * The title request for a new session: the fixed instruction, then the
   * requirement cut to its first 200 characters, in full when shorter.
   */
  function SessionTitlePrompt(initialRequirement: string): (prompt: string)
    ensures StartsWith(prompt, TitleInstruction)
    ensures var quoted := prompt[|TitleInstruction|..];
      && StartsWith(initialRequirement, quoted)
      && |quoted| == (if |initialRequirement| < 200 then |initialRequirement| else 200)
  {
    TitleInstruction + Head(initialRequirement, 200)
  }

  /**
   * The name of a new session: a generated title when the requirement is
   * not blank and the title call succeeds, the default name otherwise;
   * never longer than 15 characters.
   */
  function NewSessionName(initialRequirement: string, generate: string -> Option<string>): (name: string)
    ensures |name| <= MaxSessionNameLength
    ensures Strip(initialRequirement) == "" ==> name == DefaultSessionName
    ensures Strip(initialRequirement) != "" && generate(SessionTitlePrompt(initialRequirement)).None? ==> name == DefaultSessionName
    ensures Strip(initialRequirement) != "" && generate(SessionTitlePrompt(initialRequirement)).Some? ==>
      name == ClipName(generate(SessionTitlePrompt(initialRequirement)).value)
  {
    if initialRequirement != "" && |Strip(initialRequirement)| > 0 then
      match generate(SessionTitlePrompt(initialRequirement))
      case Some(response) => ClipName(response)
      case None => DefaultSessionName
    else
      DefaultSessionName
  }

  /** A stored conversation turn of a session. */
  datatype Row = Row(turnNumber: nat, userMessage: string, aiResponse: string)

  /** The turns of a session are numbered 1, 2, 3, ... in order. */
  predicate Consecutive(rows: seq<Row>) {
    forall i :: 0 <= i < |rows| ==> rows[i].turnNumber == i + 1
  }

  /** The line quoting one turn: its user message cut to the first 100 characters. */
  function Quote(row: Row): string {
    "用户: " + Head(row.userMessage, 100) + "\n"
  }

  /** Python's `rows[-3:]`: the last three turns, or all of them when there are fewer. */
  function LastThree(rows: seq<Row>): (recent: seq<Row>)
    ensures |recent| == (if |rows| < 3 then |rows| else 3)
    ensures recent == rows[|rows| - |recent|..]
  {
    if |rows| <= 3 then rows else rows[|rows| - 3..]
  }

  /** The quoting lines of `rows`, concatenated in order. */
  function Quotes(rows: seq<Row>): string {
    if rows == [] then "" else Quotes(rows[..|rows| - 1]) + Quote(rows[|rows| - 1])
  }

  /** The text the renaming prompt quotes: one line per turn, for the last three turns. */
  function RecentMessages(rows: seq<Row>): string {
    Quotes(LastThree(rows))
  }

  /** Up to three turns are quoted one line each, oldest first. */
  lemma QuotesOfFew(t: seq<Row>)
    requires |t| <= 3
    ensures |t| == 3 ==> Quotes(t) == Quote(t[0]) + Quote(t[1]) + Quote(t[2])
    ensures |t| == 2 ==> Quotes(t) == Quote(t[0]) + Quote(t[1])
    ensures |t| == 1 ==> Quotes(t) == Quote(t[0])
  {
    if |t| >= 1 {
      var u := t[..|t| - 1];
      if |u| >= 1 {
        var v := u[..|u| - 1];
        assert |v| >= 1 ==> v[..|v| - 1] == [];
        assert |v| >= 1 ==> v[0] == t[0];
        assert |v| == 0 ==> u[0] == t[0];
      }
    }
  }

  /**
   * The renaming prompt quotes the user messages of exactly the last three
   * turns (all turns when there are fewer), oldest first, each cut to 100
   * characters.
   */
  lemma RecentMessagesQuoteLastThree(rows: seq<Row>)
    ensures |rows| >= 3 ==> RecentMessages(rows) == Quote(rows[|rows| - 3]) + Quote(rows[|rows| - 2]) + Quote(rows[|rows| - 1])
    ensures |rows| == 2 ==> RecentMessages(rows) == Quote(rows[0]) + Quote(rows[1])
    ensures |rows| == 1 ==> RecentMessages(rows) == Quote(rows[0])
    ensures rows == [] ==> RecentMessages(rows) == ""
  {
    var t := LastThree(rows);
    QuotesOfFew(t);
    if |rows| >= 3 {
      assert t[0] == rows[|rows| - 3] && t[1] == rows[|rows| - 2] && t[2] == rows[|rows| - 1];
    }
  }

  /** The renaming request: the fixed instruction followed by the quoted recent turns. */
  function RenamePrompt(rows: seq<Row>): (prompt: string)
    ensures StartsWith(prompt, RenameInstruction) && prompt[|RenameInstruction|..] == RecentMessages(rows)
  {
    RenameInstruction + RecentMessages(rows)
  }

  /** The answer of `/api/conversations`: the turn is stored, with a new session name when the title call succeeded. */
  datatype AddReply = Added(newSessionName: Option<string>) | AddFailed(status: int)

  /**
   * `add_conversation`: after the login and parameter checks the turn is
   * stored under number (existing turns + 1); the session is then renamed
   * from its last three turns, and a failing title call still reports the
   * turn as added, without a name.
   */
  function AddConversation(loggedIn: bool, sessionId: Option<int>, userMessage: string, aiResponse: string,
                           existing: seq<Row>, generate: string -> Option<string>)
    : (r: (AddReply, seq<Row>))
    ensures !loggedIn ==> r == (AddFailed(401), existing)
    ensures loggedIn && (sessionId.None? || sessionId == Some(0) || userMessage == "" || aiResponse == "") ==>
      r == (AddFailed(400), existing)
    ensures r.0.Added? ==> |r.1| == |existing| + 1 && r.1[..|existing|] == existing
    ensures r.0.Added? ==> r.1[|existing|] == Row(|existing| + 1, userMessage, aiResponse)
    ensures r.0.Added? && r.0.newSessionName.Some? ==> |r.0.newSessionName.value| <= MaxSessionNameLength
    ensures loggedIn && sessionId.Some? && sessionId.value != 0 && userMessage != "" && aiResponse != "" ==>
      && r.0.Added?
      && r.0.newSessionName == (if generate(RenamePrompt(r.1)).Some? then Some(ClipName(generate(RenamePrompt(r.1)).value)) else None)
  {
    if !loggedIn then (AddFailed(401), existing)
    else if sessionId.None? || sessionId.value == 0 || userMessage == "" || aiResponse == "" then (AddFailed(400), existing)
    else
      var turnNumber := |existing| + 1;
      var rows := existing + [Row(turnNumber, userMessage, aiResponse)];
      match generate(RenamePrompt(rows))
      case Some(response) => (Added(Some(ClipName(response))), rows)
      case None => (Added(None), rows)
  }

  /** Adding a turn to consecutively numbered turns keeps them consecutive. */
  lemma AddKeepsNumbering(loggedIn: bool, sessionId: Option<int>, userMessage: string, aiResponse: string,
                          existing: seq<Row>, generate: string -> Option<string>)
    requires Consecutive(existing)
    ensures Consecutive(AddConversation(loggedIn, sessionId, userMessage, aiResponse, existing, generate).1)
  {
    var rows := AddConversation(loggedIn, sessionId, userMessage, aiResponse, existing, generate).1;
    if rows != existing {
      forall i | 0 <= i < |rows| ensures rows[i].turnNumber == i + 1 {
        if i < |existing| {
          assert rows[i] == rows[..|existing|][i];
        }
      }
    }
  }
}
