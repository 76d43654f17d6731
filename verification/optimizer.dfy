/**
 * Context building and stage bindings (src/core/optimizer.py): the
 * rendering of the conversation history, with the fixed abridgement of long
 * AI replies, the assembly of the single context string every stage reads,
 * and the variables each model stage is invoked with.
 */
module Optimizer {
  import opened Wrappers
  import opened Text
  import Settings
  import Retry

  /** One element of a submitted history list: not a dictionary, or a dictionary whose `user`/`ai` keys may be absent. */
  datatype Entry = NotADict | Dict(user: Option<string>, ai: Option<string>)

  /** The entries the formatter renders: dictionaries carrying both keys. */
  predicate WellFormed(e: Entry) {
    e.Dict? && e.user.Some? && e.ai.Some?
  }

  /** The history argument: a list, or any other value, which is treated as the empty list. */
  datatype History = List(entries: seq<Entry>) | NotAList

  /** A rendered turn: the 1-based position of its entry in the submitted list, and its two texts. */
  datatype Turn = Turn(number: nat, user: string, ai: string)

  /** The input every stage receives, and whether a non-empty history list was submitted. */
  datatype Context = Context(text: string, hasHistory: bool)

  const HistoryHeader: string :=
    "【对话历史】\n\n" + "说明：以下是用户使用优化后的提示词与大模型进行多轮对话的历史记录。\n\n"

  const RequirementLabel: string := "初始需求："

  /** Characters kept from each end of an abridged AI reply. */
  const KeptPerEnd: nat := 500

  /**
   * The well-formed entries of `h` as turns, in list order, numbered by
   * their ORIGINAL position: skipped entries leave gaps in the numbering.
   */
  function ValidTurns(h: seq<Entry>): (turns: seq<Turn>)
    ensures forall k :: 0 <= k < |turns| ==>
      1 <= turns[k].number <= |h| && h[turns[k].number - 1] == Dict(Some(turns[k].user), Some(turns[k].ai))
    ensures forall k, l :: 0 <= k < l < |turns| ==> turns[k].number < turns[l].number
  {
    if h == [] then []
    else
      var prev := ValidTurns(h[..|h| - 1]);
      var e := h[|h| - 1];
      assert forall i :: 0 <= i < |h| - 1 ==> h[..|h| - 1][i] == h[i];
      if WellFormed(e) then prev + [Turn(|h|, e.user.value, e.ai.value)] else prev
  }

  /** Every well-formed entry is rendered, under the number of its position. */
  lemma {:induction false} ValidTurnsComplete(h: seq<Entry>, i: nat)
    requires i < |h| && WellFormed(h[i])
    ensures exists k :: 0 <= k < |ValidTurns(h)| && ValidTurns(h)[k].number == i + 1
  {
    var p := h[..|h| - 1];
    var prev := ValidTurns(p);
    var e := h[|h| - 1];
    var turns := if WellFormed(e) then prev + [Turn(|h|, e.user.value, e.ai.value)] else prev;
    assert ValidTurns(h) == turns;
    if i == |h| - 1 {
      assert turns[|prev|].number == i + 1;
    } else {
      assert p[i] == h[i];
      ValidTurnsComplete(p, i);
      var k :| 0 <= k < |prev| && prev[k].number == i + 1;
      assert turns[k] == prev[k];
    }
  }

  /** The marker standing for the omitted middle of a reply. */
  function OmissionMarker(omitted: int): string {
    "...\n[中间省略约" + IntToString(omitted) + "字符]...\n"
  }

  /**
   * A long AI reply cut down to its first and last 500 characters around the
   * omission marker, whose count is the length minus 1000.
   */
  function Abridge(ai: string): (r: string)
    ensures |ai| >= 2 * KeptPerEnd ==>
      && |r| == 2 * KeptPerEnd + |OmissionMarker(|ai| - 1000)|
      && r[..KeptPerEnd] == ai[..KeptPerEnd]
      && r[|r| - KeptPerEnd..] == ai[|ai| - KeptPerEnd..]
      && r[KeptPerEnd..|r| - KeptPerEnd] == OmissionMarker(|ai| - 1000)
  {
    Head(ai, KeptPerEnd) + OmissionMarker(|ai| - 1000) + Tail(ai, KeptPerEnd)
  }

  /** The line noting the original length of an abridged reply. */
  function LengthNote(length: nat): string {
    "(原始回复共" + IntToString(length) + "字符，已进行摘要处理)\n"
  }

  /**
   * The AI lines of one turn: the reply verbatim when it is at most
   * `threshold` characters; otherwise a line keeping its first 500
   * characters, then the note of its original length.
   */
  function AiLines(ai: string, threshold: int): (r: string)
    ensures |ai| <= threshold ==> r == "AI: " + ai + "\n"
    ensures |ai| > threshold ==> StartsWith(r, "AI: ") && EndsWith(r, LengthNote(|ai|))
    ensures |ai| > threshold && |ai| >= 2 * KeptPerEnd ==> |r| >= 4 + KeptPerEnd && r[4..4 + KeptPerEnd] == ai[..KeptPerEnd]
  {
    if |ai| > threshold then
      var a := Abridge(ai);
      var note := LengthNote(|ai|);
      var r := "AI: " + a + "\n" + note;
      assert r[..4] == "AI: ";
      assert r[|r| - |note|..] == note;
      assert |ai| >= 2 * KeptPerEnd ==> r[4..4 + KeptPerEnd] == a[..KeptPerEnd];
      r
    else
      "AI: " + ai + "\n"
  }

  /** The header of one rendered turn: its number, then the user's message. */
  function TurnHeader(t: Turn): string {
    "轮次 " + IntToString(t.number) + ":\n" + "用户: " + t.user + "\n"
  }

  /** The text block of one rendered turn: the header, the AI lines, and a blank line. */
  function TurnText(t: Turn, threshold: int): (r: string)
    ensures StartsWith(r, TurnHeader(t))
    ensures r[|TurnHeader(t)|..] == AiLines(t.ai, threshold) + "\n"
  {
    var r := TurnHeader(t) + AiLines(t.ai, threshold) + "\n";
    assert r[..|TurnHeader(t)|] == TurnHeader(t);
    r
  }

  /** The blocks of `turns`, concatenated in order. */
  function TurnsText(turns: seq<Turn>, threshold: int): string {
    if turns == [] then "" else TurnsText(turns[..|turns| - 1], threshold) + TurnText(turns[|turns| - 1], threshold)
  }

  /**
   * The rendered history: empty for an empty list; otherwise the fixed
   * two-line header followed by one block per well-formed entry.
   */
  function FormatHistory(h: seq<Entry>, threshold: int): (r: string)
    ensures r == "" <==> h == []
    ensures h != [] ==> StartsWith(r, HistoryHeader)
  {
    if h == [] then "" else HistoryHeader + TurnsText(ValidTurns(h), threshold)
  }

  lemma AppendEmpty(a: string)
    ensures a + "" == a
  {
  }

  lemma AppendAssoc(a: string, b: string, c: string)
    ensures (a + b) + c == a + (b + c)
  {
  }

  /** One more entry of the list adds its block, or nothing when it is malformed. */
  lemma ValidTurnsStep(h: seq<Entry>, i: nat, threshold: int)
    requires i < |h|
    ensures var t := if WellFormed(h[i]) then [Turn(i + 1, h[i].user.value, h[i].ai.value)] else [];
      && ValidTurns(h[..i + 1]) == ValidTurns(h[..i]) + t
      && TurnsText(ValidTurns(h[..i + 1]), threshold) == TurnsText(ValidTurns(h[..i]), threshold)
           + (if WellFormed(h[i]) then TurnText(t[0], threshold) else "")
  {
    assert h[..i + 1][..i] == h[..i];
    var prev := ValidTurns(h[..i]);
    if WellFormed(h[i]) {
      var t := Turn(i + 1, h[i].user.value, h[i].ai.value);
      assert (prev + [t])[..|prev|] == prev;
    }
  }

  /**
   * `format_conversation_history`: one pass over the list that skips
   * malformed entries and appends a block for every other one.
   */
  method FormatConversationHistory(history: seq<Entry>, config: Settings.Config) returns (formatted: string)
    ensures formatted == FormatHistory(history, config.summaryThreshold)
  {
    if history == [] {
      return "";
    }
    formatted := HistoryHeader;
    assert history[..0] == [];
    AppendEmpty(HistoryHeader);
    var i := 0;
    while i < |history|
      invariant 0 <= i <= |history|
      invariant formatted == HistoryHeader + TurnsText(ValidTurns(history[..i]), config.summaryThreshold)
    {
      var turn := history[i];
      if turn.NotADict? || turn.user.None? || turn.ai.None? {
        ValidTurnsStep(history, i, config.summaryThreshold);
        AppendEmpty(TurnsText(ValidTurns(history[..i]), config.summaryThreshold));
        i := i + 1;
        continue;
      }
      var block := RenderTurn(i + 1, turn.user.value, turn.ai.value, config.summaryThreshold);
      ValidTurnsStep(history, i, config.summaryThreshold);
      AppendAssoc(HistoryHeader, TurnsText(ValidTurns(history[..i]), config.summaryThreshold), block);
      formatted := formatted + block;
      i := i + 1;
    }
    assert history[..i] == history;
  }

  /** The loop body of `format_conversation_history` for one well-formed entry: the block it appends. */
  method RenderTurn(number: nat, user: string, aiContent: string, threshold: int) returns (block: string)
    ensures block == TurnText(Turn(number, user, aiContent), threshold)
  {
    block := "轮次 " + IntToString(number) + ":\n";
    block := block + "用户: " + user + "\n";
    var aiLines: string;
    if |aiContent| > threshold {
      var summary := Head(aiContent, 500) + OmissionMarker(|aiContent| - 1000) + Tail(aiContent, 500);
      aiLines := "AI: " + summary + "\n";
      aiLines := aiLines + LengthNote(|aiContent|);
      assert summary == Abridge(aiContent);
    } else {
      aiLines := "AI: " + aiContent + "\n";
      ShortReplyVerbatim(aiContent, threshold);
    }
    TurnBlock(Turn(number, user, aiContent), threshold, block, aiLines);
    block := block + aiLines + "\n";
  }

  /** The block the loop builds from the header and the AI lines is the turn's text. */
  lemma TurnBlock(t: Turn, threshold: int, header: string, lines: string)
    requires header == "轮次 " + IntToString(t.number) + ":\n" + "用户: " + t.user + "\n"
    requires lines == AiLines(t.ai, threshold)
    ensures header + lines + "\n" == TurnText(t, threshold)
  {
  }

  /**
   * `build_input_context`: a non-list history counts as the empty list;
   * `hasHistory` is whether the list is non-empty, even when every entry is
   * malformed. The context is the requirement and the rendered history
   * together, either one alone, and empty exactly when both are.
   */
  function BuildInputContext(userText: string, history: History, config: Settings.Config): (ctx: Context)
    ensures ctx.hasHistory <==> history.List? && history.entries != []
    ensures ctx.text == "" <==> userText == "" && !ctx.hasHistory
    ensures !ctx.hasHistory ==> ctx.text == userText
    ensures ctx.hasHistory && userText == "" ==> ctx.text == FormatHistory(history.entries, config.summaryThreshold)
    ensures ctx.hasHistory && userText != "" ==>
      ctx.text == RequirementLabel + userText + "\n\n" + FormatHistory(history.entries, config.summaryThreshold)
  {
    var entries := if history.List? then history.entries else [];
    var hasHistory := |entries| > 0;
    var conversationContext := FormatHistory(entries, config.summaryThreshold);
    if hasHistory && userText != "" then
      Context(RequirementLabel + userText + "\n\n" + conversationContext, true)
    else if hasHistory then
      Context(conversationContext, true)
    else
      Context(userText, false)
  }

  /** A value that is not a list builds the same context as the empty list. */
  lemma NonListIsEmptyList(userText: string, config: Settings.Config)
    ensures BuildInputContext(userText, NotAList, config) == BuildInputContext(userText, List([]), config)
  {
  }

  /**
   * A non-empty history of malformed entries only sets `hasHistory` and,
   * without a requirement, yields the bare header as context.
   */
  lemma MalformedHistoryIsHeaderOnly(h: seq<Entry>, config: Settings.Config)
    requires h != []
    requires forall i :: 0 <= i < |h| ==> !WellFormed(h[i])
    ensures BuildInputContext("", List(h), config) == Context(HistoryHeader, true)
  {
  }

  /**
   * Appending an entry appends exactly its block: nothing for a malformed
   * entry, the block numbered by its position for a well-formed one.
   */
  lemma FormatHistoryAppend(h: seq<Entry>, e: Entry, threshold: int)
    requires h != []
    ensures FormatHistory(h + [e], threshold) ==
      FormatHistory(h, threshold)
      + (if WellFormed(e) then TurnText(Turn(|h| + 1, e.user.value, e.ai.value), threshold) else "")
  {
    var h' := h + [e];
    assert h'[..|h|] == h;
    assert h'[..|h| + 1] == h';
    assert h'[|h|] == e;
    ValidTurnsStep(h', |h|, threshold);
    var prior := TurnsText(ValidTurns(h), threshold);
    var block := if WellFormed(e) then TurnText(Turn(|h| + 1, e.user.value, e.ai.value), threshold) else "";
    assert TurnsText(ValidTurns(h'), threshold) == prior + block;
    AppendAssoc(HistoryHeader, prior, block);
  }

  /**
   * With the configured threshold of 2000, every reply that gets abridged
   * reports a positive omitted count (over 1000) and its two kept windows
   * do not overlap; the rendered AI lines keep both windows verbatim.
   */
  lemma DefaultThresholdAbridgement(config: Settings.Config, ai: string)
    requires config == Settings.Load(config.deepseekApiKey, config.kimiApiKey, config.dashscopeApiKey)
    requires |ai| > config.summaryThreshold
    ensures |ai| - 1000 > 1000
    ensures KeptPerEnd < |ai| - KeptPerEnd
    ensures AiLines(ai, config.summaryThreshold) ==
      "AI: " + ai[..KeptPerEnd] + OmissionMarker(|ai| - 1000) + ai[|ai| - KeptPerEnd..]
      + "\n(原始回复共" + IntToString(|ai|) + "字符，已进行摘要处理)\n"
  {
  }

  /** A reply no longer than the threshold is rendered verbatim. */
  lemma ShortReplyVerbatim(ai: string, threshold: int)
    requires |ai| <= threshold
    ensures AiLines(ai, threshold) == "AI: " + ai + "\n"
  {
  }

  // ---------------------------------------------------------------------
  // Stage bindings
  // ---------------------------------------------------------------------

  datatype Stage = Step1 | Step2 | Step3

  /** The three chat-completion endpoints. */
  datatype Backend = DeepSeek | Kimi | Qwen

  /** Prompt templates are opaque data, looked up by (stage, history mode); summarisation has its own pair. */
  datatype Template = StagePrompts(stage: Stage, hasHistory: bool) | SummaryPrompts

  /** The template variables the stages bind. */
  datatype Var = Input | DeepseekOutput | KimiOutput | Content

  /** The name each variable has in the templates. */
  function VarName(v: Var): string {
    match v
    case Input => "input"
    case DeepseekOutput => "deepseek_output"
    case KimiOutput => "kimi_output"
    case Content => "content"
  }

  /** One model invocation: endpoint, template and the variables substituted into it. */
  datatype Call = Call(backend: Backend, template: Template, bindings: map<Var, string>)

  /** The behaviour of the endpoints: what attempt k of a given call does. */
  type Chains = Call -> (nat -> Retry.Attempt)

  /** Step 1 (DeepSeek) reads the context alone. */
  function Step1Call(ctx: Context): Call {
    Call(DeepSeek, StagePrompts(Step1, ctx.hasHistory), map[Input := ctx.text])
  }

  /** Step 2 (Kimi) reads the context and step 1's output. */
  function Step2Call(ctx: Context, deepseekOutput: string): Call {
    Call(Kimi, StagePrompts(Step2, ctx.hasHistory), map[Input := ctx.text, DeepseekOutput := deepseekOutput])
  }

  /** Step 3 (Qwen) reads the context and both earlier outputs. */
  function Step3Call(ctx: Context, deepseekOutput: string, kimiOutput: string): Call {
    Call(Qwen, StagePrompts(Step3, ctx.hasHistory),
         map[Input := ctx.text, DeepseekOutput := deepseekOutput, KimiOutput := kimiOutput])
  }

  /** Summarisation uses the Qwen endpoint with the content alone. */
  function SummaryCall(content: string): Call {
    Call(Qwen, SummaryPrompts, map[Content := content])
  }

  /**
   * The completion a call settles on through the retry loop with the
   * configured budget (the stage bindings pass no `max_retries`): the text of
   * the first attempt that returns, or `None` when every attempt raised.
   */
  function Invoke(chains: Chains, call: Call, config: Settings.Config): (r: Option<string>)
    ensures r.Some? ==> exists j :: 0 <= j < config.apiMaxRetries && chains(call)(j) == Retry.Returned(r.value)
                                   && forall i :: 0 <= i < j ==> chains(call)(i).Threw?
    ensures r.None? ==> forall j :: 0 <= j < config.apiMaxRetries ==> chains(call)(j).Threw?
  {
    Retry.SettleIsFirstSuccess(chains(call), config.apiMaxRetries);
    Retry.Settle(chains(call), Retry.AttemptBudget(None, config.apiMaxRetries))
  }

  /**
   * Each stage receives the context plus every earlier output, under the
   * template of its own stage and the request's history mode.
   */
  lemma BindingsAccumulate(ctx: Context, deepseekOutput: string, kimiOutput: string)
    ensures Step1Call(ctx).bindings.Keys == {Input}
    ensures Step2Call(ctx, deepseekOutput).bindings == Step1Call(ctx).bindings[DeepseekOutput := deepseekOutput]
    ensures Step3Call(ctx, deepseekOutput, kimiOutput).bindings
            == Step2Call(ctx, deepseekOutput).bindings[KimiOutput := kimiOutput]
    ensures Step1Call(ctx).template.hasHistory == Step2Call(ctx, deepseekOutput).template.hasHistory
            == Step3Call(ctx, deepseekOutput, kimiOutput).template.hasHistory == ctx.hasHistory
  {
  }
}
