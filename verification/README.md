# Prompt optimizer core, modelled in Dafny

The system is a web service that refines a user's prompt. Three chat models
work in sequence: DeepSeek drafts, Kimi improves the draft, and Qwen finalises it. Each stage reads a
single context string built from the user's requirement and an optional
conversation history, in which long AI replies are abridged. The three stage
calls and the summarisation call go through a bounded retry loop with linear
backoff; the session-title calls (app.py:433 and app.py:581) invoke the
DeepSeek chain once, without it. Around this core sit the
request validation of `/api/optimize` and `/api/summarize`, the naming of
sessions and the numbering of conversation turns, registration and login, the
API-key checks of the configuration, and the SQL splitter of the database
initialisation script.

The modules follow the source files:

- `Settings` (config/settings.py): the configuration record, its numeric
  defaults, and the two API-key checks.
- `Retry` (src/models/ai_models.py): `invoke_with_retry` as a method with a
  trace of invocations and sleeps. It is summarised by `Settle`, the
  completion a call settles on.
- `Optimizer` (src/core/optimizer.py): history rendering, context assembly,
  and the variables each stage binds.
- `App` (app.py): the decisions of the request handlers and the model calls
  they make, in order.
- `Auth` (src/utils/auth.py): `register` and `login` over an abstract users
  table.
- `InitDb` (init_db.py): the line-by-line statement splitter, both as a
  state machine (`Step`, `Run`) and as the loop of the script
  (`SplitSqlScript`).
- `Text` and `Wrappers`: the Python string primitives the code relies on
  (`strip`, `split`, `join`, `rstrip(chars)`, `startswith`, slicing,
  `str(int)`), and `Option`.

Models are parameters. A `Chains` value gives the outcome (a completion or an
exception) of attempt k of each call. The password hash is a function from
password to digest. Session-title generation is a function returning
`Option`, `None` standing for an exception.

## Model

| member | source | states |
|---|---|---|
| Settings.Load | config/settings.py:18-54 | the configuration holds the three keys as read from the environment, and the fixed defaults: a 120-second timeout, 3 attempts, a 2-second retry delay, a display length of 500 and a summary threshold of 2000 characters |
| Settings.ValidateApiKeys | config/settings.py:56-62 | the keys validate exactly when no key name is missing, a key being missing when it is unset or empty |
| Settings.GetMissingKeys | config/settings.py:64-73 | the list holds exactly the missing key names, in the order DEEPSEEK, KIMI, DASHSCOPE, without repetition, at most three |
| Settings.ValidIffNoneMissing | config/settings.py:56-73 | the two checks agree: validation succeeds exactly when the missing list is empty |
| Retry.FirstSuccess | src/models/ai_models.py:75-85 | the loop stops at the first attempt that returns; every earlier attempt raised |
| Retry.AttemptBudget | src/models/ai_models.py:73 | `max_retries or api_max_retries`: a given non-zero count is used as is; `None` and 0 fall back to the configured count |
| Retry.Backoff | src/models/ai_models.py:87-93 | after the i-th failed attempt (0-based) that is not the last, the loop sleeps delay*(i+1) seconds and re-invokes with the unchanged input |
| Retry.Settle | src/models/ai_models.py:71-96 | the call yields a completion exactly when some attempt below the budget returns; it yields nothing when the budget is not positive |
| Retry.SettleIsFirstSuccess | src/models/ai_models.py:75-85 | the completion is the text of the first attempt that returned, every earlier one having raised; nothing means every attempt raised |
| Retry.InvokeWithRetry | src/models/ai_models.py:71-96 | budget is `max_retries or api_max_retries`; the first success returns after j failures and j sleeps; if all n attempts raise, the last error is re-raised with no sleep after it; no attempt runs for a budget <= 0 |
| Retry.BackoffTotals | src/models/ai_models.py:75-93 | a call settling on attempt j invokes the chain j+1 times and sleeps delay*j*(j+1)/2 seconds in all |
| Retry.BackoffSums | src/models/ai_models.py:90-93 | j failed attempts with their sleeps invoke the chain j times and sleep delay*j*(j+1)/2 seconds |
| Retry.BackoffGrows | src/models/ai_models.py:91 | with a positive base delay, each wait is strictly longer than the one before |
| Retry.DefaultScheduleExample | config/settings.py:49-50 | with the defaults of 3 attempts and a 2-second delay, two failures then a success settle on the third result after sleeping 2 and then 4 seconds |
| Optimizer.ValidTurns | src/core/optimizer.py:29-39 | each rendered turn is a dictionary entry with both keys, numbered by its 1-based position in the list; numbers strictly increase |
| Optimizer.ValidTurnsComplete | src/core/optimizer.py:29-39 | every dictionary entry with both keys is rendered under the number of its position |
| Optimizer.Abridge | src/core/optimizer.py:49 | a long reply keeps its first and last 500 characters around the omission marker, which counts length minus 1000 |
| Optimizer.AiLines | src/core/optimizer.py:47-53 | a reply of at most `threshold` characters gives the line `AI: ` and the reply verbatim; a longer one gives an `AI: ` line that keeps its first 500 characters and ends with the note of its original length |
| Optimizer.TurnText | src/core/optimizer.py:39-54 | the block of one turn is its numbered header with the user message, then its AI lines, then a blank line |
| Optimizer.RenderTurn | src/core/optimizer.py:39-54 | the loop body's step-by-step appends for one well-formed entry build exactly the turn's block |
| Optimizer.FormatHistory | src/core/optimizer.py:21-27 | the rendering is empty exactly for the empty list, and otherwise starts with the fixed two-line header |
| Optimizer.FormatConversationHistory | src/core/optimizer.py:21-56 | the loop over the entries builds the header and one block per well-formed entry, as `FormatHistory` defines |
| Optimizer.FormatHistoryAppend | src/core/optimizer.py:29-54 | appending an entry appends exactly its block: nothing for a malformed entry, the block numbered by its position for a well-formed one |
| Optimizer.DefaultThresholdAbridgement | src/core/optimizer.py:47-51 | with the configured threshold of 2000, an abridged reply reports an omitted count over 1000, its kept windows do not overlap, and the AI lines hold both windows verbatim plus the original length |
| Optimizer.ShortReplyVerbatim | src/core/optimizer.py:52-53 | a reply no longer than the threshold is rendered verbatim |
| Optimizer.BuildInputContext | src/core/optimizer.py:58-79 | `has_history` is true exactly for a non-empty list; the context is the labelled requirement plus the history, either one alone, and empty exactly when both are |
| Optimizer.NonListIsEmptyList | src/core/optimizer.py:61-63 | a history that is not a list builds the same context as the empty list |
| Optimizer.MalformedHistoryIsHeaderOnly | src/core/optimizer.py:23-37 | a non-empty history of malformed entries sets `has_history`, and with no requirement the context is the bare header |
| Optimizer.Invoke | src/core/optimizer.py:92-96 | a stage call yields the completion of the first attempt within the configured budget that returned, and fails only if every attempt raised |
| Optimizer.BindingsAccumulate | src/core/optimizer.py:81-143 | step 1 binds only the context; step 2 adds the DeepSeek output; step 3 adds the Kimi output; all three use the request's history mode |
| App.StatusOf | app.py:119-255 | a handler failure is answered with 503 exactly when the service is not initialised, 500 exactly for an internal error, and 400 for every request error |
| App.CheckOptimize | app.py:134-158 | a request is accepted exactly when the requirement is a string and the history has a length, one of the two is non-empty, the stripped requirement is at most 10000 characters, and the history holds at most 50 entries; each refusal carries its own error: a non-string requirement or a history without a length gives a 500, blank requirement with an empty history "nothing to optimise", an over-long requirement "too long" (checked first), and otherwise more than 50 entries "history too long" |
| App.RunStages | app.py:166-193 | the stages run in order 1, 2, 3, each with the context and every earlier output; a failure stops the run, so later stages are never called; completion means all three calls returned |
| App.RunAccepted | app.py:160-198 | an accepted request calls stage 1 first, always with the built context; the reply carries outputs only if all three stages succeed, each output being what its stage call returned, and a 500 otherwise |
| App.Optimize | app.py:119-206 | a model is called exactly when the service is initialised, the body is an object and the checks accept it; otherwise the reply is 503 when uninitialised, 400 "empty request" for a missing body, 500 for a body that is not an object, and the check's own error for a refused request, each without a call |
| App.EmptyRequestIsRefused | app.py:141-145 | a blank requirement with an empty history list gets a 400 before any stage |
| App.RequirementLengthBoundary | app.py:148-152 | a requirement of 10000 characters is accepted; one of 10001 is refused |
| App.HistoryLengthBoundary | app.py:154-158 | a history of 50 entries is accepted; one of 51 is refused |
| App.RequirementCheckedFirst | app.py:147-158 | when both limits are exceeded, the requirement error is reported |
| App.Stage2FailureIsAttributed | app.py:176-183 | when stage 2 fails, stage 1 ran and fed stage 2, and stage 3 is never called |
| App.EmptyContextReachesStages | app.py:141-172 | a blank requirement with a non-empty string as history passes every check, and step 1 is invoked on an empty context |
| App.OptimizeGuarded | app.py:141-145 | the corrected handler never invokes a stage on an empty context, and behaves as written whenever the history is a list |
| App.Summarize | app.py:209-255 | 503 when uninitialised, 400 "empty request" for a missing body and 500 for a non-object body or a non-string content, all without a call; blank content gets 400 "empty", content under 500 characters gets 400 "too short"; longer content makes exactly one summary call on the stripped content and succeeds exactly when that call returns, reporting the summary and both lengths, a 500 otherwise |
| App.ClipName | app.py:434-437 | a generated name is a prefix of the stripped reply: the whole of it when at most 15 characters, exactly 15 characters otherwise |
| App.SessionTitlePrompt | app.py:428-430 | the title prompt is the fixed instruction followed by the requirement's first 200 characters, the whole requirement when shorter |
| App.NewSessionName | app.py:424-443 | a blank requirement or a failed title call gives the default name; otherwise the name is the clipped reply to the prompt quoting the first 200 characters of the requirement; never over 15 characters |
| App.AddConversation | app.py:528-603 | without login the reply is 401, and with a missing parameter 400, neither storing anything; otherwise the turn is appended under number (existing + 1), and the reply is a success whose new name is the clipped reply to the renaming prompt over the stored turns, or none when that call fails; the new turn is the last in the `ORDER BY turn_number` listing of src/utils/database.py:184 when the stored turns are numbered 1..n, which App.AddKeepsNumbering shows the route keeps |
| App.RecentMessagesQuoteLastThree | app.py:571-573 | the renaming text quotes one line per turn for exactly the last three turns (all of them when fewer), oldest first, each user message cut to 100 characters |
| App.RenamePrompt | app.py:576-578 | the renaming prompt is the fixed instruction followed by the quoted recent turns |
| App.AddKeepsNumbering | app.py:550-559 | turns numbered 1..n stay numbered consecutively after an add |
| Auth.Register | src/utils/auth.py:25-47 | registration succeeds exactly for a 3–50 character name, a password of at least 6 characters and an unused name; it checks in that order; a refusal changes nothing; a success stores the password hash under the next id and keeps the table valid |
| Auth.Login | src/utils/auth.py:49-70 | login succeeds exactly when the user exists and the stored hash equals the hash of the password; unknown users and wrong passwords get the same error and change nothing; a success stamps the login time |
| Auth.TouchLastLogin | src/utils/database.py:107-110 | `update_last_login` keeps the set of users and the next id, sets the last-login time of every row with that id, and changes nothing else |
| Auth.LoginTouchesOnlyThatUser | src/utils/auth.py:61 | a successful login changes only that user's last-login time and keeps the table valid |
| Auth.RegisterThenLogin | src/utils/auth.py:37-58 | logging in right after registering with the same password succeeds with the new id |
| InitDb.Classify | init_db.py:35-46 | on the stripped line: blank and `--` lines are skipped; a `DELIMITER` line switches to its last word; anything else is buffered text |
| InitDb.Statement | init_db.py:50-51 | a statement is the space-joined buffer with its trailing run of terminator characters removed: a prefix of it, every dropped character in the terminator, the last kept character not |
| InitDb.Step | init_db.py:34-67 | one line emits at most one statement, never a blank one, and what it emits is the buffer with this stripped line, joined and cut at the terminator; a line ending with the terminator leaves an empty buffer and the `;` terminator, even when it emits nothing; a skipped line and a `DELIMITER` line keep the buffer and emit nothing |
| InitDb.DelimiterBlock | init_db.py:42-67 | `DELIMITER d` followed by lines not ending with `d` and a line ending with `d` emits one statement, the lines joined by spaces and cut at `d` (none when that is blank), and leaves the initial state: empty buffer, terminator `;` |
| InitDb.DelimiterExample | init_db.py:42-67 | the script `DELIMITER $$`, `x`, `y$$`, `z;` gives `x y` and then `z`: the terminator is `;` again after the block |
| InitDb.StepKeepsClean | init_db.py:38-67 | only trimmed content lines are buffered, and the terminator is always one non-empty word |
| InitDb.Run | init_db.py:30-67 | the whole scan never emits a blank statement and keeps the splitter's invariant |
| InitDb.SplitStatements | init_db.py:34-53 | every statement the script would execute is non-blank |
| InitDb.SplitSqlScript | init_db.py:30-67 | the script's loop with mutable buffer and terminator emits exactly the statements of the state machine |
| InitDb.FeedLine | init_db.py:35-67 | one pass of the loop body updates the buffer, the terminator and the statement list as one step of the state machine does |
| InitDb.RunAppend | init_db.py:34 | splitting a script in two and processing the halves in order gives the same statements, in file order |
| InitDb.ScriptRoundTrip | init_db.py:30-67 | a script written as one plain statement per line, each followed by `;` and joined by newlines, is split back into exactly those statements, in order |
| InitDb.PlainStatementsRun | init_db.py:34-67 | a run over lines of plain statements each ending in `;` emits each statement once, in order, and ends in the initial state |
| InitDb.IgnoredLineInvisible | init_db.py:38-39 | a blank or comment line anywhere in the script changes nothing |
| InitDb.UnterminatedTailDropped | init_db.py:46-49 | content lines after the last terminated statement are never executed |
| InitDb.RStripTakesAllCopies | init_db.py:51 | `rstrip` treats the terminator as a character set, so `SELECT 1;;` yields `SELECT 1` |
| InitDb.LastWord | init_db.py:43 | the new terminator is a non-empty word without whitespace that occurs in the line followed only by whitespace and preceded by whitespace or the start of the line |
| Text.Strip | app.py:134 | `strip()` removes exactly the maximal whitespace runs at both ends; the result is empty exactly for an all-whitespace string |
| Text.SplitOn | init_db.py:34 | `split('\n')` gives at least one piece, none holding a newline, and joining the pieces gives the content back |
| Text.SplitOnJoin | init_db.py:34 | splitting at a separator that occurs in no part gives back the parts that were joined with it |
| Text.Words | init_db.py:43 | `split()` gives non-empty whitespace-free words, none exactly for a blank string, and the whole string for a non-empty one without whitespace |
| Text.WordsSplit | init_db.py:43 | splitting at a whitespace character gives the words of the left part followed by those of the right part, so the words are the maximal non-whitespace runs in order |
| Text.WordsLast | init_db.py:43 | the last word of a non-blank string occurs in it followed only by whitespace and preceded by whitespace or the start of the string |
| Text.RStripChars | init_db.py:51 | the result is a prefix; every dropped character is in the set, and the last kept character is not |
| Text.HasPrefixIsStartsWith | init_db.py:38-42 | the character-by-character prefix test agrees with `startswith` |
| Text.Head | app.py:436-437 | `s[:n]` is a prefix of at most n characters, and the whole string when it is shorter |
| Text.Tail | src/core/optimizer.py:49 | `s[-n:]` is a suffix of at most n characters, and the whole string when it is shorter |
| Text.NatToStringRoundTrip | src/core/optimizer.py:39 | the decimal digits of a turn number denote that number again |

## Left out

- I/O: HTTP, cookies and Flask sessions, file reading, logging, `print`,
  and the database connection and its cursor are not modelled. The
  handlers' decisions and the model calls they make are modelled instead.
- Executing statements, and the per-statement error handling that lets the
  loop continue, are not modelled: the splitter returns the statements.
- `time.sleep` does not block in the model. It is recorded as a `Slept`
  event in the trace of `Retry.InvokeWithRetry`. Timing measurements and
  the request timeout are not modelled.
- The LangChain prompt templates, the template texts, the model names,
  endpoints and `.env` loading are not modelled. A template is identified
  by stage and history mode.
- The model endpoints are the parameter `Chains`. What the models answer is
  outside the system.
- One `Attempt` of a chain stands for a whole client call. Each client is
  built with `max_retries=api_max_retries` and the timeout
  (src/models/ai_models.py:31-57), so one attempt may hide the client's own
  retries. The same holds for the title calls, which make one attempt.
- `str()` coercion of non-string history values (optimizer.py:44-45) and of
  a non-string requirement (optimizer.py:69-70) is not modelled. Entry texts
  are strings in the model. A non-string `user_text` already fails at the
  `.strip()` on app.py:134.
- The hash is a parameter: a deterministic function from password to
  digest. SHA-256 itself and the session token (`secrets.token_hex`) are
  not modelled.
- Auth.Register: an exception from the database insert ("注册失败") is not
  modelled. The usernames in the model are compared exactly, but the MySQL
  collation may compare them case-insensitively.
- `update_last_login` stamps every row with the user's id. Ids are unique
  in a valid table, so only that user changes.
- The other routes are not modelled: session listing, deletion and
  renaming, history retrieval, the user pages, and the static front end.
- Concurrent requests are not modelled. Two simultaneous adds to one
  session could read the same turn count, and the model is sequential.
- The logger is assumed present whenever the optimizer is initialised, as
  `init_app` creates both. So the length computations in the log lines of
  app.py:137-138 always run. This is why a history value without a length
  (a number, a boolean or null) ends in a 500.
- App.Summarize and App.RunAccepted report only the kind of error. The
  exception message placed in the error text is not modelled.

## Findings

| source | as written | input that shows it | evidently intended | confidence | as-written member | corrected member |
|---|---|---|---|---|---|---|
| app.py:141 | The emptiness check tests the history for truthiness, but `build_input_context` (src/core/optimizer.py:61-63) then replaces any non-list history with `[]`. | `{"user_text": "", "conversation_history": "x"}`: the check passes, the context is `""`, and all three models are called on an empty prompt. | A request with nothing to optimise is refused with the 400 "provide a requirement or a history" before any model call. | medium, not executed | App.EmptyContextReachesStages | App.OptimizeGuarded |
