# Escola Tecnologia para Todos chatbot: a Dafny model

The chatbot is for a school that runs free online courses. It answers a
question in one of two ways:

- The **intent matcher** (`gerar_resposta`) recognises the question by trigger
  phrases and answers from two tables: the courses table and the students
  table.
- Otherwise the **model gateway** (`call_bedrock_model`) sends the question to
  a hosted language model and assembles the streamed answer.

A **turn handler** records each question and its answer in the session's chat
history.

The project models these three pieces of logic from `app.py`:

- `wrappers.dfy` (module `Wrappers`): `Option` and `Result`.
- `text.dfy` (module `Text`): the Python string operations the program relies
  on. These are the substring test `t in s`, `str.lower`, `str.strip`,
  `str.join`, a one-character `split` used to state what a joined answer
  consists of, and the decimal rendering of an integer inside an f-string.
- `tables.dfy` (module `Tables`): the course and student rows and the
  dataframe queries run on them. These are the first row matching a mask, the
  rows whose `current_job` is filled, and `dropna().unique()` on `region`.
- `intent_matcher.dfy` (module `IntentMatcher`): the ordered rule chain and
  the answer of each rule.
- `gateway.dfy` (module `Gateway`): four parts:
  - the role filter;
  - the request;
  - the stream fold, an imperative loop over the streamed events `CollectOutput`;
  - the collapse of any exception into `"Erro ao chamar o modelo: " + message`.
- `conversation.dfy` (module `Conversation`): the submit block. It is a
  `Session` class whose `history` field is appended to in place. The file
  also has the history after any sequence of submissions.

The tables are parameters, not globals. The network call is a parameter too:
`endpoint`, a function from the request to either the list of stream events
or the message of the exception the call raised. An exception raised while
the stream is being read, after some events have
arrived, is also a failure of `endpoint`: `call_bedrock_model` discards the
partial `output` in that case, so the reply is the same.

The trigger phrases and the course filters are the Portuguese literals the code tests.

## Model

| member | source | states |
|---|---|---|
| Text.ContainsIff | app.py:33 | `Contains`, Python's `t in s`, holds exactly when `t` equals some contiguous slice of `s` |
| Text.ContainsTransitive | app.py:56 | a string that contains `u` contains everything `u` contains |
| Text.LowerChar | app.py:31 | lowering never leaves a capital letter, keeps every non-capital, and moves each capital 32 code points on |
| Text.LowerIdempotent | app.py:31 | `Lower` (`str.lower`, applied character by character with `LowerChar`): lowering an already lowered question changes nothing |
| Text.TrimStart | app.py:153 | the result is a suffix of the input that does not start with whitespace, and everything dropped was whitespace |
| Text.TrimEnd | app.py:153 | the result is a prefix of the input that does not end with whitespace, and everything dropped was whitespace |
| Text.StripEmptyIff | app.py:153 | `Strip` (`str.strip()`, `TrimEnd` after `TrimStart`): `input.strip()` is empty (falsy) exactly when the input is all whitespace |
| Text.SplitJoin | app.py:35 | `Join` (`sep.join`): joining lines that have no line break with `"\n"` and splitting at line breaks gives the lines back |
| Text.NatToStringRoundTrip | app.py:40 | `NatToString` (an int in an f-string): the digits an f-string renders for a week count read back as that count |
| Tables.FirstIndex | app.py:38-39 | `df[mask].iloc[0]` picks a row the mask accepts with no accepted row before it; the filtered table is empty exactly when the mask accepts no row |
| Tables.FirstIndexIs | app.py:38-39 | the first row the mask accepts is the one `iloc[0]` picks |
| Tables.Employed | app.py:57 | the rows kept by `current_job.notnull()` are exactly those with a job |
| Tables.EmployedAppend | app.py:57 | the selection keeps table order |
| Tables.Regions | app.py:65 | `region.dropna()` holds exactly the filled region cells |
| Tables.RegionsAppend | app.py:65 | `region.dropna()` keeps table order: the regions of two consecutive parts of the table are those of each part in turn |
| Tables.RegionsOfOneRow | app.py:65 | a row contributes its region when the cell is filled and nothing otherwise |
| Tables.Unique | app.py:65 | `unique()` holds exactly the values of its input, each once |
| Tables.UniqueFirstOccurrenceOrder | app.py:65 | `unique()` lists values in the order of their first occurrence |
| Tables.FirstOccurrenceInPrefix | app.py:65 | a value found in a prefix first occurs at the same position in the whole sequence |
| IntentMatcher.ClassifyFirstMatch | app.py:33-81 | `Classify` (the `if` chain): the chain picks a rule whose trigger occurs, with no earlier rule's trigger occurring; it picks none exactly when no trigger occurs |
| IntentMatcher.ClassifyNoneIff | app.py:33-81 | the chain falls through exactly when none of the trigger phrases occurs |
| IntentMatcher.AnswerNoneIff | app.py:30-81 | `Answer` (`gerar_resposta`) returns None exactly when the lowercased input contains none of the trigger phrases; once one occurs there is an answer, "not found" answers included |
| IntentMatcher.AnswerIsFirstFiring | app.py:30-81 | `Answer` is `Reply` (the answer of each rule) of the first rule in chain order whose trigger occurs in the lowercased input |
| IntentMatcher.CourseListWins | app.py:33-35 | a question containing "quais cursos" or "cursos oferecidos" gets the course list whatever later triggers also occur |
| IntentMatcher.CourseListLines | app.py:34-35 | `CourseListReply`: the course list is the header, a line break, then the lines `"- " + name` in table order; they split back into those lines |
| IntentMatcher.DevOpsUsesFirstRow | app.py:37-40 | `DevOpsReply`: the DevOps answer reports the duration of the first course whose lowered name contains "devops" |
| IntentMatcher.DevOpsNotFoundIff | app.py:38-41 | the DevOps answer is the "not found" sentence exactly when no course name contains "devops" |
| IntentMatcher.BeginnerDatabaseUsesFirstRow | app.py:43-47 | `BeginnerDatabaseReply`: the beginner database answer names the first course whose name contains "banco" and whose level contains "básico" or "iniciante", and reports its duration |
| IntentMatcher.BeginnerDatabaseNotFoundIff | app.py:44-48 | the beginner database answer is the fixed negative sentence exactly when no course passes the filter |
| IntentMatcher.AgileUsesFirstRow | app.py:50-53 | `AgileReply`: the agile answer reports the duration of the first course whose name contains "metodologias" |
| IntentMatcher.AgileNotFoundIff | app.py:51-54 | the agile answer is the "not found" sentence exactly when no course name contains "metodologias" |
| IntentMatcher.EmploymentLinesOneLine | app.py:59 | no line `"- {name} trabalha como {job}"` has a line break when the name and the job have none |
| IntentMatcher.EmploymentAnswerLines | app.py:56-60 | `EmploymentReply`: given an employed student, the employment answer is the header, a line break, and one line per employed student in table order; the lines split back into those lines |
| IntentMatcher.NoEmploymentAnswer | app.py:57-61 | with no filled `current_job` the answer is the fixed "no public records" sentence |
| IntentMatcher.RegionsAnswerListsDistinctRegions | app.py:64-66 | `RegionsReply`: the regions answer joins with `", "`, inside the fixed sentence, exactly the filled regions, each once, in order of first occurrence in the `dropna()` output, which `Tables.RegionsAppend` shows is in table order |
| IntentMatcher.EmploymentSecondTriggerSubsumed | app.py:56 | every input containing "conseguiram emprego" already contains "emprego" |
| Gateway.FilterMessages | app.py:87-90 | every kept turn has role "user" or "assistant", and no turn is added |
| Gateway.FilterMessagesAppend | app.py:87-90 | the filter keeps the original order |
| Gateway.FilterMessagesMembers | app.py:87-90 | a turn is kept exactly when some user or assistant message has that role and content |
| Gateway.RequestContents | app.py:92-107 | `BuildRequest`: the request names "anthropic.claude-v2", asks for at most 210 tokens with version "bedrock-2023-05-31", is JSON both ways, and carries exactly the user and assistant turns of the messages |
| Gateway.FilterMessagesKeepsChat | app.py:87-90 | a conversation of user and assistant messages keeps every message, reduced to role and content |
| Gateway.CollectOutput | app.py:108-117 | the loop leaves in `output` exactly what the stream-fold definition gives, or stops with the first raised exception |
| Gateway.EventPieceCases | app.py:111-117 | `EventPiece` (one pass of the loop): something is appended exactly for a text delta inside a content block delta, its `text` or `""` when missing; the pass raises exactly on an undecodable chunk or on a content block delta whose `delta` is not an object |
| Gateway.CollectedFailureSticks | app.py:110-117 | once the loop has raised, later events do not matter |
| Gateway.CallModel | app.py:86-120 | `call_bedrock_model` returns `ModelReply`, the joined output for the filtered request, or the error prefix followed by the message of the exception the call, the loop or the join raised |
| Gateway.DeltaTextOfClean | app.py:114-117 | for a clean event the loop appends exactly the `text` of a text delta (`""` when missing) and nothing otherwise |
| Gateway.StreamTextAppend | app.py:110-118 | the stream text of two consecutive parts is their texts in arrival order |
| Gateway.JoinPiecesAppend | app.py:118 | `JoinPieces` (`"".join(output)`): joining after appending a string extends the joined text by that string |
| Gateway.JoinPiecesFailsOnNotStr | app.py:118 | `"".join` raises when any item of `output` is not a string |
| Gateway.CleanStreamReply | app.py:108-118 | `Collected` (the state of `output` after the loop) and `StreamReply`: for a stream of clean events the reply is the in-order concatenation of the texts of its text deltas; other events are ignored |
| Gateway.FirstFailureReply | app.py:110-120 | the first event whose handling raises decides the reply: the error prefix followed by that exception's message |
| Gateway.CollectedOfRaisingFree | app.py:110-117 | without a raising event the loop runs to the end |
| Gateway.UncleanEventLeavesNotStr | app.py:116-117 | when the loop completes over a stream with an unclean event, a non-string sits in `output` |
| Gateway.StreamReplyTextOrError | app.py:101-120 | `StreamReply`: for a returned stream of clean events the reply is the stream text; for every other outcome it starts with "Erro ao chamar o modelo: " |
| Gateway.IgnoredEventAddsNothing | app.py:114-117 | a clean event that contributes no text does not change the stream text |
| Conversation.AcceptedIff | app.py:153 | `Accepted`: a submission is handled exactly when the button was pressed and the input has a non-whitespace character |
| Conversation.ModelSeesOnlyTheQuestion | app.py:159 | the model is asked exactly the question, as a single user turn |
| Conversation.RespondFallsBackToModel | app.py:155-159 | `Respond`: the model is consulted exactly when no trigger phrase occurs in the lowercased question; otherwise the answer is the matcher's |
| Conversation.AfterSubmit | app.py:153-161 | a handled submission adds exactly two turns and an unhandled one none; the earlier history is kept, and alternation of user and assistant turns is preserved |
| Conversation.ExchangeKeepsAlternation | app.py:154-161 | appending a question and then its answer keeps the history alternating |
| Conversation.SubmitAppendsQuestionAndAnswer | app.py:154-161 | the two added turns are `{user, input}` then `{assistant, answer}` |
| Conversation.Session.constructor | app.py:147-148 | a new session's history is empty |
| Conversation.Session.Submit | app.py:153-161 | the submit block changes the history exactly as the one-step definition says, keeping it alternating |
| Conversation.ReplayFromEmpty | app.py:147-161 | `Replay` (the history after a sequence of submissions): after N handled submissions from an empty history there are 2N turns, alternating user and assistant and starting with the user |

## Left out

- The Streamlit interface is left out: page setup, title, markdown, expanders, dataframe display, text input, spinner and the loop that renders the history. Only the button's boolean and the typed text enter the model, as parameters of `Submit`.
- The boto3 session and client, and the network call itself, are left out. The call is the `endpoint` parameter.
- Reading `alunos.csv` and `cursos.csv`, and `st.stop()` when that fails, are left out. The tables are parameters.
- JSON encoding of the payload and JSON decoding of chunk bytes are left out. A chunk arrives already decoded, or as a decode failure carrying its message.
- The float sampling parameters `temperature` and `top_p` are left out of the payload, because Dafny has no floating point.
- An event whose chunk is empty or falsy is modelled as an event without a chunk. That matches the `if chunk:` test.
- Text.Lower: lowers only `A`..`Z` and the Latin-1 capitals U+00C0..U+00DE. The rest of Unicode's case mapping is not modelled. This covers the Portuguese letters the trigger phrases and answers use.
- Text.IsSpace covers Python's whitespace characters. Text.Strip models `str.strip()` without arguments only.
- pandas `str.contains(..., case=False)` is modelled as a substring test on the lowered cell. The regular expression `básico|iniciante` becomes two substring tests joined by "or". NaN cells in `course_name` and `level` are not modelled: these columns are taken to be non-null strings.
- The exact messages of Python exceptions are carried as data. Only the prefix "Erro ao chamar o modelo: " is fixed.
- A message without `role` or `content` makes the filter raise `KeyError` before the `try`. This is not modelled. The only caller passes a well-formed message.
- IntentMatcher.CourseListLines: the split-back property assumes at least one course and no line break in any course name. Otherwise the lines cannot be recovered from the text.
- IntentMatcher.EmploymentAnswerLines: the split-back property assumes that no name or job contains a line break, for the same reason.
- The matcher, the filter and the fold being deterministic and free of side effects holds by construction in Dafny, so no lemma states it.
