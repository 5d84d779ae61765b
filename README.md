# Patient analysis service: reply extractor, habit backfill and contract

This project models the logic of a behavioural-analysis service in Dafny. It proves properties about that model. The model has two independent parts.

**The API service (api/api.py).**
- `format_ai_response` cuts the language model's free-text reply into a general analysis and a list of recommended habits. It does this with plain Python string operations:
  - split on `"Habits:"`;
  - remove every `"GENERAL:"`;
  - cut the text after the first marker into blocks on `"\n\n"`;
  - cut each block into lines;
  - read the name, description, implementation steps and scientific basis off fixed line positions.
- Module `PyStr` defines the Python `str` operations involved with Python's semantics: `split`, `split(sep, 1)`, `join`, `replace`, `startswith`, `in`, `split(sep)[-1]` and `strip`, the last with the `str.isspace` character set.
- Module `Extractor` holds three things:
  - the extraction as a specification function, `FormatReply`;
  - the source's two nested loops as methods proved equal to it, `FormatAiResponse`, `BlockHabit` and `BlockSteps`;
  - the lemmas about it.
- Module `TemplateReply` applies the extractor to the response layout of the prompt template (api/prompt_templates.py).
- Module `Backfill` models the read path of `get_analyses`. Every stored record whose habit list is absent or empty gets a fixed list of two habits. The loop over the records is a method over an array, proved against the function `BackfillAll`.

**The contract (secret-contract/src/contract.rs and msg.rs).** This is a CosmWasm contract whose stored state is three lists that are only ever appended to: analyses, daily progress, and `(patient_id, key)` pairs.
- `instantiate` and `execute` are methods on a `Deps` object whose field is the value stored under `"state"`. That field is absent until `instantiate` runs.
- `query` is a pure function, as in the source. `GetAnalyses` is gated by a viewing-key check; `GetDailyProgress` is not.
- The contract's two unit tests are methods whose contracts state what the tests check.

Three behaviours of the code are easy to misread, and the model keeps them as the code has them:
- The extractor never supplies default habits. A reply with no parseable habit gives an empty list.
- A leading `"1. "` stays in the habit name.
- Only lines starting `"1. "` become steps. A `"2. "` line is dropped.

The contract's storage may be empty. Reading it then fails with a parse error (`ParseErr`), because `unwrap_or_default` yields empty bytes that do not decode. Every entry point of the model handles that case.

The records and messages are datatypes:
- `Extractor.Habit` and `Extractor.FormattedAnalysis` are the response shapes at api/api.py:95-103.
- `Backfill.StoredContent` and `Backfill.StoredRecord` are a stored record, with its content already parsed.
- `ContractState.Task`, `State`, `Analysis` and `DailyProgress` are the records at secret-contract/src/contract.rs:10-34. `ContractState.ViewingKey` is one `(patient_id, key)` pair, and `U64` is Rust's `u64`.
- `ContractMsg.InstantiateMsg`, `ExecuteMsg` and `QueryMsg` are the messages at secret-contract/src/msg.rs:4-21. `ContractMsg.QueryAnswer` holds the list each query declares it returns.

## Model

| member | source | states |
|---|---|---|
| Extractor.FormatReply | api/api.py:136-181 | the extraction as a function: the text before the first "Habits:" with "GENERAL:" removed and stripped, and the habits of the blocks of the text after it; it is characterised by the lemmas below |
| Extractor.SectionHabit | api/api.py:146-174 | a block's habit, or none for a blank block or one of fewer than 4 lines; `SectionHabitIff` and `SectionHabitShape` state which blocks give one and what it looks like |
| Extractor.HabitName | api/api.py:155 | the name field; `HabitNameSpec` states its properties |
| Extractor.LabelledField | api/api.py:156-166 | the description and basis fields; `LabelledFieldSpec` states all three cases |
| Extractor.StepOf | api/api.py:159-164 | what one line adds to the steps; `StepOfLine` states it |
| Extractor.FormatAiResponse | api/api.py:131-188 | the loop-based extraction returns exactly `FormatReply(content)`; every index it takes is in range, so the exception handler is never needed |
| Extractor.BlockHabit | api/api.py:145-174 | the body of the loop over blocks yields the block's habit, which is at most one, and none for a blank block |
| Extractor.BlockSteps | api/api.py:158-164 | the loop over lines from index 2 on yields `Steps(lines[2..])` |
| Extractor.StepOfLine | api/api.py:159-164 | one line gives exactly one step when its stripped form starts with "1. ", namely that text without the "1. "; any other line, the "**Implementation:**" line included, gives none |
| Extractor.StepsMembers | api/api.py:158-164 | a string is a step iff some line's stripped form starts with "1. " and the step is that text minus "1. "; there are no more steps than lines |
| Extractor.SectionHabitsMembers | api/api.py:145-174 | a habit is in the list iff some block yields it; there are no more habits than blocks |
| Extractor.SectionHabitIff | api/api.py:146-152 | a block yields a habit iff its stripped text contains at least three line breaks |
| Extractor.SectionHabitShape | api/api.py:155-164 | a habit's name never holds "**", and its step count is at most the block's line count minus 2 |
| Extractor.HabitNameSpec | api/api.py:155 | the name never contains "**", and a leading "1. " of the stripped line is kept |
| Extractor.LabelledFieldSpec | api/api.py:156 | a field is the fallback text when the key is absent; the whole stripped line when only the key without a space occurs; otherwise the stripped text after the last `key + " "`, which itself holds no `key + " "` |
| Extractor.NoMarkerNoHabits | api/api.py:137-143 | with no "Habits:", the habits are empty and the general analysis is the whole reply with every "GENERAL:" removed, then stripped |
| Extractor.HabitsNeedMarker | api/api.py:142-143 | a non-empty habit list implies the reply contains "Habits:" |
| Extractor.GeneralBeforeMarker | api/api.py:137-140 | the general analysis is the text before the first "Habits:", with "GENERAL:" removed and stripped, whatever follows |
| Extractor.OnlyFirstHabitsSection | api/api.py:137-144 | only the text between the first and second "Habits:" is parsed; neither what precedes nor what follows it changes the habits |
| Extractor.HabitsFromBlocks | api/api.py:143-174 | with one "Habits:", the habits are those of the blocks after it, in order, and at most one per block |
| Extractor.BetweenMarkers | api/api.py:137-144 | with two markers, the habits are those of the blocks of the text between them |
| Extractor.AfterLoneMarker | api/api.py:137-144 | a reply that starts with its only "Habits:" yields the habits of the blocks after it |
| Extractor.SectionHabitsExtend | api/api.py:145-174 | one more block appends exactly that block's habits to the list |
| Extractor.StepsExtend | api/api.py:159-164 | one more line appends exactly that line's step to the steps |
| TemplateReply.TemplateExtraction | api/prompt_templates.py:28-37 | the template's response layout gives the placeholder general analysis and exactly one habit: name "1. [Habit name]", description "[brief description]", no steps, basis "[reference or evidence]" |
| TemplateReply.LayoutExtraction | api/prompt_templates.py:28-37 | any reply in that layout gives its general text and exactly one habit, with its name prefixed by "1. " and no steps. The conditions: no part holds "Habits:"; the general analysis holds no "GENERAL:"; name, description and basis hold no "**"; the field texts and closing line hold no line break; the general analysis, description, basis and closing line are non-empty and stripped; the steps text is non-empty and does not end in whitespace |
| PyStr.JoinSplit | api/api.py:137 | round trip: joining the pieces of `s.split(sep)` with `sep` gives back `s` |
| PyStr.SplitJoin | api/api.py:144 | round trip: splitting a join of pieces gives the pieces back when no occurrence of the separator starts inside any piece but the last, and the last does not contain it |
| PyStr.SplitCountIff | api/api.py:143 | the split has more than one piece iff the separator occurs |
| PyStr.SplitCharCount | api/api.py:147-150 | splitting on one character gives one more piece than that character's occurrences |
| PyStr.ReplaceIsJoinSplit | api/api.py:140 | `s.replace(t, r)` equals `r.join(s.split(t))` |
| PyStr.LastPieceSpec | api/api.py:156 | `split(sep)[-1]` holds no `sep`; it is `s` itself when `sep` is absent, and otherwise `s` ends with `sep` followed by it |
| PyStr.Strip | api/api.py:140 | the result is a slice of `s` with only whitespace cut from either side; it neither starts nor ends with whitespace; it is empty iff `s` is all whitespace |
| PyStr.StripIdempotent | api/api.py:144-147 | stripping twice is stripping once |
| PyStr.StripFrame | api/api.py:140 | whitespace around a core that neither starts nor ends with whitespace is removed, and nothing else |
| Backfill.BackfillContent | api/api.py:266-290 | a content lacking habits gets exactly the two default habits; any other content is unchanged; the general analysis is kept; afterwards every content has habits |
| Backfill.BackfillAll | api/api.py:264-292 | same length and order; the patient and general analysis of every record are kept; records with habits are unchanged; the others get the two defaults; no result record lacks habits |
| Backfill.Backfill | api/api.py:265-290 | the in-place loop over the record array leaves exactly `BackfillAll` of the old records |
| Backfill.DefaultHabitsShape | api/api.py:268-289 | the defaults are two habits, "Gradual Exposure" and "Self-Compassion Practice", with three steps each |
| Backfill.BackfillIdempotent | api/api.py:264-292 | backfilling twice is backfilling once |
| Backfill.BackfillKeepsComplete | api/api.py:264-292 | a list whose every record has habits is left as it is |
| ContractState.ExtendsTransitive | secret-contract/src/contract.rs:16-20 | "every list is a prefix of the later one" is transitive |
| Contract.Deps.constructor | secret-contract/src/contract.rs:117 | fresh mock storage holds no state |
| Contract.Load | secret-contract/src/contract.rs:61 | loading yields the stored state, or `ParseErr` exactly when nothing is stored |
| Contract.Instantiate | secret-contract/src/contract.rs:37-50 | stores the state with three empty lists and answers the default response, which has no messages or attributes |
| Contract.Apply | secret-contract/src/contract.rs:60-78 | each command appends exactly one record to the end of exactly one list: the analysis, the pair `(patient_id, "test_key")` or the progress record; the other two lists are unchanged; the total length grows by one |
| Contract.Reply | secret-contract/src/contract.rs:64-77 | no response carries a message; a response has an attribute iff the command is `CreateViewingKey`, and that attribute is `viewing_key = "test_key"` |
| Contract.ExecuteOn | secret-contract/src/contract.rs:53-80 | with no stored state, a command fails with `ParseErr` and changes nothing; otherwise it stores the appended state and succeeds with the reply |
| Contract.Execute | secret-contract/src/contract.rs:53-80 | the imperative entry point leaves the storage and result that `ExecuteOn` gives for the old storage |
| Contract.AnyKey | secret-contract/src/contract.rs:87 | true iff some stored pair matches both the patient and the key |
| Contract.Filter | secret-contract/src/contract.rs:91-104 | the result is a subsequence of the input, so order is kept and it is no longer; an element is in it iff it is in the input and passes |
| Contract.FilterCounts | secret-contract/src/contract.rs:91-104 | an element that passes occurs in the result as often as in the input; an element that fails does not occur |
| Contract.AnalysesOf | secret-contract/src/contract.rs:91-95 | a patient's analyses are a subsequence of the stored ones, holding each analysis of that patient as often as it is stored and no other |
| Contract.ProgressOf | secret-contract/src/contract.rs:100-104 | a patient's progress records are a subsequence of the stored ones, holding each record of that patient as often as it is stored and no other |
| Contract.Run | secret-contract/src/contract.rs:53-80 | a sequence of commands leaves no state exactly when it started from none: without `instantiate` every command fails |
| Contract.Query | secret-contract/src/contract.rs:83-108 | with no state, `ParseErr`; `GetAnalyses` fails with "Invalid viewing key" iff no pair matches the patient and key, and otherwise succeeds with that patient's analyses; `GetDailyProgress` checks no key and answers that patient's progress records |
| Contract.AnswerTypes | secret-contract/src/msg.rs:16-21 | a query that succeeds answers the list type it declares: analyses for `GetAnalyses`, progress records for `GetDailyProgress` |
| Contract.FilterAppend | secret-contract/src/contract.rs:91-95 | filtering a list with one element appended gives the old answer, followed by the element if it passes |
| Contract.FilterPrefix | secret-contract/src/contract.rs:91-104 | filtering a prefix of a list gives a prefix of the filtered list |
| Contract.RunExtends | secret-contract/src/contract.rs:60-78 | after any sequence of commands, every old list is a prefix of the new one, and the lists grow by one record per command in total |
| Contract.KeyKept | secret-contract/src/contract.rs:87 | a key check that passes keeps passing once more pairs are appended |
| Contract.KeyNeverFailsAfterCreate | secret-contract/src/contract.rs:66-97 | after `CreateViewingKey(p)`, whatever commands follow, `GetAnalyses(p, "test_key")` succeeds |
| Contract.FreshStateRejectsKeys | secret-contract/src/contract.rs:85-90 | right after `instantiate`, every `GetAnalyses` fails with "Invalid viewing key" |
| Contract.SavedAnalysisAnsweredLast | secret-contract/src/contract.rs:85-95 | for a patient who holds the key, the analysis just saved is the last one answered, after the earlier ones in order |
| Contract.ProgressIgnoresKeys | secret-contract/src/contract.rs:98-106 | the answer to `GetDailyProgress` depends on the progress list alone |
| Contract.ProgressAnswersGrow | secret-contract/src/contract.rs:98-104 | later commands only extend a patient's progress answer: the old answer is a prefix of the new one |
| Contract.ProperInitialization | secret-contract/src/contract.rs:115-124 | instantiating fresh storage succeeds with a response that has no messages |
| Contract.TestSaveAnalysis | secret-contract/src/contract.rs:126-157 | after `instantiate`, `CreateViewingKey("123")` and one `SaveAnalysis("123", ...)`, querying with "test_key" answers exactly one analysis |

## Left out

- HTTP handling: the FastAPI application, routes, CORS and the mapping of errors to `HTTPException`. This is plumbing around the modelled functions.
- The language-model call, the wallet, and the bridge calls `execute_tx` and `contract_query`. These are network clients. The records that `get_analyses` receives are the backfill's input.
- `json.loads` and `json.dumps` in the backfill, and `to_binary` and `from_binary` in the contract. Each is taken as the identity: stored content is a parsed datatype and the stored state is a `State` value.
- The stored content has only the two keys the extractor writes. Other keys of the JSON object are not modelled.
- Backfill.LacksHabits: Python's `not content.get("recommended_habits")` is also true of other falsy values, such as `""`, `0` or `{}`. In the model the value is a list, so only an absent key or an empty list count.
- The case where `get_analyses` receives an empty result: the handler then falls off its `try` without a return. The backfill of an empty array changes nothing, and the HTTP reply is outside the model.
- Logging calls, including the warning for a skipped block. They have no effect on results.
- The `except` branch of `format_ai_response`, which returns the raw content and no habits. No statement in the `try` can raise, because every index is in range, so the branch is unreachable. `FormatAiResponse` is proved total without it.
- Contract.Query: the text of the parse error on absent state is not modelled, only that it is a parse error. The answer is the decoded list rather than its binary encoding.
- The `env` and `info` arguments of the entry points. No entry point reads them.
- The mock `/daily-progress` and `/create-viewing-key` endpoints and the prompt-template formatting. They return constants or fill a string. The template's response layout is used only as the input of `TemplateReply.TemplateExtraction`.
- `Strip` uses Python's `str.isspace` character set. Unicode normalisation and case do not arise in the operations modelled.
