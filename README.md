# Adaptive quiz loop of the Intelligent Tutoring System

A Dafny model of the quiz logic in `its-tutor.py`. The program is a Streamlit app. It asks arithmetic questions, scores each submitted answer against the stored one, adapts the difficulty to the counts, and keeps a single `(correct, incorrect)` row in SQLite.

The model has four files:

- `wrappers.dfy`: `Option`, used for a question's choices and for the current question, which may be absent.
- `questions.dfy` (module `Questions`):
  - the three constant pools (easy, hard, multiple choice);
  - the selection rule `Pool` / `NextQuestion`, with `random.choice` modelled as `Choose(pool, pick)` for a caller-supplied `pick`;
  - Python's `str()` of an answer (`AnswerText`, with `DecimalText` for the integer answers);
  - the exact-string scoring predicate `Scores`;
  - the input-kind rule (radio or text field).
- `progress_store.dfy` (module `ProgressStore`): the progress table as a `map<int, Progress>`. `Init`, `Update` and `Get` model `init_db`, `update_db` and `get_progress`.
- `session.dfy` (module `Session`):
  - class `Tutor`, whose fields `correct`, `incorrect`, `question` and `store` the methods update in place;
  - the pure function `Tally`, which gives the counters after a submission;
  - three client methods that follow a fresh session through its first submission: `CorrectFirstAnswer`, `TypedFailureMessageFirstAnswer` and `SpokenAnswerIsNotScored`.

The invariant `Tutor.Valid()` says that the current question, when there is one, lies in the pool that the current counters select. `EnsureQuestion`, `Submit` and `Pass` preserve it.

Behaviour the model follows from the code:

- **Counters are never loaded.** The session counters always start at 0. The stored row only feeds the sidebar display. The first submit of a session therefore overwrites whatever row 1 held before: `Session.CorrectFirstAnswer` proves that the stored row is `(1, 0)` afterwards, whatever the table held. The program's own comment at line 25 says the database stores progress "so the system remembers performance between sessions". The code does not do that, and the model follows the code.
- **Update without a row.** `update_db` is an `UPDATE ... WHERE id = 1`. If row 1 is missing, nothing changes, and `ProgressStore.Update` models exactly that. Every pass of `main` calls `init_db` first, so in practice the row is always there.
- **Spoken answers are never scored.** Streamlit reruns the script once per user event, and a button reads as pressed only in the run its own click triggers. The speech result goes into a local variable that is displayed and then dropped at the end of the run. The run that Submit triggers therefore scores the widget's value and never the transcript (`Session.SpokenAnswerIsNotScored`). `Tutor.Pass` takes the triggering event as one `Event` value, so "speech and Submit in the same run" cannot be expressed.
- **Exact comparison.** An answer scores only when its text equals the stored answer's text exactly. There is no trimming, no case folding and no numeric reading, so `"08"` does not score for the answer 8.

## Model

| member | source | states |
|---|---|---|
| Questions.BankContents | its-tutor.py:64-77 | The constants `Easy`, `Hard` and `MultipleChoice` are the program's pools. There are two questions in each. The easy and hard questions have integer answers 8, 8, 48 and 6 and no choices. The multiple-choice questions have string answers "14" and "21" and four options each. |
| Questions.Pool | its-tutor.py:62-83 | The pool is never empty. When correct > incorrect, it is exactly the hard pool. Otherwise it is exactly the easy and multiple-choice questions, ties and 0/0 included. Every element is a question the tutor has. |
| Questions.Choose | its-tutor.py:81-83 | `random.choice` returns an element of the pool. |
| Questions.ChooseReachesEvery | its-tutor.py:81-83 | Every element of a pool is returned for some pick, so modelling the random source by a pick rules out no draw. |
| Questions.NextQuestion | its-tutor.py:62-83 | The selected question lies in the pool chosen by the counters. |
| Questions.PoolsDisjoint | its-tutor.py:64-77 | No question is in both the hard pool and the easy or multiple-choice pools. |
| Questions.NextQuestionIsHardIff | its-tutor.py:80-83 | The selected question is hard if and only if correct > incorrect. It is easy or multiple-choice if and only if correct <= incorrect. |
| Questions.NatText | its-tutor.py:166 | The decimal text of a natural number is non-empty and made only of digits. It starts with '0' only for 0, which is "0". |
| Questions.DecimalText | its-tutor.py:166 | `str()` of an int is the canonical digits of the number (`NatText`), with a '-' in front exactly when it is negative. |
| Questions.ParseNatText | its-tutor.py:166 | Reading the decimal text of a natural number back gives that number. |
| Questions.ParseDecimalText | its-tutor.py:166 | Reading `str(n)` back gives n for every int, negatives included. |
| Questions.DecimalTextInjective | its-tutor.py:166 | Two ints have the same text if and only if they are equal. |
| Questions.AnswerText | its-tutor.py:163-166 | `str(correct_answer)` is the string itself for a string answer. For an integer answer it is that integer's canonical decimal text, which reads back as the integer. |
| Questions.Scores | its-tutor.py:166 | A string answer scores exactly when the submission equals it verbatim. An integer answer scores exactly when the submission is its canonical decimal text. For an integer answer, a scoring submission reads back as that integer. |
| Questions.NumericScoring | its-tutor.py:166 | For an integer answer n, the text of m scores if and only if m == n. |
| Questions.ScoringIsVerbatim | its-tutor.py:166 | "8", "48", "6" and "14" score for their questions. "08", " 8", "8 ", "+8", "8.0", "eight" and " 14" do not. |
| Questions.InputFor | its-tutor.py:149-152 | A question gets a radio input if and only if it has choices, and the radio's options are exactly those choices. Otherwise it gets a text field. |
| Questions.RadioExactlyForMultipleChoice | its-tutor.py:149-152 | Among the tutor's questions, the radio input is used exactly for the multiple-choice items. |
| Questions.ExactlyOneChoiceScores | its-tutor.py:74-77 | Every multiple-choice item has choices, and exactly one of its options scores correct. |
| Questions.AnswerIsAChoice | its-tutor.py:75-76 | The answer of every multiple-choice item is one of its options. |
| Questions.SpeechFailureNeverScores | its-tutor.py:107-111 | Neither speech failure message scores for any question. |
| ProgressStore.Init | its-tutor.py:27-39 | `init_db` adds row 1 and keeps every existing row unchanged. A missing row 1 becomes (0, 0). |
| ProgressStore.Update | its-tutor.py:41-48 | `update_db` keeps the key set and every other row. Row 1, when present, becomes the given counters. |
| ProgressStore.Get | its-tutor.py:50-57 | `get_progress` returns row 1 if present and (0, 0) otherwise. |
| ProgressStore.InitIdempotent | its-tutor.py:32-37 | Calling `init_db` twice equals calling it once. |
| ProgressStore.GetAfterInit | its-tutor.py:37-57 | `init_db` never changes what `get_progress` returns. |
| ProgressStore.GetAfterUpdate | its-tutor.py:41-57 | With row 1 present, update then get round-trips the pair. Without row 1 the update is lost and get returns (0, 0). After `init_db` the round trip always holds. |
| ProgressStore.InitAfterUpdate | its-tutor.py:32-46 | The `init_db` of a later pass leaves the updated row unchanged. |
| Session.Tally | its-tutor.py:166-171 | Exactly one counter grows, by 1: correct when the answer scored, incorrect otherwise. Neither counter decreases, and the total grows by exactly 1. |
| Session.DifficultyAfterTally | its-tutor.py:166-177 | After a submission the next question is hard if and only if the updated counters are ahead. From a tie (0/0 included) or a lead of one, that happens exactly when the answer scored. |
| Session.Tutor.Init | its-tutor.py:15-22 | A session starts with both counters 0 and no question, whatever the table holds. |
| Session.Tutor.InitDb | its-tutor.py:121 | The table becomes `Init` of the old table. The session state is unchanged. |
| Session.Tutor.GetProgress | its-tutor.py:127 | Returns row 1 or (0, 0) and changes nothing. |
| Session.Tutor.EnsureQuestion | its-tutor.py:142-143 | A present question is kept. An absent one is drawn by the selection rule from the current counters. The counters and the table are unchanged. |
| Session.Tutor.Submit | its-tutor.py:162-177 | The answer scores if and only if it equals the answer's text. The counters become `Tally` of the old ones. Row 1 is written through and no other row changes. The next question is drawn from the updated counters. |
| Session.Tutor.Pass | its-tutor.py:116-184 | One pass of `main`: init the table, show the row as it was, and draw a question if absent. A speech event only yields the transcript for display. A Submit event scores the widget's value, after which the counters, row 1 and the new question follow. Otherwise only the table initialisation changes state. |
| Session.CorrectFirstAnswer | its-tutor.py:15-22 | From a fresh session and any table, a correct first answer stores (1, 0) and moves to the hard pool. |
| Session.TypedFailureMessageFirstAnswer | its-tutor.py:149-171 | From a fresh session whose first question shows a text field (no choices), a speech failure message typed into the field and submitted is scored wrong. It stores (0, 1) and stays on the easier pools. This is the only way such a message reaches Submit. |
| Session.SpokenAnswerIsNotScored | its-tutor.py:152-171 | A speech run hears a transcript that scores for the question asked. That question is still current when the Submit run begins. The Submit run scores the text field's "" against it, counts the answer wrong and stores (0, 1). |

## Left out

- Streamlit rendering, widgets and `st.rerun`, lines 119-137, 146-158, 180 and 184. This is UI glue. The values of the widgets and buttons are parameters of `Tutor.Pass`.
- Streamlit's event loop itself. Each run of `main` is modelled as triggered by at most one event: a refresh, a speech click or a submit click. Under that rule a speech result is always gone by the run in which Submit is pressed.
- The value of the radio widget. `Tutor.Pass` takes the widget's value as any string. In the program, a radio's value is always one of its options.
- The pandas data frame and the sidebar bar chart, lines 130-133. They are display only.
- SQLite connection, cursor, commit and close, and any storage failure. These are I/O. The table is an in-memory map whose counters are `nat`, since this program only ever writes counts into it.
- `recognize_speech`, lines 90-111. It does audio capture through sounddevice and transcription through Google's service, both foreign calls. Its result is an arbitrary string parameter, and its two failure messages are constants.
- The uniform distribution of `random.choice`. Only membership in the pool, and that every member can be reached, is modelled.
