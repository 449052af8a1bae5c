# Quiz generation and navigation, modelled in Dafny

This project models the locally written logic of a quiz builder (`tasks/task_9/task_9.py`).
A `QuizGenerator` builds a bank of multiple-choice questions. It runs one generation slot per
requested question and keeps a decoded question only when its `"question"` text is not
already in the bank. A `QuizManager` walks the finished bank circularly. It does this with
true-modulo indexing and a stored "current question" index. The script at the end of the
file renders each choice as `"<key>) <value>"` and judges an answer by a prefix test. That
check is modelled as well.

Modules:

- `Wrappers` (`wrappers.dfy`): `Option` (Python's `None`) and `Result` (a raised `ValueError`).
- `QuizData` (`quiz_data.dfy`): the decoded question record. Its `"question"` entry is
  missing, JSON `null`, or a string. The file also holds the per-slot outcome the generator
  consumes: a response that failed to decode, or one that decoded to an object or to `null`.
- `QuizGeneration` (`quiz_generation.dfy`): class `QuizGenerator`. It has the configuration
  as constants and `questionBank` as the field that `GenerateQuiz` rebuilds. `Bank` is the
  specification of the loop: a left fold of `Step` over the slot outcomes. The lemmas state
  what every bank satisfies: at most one entry per slot, pairwise-distinct question texts,
  and no entry without text.
- `QuizNavigation` (`quiz_navigation.dfy`): class `QuizManager`. The question list is
  constant. The session's `"question_index"` entry is an `Option<int>` field. `Wrap` is
  Python's `%` with a positive divisor.
- `AnswerCheck` (`answer_check.dfy`): choice labels and the `startswith` answer test.

The retrieval, prompt and model calls, and `json.loads`, are treated as an oracle.
`GenerateQuiz` receives one `SlotOutcome` per loop iteration. Whether a vector store was
supplied is a boolean. The first slot fails with `VectorstoreMissing` when there is none.

Behaviour of the source that the model keeps, including its rough edges:

- The count is checked only against the upper bound 10. Zero and negative counts are
  accepted and give an empty loop.
- A missing vector store raises on the first slot and so aborts the whole `generate_quiz`
  call. The bank has already been reset to empty at that point.
- On an empty list, moving the index divides by zero. The model states this as a
  precondition (`totalQuestions > 0`).
- `next_question_index` itself sets the index to 0 when it is absent. The manager's
  constructor does not initialise it.
- The constructor's defaults are kept: no topic, one question and no vector store.

## Model

| member | source | states |
|---|---|---|
| `QuizGeneration.EffectiveTopic` | tasks/task_9/task_9.py:25-28 | the stored topic is never empty: "General Knowledge" when the argument is None or "", otherwise the argument unchanged |
| `QuizGeneration.QuizGenerator.New` | tasks/task_9/task_9.py:16-36 | construction fails with TooManyQuestions exactly when the count exceeds 10; otherwise a fresh generator with the defaulted topic, the given count and an empty bank |
| `QuizGeneration.QuizGenerator.constructor` | tasks/task_9/task_9.py:25-36 | for an accepted count, fields are set from the arguments, the bank is empty and the bank invariant holds |
| `QuizGeneration.Validate` | tasks/task_9/task_9.py:176-187 | accepts (True) iff the document has question text that no bank entry carries; None exactly when the text is JSON null; False for a null document or missing key |
| `QuizGeneration.QuizGenerator.ValidateQuestion` | tasks/task_9/task_9.py:176-187 | the early-return scan over the bank returns exactly `Validate(questionBank, doc)` and changes nothing |
| `QuizGeneration.Slots` | tasks/task_9/task_9.py:142-142 | `range(n)` runs n iterations for a non-negative n and none for a negative one |
| `QuizGeneration.Bank` | tasks/task_9/task_9.py:141-154 | the bank the loop builds from an emptied bank, slot by slot; never longer than the number of slots |
| `QuizGeneration.Step` | tasks/task_9/task_9.py:144-152 | one slot keeps the bank as a prefix and adds at most one entry, exactly when the slot decoded and validation accepted |
| `QuizGeneration.StepPreservesDistinct` | tasks/task_9/task_9.py:146-148 | appending only validated documents keeps texts pairwise distinct and present |
| `QuizGeneration.BankWellFormed` | tasks/task_9/task_9.py:141-154 | the bank built over n slots has length at most n, pairwise-distinct question texts, and text in every entry |
| `QuizGeneration.AllDecodeFailuresGiveEmptyBank` | tasks/task_9/task_9.py:144-152 | when every slot fails to decode, the bank is empty (skipped, no retry, no error) |
| `QuizGeneration.DistinctResponsesAllAccepted` | tasks/task_9/task_9.py:141-154 | with well-formed responses of pairwise-distinct text, every slot is accepted: the bank is exactly those documents in slot order |
| `QuizGeneration.BankEntriesComeFromSlots` | tasks/task_9/task_9.py:145-148 | every bank entry is the decoded document of some slot |
| `QuizGeneration.DuplicateRejected` | tasks/task_9/task_9.py:182-185 | a response whose text is already in the bank leaves the bank unchanged |
| `QuizGeneration.QuizGenerator.GenerateQuiz` | tasks/task_9/task_9.py:141-154 | resets the bank and runs exactly max(n, 0) slots; fails with VectorstoreMissing iff no store and n > 0, leaving the bank empty; otherwise returns the bank `Bank(outcomes[..n])` and keeps the bank invariant |
| `QuizNavigation.Wrap` | tasks/task_9/task_9.py:227-227 | Python's `%` by a positive total lands in [0, total) and leaves in-range indices unchanged |
| `QuizNavigation.WrapUnique` | tasks/task_9/task_9.py:227-227 | the wrapped index is the one position in [0, total) that differs from the index by a multiple of total, for negative indices too |
| `QuizNavigation.WrapShift` | tasks/task_9/task_9.py:227-227 | indices differing by a multiple of total wrap to the same position |
| `QuizNavigation.WrapAdd` | tasks/task_9/task_9.py:251-251 | wrapping the stored index before adding the direction gives the same result as wrapping once |
| `QuizNavigation.StepBackUndoesStep` | tasks/task_9/task_9.py:251-251 | a move by `direction` followed by a move by `-direction` returns to the starting index |
| `QuizNavigation.Walk` | tasks/task_9/task_9.py:251-252 | the index after repeated moves of +1; after at least one move, or from an in-range start, it is always in [0, total) |
| `QuizNavigation.WalkIsOffset` | tasks/task_9/task_9.py:251-252 | k successive moves of +1 give the same index as one move of +k |
| `QuizNavigation.FullCycleReturns` | tasks/task_9/task_9.py:251-252 | moving forward once per question returns to the starting question |
| `QuizNavigation.QuizManager.constructor` | tasks/task_9/task_9.py:208-209 | stores the list and its length; no session index yet |
| `QuizNavigation.QuizManager.QuestionAt` | tasks/task_9/task_9.py:221-228 | None exactly for an empty list; otherwise a question of the list, and the question at `index` itself when the index is in range |
| `QuizNavigation.QuizManager.QuestionAtCongruent` | tasks/task_9/task_9.py:226-228 | any index q*total + k with k in range yields question k, so -1 yields the last one |
| `QuizNavigation.QuizManager.QuestionAtPeriodic` | tasks/task_9/task_9.py:226-228 | indices one full round apart give the same question, and index -1 gives the last question |
| `QuizNavigation.QuizManager.LookupAfterStep` | tasks/task_9/task_9.py:249-252 | the question at the stored, reduced index equals the question at the unreduced `old + direction` |
| `QuizNavigation.QuizManager.NextQuestionIndex` | tasks/task_9/task_9.py:249-252 | an absent index counts as 0; the stored index becomes `(old + direction) mod total`, always in [0, total); requires a non-empty list |
| `AnswerCheck.ChoiceLabel` | tasks/task_9/task_9.py:294-294 | the label shown for a choice starts with the key followed by ')' and ends with the choice's value, after a two-character separator |
| `AnswerCheck.IsCorrect` | tasks/task_9/task_9.py:301-301 | a selection judged correct holds the answer followed immediately by ')' |
| `AnswerCheck.LabelCorrectIffKeyIsAnswer` | tasks/task_9/task_9.py:294-301 | with keys and answer free of ')', the label `"key) value"` passes the `startswith(answer + ")")` test exactly when key equals answer |
| `AnswerCheck.ExactlyOneChoiceCorrect` | tasks/task_9/task_9.py:294-301 | among choices with distinct ')'-free keys, one of which is the answer, exactly that choice's label is judged correct |

## Left out

- Model setup (`init_llm` and the lazy `VertexAI` construction): calls into a hosted-model client.
- `generate_question_with_vectorstore`: the retriever, prompt template and chain are
  third-party calls. Only the missing-vector-store `ValueError` is kept. The response and
  its decoding are the `SlotOutcome` oracle.
- `json.loads`: library parser. Only its outcome is modelled: an object, JSON null, or a
  decode failure. Other JSON values are not modelled. A number, `true` or `false` raises
  `TypeError` at the `in` test of `validate_question`. A string or list that contains
  `"question"` raises `TypeError` when it is indexed by `"question"`. Neither is caught by
  the `JSONDecodeError` handler, so either would abort the whole `generate_quiz`. A
  non-string `"question"` value is not modelled either; the text is a string.
- `QuizGeneration.EffectiveTopic`: Python's `not topic` also treats other falsy
  non-string values as absent. The model takes only a string or None.
- Exceptions from the retrieval or model calls other than the missing vector store
  propagate in the source. They are not modelled.
- The prompt template text (a constant string) and the `print` logging.
- The Streamlit page: forms, buttons, radio widget and messages. `st.session_state` is a
  global dictionary in the source. Here the index is a field of `QuizManager`.
- `QuizGeneration.QuizGenerator.GenerateQuiz`: returns the bank's value. In the source,
  the returned list is the same object as `question_bank`, so the two are aliased.
- `QuizNavigation.QuizManager.constructor`: the list is held as an immutable sequence. In
  the source it is a reference the caller could still mutate.
- `QuizNavigation.QuizManager.NextQuestionIndex`: an empty list is excluded by a
  precondition. The source stores 0 and then raises `ZeroDivisionError`.
