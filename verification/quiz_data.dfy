/** The quiz question records that the generator decodes from model output and
    that the navigator hands out, and the per-slot outcome of one generation call. */
module QuizData {
  import opened Wrappers

  /** The `"question"` entry of a decoded JSON object: the key may be missing,
      present with JSON `null`, or present with a string. */
  datatype QuestionField = Absent | Null | Text(text: string)

  /** One `{"key": ..., "value": ...}` element of the `"choices"` list. */
  datatype Choice = Choice(key: string, value: string)

  /** A decoded question object. Only `question` takes part in validation;
      the other keys are carried along unchanged. */
  datatype QuizRecord = QuizRecord(
    question: QuestionField,
    choices: seq<Choice>,
    answer: string,
    explanation: string)

  /** What one slot of the generation loop produced: a response that is not
      valid JSON, or one that decoded to an object (`Some`) or to JSON `null`
      (`None`). The retrieval and model calls behind it are not modelled. */
  datatype SlotOutcome = DecodeFailed | Decoded(doc: Option<QuizRecord>)
}
