/** Question-bank construction: the QuizGenerator of tasks/task_9/task_9.py.
    The retrieval, prompt and model calls and the JSON decoder are replaced by
    an oracle: one SlotOutcome per loop iteration. */
module QuizGeneration {
  import opened Wrappers
  import opened QuizData

  /** Topic used when none (or the empty string) is given. */
  const DefaultTopic: string := "General Knowledge"

  /** Largest accepted question count. */
  const MaxQuestions: int := 10

  /** The two ValueErrors the generator raises. */
  datatype GenError =
    | TooManyQuestions      // "Number of questions cannot exceed 10."
    | VectorstoreMissing    // "Vectorstore is not initialized on the class"

  /** The topic stored by the constructor: Python's `if not topic` replaces
      None and "" by the default. */
  function EffectiveTopic(topic: Option<string>): (t: string)
    ensures t != []
    ensures topic.Some? && topic.value != [] ==> t == topic.value
    ensures topic.None? || topic.value == [] ==> t == DefaultTopic
  {
    if topic.None? || topic.value == [] then DefaultTopic else topic.value
  }

  /** Number of iterations of `range(n)`: none for a negative count. */
  function Slots(n: int): (k: nat)
    ensures n >= 0 ==> k == n
    ensures n <= 0 ==> k == 0
  {
    if n < 0 then 0 else n
  }

  /** Some entry of the bank carries question text `t`. */
  predicate InBank(bank: seq<QuizRecord>, t: string) {
    exists i | 0 <= i < |bank| :: bank[i].question == Text(t)
  }

  /** validate_question. `Some(false)` for a JSON null document or a missing
      "question" key; `None` (Python's implicit None) when the text is JSON
      null; otherwise `Some(b)`, where `b` says the text is new to the bank. */
  function Validate(bank: seq<QuizRecord>, doc: Option<QuizRecord>): (r: Option<bool>)
    ensures r == Some(true) <==>
              doc.Some? && doc.value.question.Text? && !InBank(bank, doc.value.question.text)
    ensures r.None? <==> doc.Some? && doc.value.question.Null?
  {
    if doc.None? || doc.value.question.Absent? then Some(false)
    else if doc.value.question.Null? then None
    else Some(!InBank(bank, doc.value.question.text))
  }

  /** Python truthiness of a validate_question result: only True accepts. */
  predicate Accepts(bank: seq<QuizRecord>, doc: Option<QuizRecord>) {
    Validate(bank, doc) == Some(true)
  }

  /** One slot of generate_quiz: a decode failure is skipped, a decoded
      document is appended exactly when validation accepts it. */
  function Step(bank: seq<QuizRecord>, o: SlotOutcome): (r: seq<QuizRecord>)
    ensures bank <= r && |r| <= |bank| + 1
    ensures |r| == |bank| + 1 <==> o.Decoded? && Accepts(bank, o.doc)
  {
    match o
    case DecodeFailed => bank
    case Decoded(doc) => if Accepts(bank, doc) then bank + [doc.value] else bank
  }

  /** The bank generate_quiz builds from an emptied bank over the given slots:
      at most one entry per slot. */
  function Bank(outcomes: seq<SlotOutcome>): (r: seq<QuizRecord>)
    ensures |r| <= |outcomes|
  {
    if outcomes == [] then []
    else Step(Bank(outcomes[..|outcomes| - 1]), outcomes[|outcomes| - 1])
  }

  /** No two entries share the same "question" entry. */
  predicate DistinctQuestions(bank: seq<QuizRecord>) {
    forall i, j | 0 <= i < j < |bank| :: bank[i].question != bank[j].question
  }

  /** Every entry has question text (neither missing nor null). */
  predicate AllHaveText(bank: seq<QuizRecord>) {
    forall i | 0 <= i < |bank| :: bank[i].question.Text?
  }

  /** What a bank built for `n` requested questions always satisfies. */
  predicate BankInvariant(bank: seq<QuizRecord>, n: int) {
    |bank| <= Slots(n) && DistinctQuestions(bank) && AllHaveText(bank)
  }

  /** One slot keeps the entries distinct and textual. */
  lemma StepPreservesDistinct(bank: seq<QuizRecord>, o: SlotOutcome)
    requires DistinctQuestions(bank) && AllHaveText(bank)
    ensures DistinctQuestions(Step(bank, o)) && AllHaveText(Step(bank, o))
  {
  }

  /** The bank has at most one entry per slot, pairwise-distinct question
      texts and no entry without text. */
  lemma {:induction false} BankWellFormed(outcomes: seq<SlotOutcome>)
    ensures BankInvariant(Bank(outcomes), |outcomes|)
  {
    if outcomes != [] {
      var init := outcomes[..|outcomes| - 1];
      BankWellFormed(init);
      StepPreservesDistinct(Bank(init), outcomes[|outcomes| - 1]);
    }
  }

  /** Slots whose responses all fail to decode leave the bank empty. */
  lemma {:induction false} AllDecodeFailuresGiveEmptyBank(outcomes: seq<SlotOutcome>)
    requires forall i | 0 <= i < |outcomes| :: outcomes[i].DecodeFailed?
    ensures Bank(outcomes) == []
  {
    if outcomes != [] {
      AllDecodeFailuresGiveEmptyBank(outcomes[..|outcomes| - 1]);
    }
  }

  /** Well-formed responses with pairwise-distinct texts are all accepted, in
      slot order. */
  lemma {:induction false} DistinctResponsesAllAccepted(outcomes: seq<SlotOutcome>)
    requires forall i | 0 <= i < |outcomes| ::
               outcomes[i].Decoded? && outcomes[i].doc.Some? && outcomes[i].doc.value.question.Text?
    requires forall i, j | 0 <= i < j < |outcomes| ::
               outcomes[i].doc.value.question != outcomes[j].doc.value.question
    ensures |Bank(outcomes)| == |outcomes|
    ensures forall i | 0 <= i < |outcomes| :: Bank(outcomes)[i] == outcomes[i].doc.value
  {
    if outcomes != [] {
      var n := |outcomes| - 1;
      var init := outcomes[..n];
      DistinctResponsesAllAccepted(init);
    }
  }

  /** Every bank entry is the document of some slot that decoded. */
  lemma {:induction false} BankEntriesComeFromSlots(outcomes: seq<SlotOutcome>)
    ensures forall e | e in Bank(outcomes) :: Decoded(Some(e)) in outcomes
  {
    if outcomes != [] {
      var n := |outcomes| - 1;
      var init := outcomes[..n];
      BankEntriesComeFromSlots(init);
      forall e | e in Bank(outcomes) ensures Decoded(Some(e)) in outcomes {
        if e in Bank(init) {
          var k :| 0 <= k < |init| && init[k] == Decoded(Some(e));
          assert outcomes[k] == Decoded(Some(e));
        } else {
          assert outcomes[n] == Decoded(Some(e));
        }
      }
    }
  }

  /** A response whose text is already in the bank leaves the bank unchanged. */
  lemma DuplicateRejected(outcomes: seq<SlotOutcome>, d: QuizRecord)
    requires d.question.Text? && InBank(Bank(outcomes), d.question.text)
    ensures Bank(outcomes + [Decoded(Some(d))]) == Bank(outcomes)
  {
  }

  /** A generator: the configuration fixed at construction and the running
      question bank that generate_quiz rebuilds. */
  class QuizGenerator {
    const topic: string
    const numQuestions: int
    /** Whether a vector store was supplied; the store itself is not modelled. */
    const hasVectorstore: bool
    var questionBank: seq<QuizRecord>

    ghost predicate Valid()
      reads this
    {
      numQuestions <= MaxQuestions && BankInvariant(questionBank, numQuestions)
    }

    /** The part of __init__ that runs once the count check has passed. */
    constructor (topic: Option<string> := None, numQuestions: int := 1, hasVectorstore: bool := false)
      requires numQuestions <= MaxQuestions
      ensures Valid()
      ensures this.topic == EffectiveTopic(topic)
      ensures this.numQuestions == numQuestions && this.hasVectorstore == hasVectorstore
      ensures questionBank == []
    {
      this.topic := EffectiveTopic(topic);
      this.numQuestions := numQuestions;
      this.hasVectorstore := hasVectorstore;
      questionBank := [];
    }

    /** __init__ with its ValueError: fails exactly when more than ten
        questions are asked for; zero or negative counts are accepted. */
    static method New(topic: Option<string> := None, numQuestions: int := 1,
                      hasVectorstore: bool := false)
      returns (r: Result<QuizGenerator, GenError>)
      ensures r.Failure? <==> numQuestions > MaxQuestions
      ensures r.Failure? ==> r.error == TooManyQuestions
      ensures r.Success? ==> fresh(r.value) && r.value.Valid()
      ensures r.Success? ==> r.value.topic == EffectiveTopic(topic) && r.value.questionBank == []
      ensures r.Success? ==>
                r.value.numQuestions == numQuestions && r.value.hasVectorstore == hasVectorstore
    {
      if numQuestions > MaxQuestions {
        return Failure(TooManyQuestions);
      }
      var g := new QuizGenerator(topic, numQuestions, hasVectorstore);
      return Success(g);
    }

    /** validate_question: scans the bank and stops at the first entry with
        the same question text. Reads the bank, changes nothing. */
    method ValidateQuestion(doc: Option<QuizRecord>) returns (r: Option<bool>)
      ensures r == Validate(questionBank, doc)
    {
      if doc.None? || doc.value.question.Absent? {
        return Some(false);
      }
      var newText := doc.value.question;
      if newText.Null? {
        return None;
      }
      var i := 0;
      while i < |questionBank|
        invariant 0 <= i <= |questionBank|
        invariant forall k | 0 <= k < i :: questionBank[k].question != newText
      {
        if questionBank[i].question == newText {
          return Some(false);
        }
        i := i + 1;
      }
      return Some(true);
    }

    /** generate_quiz: empties the bank, then runs exactly one slot per
        requested question, taking slot `i`'s outcome from `outcomes[i]`.
        The first slot raises when no vector store was supplied, after the
        reset, so the bank is then left empty. */
    method GenerateQuiz(outcomes: seq<SlotOutcome>) returns (r: Result<seq<QuizRecord>, GenError>)
      requires Valid()
      requires Slots(numQuestions) <= |outcomes|
      modifies this`questionBank
      ensures Valid()
      ensures r.Failure? <==> !hasVectorstore && numQuestions > 0
      ensures r.Failure? ==> r.error == VectorstoreMissing && questionBank == []
      ensures r.Success? ==> r.value == questionBank
      ensures r.Success? ==> questionBank == Bank(outcomes[..Slots(numQuestions)])
    {
      questionBank := [];
      var i := 0;
      while i < numQuestions
        invariant 0 <= i <= Slots(numQuestions)
        invariant !hasVectorstore ==> i == 0
        invariant questionBank == Bank(outcomes[..i])
      {
        if !hasVectorstore {
          return Failure(VectorstoreMissing);
        }
        match outcomes[i] {
          case DecodeFailed =>
          case Decoded(doc) =>
            var valid := ValidateQuestion(doc);
            if valid == Some(true) {
              questionBank := questionBank + [doc.value];
            }
        }
        assert outcomes[..i + 1][..i] == outcomes[..i];
        i := i + 1;
      }
      BankWellFormed(outcomes[..Slots(numQuestions)]);
      return Success(questionBank);
    }
  }
}
