/** Circular navigation over a finished question bank: the QuizManager of
    tasks/task_9/task_9.py. The session's "question_index" entry is a field. */
module QuizNavigation {
  import opened Wrappers
  import opened QuizData

  /** Python's `index % total` for a positive divisor: the true modulo, a
      position in [0, total) that leaves positions already there alone. */
  function Wrap(index: int, total: int): (k: int)
    requires total > 0
    ensures 0 <= k < total
    ensures 0 <= index < total ==> k == index
  {
    index % total
  }

  /** A positive multiple of a positive number is at least that number. */
  lemma MulAtLeast(d: int, n: int)
    requires d >= 1 && n > 0
    ensures d * n >= n
  {
  }

  /** Wrap gives the one position in [0, total) that differs from `index` by
      a multiple of `total`, whatever the sign of `index`. */
  lemma WrapUnique(index: int, total: int, q: int, r: int)
    requires total > 0 && 0 <= r < total && index == q * total + r
    ensures Wrap(index, total) == r
  {
    var q', r' := index / total, index % total;
    assert index == q' * total + r';
    if q > q' {
      MulAtLeast(q - q', total);
      assert false;
    } else if q < q' {
      MulAtLeast(q' - q, total);
      assert false;
    }
  }

  /** Shifting by a multiple of the divisor does not change the remainder. */
  lemma WrapShift(index: int, q: int, total: int)
    requires total > 0
    ensures Wrap(index + q * total, total) == Wrap(index, total)
  {
    var p := index / total;
    assert index + q * total == (p + q) * total + index % total;
    WrapUnique(index + q * total, total, p + q, index % total);
  }

  /** Wrapping an intermediate position first changes nothing. */
  lemma WrapAdd(a: int, b: int, total: int)
    requires total > 0
    ensures Wrap(Wrap(a, total) + b, total) == Wrap(a + b, total)
  {
    var q := a / total;
    assert a + b == (Wrap(a, total) + b) + q * total;
    WrapShift(Wrap(a, total) + b, q, total);
  }

  /** Moving by `direction` and then by `-direction` returns to the start. */
  lemma StepBackUndoesStep(index: int, direction: int, total: int)
    requires total > 0 && 0 <= index < total
    ensures Wrap(Wrap(index + direction, total) - direction, total) == index
  {
    WrapAdd(index + direction, -direction, total);
  }

  /** The index after `steps` presses of "next" (direction 1), from `start`. */
  function Walk(start: int, total: int, steps: nat): (r: int)
    requires total > 0
    ensures steps > 0 || 0 <= start < total ==> 0 <= r < total
  {
    if steps == 0 then start else Wrap(Walk(start, total, steps - 1) + 1, total)
  }

  /** `steps` moves of +1 land where one move of +steps does. */
  lemma {:induction false} WalkIsOffset(start: int, total: int, steps: nat)
    requires total > 0 && steps > 0
    ensures Walk(start, total, steps) == Wrap(start + steps, total)
  {
    if steps > 1 {
      WalkIsOffset(start, total, steps - 1);
      WrapAdd(start + steps - 1, 1, total);
    }
  }

  /** Pressing "next" once per question comes back to the first question shown. */
  lemma FullCycleReturns(start: int, total: int)
    requires total > 0 && 0 <= start < total
    ensures Walk(start, total, total) == start
  {
    WalkIsOffset(start, total, total);
    WrapShift(start, 1, total);
  }

  /** A manager over a fixed list of questions, with the session's current
      index (None while the session has no "question_index" entry). */
  class QuizManager {
    const questions: seq<QuizRecord>
    const totalQuestions: int
    var questionIndex: Option<int>

    ghost predicate Valid() {
      totalQuestions == |questions|
    }

    constructor (questions: seq<QuizRecord>)
      ensures Valid() && this.questions == questions
      ensures totalQuestions == |questions| && questionIndex == None
    {
      this.questions := questions;
      this.totalQuestions := |questions|;
      questionIndex := None;
    }

    /** get_question_at_index: nothing for an empty list; otherwise the
        question at the one position congruent to `index`, so every integer,
        negative ones included, names a question. */
    function QuestionAt(index: int): (r: Option<QuizRecord>)
      requires Valid()
      ensures r.None? <==> totalQuestions == 0
      ensures r.Some? ==> r.value in questions
      ensures 0 <= index < totalQuestions ==> r == Some(questions[index])
    {
      if totalQuestions == 0 then None
      else Some(questions[Wrap(index, totalQuestions)])
    }

    /** Every index names the question at the one position in range that
        differs from it by a multiple of the list length. */
    lemma QuestionAtCongruent(index: int, q: int, k: int)
      requires Valid() && 0 <= k < totalQuestions && index == q * totalQuestions + k
      ensures QuestionAt(index) == Some(questions[k])
    {
      WrapUnique(index, totalQuestions, q, k);
    }

    /** Indices one full round apart name the same question. */
    lemma QuestionAtPeriodic(index: int)
      requires Valid() && totalQuestions > 0
      ensures QuestionAt(index + totalQuestions) == QuestionAt(index)
      ensures QuestionAt(-1) == Some(questions[totalQuestions - 1])
    {
      WrapShift(index, 1, totalQuestions);
      WrapShift(totalQuestions - 1, -1, totalQuestions);
    }

    /** Looking up the stored index after a move gives the question at the
        unreduced position `index + direction`. */
    lemma LookupAfterStep(index: int, direction: int)
      requires Valid() && totalQuestions > 0
      ensures QuestionAt(Wrap(index + direction, totalQuestions)) == QuestionAt(index + direction)
    {
    }

    /** next_question_index: an absent index counts as 0; the stored index
        becomes `(old + direction) mod total`, always a valid position.
        The source divides by zero on an empty list. */
    method NextQuestionIndex(direction: int := 1)
      requires Valid() && totalQuestions > 0
      modifies this`questionIndex
      ensures questionIndex.Some? && 0 <= questionIndex.value < totalQuestions
      ensures questionIndex.value == Wrap(old(questionIndex).GetOr(0) + direction, totalQuestions)
    {
      if questionIndex.None? {
        questionIndex := Some(0);
      }
      var newIndex := (questionIndex.value + direction) % totalQuestions;
      questionIndex := Some(newIndex);
    }
  }
}
