/** How the quiz page renders choices and judges a submitted choice
    (the script block of tasks/task_9/task_9.py). */
module AnswerCheck {
  import opened QuizData

  /** A choice as shown to the user: `"<key>) <value>"`. */
  function ChoiceLabel(c: Choice): (shown: string)
    ensures |shown| == |c.key| + 2 + |c.value| && c.key + ")" <= shown
    ensures shown[|c.key| + 2..] == c.value
  {
    c.key + ") " + c.value
  }

  /** A selected label is judged correct when it starts with `answer + ")"`:
      it holds the answer, then ')' right after it. */
  predicate IsCorrect(selected: string, answer: string)
    ensures IsCorrect(selected, answer) ==>
              |answer| < |selected| && selected[..|answer|] == answer && selected[|answer|] == ')'
  {
    answer + ")" <= selected
  }

  /** Neither the key nor the answer contains the closing parenthesis. */
  predicate NoParen(s: string) {
    forall i | 0 <= i < |s| :: s[i] != ')'
  }

  /** With keys and answers free of ')', a rendered choice is judged correct
      exactly when its key is the answer. */
  lemma LabelCorrectIffKeyIsAnswer(c: Choice, answer: string)
    requires NoParen(c.key) && NoParen(answer)
    ensures IsCorrect(ChoiceLabel(c), answer) <==> c.key == answer
  {
    var shown := ChoiceLabel(c);
    var prefix := answer + ")";
    if c.key == answer {
      assert shown == prefix + (" " + c.value);
    }
    if prefix <= shown {
      // The first ')' of the label ends the key, the first ')' of the prefix
      // ends the answer, and the prefix and label agree up to there.
      assert shown[|answer|] == ')';
      assert |answer| >= |c.key|;
      assert prefix[|c.key|] == ')';
      assert |answer| <= |c.key|;
      assert answer == shown[..|answer|] == c.key;
    }
  }

  /** Among choices with distinct ')'-free keys, when the answer is one of
      the keys, exactly that choice's label is judged correct. */
  lemma ExactlyOneChoiceCorrect(choices: seq<Choice>, answer: string, k: int)
    requires forall i | 0 <= i < |choices| :: NoParen(choices[i].key)
    requires NoParen(answer)
    requires 0 <= k < |choices| && choices[k].key == answer
    requires forall i, j | 0 <= i < j < |choices| :: choices[i].key != choices[j].key
    ensures forall i | 0 <= i < |choices| :: IsCorrect(ChoiceLabel(choices[i]), answer) <==> i == k
  {
    forall i | 0 <= i < |choices|
      ensures IsCorrect(ChoiceLabel(choices[i]), answer) <==> i == k
    {
      LabelCorrectIffKeyIsAnswer(choices[i], answer);
    }
  }
}
