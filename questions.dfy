/** The question bank of the tutor, the adaptive selection rule and the
    scoring of a submitted answer (its-tutor.py, get_next_question and the
    comparison in the submit block). */
module Questions {

  import opened Wrappers

  /** An expected answer: the source stores either an integer (8, 48, 6)
      or a string ("14", "21"). */
  datatype Answer = Number(n: int) | Text(s: string)

  /** A question record. `choices` is present exactly for the
      multiple-choice items; its presence selects the radio input. */
  datatype Question = Question(prompt: string, answer: Answer, choices: Option<seq<string>>)

  const Easy: seq<Question> := [
    Question("5 + 3 =", Number(8), None),
    Question("12 - 4 =", Number(8), None)
  ]

  const Hard: seq<Question> := [
    Question("8 x 6 =", Number(48), None),
    Question("36 ÷ 6 =", Number(6), None)
  ]

  const MultipleChoice: seq<Question> := [
    Question("What is 9 + 5?", Text("14"), Some(["12", "14", "15", "16"])),
    Question("What is 7 x 3?", Text("21"), Some(["21", "24", "18", "27"]))
  ]

  /** The bank as the program lists it: two easy and two hard questions
      with integer answers, and two multiple-choice questions with four
      options and a string answer each. */
  lemma BankContents()
    ensures |Easy| == 2 && |Hard| == 2 && |MultipleChoice| == 2
    ensures AnswerText(Easy[0].answer) == "8" && AnswerText(Easy[1].answer) == "8"
    ensures AnswerText(Hard[0].answer) == "48" && AnswerText(Hard[1].answer) == "6"
    ensures AnswerText(MultipleChoice[0].answer) == "14" && AnswerText(MultipleChoice[1].answer) == "21"
    ensures forall q :: q in Easy + Hard ==> q.answer.Number? && q.choices.None?
    ensures forall q :: q in MultipleChoice ==> q.answer.Text? && q.choices.Some? && |q.choices.value| == 4
  {
  }

  /** Every question the tutor can ever ask. */
  const AllQuestions: seq<Question> := Easy + Hard + MultipleChoice

  /** The two messages the speech path returns instead of a transcription. */
  const NotUnderstood: string := "Could not understand. Please try again."
  const ServiceUnavailable: string := "Speech recognition service unavailable."

  // ---------------------------------------------------------------------
  // Selection

  /** The pool the next question is drawn from: the hard pool when there
      are strictly more correct than incorrect answers, otherwise the easy
      and multiple-choice pools together (ties and 0/0 included). */
  function Pool(correct: nat, incorrect: nat): (pool: seq<Question>)
    ensures |pool| > 0
    ensures correct > incorrect ==> forall q :: q in pool <==> q in Hard
    ensures correct <= incorrect ==> forall q :: q in pool <==> q in Easy || q in MultipleChoice
    ensures forall q :: q in pool ==> q in AllQuestions
  {
    if correct > incorrect then Hard else Easy + MultipleChoice
  }

  /** `random.choice`: the random source is the caller-supplied `pick`. */
  function Choose<T>(pool: seq<T>, pick: nat): (x: T)
    requires |pool| > 0
    ensures x in pool
  {
    pool[pick % |pool|]
  }

  /** Every element of a pool is the outcome of some pick, so modelling the
      random source by `pick` rules out no draw. */
  lemma ChooseReachesEvery<T>(pool: seq<T>, x: T) returns (pick: nat)
    requires x in pool
    ensures Choose(pool, pick) == x
  {
    var k :| 0 <= k < |pool| && pool[k] == x;
    pick := k;
  }

  /** get_next_question for the given counters and random pick. */
  function NextQuestion(correct: nat, incorrect: nat, pick: nat): (q: Question)
    ensures q in Pool(correct, incorrect)
  {
    Choose(Pool(correct, incorrect), pick)
  }

  /** The hard and the easier pools share no question. */
  lemma PoolsDisjoint(q: Question)
    ensures !(q in Hard && (q in Easy || q in MultipleChoice))
  {
  }

  /** The selected question is a hard one exactly when correct > incorrect. */
  lemma NextQuestionIsHardIff(correct: nat, incorrect: nat, pick: nat)
    ensures NextQuestion(correct, incorrect, pick) in Hard <==> correct > incorrect
    ensures NextQuestion(correct, incorrect, pick) in Easy + MultipleChoice <==> correct <= incorrect
  {
  }

  // ---------------------------------------------------------------------
  // Python's str() of an answer

  predicate IsDigit(c: char) {
    '0' <= c <= '9'
  }

  function Digit(d: nat): (c: char)
    requires d < 10
    ensures IsDigit(c)
  {
    ('0' as int + d) as char
  }

  function DigitValue(c: char): (d: nat)
    ensures d < 10
  {
    if IsDigit(c) then c as int - '0' as int else 0
  }

  /** Decimal text of a natural number: digits only and no leading zero. */
  function NatText(n: nat): (s: string)
    ensures |s| >= 1
    ensures forall k :: 0 <= k < |s| ==> IsDigit(s[k])
    ensures s[0] == '0' <==> n == 0
    ensures n == 0 ==> s == "0"
  {
    if n < 10 then [Digit(n)] else NatText(n / 10) + [Digit(n % 10)]
  }

  /** Python's str() of an int: a minus sign before the digits when negative. */
  function DecimalText(n: int): (s: string)
    ensures |s| >= 1
    ensures s[0] == '-' <==> n < 0
    ensures n >= 0 ==> s == NatText(n)
    ensures n < 0 ==> s[1..] == NatText(-n)
  {
    if n < 0 then "-" + NatText(-n) else NatText(n)
  }

  /** Reading a string of digits back as a number. */
  function ParseNat(s: string): nat {
    if s == [] then 0 else 10 * ParseNat(s[..|s| - 1]) + DigitValue(s[|s| - 1])
  }

  function ParseInt(s: string): int {
    if |s| > 0 && s[0] == '-' then -(ParseNat(s[1..]) as int) else ParseNat(s)
  }

  lemma {:induction false} ParseNatText(n: nat)
    ensures ParseNat(NatText(n)) == n
  {
    var s := NatText(n);
    if n >= 10 {
      var prefix := NatText(n / 10);
      assert s == prefix + [Digit(n % 10)];
      assert s[..|s| - 1] == prefix;
      ParseNatText(n / 10);
    }
  }

  /** DecimalText loses no information: it is inverted by ParseInt. */
  lemma ParseDecimalText(n: int)
    ensures ParseInt(DecimalText(n)) == n
  {
    if n < 0 {
      var s := DecimalText(n);
      assert s[1..] == NatText(-n);
      ParseNatText(-n);
    } else {
      ParseNatText(n);
    }
  }

  /** Two different numbers never have the same text. */
  lemma DecimalTextInjective(a: int, b: int)
    ensures DecimalText(a) == DecimalText(b) <==> a == b
  {
    ParseDecimalText(a);
    ParseDecimalText(b);
  }

  /** str(correct_answer). */
  function AnswerText(a: Answer): (s: string)
    ensures a.Text? ==> s == a.s
    ensures a.Number? ==> s == DecimalText(a.n)
    ensures a.Number? ==> ParseInt(s) == a.n
  {
    match a
    case Number(n) => ParseDecimalText(n); DecimalText(n)
    case Text(t) => t
  }

  // ---------------------------------------------------------------------
  // Scoring

  /** `str(user_answer) == str(correct_answer)`: the submitted string is
      already a str, so it is compared verbatim with the answer's text. */
  predicate Scores(userAnswer: string, q: Question)
    ensures q.answer.Text? ==> (Scores(userAnswer, q) <==> userAnswer == q.answer.s)
    ensures q.answer.Number? ==> (Scores(userAnswer, q) <==> userAnswer == DecimalText(q.answer.n))
    ensures q.answer.Number? && Scores(userAnswer, q) ==> ParseInt(userAnswer) == q.answer.n
  {
    userAnswer == AnswerText(q.answer)
  }

  /** A numeric answer accepts the decimal text of exactly one number. */
  lemma NumericScoring(q: Question, m: int)
    requires q.answer.Number?
    ensures Scores(DecimalText(m), q) <==> m == q.answer.n
  {
    DecimalTextInjective(m, q.answer.n);
  }

  /** No trimming, padding, sign or numeric reading: only the exact text
      scores. */
  lemma ScoringIsVerbatim()
    ensures Scores("8", Easy[0]) && Scores("8", Easy[1])
    ensures Scores("48", Hard[0]) && Scores("6", Hard[1])
    ensures !Scores("08", Easy[0]) && !Scores(" 8", Easy[0]) && !Scores("8 ", Easy[0])
    ensures !Scores("+8", Easy[0]) && !Scores("8.0", Easy[0]) && !Scores("eight", Easy[0])
    ensures Scores("14", MultipleChoice[0]) && !Scores(" 14", MultipleChoice[0])
  {
  }

  /** Input kind: a radio group over the choices, or a free text field. */
  datatype InputKind = Radio(options: seq<string>) | TextField

  function InputFor(q: Question): (k: InputKind)
    ensures k.Radio? <==> q.choices.Some?
    ensures k.Radio? ==> k.options == q.choices.value
  {
    match q.choices
    case Some(options) => Radio(options)
    case None => TextField
  }

  /** Among the tutor's questions, those with a radio input are exactly the
      multiple-choice items. */
  lemma RadioExactlyForMultipleChoice(q: Question)
    requires q in AllQuestions
    ensures InputFor(q).Radio? <==> q in MultipleChoice
  {
  }

  /** In every multiple-choice item exactly one option scores, so picking
      the option equal to the answer is always scored correct. */
  lemma ExactlyOneChoiceScores(q: Question) returns (j: nat)
    requires q in MultipleChoice
    ensures q.choices.Some? && j < |q.choices.value|
    ensures Scores(q.choices.value[j], q)
    ensures forall k :: 0 <= k < |q.choices.value| && Scores(q.choices.value[k], q) ==> k == j
  {
    if q == MultipleChoice[0] {
      j := 1;
    } else {
      j := 0;
    }
  }

  /** The answer of every multiple-choice item is one of its options. */
  lemma AnswerIsAChoice(q: Question)
    requires q in MultipleChoice
    ensures q.choices.Some? && AnswerText(q.answer) in q.choices.value
  {
  }

  /** A speech failure message never scores, whatever the question. */
  lemma SpeechFailureNeverScores(q: Question)
    requires q in AllQuestions
    ensures !Scores(NotUnderstood, q) && !Scores(ServiceUnavailable, q)
  {
  }
}
