/** Quiz mode: a multiple-choice quiz built from a sample of the cards, answered
    one question at a time, then scored and graded. */
module Quiz {
  import opened Common
  import opened CardParser

  /** A quiz needs at least this many cards. */
  const MinCards: nat := 4
  /** At most this many wrong answers are offered beside the correct one. */
  const MaxWrong: nat := 3

  datatype QuizQuestion = QuizQuestion(question: string, correct: string, options: seq<string>)

  /** The random choices made for one question: which entries of its wrong-answer
      pool are offered, and the shuffled order of the options. */
  datatype Draw = Draw(wrongPicks: seq<nat>, order: seq<nat>)

  /** The answers of the cards, in card order. */
  function Answers(cards: seq<Card>): seq<string>
  {
    if cards == [] then [] else [cards[0].answer] + Answers(cards[1..])
  }

  /** The wrong-answer pool for correct answer `a`: the answers of all cards,
      in card order, whose text differs from `a`. Cards are compared by answer
      text, not by identity, and the pool is not deduplicated. */
  function WrongPool(cards: seq<Card>, a: string): (pool: seq<string>)
    ensures forall x :: x in pool ==> x != a
    ensures forall x :: x != a ==> multiset(pool)[x] == multiset(Answers(cards))[x]
    ensures |pool| + multiset(Answers(cards))[a] == |cards|
  {
    if cards == [] then []
    else (if cards[0].answer != a then [cards[0].answer] else []) + WrongPool(cards[1..], a)
  }

  /** How many options a question whose wrong-answer pool has `poolSize` entries gets. */
  function OptionCount(poolSize: nat): nat
  {
    1 + Min(MaxWrong, poolSize)
  }

  /** `d` could come from sampling min(3, poolSize) distinct pool entries and then
      shuffling the resulting options. */
  predicate ValidDraw(poolSize: nat, d: Draw)
  {
    IsSample(d.wrongPicks, poolSize, Min(MaxWrong, poolSize)) && IsPermutation(d.order, OptionCount(poolSize))
  }

  /** The options shown: the correct answer followed by the sampled wrong answers,
      then shuffled. The result holds the same entries with the same multiplicities. */
  function Options(a: string, pool: seq<string>, d: Draw): (opts: seq<string>)
    requires ValidDraw(|pool|, d)
    ensures multiset(opts) == multiset([a] + Select(pool, d.wrongPicks))
  {
    var unshuffled := [a] + Select(pool, d.wrongPicks);
    SelectPermutation(unshuffled, d.order);
    Select(unshuffled, d.order)
  }

  /** What every question of a quiz over `cards` looks like: 1 + min(3, pool size)
      options, the correct answer among them exactly once, every other option a
      (different) answer from the pool, and no wrong answer offered more often
      than the pool holds it (the pool is sampled without replacement). */
  ghost predicate WellFormedQuestion(cards: seq<Card>, q: QuizQuestion)
  {
    var pool := WrongPool(cards, q.correct);
    && |q.options| == OptionCount(|pool|)
    && multiset(q.options)[q.correct] == 1
    && (forall o :: o in q.options && o != q.correct ==> o in pool)
    && forall o :: o != q.correct ==> multiset(q.options)[o] <= multiset(pool)[o]
  }

  lemma OptionsWellFormed(cards: seq<Card>, question: string, a: string, d: Draw)
    requires ValidDraw(|WrongPool(cards, a)|, d)
    ensures WellFormedQuestion(cards, QuizQuestion(question, a, Options(a, WrongPool(cards, a), d)))
  {
    var pool := WrongPool(cards, a);
    var wrong := Select(pool, d.wrongPicks);
    var opts := Options(a, pool, d);
    SelectFrom(pool, d.wrongPicks);
    SelectSample(pool, d.wrongPicks);
    assert a !in wrong;
    assert multiset(wrong)[a] == 0;
    assert multiset([a] + wrong)[a] == 1;
    forall o | o in opts && o != a
      ensures o in pool
    {
      assert o in multiset(opts);
      assert o in multiset([a] + wrong);
      assert o in [a] + wrong;
    }
    assert |opts| == |multiset(opts)| == |multiset([a] + wrong)| == 1 + |wrong|;
    forall o | o != a
      ensures multiset(opts)[o] <= multiset(pool)[o]
    {
      assert multiset([a] + wrong)[o] == multiset(wrong)[o];
    }
  }

  function BuildQuestion(cards: seq<Card>, pick: nat, d: Draw): QuizQuestion
    requires pick < |cards| && ValidDraw(|WrongPool(cards, cards[pick].answer)|, d)
  {
    var c := cards[pick];
    QuizQuestion(c.question, c.answer, Options(c.answer, WrongPool(cards, c.answer), d))
  }

  /** One draw per sampled card, each valid for that card's wrong-answer pool. */
  predicate ValidDraws(cards: seq<Card>, picks: seq<nat>, draws: seq<Draw>)
  {
    && |draws| == |picks|
    && (forall i :: 0 <= i < |picks| ==> picks[i] < |cards|)
    && forall i :: 0 <= i < |picks| ==> ValidDraw(|WrongPool(cards, cards[picks[i]].answer)|, draws[i])
  }

  /** The choices the random generator can make for a quiz of `numQuestions`
      questions: min(numQuestions, |cards|) distinct cards, and a valid draw for each. */
  predicate ValidChoices(cards: seq<Card>, numQuestions: nat, picks: seq<nat>, draws: seq<Draw>)
  {
    IsSample(picks, |cards|, Min(numQuestions, |cards|)) && ValidDraws(cards, picks, draws)
  }

  /** The questions of a quiz: one per sampled card, in sampling order. */
  function BuildQuiz(cards: seq<Card>, picks: seq<nat>, draws: seq<Draw>): (qs: seq<QuizQuestion>)
    requires ValidDraws(cards, picks, draws)
    ensures |qs| == |picks|
  {
    seq(|picks|, i requires 0 <= i < |picks| => BuildQuestion(cards, picks[i], draws[i]))
  }

  /** A quiz has min(numQuestions, |cards|) questions, one per sampled card,
      each asking a card's question with that card's answer as the correct one and
      well-formed options. */
  lemma QuizWellFormed(cards: seq<Card>, numQuestions: nat, picks: seq<nat>, draws: seq<Draw>)
    requires ValidChoices(cards, numQuestions, picks, draws)
    ensures |BuildQuiz(cards, picks, draws)| == Min(numQuestions, |cards|)
    ensures forall i :: 0 <= i < |picks| ==>
      var q := BuildQuiz(cards, picks, draws)[i];
      Card(q.question, q.correct) == cards[picks[i]] && WellFormedQuestion(cards, q)
  {
    var qs := BuildQuiz(cards, picks, draws);
    forall i | 0 <= i < |picks|
      ensures Card(qs[i].question, qs[i].correct) == cards[picks[i]] && WellFormedQuestion(cards, qs[i])
    {
      var c := cards[picks[i]];
      OptionsWellFormed(cards, c.question, c.answer, draws[i]);
    }
  }

  lemma {:induction false} AnswersDistinctCount(cards: seq<Card>, k: nat)
    requires k < |cards|
    requires forall i, j :: 0 <= i < j < |cards| ==> cards[i].answer != cards[j].answer
    ensures multiset(Answers(cards))[cards[k].answer] == 1
  {
    var a := cards[k].answer;
    assert Answers(cards) == [cards[0].answer] + Answers(cards[1..]);
    if k == 0 {
      AnswerAbsent(cards[1..], a);
    } else {
      AnswersDistinctCount(cards[1..], k - 1);
    }
  }

  lemma {:induction false} AnswerAbsent(cards: seq<Card>, a: string)
    requires forall i :: 0 <= i < |cards| ==> cards[i].answer != a
    ensures multiset(Answers(cards))[a] == 0
  {
    if cards != [] {
      AnswerAbsent(cards[1..], a);
    }
  }

  /** When no two cards share an answer text and there are at least four cards,
      every question offers exactly four options. */
  lemma DistinctAnswersGiveFourOptions(cards: seq<Card>, numQuestions: nat, picks: seq<nat>, draws: seq<Draw>)
    requires ValidChoices(cards, numQuestions, picks, draws) && |cards| >= MinCards
    requires forall i, j :: 0 <= i < j < |cards| ==> cards[i].answer != cards[j].answer
    ensures forall q :: q in BuildQuiz(cards, picks, draws) ==> |q.options| == MaxWrong + 1
  {
    var qs := BuildQuiz(cards, picks, draws);
    QuizWellFormed(cards, numQuestions, picks, draws);
    forall q | q in qs
      ensures |q.options| == MaxWrong + 1
    {
      var i :| 0 <= i < |qs| && qs[i] == q;
      AnswersDistinctCount(cards, picks[i]);
      assert |WrongPool(cards, q.correct)| == |cards| - 1;
    }
  }

  /** When no two cards share an answer text, no question offers any option twice. */
  lemma DistinctAnswersNoRepeatedOption(cards: seq<Card>, numQuestions: nat, picks: seq<nat>, draws: seq<Draw>)
    requires ValidChoices(cards, numQuestions, picks, draws)
    requires forall i, j :: 0 <= i < j < |cards| ==> cards[i].answer != cards[j].answer
    ensures forall q, x :: q in BuildQuiz(cards, picks, draws) ==> multiset(q.options)[x] <= 1
  {
    var qs := BuildQuiz(cards, picks, draws);
    QuizWellFormed(cards, numQuestions, picks, draws);
    forall q, x | q in qs
      ensures multiset(q.options)[x] <= 1
    {
      if x != q.correct {
        if k :| 0 <= k < |cards| && cards[k].answer == x {
          AnswersDistinctCount(cards, k);
        } else {
          AnswerAbsent(cards, x);
        }
      }
    }
  }

  // ---------------------------------------------------------------------------
  // Scoring.

  /** Python's `dict.get`: the recorded choice, or None when nothing is recorded. */
  function Lookup(answers: map<nat, Option<string>>, i: nat): Option<string>
  {
    if i in answers then answers[i] else None
  }

  /** Question `i` was answered with its correct answer. An unanswered question,
      or one answered with no choice selected, never counts. */
  predicate CorrectAt(qs: seq<QuizQuestion>, answers: map<nat, Option<string>>, i: nat)
  {
    i < |qs| && Lookup(answers, i) == Some(qs[i].correct)
  }

  /** The number of correctly answered questions among the first `n`. */
  function CountCorrect(qs: seq<QuizQuestion>, answers: map<nat, Option<string>>, n: nat): (r: nat)
    requires n <= |qs|
    ensures r <= n
  {
    if n == 0 then 0
    else CountCorrect(qs, answers, n - 1) + (if CorrectAt(qs, answers, n - 1) then 1 else 0)
  }

  /** The count is the number of correctly answered positions. */
  lemma {:induction false} CountIsCardinality(qs: seq<QuizQuestion>, answers: map<nat, Option<string>>, n: nat)
    requires n <= |qs|
    ensures CountCorrect(qs, answers, n) == |set i: nat | i < n && CorrectAt(qs, answers, i)|
  {
    if n > 0 {
      CountIsCardinality(qs, answers, n - 1);
      var below := set i: nat | i < n - 1 && CorrectAt(qs, answers, i);
      var upto := set i: nat | i < n && CorrectAt(qs, answers, i);
      if CorrectAt(qs, answers, n - 1) {
        assert upto == below + {n - 1};
      } else {
        assert upto == below;
      }
    }
  }

  lemma {:induction false} AllCorrectCountsAll(qs: seq<QuizQuestion>, answers: map<nat, Option<string>>, n: nat)
    requires n <= |qs|
    requires forall i :: 0 <= i < n ==> Lookup(answers, i) == Some(qs[i].correct)
    ensures CountCorrect(qs, answers, n) == n
  {
    if n > 0 {
      AllCorrectCountsAll(qs, answers, n - 1);
    }
  }

  lemma {:induction false} NoneAnsweredCountsNone(qs: seq<QuizQuestion>, answers: map<nat, Option<string>>, n: nat)
    requires n <= |qs|
    requires forall i :: 0 <= i < n ==> Lookup(answers, i) == None
    ensures CountCorrect(qs, answers, n) == 0
  {
    if n > 0 {
      NoneAnsweredCountsNone(qs, answers, n - 1);
    }
  }

  datatype Band = Excellent | Good | KeepPracticing

  /** The grade for `correct` out of `total`, with the percentage thresholds 80
      and 60 compared exactly, by cross-multiplication. */
  function BandOf(correct: nat, total: nat): Band
    requires total > 0
  {
    if 100 * correct >= 80 * total then Excellent
    else if 100 * correct >= 60 * total then Good
    else KeepPracticing
  }

  /** The score as an exact percentage. */
  function ScorePercent(correct: nat, total: nat): real
    requires total > 0
  {
    (correct as real / total as real) * 100.0
  }

  lemma DivAtLeast(x: real, t: real, y: real)
    requires t > 0.0
    ensures x / t >= y <==> x >= y * t
  {
    var q := x / t;
    assert q * t == x;
    if q >= y {
      assert (q - y) * t >= 0.0;
    } else {
      assert (y - q) * t > 0.0;
    }
  }

  /** The grade is the one the percentage thresholds give: at least 80 percent is
      excellent, at least 60 percent good, anything lower "keep practicing". */
  lemma BandMatchesPercent(correct: nat, total: nat)
    requires total > 0
    ensures BandOf(correct, total) == Excellent <==> ScorePercent(correct, total) >= 80.0
    ensures BandOf(correct, total) == Good <==> 60.0 <= ScorePercent(correct, total) < 80.0
    ensures BandOf(correct, total) == KeepPracticing <==> ScorePercent(correct, total) < 60.0
  {
    var c := correct as real;
    var t := total as real;
    DivAtLeast(c, t, 0.8);
    DivAtLeast(c, t, 0.6);
    assert (100 * correct) as real == 100.0 * c;
    assert (80 * total) as real == 80.0 * t;
    assert (60 * total) as real == 60.0 * t;
  }

  /** All answers right scores 100 percent and is excellent; none right scores 0
      and is "keep practicing". */
  lemma ExtremeScores(total: nat)
    requires total > 0
    ensures ScorePercent(total, total) == 100.0 && BandOf(total, total) == Excellent
    ensures ScorePercent(0, total) == 0.0 && BandOf(0, total) == KeepPracticing
  {
    var t := total as real;
    assert t / t == 1.0;
    assert 0.0 / t == 0.0;
  }

  function Rank(b: Band): nat
  {
    match b
    case KeepPracticing => 0
    case Good => 1
    case Excellent => 2
  }

  /** More correct answers never give a lower grade. */
  lemma BandMonotone(c1: nat, c2: nat, total: nat)
    requires total > 0 && c1 <= c2
    ensures Rank(BandOf(c1, total)) <= Rank(BandOf(c2, total))
  {
  }

  // ---------------------------------------------------------------------------
  // The quiz part of the session state.

  class QuizSession {
    var quizActive: bool
    var quizQuestions: seq<QuizQuestion>
    /** The choice recorded per question position; `None` is a submission with no
        option selected. */
    var userAnswers: map<nat, Option<string>>
    var quizIndex: nat

    /** The current question index never passes the end; answers are recorded only
        for questions up to the current one, and every question already passed
        has a recorded answer. */
    ghost predicate Valid()
      reads this
    {
      && quizIndex <= |quizQuestions|
      && (forall k :: k in userAnswers ==> k < |quizQuestions| && k <= quizIndex)
      && (forall k :: 0 <= k < quizIndex ==> k in userAnswers)
    }

    /** No quiz yet. */
    constructor ()
      ensures Valid()
      ensures !quizActive && quizQuestions == [] && userAnswers == map[] && quizIndex == 0
    {
      quizActive := false;
      quizQuestions := [];
      userAnswers := map[];
      quizIndex := 0;
    }

    /** Starts a quiz of min(numQuestions, |cards|) questions; refuses, changing
        nothing, when there are fewer than four cards. `picks` and `draws` are the
        random generator's choices. */
    method StartQuiz(cards: seq<Card>, numQuestions: nat, picks: seq<nat>, draws: seq<Draw>) returns (started: bool)
      requires Valid()
      requires |cards| >= MinCards ==> ValidChoices(cards, numQuestions, picks, draws)
      modifies this
      ensures Valid()
      ensures started <==> |cards| >= MinCards
      ensures !started ==> quizActive == old(quizActive) && quizQuestions == old(quizQuestions)
                           && userAnswers == old(userAnswers) && quizIndex == old(quizIndex)
      ensures started ==> quizQuestions == BuildQuiz(cards, picks, draws)
                          && userAnswers == map[] && quizIndex == 0 && quizActive
    {
      if |cards| < MinCards {
        return false;
      }
      var quizQ: seq<QuizQuestion> := [];
      ghost var spec := BuildQuiz(cards, picks, draws);
      for i := 0 to |picks|
        invariant quizQ == spec[..i]
      {
        var c := cards[picks[i]];
        var pool := WrongPool(cards, c.answer);
        var wrong := Select(pool, draws[i].wrongPicks);
        var options := Select([c.answer] + wrong, draws[i].order);
        assert QuizQuestion(c.question, c.answer, options) == spec[i];
        quizQ := quizQ + [QuizQuestion(c.question, c.answer, options)];
      }
      assert spec[..|picks|] == spec;
      quizQuestions := quizQ;
      userAnswers := map[];
      quizIndex := 0;
      quizActive := true;
      started := true;
    }

    /** "Submit": records the choice for the current question only, and reports
        whether it was the correct answer. */
    method Submit(choice: Option<string>) returns (isCorrect: bool)
      requires Valid() && quizActive && quizIndex < |quizQuestions|
      modifies this
      ensures Valid()
      ensures quizActive && quizQuestions == old(quizQuestions) && quizIndex == old(quizIndex)
      ensures userAnswers == old(userAnswers)[quizIndex := choice]
      ensures isCorrect <==> choice == Some(quizQuestions[quizIndex].correct)
    {
      userAnswers := userAnswers[quizIndex := choice];
      isCorrect := choice == Some(quizQuestions[quizIndex].correct);
    }

    /** "Next" (offered only after a submission): moves to the following question,
        or past the last one into the scoring state. */
    method Advance()
      requires Valid() && quizActive && quizIndex < |quizQuestions| && quizIndex in userAnswers
      modifies this
      ensures Valid()
      ensures quizIndex == old(quizIndex) + 1
      ensures quizActive && quizQuestions == old(quizQuestions) && userAnswers == old(userAnswers)
    {
      quizIndex := quizIndex + 1;
    }

    /** "Repeat quiz" on the score screen: leaves quiz mode. */
    method Restart()
      requires Valid() && quizActive && quizIndex >= |quizQuestions|
      modifies this
      ensures Valid()
      ensures !quizActive
      ensures quizQuestions == old(quizQuestions) && userAnswers == old(userAnswers) && quizIndex == old(quizIndex)
    {
      quizActive := false;
    }

    /** The score screen: counts the questions whose recorded choice is the correct
        answer and grades the result. */
    method Score() returns (correct: nat, band: Band)
      requires Valid() && quizActive && quizIndex >= |quizQuestions| && quizQuestions != []
      ensures correct == CountCorrect(quizQuestions, userAnswers, |quizQuestions|)
      ensures correct <= |quizQuestions|
      ensures band == BandOf(correct, |quizQuestions|)
    {
      var total := |quizQuestions|;
      correct := 0;
      for i := 0 to total
        invariant correct == CountCorrect(quizQuestions, userAnswers, i)
      {
        var recorded := if i in userAnswers then userAnswers[i] else None;
        if recorded == Some(quizQuestions[i].correct) {
          correct := correct + 1;
        }
      }
      band := BandOf(correct, total);
    }
  }
}
