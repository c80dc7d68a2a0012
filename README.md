# Hindi law flashcards and quiz — a Dafny model

The application is a single-page Streamlit app (`app.py`) for revising law
questions. It reads question/answer cards from a Word document in which each
card is written as a `QUESTION:` paragraph followed by an `ANSWER:` paragraph.
It then offers two modes:

- **flashcards**: the cards are shown one at a time in a shuffled order that
  repeats. The answer stays hidden until the student reveals it, and spoken
  audio of the question or the answer can be played in a loop and stopped;
- **quiz**: a multiple-choice quiz over a random sample of the cards. Each
  question offers the correct answer and up to three wrong answers taken from
  the other cards. The student submits one question at a time, and at the end
  the quiz is scored and graded "excellent", "good" or "keep practicing".

The model has four modules:

- `Common` (`common.dfy`): an `Option` type and index selection. The random
  choices the app makes are not modelled as randomness. The caller supplies
  them as index sequences, and the predicates `IsSample` and `IsPermutation`
  say which sequences `random.sample` and `random.shuffle` can produce.
  `SelectPermutation` proves that a shuffle keeps every element with its
  multiplicity.
- `CardParser` (`parser.dfy`): the document reader. `LoadFlashcards` is the
  reading loop as written, proved equal to `Parse`. `Parse` folds a one-step
  state machine (`Step`) over the classified paragraphs. A second, block-wise
  description of the reader (`Blocks`) is proved equal to it, and the
  properties of the cards read are proved on the block-wise form.
- `Flashcards` (`deck.dfy`): the class `Deck` holds the flashcard part of the
  session state: the cards, the shuffled order, the cursor, the reveal flag
  and the audio state.
- `Quiz` (`quiz.dfy`): the quiz construction (`WrongPool`, `Options`,
  `BuildQuiz`). The class `QuizSession` holds the quiz part of the session
  state, with the buttons as methods. The scoring functions `CountCorrect`,
  `BandOf` and `ScorePercent` are in this module too.

Python's `None` and the empty string are both modelled as the empty string for
the pending question and answer of the reader. The code only tests them for
truthiness, so the two cannot be told apart. A `Card` is the pair
`(question, answer)`.

Two behaviours of the code are worth knowing:

- The options of a quiz question can repeat. The wrong-answer pool holds one
  entry per card whose answer text differs from the correct one, and it is not
  deduplicated (app.py:178-179). Two cards with the same answer text can
  therefore put the same wrong answer into the options twice. When no two
  cards share an answer text, no option appears twice.
- A failed speech synthesis stores no audio, but it still sets `is_playing`
  to true (app.py:96-97). The app then reports that audio is playing while no
  player is shown.

## Model

| member | source | states |
|---|---|---|
| Common.SelectPermutation | app.py:180-181 | shuffling a list by a permutation keeps exactly the same elements with the same multiplicities |
| Common.SelectSample | app.py:175-179 | sampling without replacement takes no element more often than the sampled list holds it |
| Common.PermutationCovers | app.py:49-50 | a shuffle of `range(n)` contains every value below n |
| CardParser.Strip | app.py:28 | the stripped text is a stretch of the paragraph with only whitespace before and after it, and it neither starts nor ends with whitespace; so it is the paragraph with exactly its leading and trailing whitespace removed, and it is empty exactly when the paragraph is all whitespace |
| CardParser.LoadFlashcards | app.py:21-40 | the reading loop returns exactly `Parse(paragraphs)`: the state-machine reading of the paragraphs, with the final pending pair emitted if it is complete |
| CardParser.StepOnText | app.py:28-37 | the bridge between the body of the reading loop, which works on the paragraph text, and the state machine `Step`, which works on classified paragraphs. One loop iteration: a blank paragraph changes nothing; a question paragraph emits the pending pair if complete and starts a new question with no answer; an answer paragraph sets the answer only while a question is pending; anything else changes nothing |
| CardParser.LastAnswerWins | app.py:36-37 | between two question paragraphs, a later answer paragraph overwrites an earlier one and nothing is emitted; with no question pending, answers change nothing |
| CardParser.ParseIsBlocks | app.py:27-39 | the reading loop equals the block-wise reading: leading paragraphs before the first question are ignored, and each question block yields one card (its question and its last answer) exactly when both are non-empty |
| CardParser.CardsComplete | app.py:31-39 | every card read has a non-empty question and a non-empty answer |
| CardParser.CardsInQuestionOrder | app.py:31-35 | the questions of the cards are a subsequence of the question paragraphs, in document order, so there are at most as many cards as question paragraphs |
| CardParser.UnusableParagraphsIgnored | app.py:28-37 | a blank paragraph, a paragraph with neither marker, or an answer paragraph with no pending question leaves the reader's state unchanged |
| CardParser.QuestionResetsPending | app.py:31-35 | a question paragraph replaces the pending question, clears the pending answer, and emits the previous pair only if it was complete |
| Flashcards.NextIndex | app.py:162 | the next cursor is in range; it is one more than the old cursor before the last card and 0 after it |
| Flashcards.FullCycleReturns | app.py:161-166 | pressing "next card" as many times as there are cards comes back to the starting card |
| Flashcards.EveryCardInDeck | app.py:49-50 | every card position occurs in the shuffled order, so every card is shown |
| Flashcards.Deck.constructor | app.py:46-56 | the deck is the cards in the supplied shuffled order, the cursor is 0, the answer is hidden and no audio is held or playing |
| Flashcards.Deck.CurrentCard | app.py:85-86 | the card shown is the card at the cursor's position in the shuffled order, one of the cards read |
| Flashcards.Deck.Reveal | app.py:159 | the answer is shown and nothing else changes |
| Flashcards.Deck.Advance | app.py:161-166 | the cursor moves one step round the cycle and stays in range; the answer is hidden, playing stops and the audio is dropped |
| Flashcards.Deck.PlayAudio | app.py:94-97 | the synthesiser's result (possibly none) is stored and playing is switched on; the card and reveal state do not change |
| Flashcards.Deck.StopAudio | app.py:100-102 | playing stops and the audio is dropped; nothing else changes |
| Quiz.WrongPool | app.py:178 | the pool never contains the correct answer, and it holds every other answer as often as the cards do; its length is the number of cards whose answer differs |
| Quiz.Options | app.py:179-181 | the options are a rearrangement of the correct answer followed by the sampled wrong answers |
| Quiz.OptionsWellFormed | app.py:178-181 | a question has 1 + min(3, pool size) options, the correct answer exactly once among them, and every other option taken from the wrong-answer pool, never more often than the pool holds it |
| Quiz.QuizWellFormed | app.py:175-182 | a quiz has min(numQuestions, number of cards) questions, one per sampled card, each asking the card's question with the card's answer as the correct option and well-formed options |
| Quiz.DistinctAnswersNoRepeatedOption | app.py:178-181 | when no two cards share an answer text, no question offers any option twice |
| Quiz.DistinctAnswersGiveFourOptions | app.py:172-181 | with at least four cards and no two cards sharing an answer text, every question has exactly four options |
| Quiz.CountCorrect | app.py:204-207 | the count of correctly answered questions never exceeds the number of questions |
| Quiz.CountIsCardinality | app.py:204-207 | the count is the number of positions whose recorded choice equals the correct answer |
| Quiz.AllCorrectCountsAll | app.py:204-207 | when every question was answered correctly the count is the number of questions |
| Quiz.NoneAnsweredCountsNone | app.py:206 | unanswered questions and submissions with nothing selected never count |
| Quiz.BandMatchesPercent | app.py:208-217 | the grade is "excellent" exactly at 80 percent or more, "good" exactly from 60 up to below 80 percent, "keep practicing" exactly below 60 percent |
| Quiz.ExtremeScores | app.py:208-217 | all correct is 100 percent and excellent; none correct is 0 percent and "keep practicing" |
| Quiz.BandMonotone | app.py:212-217 | more correct answers never give a lower grade |
| Quiz.QuizSession.constructor | app.py:58-68 | at session start no quiz is active, there are no questions and no answers, and the index is 0 |
| Quiz.QuizSession.StartQuiz | app.py:171-186 | with fewer than four cards nothing changes and the quiz is refused; otherwise the questions are the quiz built from the sampled cards and draws, the answers are cleared, the index is 0 and the quiz is active |
| Quiz.QuizSession.Submit | app.py:225-228 | the choice, possibly none, is recorded for the current question only; the result says whether it is the correct answer |
| Quiz.QuizSession.Advance | app.py:233-234 | after a submission the index moves forward by exactly one |
| Quiz.QuizSession.Restart | app.py:218-219 | on the score screen "repeat quiz" leaves quiz mode and changes nothing else |
| Quiz.QuizSession.Score | app.py:201-217 | the score screen counts exactly the correctly answered questions and grades the count by the 80 and 60 percent thresholds |

Every `QuizSession` and `Deck` method also keeps the class invariant `Valid()`.
For a `Deck`, the order is a permutation of the card positions and the cursor
is in range. For a `QuizSession`, the index is at most one past the last question, and it
equals the number of questions on the score screen. Answers are recorded only
for questions up to the current one, and every question already passed has an
answer.

## Left out

- The Streamlit page: titles, columns, buttons, messages, the HTML answer box,
  `st.rerun`, and the tab that switches between the two modes. The buttons
  appear only as the methods that perform their state updates.
- Reading the Word document (`Document(doc_path)`) and the exception path that
  reports an error and returns no cards. `LoadFlashcards` takes the
  paragraph texts as its input.
- `text_to_speech` and the gTTS service. `PlayAudio` receives the
  synthesiser's result as a parameter, with `None` for a failure.
- `random.shuffle` and `random.sample`. The caller supplies the permutation or
  the sample indices, constrained by `IsPermutation` and `IsSample`.
- The deck's absence when no cards were read is modelled as an empty order.
  The flashcard screen then shows nothing, so `CurrentCard` and `Advance`
  require cards.
- Quiz.BandOf and Quiz.ScorePercent: the score is Python floating point,
  `correct / total * 100`. The model uses exact rational arithmetic and
  compares with integer cross-multiplication. A score exactly on 60 or 80
  percent grades the same both ways. The float rounds `correct / total` to
  the nearest double, and multiplying by 100 then gives exactly 60.0 or 80.0.
  The two can differ only for a score just below a threshold, by less than the
  rounding error, which the float then rounds onto the threshold. That needs
  a total of about 10^15 questions or more. The slider allows at most 10
  questions, and for every such total the two grades agree.
- The display of the score with one decimal place.
- Quiz.QuizSession.Score requires at least one question. With zero questions
  the source divides by zero, and the slider's lower bound of 3 keeps that
  from happening.
- The slider's bounds for the number of questions. `StartQuiz` accepts any
  natural number.
- CardParser.IsSpace: Python's `str.strip()` removes the characters for which
  `str.isspace()` holds. The model lists those characters explicitly, and
  that list is the whole of the Unicode handling.
- Flashcards.Deck.PlayerShown: the player is shown while playing with
  non-empty audio. It is a plain predicate with no contract of its own.
