/** The quiz/flashcard session of the quiz page. The state the page script
    keeps in currentQuestions, currentQuestionIndex, score and isFlashcardMode,
    the visible screen, the countdown, and the texts the script writes into
    the page are fields of one object; each event (a click on start or on the
    next button, a timer tick, the end of the two-second feedback delay) is a
    method call. The fetched question list, the selected radio value and the
    random swap indices are parameters. */
module Session {
  import opened Shuffle
  import opened Decimal
  import SizeOptions
  import Countdown
  import Results

  datatype Option<T> = None | Some(value: T)

  /** A question as /api/questions returns it; a missing passage is "". */
  datatype Question = Question(passage: string, text: string, choices: seq<string>, answer: string)

  datatype Screen = SetupScreen | QuizScreen | ResultsScreen

  /** The flashcard button, which the script reads back from its label. */
  datatype Toggle = RevealAnswer | NextCard

  /** What the script has written into the page's elements: the question
      counter, the passage and whether it is displayed, the question, the
      answer choices in the order listed, the feedback line, whether the next
      button is enabled and, in flashcard mode, its label, the countdown text,
      and the results heading and score line. */
  datatype Page = Page(counter: string, passage: string, passageShown: bool, question: string,
                       choices: seq<string>, feedback: string, nextEnabled: bool, toggle: Toggle,
                       timer: string, heading: string, scoreLine: string)

  const BlankPage := Page("", "", false, "", [], "", true, RevealAnswer, "", "", "")

  /** What displaying a question leaves alone: the countdown text, the
      results heading and score line, and, in quiz mode, the button label. */
  predicate KeepsRest(before: Page, after: Page, flashcard: bool) {
    after.timer == before.timer && after.heading == before.heading &&
    after.scoreLine == before.scoreLine && (!flashcard ==> after.toggle == before.toggle)
  }

  const NoQuestionsAlert := "No questions available for this section."
  const SelectPrompt := "Please select an answer."
  const CorrectFeedback := "Correct!"
  const IncorrectFeedback := "Incorrect. The correct answer is highlighted."

  /** The end index of `slice(0, num)` on an array of length len: a negative
      num counts back from the end, and the end is clamped to [0, len]. */
  function SliceEnd(num: int, len: nat): (e: nat)
    ensures e <= len
    ensures 0 <= num <= len ==> e == num
    ensures num >= len ==> e == len
    ensures num < 0 && len > 0 ==> e < len
  {
    if num < 0 then (if len + num > 0 then len + num else 0)
    else if num < len then num
    else len
  }

  /** A size picked from the options offered for a section keeps exactly that
      many questions when the section has as many questions as it advertised;
      flashcard mode, which asks for the whole length, keeps the whole list. */
  lemma OfferedSizeIsKept(count: nat, num: int)
    requires num in SizeOptions.OfferedSizes(count)
    ensures SliceEnd(num, count) == num
    ensures SliceEnd(count, count) == count
  {
    if count > 0 {
      SizeOptions.OfferedSizesShape(count);
    }
  }

  /** "Question <k + 1> of <total>" */
  function CounterText(k: nat, total: nat): string {
    "Question " + NatToString(k + 1) + " of " + NatToString(total)
  }

  /** The counter text gives back the position and the number of questions. */
  lemma {:induction false} CounterTextDetermines(k1: nat, total1: nat, k2: nat, total2: nat)
    requires CounterText(k1, total1) == CounterText(k2, total2)
    ensures k1 == k2 && total1 == total2
  {
    var a, b := NatToString(k1 + 1), NatToString(total1);
    var c, d := NatToString(k2 + 1), NatToString(total2);
    var p := |"Question "|;
    assert CounterText(k1, total1)[p..] == a + " of " + b;
    assert CounterText(k2, total2)[p..] == c + " of " + d;
    SplitAtSeparator(a, b, c, d, " of ");
    NatToStringInjective(k1 + 1, k2 + 1);
    NatToStringInjective(total1, total2);
  }

  /** Every question's choices can be shuffled with the given swap indices. */
  predicate ChoicesFit(qs: seq<Question>, choicePicks: seq<nat>) {
    forall q :: q in qs ==> |q.choices| <= |choicePicks|
  }

  /** `shuffleArray(q.choices)` in displayQuestion: the choices, in the order
      the in-place shuffle leaves them. */
  method ShuffleChoices(choices: seq<string>, choicePicks: seq<nat>) returns (shown: seq<string>)
    requires ValidPicks(choicePicks) && |choices| <= |choicePicks|
    ensures shown == Shuffled(choices, choicePicks)
    ensures multiset(shown) == multiset(choices)
  {
    var a := new string[|choices|](k requires 0 <= k < |choices| => choices[k]);
    assert a[..] == choices;
    var shuffled := ShuffleArray(a, choicePicks);
    shown := shuffled[..];
  }

  /** Shuffling and truncating keeps only questions that were fetched, each
      at most as often as it was fetched, so their choices still fit. */
  lemma PrefixOfPermutationFits(fetched: seq<Question>, shuffled: seq<Question>, end: nat, choicePicks: seq<nat>)
    requires multiset(shuffled) == multiset(fetched) && end <= |shuffled|
    requires ChoicesFit(fetched, choicePicks)
    ensures multiset(shuffled[..end]) <= multiset(fetched)
    ensures ChoicesFit(shuffled[..end], choicePicks)
  {
    assert shuffled == shuffled[..end] + shuffled[end..];
    forall q | q in shuffled[..end]
      ensures |q.choices| <= |choicePicks|
    {
      assert q in multiset(fetched);
    }
  }

  class QuizSession {
    var questions: seq<Question>
    var index: nat
    var score: nat
    var flashcard: bool
    var screen: Screen
    var timeLeft: int
    var timerRunning: bool
    var page: Page
    /** The quiz answers recorded in this session. */
    ghost var answered: nat

    /** While a session is on screen its position is a valid index and the
        listed choices are those of the current question; the score never
        exceeds the answers given, which never exceed the questions; a quiz
        has recorded an answer for every question before the current one, and
        for the current one too once the button is disabled; a flashcard
        session never disables it; only a running quiz has a timer. */
    ghost predicate Valid()
      reads this
    {
      index <= |questions| &&
      (screen == QuizScreen ==>
        index < |questions| && multiset(page.choices) == multiset(questions[index].choices)) &&
      score <= answered <= |questions| &&
      (flashcard ==> answered == 0) &&
      (flashcard && screen == QuizScreen ==> page.nextEnabled) &&
      (!flashcard && screen == QuizScreen ==> answered == index + (if page.nextEnabled then 0 else 1)) &&
      (timerRunning ==> !flashcard && screen == QuizScreen)
    }

    /** The page shows question k as displayQuestion renders it. */
    ghost predicate Shows(k: nat, choicePicks: seq<nat>)
      reads this`questions, this`page, this`flashcard
      requires k < |questions| && ValidPicks(choicePicks) && |questions[k].choices| <= |choicePicks|
    {
      page.counter == CounterText(k, |questions|) &&
      page.question == questions[k].text &&
      page.passage == questions[k].passage &&
      page.passageShown == (questions[k].passage != "") &&
      page.choices == Shuffled(questions[k].choices, choicePicks) &&
      page.feedback == "" && page.nextEnabled &&
      (flashcard ==> page.toggle == RevealAnswer)
    }

    /** The page as loaded: the setup screen and an empty session. */
    constructor ()
      ensures Valid()
      ensures screen == SetupScreen && questions == [] && index == 0 && score == 0
      ensures !flashcard && !timerRunning && page == BlankPage
    {
      questions, index, score, answered := [], 0, 0, 0;
      flashcard, screen, timeLeft, timerRunning := false, SetupScreen, 0, false;
      page := BlankPage;
    }

    /** displayQuestion: clears the feedback, enables the button, shows the
        counter, passage and question, and lists the current question's
        choices shuffled; in flashcard mode the button offers to reveal. */
    method DisplayQuestion(choicePicks: seq<nat>)
      requires index < |questions|
      requires ValidPicks(choicePicks) && |questions[index].choices| <= |choicePicks|
      modifies this`page
      ensures Shows(index, choicePicks)
      ensures multiset(page.choices) == multiset(questions[index].choices)
      ensures KeepsRest(old(page), page, flashcard)
    {
      var q := questions[index];
      var shown := ShuffleChoices(q.choices, choicePicks);
      page := page.(feedback := "", nextEnabled := true, counter := CounterText(index, |questions|));
      page := page.(passage := q.passage, passageShown := q.passage != "", question := q.text);
      page := page.(choices := shown);
      if flashcard {
        page := page.(toggle := RevealAnswer);
      }
    }

    /** showResults: stops the timer, switches to the results screen and
        writes the heading and the score line. */
    method ShowResults()
      modifies this`timerRunning, this`screen, this`page
      ensures screen == ResultsScreen && !timerRunning
      ensures page == old(page).(heading := Results.Heading(flashcard),
                                 scoreLine := Results.ScoreText(flashcard, score, |questions|))
    {
      timerRunning := false;
      screen := ResultsScreen;
      page := page.(heading := Results.Heading(flashcard),
                    scoreLine := Results.ScoreText(flashcard, score, |questions|));
    }

    /** The start button: shuffle the fetched questions in place, keep the
        first `requested` of them (all of them for flashcards), and begin a
        session with them. */
    method Start(pool: array<Question>, picks: seq<nat>, flashcardMode: bool, requested: int,
                 minutes: int, choicePicks: seq<nat>) returns (alert: Option<string>)
      requires Valid() && screen != QuizScreen
      requires ValidPicks(picks) && pool.Length <= |picks|
      requires ValidPicks(choicePicks) && ChoicesFit(pool[..], choicePicks)
      modifies this, pool
      ensures Valid()
      ensures pool[..] == Shuffled(old(pool[..]), picks)
      ensures questions == pool[..SliceEnd(if flashcardMode then pool.Length else requested, pool.Length)]
      ensures ChoicesFit(questions, choicePicks)
      ensures flashcard == flashcardMode && index == 0 && score == 0
      ensures alert == if questions == [] then Some(NoQuestionsAlert) else None
      ensures questions == [] ==> screen == old(screen) && !timerRunning && page == old(page)
      ensures questions != [] ==> screen == QuizScreen && Shows(0, choicePicks)
      ensures questions != [] ==> KeepsRest(old(page), page, flashcardMode)
      ensures questions != [] ==> timerRunning == !flashcardMode
      ensures questions != [] && !flashcardMode ==> timeLeft == minutes * 60
    {
      var shuffled := ShuffleArray(pool, picks);
      var num := if flashcardMode then pool.Length else requested;
      var end := SliceEnd(num, pool.Length);
      PrefixOfPermutationFits(old(pool[..]), pool[..], end, choicePicks);
      alert := Begin(shuffled[..end], flashcardMode, minutes, choicePicks);
    }

    /** The rest of the start handler once the question list is chosen: reset
        position and score, and refuse with an alert, without leaving the
        current screen, when the list is empty. Otherwise show the first
        question and, for a quiz, start a countdown of `minutes` minutes. */
    method Begin(qs: seq<Question>, flashcardMode: bool, minutes: int, choicePicks: seq<nat>)
      returns (alert: Option<string>)
      requires Valid() && screen != QuizScreen
      requires ValidPicks(choicePicks) && ChoicesFit(qs, choicePicks)
      modifies this
      ensures Valid()
      ensures questions == qs && flashcard == flashcardMode && index == 0 && score == 0
      ensures alert == if qs == [] then Some(NoQuestionsAlert) else None
      ensures qs == [] ==> screen == old(screen) && !timerRunning && page == old(page)
      ensures qs != [] ==> screen == QuizScreen && Shows(0, choicePicks)
      ensures qs != [] ==> KeepsRest(old(page), page, flashcardMode)
      ensures qs != [] ==> timerRunning == !flashcardMode
      ensures qs != [] && !flashcardMode ==> timeLeft == minutes * 60
    {
      flashcard, questions, index, score, answered := flashcardMode, qs, 0, 0, 0;
      if |qs| == 0 {
        alert := Some(NoQuestionsAlert);
        return;
      }
      alert := None;
      ShowFirst(minutes, choicePicks);
    }

    /** The start handler past the empty-list check: switch to the quiz
        screen, show the first question and, for a quiz, start the countdown. */
    method ShowFirst(minutes: int, choicePicks: seq<nat>)
      requires Valid() && screen != QuizScreen && 0 < |questions|
      requires index == 0 && score == 0 && answered == 0
      requires ValidPicks(choicePicks) && ChoicesFit(questions, choicePicks)
      modifies this`screen, this`page, this`timeLeft, this`timerRunning
      ensures Valid()
      ensures screen == QuizScreen && Shows(0, choicePicks)
      ensures KeepsRest(old(page), page, flashcard)
      ensures timerRunning == !flashcard
      ensures !flashcard ==> timeLeft == minutes * 60
    {
      screen := QuizScreen;
      assert questions[0] in questions;
      DisplayQuestion(choicePicks);
      if !flashcard {
        StartTimer(minutes * 60);
      }
    }

    /** startTimer: clears any running interval and starts a fresh countdown
        of `duration` seconds; the first tick comes a second later. */
    method StartTimer(duration: int)
      modifies this`timeLeft, this`timerRunning
      ensures timeLeft == duration && timerRunning
    {
      timeLeft := duration;
      timerRunning := true;
    }

    /** The shared ending of both handlers: move to the next question, or to
        the results once the list is exhausted. */
    method Advance(choicePicks: seq<nat>)
      requires Valid() && screen == QuizScreen && (flashcard || !page.nextEnabled)
      requires ValidPicks(choicePicks) && ChoicesFit(questions, choicePicks)
      modifies this`index, this`page, this`timerRunning, this`screen
      ensures Valid()
      ensures index == old(index) + 1
      ensures index < |questions| ==> screen == QuizScreen && Shows(index, choicePicks)
      ensures index < |questions| ==> timerRunning == old(timerRunning)
      ensures index < |questions| ==> KeepsRest(old(page), page, flashcard)
      ensures index == |questions| ==> screen == ResultsScreen && !timerRunning
      ensures index == |questions| ==>
        page == old(page).(heading := Results.Heading(flashcard),
                           scoreLine := Results.ScoreText(flashcard, score, |questions|))
    {
      index := index + 1;
      if index < |questions| {
        assert questions[index] in questions;
        DisplayQuestion(choicePicks);
      } else {
        ShowResults();
      }
    }

    /** handleQuizAnswer: with no choice selected only the prompt appears.
        Otherwise the score goes up by one exactly when the selected value is
        the current question's answer, the feedback says which, and the button
        is disabled until the delayed advance runs. */
    method SubmitAnswer(selected: Option<string>)
      requires Valid() && screen == QuizScreen && !flashcard && page.nextEnabled
      modifies this`score, this`page, this`answered
      ensures Valid()
      ensures selected.None? ==> page == old(page).(feedback := SelectPrompt)
      ensures selected.None? ==> score == old(score) && answered == old(answered)
      ensures selected.Some? ==> answered == old(answered) + 1
      ensures selected.Some? && selected.value == questions[index].answer ==>
        score == old(score) + 1 && page == old(page).(feedback := CorrectFeedback, nextEnabled := false)
      ensures selected.Some? && selected.value != questions[index].answer ==>
        score == old(score) && page == old(page).(feedback := IncorrectFeedback, nextEnabled := false)
    {
      if selected.None? {
        page := page.(feedback := SelectPrompt);
        return;
      }
      var isCorrect := selected.value == questions[index].answer;
      if isCorrect {
        score := score + 1;
        page := page.(feedback := CorrectFeedback);
      } else {
        page := page.(feedback := IncorrectFeedback);
      }
      page := page.(nextEnabled := false);
      answered := answered + 1;
    }

    /** The callback that runs two seconds after an answer was recorded. By
        then every question up to the new position has been answered, so a
        quiz that reaches the results this way has answered them all. */
    method FeedbackDelayElapsed(choicePicks: seq<nat>)
      requires Valid() && screen == QuizScreen && !flashcard && !page.nextEnabled
      requires ValidPicks(choicePicks) && ChoicesFit(questions, choicePicks)
      modifies this`index, this`page, this`timerRunning, this`screen
      ensures Valid()
      ensures index == old(index) + 1 && answered == index
      ensures index < |questions| ==> screen == QuizScreen && Shows(index, choicePicks)
      ensures index < |questions| ==> timerRunning == old(timerRunning)
      ensures index < |questions| ==> KeepsRest(old(page), page, false)
      ensures index == |questions| ==> screen == ResultsScreen && !timerRunning
      ensures index == |questions| ==>
        page == old(page).(heading := Results.QuizHeading,
                           scoreLine := Results.ScoreText(false, score, |questions|))
    {
      Advance(choicePicks);
    }

    /** handleFlashcard: "Reveal Answer" shows the answer and turns the button
        into "Next Card" without moving; "Next Card" advances. */
    method FlipCard(choicePicks: seq<nat>)
      requires Valid() && screen == QuizScreen && flashcard
      requires ValidPicks(choicePicks) && ChoicesFit(questions, choicePicks)
      modifies this`index, this`page, this`timerRunning, this`screen
      ensures Valid()
      ensures old(page.toggle) == RevealAnswer ==>
        index == old(index) && screen == QuizScreen &&
        page == old(page).(feedback := "Answer: " + questions[index].answer, toggle := NextCard)
      ensures old(page.toggle) == NextCard ==> index == old(index) + 1
      ensures old(page.toggle) == NextCard && index < |questions| ==>
        screen == QuizScreen && Shows(index, choicePicks) && KeepsRest(old(page), page, true)
      ensures old(page.toggle) == NextCard && index == |questions| ==>
        screen == ResultsScreen &&
        page == old(page).(heading := Results.StudyHeading,
                           scoreLine := Results.ScoreText(true, score, |questions|))
      ensures !timerRunning
    {
      if page.toggle == RevealAnswer {
        page := page.(feedback := "Answer: " + questions[index].answer, toggle := NextCard);
      } else {
        Advance(choicePicks);
      }
    }

    /** The next button's click listener. A disabled button fires no click;
        otherwise the mode decides which handler runs. */
    method PressNext(selected: Option<string>, choicePicks: seq<nat>)
      requires Valid() && screen == QuizScreen
      requires ValidPicks(choicePicks) && ChoicesFit(questions, choicePicks)
      modifies this`index, this`score, this`page, this`answered, this`timerRunning, this`screen
      ensures Valid()
      ensures !old(page.nextEnabled) ==> unchanged(this)
      ensures questions == old(questions) && flashcard == old(flashcard)
      ensures old(page.nextEnabled) && !flashcard ==>
        screen == QuizScreen && timerRunning == old(timerRunning)
      ensures index == old(index) || index == old(index) + 1
      ensures score == old(score) || score == old(score) + 1
      ensures old(page.nextEnabled) && !flashcard && selected.None? ==>
        index == old(index) && score == old(score) && page == old(page).(feedback := SelectPrompt)
      ensures old(page.nextEnabled) && !flashcard && selected.Some? ==>
        index == old(index) && screen == QuizScreen &&
        score == old(score) + (if selected.value == questions[index].answer then 1 else 0) &&
        page == old(page).(feedback := if selected.value == questions[index].answer
                                        then CorrectFeedback else IncorrectFeedback,
                           nextEnabled := false)
      ensures old(page.nextEnabled) && flashcard && old(page.toggle) == RevealAnswer ==>
        index == old(index) && screen == QuizScreen &&
        page == old(page).(feedback := "Answer: " + questions[index].answer, toggle := NextCard)
      ensures old(page.nextEnabled) && flashcard && old(page.toggle) == NextCard ==>
        index == old(index) + 1 && score == old(score)
      ensures old(page.nextEnabled) && flashcard && old(page.toggle) == NextCard && index < |questions| ==>
        screen == QuizScreen && Shows(index, choicePicks) && KeepsRest(old(page), page, true)
      ensures old(page.nextEnabled) && flashcard && old(page.toggle) == NextCard && index == |questions| ==>
        screen == ResultsScreen &&
        page == old(page).(heading := Results.StudyHeading,
                           scoreLine := Results.ScoreText(true, score, |questions|))
    {
      if !page.nextEnabled {
        return;
      }
      if flashcard {
        FlipCard(choicePicks);
      } else {
        SubmitAnswer(selected);
      }
    }

    /** One tick of the quiz countdown: show the time left as m:ss, take a
        second off, and end the quiz with the score so far once the time left
        is below zero. A stopped timer does not tick. */
    method Tick()
      requires Valid()
      modifies this`timeLeft, this`timerRunning, this`screen, this`page
      ensures Valid()
      ensures !old(timerRunning) ==> unchanged(this)
      ensures old(timerRunning) ==>
        Countdown.Timer(timeLeft, timerRunning) == Countdown.Step(Countdown.Timer(old(timeLeft), true))
      ensures old(timerRunning) && timerRunning ==>
        screen == QuizScreen && page == old(page).(timer := "Time: " + Countdown.ClockText(old(timeLeft)))
      ensures old(timerRunning) && !timerRunning ==>
        screen == ResultsScreen &&
        page == old(page).(timer := "Time: " + Countdown.ClockText(old(timeLeft)),
                           heading := Results.QuizHeading,
                           scoreLine := Results.ScoreText(false, score, |questions|))
    {
      if !timerRunning {
        return;
      }
      page := page.(timer := "Time: " + Countdown.ClockText(timeLeft));
      timeLeft := timeLeft - 1;
      if timeLeft < 0 {
        ShowResults();
      }
    }
  }
}
