# Quiz and flashcard session of the NYPD exam practice page

The page script `static/script.js` runs a practice session over questions
fetched for one exam section. The user picks a section and a session size and
starts either a timed quiz or an untimed flashcard run. The script shuffles the
fetched questions with an in-place Fisher–Yates shuffle and keeps the
requested number of them. It then shows one question at a time, with its
answer choices shuffled the same way. In a quiz, each submitted answer is
scored and the page moves on after a two-second delay. A flashcard first
reveals the answer and then moves on. A one-second countdown ends the quiz
when the time runs out. The results screen shows a heading and a score line.

This project models that core in Dafny:

- `Shuffle` (`shuffle.dfy`): the Fisher–Yates shuffle.
  - `ShuffleArray` works in place on an `array` with a `while` loop.
  - Its result is specified by the function `Shuffled`.
  - The random index `Math.floor(Math.random() * (i + 1))` becomes `picks[i]`, which the caller supplies with `picks[i] <= i`.
  - Proved: every outcome is a permutation, every permutation is reached by some picks, and on distinct elements different picks give different orders. Together these give the counting argument behind the shuffle's uniformity.
- `SizeOptions` (`size_options.dfy`): the loop that fills the session-size selector (multiples of five, then the count itself).
- `SectionName` (`section_name.dfy`): the display name of a section key. Each underscore becomes a space, and each `\b\w` is upper-cased.
- `Countdown` (`countdown.dfy`): one tick of the quiz timer and the `m:ss` text it shows. It follows JavaScript's `%`, which truncates toward zero, and `Math.floor`.
- `Results` (`results.dfy`): the heading and the score line of the results screen.
- `Decimal` (`decimal.dfy`): the decimal text that a template literal gives a number, and reading it back.
- `Session` (`session.dfy`): the session controller, as the class `QuizSession`.
  - The script's variables are fields of the class: the question list, position, score and mode, plus the visible screen and the timer.
  - `page` is a value holding the texts the script writes into the page's elements.
  - The start button, the next button, the feedback delay's callback and the timer's interval callback are methods.
  - `Start`, `Begin`, `ShowFirst`, `Advance`, `SubmitAnswer`, `FeedbackDelayElapsed`, `FlipCard`, `PressNext` and `Tick` keep the invariant `Valid()` (the constructor establishes it):
    - on the quiz screen the position is a valid index;
    - the listed choices are the current question's choices;
    - the score never exceeds the answers given, which never exceed the number of questions;
    - a quiz has recorded one answer per question before the current one;
    - only a running quiz has a timer.

## Model

| member | source | states |
|---|---|---|
| Shuffle.ShuffleArray | static/script.js:230-236 | shuffles the array in place and returns the same array; its contents become `Shuffled` of the old contents, a permutation of them |
| Shuffle.ShuffledIsPermutation | static/script.js:230-236 | for every length and every valid choice of swap indices, the shuffle keeps the length and the multiset of elements |
| Shuffle.EveryPermutationReachable | static/script.js:230-236 | every permutation of the input is the result for some swap indices with `picks[i] <= i` |
| Shuffle.ShuffledIsInjective | static/script.js:230-236 | on distinct elements, two choices of swap indices that give the same order agree on every index used; with the previous row, index choices and permutations correspond one to one |
| Shuffle.ShuffledUsesPrefix | static/script.js:231-233 | only the swap indices below the array's length affect the result |
| SizeOptions.SizeOptions | static/script.js:57-66 | the option loop gives exactly `OfferedSizes(count)`: `[0]` for a count that is not positive, else 5, 10, … up to the count, followed by the count when it is not a multiple of five or is below five |
| SizeOptions.OfferedSizesShape | static/script.js:57-63 | for a positive count the options are non-empty, strictly ascending, lie in 1..count and end with the count; a size is offered exactly when it is the count or a multiple of five not above it |
| SectionName.DisplayName | static/script.js:47 | same length as the key; an underscore becomes a space; a letter or digit at the start, or after a character that is not a letter or digit, is upper-cased; every other character is kept |
| SectionName.DisplayNameIdempotent | static/script.js:47 | applying the display-name conversion to a display name changes nothing |
| Countdown.JsSeconds | static/script.js:144 | `t % 60` lies strictly between -60 and 60, differs from t by whole minutes, and takes the sign of t |
| Countdown.ClockTextReadsBack | static/script.js:143-146 | for a non-negative time left, the text is minutes, a colon and exactly two digits; they read back as `t / 60` and `t % 60`, and `60 * minutes + seconds` is the time left |
| Countdown.ClockTextBelowZero | static/script.js:143-146 | a negative time left shows negative minutes: whole minutes as "-m:00", otherwise one minute more and the seconds as "0-" and their magnitude (-5 reads "-1:0-5") |
| Countdown.Step | static/script.js:147-150 | a tick never leaves a running countdown below zero, never restarts a stopped one, and never adds time |
| Countdown.EndsOnTick | static/script.js:140-150 | a countdown of d >= 0 seconds is still running after tick d and stops on tick d + 1 (a negative d stops on the first tick); each tick before the stop takes one second off |
| Results.QuizScoreTextDetermines | static/script.js:223-224 | two quiz score lines are equal only when the score and the total are |
| Results.StudyTextDetermines | static/script.js:219-220 | two flashcard summaries are equal only when the card counts are |
| Results.ModesReadDifferently | static/script.js:218-226 | the two headings differ, and a flashcard summary never equals a quiz score line |
| Decimal.NatToStringRoundTrip | static/script.js:224 | the decimal text of a number reads back as that number and has no leading zero |
| Decimal.NatToStringInjective | static/script.js:224 | different numbers are written differently |
| Session.SliceEnd | static/script.js:79 | the end index of `slice(0, num)` never exceeds the length; a count that fits is kept exactly, a larger one keeps everything, and a negative one (counted from the end) drops at least one element of a non-empty list |
| Session.CounterTextDetermines | static/script.js:115 | the counter "Question k+1 of n" gives back the position and the number of questions: two counters are equal only when both are |
| Session.OfferedSizeIsKept | static/script.js:77-79 | a size taken from the offered options keeps exactly that many questions when the section has the advertised count; the flashcard size keeps all of them |
| Session.ShuffleChoices | static/script.js:121 | the choices are listed in the order `Shuffled` gives, a permutation of the question's choices |
| Session.PrefixOfPermutationFits | static/script.js:79 | the questions kept after the shuffle and slice are a sub-multiset of the fetched ones (each one fetched, none more often than fetched), so every kept question's choices still fit the swap indices |
| Session.QuizSession.constructor | static/script.js:26-31 | the page starts on the setup screen with no questions, position and score 0, quiz mode, no timer and a blank page; the invariant holds |
| Session.QuizSession.DisplayQuestion | static/script.js:109-137 | the page shows the current question: counter "Question k+1 of n", question, passage and whether it is displayed, the shuffled choices, cleared feedback, enabled button, "Reveal Answer" in flashcard mode; nothing else changes |
| Session.QuizSession.ShowResults | static/script.js:213-228 | the timer stops, the results screen is shown, and the heading and score line are those of the mode, the score and the number of questions |
| Session.QuizSession.Start | static/script.js:70-103 | the fetched questions are shuffled in place and the session keeps the first `slice(0, num)` of them; position and score reset; an empty list raises the alert and leaves screen and page as they were; otherwise the first question is shown, the timer text, heading and score line are kept (and the button label in quiz mode), and a quiz's timer runs `minutes * 60` seconds |
| Session.QuizSession.Begin | static/script.js:80-103 | with the chosen list: position and score reset; an empty list raises the "No questions available" alert without leaving the current screen; otherwise quiz screen, first question shown with timer text, heading and score line kept (and the button label in quiz mode), timer running exactly in quiz mode |
| Session.QuizSession.ShowFirst | static/script.js:88-102 | the quiz screen shows question 0, keeping timer text, heading, score line and, in quiz mode, the button label; the countdown runs with `minutes * 60` seconds exactly in quiz mode; the invariant holds |
| Session.QuizSession.StartTimer | static/script.js:139-142 | the countdown restarts at the given duration and runs |
| Session.QuizSession.Advance | static/script.js:180-185 | the position moves up by one; the next question is shown while one is left, with the timer state, timer text, heading, score line and quiz-mode button label kept; otherwise the results screen with a stopped timer, where only the heading and score line of the page change |
| Session.QuizSession.SubmitAnswer | static/script.js:154-178 | with nothing selected only the prompt "Please select an answer." appears; otherwise the score rises by one exactly when the selection is the answer, the feedback says "Correct!" or "Incorrect. …", the button is disabled, the rest of the page is unchanged and one more answer is recorded |
| Session.QuizSession.FeedbackDelayElapsed | static/script.js:179-186 | the position moves up by one and every question up to it has been answered; while a question is left it is shown with the timer state, timer text, heading, score line and button label kept; otherwise the results screen with a stopped timer, where only the heading becomes "Quiz Complete!" and the score line "Your final score is: s out of n" |
| Session.QuizSession.FlipCard | static/script.js:189-203 | "Reveal Answer" writes "Answer: " and the answer, turns the button into "Next Card" and stays put; "Next Card" advances to the next card, keeping timer text, heading and score line, or to the study summary, where only the heading becomes "Study Session Complete!" and the score line "You reviewed n cards."; no timer runs |
| Session.QuizSession.PressNext | static/script.js:205-211 | a disabled button changes nothing; in a quiz, no selection only writes the prompt, and a selection keeps the position, adds one to the score exactly when it is the answer, writes "Correct!" or "Incorrect. …" and disables the button; in flashcard mode "Reveal Answer" writes the answer and turns into "Next Card" without moving, and "Next Card" moves one card on to the next card (rest of the page kept) or to the study summary; a quiz press keeps the quiz screen, the timer state and the time left; position and score each rise by at most one and the invariant holds |
| Session.QuizSession.Tick | static/script.js:142-151 | a running countdown writes "Time: " and the m:ss text of the time left, then follows `Countdown.Step`; once the time left is below zero it moves to the results screen with the quiz heading and score line; nothing else on the page changes; a stopped timer changes nothing |

## Left out

- The DOM itself is not modelled:
  - the CSS classes `correct` and `incorrect`, and the highlighting of the correct radio button;
  - the hidden and visible toggling, beyond the one `screen` value;
  - the timer element's display style;
  - the "Submit Answer" label in quiz mode;
  - the radio inputs, whose selected value is a parameter.
- `fetch` of `/api/sections` and `/api/questions`, and the JSON parsing, are not modelled. The fetched question list is a parameter, and the async ordering of the start handler is not modelled.
- `app.py` and `setup_database.py` are not part of this model.
- `setInterval` and `setTimeout` are not modelled. A tick and the end of the two-second delay are method calls made by the environment. Wall-clock time is not modelled.
- Session.QuizSession.FeedbackDelayElapsed: requires the quiz screen. The model leaves out a delayed advance that is still pending after the countdown has already shown the results.
- `Math.random` is replaced by caller-supplied swap indices. Uniformity of the distribution is not stated as a probability; only the one-to-one correspondence is proved.
- `isFlashcardMode` is a parameter. The script computes it by looking for "Flashcard" in the page title.
- The flashcard button's label becomes the `Toggle` value. The script compares the label text instead.
- `parseInt` of the size and time inputs is not modelled. Both are integer parameters, so a `NaN` input is not modelled.
- The percentage line (`toFixed(2)`, floating point) is not modelled.
- Numbers are unbounded integers in `Decimal`, `Countdown`, `Results` and the counter text. JavaScript numbers are doubles: above 2^53 they lose precision, and from 1e21 on a template literal writes them in exponent notation. A session never comes near either bound.
- The loop that fills the section selector is not modelled beyond `DisplayName` of each key, and neither is the `change` event it dispatches.
- Session.ShuffleChoices: shuffles a copy of the choices and keeps the order in `page.choices`. The script shuffles the fetched question's own `choices` array in place. Each question is shown once per session, so nothing in the session reads that array again.
- The `q.passage || ''` fallback for a missing passage: the model's `Question` holds "" for a missing passage.
- `Start` and `Begin` require that the quiz screen is not showing. The start button sits on the setup screen.
