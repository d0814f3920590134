/** The texts showResults puts on the results screen. */
module Results {
  import opened Decimal

  const QuizHeading := "Quiz Complete!"
  const StudyHeading := "Study Session Complete!"
  const QuizPrefix := "Your final score is: "
  const OutOf := " out of "
  const StudyPrefix := "You reviewed "
  const CardsSuffix := " cards."

  function Heading(flashcard: bool): string {
    if flashcard then StudyHeading else QuizHeading
  }

  /** The score line: score out of total for a quiz, the number of cards for a
      flashcard session (which has no score). */
  function ScoreText(flashcard: bool, score: nat, total: nat): string {
    if flashcard then StudyPrefix + NatToString(total) + CardsSuffix
    else QuizPrefix + NatToString(score) + OutOf + NatToString(total)
  }

  /** A quiz score line gives back the score and the total it was written from. */
  lemma {:induction false} QuizScoreTextDetermines(score1: nat, total1: nat, score2: nat, total2: nat)
    requires ScoreText(false, score1, total1) == ScoreText(false, score2, total2)
    ensures score1 == score2 && total1 == total2
  {
    var a, b := NatToString(score1), NatToString(total1);
    var c, d := NatToString(score2), NatToString(total2);
    var p := |QuizPrefix|;
    assert ScoreText(false, score1, total1)[p..] == a + OutOf + b;
    assert ScoreText(false, score2, total2)[p..] == c + OutOf + d;
    SplitAtSeparator(a, b, c, d, OutOf);
    NatToStringInjective(score1, score2);
    NatToStringInjective(total1, total2);
  }

  /** A flashcard summary gives back the number of cards reviewed. */
  lemma {:induction false} StudyTextDetermines(score1: nat, total1: nat, score2: nat, total2: nat)
    requires ScoreText(true, score1, total1) == ScoreText(true, score2, total2)
    ensures total1 == total2
  {
    var a, c := NatToString(total1), NatToString(total2);
    var p := |StudyPrefix|;
    assert ScoreText(true, score1, total1)[p..] == a + CardsSuffix + "";
    assert ScoreText(true, score2, total2)[p..] == c + CardsSuffix + "";
    SplitAtSeparator(a, "", c, "", CardsSuffix);
    NatToStringInjective(total1, total2);
  }

  /** The two modes never produce the same heading or the same score line. */
  lemma ModesReadDifferently(score1: nat, total1: nat, score2: nat, total2: nat)
    ensures Heading(true) != Heading(false)
    ensures ScoreText(true, score1, total1) != ScoreText(false, score2, total2)
  {
    assert ScoreText(true, score1, total1)[3] == ' ';
    assert ScoreText(false, score2, total2)[3] == 'r';
  }
}
