/** The question cursor and game state of a session, and the transitions the
    socket handlers and deadline timers apply to them. */
module Phase {
  import opened Types

  /** `currentQuestionIndex`, `gameState` and `questionStartTime` (null is `None`). */
  datatype Phase = Phase(index: int, state: GameState, startTime: Option<int>)

  /** What these three fields satisfy in a session of `n` questions: the
      cursor stays in -1..n-1; it is -1 exactly while waiting, which is also
      exactly when no question has started; the game ends on the last question. */
  ghost predicate Consistent(ph: Phase, n: int)
  {
    && -1 <= ph.index < n
    && (ph.state == Waiting <==> ph.index == -1)
    && (ph.index == -1 <==> ph.startTime.None?)
    && (ph.state == Ended ==> ph.index == n - 1)
  }

  /** The fields of a new `GameSession`. */
  function Initial(): (ph: Phase)
    ensures forall n :: n > 0 ==> Consistent(ph, n)
  {
    Phase(-1, Waiting, None)
  }

  /** `start-game` after its guards: question 0 opens at `now`. */
  function Start(ph: Phase, n: int, now: int): (ph': Phase)
    requires Consistent(ph, n) && ph.state == Waiting && n > 0
    ensures Consistent(ph', n)
    ensures ph'.index == ph.index + 1 && ph'.state == InQuestion
    ensures ph'.startTime == Some(now)
  {
    Phase(0, InQuestion, Some(now))
  }

  /** `next-question` after its admin check, with no check of the state:
      the next question opens while there is one, otherwise the game ends.
      From waiting it starts the game, from a running question it skips the
      results, and once ended it ends again. */
  function Advance(ph: Phase, n: int, now: int): (ph': Phase)
    requires Consistent(ph, n) && n > 0
    ensures Consistent(ph', n)
    ensures ph'.index >= ph.index
    ensures ph.index < n - 1 ==> ph'.index == ph.index + 1 && ph'.state == InQuestion && ph'.startTime == Some(now)
    ensures ph.index == n - 1 ==> ph' == ph.(state := Ended)
  {
    if ph.index < n - 1 then Phase(ph.index + 1, InQuestion, Some(now))
    else ph.(state := Ended)
  }

  /** `showQuestionResults` on a started question: only the state changes. */
  function CloseQuestion(ph: Phase, n: int): (ph': Phase)
    requires Consistent(ph, n) && ph.state != Waiting
    ensures Consistent(ph', n)
    ensures ph'.index == ph.index && ph'.state == ShowingResults
    ensures ph' == ph.(state := ShowingResults)
  {
    ph.(state := ShowingResults)
  }

  /** The guard of a deadline timer. The one set by `start-game` checks the
      state and that the cursor is still 0; the one set by `next-question`
      compares the cursor with itself, so only the state counts and a stale
      timer closes whatever question is open when it fires. */
  predicate TimerGuard(ph: Phase, firstQuestion: bool)
  {
    ph.state == InQuestion && (firstQuestion ==> ph.index == 0)
  }

  /** A timer that fires after its question was closed or the game ended
      does nothing: it cannot close a question twice. */
  lemma TimerAfterCloseIsNoOp(ph: Phase, n: int, firstQuestion: bool)
    requires Consistent(ph, n) && ph.state != Waiting
    ensures !TimerGuard(CloseQuestion(ph, n), firstQuestion)
    ensures !TimerGuard(ph.(state := Ended), firstQuestion)
  {
  }

  /** A timer carries no question number: a `next-question` timer closes
      whatever question is open when it fires, even one opened after it was
      set, while a `start-game` timer does nothing once the cursor is past 0. */
  lemma StaleTimerClosesLaterQuestion(ph: Phase, n: int)
    requires Consistent(ph, n) && ph.state == InQuestion && ph.index > 0
    ensures TimerGuard(ph, false) && !TimerGuard(ph, true)
  {
  }

  /** The phase after the admin presses next once per timestamp in `times`. */
  function AdvanceAll(ph: Phase, n: int, times: seq<int>): (ph': Phase)
    requires Consistent(ph, n) && n > 0
    ensures Consistent(ph', n)
    decreases |times|
  {
    if times == [] then ph else AdvanceAll(Advance(ph, n, times[0]), n, times[1..])
  }

  /** Pressing next k times from cursor i moves the cursor to min(i + k, n - 1):
      the game ends after the press made on the last question, and is on a
      question after a press made before it. */
  lemma {:induction false} AdvanceAllMoves(ph: Phase, n: int, times: seq<int>)
    requires Consistent(ph, n) && n > 0
    ensures var ph' := AdvanceAll(ph, n, times);
            && ph'.index == (if ph.index + |times| < n - 1 then ph.index + |times| else n - 1)
            && (ph.index + |times| >= n ==> ph'.state == Ended)
            && (0 < |times| && ph.index + |times| < n ==> ph'.state == InQuestion)
    decreases |times|
  {
    if times != [] {
      AdvanceAllMoves(Advance(ph, n, times[0]), n, times[1..]);
    }
  }
}
