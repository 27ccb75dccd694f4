/** Recording a submission in a player's sparse `answers` array, and the
    4-slot answer distribution of `showQuestionResults`. */
module Answers {
  import opened Types
  import opened Scoring

  /** Reading `answers[k]` in JavaScript: a hole or a slot past the end is
      `undefined` (`None`). */
  function Slot(xs: seq<Option<Answer>>, k: int): Option<Answer>
  {
    if 0 <= k < |xs| then xs[k] else None
  }

  /** `n` holes. */
  function Holes(n: nat): (hs: seq<Option<Answer>>)
    ensures |hs| == n && forall k :: 0 <= k < n ==> hs[k].None?
  {
    seq(n, _ => None)
  }

  /** `answers[idx] = a`: writing past the end lengthens the array and
      leaves holes in between. */
  function SetAt(xs: seq<Option<Answer>>, idx: nat, a: Answer): (ys: seq<Option<Answer>>)
    ensures |ys| == if idx < |xs| then |xs| else idx + 1
    ensures Slot(ys, idx) == Some(a)
    ensures forall k :: k != idx ==> Slot(ys, k) == Slot(xs, k)
  {
    if idx < |xs| then xs[idx := Some(a)]
    else xs + Holes(idx - |xs|) + [Some(a)]
  }

  /** The record `submitAnswer` builds for `answerIndex`, submitted `elapsed`
      ms after question `q` started: correct exactly when the index equals
      the question's `correctAnswerIndex` (strict equality, no range check). */
  function Grade(q: Question, limit: int, answerIndex: int, elapsed: int): (a: Answer)
    ensures a.answerIndex == answerIndex && a.submissionTime == elapsed
    ensures a.isCorrect <==> answerIndex == q.correctAnswerIndex
    ensures a.points == Points(a.isCorrect, limit, elapsed)
  {
    var isCorrect := answerIndex == q.correctAnswerIndex;
    Answer(answerIndex, isCorrect, Points(isCorrect, limit, elapsed), elapsed)
  }

  /** `player.answers[idx] = a; player.score += a.points`: the slot holds the
      latest submission, the other slots are untouched, and the score grows
      by exactly this submission's points, whatever the slot held before. */
  function RecordAnswer(p: Player, idx: nat, a: Answer): (q: Player)
    ensures q.id == p.id && q.username == p.username && q.isAdmin == p.isAdmin
    ensures q.score == p.score + a.points
    ensures Slot(q.answers, idx) == Some(a)
    ensures forall k :: k != idx ==> Slot(q.answers, k) == Slot(p.answers, k)
  {
    p.(score := p.score + a.points, answers := SetAt(p.answers, idx, a))
  }

  /** A second submission to the same question replaces the recorded answer
      but its points are added to the score on top of the first one's. */
  lemma ResubmissionCountsTwice(p: Player, idx: nat, first: Answer, second: Answer)
    ensures var q := RecordAnswer(RecordAnswer(p, idx, first), idx, second);
            Slot(q.answers, idx) == Some(second) && q.score == p.score + first.points + second.points
  {
  }

  /** Every recorded answer was graded against its own question. */
  ghost predicate Graded(p: Player, questions: seq<Question>, limit: int)
  {
    forall k :: 0 <= k < |p.answers| && p.answers[k].Some? ==>
      k < |questions| &&
      p.answers[k].value == Grade(questions[k], limit, p.answers[k].value.answerIndex,
                                  p.answers[k].value.submissionTime)
  }

  /** The points of the answers still recorded. */
  function RecordedPoints(xs: seq<Option<Answer>>): int
  {
    if xs == [] then 0
    else (if xs[0].Some? then xs[0].value.points else 0) + RecordedPoints(xs[1..])
  }

  lemma {:induction false} RecordedPointsAppend(xs: seq<Option<Answer>>, ys: seq<Option<Answer>>)
    ensures RecordedPoints(xs + ys) == RecordedPoints(xs) + RecordedPoints(ys)
  {
    if xs != [] {
      assert (xs + ys)[1..] == xs[1..] + ys;
      RecordedPointsAppend(xs[1..], ys);
    } else {
      assert xs + ys == ys;
    }
  }

  lemma {:induction false} RecordedPointsHoles(n: nat)
    ensures RecordedPoints(Holes(n)) == 0
  {
    if n > 0 {
      assert Holes(n)[1..] == Holes(n - 1);
      RecordedPointsHoles(n - 1);
    }
  }

  /** Overwriting slot `idx` trades the points recorded there for `a.points`. */
  lemma RecordedPointsSetAt(xs: seq<Option<Answer>>, idx: nat, a: Answer)
    ensures RecordedPoints(SetAt(xs, idx, a)) ==
            RecordedPoints(xs) - (if Slot(xs, idx).Some? then Slot(xs, idx).value.points else 0) + a.points
  {
    if idx < |xs| {
      assert xs == xs[..idx] + [xs[idx]] + xs[idx + 1..];
      assert SetAt(xs, idx, a) == xs[..idx] + [Some(a)] + xs[idx + 1..];
      RecordedPointsAppend(xs[..idx] + [xs[idx]], xs[idx + 1..]);
      RecordedPointsAppend(xs[..idx], [xs[idx]]);
      RecordedPointsAppend(xs[..idx] + [Some(a)], xs[idx + 1..]);
      RecordedPointsAppend(xs[..idx], [Some(a)]);
    } else {
      RecordedPointsAppend(xs + Holes(idx - |xs|), [Some(a)]);
      RecordedPointsAppend(xs, Holes(idx - |xs|));
      RecordedPointsHoles(idx - |xs|);
    }
  }

  /** A score never falls below the points of the answers still recorded:
      recording a graded answer keeps this, and the score can only exceed
      the recorded points through resubmission. */
  lemma RecordKeepsScoreCovered(p: Player, questions: seq<Question>, limit: int,
                                idx: nat, answerIndex: int, elapsed: int)
    requires idx < |questions|
    requires Graded(p, questions, limit) && p.score >= RecordedPoints(p.answers)
    ensures var q := RecordAnswer(p, idx, Grade(questions[idx], limit, answerIndex, elapsed));
            Graded(q, questions, limit) && q.score >= RecordedPoints(q.answers)
  {
    var a := Grade(questions[idx], limit, answerIndex, elapsed);
    var q := RecordAnswer(p, idx, a);
    RecordedPointsSetAt(p.answers, idx, a);
    forall k | 0 <= k < |q.answers| && q.answers[k].Some?
      ensures k < |questions|
      ensures q.answers[k].value == Grade(questions[k], limit, q.answers[k].value.answerIndex,
                                          q.answers[k].value.submissionTime)
    {
      assert Slot(q.answers, k) == q.answers[k];
      if k != idx {
        assert Slot(p.answers, k) == q.answers[k];
      }
    }
  }

  /** `playerAnswers.get(socketId)`: the choice recorded for question `idx`,
      or none when the slot is `undefined`. */
  function RecordedChoice(p: Player, idx: int): Option<int>
  {
    match Slot(p.answers, idx)
    case Some(a) => Some(a.answerIndex)
    case None => None
  }

  /** How many of `ps` recorded choice `k` for question `idx`. */
  function Count(ps: seq<Player>, idx: int, k: int): (n: nat)
    ensures n <= |ps|
  {
    if ps == [] then 0
    else Count(ps[..|ps| - 1], idx, k) + (if RecordedChoice(ps[|ps| - 1], idx) == Some(k) then 1 else 0)
  }

  /** The final `answerStats = [0, 0, 0, 0]` after every player's recorded
      choice incremented its slot; a choice outside 0..3 lands in no slot. */
  function Distribution(ps: seq<Player>, idx: int): (d: seq<int>)
    ensures |d| == 4
    ensures forall k :: 0 <= k < 4 ==> 0 <= d[k] <= |ps|
  {
    [Count(ps, idx, 0), Count(ps, idx, 1), Count(ps, idx, 2), Count(ps, idx, 3)]
  }

  /** How many of `ps` have an answer recorded for question `idx`, and how
      many of those chose a slot in 0..3. */
  function Answered(ps: seq<Player>, idx: int): (n: nat)
    ensures n <= |ps|
  {
    if ps == [] then 0
    else Answered(ps[..|ps| - 1], idx) + (if RecordedChoice(ps[|ps| - 1], idx).Some? then 1 else 0)
  }

  function AnsweredInSlots(ps: seq<Player>, idx: int): (n: nat)
    ensures n <= |ps|
  {
    if ps == [] then 0
    else AnsweredInSlots(ps[..|ps| - 1], idx)
         + (match RecordedChoice(ps[|ps| - 1], idx)
            case Some(c) => if 0 <= c < 4 then 1 else 0
            case None => 0)
  }

  /** The four counts add up to the players whose recorded choice is a real
      slot; when every recorded choice is in 0..3 (a well-behaved client)
      that is every player who answered the question. */
  lemma {:induction false} DistributionSum(ps: seq<Player>, idx: int)
    ensures var d := Distribution(ps, idx); d[0] + d[1] + d[2] + d[3] == AnsweredInSlots(ps, idx)
    ensures AnsweredInSlots(ps, idx) <= Answered(ps, idx)
    ensures (forall i :: 0 <= i < |ps| && RecordedChoice(ps[i], idx).Some? ==>
               0 <= RecordedChoice(ps[i], idx).value < 4)
            ==> AnsweredInSlots(ps, idx) == Answered(ps, idx)
  {
    if ps != [] {
      var init := ps[..|ps| - 1];
      DistributionSum(init, idx);
      assert forall i :: 0 <= i < |init| ==> init[i] == ps[i];
    }
  }
}
