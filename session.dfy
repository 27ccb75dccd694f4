/** The `GameSession` class: one quiz session whose fields are updated in
    place by its own methods and by the socket handlers. */
module Session {
  import opened Types
  import opened Scoring
  import Roster
  import Answers
  import Phase
  import Leaderboard

  /** What each player record satisfies while the cursor is at `index`: no
      answer beyond the questions opened so far, every recorded answer graded
      against its question, and a score at least the recorded points. */
  ghost predicate InGoodStanding(p: Player, questions: seq<Question>, limit: int, index: int)
  {
    && |p.answers| <= index + 1
    && Answers.Graded(p, questions, limit)
    && p.score >= Answers.RecordedPoints(p.answers)
  }

  ghost predicate AllInGoodStanding(players: map<SocketId, Player>, questions: seq<Question>, limit: int, index: int)
  {
    forall s {:trigger InGoodStanding(players[s], questions, limit, index)} ::
      s in players ==> InGoodStanding(players[s], questions, limit, index)
  }

  lemma UpdateKeepsStanding(players: map<SocketId, Player>, socketId: SocketId, p: Player,
                          questions: seq<Question>, limit: int, index: int)
    requires AllInGoodStanding(players, questions, limit, index)
    requires InGoodStanding(p, questions, limit, index)
    ensures AllInGoodStanding(players[socketId := p], questions, limit, index)
  {
  }

  lemma RemoveKeepsStanding(before: map<SocketId, Player>, after: map<SocketId, Player>,
                            questions: seq<Question>, limit: int, index: int)
    requires AllInGoodStanding(before, questions, limit, index)
    requires forall s :: s in after ==>
               s in before && (after[s] == before[s] || after[s] == before[s].(isAdmin := true))
    ensures AllInGoodStanding(after, questions, limit, index)
  {
    forall s | s in after ensures InGoodStanding(after[s], questions, limit, index) {
      assert InGoodStanding(before[s], questions, limit, index);
    }
  }

  /** A new record, with no answers, joins in good standing. */
  lemma AddedKeepStanding(r: Roster.Roster, socketId: SocketId, username: string, isAdmin: bool,
                          questions: seq<Question>, limit: int, index: int)
    requires Roster.WellFormed(r) && AllInGoodStanding(r.players, questions, limit, index) && index >= -1
    ensures AllInGoodStanding(Roster.AddPlayer(r, socketId, username, isAdmin).players, questions, limit, index)
  {
    var r' := Roster.AddPlayer(r, socketId, username, isAdmin);
    forall s | s in r'.players ensures InGoodStanding(r'.players[s], questions, limit, index) {
      if s != socketId {
        assert InGoodStanding(r.players[s], questions, limit, index);
      }
    }
  }

  /** Removing a player keeps every remaining record in good standing. */
  lemma RemovedKeepStanding(r: Roster.Roster, socketId: SocketId, questions: seq<Question>, limit: int, index: int)
    requires Roster.WellFormed(r) && AllInGoodStanding(r.players, questions, limit, index)
    ensures AllInGoodStanding(Roster.RemovePlayer(r, socketId).players, questions, limit, index)
  {
    Roster.RemovePlayerSpec(r, socketId);
    RemoveKeepsStanding(r.players, Roster.RemovePlayer(r, socketId).players, questions, limit, index);
  }

  /** Moving the cursor forward keeps every record in good standing. */
  lemma {:induction false} StandingAtLaterIndex(players: map<SocketId, Player>, questions: seq<Question>, limit: int,
                                                index: int, later: int)
    requires AllInGoodStanding(players, questions, limit, index) && index <= later
    ensures AllInGoodStanding(players, questions, limit, later)
  {
    forall s | s in players ensures InGoodStanding(players[s], questions, limit, later) {
      assert InGoodStanding(players[s], questions, limit, index);
    }
  }

  class GameSession {
    const id: SessionId
    const topic: string
    const language: string
    /** Assigned once, right after construction, from the question supply. */
    const questions: seq<Question>
    const questionTimeLimit: int

    /** The `players` Map: key iteration order and entries. */
    var order: seq<SocketId>
    var players: map<SocketId, Player>
    var adminId: Option<SocketId>

    var currentQuestionIndex: int
    var gameState: GameState
    var questionStartTime: Option<int>

    function Members(): Roster.Roster
      reads this
    {
      Roster.Roster(order, players, adminId)
    }

    function PhaseOf(): Phase.Phase
      reads this
    {
      Phase.Phase(currentQuestionIndex, gameState, questionStartTime)
    }

    ghost predicate Valid()
      reads this
    {
      && |questions| > 0
      && questionTimeLimit == QuestionTimeLimit
      && Roster.WellFormed(Members())
      && Phase.Consistent(PhaseOf(), |questions|)
      && AllInGoodStanding(players, questions, questionTimeLimit, currentQuestionIndex)
    }

    /** `new GameSession(id, topic, language)` followed by
        `session.questions = quizData.questions`; the quiz must not be empty. */
    constructor (id: SessionId, topic: string, language: string, questions: seq<Question>)
      requires |questions| > 0
      ensures Valid()
      ensures this.id == id && this.topic == topic && this.language == language
      ensures this.questions == questions
      ensures Members() == Roster.Empty() && PhaseOf() == Phase.Initial()
    {
      this.id := id;
      this.topic := topic;
      this.language := language;
      this.questions := questions;
      this.questionTimeLimit := QuestionTimeLimit;
      this.order := [];
      this.players := map[];
      this.adminId := None;
      this.currentQuestionIndex := -1;
      this.gameState := Waiting;
      this.questionStartTime := None;
    }

    /** The players in insertion order, `Array.from(this.players.values())`. */
    function PlayerList(): (ps: seq<Player>)
      reads this
      requires Valid()
      ensures |ps| == |order|
      ensures forall i :: 0 <= i < |ps| ==> ps[i] == players[order[i]]
    {
      Roster.PlayerList(Members())
    }

    method AddPlayer(socketId: SocketId, username: string, isAdmin: bool)
      requires Valid()
      modifies this
      ensures Valid()
      ensures Members() == Roster.AddPlayer(old(Members()), socketId, username, isAdmin)
      ensures PhaseOf() == old(PhaseOf())
    {
      ghost var before := Members();
      AddedKeepStanding(before, socketId, username, isAdmin, questions, questionTimeLimit, currentQuestionIndex);
      if socketId !in players {
        order := order + [socketId];
      }
      players := players[socketId := Player(socketId, username, 0, [], isAdmin)];
      if isAdmin || adminId == None {
        adminId := Some(socketId);
        players := players[socketId := players[socketId].(isAdmin := true)];
        assert players == before.players[socketId := Roster.NewPlayer(socketId, username, true)];
      }
      assert Members() == Roster.AddPlayer(before, socketId, username, isAdmin);
    }

    method RemovePlayer(socketId: SocketId)
      requires Valid()
      modifies this
      ensures Valid()
      ensures Members() == Roster.RemovePlayer(old(Members()), socketId)
      ensures PhaseOf() == old(PhaseOf())
    {
      ghost var before := Members();
      RemovedKeepStanding(before, socketId, questions, questionTimeLimit, currentQuestionIndex);
      var wasAdmin := adminId == Some(socketId);
      players := players - {socketId};
      order := Roster.Without(order, socketId);
      // `players.size` is |order|: every key appears once in `order`
      if wasAdmin && |order| > 0 {
        var newAdminId := order[0];
        adminId := Some(newAdminId);
        players := players[newAdminId := players[newAdminId].(isAdmin := true)];
      } else if |order| == 0 {
        adminId := None;
      }
      assert Members() == Roster.RemovePlayer(before, socketId);
    }

    /** `isAdmin(socketId)`: `adminId` alone decides; only a present player
        can be the admin. */
    function IsAdmin(socketId: SocketId): (b: bool)
      reads this
      requires Valid()
      ensures b ==> socketId in players
      ensures b <==> Roster.IsAdmin(Members(), socketId)
    {
      adminId == Some(socketId)
    }

    /** `submitAnswer`: refused when the socket is not a player or no
        question has started (the state itself is not checked here);
        otherwise the graded answer is stored at the current index and its
        points are added to the score. */
    method SubmitAnswer(socketId: SocketId, answerIndex: int, submissionTime: int) returns (ok: bool)
      requires Valid()
      modifies this
      ensures Valid()
      ensures order == old(order) && adminId == old(adminId) && PhaseOf() == old(PhaseOf())
      ensures ok <==> socketId in old(players) && old(currentQuestionIndex) != -1
      ensures ok ==> players == old(players)[socketId :=
                Answers.RecordAnswer(old(players)[socketId], currentQuestionIndex,
                  Answers.Grade(questions[currentQuestionIndex], questionTimeLimit, answerIndex,
                                submissionTime - old(questionStartTime).value))]
      ensures !ok ==> players == old(players)
    {
      if socketId !in players || currentQuestionIndex == -1 {
        return false;
      }
      var player := players[socketId];
      var currentQuestion := questions[currentQuestionIndex];
      var isCorrect := answerIndex == currentQuestion.correctAnswerIndex;
      var timeElapsed := submissionTime - questionStartTime.value;
      var points := Points(isCorrect, questionTimeLimit, timeElapsed);
      var answer := Answer(answerIndex, isCorrect, points, timeElapsed);
      assert answer == Answers.Grade(currentQuestion, questionTimeLimit, answerIndex, timeElapsed);
      ghost var recorded := Answers.RecordAnswer(player, currentQuestionIndex, answer);
      assert InGoodStanding(player, questions, questionTimeLimit, currentQuestionIndex);
      Answers.RecordKeepsScoreCovered(player, questions, questionTimeLimit, currentQuestionIndex,
                                      answerIndex, timeElapsed);
      player := player.(answers := Answers.SetAt(player.answers, currentQuestionIndex, answer));
      player := player.(score := player.score + points);
      assert player == recorded;
      assert InGoodStanding(player, questions, questionTimeLimit, currentQuestionIndex);
      ghost var before := players;
      players := players[socketId := player];
      UpdateKeepsStanding(before, socketId, player, questions, questionTimeLimit, currentQuestionIndex);
      ok := true;
    }

    /** `getLeaderboard()` over the current players. */
    function GetLeaderboard(): (r: seq<Entry>)
      reads this
      requires Valid()
      ensures |r| == |order|
      ensures forall i :: 0 <= i < |r| ==> r[i].rank == i + 1
      ensures forall i, j :: 0 <= i < j < |r| ==> r[i].score >= r[j].score
      ensures r == Leaderboard.GetLeaderboard(PlayerList())
    {
      Leaderboard.GetLeaderboard(PlayerList())
    }
  }
}
