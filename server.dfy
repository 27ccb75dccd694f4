/** The session registry (`gameSessions`, `playerSessions`) and the
    Socket.IO handlers that drive a session: join-game, start-game,
    submit-answer, next-question, disconnect, the deadline timers and
    `showQuestionResults`. Broadcasts are returned as a list of messages;
    `Date.now()` is the `now` parameter; a `setTimeout` callback is a
    returned `Timer` that the environment later passes to `DeadlineFired`. */
module Server {
  import opened Types
  import Names
  import Roster
  import Answers
  import Phase
  import Leaderboard
  import opened Session

  /** Who receives an event: one socket (`socket.emit`, `io.to(socketId)`),
      a whole room (`io.to(sessionId)`), or a room but the sender
      (`socket.to(sessionId)`). */
  datatype Audience =
    | ToSocket(socket: SocketId)
    | ToRoom(room: SessionId)
    | ToRoomExcept(room: SessionId, except: SocketId)

  /** The payloads of the events the handlers emit. */
  datatype Payload =
    | Error(message: string)
    | JoinedGame(sessionId: SessionId, topic: string, language: string,
                 playerCount: int, questionCount: int, isAdmin: bool)
    | PlayerJoined(username: string, playerCount: int)
    | QuestionStart(questionNumber: int, totalQuestions: int, question: string,
                    choices: seq<string>, timeLimit: int)
    | AnswerSubmitted(success: bool)
    | GameEnd(leaderboard: seq<Entry>)
    | PlayerLeft(leftUsername: Option<string>, playerCount: int)
    | AdminChanged(newAdminUsername: string, newAdminId: SocketId)
    | QuestionResults(correctAnswer: int, correctAnswerText: Option<string>, answerStats: seq<int>,
                      leaderboard: seq<Entry>, isLastQuestion: bool, playerAnswer: Option<int>,
                      allChoices: seq<string>)

  datatype Message = Message(to: Audience, payload: Payload)

  /** A pending deadline callback: the session it was set for, and whether
      `start-game` set it (guard: still on question 0) or `next-question`
      did (its guard compares the cursor with itself). */
  datatype Timer = Timer(sessionId: SessionId, firstQuestion: bool)

  const SessionNotFound: string := "Game session not found"
  const GameInProgress: string := "Game already in progress"
  const UsernameRequired: string := "Username is required"
  const CannotStart: string := "Cannot start game"
  const OnlyCreatorStarts: string := "Only the game creator can start the game"
  const OnlyCreatorAdvances: string := "Only the game creator can advance to the next question"

  /** The `questionData` of a `question-start` event for question `index`. */
  function QuestionData(questions: seq<Question>, index: int, timeLimit: int): (p: Payload)
    requires 0 <= index < |questions|
    ensures p.QuestionStart? && p.questionNumber == index + 1 && p.totalQuestions == |questions|
  {
    QuestionStart(index + 1, |questions|, questions[index].question, questions[index].choices, timeLimit)
  }

  /** `choices[correctAnswerIndex]`, undefined when the index is outside the choices. */
  function CorrectText(q: Question): Option<string>
  {
    if 0 <= q.correctAnswerIndex < |q.choices| then Some(q.choices[q.correctAnswerIndex]) else None
  }

  /** The `question-results` events of `showQuestionResults` for the players
      `ps` (keys `order`) on question `idx`: one per player, addressed to
      that player, all sharing the distribution and leaderboard, each with
      that player's own recorded choice or none. */
  function ResultsMessages(questions: seq<Question>, idx: int, order: seq<SocketId>, ps: seq<Player>): (out: seq<Message>)
    requires 0 <= idx < |questions| && |order| == |ps|
    ensures |out| == |order|
    ensures forall j :: 0 <= j < |out| ==>
              out[j].to == ToSocket(order[j]) && out[j].payload.QuestionResults?
              && out[j].payload.playerAnswer == Answers.RecordedChoice(ps[j], idx)
              && out[j].payload.answerStats == Answers.Distribution(ps, idx)
  {
    var stats := Answers.Distribution(ps, idx);
    var leaderboard := Leaderboard.GetLeaderboard(ps);
    seq(|order|, j requires 0 <= j < |order| =>
      Message(ToSocket(order[j]),
              ResultsPayload(questions[idx], idx == |questions| - 1, stats, leaderboard,
                             Answers.RecordedChoice(ps[j], idx))))
  }

  /** One `question-results` payload: the question's answer and choices,
      the shared distribution and leaderboard, and one player's choice. */
  function ResultsPayload(q: Question, isLastQuestion: bool, stats: seq<int>, leaderboard: seq<Entry>,
                          playerAnswer: Option<int>): (p: Payload)
    ensures p.QuestionResults? && p.answerStats == stats && p.playerAnswer == playerAnswer
  {
    QuestionResults(q.correctAnswerIndex, CorrectText(q), stats, leaderboard, isLastQuestion, playerAnswer, q.choices)
  }

  /** The first `forEach` of `showQuestionResults`: every player's recorded
      choice for question `idx` increments its slot of `answerStats`, and is
      remembered per player (`playerAnswers`, here indexed like `ps`). */
  method Tally(ps: seq<Player>, idx: int) returns (answerStats: seq<int>, playerAnswers: seq<Option<int>>)
    ensures answerStats == Answers.Distribution(ps, idx)
    ensures |playerAnswers| == |ps|
    ensures forall j :: 0 <= j < |ps| ==> playerAnswers[j] == Answers.RecordedChoice(ps[j], idx)
  {
    var stats := new int[4](_ => 0);
    playerAnswers := [];
    var i := 0;
    while i < |ps|
      invariant 0 <= i <= |ps|
      invariant forall k :: 0 <= k < 4 ==> stats[k] == Answers.Count(ps[..i], idx, k)
      invariant |playerAnswers| == i
      invariant forall j :: 0 <= j < i ==> playerAnswers[j] == Answers.RecordedChoice(ps[j], idx)
    {
      assert ps[..i + 1][..i] == ps[..i];
      var answer := Answers.Slot(ps[i].answers, idx);
      if answer.Some? {
        var c := answer.value.answerIndex;
        if 0 <= c < 4 {
          stats[c] := stats[c] + 1;
        }
        playerAnswers := playerAnswers + [Some(c)];
      } else {
        playerAnswers := playerAnswers + [None];
      }
      i := i + 1;
    }
    assert ps[..i] == ps;
    answerStats := stats[..];
  }

  /** The rest of `showQuestionResults` once the state is `results`: the
      leaderboard and the tally are taken, then the second `forEach` sends
      each player, in join order, the results with their own choice. */
  method Announce(questions: seq<Question>, idx: int, order: seq<SocketId>, ps: seq<Player>)
    returns (out: seq<Message>)
    requires 0 <= idx < |questions| && |order| == |ps|
    ensures out == ResultsMessages(questions, idx, order, ps)
  {
    var currentQuestion := questions[idx];
    var leaderboard := Leaderboard.GetLeaderboard(ps);
    var stats, choices := Tally(ps, idx);
    ghost var expected := ResultsMessages(questions, idx, order, ps);
    var isLastQuestion := idx == |questions| - 1;
    out := [];
    var j := 0;
    while j < |order|
      invariant 0 <= j <= |order|
      invariant |out| == j
      invariant forall k :: 0 <= k < j ==> out[k] == expected[k]
    {
      var socketId := order[j];
      var playerAnswer := choices[j];
      var message := Message(ToSocket(socketId),
                             ResultsPayload(currentQuestion, isLastQuestion, stats, leaderboard, playerAnswer));
      out := out + [message];
      j := j + 1;
    }
  }

  /** The events of `disconnect` when the player `socketId` leaves the
      roster `r` of `sessionId`, leaving `r'`: `player-left` to the rest of
      the room, then `admin-changed` to the room when the admin left and
      players remain. */
  function LeaveMessages(sessionId: SessionId, socketId: SocketId, r: Roster.Roster, r': Roster.Roster): seq<Message>
    requires Roster.WellFormed(r')
  {
    [Message(ToRoomExcept(sessionId, socketId),
             PlayerLeft(if socketId in r.players then Some(r.players[socketId].username) else None, |r'.order|))]
    + (if Roster.IsAdmin(r, socketId) && r'.order != []
       then [Message(ToRoom(sessionId), AdminChanged(r'.players[r'.order[0]].username, r'.order[0]))]
       else [])
  }

  class Server {
    var gameSessions: map<SessionId, GameSession>
    var playerSessions: map<SocketId, SessionId>
    /** Every session code handed out so far. */
    ghost var usedIds: set<SessionId>

    ghost predicate Valid()
      reads this, gameSessions.Values
    {
      && (forall sid :: sid in gameSessions ==> Registered(sid) && gameSessions[sid].Valid())
      && (forall socketId :: socketId in playerSessions ==> playerSessions[socketId] != "")
    }

    /** A stored session sits under its own six-character code. */
    ghost predicate Registered(sid: SessionId)
      reads this
      requires sid in gameSessions
    {
      |sid| == 6 && gameSessions[sid].id == sid && sid in usedIds
    }

    /** The session a socket's `playerSessions` entry leads to, if any. */
    function SessionFor(socketId: SocketId): Option<GameSession>
      reads this
    {
      if socketId in playerSessions && playerSessions[socketId] in gameSessions
      then Some(gameSessions[playerSessions[socketId]]) else None
    }

    function SessionsFor(socketId: SocketId): set<GameSession>
      reads this
    {
      if SessionFor(socketId).Some? then {SessionFor(socketId).value} else {}
    }

    function SessionsAt(sessionId: SessionId): set<GameSession>
      reads this
    {
      if sessionId in gameSessions then {gameSessions[sessionId]} else {}
    }

    constructor ()
      ensures Valid()
      ensures gameSessions == map[] && playerSessions == map[] && usedIds == {}
    {
      gameSessions := map[];
      playerSessions := map[];
      usedIds := {};
    }

    /** `/api/create-session` once the quiz is generated: a new waiting
        session with no players is stored under the code `sessionId`, which
        the six-character random generator is taken to never repeat. */
    method CreateSession(sessionId: SessionId, topic: string, language: string, questions: seq<Question>)
      returns (questionCount: int)
      requires Valid()
      requires |sessionId| == 6 && sessionId !in usedIds
      requires |questions| > 0
      modifies this
      ensures Valid()
      ensures sessionId in gameSessions && fresh(gameSessions[sessionId])
      ensures gameSessions == old(gameSessions)[sessionId := gameSessions[sessionId]]
      ensures playerSessions == old(playerSessions) && usedIds == old(usedIds) + {sessionId}
      ensures var s := gameSessions[sessionId];
              s.topic == topic && s.language == language && s.questions == questions
              && s.Members() == Roster.Empty() && s.PhaseOf() == Phase.Initial()
      ensures questionCount == |questions|
    {
      var session := new GameSession(sessionId, topic, language, questions);
      gameSessions := gameSessions[sessionId := session];
      usedIds := usedIds + {sessionId};
      questionCount := |session.questions|;
    }

    /** `join-game` past its checks: the player is added to `sessionId`
        under the name `username.trim() || username`; the caller gets
        `joined-game` and the rest of the room `player-joined`. */
    method Admit(socketId: SocketId, sessionId: SessionId, username: string, isCreator: bool)
      returns (out: seq<Message>)
      requires Valid() && sessionId in gameSessions && username != []
      modifies gameSessions[sessionId]
      ensures Valid()
      ensures var s := gameSessions[sessionId];
              var name := Names.CleanUsername(username);
              && s.Members() == Roster.AddPlayer(old(s.Members()), socketId, name, isCreator)
              && s.PhaseOf() == old(s.PhaseOf())
              && out == [Message(ToSocket(socketId),
                                 JoinedGame(sessionId, s.topic, s.language, |s.order|, |s.questions|,
                                            s.adminId == Some(socketId))),
                         Message(ToRoomExcept(sessionId, socketId), PlayerJoined(name, |s.order|))]
    {
      var session := gameSessions[sessionId];
      var cleanUsername := Names.CleanUsername(username);
      session.AddPlayer(socketId, cleanUsername, isCreator);
      forall sid | sid in gameSessions ensures Registered(sid) && gameSessions[sid].Valid() {
        if gameSessions[sid] != session {
          assert unchanged(gameSessions[sid]);
        }
      }
      var isAdmin := session.IsAdmin(socketId);
      out := [Message(ToSocket(socketId),
                      JoinedGame(sessionId, session.topic, session.language, |session.order|,
                                 |session.questions|, isAdmin)),
              Message(ToRoomExcept(sessionId, socketId), PlayerJoined(cleanUsername, |session.order|))];
    }

    /** `join-game`: refused, with an error to the caller and nothing
        changed, for an unknown session, a session no longer waiting, or an
        empty username; otherwise the player is admitted (see `Admit`) and
        the socket is bound to the session. */
    method JoinGame(socketId: SocketId, sessionId: SessionId, username: string, isCreator: bool)
      returns (out: seq<Message>)
      requires Valid()
      modifies this, SessionsAt(sessionId)
      ensures Valid()
      ensures gameSessions == old(gameSessions) && usedIds == old(usedIds)
      ensures sessionId !in gameSessions ==>
                out == [Message(ToSocket(socketId), Error(SessionNotFound))]
                && playerSessions == old(playerSessions)
      ensures sessionId in gameSessions && old(gameSessions[sessionId].gameState) != Waiting ==>
                out == [Message(ToSocket(socketId), Error(GameInProgress))]
                && playerSessions == old(playerSessions) && unchanged(gameSessions[sessionId])
      ensures sessionId in gameSessions && old(gameSessions[sessionId].gameState) == Waiting && username == [] ==>
                out == [Message(ToSocket(socketId), Error(UsernameRequired))]
                && playerSessions == old(playerSessions) && unchanged(gameSessions[sessionId])
      ensures sessionId in gameSessions && old(gameSessions[sessionId].gameState) == Waiting && username != [] ==>
                var s := gameSessions[sessionId];
                var name := Names.CleanUsername(username);
                && s.Members() == Roster.AddPlayer(old(s.Members()), socketId, name, isCreator)
                && s.PhaseOf() == old(s.PhaseOf())
                && playerSessions == old(playerSessions)[socketId := sessionId]
                && out == [Message(ToSocket(socketId),
                                   JoinedGame(sessionId, s.topic, s.language, |s.order|, |s.questions|,
                                              s.adminId == Some(socketId))),
                           Message(ToRoomExcept(sessionId, socketId), PlayerJoined(name, |s.order|))]
    {
      if sessionId !in gameSessions {
        return [Message(ToSocket(socketId), Error(SessionNotFound))];
      }
      var session := gameSessions[sessionId];
      if session.gameState != Waiting {
        return [Message(ToSocket(socketId), Error(GameInProgress))];
      }
      if username == [] {
        return [Message(ToSocket(socketId), Error(UsernameRequired))];
      }
      assert |sessionId| == 6;
      playerSessions := playerSessions[socketId := sessionId];
      out := Admit(socketId, sessionId, username, isCreator);
    }

    /** `start-game`: refused unless the caller's session exists and is
        waiting, then unless the caller is its admin; otherwise question 0
        opens at `now`, is announced to the room, and the first deadline
        timer is set. */
    method StartGame(socketId: SocketId, now: int) returns (out: seq<Message>, timer: Option<Timer>)
      requires Valid()
      modifies SessionsFor(socketId)
      ensures Valid()
      ensures SessionFor(socketId).None? ==>
                out == [Message(ToSocket(socketId), Error(CannotStart))] && timer.None?
      ensures SessionFor(socketId).Some? ==>
                var s := SessionFor(socketId).value;
                var sid := playerSessions[socketId];
                && (old(s.gameState) != Waiting ==>
                      out == [Message(ToSocket(socketId), Error(CannotStart))] && timer.None? && unchanged(s))
                && (old(s.gameState) == Waiting && !Roster.IsAdmin(old(s.Members()), socketId) ==>
                      out == [Message(ToSocket(socketId), Error(OnlyCreatorStarts))] && timer.None? && unchanged(s))
                && (old(s.gameState) == Waiting && Roster.IsAdmin(old(s.Members()), socketId) ==>
                      && s.PhaseOf() == Phase.Start(old(s.PhaseOf()), |s.questions|, now)
                      && s.Members() == old(s.Members())
                      && out == [Message(ToRoom(sid), QuestionData(s.questions, 0, s.questionTimeLimit))]
                      && timer == Some(Timer(sid, true)))
    {
      if SessionFor(socketId).None? || SessionFor(socketId).value.gameState != Waiting {
        return [Message(ToSocket(socketId), Error(CannotStart))], None;
      }
      var sessionId := playerSessions[socketId];
      var session := gameSessions[sessionId];
      if !session.IsAdmin(socketId) {
        return [Message(ToSocket(socketId), Error(OnlyCreatorStarts))], None;
      }
      StandingAtLaterIndex(session.players, session.questions, session.questionTimeLimit,
                           session.currentQuestionIndex, 0);
      session.gameState := InQuestion;
      session.currentQuestionIndex := 0;
      session.questionStartTime := Some(now);
      forall sid | sid in gameSessions ensures Registered(sid) && gameSessions[sid].Valid() {
        if gameSessions[sid] != session {
          assert unchanged(gameSessions[sid]);
        }
      }
      out := [Message(ToRoom(sessionId), QuestionData(session.questions, 0, session.questionTimeLimit))];
      timer := Some(Timer(sessionId, true));
    }

    /** `submit-answer`: silently dropped unless the caller's session has a
        question open; then `GameSession.SubmitAnswer` decides, and only an
        accepted answer is acknowledged, to the caller alone. */
    method SubmitAnswer(socketId: SocketId, answerIndex: int, now: int) returns (out: seq<Message>)
      requires Valid()
      modifies SessionsFor(socketId)
      ensures Valid()
      ensures SessionFor(socketId).None? ==> out == []
      ensures SessionFor(socketId).Some? ==>
                var s := SessionFor(socketId).value;
                && (old(s.gameState) != InQuestion ==> out == [] && unchanged(s))
                && (old(s.gameState) == InQuestion ==>
                      && s.order == old(s.order) && s.adminId == old(s.adminId) && s.PhaseOf() == old(s.PhaseOf())
                      && (socketId !in old(s.players) ==> out == [] && s.players == old(s.players))
                      && (socketId in old(s.players) ==>
                            && out == [Message(ToSocket(socketId), AnswerSubmitted(true))]
                            && s.players == old(s.players)[socketId :=
                                 Answers.RecordAnswer(old(s.players)[socketId], s.currentQuestionIndex,
                                   Answers.Grade(s.questions[s.currentQuestionIndex], s.questionTimeLimit,
                                                 answerIndex, now - old(s.questionStartTime).value))]))
    {
      if SessionFor(socketId).None? || SessionFor(socketId).value.gameState != InQuestion {
        return [];
      }
      var session := SessionFor(socketId).value;
      var success := session.SubmitAnswer(socketId, answerIndex, now);
      forall sid | sid in gameSessions ensures Registered(sid) && gameSessions[sid].Valid() {
        if gameSessions[sid] != session {
          assert unchanged(gameSessions[sid]);
        }
      }
      out := if success then [Message(ToSocket(socketId), AnswerSubmitted(true))] else [];
    }

    /** `next-question` past its admin check, with no check of the state:
        the next question opens at `now`, is announced and gets a deadline
        timer while there is one; otherwise the game ends and the final
        leaderboard goes to the room. */
    method AdvanceSession(sessionId: SessionId, now: int) returns (out: seq<Message>, timer: Option<Timer>)
      requires Valid() && sessionId in gameSessions
      modifies gameSessions[sessionId]
      ensures Valid()
      ensures var s := gameSessions[sessionId];
              && s.PhaseOf() == Phase.Advance(old(s.PhaseOf()), |s.questions|, now)
              && s.Members() == old(s.Members())
              && (old(s.currentQuestionIndex) < |s.questions| - 1 ==>
                    && out == [Message(ToRoom(sessionId), QuestionData(s.questions, s.currentQuestionIndex,
                                                                       s.questionTimeLimit))]
                    && timer == Some(Timer(sessionId, false)))
              && (old(s.currentQuestionIndex) >= |s.questions| - 1 ==>
                    && out == [Message(ToRoom(sessionId), GameEnd(Leaderboard.GetLeaderboard(s.PlayerList())))]
                    && timer.None?)
    {
      var session := gameSessions[sessionId];
      ghost var before := session.PhaseOf();
      ghost var after := Phase.Advance(before, |session.questions|, now);
      StandingAtLaterIndex(session.players, session.questions, session.questionTimeLimit, before.index, after.index);
      if session.currentQuestionIndex < |session.questions| - 1 {
        session.currentQuestionIndex := session.currentQuestionIndex + 1;
        session.gameState := InQuestion;
        session.questionStartTime := Some(now);
        out := [Message(ToRoom(sessionId), QuestionData(session.questions, session.currentQuestionIndex,
                                                         session.questionTimeLimit))];
        timer := Some(Timer(sessionId, false));
      } else {
        session.gameState := Ended;
        assert session.Valid();
        var finalLeaderboard := session.GetLeaderboard();
        out := [Message(ToRoom(sessionId), GameEnd(finalLeaderboard))];
        timer := None;
      }
      assert session.PhaseOf() == after;
      assert session.Valid();
      forall sid | sid in gameSessions ensures Registered(sid) && gameSessions[sid].Valid() {
        if gameSessions[sid] != session {
          assert unchanged(gameSessions[sid]);
        }
      }
    }

    /** `next-question`: ignored without a session, refused for a non-admin,
        otherwise see `AdvanceSession`. */
    method NextQuestion(socketId: SocketId, now: int) returns (out: seq<Message>, timer: Option<Timer>)
      requires Valid()
      modifies SessionsFor(socketId)
      ensures Valid()
      ensures SessionFor(socketId).None? ==> out == [] && timer.None?
      ensures SessionFor(socketId).Some? ==>
                var s := SessionFor(socketId).value;
                var sid := playerSessions[socketId];
                && (!Roster.IsAdmin(old(s.Members()), socketId) ==>
                      out == [Message(ToSocket(socketId), Error(OnlyCreatorAdvances))] && timer.None? && unchanged(s))
                && (Roster.IsAdmin(old(s.Members()), socketId) ==>
                      && s.PhaseOf() == Phase.Advance(old(s.PhaseOf()), |s.questions|, now)
                      && s.Members() == old(s.Members())
                      && (old(s.currentQuestionIndex) < |s.questions| - 1 ==>
                            && out == [Message(ToRoom(sid), QuestionData(s.questions, s.currentQuestionIndex,
                                                                         s.questionTimeLimit))]
                            && timer == Some(Timer(sid, false)))
                      && (old(s.currentQuestionIndex) >= |s.questions| - 1 ==>
                            && out == [Message(ToRoom(sid), GameEnd(Leaderboard.GetLeaderboard(s.PlayerList())))]
                            && timer.None?))
    {
      if SessionFor(socketId).None? {
        return [], None;
      }
      var sessionId := playerSessions[socketId];
      var session := gameSessions[sessionId];
      if !session.IsAdmin(socketId) {
        return [Message(ToSocket(socketId), Error(OnlyCreatorAdvances))], None;
      }
      out, timer := AdvanceSession(sessionId, now);
    }

    /** The part of `disconnect` inside `if (session)` up to the eviction:
        the player leaves `sessionId` (the admin role passing to the first
        remaining player) and the room is told. */
    method LeaveSession(socketId: SocketId, sessionId: SessionId) returns (out: seq<Message>)
      requires Valid() && sessionId in gameSessions
      modifies gameSessions[sessionId]
      ensures Valid()
      ensures var s := gameSessions[sessionId];
              && s.Members() == Roster.RemovePlayer(old(s.Members()), socketId)
              && s.PhaseOf() == old(s.PhaseOf())
              && out == LeaveMessages(sessionId, socketId, old(s.Members()), s.Members())
    {
      var session := gameSessions[sessionId];
      ghost var before := session.Members();
      var leftName := if socketId in session.players then Some(session.players[socketId].username) else None;
      var wasAdmin := session.IsAdmin(socketId);
      session.RemovePlayer(socketId);
      ghost var after := session.Members();
      var left := Message(ToRoomExcept(sessionId, socketId), PlayerLeft(leftName, |session.order|));
      if wasAdmin && |session.order| > 0 {
        Roster.RemovePlayerSpec(before, socketId);
        var newAdminId := session.adminId.value;
        assert newAdminId == after.order[0];
        out := [left, Message(ToRoom(sessionId), AdminChanged(session.players[newAdminId].username, newAdminId))];
      } else {
        out := [left];
      }
      assert out == LeaveMessages(sessionId, socketId, before, after);
      forall sid | sid in gameSessions ensures Registered(sid) && gameSessions[sid].Valid() {
        if gameSessions[sid] != session {
          assert unchanged(gameSessions[sid]);
        }
      }
    }

    /** `disconnect`: a socket bound to a live session leaves it (see
        `LeaveSession`) and an emptied session is evicted; a bound socket's
        binding is dropped in any case. */
    method Disconnect(socketId: SocketId) returns (out: seq<Message>)
      requires Valid()
      modifies this, SessionsFor(socketId)
      ensures Valid()
      ensures playerSessions == old(playerSessions) - {socketId}
      ensures usedIds == old(usedIds)
      ensures old(SessionFor(socketId)).None? ==> out == [] && gameSessions == old(gameSessions)
      ensures old(SessionFor(socketId)).Some? ==>
                var sid := old(playerSessions[socketId]);
                var s := old(gameSessions[sid]);
                && s.Members() == Roster.RemovePlayer(old(s.Members()), socketId)
                && s.PhaseOf() == old(s.PhaseOf())
                && gameSessions == (if s.order == [] then old(gameSessions) - {sid} else old(gameSessions))
                && out == LeaveMessages(sid, socketId, old(s.Members()), s.Members())
    {
      out := [];
      if socketId in playerSessions && playerSessions[socketId] != "" {
        var sessionId := playerSessions[socketId];
        if sessionId in gameSessions {
          out := LeaveSession(socketId, sessionId);
          if |gameSessions[sessionId].order| == 0 {
            gameSessions := gameSessions - {sessionId};
            assert Valid();
          }
        }
        playerSessions := playerSessions - {socketId};
      } else {
        assert playerSessions - {socketId} == playerSessions;
      }
    }

    /** `showQuestionResults(sessionId)`: closes the open question, counts
        the recorded choices into the 4-slot `answerStats`, and sends every
        player the results with that player's own choice. */
    method ShowQuestionResults(sessionId: SessionId) returns (out: seq<Message>)
      requires Valid()
      requires sessionId in gameSessions ==> gameSessions[sessionId].gameState != Waiting
      modifies SessionsAt(sessionId)
      ensures Valid()
      ensures sessionId !in gameSessions ==> out == []
      ensures sessionId in gameSessions ==>
                var s := gameSessions[sessionId];
                && s.PhaseOf() == Phase.CloseQuestion(old(s.PhaseOf()), |s.questions|)
                && s.Members() == old(s.Members())
                && out == ResultsMessages(s.questions, s.currentQuestionIndex, s.order, s.PlayerList())
    {
      if sessionId !in gameSessions {
        return [];
      }
      var session := gameSessions[sessionId];
      session.gameState := ShowingResults;
      forall sid | sid in gameSessions ensures Registered(sid) && gameSessions[sid].Valid() {
        if gameSessions[sid] != session {
          assert unchanged(gameSessions[sid]);
        }
      }
      out := Announce(session.questions, session.currentQuestionIndex, session.order, session.PlayerList());
    }

    /** A deadline timer firing: the guard copied from its `setTimeout`
        callback decides whether the session's question is closed. */
    method DeadlineFired(t: Timer) returns (out: seq<Message>)
      requires Valid()
      modifies SessionsAt(t.sessionId)
      ensures Valid()
      ensures t.sessionId !in gameSessions ==> out == []
      ensures t.sessionId in gameSessions ==>
                var s := gameSessions[t.sessionId];
                && (!Phase.TimerGuard(old(s.PhaseOf()), t.firstQuestion) ==> out == [] && unchanged(s))
                && (Phase.TimerGuard(old(s.PhaseOf()), t.firstQuestion) ==>
                      && s.PhaseOf() == Phase.CloseQuestion(old(s.PhaseOf()), |s.questions|)
                      && s.Members() == old(s.Members())
                      && out == ResultsMessages(s.questions, s.currentQuestionIndex, s.order, s.PlayerList()))
    {
      if t.sessionId !in gameSessions {
        return [];
      }
      var session := gameSessions[t.sessionId];
      // start-game: state is 'question' and the cursor is still 0;
      // next-question: `currentQuestionIndex === currentQuestionIndex`, always true
      if session.gameState == InQuestion && (t.firstQuestion ==> session.currentQuestionIndex == 0) {
        out := ShowQuestionResults(t.sessionId);
      } else {
        out := [];
      }
    }
  }
}
