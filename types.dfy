/** Values shared by the whole quiz-session model. */
module Types {

  /** A Socket.IO connection id; it is also the key of a player. */
  type SocketId = string

  /** The six-character session code that players type to join. */
  type SessionId = string

  datatype Option<T> = None | Some(value: T)

  /** One quiz question as the question supply delivers it. */
  datatype Question = Question(question: string, choices: seq<string>, correctAnswerIndex: int)

  /** The record stored in `player.answers[index]` by `submitAnswer`. */
  datatype Answer = Answer(answerIndex: int, isCorrect: bool, points: int, submissionTime: int)

  /** A player record of the `players` map.  `answers` is a JavaScript array
      written by index, so it may have holes; a hole is `None`. */
  datatype Player = Player(id: SocketId, username: string, score: int,
                           answers: seq<Option<Answer>>, isAdmin: bool)

  /** The `gameState` string: 'waiting', 'question', 'results' and 'ended'. */
  datatype GameState = Waiting | InQuestion | ShowingResults | Ended

  /** One row of `getLeaderboard()`. */
  datatype Entry = Entry(rank: int, username: string, score: int)
}
