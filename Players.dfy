/** The player record of server/models/playerModel.js and the audience record built by the roster. */
module Players {

  /** The values the code stores in a participant's `state` string. */
  datatype PlayerState = Active | SubmittedPrompt | Answered | Voted

  /** A player: the fields the constructor initialises, in its order. `assignedPrompts`
      holds prompt indices, which is what the assignment code pushes. */
  datatype Player = Player(
    socketId: string,
    username: string,
    isAdmin: bool,
    score: int,
    roundScore: int,
    assignedPrompts: seq<nat>,
    state: PlayerState)

  /** An audience member: socket id, name and a state that starts as 'active'. */
  datatype AudienceMember = AudienceMember(socketId: string, username: string, state: PlayerState)

  /** The constructor as written: it takes a socket id and a name only, so every new
      player starts without the admin flag, with zero scores, no prompts and state 'active'. */
  function NewPlayer(socketId: string, username: string): (p: Player)
    ensures p.socketId == socketId && p.username == username
    ensures !p.isAdmin
    ensures p.score == 0 && p.roundScore == 0
    ensures p.assignedPrompts == [] && p.state == Active
  {
    Player(socketId, username, false, 0, 0, [], Active)
  }

  /** The constructor the roster's call site expects: the third argument becomes the
      admin flag; everything else is as in `NewPlayer`. */
  function NewPlayerAs(socketId: string, username: string, isAdmin: bool): (p: Player)
    ensures p.isAdmin == isAdmin
    ensures p == NewPlayer(socketId, username).(isAdmin := isAdmin)
  {
    Player(socketId, username, isAdmin, 0, 0, [], Active)
  }
}
