/** The room registry of the server's game controller (server/controllers/gameController.js):
    the map from six-character codes to running games, the code generator, creating and
    joining a game, the teardown on disconnect, the pairing of submitted answers with
    dealt prompts, and the chat relay. */
module Registry {
  import opened Common
  import opened Players
  import opened Roster
  import Game

  const CodeLength: nat := 6
  const CodeChars: string := "ABCDEFGHIJKLMNOPQRSTUVWXYZ0123456789"

  // ---------------------------------------------------------------- game codes

  /** Every random draw picks a character of the alphabet (`Math.floor(Math.random() * 36)`). */
  predicate CodeDraws(draws: seq<nat>) {
    forall i :: 0 <= i < |draws| ==> draws[i] < |CodeChars|
  }

  /** The alphabet: the upper-case ASCII letters and the digits. */
  predicate IsCodeChar(c: char) {
    'A' <= c <= 'Z' || '0' <= c <= '9'
  }

  lemma AlphabetChars()
    ensures forall j :: 0 <= j < |CodeChars| ==> IsCodeChar(CodeChars[j])
  {
  }

  /** A string the generator can produce: six characters of the alphabet. */
  predicate IsCode(code: string) {
    |code| == CodeLength && forall i :: 0 <= i < |code| ==> IsCodeChar(code[i])
  }

  /** The code that attempt `t` of the do/while builds, from draws `6t .. 6t+5`. */
  function CodeAt(draws: seq<nat>, t: nat): (code: string)
    requires CodeDraws(draws) && 6 * t + 6 <= |draws|
    ensures IsCode(code)
  {
    AlphabetChars();
    seq(6, i requires 0 <= i < 6 => CodeChars[draws[6 * t + i]])
  }

  /** The draws eventually produce a code that is not taken; otherwise the do/while of
      the source never ends. */
  ghost predicate EventuallyFresh(draws: seq<nat>, taken: set<string>) {
    CodeDraws(draws) && exists t: nat :: 6 * t + 6 <= |draws| && CodeAt(draws, t) !in taken
  }

  /** One attempt: six characters appended one at a time. */
  method BuildCode(draws: seq<nat>, t: nat) returns (code: string)
    requires CodeDraws(draws) && 6 * t + 6 <= |draws|
    ensures code == CodeAt(draws, t)
  {
    code := "";
    for i := 0 to CodeLength
      invariant code == CodeAt(draws, t)[..i]
    {
      code := code + [CodeChars[draws[6 * t + i]]];
    }
  }

  // ---------------------------------------------------------------- case folding

  /** `toUpperCase` on one character, for the ASCII letters. */
  function UpperChar(c: char): (u: char)
    ensures 'a' <= c <= 'z' ==> 'A' <= u <= 'Z' && u as int == c as int - 32
    ensures !('a' <= c <= 'z') ==> u == c
  {
    if 'a' <= c <= 'z' then (c as int - 32) as char else c
  }

  function LowerChar(c: char): (l: char)
    ensures 'A' <= c <= 'Z' ==> 'a' <= l <= 'z' && l as int == c as int + 32
    ensures !('A' <= c <= 'Z') ==> l == c
  {
    if 'A' <= c <= 'Z' then (c as int + 32) as char else c
  }

  function ToUpper(s: string): (r: string)
    ensures |r| == |s|
  {
    seq(|s|, i requires 0 <= i < |s| => UpperChar(s[i]))
  }

  function ToLower(s: string): (r: string)
    ensures |r| == |s|
  {
    seq(|s|, i requires 0 <= i < |s| => LowerChar(s[i]))
  }

  /** Upper-casing twice is upper-casing once. */
  lemma ToUpperIdempotent(s: string)
    ensures ToUpper(ToUpper(s)) == ToUpper(s)
  {
  }

  /** Generated codes are already upper case, so a code typed in any mix of cases finds
      its game: upper-casing the typed code gives back the generated one. */
  lemma JoinIgnoresCase(code: string, typed: string)
    requires IsCode(code) && |typed| == |code|
    requires forall i :: 0 <= i < |code| ==> typed[i] == code[i] || typed[i] == LowerChar(code[i])
    ensures ToUpper(typed) == code
    ensures ToUpper(ToLower(code)) == code
  {
    forall i | 0 <= i < |code| ensures UpperChar(typed[i]) == code[i] && UpperChar(LowerChar(code[i])) == code[i] {
      assert IsCodeChar(code[i]);
    }
  }

  // ---------------------------------------------------------------- teardown

  /** The registry after a disconnect from the game under `code`: the entry is deleted
      exactly when no player is left. */
  function AfterDisconnect<T>(games: map<string, T>, code: string, playersLeft: nat): (r: map<string, T>)
    ensures r.Keys == if playersLeft == 0 then games.Keys - {code} else games.Keys
    ensures forall c :: c in r ==> r[c] == games[c]
  {
    if playersLeft == 0 then games - {code} else games
  }

  /** A game loses its last player on a disconnect exactly when it had none, or when its
      only player is the one leaving; audience members do not keep it open. */
  lemma LastPlayerClosesRoom(r: Roster, socketId: string)
    ensures |Leave(r, socketId).1.players| == 0
        <==> |r.players| == 0 || (|r.players| == 1 && r.players[0].socketId == socketId)
  {
    if |r.players| == 1 && r.players[0].socketId == socketId {
      assert PlayerSockets(r.players)[0] == socketId;
    }
  }

  // ---------------------------------------------------------------- answers and chat

  /** One `submitAnswer` call of `handleSubmitAnswers`: the answer and the prompt at the
      same position of `assignedPrompts` (`None` past its end, where the source reads
      `undefined`). */
  datatype AnswerCall = AnswerCall(answer: string, prompt: Option<nat>)

  function Pairing(answers: seq<string>, dealt: seq<nat>): (r: seq<AnswerCall>)
    ensures |r| == |answers|
  {
    if answers == [] then []
    else
      var i := |answers| - 1;
      Pairing(answers[..i], dealt) + [AnswerCall(answers[i], if i < |dealt| then Some(dealt[i]) else None)]
  }

  /** Every answer is submitted, in order, each with the prompt at its own position; an
      answer past the dealt prompts is submitted for no prompt. */
  lemma {:induction false} PairingIsPositional(answers: seq<string>, dealt: seq<nat>)
    ensures forall i :: 0 <= i < |answers| ==>
      Pairing(answers, dealt)[i].answer == answers[i]
      && (i < |dealt| ==> Pairing(answers, dealt)[i].prompt == Some(dealt[i]))
      && (i >= |dealt| ==> Pairing(answers, dealt)[i].prompt.None?)
    decreases |answers|
  {
    if answers != [] {
      PairingIsPositional(answers[..|answers| - 1], dealt);
    }
  }

  /** With one answer per dealt prompt, the prompts answered are exactly the dealt
      ones, in order. */
  lemma PairingCoversAssigned(answers: seq<string>, dealt: seq<nat>)
    requires |answers| == |dealt|
    ensures forall i :: 0 <= i < |dealt| ==> Pairing(answers, dealt)[i].prompt == Some(dealt[i])
    ensures forall k :: k in dealt <==> exists i :: 0 <= i < |answers| && Pairing(answers, dealt)[i].prompt == Some(k)
  {
    PairingIsPositional(answers, dealt);
  }

  /** `data.message` of a chat event. */
  datatype MessageField = Text(text: string) | NotText | Missing

  datatype ChatOutcome = Broadcast(room: string, username: string, message: string) | Refused(message: string)

  const InvalidMessage: string := "Invalid message."
  const NotInGame: string := "You are not in a game."

  /** `handleChatMessage`: a missing, empty or non-string message is refused first; then
      a socket with no game is refused; otherwise the message goes to the socket's room. */
  function Chat(username: string, message: MessageField, gameCode: Option<string>): (r: ChatOutcome)
    ensures r.Broadcast? <==> message.Text? && message.text != "" && gameCode.Some? && gameCode.value != ""
    ensures r.Broadcast? ==> r == Broadcast(gameCode.value, username, message.text)
    ensures (message.Missing? || message.NotText? || message == Text("")) ==> r == Refused(InvalidMessage)
    ensures r == Refused(NotInGame) <==> message.Text? && message.text != "" && (gameCode.None? || gameCode.value == "")
  {
    if !message.Text? || message.text == "" then Refused(InvalidMessage)
    else if gameCode.Some? && gameCode.value != "" then Broadcast(gameCode.value, username, message.text)
    else Refused(NotInGame)
  }

  // ---------------------------------------------------------------- the registry

  /** One `activeGames` entry: the game's logic and its roster. */
  datatype Room = Room(logic: Game.GameLogic, roster: PlayerManager)

  /** The parts of a socket the controller reads and writes. */
  class Socket {
    const id: string
    /** `socket.user`; the empty string stands for no user. */
    const user: string
    var gameCode: Option<string>

    constructor (id: string, user: string)
      ensures this.id == id && this.user == user && gameCode == None
    {
      this.id := id;
      this.user := user;
      gameCode := None;
    }
  }

  datatype Outcome = Created(gameCode: string) | Joined(gameCode: string) | Failed(message: string)

  const CreateRefused: string := "Unable to start the game. User is invalid"
  const JoinRefused: string := "Could not join the game. It might be full or you are already in it."
  const UnknownCode: string := "Game code not found! Try again"

  /** A game just opened under `code` by `username`: its logic in the joining phase and
      knowing its code, its roster holding the creator alone. */
  ghost predicate OpenedBy(room: Room, code: string, username: string, socketId: string)
    reads room.logic, room.roster
  {
    && room.roster.Valid()
    && room.logic.phase == Game.Joining && room.logic.gameCode == Some(code)
    && room.roster.Current() == JoinHonouringAdmin(Roster([], []), username, socketId).1
  }

  /** The new game of `gameCreate`: its logic in the joining phase with its code, and a
      roster holding the creator. */
  method OpenRoom(code: string, username: string, socketId: string) returns (room: Room)
    ensures fresh(room.logic) && fresh(room.roster)
    ensures room.roster.Valid()
    ensures room.logic.phase == Game.Joining && room.logic.gameCode == Some(code)
    ensures room.roster.Current() == JoinHonouringAdmin(Roster([], []), username, socketId).1
  {
    var logic := new Game.GameLogic();
    var roster := new PlayerManager();
    logic.phase := Game.Joining;
    logic.gameCode := Some(code);
    var _ := roster.AddPlayer(username, socketId);
    room := Room(logic, roster);
  }

  class Registry {
    var activeGames: map<string, Room>

    ghost function Rosters(): set<PlayerManager>
      reads this
    {
      set c | c in activeGames :: activeGames[c].roster
    }

    /** The roster of the game under `code`, as a frame. */
    ghost function RosterAt(code: Option<string>): set<PlayerManager>
      reads this
    {
      if code.Some? && code.value in activeGames then {activeGames[code.value].roster} else {}
    }

    /** Every key is a generated code, every roster keeps its invariant, and no two games
        share a roster. */
    ghost predicate Valid()
      reads this, Rosters()
    {
      && (forall c :: c in activeGames ==> IsCode(c) && activeGames[c].roster.Valid())
      && (forall c, d :: c in activeGames && d in activeGames && c != d ==> activeGames[c].roster != activeGames[d].roster)
    }

    constructor ()
      ensures Valid() && activeGames == map[]
    {
      activeGames := map[];
    }

    /** `generateGameCode`: the first attempt whose code is not a key already. */
    method GenerateGameCode(draws: seq<nat>) returns (code: string, attempts: nat)
      requires EventuallyFresh(draws, activeGames.Keys)
      ensures 6 * attempts + 6 <= |draws| && code == CodeAt(draws, attempts)
      ensures IsCode(code) && code !in activeGames
      ensures forall t :: 0 <= t < attempts ==> CodeAt(draws, t) in activeGames
    {
      ghost var w: nat :| 6 * w + 6 <= |draws| && CodeAt(draws, w) !in activeGames;
      attempts := 0;
      code := BuildCode(draws, 0);
      while code in activeGames
        invariant attempts <= w && 6 * attempts + 6 <= |draws| && code == CodeAt(draws, attempts)
        invariant forall t :: 0 <= t < attempts ==> CodeAt(draws, t) in activeGames
        decreases w - attempts
      {
        attempts := attempts + 1;
        code := BuildCode(draws, attempts);
      }
    }

    /** `activeGames[code] = room` for a fresh code and a roster no game uses. */
    method Insert(code: string, room: Room)
      requires Valid() && IsCode(code) && code !in activeGames
      requires room.roster.Valid() && room.roster !in Rosters()
      modifies this
      ensures Valid() && activeGames == old(activeGames)[code := room]
    {
      activeGames := activeGames[code := room];
    }

    /** A new game opened by `username`, stored under the fresh `code`. */
    method AddRoom(code: string, username: string, socketId: string) returns (room: Room)
      requires Valid() && IsCode(code) && code !in activeGames
      modifies this
      ensures Valid() && activeGames == old(activeGames)[code := room]
      ensures activeGames.Keys == old(activeGames.Keys) + {code} && activeGames[code] == room
      ensures forall c :: c in old(activeGames) ==> activeGames[c] == old(activeGames[c])
      ensures fresh(room.logic) && fresh(room.roster)
      ensures OpenedBy(room, code, username, socketId)
    {
      room := OpenRoom(code, username, socketId);
      Insert(code, room);
    }

    /** `gameCreate`: with a user, a new game under a fresh code, in the joining phase and
        knowing its code, with the creator as its one player; without one, an error and no
        change. */
    method GameCreate(socket: Socket, draws: seq<nat>) returns (outcome: Outcome)
      requires Valid() && EventuallyFresh(draws, activeGames.Keys)
      modifies this, socket
      ensures Valid()
      ensures socket.user == "" ==>
        outcome == Failed(CreateRefused) && activeGames == old(activeGames) && socket.gameCode == old(socket.gameCode)
      ensures socket.user != "" ==>
        && outcome.Created? && outcome.gameCode !in old(activeGames)
        && activeGames.Keys == old(activeGames.Keys) + {outcome.gameCode}
        && (forall c :: c in old(activeGames) ==> activeGames[c] == old(activeGames[c]))
        && socket.gameCode == Some(outcome.gameCode)
        && var room := activeGames[outcome.gameCode];
        && fresh(room.logic) && fresh(room.roster)
        && OpenedBy(room, outcome.gameCode, socket.user, socket.id)
    {
      if socket.user == "" {
        return Failed(CreateRefused);
      }
      // The source builds the game objects, then draws the code, stores the entry, adds
      // the creator and records the code on the socket. None of these steps reads what
      // another one writes; only the code links them. So drawing the code first and
      // storing the finished entry last leaves the same state.
      var code, _ := GenerateGameCode(draws);
      socket.gameCode := Some(code);
      var room := AddRoom(code, socket.user, socket.id);
      return Created(code);
    }

    /** `gameJoin`: the typed code is upper-cased and looked up; a known game tries to add
        the user, and only a user it added has the socket moved to that game. No other
        game changes. */
    method GameJoin(socket: Socket, typed: string) returns (outcome: Outcome)
      requires Valid()
      modifies socket, RosterAt(Some(ToUpper(typed)))
      ensures Valid() && activeGames == old(activeGames)
      ensures forall c :: c in activeGames && c != ToUpper(typed) ==>
        activeGames[c].roster.Current() == old(activeGames[c].roster.Current())
      ensures ToUpper(typed) !in activeGames ==> outcome == Failed(UnknownCode) && socket.gameCode == old(socket.gameCode)
      ensures ToUpper(typed) in activeGames ==>
        var code := ToUpper(typed);
        var (added, after) := JoinHonouringAdmin(old(activeGames[code].roster.Current()), socket.user, socket.id);
        && activeGames[code].roster.Current() == after
        && (added ==> outcome == Joined(code) && socket.gameCode == Some(code))
        && (!added ==> outcome == Failed(JoinRefused) && socket.gameCode == old(socket.gameCode))
    {
      var code := ToUpper(typed);
      if code !in activeGames {
        return Failed(UnknownCode);
      }
      var roster := activeGames[code].roster;
      var added := roster.AddPlayer(socket.user, socket.id);
      if added {
        socket.gameCode := Some(code);
        return Joined(code);
      }
      return Failed(JoinRefused);
    }

    /** `handleDisconnect`: the user leaves the socket's own game, which is deleted
        exactly when no player is left in it; every other game is untouched. */
    method HandleDisconnect(socket: Socket)
      requires Valid()
      modifies this, RosterAt(socket.gameCode)
      ensures Valid()
      ensures socket.gameCode.None? || socket.gameCode.value !in old(activeGames) ==> activeGames == old(activeGames)
      ensures socket.gameCode.Some? && socket.gameCode.value in old(activeGames) ==>
        var code := socket.gameCode.value;
        var roster := old(activeGames[code]).roster;
        && roster.Current() == Leave(old(roster.Current()), socket.id).1
        && activeGames == AfterDisconnect(old(activeGames), code, |roster.players|)
      ensures forall c :: c in activeGames && Some(c) != socket.gameCode ==>
        activeGames[c] == old(activeGames[c]) && activeGames[c].roster.Current() == old(activeGames[c].roster.Current())
    {
      if socket.gameCode.None? || socket.gameCode.value !in activeGames {
        return;
      }
      var code := socket.gameCode.value;
      LeaveRoom(code, socket.id);
      CloseIfEmpty(code);
    }

    /** The user on socket `socketId` leaves the game under `code`; no other roster and no
        entry changes. */
    method LeaveRoom(code: string, socketId: string)
      requires Valid() && code in activeGames
      modifies activeGames[code].roster
      ensures Valid()
      ensures activeGames[code].roster.Current() == Leave(old(activeGames[code].roster.Current()), socketId).1
      ensures forall c :: c in activeGames && c != code ==>
        activeGames[c].roster.Current() == old(activeGames[c].roster.Current())
    {
      var roster := activeGames[code].roster;
      var _ := roster.RemoveUserBySocketId(socketId);
    }

    /** `delete activeGames[code]` when the game under `code` has no player left. */
    method CloseIfEmpty(code: string)
      requires Valid() && code in activeGames
      modifies this
      ensures Valid()
      ensures activeGames == AfterDisconnect(old(activeGames), code, |old(activeGames[code]).roster.players|)
    {
      var players := activeGames[code].roster.GetPlayers();
      if |players| == 0 {
        activeGames := activeGames - {code};
      }
    }

    /** The pairing of `handleSubmitAnswers`: for the socket's user in the socket's game,
        one submission per answer, each with the prompt at the same position. Nothing is
        submitted without a game or a player of that name. */
    method HandleSubmitAnswers(socket: Socket, answers: seq<string>) returns (calls: seq<AnswerCall>)
      requires Valid()
      ensures socket.gameCode.Some? && socket.gameCode.value in activeGames
              && PlayerNamed(activeGames[socket.gameCode.value].roster.players, socket.user).Some? ==>
        calls == Pairing(answers, PlayerNamed(activeGames[socket.gameCode.value].roster.players, socket.user).value.assignedPrompts)
      ensures !(socket.gameCode.Some? && socket.gameCode.value in activeGames
                && PlayerNamed(activeGames[socket.gameCode.value].roster.players, socket.user).Some?)
              ==> calls == []
    {
      calls := [];
      var username := socket.user;
      if socket.gameCode.None? || socket.gameCode.value !in activeGames {
        return;
      }
      var roster := activeGames[socket.gameCode.value].roster;
      var player := roster.GetPlayer(username);
      if player.None? {
        return;
      }
      var dealt := player.value.assignedPrompts;
      for i := 0 to |answers|
        invariant calls == Pairing(answers[..i], dealt)
      {
        var prompt := if i < |dealt| then Some(dealt[i]) else None;
        assert answers[..i + 1][..i] == answers[..i];
        calls := calls + [AnswerCall(answers[i], prompt)];
      }
      assert answers[..|answers|] == answers;
    }
  }
}
