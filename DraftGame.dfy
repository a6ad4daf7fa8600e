/** The earlier draft of the game logic (oldies/gameLogic.js): its state record, prompt
    intake, the prompt-count test, the round scoring over the players of the draft's
    player manager, and the move to the next round. */
module DraftGame {
  import opened Common
  import opened Players
  import opened Roster
  import opened DraftRoster
  import Game

  datatype DraftPhase = Joining | Prompts | Answers | Voting | Results | NextRound | GameOver

  const PointsPerVote: int := 100

  // ---------------------------------------------------------------- the prompt-count test

  /** `halfPromptsReceived` as the draft writes it: needed / submitted >= 0.5, in floating
      point. With nothing submitted the quotient is +Infinity, which passes. */
  function HalfReceivedAsWritten(submitted: nat, numPlayers: nat): (r: bool)
    requires numPlayers > 0
    ensures submitted > 0 ==> (r <==> (Game.NeedPrompts(numPlayers) as real) / (submitted as real) >= 0.5)
    ensures submitted == 0 ==> r
  {
    if submitted == 0 then true
    else
      HalfRatio(Game.NeedPrompts(numPlayers), submitted);
      2 * Game.NeedPrompts(numPlayers) >= submitted
  }

  /** Since no more prompts can be submitted than there are players, the draft's test
      holds from the start of the phase, whatever has been submitted. */
  lemma DraftHalfAlwaysHolds(submitted: nat, numPlayers: nat)
    requires 0 < numPlayers && submitted <= numPlayers
    ensures HalfReceivedAsWritten(submitted, numPlayers)
  {
  }

  /** Three players, nothing submitted yet: the draft's test passes, the intended one
      (the ratio the other way round) does not. */
  lemma DraftHalfIsInverted()
    ensures HalfReceivedAsWritten(0, 3)
    ensures !Game.HalfReceived(0, 3)
  {
  }

  // ---------------------------------------------------------------- round scores

  /** `roundNumber * voteCount * 100`, the vote count being the size of the answer's
      voter set, or 0 when the prompt or the answer has none. */
  function AnswerPoints(votes: VoteLedger, promptId: nat, username: string, round: int): int {
    var voteCount := if promptId in votes && username in votes[promptId] then |votes[promptId][username]| else 0;
    round * voteCount * PointsPerVote
  }

  /** A score award: the answering user and the points. */
  datatype Award = Award(username: string, points: int)

  /** The awards for the answers to one prompt, in answer order. */
  function PromptAwards(list: seq<DraftAnswer>, promptId: nat, votes: VoteLedger, round: int): (r: seq<Award>)
    ensures |r| == |list|
  {
    if list == [] then []
    else
      var last := list[|list| - 1];
      PromptAwards(list[..|list| - 1], promptId, votes, round) + [Award(last.username, AnswerPoints(votes, promptId, last.username, round))]
  }

  /** The awards of `calculateRoundScores` for prompts 0..m-1, in the order it makes them. */
  function Awards(m: nat, answers: map<nat, seq<DraftAnswer>>, votes: VoteLedger, round: int): seq<Award> {
    if m == 0 then []
    else Awards(m - 1, answers, votes, round) + PromptAwards(AnswersFor(answers, m - 1), m - 1, votes, round)
  }

  /** `player.roundScore += points` for the player stored under `username`, if any. */
  function AddPoints(ps: seq<Player>, a: Award): (r: seq<Player>)
    ensures SameSeats(ps, r)
  {
    seq(|ps|, k requires 0 <= k < |ps| =>
      if ps[k].username == a.username then ps[k].(roundScore := ps[k].roundScore + a.points) else ps[k])
  }

  function ApplyAwards(ps: seq<Player>, awards: seq<Award>): (r: seq<Player>)
    ensures |r| == |ps|
  {
    if awards == [] then ps else AddPoints(ApplyAwards(ps, awards[..|awards| - 1]), awards[|awards| - 1])
  }

  /** The points the awards give to `username`. */
  function PointsFor(awards: seq<Award>, username: string): int {
    if awards == [] then 0
    else
      var last := awards[|awards| - 1];
      PointsFor(awards[..|awards| - 1], username) + (if last.username == username then last.points else 0)
  }

  /** Adding one answer's award is one more `AddPoints` on top of the earlier ones. */
  lemma AwardStep(ps: seq<Player>, earlier: seq<Award>, list: seq<DraftAnswer>, t: nat, promptId: nat, votes: VoteLedger, round: int)
    requires t < |list|
    ensures ApplyAwards(ps, earlier + PromptAwards(list[..t + 1], promptId, votes, round))
         == AddPoints(ApplyAwards(ps, earlier + PromptAwards(list[..t], promptId, votes, round)),
                      Award(list[t].username, AnswerPoints(votes, promptId, list[t].username, round)))
  {
    assert list[..t + 1][..t] == list[..t];
    var x := Award(list[t].username, AnswerPoints(votes, promptId, list[t].username, round));
    var before := earlier + PromptAwards(list[..t], promptId, votes, round);
    assert earlier + PromptAwards(list[..t + 1], promptId, votes, round) == before + [x];
    assert (before + [x])[..|before|] == before;
  }

  /** What the awards do to one player: its round score grows by its points, and nothing
      else about it changes. */
  lemma {:induction false} ApplyAwardsAt(ps: seq<Player>, awards: seq<Award>, k: nat)
    requires k < |ps|
    ensures ApplyAwards(ps, awards)[k] == ps[k].(roundScore := ps[k].roundScore + PointsFor(awards, ps[k].username))
    decreases |awards|
  {
    if awards != [] {
      ApplyAwardsAt(ps, awards[..|awards| - 1], k);
    }
  }

  lemma PointsNonNegative(round: int, voteCount: nat)
    requires round >= 0
    ensures round * voteCount * PointsPerVote >= 0
  {
    assert round * voteCount >= 0;
  }

  ghost predicate NonNegativeAwards(awards: seq<Award>) {
    forall i :: 0 <= i < |awards| ==> awards[i].points >= 0
  }

  lemma {:induction false} PromptAwardsNonNegative(list: seq<DraftAnswer>, promptId: nat, votes: VoteLedger, round: int)
    requires round >= 0
    ensures NonNegativeAwards(PromptAwards(list, promptId, votes, round))
    decreases |list|
  {
    if list != [] {
      var last := list[|list| - 1];
      PromptAwardsNonNegative(list[..|list| - 1], promptId, votes, round);
      var voteCount := if promptId in votes && last.username in votes[promptId] then |votes[promptId][last.username]| else 0;
      PointsNonNegative(round, voteCount);
    }
  }

  /** In a round from the first on, no answer loses points. */
  lemma {:induction false} AwardsNonNegative(m: nat, answers: map<nat, seq<DraftAnswer>>, votes: VoteLedger, round: int)
    requires round >= 0
    ensures NonNegativeAwards(Awards(m, answers, votes, round))
  {
    if m > 0 {
      AwardsNonNegative(m - 1, answers, votes, round);
      PromptAwardsNonNegative(AnswersFor(answers, m - 1), m - 1, votes, round);
    }
  }

  lemma {:induction false} PointsForNonNegative(awards: seq<Award>, username: string)
    requires NonNegativeAwards(awards)
    ensures PointsFor(awards, username) >= 0
    decreases |awards|
  {
    if awards != [] {
      PointsForNonNegative(awards[..|awards| - 1], username);
    }
  }

  /** `calculateRoundScores` only adds: every round score ends at least where it started,
      every score is untouched, and the seats are the same. */
  lemma RoundScoresOnlyGrow(ps: seq<Player>, m: nat, answers: map<nat, seq<DraftAnswer>>, votes: VoteLedger, round: int)
    requires round >= 1
    ensures SameSeats(ps, ApplyAwards(ps, Awards(m, answers, votes, round)))
    ensures forall k :: 0 <= k < |ps| ==>
      && ApplyAwards(ps, Awards(m, answers, votes, round))[k].roundScore >= ps[k].roundScore
      && ApplyAwards(ps, Awards(m, answers, votes, round))[k].score == ps[k].score
  {
    var awards := Awards(m, answers, votes, round);
    AwardsNonNegative(m, answers, votes, round);
    forall k | 0 <= k < |ps|
      ensures ApplyAwards(ps, awards)[k].username == ps[k].username && ApplyAwards(ps, awards)[k].isAdmin == ps[k].isAdmin
      ensures ApplyAwards(ps, awards)[k].roundScore >= ps[k].roundScore && ApplyAwards(ps, awards)[k].score == ps[k].score
    {
      ApplyAwardsAt(ps, awards, k);
      PointsForNonNegative(awards, ps[k].username);
    }
  }

  /** With no vote recorded (as after the move to the next round) every answer earns 0. */
  lemma {:induction false} NoVotesNoPoints(list: seq<DraftAnswer>, promptId: nat, round: int)
    ensures forall i :: 0 <= i < |list| ==> PromptAwards(list, promptId, map[], round)[i].points == 0
    decreases |list|
  {
    if list != [] {
      NoVotesNoPoints(list[..|list| - 1], promptId, round);
    }
  }

  // ---------------------------------------------------------------- total scores

  /** `player.score += player.roundScore; player.roundScore = 0` */
  function Banked(p: Player): Player {
    p.(score := p.score + p.roundScore, roundScore := 0)
  }

  function BankAll(ps: seq<Player>): (r: seq<Player>)
    ensures |r| == |ps|
  {
    seq(|ps|, k requires 0 <= k < |ps| => Banked(ps[k]))
  }

  /** The `totalScores` entries the loop writes for `ps`, in order. */
  function Totals(ps: seq<Player>): map<string, int> {
    if ps == [] then map[] else Totals(ps[..|ps| - 1])[ps[|ps| - 1].username := ps[|ps| - 1].score]
  }

  /** Banking never lowers a score, leaves every round score at 0, loses no points and
      keeps the seats. */
  lemma BankingNeverLowersScores(ps: seq<Player>)
    requires ScoresNonNegative(ps)
    ensures ScoresNonNegative(BankAll(ps)) && SameSeats(ps, BankAll(ps))
    ensures forall k :: 0 <= k < |ps| ==>
      && BankAll(ps)[k].score >= ps[k].score
      && BankAll(ps)[k].roundScore == 0
      && BankAll(ps)[k].score + BankAll(ps)[k].roundScore == ps[k].score + ps[k].roundScore
  {
  }

  /** `totalScores` gets an entry for every player's name and for nothing else. */
  lemma {:induction false} TotalsKeys(ps: seq<Player>)
    ensures Totals(ps).Keys == set k | 0 <= k < |ps| :: ps[k].username
    decreases |ps|
  {
    if ps != [] {
      var init := ps[..|ps| - 1];
      TotalsKeys(init);
      assert (set k | 0 <= k < |ps| :: ps[k].username)
          == (set k | 0 <= k < |init| :: init[k].username) + {ps[|ps| - 1].username};
    }
  }

  /** With distinct names, `totalScores` ends up with exactly one entry per player, and
      that entry is the player's score. */
  lemma {:induction false} TotalsRecordScores(ps: seq<Player>)
    requires Distinct(Usernames(ps))
    ensures Totals(ps).Keys == set k | 0 <= k < |ps| :: ps[k].username
    ensures forall k :: 0 <= k < |ps| ==> ps[k].username in Totals(ps) && Totals(ps)[ps[k].username] == ps[k].score
    decreases |ps|
  {
    TotalsKeys(ps);
    if ps != [] {
      var init := ps[..|ps| - 1];
      assert Usernames(init) == Usernames(ps)[..|ps| - 1];
      TotalsRecordScores(init);
      forall k | 0 <= k < |ps| ensures ps[k].username in Totals(ps) && Totals(ps)[ps[k].username] == ps[k].score {
        if k < |init| {
          assert Usernames(ps)[k] != Usernames(ps)[|ps| - 1];
          assert init[k] == ps[k];
        }
      }
    }
  }

  /** Scoring a round and then banking it: each player's score grows by the round score
      it had plus the points its answers earned this round. */
  lemma ScoringThenBanking(ps: seq<Player>, awards: seq<Award>, k: nat)
    requires k < |ps|
    ensures BankAll(ApplyAwards(ps, awards))[k].score == ps[k].score + ps[k].roundScore + PointsFor(awards, ps[k].username)
    ensures BankAll(ApplyAwards(ps, awards))[k].roundScore == 0
  {
    ApplyAwardsAt(ps, awards, k);
  }

  lemma TotalsStep(ps: seq<Player>, k: nat)
    requires k < |ps|
    ensures Totals(ps[..k + 1]) == Totals(ps[..k])[ps[k].username := ps[k].score]
  {
    assert ps[..k + 1][..k] == ps[..k];
  }

  /** Banking position `k` of a roster banked up to `k`: the seats stay, the scores stay
      non-negative, and the roster is banked up to `k + 1`. */
  lemma BankStep(start: seq<Player>, k: nat)
    requires k < |start| && ScoresNonNegative(start)
    ensures var cur := BankAll(start)[..k] + start[k..];
      && |cur| == |start| && cur[k] == start[k]
      && var next := cur[k := Banked(cur[k])];
      && next == BankAll(start)[..k + 1] + start[k + 1..]
      && SameSeats(cur, next) && ScoresNonNegative(next)
  {
    var banked := BankAll(start);
    var cur := banked[..k] + start[k..];
    var next := cur[k := Banked(cur[k])];
    assert forall j :: 0 <= j < k ==> cur[j] == banked[j];
    assert forall j :: k <= j < |start| ==> cur[j] == start[j];
    assert forall j :: 0 <= j <= k ==> next[j] == banked[j];
    assert forall j :: k < j < |start| ==> next[j] == start[j];
    assert next == banked[..k + 1] + start[k + 1..];
  }

  /** Recording position `k`'s score on top of `base` extends the recorded totals by one. */
  lemma TotalsExtend(base: map<string, int>, ps: seq<Player>, k: nat)
    requires k < |ps|
    ensures (base + Totals(ps[..k]))[ps[k].username := ps[k].score] == base + Totals(ps[..k + 1])
  {
    TotalsStep(ps, k);
  }

  // ---------------------------------------------------------------- next round

  /** `nextRoundOrEndGame` on the round counter and the phase. */
  function DraftNextRound(round: int, total: int): (DraftPhase, int) {
    if round < total then (Prompts, round + 1) else (GameOver, round)
  }

  /** The draft and the server move between rounds alike: the same round counter, and the
      draft's game over exactly when the server ends the game. */
  lemma DraftMatchesServer(round: int, total: int, phase: Game.Phase)
    ensures var next := Game.NextRound(Game.PhaseState(phase, round, total));
      && DraftNextRound(round, total).1 == next.round
      && (DraftNextRound(round, total).0 == Prompts <==> next.phase == Game.Prompts)
      && (DraftNextRound(round, total).0 == GameOver <==> next.phase == Game.EndGame)
  {
  }

  /** From the first round of three, two moves reach the third round, and the third ends
      the game there. */
  lemma DraftPlaysThreeRounds()
    ensures DraftNextRound(1, 3) == (Prompts, 2)
    ensures DraftNextRound(2, 3) == (Prompts, 3)
    ensures DraftNextRound(3, 3) == (GameOver, 3)
  {
  }

  // ---------------------------------------------------------------- the game state

  /** The draft's `GameLogic`: the `gameState` record over the draft's player manager. */
  class DraftGameLogic {
    const manager: DraftPlayerManager
    var phase: DraftPhase
    var prompts: seq<DraftPrompt>
    var gameInstancePrompts: seq<DraftPrompt>
    /** prompt id → the answers given to it */
    var answers: map<nat, seq<DraftAnswer>>
    /** prompt id → answering user → voters (the game state's own ledger) */
    var votes: VoteLedger
    var roundNumber: int
    var totalRounds: int
    var totalScores: map<string, int>

    ghost predicate Valid()
      reads this, manager, manager.roster
    {
      manager.Valid() && 1 <= roundNumber <= totalRounds
    }

    ghost predicate IsReset()
      reads this
    {
      && phase == Joining && prompts == [] && gameInstancePrompts == []
      && answers == map[] && votes == map[]
      && roundNumber == Game.StartRound && totalRounds == Game.RoundsPerGame && totalScores == map[]
    }

    constructor (manager: DraftPlayerManager)
      requires manager.Valid()
      ensures this.manager == manager && IsReset() && Valid()
    {
      this.manager := manager;
      phase := Joining;
      prompts := [];
      gameInstancePrompts := [];
      answers := map[];
      votes := map[];
      roundNumber := Game.StartRound;
      totalRounds := Game.RoundsPerGame;
      totalScores := map[];
    }

    method ResetGameState()
      requires manager.Valid()
      modifies this
      ensures IsReset() && Valid()
    {
      phase := Joining;
      prompts := [];
      gameInstancePrompts := [];
      answers := map[];
      votes := map[];
      roundNumber := Game.StartRound;
      totalRounds := Game.RoundsPerGame;
      totalScores := map[];
    }

    function GetPromptCount(): nat
      reads this
    {
      |gameInstancePrompts|
    }

    /** `addPrompt`: one more prompt in the round, stored last, and a success reply. */
    method AddPrompt(promptText: string, username: string) returns (reply: Reply)
      modifies this`gameInstancePrompts
      ensures gameInstancePrompts == old(gameInstancePrompts) + [DraftPrompt(promptText, username)]
      ensures GetPromptCount() == old(GetPromptCount()) + 1
      ensures reply == Success
    {
      gameInstancePrompts := gameInstancePrompts + [DraftPrompt(promptText, username)];
      return Success;
    }

    /** `halfPromptsReceived`, with the ratio the intended way round (see
        `HalfReceivedAsWritten` for the draft's own). */
    function HalfPromptsReceived(): (r: bool)
      reads this, manager, manager.roster
      requires |manager.roster.players| > 0
      ensures r <==> (manager.PromptsSubmitted() as real) / (Game.NeedPrompts(|manager.roster.players|) as real) >= 0.5
    {
      Game.HalfReceived(manager.PromptsSubmitted(), |manager.roster.players|)
    }

    /** `player.roundScore += points` through `getPlayer`; a missing player is only logged. */
    method AwardPoints(username: string, points: int)
      requires Valid() && points >= 0
      modifies manager.roster
      ensures Valid() && manager.roster.audience == old(manager.roster.audience)
      ensures manager.roster.players == AddPoints(old(manager.roster.players), Award(username, points))
    {
      var roster := manager.roster;
      var player := roster.GetPlayer(username);
      if player.Some? {
        var k := IndexOf(Usernames(roster.players), username).value;
        var updated := roster.players[k := roster.players[k].(roundScore := roster.players[k].roundScore + points)];
        forall j | 0 <= j < |roster.players| && j != k ensures roster.players[j].username != username {
          assert Usernames(roster.players)[j] != Usernames(roster.players)[k];
        }
        assert updated == AddPoints(roster.players, Award(username, points));
        SameSeatsKeepInvariant(roster.Current(), updated);
        roster.players := updated;
      } else {
        assert forall j :: 0 <= j < |roster.players| ==> Usernames(roster.players)[j] != username;
        assert AddPoints(roster.players, Award(username, points)) == roster.players;
      }
    }

    /** The inner `answers.forEach` of `calculateRoundScores` for prompt `k`, on a roster
        that already has the awards `earlier` over `start`. */
    method AwardPromptAnswers(ghost start: seq<Player>, ghost earlier: seq<Award>, k: nat)
      requires Valid() && manager.roster.players == ApplyAwards(start, earlier)
      modifies manager.roster
      ensures Valid() && manager.roster.audience == old(manager.roster.audience)
      ensures manager.roster.players == ApplyAwards(start, earlier + PromptAwards(AnswersFor(answers, k), k, votes, roundNumber))
    {
      var round := roundNumber;
      var list := if k in answers then answers[k] else [];
      var promptVotes := if k in votes then votes[k] else map[];
      assert list[..0] == [] && earlier + PromptAwards(list[..0], k, votes, round) == earlier;
      for t := 0 to |list|
        invariant Valid() && manager.roster.audience == old(manager.roster.audience)
        invariant manager.roster.players == ApplyAwards(start, earlier + PromptAwards(list[..t], k, votes, round))
      {
        var answer := list[t];
        var voteCount := if answer.username in promptVotes then |promptVotes[answer.username]| else 0;
        PointsNonNegative(round, voteCount);
        var points := round * voteCount * PointsPerVote;
        AwardStep(start, earlier, list, t, k, votes, round);
        AwardPoints(answer.username, points);
      }
      assert list[..|list|] == list;
    }

    /** `calculateRoundScores`: for each prompt of the round, in order, and each of its
        answers, in order, the answering player's round score grows by the answer's points.
        The prompt's id is its position in the round's prompts. */
    method CalculateRoundScores()
      requires Valid()
      modifies manager.roster
      ensures Valid() && manager.roster.audience == old(manager.roster.audience)
      ensures manager.roster.players ==
        ApplyAwards(old(manager.roster.players), Awards(|gameInstancePrompts|, answers, votes, roundNumber))
    {
      ghost var start := manager.roster.players;
      for k := 0 to |gameInstancePrompts|
        invariant Valid() && manager.roster.audience == old(manager.roster.audience)
        invariant manager.roster.players == ApplyAwards(start, Awards(k, answers, votes, roundNumber))
      {
        AwardPromptAnswers(start, Awards(k, answers, votes, roundNumber), k);
      }
    }

    /** One player's `score += roundScore; roundScore = 0`, on a roster banked up to `k`. */
    method BankAt(ghost start: seq<Player>, k: nat) returns (score: int)
      requires Valid() && k < |start| && ScoresNonNegative(start)
      requires manager.roster.players == BankAll(start)[..k] + start[k..]
      modifies manager.roster
      ensures Valid() && manager.roster.audience == old(manager.roster.audience)
      ensures manager.roster.players == BankAll(start)[..k + 1] + start[k + 1..]
      ensures score == BankAll(start)[k].score
    {
      BankStep(start, k);
      var roster := manager.roster;
      var updated := roster.players[k := Banked(roster.players[k])];
      SameSeatsKeepInvariant(roster.Current(), updated);
      roster.players := updated;
      score := updated[k].score;
    }

    /** The state after the first `k` iterations of `updateTotalScores`, started from the
        players `start`, the audience `audience` and the totals `base`. */
    ghost predicate BankedUpTo(base: map<string, int>, start: seq<Player>, audience: seq<AudienceMember>, k: nat)
      reads this, manager, manager.roster
    {
      && Valid() && k <= |start| && ScoresNonNegative(start)
      && manager.roster.audience == audience
      && manager.roster.players == BankAll(start)[..k] + start[k..]
      && totalScores == base + Totals(BankAll(start)[..k])
    }

    /** One iteration of `updateTotalScores`: player `k` banks its round score and its
        new score is recorded. */
    method BankAndRecord(ghost base: map<string, int>, ghost start: seq<Player>, ghost audience: seq<AudienceMember>, k: nat)
      requires BankedUpTo(base, start, audience, k) && k < |start|
      modifies this`totalScores, manager.roster
      ensures BankedUpTo(base, start, audience, k + 1)
    {
      ghost var banked := BankAll(start);
      assert manager.roster.players[k] == start[k];
      var username := manager.roster.players[k].username;
      assert banked[k].username == username;
      var score := BankAt(start, k);
      TotalsExtend(base, banked, k);
      totalScores := totalScores[username := score];
    }

    /** `updateTotalScores`: each player, in order, banks its round score, and its new
        score is recorded in `totalScores`. */
    method UpdateTotalScores()
      requires Valid()
      modifies this`totalScores, manager.roster
      ensures Valid() && manager.roster.audience == old(manager.roster.audience)
      ensures manager.roster.players == BankAll(old(manager.roster.players))
      ensures totalScores == old(totalScores) + Totals(BankAll(old(manager.roster.players)))
    {
      ghost var start := manager.roster.players;
      ghost var banked := BankAll(start);
      var n := |manager.roster.players|;
      assert banked[..0] == [] && start[0..] == start;
      assert BankedUpTo(old(totalScores), start, old(manager.roster.audience), 0);
      for k := 0 to n
        invariant BankedUpTo(old(totalScores), start, old(manager.roster.audience), k)
      {
        BankAndRecord(old(totalScores), start, old(manager.roster.audience), k);
      }
      assert banked[..n] == banked && start[n..] == [];
    }

    /** `nextRoundOrEndGame`: before the last round, move to the next one with the round's
        prompts, answers and votes cleared; in the last, the game is over. */
    method NextRoundOrEndGame() returns (reply: Reply)
      requires Valid()
      modifies this
      ensures Valid() && reply == Success
      ensures (phase, roundNumber) == DraftNextRound(old(roundNumber), old(totalRounds))
      ensures totalRounds == old(totalRounds) && prompts == old(prompts) && totalScores == old(totalScores)
      ensures old(roundNumber) < old(totalRounds) ==> gameInstancePrompts == [] && answers == map[] && votes == map[]
      ensures old(roundNumber) >= old(totalRounds) ==>
        gameInstancePrompts == old(gameInstancePrompts) && answers == old(answers) && votes == old(votes)
    {
      if roundNumber < totalRounds {
        roundNumber := roundNumber + 1;
        gameInstancePrompts := [];
        answers := map[];
        votes := map[];
        phase := Prompts;
      } else {
        phase := GameOver;
      }
      return Success;
    }
  }
}
