/** The per-room game state and its phase machine (server/utils/gameLogic.js, class
    GameLogic). Timers and polls are modelled as one guarded step per phase exit; the
    prompt API and `Math.random` are parameters. */
module Game {
  import opened Common
  import opened Players
  import opened Shuffling

  datatype Phase = Joining | Prompts | Answers | Voting | Results | Scores | EndGame

  /** `[promptUsername, text]` */
  datatype PromptEntry = PromptEntry(username: string, text: string)
  /** `[promptUsername, answerUsername, text]` */
  datatype AnswerEntry = AnswerEntry(promptUsername: string, answerUsername: string, text: string)
  /** `[answerUsername, voteUsername]` */
  datatype VoteEntry = VoteEntry(answerUsername: string, voteUsername: string)
  /** `{ answerUsername, answerScore }` */
  datatype ScoreUpdate = ScoreUpdate(answerUsername: string, answerScore: int)
  /** One `assignPromptToPlayer(player, prompt)` call. */
  datatype Assignment = Assignment(player: Player, prompt: PromptEntry)
  /** What one pass of the prompt-fetching loop receives from the prompt API: the stored
      prompts `fetchPrompts` returns, and the answers of the successive `suggestPrompt` calls. */
  datatype FetchRound = FetchRound(fetched: seq<PromptEntry>, suggestions: seq<string>)

  const MinPlayers: nat := 3
  const StartRound: int := 1
  const RoundsPerGame: int := 3
  const PointsPerVote: int := 100
  const ApiAuthor: string := "API"
  const CannotGenerate: string := "Cannot generate suggestion"

  // ---------------------------------------------------------------- prompt arithmetic

  /** Prompts a round needs: one per pair of players, or one per player when the count is
      odd (so each player can answer two). */
  function NeedPrompts(numPlayers: nat): (r: nat)
    ensures numPlayers % 2 == 0 ==> 2 * r == numPlayers
    ensures numPlayers % 2 == 1 ==> r == numPlayers
    ensures r <= numPlayers && (numPlayers > 0 ==> r > 0)
  {
    if numPlayers % 2 == 0 then numPlayers / 2 else numPlayers
  }

  /** `halfPromptsReceived`: submitted / needed >= 0.5. The code divides in floating
      point; for a positive player count that is exactly this integer comparison. */
  function HalfReceived(submitted: nat, numPlayers: nat): (r: bool)
    requires numPlayers > 0
    ensures r <==> (submitted as real) / (NeedPrompts(numPlayers) as real) >= 0.5
    ensures numPlayers % 2 == 0 ==> (r <==> 4 * submitted >= numPlayers)
    ensures numPlayers % 2 == 1 ==> (r <==> 2 * submitted >= numPlayers)
  {
    HalfRatio(submitted, NeedPrompts(numPlayers));
    2 * submitted >= NeedPrompts(numPlayers)
  }

  /** `enoughPrompts`: at least as many prompts as the round needs. */
  function Enough(available: nat, numPlayers: nat): (r: bool)
    ensures r ==> numPlayers == 0 || HalfReceived(available, numPlayers)
    ensures numPlayers % 2 == 0 ==> (r <==> 2 * available >= numPlayers)
    ensures numPlayers % 2 == 1 ==> (r <==> available >= numPlayers)
  {
    available >= NeedPrompts(numPlayers)
  }

  /** The `needPrompts` of `assignPrompts`: the number of prompts handed out, one per
      answer slot, i.e. two per needed prompt. */
  function AssignCount(numPlayers: nat): (r: nat)
    ensures r == 2 * NeedPrompts(numPlayers)
    ensures numPlayers % 2 == 0 ==> r == numPlayers
    ensures numPlayers % 2 == 1 ==> r == 2 * numPlayers
  {
    if numPlayers % 2 == 0 then numPlayers else numPlayers * 2
  }

  // ---------------------------------------------------------------- prompt supply

  /** The prompts `generatePrompts` adds for the given API answers: one `['API', text]`
      per answer other than the refusal text. */
  function Generated(suggestions: seq<string>): (r: seq<PromptEntry>)
    ensures |r| <= |suggestions|
    ensures forall k :: 0 <= k < |r| ==> r[k].username == ApiAuthor && r[k].text != CannotGenerate
    ensures CannotGenerate !in suggestions ==> |r| == |suggestions|
  {
    if suggestions == [] then []
    else if suggestions[0] == CannotGenerate then Generated(suggestions[1..])
    else [PromptEntry(ApiAuthor, suggestions[0])] + Generated(suggestions[1..])
  }

  /** How many suggestions `generatePrompts` asks for: the shortfall against the need. */
  function Shortfall(available: nat, numPlayers: nat): (r: nat)
    ensures available + r >= NeedPrompts(numPlayers)
    ensures r > 0 ==> available + r == NeedPrompts(numPlayers)
  {
    if available >= NeedPrompts(numPlayers) then 0 else NeedPrompts(numPlayers) - available
  }

  /** The answers of `count` suggestion calls; a call the oracle does not cover is refused. */
  function Asked(suggestions: seq<string>, count: nat): (r: seq<string>)
    ensures |r| == count
    ensures count <= |suggestions| ==> r == suggestions[..count]
  {
    seq(count, k requires 0 <= k < count => if k < |suggestions| then suggestions[k] else CannotGenerate)
  }

  /** Call `i` is answered by the `i`-th suggestion, or refused when there is none. */
  lemma AskedAt(suggestions: seq<string>, count: nat, i: nat)
    requires i < count
    ensures Asked(suggestions, count)[i] == if i < |suggestions| then suggestions[i] else CannotGenerate
  {
  }

  /** One pass of the fetching loop: append the fetched prompts and, while still short of
      the assignment count, ask the suggestion API for the shortfall. A suggestion the
      oracle does not supply counts as a refusal. */
  function FetchPass(active: seq<PromptEntry>, numPlayers: nat, round: FetchRound): (r: seq<PromptEntry>)
    ensures active + round.fetched <= r
    ensures |r| <= |active| + |round.fetched| + Shortfall(|active| + |round.fetched|, numPlayers)
  {
    var after := active + round.fetched;
    if |after| < AssignCount(numPlayers) then
      after + Generated(Asked(round.suggestions, Shortfall(|after|, numPlayers)))
    else after
  }

  /** The fetching loop: passes run while the round does not have enough prompts. */
  function Supply(active: seq<PromptEntry>, numPlayers: nat, rounds: seq<FetchRound>): (r: seq<PromptEntry>)
    ensures active <= r
    ensures Enough(|active|, numPlayers) ==> r == active
    decreases |rounds|
  {
    if Enough(|active|, numPlayers) || rounds == [] then active
    else Supply(FetchPass(active, numPlayers, rounds[0]), numPlayers, rounds[1..])
  }

  lemma SupplyStep(active: seq<PromptEntry>, numPlayers: nat, rounds: seq<FetchRound>, pass: nat)
    requires pass < |rounds| && !Enough(|active|, numPlayers)
    ensures Supply(active, numPlayers, rounds[pass..])
         == Supply(FetchPass(active, numPlayers, rounds[pass]), numPlayers, rounds[pass + 1..])
  {
    assert rounds[pass..][1..] == rounds[pass + 1..];
  }

  /** A pass whose suggestion service answers every call reaches the need. */
  lemma {:induction false} FullSuggestionsSuffice(active: seq<PromptEntry>, numPlayers: nat, round: FetchRound)
    requires CannotGenerate !in round.suggestions
    requires |round.suggestions| >= Shortfall(|active| + |round.fetched|, numPlayers)
    ensures Enough(|FetchPass(active, numPlayers, round)|, numPlayers)
  {
    var after := active + round.fetched;
    if |after| < AssignCount(numPlayers) {
      var answers := Asked(round.suggestions, Shortfall(|after|, numPlayers));
      assert CannotGenerate !in answers;
    }
  }

  /** With no passes left, the loop leaves the prompts as they are. */
  lemma SupplyOfNoPasses(active: seq<PromptEntry>, numPlayers: nat, rounds: seq<FetchRound>, pass: nat)
    requires pass <= |rounds|
    ensures pass == |rounds| ==> Supply(active, numPlayers, rounds[pass..]) == active
  {
    if pass == |rounds| {
      assert rounds[pass..] == [];
    }
  }

  /** The loop stops with enough prompts unless it ran out of API passes. */
  lemma {:induction false} SupplyStopsWhenEnough(active: seq<PromptEntry>, numPlayers: nat, rounds: seq<FetchRound>)
    requires exists k :: 0 <= k < |rounds| && CannotGenerate !in rounds[k].suggestions
                      && |rounds[k].suggestions| >= NeedPrompts(numPlayers)
    ensures Enough(|Supply(active, numPlayers, rounds)|, numPlayers)
    decreases |rounds|
  {
    var k :| 0 <= k < |rounds| && CannotGenerate !in rounds[k].suggestions
             && |rounds[k].suggestions| >= NeedPrompts(numPlayers);
    if !Enough(|active|, numPlayers) {
      var next := FetchPass(active, numPlayers, rounds[0]);
      assert Supply(active, numPlayers, rounds) == Supply(next, numPlayers, rounds[1..]);
      if k == 0 {
        FullSuggestionsSuffice(active, numPlayers, rounds[0]);
        assert Supply(next, numPlayers, rounds[1..]) == next;
      } else {
        assert rounds[1..][k - 1] == rounds[k];
        SupplyStopsWhenEnough(next, numPlayers, rounds[1..]);
      }
    }
  }

  // ---------------------------------------------------------------- assignment

  /** The loop of `assignPrompts`: the k-th prompt goes to `players[k % n]`. */
  function RoundRobin(players: seq<Player>, prompts: seq<PromptEntry>): (r: seq<Assignment>)
    requires |players| > 0 || prompts == []
    ensures |r| == |prompts|
    ensures forall k :: 0 <= k < |r| ==> r[k].prompt == prompts[k] && r[k].player == players[k % |players|]
  {
    seq(|prompts|, k requires 0 <= k < |prompts| => Assignment(players[k % |players|], prompts[k]))
  }

  /** How many of the first `m` prompts go to the player at position `j` of `n`. */
  function Load(n: nat, m: nat, j: nat): (r: nat)
    requires n > 0
    ensures r <= m
  {
    if m == 0 then 0 else Load(n, m - 1, j) + (if (m - 1) % n == j then 1 else 0)
  }

  lemma {:induction false} LoadUpToTwoRounds(n: nat, m: nat, j: nat)
    requires 0 < n && m <= 2 * n && j < n
    ensures Load(n, m, j) == (if j < m then 1 else 0) + (if n + j < m then 1 else 0)
  {
    if m > 0 {
      LoadUpToTwoRounds(n, m - 1, j);
      if m - 1 < n {
        ModBelow(m - 1, n);
      } else {
        ModOnce(m - 1, n);
      }
    }
  }

  /** With the full count of prompts, every player gets the same number: one when the
      player count is even, two when it is odd. */
  lemma EvenShare(n: nat, j: nat)
    requires 0 < n && j < n
    ensures Load(n, AssignCount(n), j) == (if n % 2 == 0 then 1 else 2)
  {
    LoadUpToTwoRounds(n, AssignCount(n), j);
  }

  /** What `assignPrompts` deals from the shuffled players and the shuffled pool: the first
      `AssignCount` prompts, or the whole pool when it is smaller, round-robin. */
  function Dealing(players: seq<Player>, pool: seq<PromptEntry>): (r: seq<Assignment>)
    ensures |r| <= AssignCount(|players|) && |r| <= |pool|
    ensures |pool| >= AssignCount(|players|) ==> |r| == AssignCount(|players|)
    ensures forall k :: 0 <= k < |r| ==> r[k].prompt == pool[k] && r[k].player == players[k % |players|]
  {
    RoundRobin(players, pool[..if AssignCount(|players|) < |pool| then AssignCount(|players|) else |pool|])
  }

  /** Who receives each assignment, in dealing order. */
  function Recipients(dealt: seq<Assignment>): (r: seq<Player>)
    ensures |r| == |dealt| && forall k :: 0 <= k < |dealt| ==> r[k] == dealt[k].player
  {
    seq(|dealt|, k requires 0 <= k < |dealt| => dealt[k].player)
  }

  /** The recipients of `m` round-robin slots: slot `k` goes to `players[k % n]`. */
  function Cycle(players: seq<Player>, m: nat): (r: seq<Player>)
    requires |players| > 0
    ensures |r| == m && forall k :: 0 <= k < m ==> r[k] == players[k % |players|]
  {
    if m == 0 then [] else Cycle(players, m - 1) + [players[(m - 1) % |players|]]
  }

  /** With distinct players, the player at position `j` holds `Load` of the first `m` slots. */
  lemma CycleCountsLoad(players: seq<Player>, m: nat, j: nat)
    requires Distinct(players) && j < |players|
    ensures Occurrences(Cycle(players, m), players[j]) == Load(|players|, m, j)
  {
    var i := 0;
    while i < m
      invariant i <= m
      invariant Occurrences(Cycle(players, i), players[j]) == Load(|players|, i, j)
    {
      CycleStepCount(players, i + 1, j);
      i := i + 1;
    }
  }

  /** Slot `m - 1` counts for the player at position `j` exactly when `Load` counts it. */
  lemma CycleStepCount(players: seq<Player>, m: nat, j: nat)
    requires Distinct(players) && j < |players| && m > 0
    ensures Occurrences(Cycle(players, m - 1), players[j]) == Load(|players|, m - 1, j) ==>
            Occurrences(Cycle(players, m), players[j]) == Load(|players|, m, j)
  {
    var before := Cycle(players, m - 1);
    var slot := players[(m - 1) % |players|];
    assert Cycle(players, m) == before + [slot];
    assert slot == players[j] <==> (m - 1) % |players| == j;
    assert multiset(before + [slot])[players[j]] == multiset(before)[players[j]] + (if slot == players[j] then 1 else 0);
  }

  /** With distinct players, the player at position `j` receives `Load` of the dealt prompts. */
  lemma RoundRobinCountsLoad(players: seq<Player>, prompts: seq<PromptEntry>, j: nat)
    requires Distinct(players) && j < |players|
    ensures Occurrences(Recipients(RoundRobin(players, prompts)), players[j]) == Load(|players|, |prompts|, j)
  {
    assert Recipients(RoundRobin(players, prompts)) == Cycle(players, |prompts|);
    CycleCountsLoad(players, |prompts|, j);
  }

  /** With a pool of at least `AssignCount` prompts, `assignPrompts` gives every player one
      prompt when the player count is even and two when it is odd. */
  lemma FullPoolEvenShare(players: seq<Player>, pool: seq<PromptEntry>, j: nat)
    requires Distinct(players) && j < |players| && |pool| >= AssignCount(|players|)
    ensures Occurrences(Recipients(Dealing(players, pool)), players[j]) == (if |players| % 2 == 0 then 1 else 2)
  {
    assert Recipients(Dealing(players, pool)) == Cycle(players, |Dealing(players, pool)|);
    CycleCountsLoad(players, |Dealing(players, pool)|, j);
    EvenShare(|players|, j);
  }

  /** The dealing of `assignPrompts` from a pool of at least `AssignCount` prompts, whatever
      the draws: every one of the distinct players gets the even share. */
  lemma ShuffledDealShare(players: seq<Player>, pool: seq<PromptEntry>, playerDraws: seq<nat>,
                          promptDraws: seq<nat>, p: Player)
    requires ValidDraws(|players|, playerDraws, |players|) && ValidDraws(|pool|, promptDraws, |pool|)
    requires Distinct(players) && p in players && |pool| >= AssignCount(|players|)
    ensures var dealt := Dealing(FisherYates(players, playerDraws, |players|), FisherYates(pool, promptDraws, |pool|));
      Occurrences(Recipients(dealt), p) == (if |players| % 2 == 0 then 1 else 2)
  {
    var shuffled := FisherYates(players, playerDraws, |players|);
    FisherYatesPermutes(players, playerDraws, |players|);
    FisherYatesKeepsDistinct(players, playerDraws, |players|);
    assert p in multiset(shuffled);
    var j :| 0 <= j < |shuffled| && shuffled[j] == p;
    FullPoolEvenShare(shuffled, FisherYates(pool, promptDraws, |pool|), j);
  }

  /** The fetching loop stops at `NeedPrompts`, half of `AssignCount`. With an even player
      count and a pool that just meets the need, only the first half of the shuffled
      players is dealt a prompt; the others get none. */
  lemma ShortPoolLeavesPlayersOut(players: seq<Player>, pool: seq<PromptEntry>, j: nat)
    requires Distinct(players) && |players| % 2 == 0
    requires |pool| == NeedPrompts(|players|) && |pool| <= j < |players|
    ensures Enough(|pool|, |players|)
    ensures |Dealing(players, pool)| < AssignCount(|players|)
    ensures Occurrences(Recipients(Dealing(players, pool)), players[j]) == 0
  {
    assert Recipients(Dealing(players, pool)) == Cycle(players, |Dealing(players, pool)|);
    CycleCountsLoad(players, |Dealing(players, pool)|, j);
    LoadUpToTwoRounds(|players|, |pool|, j);
  }

  /** A corrected dealing in which every needed prompt has two answerers: each of the first
      `NeedPrompts` prompts fills two consecutive slots, and slot `k` goes to
      `players[k % n]`. */
  function DealInPairs(players: seq<Player>, pool: seq<PromptEntry>): (r: seq<Assignment>)
    requires |players| > 0 && |pool| >= NeedPrompts(|players|)
    ensures |r| == AssignCount(|players|)
    ensures forall k :: 0 <= k < |r| ==> r[k].prompt == pool[k / 2] && r[k].player == players[k % |players|]
  {
    seq(AssignCount(|players|), k requires 0 <= k < AssignCount(|players|) =>
      Assignment(players[k % |players|], pool[k / 2]))
  }

  /** Dealt in pairs, a pool that just meets the need gives every player one prompt
      (even count) or two (odd count). */
  lemma PairsEvenShare(players: seq<Player>, pool: seq<PromptEntry>, j: nat)
    requires Distinct(players) && j < |players| && |pool| >= NeedPrompts(|players|)
    ensures Occurrences(Recipients(DealInPairs(players, pool)), players[j]) == (if |players| % 2 == 0 then 1 else 2)
  {
    assert Recipients(DealInPairs(players, pool)) == Cycle(players, |DealInPairs(players, pool)|);
    CycleCountsLoad(players, |DealInPairs(players, pool)|, j);
    EvenShare(|players|, j);
  }

  /** Dealt in pairs, each needed prompt goes to two different players. */
  lemma PairsHaveTwoAnswerers(players: seq<Player>, pool: seq<PromptEntry>, i: nat)
    requires Distinct(players) && |players| >= 2 && |pool| >= NeedPrompts(|players|)
    requires i < NeedPrompts(|players|)
    ensures var r := DealInPairs(players, pool);
      && r[2 * i].prompt == pool[i] && r[2 * i + 1].prompt == pool[i]
      && r[2 * i].player != r[2 * i + 1].player
  {
    var n := |players|;
    ModNext(2 * i, n);
    assert (2 * i) / 2 == i && (2 * i + 1) / 2 == i;
  }

  // ---------------------------------------------------------------- scoring

  /** Whom each vote is for (`vote[0]`). */
  function Targets(votes: seq<VoteEntry>): (r: seq<string>)
    ensures |r| == |votes| && forall k :: 0 <= k < |votes| ==> r[k] == votes[k].answerUsername
  {
    seq(|votes|, k requires 0 <= k < |votes| => votes[k].answerUsername)
  }

  /** `votes.filter((vote) => vote[0] === username).length` */
  function VotesFor(votes: seq<VoteEntry>, username: string): (r: nat)
    ensures r <= |votes|
    ensures r == multiset(Targets(votes))[username]
    ensures username !in Targets(votes) ==> r == 0
  {
    Occurrences(Targets(votes), username)
  }

  /** `answerVotes * roundNumber * 100` */
  function Points(answerVotes: nat, round: int): int {
    answerVotes * round * PointsPerVote
  }

  lemma PointsAdd(a: nat, b: nat, round: int)
    ensures Points(a + b, round) == Points(a, round) + Points(b, round)
  {
    assert (a + b) * round == a * round + b * round;
  }

  lemma PointsMonotone(a: nat, b: nat, round: int)
    requires a <= b && round >= 0
    ensures 0 <= Points(a, round) <= Points(b, round)
  {
    assert a * round <= b * round;
  }

  /** The entries `calculateVoteScores` appends, one per answer in answer order. */
  function VoteScores(answers: seq<AnswerEntry>, votes: seq<VoteEntry>, round: int): (r: seq<ScoreUpdate>)
    ensures |r| == |answers|
    ensures forall k :: 0 <= k < |r| ==> r[k].answerUsername == answers[k].answerUsername
  {
    seq(|answers|, k requires 0 <= k < |answers| =>
      ScoreUpdate(answers[k].answerUsername, Points(VotesFor(votes, answers[k].answerUsername), round)))
  }

  /** Each answer scores 100 × round per vote naming its author: never negative, never
      more than all the votes together are worth, and zero when nobody voted for it. */
  lemma ScoresAreBounded(answers: seq<AnswerEntry>, votes: seq<VoteEntry>, round: int, k: nat)
    requires round >= 1 && k < |answers|
    ensures var s := VoteScores(answers, votes, round)[k].answerScore;
      && s == Points(multiset(Targets(votes))[answers[k].answerUsername], round)
      && 0 <= s <= Points(|votes|, round)
      && (answers[k].answerUsername !in Targets(votes) ==> s == 0)
  {
    var v := VotesFor(votes, answers[k].answerUsername);
    PointsMonotone(v, |votes|, round);
  }

  function TotalScore(us: seq<ScoreUpdate>): int {
    if us == [] then 0 else us[0].answerScore + TotalScore(us[1..])
  }

  function Authors(answers: seq<AnswerEntry>): (r: seq<string>)
    ensures |r| == |answers| && forall k :: 0 <= k < |answers| ==> r[k] == answers[k].answerUsername
  {
    seq(|answers|, k requires 0 <= k < |answers| => answers[k].answerUsername)
  }

  lemma {:induction false} OccursAtMostOnce(s: seq<string>, x: string)
    requires Distinct(s)
    ensures Occurrences(s, x) <= 1
  {
    if s != [] {
      OccursAtMostOnce(s[1..], x);
      if s[0] == x {
        assert x !in s[1..];
      }
    }
  }

  /** The votes naming any of `authors`, counted once per author. */
  function VoteTotal(authors: seq<string>, targets: seq<string>): nat {
    if authors == [] then 0 else Occurrences(targets, authors[0]) + VoteTotal(authors[1..], targets)
  }

  lemma {:induction false} VoteTotalSplit(authors: seq<string>, targets: seq<string>)
    requires targets != []
    ensures VoteTotal(authors, targets) == Occurrences(authors, targets[0]) + VoteTotal(authors, targets[1..])
  {
    if authors != [] {
      VoteTotalSplit(authors[1..], targets);
    }
  }

  lemma {:induction false} VoteTotalBound(authors: seq<string>, targets: seq<string>)
    requires Distinct(authors)
    ensures VoteTotal(authors, targets) <= |targets|
    decreases |targets|, |authors|
  {
    if authors == [] {
    } else if targets == [] {
      VoteTotalBound(authors[1..], targets);
    } else {
      VoteTotalSplit(authors, targets);
      VoteTotalBound(authors, targets[1..]);
      OccursAtMostOnce(authors, targets[0]);
    }
  }

  lemma {:induction false} TotalIsVoteTotal(answers: seq<AnswerEntry>, votes: seq<VoteEntry>, round: int)
    ensures TotalScore(VoteScores(answers, votes, round)) == Points(VoteTotal(Authors(answers), Targets(votes)), round)
  {
    if answers != [] {
      TotalIsVoteTotal(answers[1..], votes, round);
      assert VoteScores(answers, votes, round)[1..] == VoteScores(answers[1..], votes, round);
      assert Authors(answers)[1..] == Authors(answers[1..]);
      PointsAdd(VotesFor(votes, answers[0].answerUsername), VoteTotal(Authors(answers[1..]), Targets(votes)), round);
    }
  }

  /** When every answer has its own author, the points of one results phase add up to at
      most 100 × round per vote cast: no vote is counted twice. */
  lemma PointsBoundedByVotes(answers: seq<AnswerEntry>, votes: seq<VoteEntry>, round: int)
    requires round >= 1 && Distinct(Authors(answers))
    ensures TotalScore(VoteScores(answers, votes, round)) <= Points(|votes|, round)
  {
    TotalIsVoteTotal(answers, votes, round);
    VoteTotalBound(Authors(answers), Targets(votes));
    PointsMonotone(VoteTotal(Authors(answers), Targets(votes)), |votes|, round);
  }

  // ---------------------------------------------------------------- phases

  /** The part of the game state the phase machine writes. */
  datatype PhaseState = PhaseState(phase: Phase, round: int, total: int)

  /** `nextRoundOrEndGame` */
  function NextRound(s: PhaseState): (r: PhaseState)
    ensures r.total == s.total
    ensures s.round < s.total ==> r == PhaseState(Prompts, s.round + 1, s.total)
    ensures s.round >= s.total ==> r == s.(phase := EndGame)
  {
    if s.round < s.total then PhaseState(Prompts, s.round + 1, s.total) else s.(phase := EndGame)
  }

  /** One phase exit: the poll of joining (three players) and prompts (half the prompts
      in), the timers of answers, voting and results, and the immediate move out of
      scores. The end of the game is terminal. */
  function NextState(s: PhaseState, playerCount: nat, halfReceived: bool): (r: PhaseState)
    ensures r.total == s.total
    ensures s.phase == Joining ==> (r.phase == Prompts <==> playerCount >= MinPlayers)
    ensures s.phase != Scores ==> r.round == s.round
  {
    match s.phase
    case Joining => if playerCount >= MinPlayers then s.(phase := Prompts) else s
    case Prompts => if halfReceived then s.(phase := Answers) else s
    case Answers => s.(phase := Voting)
    case Voting => s.(phase := Results)
    case Results => s.(phase := Scores)
    case Scores => NextRound(s)
    case EndGame => s
  }

  /** Each phase's successor: joining and prompts wait on their guards, answers, voting
      and results move on unconditionally, and scores starts a round or ends the game. */
  lemma NextStateSuccessors(s: PhaseState, playerCount: nat, halfReceived: bool)
    ensures var r := NextState(s, playerCount, halfReceived);
      && (s.phase == Joining ==> (r.phase == Prompts <==> playerCount >= MinPlayers))
      && (s.phase == Joining && r.phase != Prompts ==> r.phase == Joining)
      && (s.phase == Prompts ==> (r.phase == Answers <==> halfReceived))
      && (s.phase == Prompts && !halfReceived ==> r.phase == Prompts)
      && (s.phase == Answers ==> r.phase == Voting)
      && (s.phase == Voting ==> r.phase == Results)
      && (s.phase == Results ==> r.phase == Scores)
      && (s.phase == Scores ==> r.phase == Prompts || r.phase == EndGame)
  {
  }

  ghost predicate RoundInRange(s: PhaseState) {
    1 <= s.round <= s.total
  }

  /** The round counter never leaves 1..totalRounds. */
  lemma NextStateKeepsRound(s: PhaseState, playerCount: nat, halfReceived: bool)
    requires RoundInRange(s)
    ensures RoundInRange(NextState(s, playerCount, halfReceived))
    ensures s.phase == EndGame ==> NextState(s, playerCount, halfReceived) == s
  {
  }

  /** The phases visited in `steps` exits when every guard holds. */
  function Run(s: PhaseState, steps: nat): (r: seq<Phase>)
    ensures |r| == steps
    decreases steps
  {
    if steps == 0 then [] else [s.phase] + Run(NextState(s, MinPlayers, true), steps - 1)
  }

  const RoundPhases: seq<Phase> := [Prompts, Answers, Voting, Results, Scores]

  function Repeat(k: nat): seq<Phase> {
    if k == 0 then [] else RoundPhases + Repeat(k - 1)
  }

  /** The five phases of one round, from prompts to the next round's start or the end. */
  lemma OneRound(s: PhaseState, k: nat)
    requires s.phase == Prompts
    ensures Run(s, k + 5) == RoundPhases + Run(NextRound(s), k)
  {
    RunStep(s.(phase := Scores), k);
    RunStep(s.(phase := Results), k + 1);
    RunStep(s.(phase := Voting), k + 2);
    RunStep(s.(phase := Answers), k + 3);
    RunStep(s, k + 4);
  }

  lemma RunStep(s: PhaseState, k: nat)
    ensures Run(s, k + 1) == [s.phase] + Run(NextState(s, MinPlayers, true), k)
  {
  }

  /** Started at the prompts of round r, the game goes through the five phases of every
      round up to totalRounds, in order, and then ends. */
  lemma {:induction false} GamePlaysEveryRound(r: int, t: int)
    requires 1 <= r <= t
    ensures Run(PhaseState(Prompts, r, t), 5 * (t - r + 1) + 1) == Repeat(t - r + 1) + [EndGame]
    decreases t - r
  {
    var n := 5 * (t - r);
    var s := PhaseState(Prompts, r, t);
    assert 5 * (t - r + 1) + 1 == n + 1 + 5;
    OneRound(s, n + 1);
    if r < t {
      GamePlaysEveryRound(r + 1, t);
    } else {
      assert Run(PhaseState(EndGame, r, t), 1) == [EndGame];
    }
  }

  /** A fresh game, from its first exit of joining, plays exactly three rounds. */
  lemma FreshGamePlaysThreeRounds()
    ensures Run(PhaseState(Joining, StartRound, RoundsPerGame), 17) == [Joining] + Repeat(3) + [EndGame]
  {
    GamePlaysEveryRound(1, 3);
  }

  /** One room's game (server/utils/gameLogic.js). */
  class GameLogic {
    var phase: Phase
    var activePrompts: seq<PromptEntry>
    var submittedPrompts: seq<PromptEntry>
    var answers: seq<AnswerEntry>
    var votes: seq<VoteEntry>
    var roundNumber: int
    var totalRounds: int
    var updateScores: seq<ScoreUpdate>
    var numPlayers: nat
    /** Set by the room registry; absent from a freshly reset state. */
    var gameCode: Option<string>

    ghost function State(): PhaseState
      reads this
    {
      PhaseState(phase, roundNumber, totalRounds)
    }

    ghost predicate Valid()
      reads this
    {
      RoundInRange(State())
    }

    ghost predicate IsReset()
      reads this
    {
      && phase == Joining
      && activePrompts == [] && submittedPrompts == [] && answers == [] && votes == []
      && roundNumber == StartRound && totalRounds == RoundsPerGame
      && updateScores == [] && numPlayers == 0 && gameCode == None
    }

    constructor ()
      ensures IsReset() && Valid()
    {
      phase := Joining;
      activePrompts, submittedPrompts, answers, votes := [], [], [], [];
      roundNumber, totalRounds := StartRound, RoundsPerGame;
      updateScores, numPlayers, gameCode := [], 0, None;
    }

    /** `resetGameState` replaces the whole state object, so a stored code is dropped too. */
    method ResetGameState()
      modifies this
      ensures IsReset() && Valid()
    {
      phase := Joining;
      activePrompts, submittedPrompts, answers, votes := [], [], [], [];
      roundNumber, totalRounds := StartRound, RoundsPerGame;
      updateScores, numPlayers, gameCode := [], 0, None;
    }

    method CalculateVoteScores() returns (r: seq<ScoreUpdate>)
      modifies this`updateScores
      ensures updateScores == old(updateScores) + VoteScores(answers, votes, roundNumber)
      ensures r == updateScores
    {
      var i := 0;
      while i < |answers|
        invariant 0 <= i <= |answers|
        invariant updateScores == old(updateScores) + VoteScores(answers, votes, roundNumber)[..i]
      {
        var answerUsername := answers[i].answerUsername;
        var answerVotes := VotesFor(votes, answerUsername);
        var answerScore := answerVotes * roundNumber * PointsPerVote;
        updateScores := updateScores + [ScoreUpdate(answerUsername, answerScore)];
        i := i + 1;
      }
      assert VoteScores(answers, votes, roundNumber)[..i] == VoteScores(answers, votes, roundNumber);
      r := updateScores;
    }

    function HalfPromptsReceived(playerCount: nat): (r: bool)
      reads this
      requires playerCount > 0
      ensures r <==> (|submittedPrompts| as real) / (NeedPrompts(playerCount) as real) >= 0.5
    {
      HalfReceived(|submittedPrompts|, playerCount)
    }

    function EnoughPrompts(playerCount: nat): (r: bool)
      reads this
      ensures r <==> |activePrompts| >= NeedPrompts(playerCount)
    {
      Enough(|activePrompts|, playerCount)
    }

    /** One step of `generatePrompts`: the suggestion at position `i` is appended
        unless it is the refusal. */
    method TakeSuggestion(ghost base: seq<PromptEntry>, ghost answers: seq<string>, i: nat, text: string)
      requires i < |answers| && text == answers[i]
      requires activePrompts == base + Generated(answers[..i])
      modifies this`activePrompts
      ensures activePrompts == base + Generated(answers[..i + 1])
    {
      GeneratedStep(answers, i);
      if text != CannotGenerate {
        activePrompts := activePrompts + [PromptEntry(ApiAuthor, text)];
      }
    }

    /** `generatePrompts`: ask for the shortfall, keep every answer but the refusal. */
    method GeneratePrompts(suggestions: seq<string>)
      modifies this`activePrompts
      ensures activePrompts == old(activePrompts) + Generated(Asked(suggestions, Shortfall(|old(activePrompts)|, numPlayers)))
    {
      var numGenerated := Shortfall(|activePrompts|, numPlayers);
      ghost var answers := Asked(suggestions, numGenerated);
      var i := 0;
      while i < numGenerated
        invariant 0 <= i <= numGenerated
        invariant activePrompts == old(activePrompts) + Generated(answers[..i])
      {
        var suggestedPromptText := if i < |suggestions| then suggestions[i] else CannotGenerate;
        AskedAt(suggestions, numGenerated, i);
        TakeSuggestion(old(activePrompts), answers, i, suggestedPromptText);
        i := i + 1;
      }
      assert answers[..i] == answers;
    }

    /** `assignPrompts`: fetch until there are enough prompts, shuffle the players and the
        prompts, then deal the first `AssignCount` prompts round-robin. The returned list
        records the `assignPromptToPlayer` calls in order. */
    method AssignPrompts(players: seq<Player>, rounds: seq<FetchRound>, playerDraws: seq<nat>, promptDraws: seq<nat>)
      returns (dealt: seq<Assignment>)
      requires ValidDraws(|players|, playerDraws, |players|)
      requires ValidDraws(|Supply(activePrompts, |players|, rounds)|, promptDraws,
                          |Supply(activePrompts, |players|, rounds)|)
      requires Enough(|Supply(activePrompts, |players|, rounds)|, |players|)
      modifies this`numPlayers, this`activePrompts
      ensures numPlayers == |players|
      ensures activePrompts == Supply(old(activePrompts), |players|, rounds)
      ensures Enough(|activePrompts|, |players|)
      ensures dealt == Dealing(FisherYates(players, playerDraws, |players|),
                               FisherYates(activePrompts, promptDraws, |activePrompts|))
    {
      numPlayers := |players|;
      SupplyPrompts(rounds);
      dealt := DealShuffled(players, activePrompts, playerDraws, promptDraws);
    }

    /** The fetching loop of `assignPrompts`: while there are not enough prompts, append
        what the prompt store returns and, if still short of the assignment count, generate
        the shortfall. One element of `rounds` per pass; the passes given are enough for the
        loop to stop. */
    method SupplyPrompts(rounds: seq<FetchRound>)
      requires Enough(|Supply(activePrompts, numPlayers, rounds)|, numPlayers)
      modifies this`activePrompts
      ensures activePrompts == Supply(old(activePrompts), numPlayers, rounds)
      ensures Enough(|activePrompts|, numPlayers)
    {
      var needPrompts := if numPlayers % 2 == 0 then numPlayers else numPlayers * 2;
      var pass := 0;
      while !EnoughPrompts(numPlayers)
        invariant 0 <= pass <= |rounds|
        invariant Supply(activePrompts, numPlayers, rounds[pass..]) == Supply(old(activePrompts), numPlayers, rounds)
        decreases |rounds| - pass
      {
        SupplyOfNoPasses(activePrompts, numPlayers, rounds, pass);
        ghost var before := activePrompts;
        FetchOnce(rounds[pass]);
        SupplyStep(before, numPlayers, rounds, pass);
        pass := pass + 1;
      }
    }

    /** One pass of the fetching loop: append what the prompt store returns and, if still
        short of the assignment count, generate the shortfall. */
    method FetchOnce(round: FetchRound)
      modifies this`activePrompts
      ensures activePrompts == FetchPass(old(activePrompts), numPlayers, round)
    {
      var needPrompts := if numPlayers % 2 == 0 then numPlayers else numPlayers * 2;
      activePrompts := activePrompts + round.fetched;
      if |activePrompts| < needPrompts {
        GeneratePrompts(round.suggestions);
      }
    }

    /** `nextRoundOrEndGame` */
    method NextRoundOrEndGame()
      requires Valid()
      modifies this`roundNumber, this`phase
      ensures Valid()
      ensures State() == NextRound(old(State()))
    {
      if roundNumber < totalRounds {
        roundNumber := roundNumber + 1;
        phase := Prompts;
      } else {
        phase := EndGame;
      }
    }

    /** One firing of the poll or timer of the current phase (`advanceGameState` and the
        phase handlers it dispatches to). Leaving prompts runs `assignPrompts` first;
        entering results runs `calculateVoteScores`. */
    method AdvanceGameState(players: seq<Player>, rounds: seq<FetchRound>, playerDraws: seq<nat>, promptDraws: seq<nat>)
      returns (dealt: seq<Assignment>)
      requires Valid()
      requires phase == Prompts ==> |players| > 0
      requires phase == Prompts ==> ValidDraws(|players|, playerDraws, |players|)
      requires phase == Prompts ==> ValidDraws(|Supply(activePrompts, |players|, rounds)|, promptDraws,
                                               |Supply(activePrompts, |players|, rounds)|)
      requires phase == Prompts && HalfReceived(|submittedPrompts|, |players|) ==>
                 Enough(|Supply(activePrompts, |players|, rounds)|, |players|)
      modifies this
      ensures Valid()
      ensures State() == NextState(old(State()), |players|,
                                   old(phase) == Prompts && HalfReceived(|old(submittedPrompts)|, |players|))
      ensures old(phase) == Prompts && HalfReceived(|old(submittedPrompts)|, |players|) ==>
                && numPlayers == |players|
                && activePrompts == Supply(old(activePrompts), |players|, rounds)
                && Enough(|activePrompts|, |players|)
                && dealt == Dealing(FisherYates(players, playerDraws, |players|),
                                    FisherYates(activePrompts, promptDraws, |activePrompts|))
      ensures !(old(phase) == Prompts && HalfReceived(|old(submittedPrompts)|, |players|)) ==>
                numPlayers == old(numPlayers) && activePrompts == old(activePrompts) && dealt == []
      ensures old(phase) == Voting ==> updateScores == old(updateScores) + VoteScores(answers, votes, roundNumber)
      ensures old(phase) != Voting ==> updateScores == old(updateScores)
      ensures dealt != [] ==> old(phase) == Prompts
      ensures submittedPrompts == old(submittedPrompts) && answers == old(answers) && votes == old(votes)
      ensures gameCode == old(gameCode)
    {
      dealt := [];
      match phase
      case Joining =>
        if |players| >= MinPlayers {
          phase := Prompts;
        }
      case Prompts =>
        if HalfPromptsReceived(|players|) {
          dealt := AssignPrompts(players, rounds, playerDraws, promptDraws);
          phase := Answers;
        }
      case Answers =>
        phase := Voting;
      case Voting =>
        phase := Results;
        var _ := CalculateVoteScores();
      case Results =>
        phase := Scores;
      case Scores =>
        NextRoundOrEndGame();
      case EndGame =>
        phase := EndGame;
    }
  }

  /** `shuffleArray([...s])`: a shuffled copy of `s`. */
  method ShuffledCopy<T>(s: seq<T>, draws: seq<nat>) returns (r: seq<T>)
    requires ValidDraws(|s|, draws, |s|)
    ensures r == FisherYates(s, draws, |s|)
    ensures multiset(r) == multiset(s)
  {
    var a := new T[|s|](k requires 0 <= k < |s| => s[k]);
    assert a[..] == s;
    var b := ShuffleInPlace(a, draws);
    r := b[..];
  }

  /** The second half of `assignPrompts`: shuffle copies of the players and of the pool,
      then deal the first `needPrompts` (that is, `AssignCount`) shuffled prompts. */
  method DealShuffled(players: seq<Player>, pool: seq<PromptEntry>, playerDraws: seq<nat>, promptDraws: seq<nat>)
    returns (dealt: seq<Assignment>)
    requires ValidDraws(|players|, playerDraws, |players|)
    requires ValidDraws(|pool|, promptDraws, |pool|)
    ensures dealt == Dealing(FisherYates(players, playerDraws, |players|), FisherYates(pool, promptDraws, |pool|))
  {
    var needPrompts := if |players| % 2 == 0 then |players| else |players| * 2;
    var shuffledPlayers := ShuffledCopy(players, playerDraws);
    var shuffledPrompts := ShuffledCopy(pool, promptDraws);
    var take := if needPrompts < |shuffledPrompts| then needPrompts else |shuffledPrompts|;
    dealt := DealPrompts(shuffledPlayers, shuffledPrompts[..take]);
  }

  /** The dealing loop of `assignPrompts`: prompt `k` to player `k % n`. */
  method DealPrompts(players: seq<Player>, prompts: seq<PromptEntry>) returns (dealt: seq<Assignment>)
    requires |players| > 0 || prompts == []
    ensures dealt == RoundRobin(players, prompts)
  {
    var playerIndex := 0;
    dealt := [];
    while playerIndex < |prompts|
      invariant 0 <= playerIndex <= |prompts|
      invariant dealt == RoundRobin(players, prompts[..playerIndex])
    {
      var player := players[playerIndex % |players|];
      assert prompts[..playerIndex + 1] == prompts[..playerIndex] + [prompts[playerIndex]];
      dealt := dealt + [Assignment(player, prompts[playerIndex])];
      playerIndex := playerIndex + 1;
    }
    assert prompts[..playerIndex] == prompts;
  }

  lemma GeneratedStep(s: seq<string>, i: nat)
    requires i < |s|
    ensures Generated(s[..i + 1]) == Generated(s[..i]) + (if s[i] == CannotGenerate then [] else [PromptEntry(ApiAuthor, s[i])])
  {
    assert s[..i + 1] == s[..i] + [s[i]];
    GeneratedAppend(s[..i], s[i]);
  }

  lemma GeneratedAppend(s: seq<string>, x: string)
    ensures Generated(s + [x]) == Generated(s) + (if x == CannotGenerate then [] else [PromptEntry(ApiAuthor, x)])
  {
    if s != [] {
      assert (s + [x])[1..] == s[1..] + [x];
      GeneratedAppend(s[1..], x);
    } else {
      assert [x][1..] == [];
    }
  }
}
