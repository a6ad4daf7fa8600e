# Quiplash clone: game session core in Dafny

This project models the game-session core of a Node.js Quiplash clone and proves
properties of that model:

- **The server roster** (`PlayerManager` and the `Player` record). It holds up to eight
  players and an audience under unique names, adds and removes users and moves the
  admin flag.
- **The server game logic** (`GameLogic`):
  - the phase cycle joining → prompts → answers → voting → results → scores over three
    rounds;
  - the prompt-count tests, prompt supply from the backend and the suggestion service;
  - the Fisher–Yates shuffle, the round-robin dealing of prompts, and vote scoring.
- **The earlier draft** of both files (`oldies/`):
  - its paired dealing of prompt indices;
  - its checks on prompt, answer and vote submissions, and its vote ledger;
  - its round and total scores and its round change.
- **The game controller's room registry**, a map from six-character codes to games:
  code generation, create, case-insensitive join, teardown on disconnect, the pairing of
  submitted answers with prompts, and the chat relay.
- **The register and login routes'** length validation.

How it is modelled:
- Objects that the source updates in place are classes with a `Valid()` invariant. Each
  method's contract ties its new state to a pure function of the old state.
- The properties are lemmas about those functions.
- Randomness is a parameter. The shuffles and the code generator take their random
  indices as a sequence.
- The backend and suggestion services are parameters too. `FetchRound` holds one
  fetch's prompts and the suggestions of the pass that follows it. `BackendCall` is the
  reply of the registration backend.
- The source's dictionaries keyed by user name are insertion-ordered sequences.

The files, one module each:
- `Common.dfy`: Option and sequence helpers.
- `Players.dfy`: server/models/playerModel.js.
- `Roster.dfy`: server/utils/playerManager.js.
- `Shuffling.dfy`: both `shuffleArray`s.
- `Game.dfy`: server/utils/gameLogic.js.
- `DraftRoster.dfy`: oldies/playerManager.js.
- `DraftGame.dfy`: oldies/gameLogic.js.
- `Registry.dfy`: server/controllers/gameController.js.
- `Auth.dfy`: server/controllers/authController.js.

Where the code and the documented design disagree, the model follows the code:
- The player constructor ignores the admin flag. It is modelled as written, and the
  corrected flag is used from the roster on (see Findings).
- The draft's prompt test divides the wrong way round (see Findings).
- The register route's message says "less than 5 characters" while the check rejects
  fewer than 4. The model keeps both as written.

## Model

| member | source | states |
|---|---|---|
| Players.NewPlayer | server/models/playerModel.js:3-13 | a new player has the given socket and name, no admin flag, zero score and round score, no prompts, state active |
| Players.NewPlayerAs | server/utils/playerManager.js:24-25 | the player the roster's call site asks for: as `NewPlayer`, with the admin flag it passes |
| Roster.Join | server/utils/playerManager.js:14-28 | as written: a taken name is refused with no change; a full room (8) sends the user to the audience and refuses; otherwise exactly one player is appended |
| Roster.JoinAudience | server/utils/playerManager.js:31-43 | a taken name is refused with no change; otherwise one member is appended in state active |
| Roster.WithFirstAdmin | server/utils/playerManager.js:71-76 | the first remaining player gets the flag; no other player changes |
| Roster.Leave | server/utils/playerManager.js:46-68 | a matching player is removed, the admin is reassigned and the name returned; otherwise a matching audience member is removed; otherwise null and no change |
| Roster.JoinKeepsInvariant | server/utils/playerManager.js:14-43 | joins keep names unique across both maps, players at most 8, the admin only first, and scores non-negative |
| Roster.LeaveKeepsInvariant | server/utils/playerManager.js:46-76 | removals keep the same invariant |
| Roster.RemoveAtKeepsInvariant | server/utils/playerManager.js:53 | deleting one player keeps the invariant |
| Roster.RemoveMemberKeepsInvariant | server/utils/playerManager.js:63 | deleting one audience member keeps the invariant |
| Roster.WithFirstAdminKeepsInvariant | server/utils/playerManager.js:71-76 | reassigning the admin keeps the invariant |
| Roster.AppendPlayerKeepsInvariant | server/utils/playerManager.js:26 | appending a fresh non-admin player under a free name below capacity keeps the invariant |
| Roster.AppendMemberKeepsInvariant | server/utils/playerManager.js:41 | appending a member under a free name keeps the invariant |
| Roster.AdminOnlyFirstGivesAtMostOne | server/utils/playerManager.js:23-27 | if only the first player can be admin, there is at most one admin |
| Roster.PlayerLeaveLeavesAdmin | server/utils/playerManager.js:51-55 | after a player leaves a room of two or more, one fewer player remains and the first is admin |
| Roster.FirstJoinerIsNotAdmin | server/models/playerModel.js:4-7 | as written, the first player of a fresh room is not admin |
| Roster.JoinHonouringAdmin | server/utils/playerManager.js:23-27 | `addPlayer` with the computed flag kept: the first player of an empty room is admin, later ones are not |
| Roster.HonouredAdminIsUnique | server/utils/playerManager.js:23-27 | with the flag kept, joins and leaves keep the invariant and exactly one admin whenever a player exists |
| Roster.PlayerNamed | server/utils/playerManager.js:79-81 | the player stored under a name, or none exactly when no player has it |
| Roster.PlayerNamedAt | server/utils/playerManager.js:79-81 | with unique names, looking up a player's name finds that player |
| Roster.SetState | server/utils/playerManager.js:121-126 | only the named player's state changes; the names and length stay; an unknown name changes nothing |
| Roster.SetMemberState | oldies/playerManager.js:150-154 | only the named audience member's state changes; the names and length stay; an unknown name changes nothing |
| Roster.SameSeatsKeepInvariant | server/utils/playerManager.js:121-126 | updates that keep every name and flag, and keep scores non-negative, keep the invariant and the single admin |
| Roster.PlayerManager.constructor | server/utils/playerManager.js:8-11 | both maps start empty |
| Roster.PlayerManager.AddPlayer | server/utils/playerManager.js:14-28 | the result and new roster are `JoinHonouringAdmin` of the old; the invariant with one admin is kept |
| Roster.PlayerManager.AddAudience | server/utils/playerManager.js:31-43 | the result and new roster are `JoinAudience` of the old; the invariant is kept |
| Roster.PlayerManager.RemoveUserBySocketId | server/utils/playerManager.js:46-68 | the result and new roster are `Leave` of the old; the invariant is kept |
| Roster.PlayerManager.ReassignAdmin | server/utils/playerManager.js:71-76 | the players become `WithFirstAdmin` of the old, the audience is unchanged, and exactly one admin is restored |
| Roster.PlayerManager.GetPlayers | server/controllers/gameController.js:43 | as many players as stored, under the same names in the same order |
| Roster.PlayerManager.GetPlayer | server/utils/playerManager.js:79-81 | none exactly when no player has the name; otherwise a stored player of that name |
| Roster.PlayerManager.GetPlayerBySocketId | server/utils/playerManager.js:84-88 | none exactly when no player has the socket; otherwise the first stored player with that socket, where `find` stops |
| Roster.PlayerManager.IsUserInGame | server/utils/playerManager.js:91-96 | true exactly when a player or an audience member has the name |
| Roster.PlayerManager.GetUsernameBySocketId | server/utils/playerManager.js:99-107 | the name of the first player with the socket; failing that, the name of the first audience member with it; none exactly when neither has the socket |
| Roster.PlayerManager.GetTotalPlayers | server/utils/playerManager.js:110-112 | the number of players, never above 8 |
| Roster.PlayerManager.IsAdmin | server/utils/playerManager.js:115-118 | false for unknown names; in a valid roster, the named player's own flag, which only the first player can hold |
| Roster.PlayerManager.UpdatePlayerState | server/utils/playerManager.js:121-126 | the players become `SetState` of the old; the audience and the invariant are kept |
| Shuffling.Swap | server/utils/gameLogic.js:67 | the two positions exchange their elements and the length is kept |
| Shuffling.SwapKeepsOthers | server/utils/gameLogic.js:67 | nothing but the two swapped positions moves |
| Shuffling.SwapPermutes | server/utils/gameLogic.js:67 | a swap keeps the multiset of elements |
| Shuffling.FisherYates | server/utils/gameLogic.js:62-70 | the order after a number of swap steps; its length is kept |
| Shuffling.FisherYatesPermutes | server/utils/gameLogic.js:62-70 | any number of steps is a permutation of the input |
| Shuffling.SwapKeepsDistinct | server/utils/gameLogic.js:67 | a swap keeps a sequence free of repeats |
| Shuffling.FisherYatesKeepsDistinct | server/utils/gameLogic.js:62-70 | a shuffle of distinct elements has distinct elements |
| Shuffling.LastStepIsIdentity | oldies/gameLogic.js:47-54 | the server's extra last step at index 0 changes nothing, so both shuffles give the same order for the same draws |
| Shuffling.SwapStep | server/utils/gameLogic.js:67 | one swap takes an array holding the order after `t` steps to the order after `t + 1` |
| Shuffling.ServerLoop | server/utils/gameLogic.js:63-69 | the server's loop leaves the array holding `FisherYates` of its old contents with n steps |
| Shuffling.ShuffleInPlace | server/utils/gameLogic.js:62-70 | shuffles in place, returns the same array, and the result is `FisherYates` of the input and a permutation of it |
| Shuffling.DraftLoop | oldies/gameLogic.js:49-53 | the draft's loop leaves the array holding `FisherYates` of its old contents with n − 1 steps |
| Shuffling.ShuffleCopy | oldies/gameLogic.js:47-54 | returns a fresh array holding `FisherYates` of the input with n − 1 steps, which is a permutation of the input |
| Game.NeedPrompts | server/utils/gameLogic.js:47 | n/2 for even n, n for odd n; positive when n is |
| Game.HalfReceived | server/utils/gameLogic.js:45-49 | true exactly when submitted/needed ≥ 0.5; equivalently 4s ≥ n (even n) or 2s ≥ n (odd n) |
| Game.Enough | server/utils/gameLogic.js:73-77 | at least the needed number of prompts; this implies the half test |
| Game.AssignCount | server/utils/gameLogic.js:100 | n for even n, 2n for odd n: twice the needed number |
| Game.Generated | server/utils/gameLogic.js:84-93 | at most one prompt per suggestion, each authored by "API" and never the refusal text; none dropped when no suggestion is the refusal |
| Game.Shortfall | server/utils/gameLogic.js:80-82 | enough generated prompts to reach the needed number, and exactly that many when any are missing |
| Game.FetchPass | server/utils/gameLogic.js:105-111 | one pass appends the fetched prompts, then at most the shortfall in suggestions |
| Game.Supply | server/utils/gameLogic.js:105-111 | only appends prompts, and appends none when there are already enough |
| Game.FullSuggestionsSuffice | server/utils/gameLogic.js:105-111 | a pass whose suggestions are all usable and numerous enough ends with enough prompts |
| Game.SupplyStopsWhenEnough | server/utils/gameLogic.js:105-111 | if some pass's suggestions contain no refusal, the loop ends with enough prompts |
| Game.RoundRobin | server/utils/gameLogic.js:118-124 | prompt k goes to player k mod n, every prompt once, in order |
| Game.LoadUpToTwoRounds | server/utils/gameLogic.js:118-124 | with at most 2n prompts, player j gets one prompt per lap that reaches j |
| Game.EvenShare | server/utils/gameLogic.js:118-124 | with the assigned count, every player gets one prompt (even n) or two (odd n) |
| Game.Dealing | server/utils/gameLogic.js:117-123 | at most `AssignCount` assignments and no more than the pool holds, exactly `AssignCount` from a large enough pool; slot k holds pool prompt k for player k mod n |
| Game.Cycle | server/utils/gameLogic.js:118-123 | the recipients of m round-robin slots: slot k goes to player k mod n |
| Game.CycleCountsLoad | server/utils/gameLogic.js:118-123 | with distinct players, player j holds `Load` of the first m round-robin slots |
| Game.RoundRobinCountsLoad | server/utils/gameLogic.js:118-123 | with distinct players, player j is dealt exactly `Load(n, m, j)` of m prompts |
| Game.FullPoolEvenShare | server/utils/gameLogic.js:117-123 | from a pool of at least `AssignCount` prompts, every distinct player is dealt one prompt (even n) or two (odd n) |
| Game.ShuffledDealShare | server/utils/gameLogic.js:113-123 | whatever the draws, each of the distinct players gets that share of the dealing of the shuffled pool |
| Game.ShortPoolLeavesPlayersOut | server/utils/gameLogic.js:96-124 | as written: with an even count and a pool that just meets the need, the loop stops, fewer than `AssignCount` slots are dealt, and each player past the pool's size is dealt nothing |
| Game.DealInPairs | server/utils/gameLogic.js:96-124 | corrected dealing: `AssignCount` slots, slot k holding needed prompt k/2 for player k mod n |
| Game.PairsEvenShare | server/utils/gameLogic.js:96-124 | corrected dealing: a pool that meets the need gives every distinct player one prompt (even n) or two (odd n) |
| Game.PairsHaveTwoAnswerers | server/utils/gameLogic.js:96-124 | corrected dealing: each needed prompt fills two slots, for two different players |
| Game.VotesFor | server/utils/gameLogic.js:38 | the number of votes naming the user, as a multiset count |
| Game.Points | server/utils/gameLogic.js:39 | an answer's score: votes × round × 100 |
| Game.PointsAdd | server/utils/gameLogic.js:39 | points add up over vote counts |
| Game.PointsMonotone | server/utils/gameLogic.js:39 | more votes never give fewer points, and points are non-negative |
| Game.VoteScores | server/utils/gameLogic.js:35-43 | one update per answer, in order, for that answer's author |
| Game.ScoresAreBounded | server/utils/gameLogic.js:36-41 | each answer's score is 100 × round × its votes, between 0 and what all votes are worth, and 0 without votes |
| Game.OccursAtMostOnce | server/utils/gameLogic.js:37-38 | a name occurs at most once among distinct names |
| Game.VoteTotalBound | server/utils/gameLogic.js:36-41 | with distinct authors, no more votes are counted than were cast |
| Game.TotalIsVoteTotal | server/utils/gameLogic.js:35-43 | the sum of the updates is the points of all votes counted for the authors |
| Game.PointsBoundedByVotes | server/utils/gameLogic.js:35-43 | with distinct authors, a round's updates never total more than its votes are worth |
| Game.NextRound | server/utils/gameLogic.js:237-248 | before the last round, the next round in prompts; in the last, endGame with the round kept |
| Game.NextState | server/utils/gameLogic.js:138-234 | the total is kept; joining moves to prompts exactly when three players are present; only the scores phase changes the round |
| Game.NextStateSuccessors | server/utils/gameLogic.js:138-248 | joining moves to prompts exactly when three players are present, else stays; prompts moves to answers exactly when half the prompts are in, else stays; answers, voting and results move to voting, results and scores; scores moves to prompts or endGame |
| Game.NextStateKeepsRound | server/utils/gameLogic.js:138-248 | the round stays within 1..totalRounds, and endGame is final |
| Game.Run | server/utils/gameLogic.js:138-248 | the phases visited in a number of steps when every guard holds, one per step |
| Game.RunStep | server/utils/gameLogic.js:138-157 | one more step of the cycle starts from the current phase |
| Game.OneRound | server/utils/gameLogic.js:174-234 | from prompts, five steps visit prompts, answers, voting, results, scores and continue in the next round |
| Game.GamePlaysEveryRound | server/utils/gameLogic.js:138-248 | from round r of t, the game plays rounds r..t in full and then ends |
| Game.FreshGamePlaysThreeRounds | server/utils/gameLogic.js:138-248 | a fresh game with three players plays exactly three rounds and ends |
| Game.GameLogic.constructor | server/utils/gameLogic.js:11-14 | starts in the reset state |
| Game.GameLogic.ResetGameState | server/utils/gameLogic.js:16-28 | joining, round 1 of 3, all lists empty, no players counted |
| Game.GameLogic.CalculateVoteScores | server/utils/gameLogic.js:35-43 | appends `VoteScores` of the answers and votes to `updateScores` and returns the list |
| Game.GameLogic.HalfPromptsReceived | server/utils/gameLogic.js:45-49 | true exactly when submitted/needed ≥ 0.5 |
| Game.GameLogic.EnoughPrompts | server/utils/gameLogic.js:73-77 | true exactly when the active prompts reach the needed number |
| Game.GameLogic.TakeSuggestion | server/utils/gameLogic.js:85-92 | one iteration appends the suggestion unless it is the refusal, keeping the prompts equal to `Generated` of the answers so far |
| Game.GameLogic.GeneratePrompts | server/utils/gameLogic.js:79-94 | appends the usable suggestions among the first `Shortfall` asked, in order |
| Game.GameLogic.SupplyPrompts | server/utils/gameLogic.js:104-111 | given passes enough for the loop to stop, loops while there are not enough: the active prompts become `Supply` of the old and reach the need |
| Game.GameLogic.FetchOnce | server/utils/gameLogic.js:106-110 | one pass: the active prompts become `FetchPass` of the old |
| Game.GameLogic.AssignPrompts | server/utils/gameLogic.js:96-124 | records the player count, supplies prompts until they reach the need, and deals `Dealing` of the shuffled players and the shuffled pool |
| Game.ShuffledCopy | server/utils/gameLogic.js:114-115 | the copy is `FisherYates` of the input and a permutation of it |
| Game.DealShuffled | server/utils/gameLogic.js:113-123 | the assignments are `Dealing` of the shuffled players and the shuffled pool |
| Game.DealPrompts | server/utils/gameLogic.js:118-124 | the loop's assignments are exactly `RoundRobin` |
| Game.GameLogic.NextRoundOrEndGame | server/utils/gameLogic.js:237-248 | the phase, round and total become `NextRound` of the old; nothing else changes |
| Game.GameLogic.AdvanceGameState | server/utils/gameLogic.js:138-234 | the new phase state is `NextState` of the old; only voting appends scores; when the prompts poll passes, the player count is recorded, the prompts become `Supply` of the old and reach the need, and the assignments are those of `assignPrompts`; in every other step the count and the prompts stay and nothing is dealt |
| DraftRoster.PairIndices | oldies/playerManager.js:74-85 | both indices are within the roster |
| DraftRoster.Pair | oldies/playerManager.js:76-85 | the two names dealt prompt i; with no players both lookups go to the key "undefined" |
| DraftRoster.PairIsTwoPlayers | oldies/playerManager.js:76-85 | with two or more players, a prompt goes to two different players |
| DraftRoster.EvenLoad | oldies/playerManager.js:76-80 | for even n and m ≤ n/2 prompts, player j gets one prompt if j < 2m, else none |
| DraftRoster.OddLoad | oldies/playerManager.js:81-85 | for odd n and m ≤ n prompts, player j's load counts the pairs that reach it |
| DraftRoster.FairDraftDeal | oldies/playerManager.js:69-93 | with the needed number of prompts, every player gets one (even n) or two (odd n) |
| DraftRoster.PushPrompt | oldies/playerManager.js:88-91 | pushing keeps every seat, and skips unknown names |
| DraftRoster.Deal | oldies/playerManager.js:69-93 | the players after the first m iterations of the dealing loop, the count kept |
| DraftRoster.DealAppends | oldies/playerManager.js:69-93 | each player's prompts become the old ones followed by the ids dealt to it |
| DraftRoster.DealKeepsSeats | oldies/playerManager.js:69-93 | dealing keeps every name and admin flag |
| DraftRoster.PushedIsOrdered | oldies/playerManager.js:73-91 | the ids a player gets are below the prompt count and in order |
| DraftRoster.PushedCountsLoad | oldies/playerManager.js:69-93 | the number of ids a player gets is its load |
| DraftRoster.FairDraftPlayers | oldies/playerManager.js:69-93 | after dealing, the old prompts are kept as a prefix and one or two ids are added |
| DraftRoster.CountInState | oldies/playerManager.js:112-113 | counts at most all players |
| DraftRoster.CountMembersInState | oldies/playerManager.js:160 | the audience members in a state, at most all of them |
| DraftRoster.SetStateCountsOnce | oldies/playerManager.js:59-66 | moving one player into a state adds exactly one to that count |
| DraftRoster.SetMemberStateCountsOnce | oldies/playerManager.js:153-162 | moving one audience member into a state adds exactly one to that count |
| DraftRoster.PromptOncePerPlayer | oldies/playerManager.js:50-66 | after submitting, the player cannot submit again, and the submitted count grows by one |
| DraftRoster.AnswerRefusal | oldies/playerManager.js:96-105 | no refusal exactly when the player exists, has not answered and holds the prompt |
| DraftRoster.AnswerOncePerPlayer | oldies/playerManager.js:96-110 | after answering, every further answer is refused |
| DraftRoster.Staged | oldies/playerManager.js:134-139 | the ledger gets an entry for the prompt and the answer; nothing else changes |
| DraftRoster.CastVote | oldies/playerManager.js:117-155 | refusals in order: unknown voter, then self-vote, then missing answer (all three with the ledger unchanged), then repeat vote (with the staged entries kept); success exactly when none applies, adding only the voter |
| DraftRoster.CastVoteKeepsSound | oldies/playerManager.js:122-150 | no voter set holds its answer's author, and a voter is in at most one set per prompt |
| DraftRoster.OneVotePerPrompt | oldies/playerManager.js:142-147 | after a successful vote, the same voter's next vote on that prompt is refused |
| DraftRoster.MarkVoted | oldies/playerManager.js:153 | the voter, as a player if there is one and otherwise as an audience member, becomes voted; names are kept |
| DraftRoster.TotalVotes | oldies/playerManager.js:158-162 | the voted players plus the voted audience members |
| DraftRoster.MarkVotedCountsOnce | oldies/playerManager.js:153-162 | a first vote adds exactly one to the votes cast |
| DraftRoster.DraftPlayerManager.constructor | oldies/playerManager.js:8-11 | empty roster and empty ledgers |
| DraftRoster.DraftPlayerManager.RemoveUserBySocketId | oldies/playerManager.js:167-189 | as the server roster: the new roster is `Leave` of the old |
| DraftRoster.DraftPlayerManager.ReassignAdmin | oldies/playerManager.js:192-197 | the players become `WithFirstAdmin` of the old |
| DraftRoster.MaySubmitPrompt | oldies/playerManager.js:50-58 | the submission test: an existing player in state active who is not also in the audience |
| DraftRoster.DraftPlayerManager.SubmitPrompt | oldies/playerManager.js:50-63 | succeeds exactly for an active player not in the audience, whose state becomes submittedPrompt; otherwise refused with no change |
| DraftRoster.DraftPlayerManager.PromptsSubmitted | oldies/playerManager.js:66 | at most the number of players |
| DraftRoster.DraftPlayerManager.PushPromptTo | oldies/playerManager.js:88-91 | the players become `PushPrompt` of the old |
| DraftRoster.DraftPlayerManager.PlayerToPrompt | oldies/playerManager.js:69-93 | the players become `Deal` of the old for the shuffled names and the prompt count |
| DraftRoster.DraftPlayerManager.SubmitAnswer | oldies/playerManager.js:96-110 | a refusal changes nothing; otherwise the answer is stored and the player becomes answered |
| DraftRoster.DraftPlayerManager.AnswersSubmitted | oldies/playerManager.js:112-113 | at most the number of players |
| DraftRoster.AnswerNamesFind | oldies/playerManager.js:127-129 | the search by username finds an answer exactly when the list holds one by that user |
| DraftRoster.DraftPlayerManager.StageVote | oldies/playerManager.js:134-140 | the ledger becomes `Staged`: the prompt's table and the answer's voter set exist, nothing else changes |
| DraftRoster.DraftPlayerManager.MarkVoter | oldies/playerManager.js:153 | the voter's state becomes voted, as a player if they are one, else in the audience; the roster stays valid |
| DraftRoster.DraftPlayerManager.SubmitVote | oldies/playerManager.js:117-155 | the reply and ledger are `CastVote` of the old; on success the voter becomes voted |
| DraftRoster.DraftPlayerManager.TotalVotesCast | oldies/playerManager.js:158-162 | players plus audience members who voted, at most everyone |
| DraftGame.HalfReceivedAsWritten | oldies/gameLogic.js:113-117 | as written: needed/submitted ≥ 0.5, and true when nothing is submitted |
| DraftGame.DraftHalfAlwaysHolds | oldies/gameLogic.js:113-117 | as written, the test passes for every possible number of submissions |
| DraftGame.DraftHalfIsInverted | oldies/gameLogic.js:113-117 | three players and no prompt: the draft passes, the intended test does not |
| DraftGame.AnswerPoints | oldies/gameLogic.js:219-220 | round × the size of the answer's voter set × 100, or 0 when the prompt or the answer has no voters |
| DraftGame.PromptAwards | oldies/gameLogic.js:218-227 | one award per answer of the prompt |
| DraftGame.AddPoints | oldies/gameLogic.js:221-223 | the award is added to the round score of the player of that name; unknown names are skipped and every seat is kept |
| DraftGame.ApplyAwardsAt | oldies/gameLogic.js:218-227 | each player's round score grows by the points its answers earned; nothing else changes |
| DraftGame.AwardsNonNegative | oldies/gameLogic.js:219-220 | from round 0 on, no award is negative |
| DraftGame.RoundScoresOnlyGrow | oldies/gameLogic.js:211-229 | round scores never fall, scores and seats are untouched |
| DraftGame.NoVotesNoPoints | oldies/gameLogic.js:216-220 | with an empty ledger every answer earns 0 |
| DraftGame.Banked | oldies/gameLogic.js:235-236 | one player banked: the round score added to the score, the round score reset to 0 |
| DraftGame.BankAll | oldies/gameLogic.js:232-236 | every player banked, in order, the count kept |
| DraftGame.Totals | oldies/gameLogic.js:233-237 | the `totalScores` entries the loop writes, each name mapped to its score |
| DraftGame.BankingNeverLowersScores | oldies/gameLogic.js:232-239 | banking never lowers a score, zeroes round scores, and loses no points |
| DraftGame.TotalsKeys | oldies/gameLogic.js:237 | `totalScores` has an entry for every player's name and for nothing else |
| DraftGame.TotalsRecordScores | oldies/gameLogic.js:237 | `totalScores` gets one entry per player, equal to its score |
| DraftGame.ScoringThenBanking | oldies/gameLogic.js:211-239 | after scoring and banking, a score grows by the old round score plus the round's points |
| DraftGame.DraftNextRound | oldies/gameLogic.js:276-299 | below the total, the next round in prompts; otherwise gameOver with the round kept |
| DraftGame.DraftMatchesServer | oldies/gameLogic.js:276-299 | the draft's round change moves the counter as the server's does, and ends the game when the server does |
| DraftGame.DraftPlaysThreeRounds | oldies/gameLogic.js:276-299 | rounds 1 and 2 move on; round 3 ends the game |
| DraftGame.DraftGameLogic.constructor | oldies/gameLogic.js:13-15 | starts in the reset state |
| DraftGame.DraftGameLogic.ResetGameState | oldies/gameLogic.js:17-27 | joining, round 1 of 3, empty prompt lists, and empty answers, votes and totals |
| DraftGame.DraftGameLogic.AddPrompt | oldies/gameLogic.js:41-44 | appends the prompt, raises the count by one, and always succeeds |
| DraftGame.DraftGameLogic.HalfPromptsReceived | oldies/gameLogic.js:113-117 | the intended test: submitted/needed ≥ 0.5 |
| DraftGame.DraftGameLogic.AwardPoints | oldies/gameLogic.js:221-226 | the players become `AddPoints` of the old; an unknown name changes nothing |
| DraftGame.DraftGameLogic.AwardPromptAnswers | oldies/gameLogic.js:218-227 | one prompt's answers add their awards, in order |
| DraftGame.DraftGameLogic.CalculateRoundScores | oldies/gameLogic.js:211-229 | the players become the old with every award applied, in prompt and answer order |
| DraftGame.DraftGameLogic.UpdateTotalScores | oldies/gameLogic.js:232-239 | every player banked, and `totalScores` extended by every new score |
| DraftGame.DraftGameLogic.NextRoundOrEndGame | oldies/gameLogic.js:276-299 | before the last round, the next round with prompts, answers and votes cleared; otherwise gameOver; always success |
| Registry.CodeAt | server/controllers/gameController.js:17-20 | an attempt's code has six characters of A–Z0–9 |
| Registry.BuildCode | server/controllers/gameController.js:17-20 | the inner loop builds exactly that attempt's code |
| Registry.Registry.GenerateGameCode | server/controllers/gameController.js:12-23 | the first attempt whose code is not taken: six characters of A–Z0–9, not a key, all earlier attempts taken |
| Registry.ToUpper | server/controllers/gameController.js:110 | `toUpperCase` over ASCII letters, keeping the length |
| Registry.ToUpperIdempotent | server/controllers/gameController.js:110 | upper-casing twice equals upper-casing once |
| Registry.JoinIgnoresCase | server/controllers/gameController.js:110-111 | a generated code typed in any mix of cases upper-cases back to that code |
| Registry.AfterDisconnect | server/controllers/gameController.js:161-165 | the entry is deleted exactly when no player is left; the others are kept |
| Registry.LastPlayerClosesRoom | server/controllers/gameController.js:158-165 | a room loses its last player exactly when it had none or its only player leaves; the audience does not count |
| Registry.Pairing | server/controllers/gameController.js:212-218 | one submission per answer |
| Registry.PairingIsPositional | server/controllers/gameController.js:212-218 | answer i goes with prompt i, and with none past the assigned prompts |
| Registry.PairingCoversAssigned | server/controllers/gameController.js:212-218 | with one answer per prompt, every prompt is answered exactly once |
| Registry.Chat | server/controllers/gameController.js:133-148 | a missing, empty or non-string message is refused first; without a game it is refused next; otherwise it goes to the socket's room |
| Registry.OpenedBy | server/controllers/gameController.js:58-69 | a game just opened: its logic in joining and knowing its code, a valid roster holding the creator alone |
| Registry.OpenRoom | server/controllers/gameController.js:58-75 | a fresh game in joining knowing its code, and a fresh roster holding the creator |
| Registry.Registry.Insert | server/controllers/gameController.js:69 | storing a room under a fresh code, with a roster no other game uses, adds that one entry and keeps the registry valid |
| Registry.Registry.AddRoom | server/controllers/gameController.js:58-75 | stores a fresh game in the joining phase under the new code, with the creator its only player; the other entries stay |
| Registry.Registry.GameCreate | server/controllers/gameController.js:55-105 | without a user, an error and no change; otherwise one new entry under a fresh code, the socket moved to it, the creator its player |
| Registry.Registry.GameJoin | server/controllers/gameController.js:108-130 | the upper-cased code is looked up; an unknown one changes nothing; the socket moves only when the user was added; no other game changes |
| Registry.Registry.LeaveRoom | server/controllers/gameController.js:157-158 | the socket's user leaves that game's roster; every other roster is unchanged |
| Registry.Registry.CloseIfEmpty | server/controllers/gameController.js:161-164 | the entry is deleted exactly when its game has no player left |
| Registry.Registry.HandleDisconnect | server/controllers/gameController.js:151-167 | the user leaves the socket's own game only; that entry is deleted exactly when no player is left |
| Registry.Registry.HandleSubmitAnswers | server/controllers/gameController.js:202-222 | for the player named by `socket.user` in the socket's game, the submissions are `Pairing` of the answers and its prompts; otherwise none |
| Auth.JsLength | server/controllers/authController.js:17-20 | `.length` in UTF-16 code units: between one and two per character, one per character when all are in the Basic Multilingual Plane |
| Auth.UsernameOk | server/controllers/authController.js:17 | the username test: a `.length` from 4 to 15 |
| Auth.PasswordOk | server/controllers/authController.js:20 | the password test: a `.length` from 8 to 15 |
| Auth.AstralCharactersCountTwice | server/controllers/authController.js:17-19 | three emoji have `.length` 6 and pass the username check |
| Auth.Register | server/controllers/authController.js:14-32 | username checked first, then password, both by `.length`; only valid input reaches the backend, whose reply is passed on, or 500 |
| Auth.Relay | server/controllers/authController.js:24-32 | the backend's answer is passed on with status 200; an error thrown by the call gives 500 and the server-error message |
| Auth.Login | server/controllers/authController.js:40-50 | no validation; the backend's reply is passed on, or 500 |
| Auth.RegisterReachesBackendIffValid | server/controllers/authController.js:17-28 | the response depends on the backend exactly when both lengths are in range |
| Auth.LengthBoundaries | server/controllers/authController.js:17-22 | in `.length` units, 4 and 15 pass the username check, 3 and 16 fail; 8 and 15 pass the password check, 7 and 16 fail |
| Auth.UsernameCheckedFirst | server/controllers/authController.js:17-22 | input wrong on both counts gets the username message |
| Auth.LoginSkipsValidation | server/controllers/authController.js:36-50 | credentials the register route refuses still reach the backend on login |

## Left out

- Timers and polling (`setInterval`, `setTimeout`) in both game logic files are left out. Each phase exit is one guarded step (`Game.NextState`, `DraftGame.DraftNextRound`).
- Socket emits, rooms (`socket.join`, `io.to`) and the event emitter (`gameStateUpdate`, `updatePlayer`, `updateAllPlayers`) are left out. The registry models only their effect on `socket.gameCode`.
- The backend and suggestion services are inputs, not modelled behaviour: `getPrompts`, `fetchPrompts`, `suggestPrompt`, `registerPlayer`, `loginPlayer` and `getPodium`.
- `Math.random` is replaced by draw sequences. Each draw is within the range the code's `Math.floor(Math.random() * k)` gives.
- `Game.GameLogic.HalfPromptsReceived`, `Game.HalfReceived`, `DraftGame.HalfReceivedAsWritten`, `DraftGame.DraftGameLogic.HalfPromptsReceived`: the floating-point ratio is stated exactly over the reals, for a positive player count only. With no players, the source's division gives NaN or Infinity. In the draft, no players means nothing submitted and a need of 0, so both the as-written quotient and the intended one are 0/0 = NaN, and the test is false, where `DraftGame.HalfReceivedAsWritten` passes at zero submissions for every positive count.
- `Roster.PlayerManager.AddPlayer`: models `addPlayer` with the admin flag kept. The constructor as written drops it; that behaviour is `Roster.Join` (see Findings).
- `Registry.OpenRoom`, `Registry.OpenedBy`: the creator is stored with the admin flag kept, as `Roster.JoinHonouringAdmin` gives. As written, the constructor drops the flag, so the creator is not admin (Findings, row 1).
- `Registry.Registry.AddRoom`: stores the creator as admin, for the same reason.
- `Registry.Registry.GameCreate`: its new room is `Registry.OpenedBy`, so its creator is admin, for the same reason.
- `Registry.Registry.GameJoin`: joins through `Roster.PlayerManager.AddPlayer`, so the joined roster keeps the one-admin invariant. A later joiner is not admin in either version.
- `Game.Supply` is total: it stops when the given passes of the prompt API run out, where the source's `while (!enoughPrompts)` keeps polling. `Game.GameLogic.SupplyPrompts`, `Game.GameLogic.AssignPrompts` and `Game.GameLogic.AdvanceGameState` require that the passes given are enough for the loop to stop. `Game.SupplyStopsWhenEnough` gives a condition on the passes that suffices.
- The `phase` argument the controller passes to `addPlayer` is dropped: the roster takes two arguments.
- `Registry.Registry.GameCreate` leaves out the final `advanceGameState` call. With only the creator present, its joining poll waits on a timer.
- `Registry.Registry.GameCreate` draws the code before building the game objects and adds the creator before storing the entry. Nothing reads either in between, so the end state is the one the source reaches.
- `Registry.Registry.GenerateGameCode` requires that the draws eventually produce a free code. Otherwise the source's do/while never ends.
- `Registry.ToUpper` folds only ASCII letters. JavaScript's `toUpperCase` also maps non-ASCII letters; generated codes are ASCII only.
- `Registry.Registry.HandleSubmitAnswers` returns the submissions it would make. The server roster has no `submitAnswer(gameState, player, answer, prompt)`, so the outcome of each call and the messages emitted are not modelled.
- `handleSubmitPrompt`, `handleGeneratePromptSuggestion` and `handleSubmitVote` of the controller are not modelled. They call roster methods the server roster does not define.
- `Roster.PlayerManager.GetPlayers` is the getter the controller calls. The server roster does not define it, so the model returns the players in insertion order.
- `socket.user` is a string, with the empty string standing for a missing user.
- `assignPromptToPlayer` and `fetchPrompts`, called by the server's `assignPrompts`, are not part of this model. The dealing ends at the list of (player, prompt) assignments.
- JavaScript's key order for integer-like user names is not modelled: players and audience members keep insertion order.
- User names that are properties of `Object.prototype` ("toString", "constructor", "valueOf", "__proto__", "hasOwnProperty" and the like) are not modelled. The rosters' truthy lookups `this.players[username]` (server/utils/playerManager.js:15, :32 and :80; oldies/playerManager.js:23) see them as taken, so the source refuses such a user where `Roster.Join`, `Roster.JoinAudience` and `Roster.PlayerNamed` treat the name like any other.
- `Players.PlayerState` holds only the four states the game sets. `updatePlayerState` (server/utils/playerManager.js:121-126) stores any string, and server/models/playerModel.js:11 also mentions 'disconnected'; `Roster.PlayerManager.UpdatePlayerState` accepts only the four.
- `Auth.Register`: the request body's fields are modelled as strings. A field that is not a string has an undefined `.length`; both comparisons are then false, so the source forwards it to the backend unchecked, and a missing field throws at server/controllers/authController.js:17, before the `try`.
- `Registry.OpenRoom`, `Registry.Registry.GameCreate`: server/controllers/gameController.js:59 calls `new PlayerManager()`, but server/utils/playerManager.js:129 exports an instance rather than the class, so as written the call throws and `gameCreate` never stores a game. The model builds a fresh roster, as the call evidently means.
- `Registry.Registry.HandleSubmitAnswers`: the controller's `getPlayerByUsername` (server/controllers/gameController.js:31, :178, :210 and :232) is not defined by the server roster, so the call throws. The model reads it as `Roster.PlayerManager.GetPlayer`, the lookup by name.
- The draft's undefined names are explicit parameters:
  - `prompt` in `submitVote` becomes `promptId`;
  - `this.votes` becomes the manager's `votes`;
  - `answerText` in `submitAnswer` becomes a parameter, stored in `answerTexts`.
  The draft game state's ledger (`gameState.votes`, read by the scoring) is a separate field of `DraftGameLogic`, as in the source.
- `DraftRoster.DraftPlayerManager.SubmitAnswer` returns `NoReply` on success, because the draft returns nothing there.
- The draft's prompt records carry no `id`, so `answers[prompt.id]` always reads the key "undefined". `DraftGame.DraftGameLogic.CalculateRoundScores` reads prompt k's answers and votes under k, the index the draft's dealing hands out.
- The draft's crashes are not reproduced. The model uses the intended lookup in each case:
  - `Objecy` in `getNumPlayers`;
  - `getTotalPlayers`, called at oldies/gameLogic.js:81, :114 and :121, which the draft roster does not define: the model reads the number of players, which the draft's `getNumPlayers` counts;
  - `getAudience` returning the whole audience;
  - the null dereference in `submitAnswer` before its player check;
  - `player.answers[promptId]` in `submitAnswer` (oldies/playerManager.js:107): the player record of server/models/playerModel.js:3-13 has no `answers` field, so the assignment throws even with `answerText` supplied. `DraftRoster.DraftPlayerManager.SubmitAnswer` stores the answer in `answerTexts` instead;
  - `apiPrompts` reassigned as a constant.
- With an empty list of shuffled names, the draft's dealing looks up the key "undefined" for both names (`DraftRoster.Pair`). A roster player registered under the name "undefined" (nine characters, which registration accepts) is pushed the prompt's id twice, in the source and in the model.
- The draft's `advanceGameState`, `checkAllPlayersReady`, `startPromptCollection`, `startAnswerSubmission`, `startVoting`, `showResults` and `handleAnswerSubmission` are not modelled. They are timer loops and thin delegations.
- The draft's `assignPrompts` is not modelled either. It calls the backend and then the dealing, which is modelled as `DraftRoster.DraftPlayerManager.PlayerToPrompt`.
- `DraftGame.DraftGameLogic.NextRoundOrEndGame`: the `resetPlayerStates`, `resetPlayerScores` and `resetVotes` calls in the draft's `nextRoundOrEndGame` (oldies/gameLogic.js:287-289) throw, because no draft file defines them, so the branch that starts the next round never returns `{success: true}`. The model leaves the calls out and returns success, the intended behaviour.
- `Game.ScoresAreBounded`: states each score as the points of its vote count (100 × round × votes). It does not restate this as a remainder modulo 100 × round.

## Findings

| source | as written | input that shows it | evidently intended | confidence | as-written member | corrected member |
|---|---|---|---|---|---|---|
| server/models/playerModel.js:4-7 | the constructor takes two arguments and sets `isAdmin` to false, so the flag `addPlayer` computes (server/utils/playerManager.js:24-25) is dropped and no joining player is ever admin | the first `addPlayer` into an empty roster: one player, not admin | the first player to join is admin, so there is exactly one admin whenever a player exists | not executed | Roster.FirstJoinerIsNotAdmin | Roster.HonouredAdminIsUnique |
| oldies/gameLogic.js:113-117 | `getTotalPlayers` is not defined by the draft roster, so the call at :114 throws before anything is divided; with the player count it evidently means, `needPrompts / promptsSubmitted() >= 0.5` is the ratio inverted, and with nothing submitted it is Infinity, which passes | three players, no prompt submitted, the count read as `getNumPlayers` gives it: the test passes | submitted / needed ≥ 0.5, as in server/utils/gameLogic.js:45-49 | not executed | DraftGame.DraftHalfIsInverted | Game.HalfReceived |
| server/utils/gameLogic.js:96-124 | the fetching loop stops once the pool holds `NeedPrompts` prompts (:105 through :73-77), but the dealing hands out `AssignCount` = 2 × `NeedPrompts` slots, one pool prompt per slot (:100, :117-123); from a pool that just meets the need, only half the slots are dealt | four players, two prompts in the pool: the loop stops, two prompts are dealt, two players get none | each needed prompt goes to two different players, so every player answers one prompt (even count) or two (odd count) | not executed | Game.ShortPoolLeavesPlayersOut | Game.PairsEvenShare |

`Game.GameLogic.AssignPrompts` keeps the dealing as written; `Game.DealInPairs` is the corrected dealing, proved on its own.
