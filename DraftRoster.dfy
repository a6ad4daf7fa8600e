/** The earlier draft of the player manager (oldies/playerManager.js): it deals prompt ids
    to pairs of players and validates prompt, answer and vote submissions. Its lists of
    players and audience, and its add and remove operations, are modelled by the server's:
    the draft's text of `removeUserBySocketId` and `reassignAdmin` is the same, and its
    `addAudience` differs only in storing a member without a state where the server's
    stores 'active'. The draft compares an audience member's state only with 'voted',
    which neither value is, so the draft manager owns a `Roster.PlayerManager` and adds
    the ledgers the draft refers to. */
module DraftRoster {
  import opened Common
  import opened Players
  import opened Roster
  import Game

  /** An entry `{ text, username }` of the draft's `gameInstancePrompts`; a prompt's id is
      its position there. */
  datatype DraftPrompt = DraftPrompt(text: string, username: string)

  /** An entry of the draft's `gameState.answers[promptId]`. */
  datatype DraftAnswer = DraftAnswer(username: string, text: string)

  /** The draft's `{ success, message }` replies; `NoReply` is a return without a value. */
  datatype Reply = Success | Failure(message: string) | NoReply

  /** prompt id → answering user → users who voted for that answer (a `Set` per answer). */
  type VoteLedger = map<nat, map<string, set<string>>>

  /** The property key an `undefined` array element turns into. */
  const UndefinedKey: string := "undefined"

  const PromptRefused: string := "Player cannot submit prompts."
  const AlreadyAnswered: string := "Answer already submitted."
  const NotAssigned: string := "Prompt not assigned to you."
  const UserNotFound: string := "User not found."
  const SelfVote: string := "You cannot vote on your own prompt."
  const NoSuchAnswer: string := "Selected answer does not exist for this prompt."
  const AlreadyVoted: string := "You have already voted on this prompt."

  // ---------------------------------------------------------------- dealing prompt ids

  /** The positions of the shuffled players that prompt `i` goes to: `2i` and `2i + 1`
      (mod n) for an even count, `i` and `i + 1` (mod n) for an odd one. */
  function PairIndices(n: nat, i: nat): (r: (nat, nat))
    requires n > 0
    ensures r.0 < n && r.1 < n
  {
    if n % 2 == 0 then ((i * 2) % n, (i * 2 + 1) % n) else (i % n, (i + 1) % n)
  }

  /** The names at those positions. With no players the indices are `NaN`, the elements
      `undefined`, and the lookups go to the key "undefined". */
  function Pair(names: seq<string>, i: nat): seq<string> {
    if |names| == 0 then [UndefinedKey, UndefinedKey]
    else [names[PairIndices(|names|, i).0], names[PairIndices(|names|, i).1]]
  }

  /** With an even count, the first position of every pair is even. */
  lemma DoubledModIsEven(i: nat, n: nat)
    requires n > 0 && n % 2 == 0
    ensures (i * 2) % n % 2 == 0
  {
    var q, r := (i * 2) / n, (i * 2) % n;
    var h := n / 2;
    assert i * 2 == q * n + r;
    assert q * n == 2 * (q * h);
    assert r == 2 * (i - q * h);
  }

  /** From two players on, every prompt goes to two different players. */
  lemma PairIsTwoPlayers(n: nat, i: nat)
    requires n >= 2
    ensures PairIndices(n, i).0 != PairIndices(n, i).1
  {
    if n % 2 == 0 {
      DoubledModIsEven(i, n);
      ModNext(i * 2, n);
    } else {
      ModNext(i, n);
    }
  }

  /** How many ids among prompts 0..m-1 are pushed for position `j`. */
  function DraftLoad(n: nat, m: nat, j: nat): (r: nat)
    requires n > 0
    ensures r <= 2 * m
  {
    if m == 0 then 0
    else
      var (a, b) := PairIndices(n, m - 1);
      DraftLoad(n, m - 1, j) + (if a == j then 1 else 0) + (if b == j then 1 else 0)
  }

  lemma {:induction false} EvenLoad(n: nat, m: nat, j: nat)
    requires n > 0 && n % 2 == 0 && 2 * m <= n && j < n
    ensures DraftLoad(n, m, j) == if j < 2 * m then 1 else 0
  {
    if m > 0 {
      EvenLoad(n, m - 1, j);
      ModBelow((m - 1) * 2, n);
      ModBelow((m - 1) * 2 + 1, n);
    }
  }

  lemma {:induction false} OddLoad(n: nat, m: nat, j: nat)
    requires n % 2 == 1 && m <= n && j < n
    ensures DraftLoad(n, m, j)
      == (if j < m then 1 else 0) + (if 0 < j <= m then 1 else 0) + (if j == 0 && m == n then 1 else 0)
  {
    if m > 0 {
      OddLoad(n, m - 1, j);
      ModBelow(m - 1, n);
      if m < n {
        ModBelow(m, n);
      } else {
        ModOnce(m, n);
      }
    }
  }

  /** With the number of prompts the draft's game logic asks for (n/2 for even n, n for
      odd n), every position receives exactly one id (even n) or exactly two (odd n). */
  lemma FairDraftDeal(n: nat, j: nat)
    requires 0 < n && j < n
    ensures DraftLoad(n, Game.NeedPrompts(n), j) == if n % 2 == 0 then 1 else 2
  {
    if n % 2 == 0 {
      EvenLoad(n, Game.NeedPrompts(n), j);
    } else {
      OddLoad(n, Game.NeedPrompts(n), j);
    }
  }

  /** `player.assignedPrompts.push(i)` for the player stored under `username`, if any. */
  function PushPrompt(ps: seq<Player>, username: string, i: nat): (r: seq<Player>)
    ensures SameSeats(ps, r) && Usernames(r) == Usernames(ps)
    ensures username !in Usernames(ps) ==> r == ps
  {
    seq(|ps|, k requires 0 <= k < |ps| =>
      if ps[k].username == username then ps[k].(assignedPrompts := ps[k].assignedPrompts + [i]) else ps[k])
  }

  /** The players after the first `m` iterations of the `playerToPrompt` loop. */
  function Deal(ps: seq<Player>, names: seq<string>, m: nat): (r: seq<Player>)
    ensures |r| == |ps|
    decreases m
  {
    if m == 0 then ps
    else PushPrompt(PushPrompt(Deal(ps, names, m - 1), Pair(names, m - 1)[0], m - 1), Pair(names, m - 1)[1], m - 1)
  }

  function PushedAt(pair: seq<string>, t: nat, username: string, i: nat): seq<nat>
    requires t < |pair|
  {
    if pair[t] == username then [i] else []
  }

  /** The ids pushed for `username` by the first `m` iterations, in push order. */
  function Pushed(names: seq<string>, m: nat, username: string): (r: seq<nat>)
    ensures |r| <= 2 * m
  {
    if m == 0 then []
    else
      var pair := Pair(names, m - 1);
      Pushed(names, m - 1, username) + (PushedAt(pair, 0, username, m - 1) + PushedAt(pair, 1, username, m - 1))
  }

  /** `p` with `extra` appended to its `assignedPrompts`. */
  function WithPrompts(p: Player, extra: seq<nat>): Player {
    p.(assignedPrompts := p.assignedPrompts + extra)
  }

  lemma WithPromptsTwice(p: Player, a: seq<nat>, b: seq<nat>)
    ensures WithPrompts(WithPrompts(p, a), b) == WithPrompts(p, a + b)
  {
    assert p.assignedPrompts + a + b == p.assignedPrompts + (a + b);
  }

  /** One push, seen from one player. */
  lemma PushPromptAt(ps: seq<Player>, username: string, i: nat, k: nat)
    requires k < |ps|
    ensures PushPrompt(ps, username, i)[k] == WithPrompts(ps[k], if ps[k].username == username then [i] else [])
  {
  }

  lemma DealStepAt(ps: seq<Player>, names: seq<string>, m: nat, k: nat)
    requires m > 0 && k < |ps|
    ensures var prev := Deal(ps, names, m - 1)[k];
      Deal(ps, names, m)[k] == WithPrompts(prev, PushedAt(Pair(names, m - 1), 0, prev.username, m - 1)
                                                 + PushedAt(Pair(names, m - 1), 1, prev.username, m - 1))
  {
    var pair := Pair(names, m - 1);
    var d := Deal(ps, names, m - 1);
    var once := PushPrompt(d, pair[0], m - 1);
    PushPromptAt(d, pair[0], m - 1, k);
    PushPromptAt(once, pair[1], m - 1, k);
    WithPromptsTwice(d[k], PushedAt(pair, 0, d[k].username, m - 1), PushedAt(pair, 1, d[k].username, m - 1));
  }

  /** Dealing only appends to each player's `assignedPrompts` the ids pushed under that
      player's name; the entries already there and every other field stay. */
  lemma {:induction false} DealAppends(ps: seq<Player>, names: seq<string>, m: nat, k: nat)
    requires k < |ps|
    ensures Deal(ps, names, m)[k] == WithPrompts(ps[k], Pushed(names, m, ps[k].username))
  {
    if m > 0 {
      DealAppendsStep(ps, names, m, k);
      DealAppends(ps, names, m - 1, k);
    }
  }

  /** The inductive step of `DealAppends`: one more iteration appends this iteration's
      pushes for the player. */
  lemma DealAppendsStep(ps: seq<Player>, names: seq<string>, m: nat, k: nat)
    requires m > 0 && k < |ps|
    ensures Deal(ps, names, m - 1)[k] == WithPrompts(ps[k], Pushed(names, m - 1, ps[k].username)) ==>
            Deal(ps, names, m)[k] == WithPrompts(ps[k], Pushed(names, m, ps[k].username))
  {
    if Deal(ps, names, m - 1)[k] == WithPrompts(ps[k], Pushed(names, m - 1, ps[k].username)) {
      var u := ps[k].username;
      var pair := Pair(names, m - 1);
      var earlier := Pushed(names, m - 1, u);
      var step := PushedAt(pair, 0, u, m - 1) + PushedAt(pair, 1, u, m - 1);
      var prev := Deal(ps, names, m - 1)[k];
      assert prev.username == u;
      DealStepAt(ps, names, m, k);
      assert Deal(ps, names, m)[k] == WithPrompts(prev, step);
      WithPromptsTwice(ps[k], earlier, step);
      assert Pushed(names, m, u) == earlier + step;
    }
  }

  lemma DealKeepsSeats(ps: seq<Player>, names: seq<string>, m: nat)
    ensures SameSeats(ps, Deal(ps, names, m))
  {
    forall k | 0 <= k < |ps| ensures Deal(ps, names, m)[k].username == ps[k].username
                               && Deal(ps, names, m)[k].isAdmin == ps[k].isAdmin {
      DealAppends(ps, names, m, k);
    }
  }

  /** The ids a player receives are the prompt ids dealt so far, never decreasing along
      its list. */
  lemma {:induction false} PushedIsOrdered(names: seq<string>, m: nat, username: string)
    ensures forall a :: 0 <= a < |Pushed(names, m, username)| ==> Pushed(names, m, username)[a] < m
    ensures forall a, b :: 0 <= a < b < |Pushed(names, m, username)| ==>
      Pushed(names, m, username)[a] <= Pushed(names, m, username)[b]
  {
    if m > 0 {
      PushedIsOrdered(names, m - 1, username);
      var pair := Pair(names, m - 1);
      var earlier := Pushed(names, m - 1, username);
      var step := PushedAt(pair, 0, username, m - 1) + PushedAt(pair, 1, username, m - 1);
      assert forall a :: 0 <= a < |step| ==> step[a] == m - 1;
      assert Pushed(names, m, username) == earlier + step;
    }
  }

  /** For distinct shuffled names, the name at position `j` receives `DraftLoad` ids. */
  lemma PushedCountsLoad(names: seq<string>, m: nat, j: nat)
    requires Distinct(names) && j < |names|
    ensures |Pushed(names, m, names[j])| == DraftLoad(|names|, m, j)
  {
    var i := 0;
    while i < m
      invariant i <= m
      invariant |Pushed(names, i, names[j])| == DraftLoad(|names|, i, j)
    {
      PushedStepCount(names, i + 1, j);
      i := i + 1;
    }
  }

  /** Iteration `m - 1` pushes for the name at position `j` as many ids as it adds to
      that position's load, so a count that matched the load still matches it. */
  lemma PushedStepCount(names: seq<string>, m: nat, j: nat)
    requires Distinct(names) && j < |names| && m > 0
    ensures |Pushed(names, m - 1, names[j])| == DraftLoad(|names|, m - 1, j) ==>
            |Pushed(names, m, names[j])| == DraftLoad(|names|, m, j)
  {
    var (a, b) := PairIndices(|names|, m - 1);
    var pair := Pair(names, m - 1);
    assert pair == [names[a], names[b]];
    assert names[a] == names[j] <==> a == j;
    assert names[b] == names[j] <==> b == j;
    var first, second := PushedAt(pair, 0, names[j], m - 1), PushedAt(pair, 1, names[j], m - 1);
    assert |first| == if a == j then 1 else 0;
    assert |second| == if b == j then 1 else 0;
    assert |Pushed(names, m, names[j])| == |Pushed(names, m - 1, names[j])| + |first| + |second|;
  }

  /** The dealing promise of the draft: with distinct names and the asked-for number of
      prompts, each player ends with one more id (even count) or two more (odd count). */
  lemma FairDraftPlayers(ps: seq<Player>, names: seq<string>, k: nat)
    requires Distinct(names) && k < |ps| && ps[k].username in names
    ensures var after := Deal(ps, names, Game.NeedPrompts(|names|));
      && ps[k].assignedPrompts <= after[k].assignedPrompts
      && |after[k].assignedPrompts| == |ps[k].assignedPrompts| + (if |names| % 2 == 0 then 1 else 2)
  {
    var j :| 0 <= j < |names| && names[j] == ps[k].username;
    var m := Game.NeedPrompts(|names|);
    DealAppends(ps, names, m, k);
    PushedCountsLoad(names, m, j);
    FairDraftDeal(|names|, j);
  }

  // ---------------------------------------------------------------- counting helpers

  /** `Object.values(players).filter(p => p.state === state).length` */
  function CountInState(ps: seq<Player>, state: PlayerState): (r: nat)
    ensures r <= |ps|
  {
    if ps == [] then 0 else (if ps[0].state == state then 1 else 0) + CountInState(ps[1..], state)
  }

  function CountMembersInState(aud: seq<AudienceMember>, state: PlayerState): (r: nat)
    ensures r <= |aud|
  {
    if aud == [] then 0 else (if aud[0].state == state then 1 else 0) + CountMembersInState(aud[1..], state)
  }

  /** Moving one player (with a unique name) into a state it was not in counts it once more. */
  lemma {:induction false} SetStateCountsOnce(ps: seq<Player>, k: nat, state: PlayerState)
    requires Distinct(Usernames(ps)) && k < |ps| && ps[k].state != state
    ensures CountInState(SetState(ps, ps[k].username, state), state) == CountInState(ps, state) + 1
  {
    var u := ps[k].username;
    var after := SetState(ps, u, state);
    assert after[1..] == SetState(ps[1..], u, state);
    assert Usernames(ps[1..]) == Usernames(ps)[1..];
    if k == 0 {
      assert u !in Usernames(ps[1..]) by {
        forall i | 0 <= i < |ps[1..]| ensures Usernames(ps[1..])[i] != u {
          assert Usernames(ps)[i + 1] != Usernames(ps)[0];
        }
      }
    } else {
      assert Usernames(ps)[0] != Usernames(ps)[k];
      SetStateCountsOnce(ps[1..], k - 1, state);
    }
  }

  lemma {:induction false} SetMemberStateCountsOnce(aud: seq<AudienceMember>, k: nat, state: PlayerState)
    requires Distinct(MemberNames(aud)) && k < |aud| && aud[k].state != state
    ensures CountMembersInState(SetMemberState(aud, aud[k].username, state), state) == CountMembersInState(aud, state) + 1
  {
    var u := aud[k].username;
    var after := SetMemberState(aud, u, state);
    assert after[1..] == SetMemberState(aud[1..], u, state);
    assert MemberNames(aud[1..]) == MemberNames(aud)[1..];
    if k == 0 {
      assert u !in MemberNames(aud[1..]) by {
        forall i | 0 <= i < |aud[1..]| ensures MemberNames(aud[1..])[i] != u {
          assert MemberNames(aud)[i + 1] != MemberNames(aud)[0];
        }
      }
    } else {
      assert MemberNames(aud)[0] != MemberNames(aud)[k];
      SetMemberStateCountsOnce(aud[1..], k - 1, state);
    }
  }

  /** With unique names, the lookup after a state change finds the changed player. */
  lemma SetStateFound(ps: seq<Player>, username: string, state: PlayerState)
    requires Distinct(Usernames(ps)) && username in Usernames(ps)
    ensures PlayerNamed(SetState(ps, username, state), username) == Some(PlayerNamed(ps, username).value.(state := state))
  {
    var k :| 0 <= k < |ps| && Usernames(ps)[k] == username;
    PlayerNamedAt(ps, k);
    PlayerNamedAt(SetState(ps, username, state), k);
  }

  // ---------------------------------------------------------------- prompt submission

  /** The test of `submitPrompt`: an existing player, in state 'active', and not also in
      the audience. */
  predicate MaySubmitPrompt(r: Roster, username: string) {
    match PlayerNamed(r.players, username)
    case None => false
    case Some(p) => p.state == Active && p.state != SubmittedPrompt && username !in MemberNames(r.audience)
  }

  /** An accepted prompt submission moves the player to 'submittedPrompt': a second one
      is refused, and the submitted count grows by exactly one. */
  lemma PromptOncePerPlayer(r: Roster, username: string)
    requires Invariant(r) && MaySubmitPrompt(r, username)
    ensures !MaySubmitPrompt(r.(players := SetState(r.players, username, SubmittedPrompt)), username)
    ensures CountInState(SetState(r.players, username, SubmittedPrompt), SubmittedPrompt)
         == CountInState(r.players, SubmittedPrompt) + 1
  {
    SetStateFound(r.players, username, SubmittedPrompt);
    var k :| 0 <= k < |r.players| && r.players[k] == PlayerNamed(r.players, username).value;
    SetStateCountsOnce(r.players, k, SubmittedPrompt);
  }

  // ---------------------------------------------------------------- answer submission

  /** The refusal `submitAnswer` gives, if any: a player already 'answered' first, then
      an unknown player or a prompt id not assigned to the player. */
  function AnswerRefusal(p: Option<Player>, promptId: nat): (r: Option<string>)
    ensures r.None? <==> p.Some? && p.value.state != Answered && promptId in p.value.assignedPrompts
    ensures p.None? ==> r == Some(NotAssigned)
  {
    if p.Some? && p.value.state == Answered then Some(AlreadyAnswered)
    else if p.None? || promptId !in p.value.assignedPrompts then Some(NotAssigned)
    else None
  }

  /** After an accepted answer the same player's next answer is refused: at most one
      answer per player. */
  lemma AnswerOncePerPlayer(r: Roster, username: string, promptId: nat, nextPromptId: nat)
    requires Invariant(r) && AnswerRefusal(PlayerNamed(r.players, username), promptId).None?
    ensures AnswerRefusal(PlayerNamed(SetState(r.players, username, Answered), username), nextPromptId)
         == Some(AlreadyAnswered)
  {
    SetStateFound(r.players, username, Answered);
  }

  // ---------------------------------------------------------------- votes

  predicate IsVoter(r: Roster, username: string) {
    username in Usernames(r.players) || username in MemberNames(r.audience)
  }

  /** `gameState.answers[promptId] || []` */
  function AnswersFor(answers: map<nat, seq<DraftAnswer>>, promptId: nat): seq<DraftAnswer> {
    if promptId in answers then answers[promptId] else []
  }

  predicate HasAnswerBy(list: seq<DraftAnswer>, username: string) {
    exists k :: 0 <= k < |list| && list[k].username == username
  }

  /** `answers.map(a => a.username)` */
  function AnswerNames(list: seq<DraftAnswer>): (r: seq<string>)
    ensures |r| == |list| && forall k :: 0 <= k < |list| ==> r[k] == list[k].username
  {
    seq(|list|, k requires 0 <= k < |list| => list[k].username)
  }

  /** The search over the answers' usernames finds one exactly when the list holds an
      answer by that user. */
  lemma AnswerNamesFind(list: seq<DraftAnswer>, username: string)
    ensures HasAnswerBy(list, username) <==> username in AnswerNames(list)
  {
    if HasAnswerBy(list, username) {
      var k :| 0 <= k < |list| && list[k].username == username;
      assert AnswerNames(list)[k] == username;
    }
  }

  /** The two initialisations, which stay even when the vote is then refused. */
  function Staged(votes: VoteLedger, promptId: nat, selected: string): (r: VoteLedger)
    ensures promptId in r && selected in r[promptId]
    ensures forall p :: p in votes && p != promptId ==> p in r && r[p] == votes[p]
    ensures forall p :: p in r ==> p in votes || p == promptId
    ensures promptId in votes ==> forall a :: a in votes[promptId] ==> a in r[promptId] && r[promptId][a] == votes[promptId][a]
    ensures forall a :: a in r[promptId] ==> a == selected || (promptId in votes && a in votes[promptId])
    ensures promptId in votes && selected in votes[promptId] ==> r == votes
    ensures (promptId !in votes || selected !in votes[promptId]) ==> r[promptId][selected] == {}
  {
    var inner := if promptId in votes then votes[promptId] else map[];
    votes[promptId := if selected in inner then inner else inner[selected := {}]]
  }

  predicate HasVoted(inner: map<string, set<string>>, username: string) {
    exists a :: a in inner && username in inner[a]
  }

  /** The draft's vote, checked in its order: unknown voter, vote for oneself, no such
      answer for the prompt, already voted on the prompt. Returns the reply and the
      vote ledger afterwards. */
  function CastVote(r: Roster, votes: VoteLedger, answers: map<nat, seq<DraftAnswer>>,
                    username: string, promptId: nat, selected: string): (res: (Reply, VoteLedger))
    ensures res.0 == Success || res.0.Failure?
    ensures !IsVoter(r, username) ==> res == (Failure(UserNotFound), votes)
    ensures IsVoter(r, username) && username == selected ==> res == (Failure(SelfVote), votes)
    ensures IsVoter(r, username) && username != selected && !HasAnswerBy(AnswersFor(answers, promptId), selected)
      ==> res == (Failure(NoSuchAnswer), votes)
    ensures IsVoter(r, username) && username != selected && HasAnswerBy(AnswersFor(answers, promptId), selected)
      && HasVoted(Staged(votes, promptId, selected)[promptId], username)
      ==> res == (Failure(AlreadyVoted), Staged(votes, promptId, selected))
    ensures res.0 == Success <==>
      && IsVoter(r, username) && username != selected
      && HasAnswerBy(AnswersFor(answers, promptId), selected)
      && !HasVoted(Staged(votes, promptId, selected)[promptId], username)
    ensures res.0 == Success ==>
      var staged := Staged(votes, promptId, selected);
      res.1 == staged[promptId := staged[promptId][selected := staged[promptId][selected] + {username}]]
  {
    if !IsVoter(r, username) then (Failure(UserNotFound), votes)
    else if username == selected then (Failure(SelfVote), votes)
    else if !HasAnswerBy(AnswersFor(answers, promptId), selected) then (Failure(NoSuchAnswer), votes)
    else
      var staged := Staged(votes, promptId, selected);
      if HasVoted(staged[promptId], username) then (Failure(AlreadyVoted), staged)
      else (Success, staged[promptId := staged[promptId][selected := staged[promptId][selected] + {username}]])
  }

  /** Nobody is among the voters of their own answer, and nobody is among the voters of
      two answers to the same prompt. */
  ghost predicate VotesSound(votes: VoteLedger) {
    && (forall p, a :: p in votes && a in votes[p] ==> a !in votes[p][a])
    && (forall p, a, b, v :: p in votes && a in votes[p] && b in votes[p] && a != b && v in votes[p][a]
          ==> v !in votes[p][b])
  }

  /** Every vote keeps the ledger sound, whether it is accepted or refused. */
  lemma CastVoteKeepsSound(r: Roster, votes: VoteLedger, answers: map<nat, seq<DraftAnswer>>,
                           username: string, promptId: nat, selected: string)
    requires VotesSound(votes)
    ensures VotesSound(CastVote(r, votes, answers, username, promptId, selected).1)
  {
    var staged := Staged(votes, promptId, selected);
    assert VotesSound(staged);
  }

  /** Once a vote on a prompt is accepted, every further vote by the same user on the
      same prompt is refused: one vote per voter per prompt. */
  lemma OneVotePerPrompt(r: Roster, r': Roster, votes: VoteLedger, answers: map<nat, seq<DraftAnswer>>,
                         username: string, promptId: nat, selected: string, other: string)
    requires CastVote(r, votes, answers, username, promptId, selected).0 == Success
    ensures CastVote(r', CastVote(r, votes, answers, username, promptId, selected).1,
                     answers, username, promptId, other).0 != Success
  {
    var after := CastVote(r, votes, answers, username, promptId, selected).1;
    var again := Staged(after, promptId, other);
    assert username in again[promptId][selected];
  }

  /** `voter.state = 'voted'` for the player, or else the audience member, of that name. */
  function MarkVoted(r: Roster, username: string): (r': Roster)
    ensures Usernames(r'.players) == Usernames(r.players) && MemberNames(r'.audience) == MemberNames(r.audience)
  {
    if username in Usernames(r.players) then r.(players := SetState(r.players, username, Voted))
    else r.(audience := SetMemberState(r.audience, username, Voted))
  }

  /** `totalVotes`: players and audience members in state 'voted'. */
  function TotalVotes(r: Roster): nat {
    CountInState(r.players, Voted) + CountMembersInState(r.audience, Voted)
  }

  /** A voter who had not voted yet adds exactly one to `totalVotes`. */
  lemma MarkVotedCountsOnce(r: Roster, username: string)
    requires Invariant(r) && IsVoter(r, username)
    requires username in Usernames(r.players) ==> PlayerNamed(r.players, username).value.state != Voted
    requires username !in Usernames(r.players) ==>
      forall k :: 0 <= k < |r.audience| && r.audience[k].username == username ==> r.audience[k].state != Voted
    ensures TotalVotes(MarkVoted(r, username)) == TotalVotes(r) + 1
  {
    if username in Usernames(r.players) {
      var k :| 0 <= k < |r.players| && r.players[k] == PlayerNamed(r.players, username).value;
      SetStateCountsOnce(r.players, k, Voted);
    } else {
      var k :| 0 <= k < |r.audience| && MemberNames(r.audience)[k] == username;
      SetMemberStateCountsOnce(r.audience, k, Voted);
    }
  }

  /** The draft's player manager: the server's roster plus the draft's vote ledger
      (`this.votes`) and per-player answers (`player.answers`). */
  class DraftPlayerManager {
    const roster: PlayerManager
    var votes: VoteLedger
    /** username → prompt id → answer text */
    var answerTexts: map<string, map<nat, string>>

    ghost predicate Valid()
      reads this, roster
    {
      roster.Valid() && VotesSound(votes)
    }

    constructor ()
      ensures Valid() && fresh(roster)
      ensures roster.players == [] && roster.audience == [] && votes == map[] && answerTexts == map[]
    {
      roster := new PlayerManager();
      votes := map[];
      answerTexts := map[];
    }

    method RemoveUserBySocketId(socketId: string) returns (removed: Option<string>)
      requires Valid()
      modifies roster
      ensures Valid()
      ensures (removed, roster.Current()) == Leave(old(roster.Current()), socketId)
    {
      removed := roster.RemoveUserBySocketId(socketId);
    }

    method ReassignAdmin()
      requires Valid()
      modifies roster
      ensures Valid()
      ensures roster.players == WithFirstAdmin(old(roster.players)) && roster.audience == old(roster.audience)
    {
      roster.ReassignAdmin();
    }

    method SubmitPrompt(username: string) returns (reply: Reply)
      requires Valid()
      modifies roster
      ensures Valid() && roster.audience == old(roster.audience)
      ensures reply == if MaySubmitPrompt(old(roster.Current()), username) then Success else Failure(PromptRefused)
      ensures roster.players == if reply == Success then SetState(old(roster.players), username, SubmittedPrompt)
                                else old(roster.players)
    {
      var player := roster.GetPlayer(username);
      if player.None? || player.value.state != Active || player.value.state == SubmittedPrompt
         || username in MemberNames(roster.audience) {
        return Failure(PromptRefused);
      }
      roster.UpdatePlayerState(username, SubmittedPrompt);
      return Success;
    }

    function PromptsSubmitted(): (n: nat)
      reads this, roster
      ensures n <= |roster.players|
    {
      CountInState(roster.players, SubmittedPrompt)
    }

    /** `assignedPrompts.push(i)` for the player stored under `username`, if any. */
    method PushPromptTo(username: string, i: nat)
      requires Valid()
      modifies roster
      ensures Valid() && roster.audience == old(roster.audience)
      ensures roster.players == PushPrompt(old(roster.players), username, i)
    {
      var player := roster.GetPlayer(username);
      if player.Some? {
        var k := IndexOf(Usernames(roster.players), username).value;
        var updated := roster.players[k := roster.players[k].(assignedPrompts := roster.players[k].assignedPrompts + [i])];
        forall j | 0 <= j < |roster.players| && j != k ensures roster.players[j].username != username {
          assert Usernames(roster.players)[j] != Usernames(roster.players)[k];
        }
        assert updated == PushPrompt(roster.players, username, i);
        SameSeatsKeepInvariant(roster.Current(), updated);
        roster.players := updated;
      }
    }

    /** `playerToPrompt`: for each prompt id in turn, push it for the two names `Pair`
        picks. The prompts themselves are not read, only their number. */
    method PlayerToPrompt(shuffledPlayers: seq<string>, shuffledPrompts: seq<DraftPrompt>)
      requires Valid()
      modifies roster
      ensures Valid() && roster.audience == old(roster.audience)
      ensures roster.players == Deal(old(roster.players), shuffledPlayers, |shuffledPrompts|)
    {
      var numPlayers := |shuffledPlayers|;
      var numPrompts := |shuffledPrompts|;
      for i := 0 to numPrompts
        invariant Valid() && roster.audience == old(roster.audience)
        invariant roster.players == Deal(old(roster.players), shuffledPlayers, i)
      {
        var assignedPlayers: seq<string>;
        if numPlayers == 0 {
          assignedPlayers := [UndefinedKey, UndefinedKey];
        } else if numPlayers % 2 == 0 {
          assignedPlayers := [shuffledPlayers[(i * 2) % numPlayers], shuffledPlayers[(i * 2 + 1) % numPlayers]];
        } else {
          assignedPlayers := [shuffledPlayers[i % numPlayers], shuffledPlayers[(i + 1) % numPlayers]];
        }
        assert assignedPlayers == Pair(shuffledPlayers, i);
        // the forEach over the two names
        PushPromptTo(assignedPlayers[0], i);
        PushPromptTo(assignedPlayers[1], i);
      }
    }

    method SubmitAnswer(username: string, promptId: nat, answerText: string) returns (reply: Reply)
      requires Valid()
      modifies this, roster
      ensures Valid() && votes == old(votes) && roster.audience == old(roster.audience)
      ensures var refusal := AnswerRefusal(PlayerNamed(old(roster.players), username), promptId);
        && reply == (if refusal.Some? then Failure(refusal.value) else NoReply)
        && roster.players == (if refusal.Some? then old(roster.players) else SetState(old(roster.players), username, Answered))
        && answerTexts == (if refusal.Some? then old(answerTexts)
                           else old(answerTexts)[username := (if username in old(answerTexts) then old(answerTexts)[username]
                                                              else map[])[promptId := answerText]])
    {
      var player := roster.GetPlayer(username);
      if player.Some? && player.value.state == Answered {
        return Failure(AlreadyAnswered);
      }
      if player.None? || promptId !in player.value.assignedPrompts {
        return Failure(NotAssigned);
      }
      var stored := if username in answerTexts then answerTexts[username] else map[];
      answerTexts := answerTexts[username := stored[promptId := answerText]];
      roster.UpdatePlayerState(username, Answered);
      return NoReply;
    }

    function AnswersSubmitted(): (n: nat)
      reads this, roster
      ensures n <= |roster.players|
    {
      CountInState(roster.players, Answered)
    }

    /** Sets the voter's state to 'voted', in the players if they are one, else in the
        audience. */
    method MarkVoter(username: string, isPlayer: bool)
      requires roster.Valid() && isPlayer == (username in Usernames(roster.players))
      modifies roster
      ensures roster.Valid() && roster.Current() == MarkVoted(old(roster.Current()), username)
    {
      if isPlayer {
        roster.UpdatePlayerState(username, Voted);
      } else {
        roster.audience := SetMemberState(roster.audience, username, Voted);
      }
    }

    /** Creates the prompt's table of voters and the selected answer's empty set of
        voters where they are missing. */
    method StageVote(promptId: nat, selected: string)
      modifies this`votes
      ensures votes == Staged(old(votes), promptId, selected)
    {
      if promptId !in votes {
        votes := votes[promptId := map[]];
      }
      if selected !in votes[promptId] {
        votes := votes[promptId := votes[promptId][selected := {}]];
      }
    }

    method SubmitVote(username: string, promptId: nat, selected: string, answers: map<nat, seq<DraftAnswer>>)
      returns (reply: Reply)
      requires Valid()
      modifies this, roster
      ensures Valid() && answerTexts == old(answerTexts)
      ensures (reply, votes) == CastVote(old(roster.Current()), old(votes), answers, username, promptId, selected)
      ensures roster.Current() == if reply == Success then MarkVoted(old(roster.Current()), username) else old(roster.Current())
    {
      ghost var result := CastVote(roster.Current(), votes, answers, username, promptId, selected);
      CastVoteKeepsSound(roster.Current(), votes, answers, username, promptId, selected);
      var isPlayer := username in Usernames(roster.players);
      if !isPlayer && username !in MemberNames(roster.audience) {
        return Failure(UserNotFound);
      }
      if username == selected {
        return Failure(SelfVote);
      }
      var list := if promptId in answers then answers[promptId] else [];
      var found := IndexOf(AnswerNames(list), selected);
      AnswerNamesFind(list, selected);
      if found.None? {
        assert result == (Failure(NoSuchAnswer), votes);
        return Failure(NoSuchAnswer);
      }
      StageVote(promptId, selected);
      var hasVoted := exists a :: a in votes[promptId] && username in votes[promptId][a];
      if hasVoted {
        assert result == (Failure(AlreadyVoted), votes);
        return Failure(AlreadyVoted);
      }
      votes := votes[promptId := votes[promptId][selected := votes[promptId][selected] + {username}]];
      assert result == (Success, votes);
      MarkVoter(username, isPlayer);
      return Success;
    }

    function TotalVotesCast(): (n: nat)
      reads this, roster
      ensures n == TotalVotes(roster.Current())
      ensures n <= |roster.players| + |roster.audience|
    {
      CountInState(roster.players, Voted) + CountMembersInState(roster.audience, Voted)
    }
  }
}
