/** The participant roster of one room (server/utils/playerManager.js): players and
    audience keyed by name. JavaScript objects iterate their keys in insertion order, and
    "the first remaining player" depends on that order, so both maps are modelled as
    insertion-ordered sequences of records whose `username` is the key. */
module Roster {
  import opened Common
  import opened Players

  /** Once this many players are present, newcomers join the audience. */
  const Capacity: nat := 8

  /** Both maps of the roster as one value. */
  datatype Roster = Roster(players: seq<Player>, audience: seq<AudienceMember>)

  /** The keys of the players map, in insertion order. */
  function Usernames(ps: seq<Player>): (r: seq<string>)
    ensures |r| == |ps| && forall i :: 0 <= i < |ps| ==> r[i] == ps[i].username
  {
    seq(|ps|, i requires 0 <= i < |ps| => ps[i].username)
  }

  function PlayerSockets(ps: seq<Player>): (r: seq<string>)
    ensures |r| == |ps| && forall i :: 0 <= i < |ps| ==> r[i] == ps[i].socketId
  {
    seq(|ps|, i requires 0 <= i < |ps| => ps[i].socketId)
  }

  /** The keys of the audience map, in insertion order. */
  function MemberNames(aud: seq<AudienceMember>): (r: seq<string>)
    ensures |r| == |aud| && forall i :: 0 <= i < |aud| ==> r[i] == aud[i].username
  {
    seq(|aud|, i requires 0 <= i < |aud| => aud[i].username)
  }

  function MemberSockets(aud: seq<AudienceMember>): (r: seq<string>)
    ensures |r| == |aud| && forall i :: 0 <= i < |aud| ==> r[i] == aud[i].socketId
  {
    seq(|aud|, i requires 0 <= i < |aud| => aud[i].socketId)
  }

  /** True when the name is a key of either map (the "username already taken" test). */
  predicate Taken(r: Roster, username: string) {
    username in Usernames(r.players) || username in MemberNames(r.audience)
  }

  /** No name is a key twice, and no name is both a player and an audience member. */
  ghost predicate UniqueNames(r: Roster) {
    && Distinct(Usernames(r.players))
    && Distinct(MemberNames(r.audience))
    && forall u :: u in Usernames(r.players) ==> u !in MemberNames(r.audience)
  }

  /** Only the first player may carry the admin flag. */
  ghost predicate AdminOnlyFirst(ps: seq<Player>) {
    forall i :: 0 < i < |ps| ==> !ps[i].isAdmin
  }

  ghost predicate AtMostOneAdmin(ps: seq<Player>) {
    forall i, j :: 0 <= i < |ps| && 0 <= j < |ps| && ps[i].isAdmin && ps[j].isAdmin ==> i == j
  }

  /** Scores only ever grow from zero by non-negative amounts. */
  ghost predicate ScoresNonNegative(ps: seq<Player>) {
    forall i :: 0 <= i < |ps| ==> ps[i].score >= 0 && ps[i].roundScore >= 0
  }

  /** What the roster operations keep true. */
  ghost predicate Invariant(r: Roster) {
    && UniqueNames(r)
    && |r.players| <= Capacity
    && AdminOnlyFirst(r.players)
    && ScoresNonNegative(r.players)
  }

  /** `addAudience`: refuse a taken name, otherwise append a member in state 'active'. */
  function JoinAudience(r: Roster, username: string, socketId: string): (res: (bool, Roster))
    ensures Taken(r, username) ==> res == (false, r)
    ensures !Taken(r, username) ==>
      res == (true, r.(audience := r.audience + [AudienceMember(socketId, username, Active)]))
  {
    if Taken(r, username) then (false, r)
    else (true, r.(audience := r.audience + [AudienceMember(socketId, username, Active)]))
  }

  /** `addPlayer` with the player constructor as written. */
  function Join(r: Roster, username: string, socketId: string): (res: (bool, Roster))
    ensures Taken(r, username) ==> res == (false, r)
    ensures !Taken(r, username) && |r.players| == Capacity ==>
      !res.0 && res.1.players == r.players && res.1 == JoinAudience(r, username, socketId).1
    ensures !Taken(r, username) && |r.players| != Capacity ==>
      res.0 && res.1 == r.(players := r.players + [NewPlayer(socketId, username)])
  {
    if Taken(r, username) then (false, r)
    else if |r.players| == Capacity then (false, JoinAudience(r, username, socketId).1)
    else (true, r.(players := r.players + [NewPlayer(socketId, username)]))
  }

  /** `reassignAdmin`: the first remaining player gets the flag; nobody else is touched. */
  function WithFirstAdmin(ps: seq<Player>): (r: seq<Player>)
    ensures |r| == |ps|
    ensures |ps| > 0 ==> r[0] == ps[0].(isAdmin := true)
    ensures forall i :: 0 < i < |ps| ==> r[i] == ps[i]
  {
    if ps == [] then [] else [ps[0].(isAdmin := true)] + ps[1..]
  }

  /** `removeUserBySocketId`: the first player on that socket is removed and the admin
      flag reassigned; failing that, the first audience member on that socket is removed. */
  function Leave(r: Roster, socketId: string): (res: (Option<string>, Roster))
    ensures socketId in PlayerSockets(r.players) ==>
      var k := IndexOf(PlayerSockets(r.players), socketId).value;
      res == (Some(r.players[k].username), r.(players := WithFirstAdmin(RemoveAt(r.players, k))))
    ensures socketId !in PlayerSockets(r.players) && socketId in MemberSockets(r.audience) ==>
      var k := IndexOf(MemberSockets(r.audience), socketId).value;
      res == (Some(r.audience[k].username), r.(audience := RemoveAt(r.audience, k)))
    ensures socketId !in PlayerSockets(r.players) && socketId !in MemberSockets(r.audience) ==>
      res == (None, r)
  {
    match IndexOf(PlayerSockets(r.players), socketId)
    case Some(k) =>
      (Some(r.players[k].username), r.(players := WithFirstAdmin(RemoveAt(r.players, k))))
    case None =>
      match IndexOf(MemberSockets(r.audience), socketId)
      case Some(k) => (Some(r.audience[k].username), r.(audience := RemoveAt(r.audience, k)))
      case None => (None, r)
  }

  lemma AdminOnlyFirstGivesAtMostOne(ps: seq<Player>)
    requires AdminOnlyFirst(ps)
    ensures AtMostOneAdmin(ps)
    ensures forall i :: 0 <= i < |ps| && ps[i].isAdmin ==> i == 0
  {
  }

  /** Removing any element keeps the names distinct, the disjointness and the flags. */
  lemma {:induction false} RemoveAtKeepsInvariant(r: Roster, k: nat)
    requires Invariant(r) && k < |r.players|
    ensures Invariant(r.(players := RemoveAt(r.players, k)))
  {
    var ps := RemoveAt(r.players, k);
    forall u | u in Usernames(ps) ensures u in Usernames(r.players) {
      var i :| 0 <= i < |ps| && ps[i].username == u;
      assert i < k ==> r.players[i].username == u;
      assert i >= k ==> r.players[i + 1].username == u;
    }
    forall i, j | 0 <= i < j < |ps| ensures Usernames(ps)[i] != Usernames(ps)[j] {
      var i', j' := if i < k then i else i + 1, if j < k then j else j + 1;
      assert Usernames(r.players)[i'] != Usernames(r.players)[j'];
    }
  }

  lemma {:induction false} RemoveMemberKeepsInvariant(r: Roster, k: nat)
    requires Invariant(r) && k < |r.audience|
    ensures Invariant(r.(audience := RemoveAt(r.audience, k)))
  {
    var aud := RemoveAt(r.audience, k);
    forall u | u in MemberNames(aud) ensures u in MemberNames(r.audience) {
      var i :| 0 <= i < |aud| && aud[i].username == u;
      assert i < k ==> r.audience[i].username == u;
      assert i >= k ==> r.audience[i + 1].username == u;
    }
    forall i, j | 0 <= i < j < |aud| ensures MemberNames(aud)[i] != MemberNames(aud)[j] {
      var i', j' := if i < k then i else i + 1, if j < k then j else j + 1;
      assert MemberNames(r.audience)[i'] != MemberNames(r.audience)[j'];
    }
  }

  lemma {:induction false} WithFirstAdminKeepsInvariant(r: Roster)
    requires Invariant(r)
    ensures Invariant(r.(players := WithFirstAdmin(r.players)))
  {
    assert Usernames(WithFirstAdmin(r.players)) == Usernames(r.players);
  }

  lemma {:induction false} AppendPlayerKeepsInvariant(r: Roster, p: Player)
    requires Invariant(r) && !Taken(r, p.username) && |r.players| < Capacity
    requires !p.isAdmin && p.score == 0 && p.roundScore == 0
    ensures Invariant(r.(players := r.players + [p]))
  {
    var ps := r.players + [p];
    assert Usernames(ps) == Usernames(r.players) + [p.username];
  }

  lemma {:induction false} AppendMemberKeepsInvariant(r: Roster, m: AudienceMember)
    requires Invariant(r) && !Taken(r, m.username)
    ensures Invariant(r.(audience := r.audience + [m]))
  {
    assert MemberNames(r.audience + [m]) == MemberNames(r.audience) + [m.username];
  }

  /** Every join keeps the roster invariant; in particular players never exceed eight. */
  lemma {:induction false} JoinKeepsInvariant(r: Roster, username: string, socketId: string)
    requires Invariant(r)
    ensures Invariant(Join(r, username, socketId).1)
    ensures Invariant(JoinAudience(r, username, socketId).1)
  {
    if !Taken(r, username) {
      AppendMemberKeepsInvariant(r, AudienceMember(socketId, username, Active));
      if |r.players| != Capacity {
        AppendPlayerKeepsInvariant(r, NewPlayer(socketId, username));
      }
    }
  }

  /** Every removal keeps the roster invariant: the admin, if any, is still the first player. */
  lemma {:induction false} LeaveKeepsInvariant(r: Roster, socketId: string)
    requires Invariant(r)
    ensures Invariant(Leave(r, socketId).1)
  {
    match IndexOf(PlayerSockets(r.players), socketId)
    case Some(k) =>
      RemoveAtKeepsInvariant(r, k);
      WithFirstAdminKeepsInvariant(r.(players := RemoveAt(r.players, k)));
    case None =>
      match IndexOf(MemberSockets(r.audience), socketId)
      case Some(k) => RemoveMemberKeepsInvariant(r, k);
      case None =>
  }

  /** After a player leaves, the first remaining player is the admin. */
  lemma PlayerLeaveLeavesAdmin(r: Roster, socketId: string)
    requires socketId in PlayerSockets(r.players) && |r.players| > 1
    ensures var r' := Leave(r, socketId).1; |r'.players| == |r.players| - 1 && r'.players[0].isAdmin
  {
  }

  /** The admin flag is never set by a join: a fresh room's first player is not admin.
      So "exactly one admin once a player exists" fails for the code as written. */
  lemma FirstJoinerIsNotAdmin(username: string, socketId: string)
    ensures var (ok, r) := Join(Roster([], []), username, socketId);
      ok && |r.players| == 1 && !r.players[0].isAdmin
  {
  }

  /** `addPlayer` with a constructor that honours its `isAdmin` argument. */
  function JoinHonouringAdmin(r: Roster, username: string, socketId: string): (res: (bool, Roster))
    ensures !Taken(r, username) && |r.players| != Capacity ==>
      res.0 && res.1.players == r.players + [NewPlayerAs(socketId, username, r.players == [])]
    ensures (Taken(r, username) || |r.players| == Capacity) ==> res == Join(r, username, socketId)
  {
    if Taken(r, username) || |r.players| == Capacity then Join(r, username, socketId)
    else (true, r.(players := r.players + [NewPlayerAs(socketId, username, r.players == [])]))
  }

  /** Exactly one admin whenever a player exists: the first one. */
  ghost predicate ExactlyOneAdmin(ps: seq<Player>) {
    AdminOnlyFirst(ps) && (|ps| > 0 ==> ps[0].isAdmin)
  }

  /** With the honoured flag, joins and leaves keep exactly one admin. */
  lemma {:induction false} HonouredAdminIsUnique(r: Roster, username: string, socketId: string)
    requires Invariant(r) && ExactlyOneAdmin(r.players)
    ensures var r' := JoinHonouringAdmin(r, username, socketId).1; Invariant(r') && ExactlyOneAdmin(r'.players)
    ensures var r' := Leave(r, socketId).1; Invariant(r') && ExactlyOneAdmin(r'.players)
  {
    LeaveKeepsInvariant(r, socketId);
    JoinKeepsInvariant(r, username, socketId);
    if !Taken(r, username) && |r.players| != Capacity {
      var p := NewPlayerAs(socketId, username, r.players == []);
      var ps := r.players + [p];
      assert Usernames(ps) == Usernames(r.players) + [username];
      assert Usernames(ps) == Usernames(Join(r, username, socketId).1.players);
    }
  }

  /** The player stored under `username` (`this.players[username] || null`). */
  function PlayerNamed(ps: seq<Player>, username: string): (r: Option<Player>)
    ensures r.None? <==> username !in Usernames(ps)
    ensures r.Some? ==> exists k :: 0 <= k < |ps| && ps[k] == r.value && r.value.username == username
  {
    match IndexOf(Usernames(ps), username)
    case Some(k) => Some(ps[k])
    case None => None
  }

  /** With unique names, the player at a position is the one stored under its name. */
  lemma PlayerNamedAt(ps: seq<Player>, k: nat)
    requires Distinct(Usernames(ps)) && k < |ps|
    ensures PlayerNamed(ps, ps[k].username) == Some(ps[k])
  {
    var i := IndexOf(Usernames(ps), ps[k].username).value;
    assert Usernames(ps)[i] == Usernames(ps)[k];
  }

  /** The players with the one named `username` moved to `state` (`updatePlayerState`). */
  function SetState(ps: seq<Player>, username: string, state: PlayerState): (r: seq<Player>)
    ensures |r| == |ps| && Usernames(r) == Usernames(ps)
    ensures forall k :: 0 <= k < |ps| ==> r[k] == if ps[k].username == username then ps[k].(state := state) else ps[k]
    ensures username !in Usernames(ps) ==> r == ps
  {
    seq(|ps|, k requires 0 <= k < |ps| => if ps[k].username == username then ps[k].(state := state) else ps[k])
  }

  /** The same for the audience member named `username`. */
  function SetMemberState(aud: seq<AudienceMember>, username: string, state: PlayerState): (r: seq<AudienceMember>)
    ensures |r| == |aud| && MemberNames(r) == MemberNames(aud)
    ensures forall k :: 0 <= k < |aud| ==> r[k] == if aud[k].username == username then aud[k].(state := state) else aud[k]
    ensures username !in MemberNames(aud) ==> r == aud
  {
    seq(|aud|, k requires 0 <= k < |aud| => if aud[k].username == username then aud[k].(state := state) else aud[k])
  }

  /** The same players in the same seats with the same admin flags; other fields may differ. */
  ghost predicate SameSeats(ps: seq<Player>, qs: seq<Player>) {
    |qs| == |ps| && forall k :: 0 <= k < |ps| ==> qs[k].username == ps[k].username && qs[k].isAdmin == ps[k].isAdmin
  }

  /** Updates that keep every seat and keep scores non-negative keep the invariant. */
  lemma SameSeatsKeepInvariant(r: Roster, qs: seq<Player>)
    requires Invariant(r) && SameSeats(r.players, qs) && ScoresNonNegative(qs)
    ensures Invariant(r.(players := qs))
    ensures ExactlyOneAdmin(r.players) ==> ExactlyOneAdmin(qs)
  {
    assert Usernames(qs) == Usernames(r.players);
  }

  /** One room's participants (server/utils/playerManager.js, class PlayerManager). */
  class PlayerManager {
    var players: seq<Player>
    var audience: seq<AudienceMember>

    ghost function Current(): Roster
      reads this
    {
      Roster(players, audience)
    }

    ghost predicate Valid()
      reads this
    {
      Invariant(Current()) && ExactlyOneAdmin(players)
    }

    constructor ()
      ensures Valid() && players == [] && audience == []
    {
      players := [];
      audience := [];
    }

    /** Returns true when the user became a player; false when the name is taken, or when
        the room is full and the user was put in the audience instead. */
    method AddPlayer(username: string, socketId: string) returns (added: bool)
      requires Valid()
      modifies this
      ensures Valid()
      ensures (added, Current()) == JoinHonouringAdmin(old(Current()), username, socketId)
    {
      if username in Usernames(players) || username in MemberNames(audience) {
        return false;
      }
      if |players| == Capacity {
        var _ := AddAudience(username, socketId);
        return false;
      }
      // The player constructor as written drops this flag (see `FirstJoinerIsNotAdmin`);
      // the roster passes it on, as `addPlayer` means it to.
      var isAdmin := |players| == 0;
      var player := NewPlayerAs(socketId, username, isAdmin);
      HonouredAdminIsUnique(Current(), username, socketId);
      players := players + [player];
      added := true;
    }

    method AddAudience(username: string, socketId: string) returns (added: bool)
      requires Valid()
      modifies this
      ensures Valid()
      ensures (added, Current()) == JoinAudience(old(Current()), username, socketId)
    {
      if username in Usernames(players) || username in MemberNames(audience) {
        return false;
      }
      JoinKeepsInvariant(Current(), username, socketId);
      audience := audience + [AudienceMember(socketId, username, Active)];
      added := true;
    }

    method RemoveUserBySocketId(socketId: string) returns (removed: Option<string>)
      requires Valid()
      modifies this
      ensures Valid()
      ensures (removed, Current()) == Leave(old(Current()), socketId)
    {
      LeaveKeepsInvariant(Current(), socketId);
      var k := IndexOf(PlayerSockets(players), socketId);
      if k.Some? {
        var username := players[k.value].username;
        RemoveAtKeepsInvariant(Current(), k.value);
        players := RemoveAt(players, k.value);
        ReassignAdmin();
        return Some(username);
      }
      var j := IndexOf(MemberSockets(audience), socketId);
      if j.Some? {
        var username := audience[j.value].username;
        audience := RemoveAt(audience, j.value);
        return Some(username);
      }
      return None;
    }

    /** Called with the admin possibly just removed; afterwards the first player is it. */
    method ReassignAdmin()
      requires Invariant(Current())
      modifies this
      ensures Valid()
      ensures players == WithFirstAdmin(old(players)) && audience == old(audience)
    {
      WithFirstAdminKeepsInvariant(Current());
      if |players| > 0 {
        players := players[0 := players[0].(isAdmin := true)];
      }
    }

    /** The players map's values, in insertion order (the `getPlayers` the callers use). */
    function GetPlayers(): (r: seq<Player>)
      reads this
      ensures |r| == |players| && Usernames(r) == Usernames(players)
    {
      players
    }

    function GetPlayer(username: string): (r: Option<Player>)
      reads this
      ensures r.None? <==> username !in Usernames(players)
      ensures r.Some? ==> r.value in players && r.value.username == username
    {
      PlayerNamed(players, username)
    }

    function GetPlayerBySocketId(socketId: string): (r: Option<Player>)
      reads this
      ensures r.None? <==> socketId !in PlayerSockets(players)
      ensures r.Some? ==> r.value in players && r.value.socketId == socketId
      ensures r.Some? ==> exists k: nat :: FirstAt(PlayerSockets(players), k, socketId) && r.value == players[k]
    {
      match IndexOf(PlayerSockets(players), socketId)
      case Some(k) =>
        assert FirstAt(PlayerSockets(players), k, socketId);
        Some(players[k])
      case None => None
    }

    function IsUserInGame(username: string): (r: bool)
      reads this
      ensures r <==>
        || (exists i :: 0 <= i < |players| && players[i].username == username)
        || (exists i :: 0 <= i < |audience| && audience[i].username == username)
    {
      assert forall i :: 0 <= i < |players| ==> Usernames(players)[i] == players[i].username;
      assert forall i :: 0 <= i < |audience| ==> MemberNames(audience)[i] == audience[i].username;
      username in Usernames(players) || username in MemberNames(audience)
    }

    function GetUsernameBySocketId(socketId: string): (r: Option<string>)
      reads this
      ensures socketId in PlayerSockets(players) ==> r == Some(GetPlayerBySocketId(socketId).value.username)
      ensures r.Some? ==> r.value in Usernames(players) || r.value in MemberNames(audience)
      ensures r.None? <==> socketId !in PlayerSockets(players) && socketId !in MemberSockets(audience)
      ensures socketId !in PlayerSockets(players) && r.Some? ==>
        exists k: nat :: FirstAt(MemberSockets(audience), k, socketId) && r.value == audience[k].username
    {
      match GetPlayerBySocketId(socketId)
      case Some(p) => Some(p.username)
      case None =>
        match IndexOf(MemberSockets(audience), socketId)
        case Some(k) =>
          assert FirstAt(MemberSockets(audience), k, socketId);
          Some(audience[k].username)
        case None => None
    }

    function GetTotalPlayers(): (n: nat)
      reads this
      ensures Valid() ==> n <= Capacity
      ensures n == |Usernames(players)|
    {
      |players|
    }

    /** False for a name that is not a player; the player's flag otherwise. */
    function IsAdmin(username: string): (r: bool)
      reads this
      ensures username !in Usernames(players) ==> !r
      ensures r ==> exists i :: 0 <= i < |players| && players[i].username == username && players[i].isAdmin
      ensures Valid() && r ==> players[0].username == username
      ensures Valid() ==> forall i :: 0 <= i < |players| && players[i].username == username ==> r == players[i].isAdmin
    {
      match GetPlayer(username)
      case Some(p) =>
        assert p.username == username;
        p.isAdmin
      case None => false
    }

    method UpdatePlayerState(username: string, state: PlayerState)
      requires Valid()
      modifies this
      ensures Valid() && audience == old(audience)
      ensures players == SetState(old(players), username, state)
    {
      var k := IndexOf(Usernames(players), username);
      if k.Some? {
        players := players[k.value := players[k.value].(state := state)];
        assert Usernames(players) == Usernames(old(players));
        assert players == SetState(old(players), username, state);
      } else {
        assert players == SetState(old(players), username, state);
      }
    }
  }
}
