/** The game service: one room row with its player rows, updated in place by the
    operations of the engine. Each operation is proved to leave the room in the state the
    matching transition of `GameRules` describes, so the properties proved there carry over. */
module GameService {
  import opened Outcomes
  import opened RoleTable
  import opened Players
  import opened Sequences
  import opened Shuffle
  import opened Dares
  import opened GameRules

  /** What `addPlayerToRoom` hands back about the new player. */
  datatype Member = Member(uid: Uid, name: string)

  /** What `processAccusation` resolves with. */
  datatype Accusation =
    | Correct(newSeekerId: Uid, nextRole: Option<Role>, pointsEarned: nat, gameEnded: bool)
    | Wrong(dare: DareCard, newSeekerId: Uid)

  /** One row of the rooms table together with that room's rows of the players table. */
  class Room {
    var status: Status
    var currentSeeker: Option<Uid>
    var roleIndex: int
    var lastAccused: Option<Uid>
    var players: seq<Player>

    ghost function State(): RoomState
      reads this
    {
      RoomState(status, currentSeeker, roleIndex, lastAccused, players)
    }

    ghost predicate Valid()
      reads this
    {
      Inv(State())
    }

    /** `createRoom`: a waiting room whose only player is its host. */
    constructor (hostUid: Uid, hostName: string)
      ensures Valid() && State() == Created(hostUid, hostName)
    {
      status := Waiting;
      currentSeeker := None;
      roleIndex := 0;
      lastAccused := None;
      players := [NewPlayer(hostUid, hostName, true)];
    }

    /** The per-player `UPDATE` of `startGame` (row i gets `shuffled[i]`), then the room
        row: playing, `girlfriendId` seeks, for the target at index 1. */
    method Deal(shuffled: seq<Role>, girlfriendId: Uid)
      requires 0 < |players| == |shuffled|
      requires girlfriendId == players[if IndexOf(shuffled, GF) >= 0 then IndexOf(shuffled, GF) else 0].uid
      modifies this
      ensures State() == Started(old(State()), shuffled)
    {
      ghost var ps := players;
      var i := 0;
      while i < |players|
        invariant 0 <= i <= |ps| == |players|
        invariant forall j :: 0 <= j < i ==> players[j] == ps[j].(role := Some(shuffled[j]))
        invariant forall j :: i <= j < |ps| ==> players[j] == ps[j]
        invariant lastAccused == old(lastAccused)
      {
        players := players[i := players[i].(role := Some(shuffled[i]))];
        i := i + 1;
      }
      assert players == WithRoles(ps, shuffled);
      status := Playing;
      currentSeeker := Some(girlfriendId);
      roleIndex := 1;
    }

    /** The per-player `UPDATE` of `resetGame`: row `order[q]` (position q in uid order)
        gets role `shuffled[q]`, no points and no reveal. */
    method ResetPlayers(order: seq<nat>, shuffled: seq<Role>)
      requires order == UidOrder(players) && |players| <= |shuffled|
      modifies this
      ensures players == ResetInOrder(old(players), order, shuffled, |order|)
      ensures status == old(status) && currentSeeker == old(currentSeeker)
      ensures roleIndex == old(roleIndex) && lastAccused == old(lastAccused)
    {
      ghost var ps := players;
      var q := 0;
      while q < |order|
        invariant 0 <= q <= |order| == |ps|
        invariant players == ResetInOrder(ps, order, shuffled, q)
        invariant status == old(status) && currentSeeker == old(currentSeeker)
        invariant roleIndex == old(roleIndex) && lastAccused == old(lastAccused)
      {
        var row := order[q];
        players := players[row := ResetRow(players[row], shuffled[q])];
        q := q + 1;
      }
    }

    /** `resetGame` on the room: the per-player reset, then the room row: playing, the first
        player in uid order seeks, for the target at index 1. */
    method ResetRound(order: seq<nat>, shuffled: seq<Role>, firstId: Uid)
      requires order == UidOrder(players) && 0 < |players| <= |shuffled|
      requires firstId == players[order[0]].uid
      modifies this
      ensures State() == Reset(old(State()), shuffled)
    {
      ghost var ps := players;
      ResetPlayers(order, shuffled);
      ResetInOrderIsResetRows(ps, shuffled);
      status := Playing;
      currentSeeker := Some(firstId);
      roleIndex := 1;
      lastAccused := None;
    }
  }

  /** `addPlayerToRoom`; `uid` is the id `uuidv4` generated, which no player has yet. */
  method AddPlayerToRoom(room: Room?, uid: Uid, name: string) returns (r: Result<Member>)
    requires room != null ==> room.Valid() && !HasUid(room.players, uid)
    modifies room
    ensures room == null ==> r == Err(RoomNotFound)
    ensures room != null ==> room.Valid()
    ensures room != null && old(room.status) != Waiting ==>
              r == Err(GameAlreadyStarted) && room.State() == old(room.State())
    ensures room != null && old(room.status) == Waiting && old(|room.players|) >= MaxPlayers ==>
              r == Err(RoomFull) && room.State() == old(room.State())
    ensures room != null && old(room.status) == Waiting && old(|room.players|) < MaxPlayers ==>
              r == Ok(Member(uid, name)) && room.State() == Joined(old(room.State()), uid, name)
  {
    if room == null {
      return Err(RoomNotFound);
    }
    if room.status != Waiting {
      return Err(GameAlreadyStarted);
    }
    if |room.players| >= MaxPlayers {
      return Err(RoomFull);
    }
    JoinKeepsInv(room.State(), uid, name);
    room.players := room.players + [NewPlayer(uid, name, false)];
    r := Ok(Member(uid, name));
  }

  /** `startGame`: shuffle the role list with the draws `rands`, store role i in row i,
      and let the holder of 'GF' seek for the target at index 1. */
  method StartGame(room: Room?, rands: seq<real>) returns (r: Result<()>)
    requires room != null ==> room.Valid()
    requires RoleCount <= |rands| && AllRandom(rands)
    modifies room
    ensures room == null ==> r == Err(RoomNotFound)
    ensures room != null ==> room.Valid()
    ensures room != null && old(room.status) != Waiting ==>
              r == Err(GameAlreadyStarted) && room.State() == old(room.State())
    ensures room != null && old(room.status) == Waiting && old(|room.players|) != RoleCount ==>
              r == Err(WrongPlayerCount) && room.State() == old(room.State())
    ensures room != null && old(room.status) == Waiting && old(|room.players|) == RoleCount ==>
              r == Ok(()) && room.State() == Started(old(room.State()), FisherYates(Roles, rands))
  {
    if room == null {
      return Err(RoomNotFound);
    }
    if room.status != Waiting {
      return Err(GameAlreadyStarted);
    }
    if |room.players| != RoleCount {
      return Err(WrongPlayerCount);
    }
    ghost var s := room.State();
    var shuffled := ShuffleArray(Roles, rands);
    var gfIndex := IndexOf(shuffled, GF);
    var gfIndexSafe := if gfIndex >= 0 then gfIndex else 0;
    var girlfriendId := room.players[gfIndexSafe].uid;
    room.Deal(shuffled, girlfriendId);
    r := Ok(());
    assert room.Valid() by {
      ShuffledStartKeepsInv(s, rands);
    }
  }

  /** A start with the shuffle `startGame` draws keeps the invariant. */
  lemma ShuffledStartKeepsInv(s: RoomState, rands: seq<real>)
    requires Inv(s) && s.status == Waiting && |s.players| == RoleCount
    requires RoleCount <= |rands| && AllRandom(rands)
    ensures Inv(Started(s, FisherYates(Roles, rands)))
  {
    FisherYatesPermutes(Roles, rands);
    StartKeepsInv(s, FisherYates(Roles, rands));
  }

  /** `processAccusation`: the five guards in order, then the role comparison decides between
      the correct and the wrong branch; `rand` is the draw the dare selection would use. */
  method ProcessAccusation(room: Room?, pool: DarePool, seekerId: Uid, accusedId: Uid, rand: real)
    returns (r: Result<Accusation>)
    requires room != null ==> room.Valid()
    requires pool.Valid() && IsRandom(rand)
    modifies room, pool.dares
    ensures pool.Valid()
    ensures room == null ==> r == Err(RoomNotFound) && pool.dares[..] == old(pool.dares[..])
    ensures room != null ==> room.Valid()
    ensures room != null && AccusationGuard(old(room.State()), seekerId, accusedId).Some? ==>
      && r == Err(AccusationGuard(old(room.State()), seekerId, accusedId).value)
      && room.State() == old(room.State()) && pool.dares[..] == old(pool.dares[..])
    ensures room != null && AccusationGuard(old(room.State()), seekerId, accusedId).None? ==>
      var s := old(room.State());
      var a := RowOf(s.players, accusedId);
      && (IsCorrectGuess(Target(s), s.players[a].role) ==>
            && r == Ok(CorrectOutcome(s, accusedId))
            && room.State() == AfterCorrect(s, seekerId, a) && pool.dares[..] == old(pool.dares[..]))
      && (!IsCorrectGuess(Target(s), s.players[a].role) ==>
            WrongOutcome(s, seekerId, a, old(pool.dares[..]), room.State(), pool.dares[..], r))
  {
    if room == null {
      return Err(RoomNotFound);
    }
    if room.status != Playing {
      return Err(NotPlaying);
    }
    if room.currentSeeker != Some(seekerId) {
      return Err(NotSeeker);
    }
    if room.lastAccused == Some(accusedId) {
      return Err(RepeatTarget);
    }
    var found := FindPlayer(room.players, accusedId);
    if found.None? {
      return Err(AccusedNotFound);
    }
    var accused := room.players[found.value];
    if accused.revealed {
      return Err(AlreadyRevealed);
    }
    AccusationGuardAdmits(room.State(), seekerId, accusedId);
    var expectedRole := Roles[NormalizeRoleIndex(room.roleIndex)];
    if IsCorrectGuess(expectedRole, accused.role) {
      var outcome := ProcessCorrectAccusation(room, accusedId, seekerId, expectedRole, room.roleIndex);
      r := Ok(outcome);
    } else {
      r := ProcessWrongAccusation(room, pool, seekerId, accusedId, accused.role, rand);
    }
  }

  /** What a correct accusation resolves with: the accused seeks next, and either the next
      target is named or the game is over. */
  function CorrectOutcome(s: RoomState, accusedId: Uid): Accusation
  {
    var next := s.roleIndex + 1;
    Correct(accusedId, if 0 <= next < RoleCount then Some(Roles[next]) else None, RolePoints(Target(s)), next >= RoleCount)
  }

  /** A wrong accusation: either no dare was available and nothing changed, or one dare was
      drawn and the room moved to `AfterWrong`. */
  ghost predicate WrongOutcome(s: RoomState, seekerId: Uid, a: nat, dares: seq<Dare>,
                               t: RoomState, dares': seq<Dare>, r: Result<Accusation>)
    requires a < |s.players| && HasUid(s.players, seekerId)
  {
    && (r.Err? <==> !HasEligible(dares))
    && (r.Err? ==> r.error == NoDares && t == s && dares' == dares)
    && (r.Ok? ==> && r.value.Wrong? && r.value.newSeekerId == s.players[a].uid
                  && (exists k :: Drawn(dares, dares', k, r.value.dare))
                  && t == AfterWrong(s, seekerId, a))
  }

  /** `processCorrectAccusation`: reveal the accused, pay the seeker, then pass the turn or
      end the game. */
  method ProcessCorrectAccusation(room: Room, accusedId: Uid, seekerId: Uid, expectedRole: Role, currentRoleIndex: int)
    returns (r: Accusation)
    requires room.Valid() && HasUid(room.players, accusedId)
    requires Admissible(room.State(), seekerId, RowOf(room.players, accusedId))
    requires expectedRole == Target(room.State()) && currentRoleIndex == room.roleIndex
    modifies room
    ensures room.Valid()
    ensures room.State() == AfterCorrect(old(room.State()), seekerId, RowOf(old(room.players), accusedId))
    ensures r == CorrectOutcome(old(room.State()), accusedId)
  {
    ghost var s := room.State();
    ghost var a0 := RowOf(s.players, accusedId);
    assert HasUid(s.players, seekerId) && s.status == Playing by {
      assert Inv(s);
    }
    var players := room.players;
    var a := FindPlayer(players, accusedId).value;
    var k := FindPlayer(players, seekerId).value;
    var pointsEarned := RolePoints(expectedRole);
    var paid := RevealAndPay(players, a, k, pointsEarned);
    room.players := paid;
    var nextRoleIndex := currentRoleIndex + 1;
    if nextRoleIndex >= RoleCount {
      room.status := Ended;
      r := Correct(accusedId, None, pointsEarned, true);
      assert room.State() == s.(players := paid, status := Ended);
    } else {
      room.currentSeeker := Some(accusedId);
      room.roleIndex := nextRoleIndex;
      room.lastAccused := None;
      r := Correct(accusedId, Some(Roles[nextRoleIndex]), pointsEarned, false);
      assert room.State() == s.(players := paid, currentSeeker := Some(accusedId), roleIndex := nextRoleIndex,
                                 lastAccused := None);
    }
    assert a == a0 && k == RowOf(s.players, seekerId);
    assert room.State() == AfterCorrect(s, seekerId, a0);
    assert room.Valid() by {
      CorrectAccusationKeepsInv(s, seekerId, a0);
    }
  }

  /** `processWrongAccusation`: draw a dare first; then the seeker takes the accused's role,
      the accused takes the seeker's, and the accused is remembered and seeks next. */
  method ProcessWrongAccusation(room: Room, pool: DarePool, seekerId: Uid, accusedId: Uid,
                                accusedRole: Option<Role>, rand: real)
    returns (r: Result<Accusation>)
    requires room.Valid() && HasUid(room.players, accusedId)
    requires Admissible(room.State(), seekerId, RowOf(room.players, accusedId))
    requires accusedRole == room.players[RowOf(room.players, accusedId)].role
    requires pool.Valid() && IsRandom(rand)
    modifies room, pool.dares
    ensures room.Valid() && pool.Valid()
    ensures WrongOutcome(old(room.State()), seekerId, RowOf(old(room.players), accusedId),
                         old(pool.dares[..]), room.State(), pool.dares[..], r)
  {
    ghost var s := room.State();
    ghost var a0 := RowOf(s.players, accusedId);
    assert HasUid(s.players, seekerId) by {
      assert Inv(s);
    }
    var dare := pool.GetRandomDare(rand);
    if dare.Err? {
      return Err(dare.error);
    }
    var players := room.players;
    var k := FindPlayer(players, seekerId).value;
    var a := FindPlayer(players, accusedId).value;
    var seekerRole := players[k].role;
    var swapped := SetRole(SetRole(players, k, accusedRole), a, seekerRole);
    room.players := swapped;
    room.lastAccused := Some(accusedId);
    room.currentSeeker := Some(accusedId);
    r := Ok(Wrong(dare.value, accusedId));
    assert room.State() == AfterWrong(s, seekerId, a0);
    assert room.Valid() by {
      WrongAccusationKeepsInv(s, seekerId, a0);
    }
  }

  /** `resetGame`: from any status, with at least two players, deal a fresh shuffle in uid
      order, clear points and reveals, and let the first player in uid order seek. */
  method ResetGame(room: Room?, rands: seq<real>) returns (r: Result<()>)
    requires room != null ==> room.Valid()
    requires RoleCount <= |rands| && AllRandom(rands)
    modifies room
    ensures room == null ==> r == Err(RoomNotFound)
    ensures room != null ==> room.Valid()
    ensures room != null && old(|room.players|) < 2 ==>
              r == Err(InvalidPlayerCount) && room.State() == old(room.State())
    ensures room != null && old(|room.players|) >= 2 ==>
              r == Ok(()) && room.State() == Reset(old(room.State()), FisherYates(Roles, rands))
  {
    if room == null {
      return Err(RoomNotFound);
    }
    var order := UidOrder(room.players);
    if |order| < 2 {
      return Err(InvalidPlayerCount);
    }
    ghost var s := room.State();
    assert |s.players| <= RoleCount by {
      assert Inv(s);
    }
    var shuffled := ShuffleArray(Roles, rands);
    var firstId := room.players[order[0]].uid;
    room.ResetRound(order, shuffled, firstId);
    r := Ok(());
    assert room.Valid() by {
      ShuffledResetKeepsInv(s, rands);
    }
  }

  /** A reset with the shuffle `resetGame` draws keeps the invariant. */
  lemma ShuffledResetKeepsInv(s: RoomState, rands: seq<real>)
    requires Inv(s) && |s.players| >= 2
    requires RoleCount <= |rands| && AllRandom(rands)
    ensures Inv(Reset(s, FisherYates(Roles, rands)))
  {
    FisherYatesPermutes(Roles, rands);
    ResetKeepsInv(s, FisherYates(Roles, rands));
  }
}
