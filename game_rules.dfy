/** The room state machine as values: the room invariant, each transition of the engine
    as a function of the old state, and the properties each transition keeps. */
module GameRules {
  import opened Outcomes
  import opened RoleTable
  import opened Players
  import opened Sequences

  /** "Room is full (max 6 players)". */
  const MaxPlayers: nat := 6

  /** The values the `status` column of a room can take. */
  datatype Status = Waiting | Playing | Ended

  /** The columns of one room row, together with its player rows. */
  datatype RoomState = RoomState(
    status: Status,
    currentSeeker: Option<Uid>,
    roleIndex: int,
    lastAccused: Option<Uid>,
    players: seq<Player>)

  /** Every row holds a role and no two rows hold the same one. */
  predicate AllDealt(ps: seq<Player>)
  {
    && (forall i :: 0 <= i < |ps| ==> ps[i].role.Some?)
    && NoDuplicates(Held(ps))
  }

  /** The room creator is the first row and the only host; ids are distinct; at most six rows. */
  ghost predicate Seats(ps: seq<Player>)
  {
    && 1 <= |ps| <= MaxPlayers
    && ps[0].isHost && (forall i :: 1 <= i < |ps| ==> !ps[i].isHost)
    && UidsDistinct(ps)
  }

  /** Before the start nobody has a role, a point, or a reveal, and nobody was accused. */
  ghost predicate WaitingFresh(s: RoomState)
  {
    s.status == Waiting ==>
      && s.lastAccused.None?
      && forall i :: 0 <= i < |s.players| ==>
           s.players[i].role.None? && s.players[i].points == 0 && !s.players[i].revealed
  }

  /** Once dealt, roles are distinct and the seeker is a player of the room. */
  ghost predicate DealtOk(s: RoomState)
  {
    s.status != Waiting ==>
      AllDealt(s.players) && s.currentSeeker.Some? && HasUid(s.players, s.currentSeeker.value)
  }

  /** While playing, the targets 1 .. index-1 have been found, each by one correct accusation;
      after the end all five have. */
  ghost predicate Ledger(s: RoomState)
  {
    && (s.status == Playing ==>
          && 1 <= s.roleIndex < RoleCount
          && TotalPoints(s.players) == FoundPoints(s.roleIndex)
          && RevealedCount(s.players) == s.roleIndex - 1)
    && (s.status == Ended ==>
          TotalPoints(s.players) == FoundPoints(RoleCount) && RevealedCount(s.players) == RoleCount - 1)
  }

  /** What the engine keeps true of every room, whichever operations ran. */
  ghost predicate Inv(s: RoomState)
  {
    Seats(s.players) && WaitingFresh(s) && DealtOk(s) && Ledger(s)
  }

  lemma SeatsKept(ps: seq<Player>, qs: seq<Player>)
    requires Seats(ps) && SameSeats(ps, qs)
    ensures Seats(qs)
    ensures forall uid :: HasUid(ps, uid) ==> HasUid(qs, uid)
  {
    SameSeatsKeepIds(ps, qs);
  }

  /** The room row and host row that `createRoom` inserts. */
  function Created(hostUid: Uid, hostName: string): (s: RoomState)
    ensures Inv(s)
    ensures s.status == Waiting && |s.players| == 1 && s.players[0].isHost
  {
    RoomState(Waiting, None, 0, None, [NewPlayer(hostUid, hostName, true)])
  }

  // ----- addPlayerToRoom -----

  function Joined(s: RoomState, uid: Uid, name: string): RoomState
  {
    s.(players := s.players + [NewPlayer(uid, name, false)])
  }

  lemma JoinKeepsInv(s: RoomState, uid: Uid, name: string)
    requires Inv(s) && s.status == Waiting && |s.players| < MaxPlayers
    requires !HasUid(s.players, uid)
    ensures Inv(Joined(s, uid, name))
  {
  }

  // ----- startGame -----

  /** The rows with role `rs[i]` stored in row i. */
  function WithRoles(ps: seq<Player>, rs: seq<Role>): (qs: seq<Player>)
    requires |rs| == |ps|
    ensures |qs| == |ps|
    ensures forall i :: 0 <= i < |ps| ==> qs[i] == ps[i].(role := Some(rs[i]))
  {
    seq(|ps|, i requires 0 <= i < |ps| => ps[i].(role := Some(rs[i])))
  }

  /** The room after `startGame` dealt the shuffled roles in row order: the holder of
      'GF' (or row 0, should 'GF' be missing) seeks first, for the target at index 1. */
  function Started(s: RoomState, shuffled: seq<Role>): RoomState
    requires |shuffled| == |s.players| > 0
  {
    var gfIndex := IndexOf(shuffled, GF);
    var gfIndexSafe := if gfIndex >= 0 then gfIndex else 0;
    s.(players := WithRoles(s.players, shuffled),
       status := Playing,
       currentSeeker := Some(s.players[gfIndexSafe].uid),
       roleIndex := 1)
  }

  /** Dealing changes no id, host flag, point or reveal flag; the rows hold the dealt list. */
  lemma WithRolesRows(ps: seq<Player>, rs: seq<Role>)
    requires |rs| == |ps|
    ensures SameSeats(ps, WithRoles(ps, rs))
    ensures Held(WithRoles(ps, rs)) == Dealt(rs)
    ensures forall i :: 0 <= i < |ps| ==>
      WithRoles(ps, rs)[i].points == ps[i].points && WithRoles(ps, rs)[i].revealed == ps[i].revealed
  {
  }

  /** Dealing a list without repeats stores no value twice. */
  lemma DealtKeepsNoDuplicates(rs: seq<Role>)
    requires NoDuplicates(rs)
    ensures NoDuplicates(Dealt(rs))
  {
  }

  /** A permutation of the role list contains every role. */
  lemma PermutationHasEveryRole(shuffled: seq<Role>, r: Role)
    requires multiset(shuffled) == multiset(Roles)
    ensures r in shuffled
  {
    RolesAreDistinct();
    assert r in multiset(Roles);
  }

  /** Dealing a permutation of the role list keeps the invariant; the search starts at
      index 1 with no points and no reveals. */
  lemma StartKeepsInv(s: RoomState, shuffled: seq<Role>)
    requires Inv(s) && s.status == Waiting && |s.players| == RoleCount
    requires |shuffled| == RoleCount && multiset(shuffled) == multiset(Roles)
    ensures Inv(Started(s, shuffled))
  {
    var ps := WithRoles(s.players, shuffled);
    DealKeepsSeats(s.players, shuffled);
    DealIsAllDealt(s.players, shuffled);
    DealFromFresh(s.players, shuffled);
    var t := Started(s, shuffled);
    assert HasUid(ps, t.currentSeeker.value);
  }

  lemma DealKeepsSeats(ps: seq<Player>, rs: seq<Role>)
    requires Seats(ps) && |rs| == |ps|
    ensures Seats(WithRoles(ps, rs))
  {
    WithRolesRows(ps, rs);
    SeatsKept(ps, WithRoles(ps, rs));
  }

  lemma DealIsAllDealt(ps: seq<Player>, rs: seq<Role>)
    requires |rs| == |ps| && multiset(rs) == multiset(Roles)
    ensures AllDealt(WithRoles(ps, rs))
  {
    WithRolesRows(ps, rs);
    RoleDealIsDistinct(rs);
    DealtKeepsNoDuplicates(rs);
  }

  /** A permutation of the role list repeats no role. */
  lemma RoleDealIsDistinct(rs: seq<Role>)
    requires multiset(rs) == multiset(Roles)
    ensures NoDuplicates(rs)
  {
    RolesAreDistinct();
    PermutationKeepsNoDuplicates(rs, Roles);
  }

  lemma DealFromFresh(ps: seq<Player>, rs: seq<Role>)
    requires |rs| == |ps|
    requires forall i :: 0 <= i < |ps| ==> ps[i].points == 0 && !ps[i].revealed
    ensures TotalPoints(WithRoles(ps, rs)) == 0 && RevealedCount(WithRoles(ps, rs)) == 0
  {
    TotalPointsZero(WithRoles(ps, rs));
    RevealedCountZero(WithRoles(ps, rs));
  }

  /** Dealing a permutation of the role list is a bijection between players and roles:
      the roles held are the role list, so every role is held by somebody. */
  lemma StartDealsAllRoles(s: RoomState, shuffled: seq<Role>)
    requires |s.players| == RoleCount
    requires |shuffled| == RoleCount && multiset(shuffled) == multiset(Roles)
    ensures multiset(Held(Started(s, shuffled).players)) == multiset(Dealt(Roles))
    ensures forall r: Role :: Some(r) in Held(Started(s, shuffled).players)
  {
    var ps := Started(s, shuffled).players;
    WithRolesRows(s.players, shuffled);
    DealtMultiset(shuffled, Roles);
    forall r: Role ensures Some(r) in Held(ps) {
      PermutationHasEveryRole(shuffled, r);
      var i := IndexOf(shuffled, r);
      assert Held(ps)[i] == Some(r);
    }
  }

  /** After dealing a permutation of the role list, the first seeker is the holder of 'GF'. */
  lemma StartGirlfriendSeeks(s: RoomState, shuffled: seq<Role>)
    requires |s.players| == RoleCount
    requires |shuffled| == RoleCount && multiset(shuffled) == multiset(Roles)
    ensures exists i :: 0 <= i < RoleCount && Started(s, shuffled).players[i].uid == Started(s, shuffled).currentSeeker.value
              && Started(s, shuffled).players[i].role == Some(GF)
  {
    var t := Started(s, shuffled);
    PermutationHasEveryRole(shuffled, GF);
    var g := IndexOf(shuffled, GF);
    assert t.players[g].uid == t.currentSeeker.value && t.players[g].role == Some(GF);
  }

  /** Mapping roles to stored values keeps equal multisets equal. */
  lemma DealtMultiset(a: seq<Role>, b: seq<Role>)
    requires multiset(a) == multiset(b)
    ensures multiset(Dealt(a)) == multiset(Dealt(b))
  {
    forall v: Option<Role> ensures multiset(Dealt(a))[v] == multiset(Dealt(b))[v] {
      DealtCount(a, v);
      DealtCount(b, v);
    }
  }

  lemma {:induction false} DealtCount(a: seq<Role>, v: Option<Role>)
    ensures multiset(Dealt(a))[v] == if v.Some? then multiset(a)[v.value] else 0
  {
    if a != [] {
      var t := a[..|a| - 1];
      assert a == t + [a[|a| - 1]];
      assert Dealt(a) == Dealt(t) + [Some(a[|a| - 1])];
      DealtCount(t, v);
    }
  }

  // ----- processAccusation -----

  /** The role searched for this turn: the index made safe, then looked up. */
  function Target(s: RoomState): Role
  {
    Roles[NormalizeRoleIndex(s.roleIndex)]
  }

  /** The five guards of an accusation pass, the accused being row a. */
  predicate Admissible(s: RoomState, seekerId: Uid, a: nat)
  {
    && s.status == Playing
    && s.currentSeeker == Some(seekerId)
    && a < |s.players|
    && s.lastAccused != Some(s.players[a].uid)
    && !s.players[a].revealed
  }

  /** The first of the five guards of `processAccusation` that fails, in the order they run. */
  function AccusationGuard(s: RoomState, seekerId: Uid, accusedId: Uid): Option<GameError>
  {
    if s.status != Playing then Some(NotPlaying)
    else if s.currentSeeker != Some(seekerId) then Some(NotSeeker)
    else if s.lastAccused == Some(accusedId) then Some(RepeatTarget)
    else match FindPlayer(s.players, accusedId)
      case None => Some(AccusedNotFound)
      case Some(a) => if s.players[a].revealed then Some(AlreadyRevealed) else None
  }

  /** The guards pass exactly when the accused is in the room and the accusation is admissible;
      a repeated target is refused before anything about the roles is looked at. */
  lemma AccusationGuardAdmits(s: RoomState, seekerId: Uid, accusedId: Uid)
    ensures AccusationGuard(s, seekerId, accusedId).None? <==>
      HasUid(s.players, accusedId) && Admissible(s, seekerId, FindPlayer(s.players, accusedId).value)
    ensures s.status == Playing && s.currentSeeker == Some(seekerId) && s.lastAccused == Some(accusedId) ==>
      AccusationGuard(s, seekerId, accusedId) == Some(RepeatTarget)
  {
  }

  /** The rows after the accused row a is revealed and the seeker's row k is paid `pts`. */
  function RevealAndPay(ps: seq<Player>, a: nat, k: nat, pts: nat): seq<Player>
    requires a < |ps| && k < |ps|
  {
    var revealed := ps[a := ps[a].(revealed := true)];
    revealed[k := revealed[k].(points := revealed[k].points + pts)]
  }

  /** `processCorrectAccusation`: reveal the accused, pay the seeker the target's points,
      then hand over the turn for the next index, or end the game after the last one. */
  function AfterCorrect(s: RoomState, seekerId: Uid, a: nat): RoomState
    requires a < |s.players| && HasUid(s.players, seekerId)
  {
    var paid := RevealAndPay(s.players, a, RowOf(s.players, seekerId), RolePoints(Target(s)));
    var nextRoleIndex := s.roleIndex + 1;
    if nextRoleIndex >= RoleCount then
      s.(players := paid, status := Ended)
    else
      s.(players := paid, currentSeeker := Some(s.players[a].uid), roleIndex := nextRoleIndex, lastAccused := None)
  }

  /** The rows after rows k and a exchanged their roles (row k written first). */
  function SwapRoles(ps: seq<Player>, k: nat, a: nat): seq<Player>
    requires k < |ps| && a < |ps|
  {
    SetRole(SetRole(ps, k, ps[a].role), a, ps[k].role)
  }

  /** `UPDATE players SET role = ?` on row i. */
  function SetRole(ps: seq<Player>, i: nat, r: Option<Role>): seq<Player>
    requires i < |ps|
  {
    ps[i := ps[i].(role := r)]
  }

  /** `processWrongAccusation` (after its dare was drawn): seeker and accused exchange roles,
      the accused is remembered and seeks next. */
  function AfterWrong(s: RoomState, seekerId: Uid, a: nat): RoomState
    requires a < |s.players| && HasUid(s.players, seekerId)
  {
    var swapped := SwapRoles(s.players, RowOf(s.players, seekerId), a);
    s.(players := swapped, lastAccused := Some(s.players[a].uid), currentSeeker := Some(s.players[a].uid))
  }

  /** Revealing a row and paying a row changes no id, host flag or role. */
  lemma RevealAndPaySeats(ps: seq<Player>, a: nat, k: nat, pts: nat)
    requires a < |ps| && k < |ps|
    ensures SameSeats(ps, RevealAndPay(ps, a, k, pts))
    ensures Held(RevealAndPay(ps, a, k, pts)) == Held(ps)
  {
  }

  /** Revealing one unrevealed row and paying one row adds `pts` to the total and one to
      the reveal count. */
  lemma RevealAndPayCounts(ps: seq<Player>, a: nat, k: nat, pts: nat)
    requires a < |ps| && k < |ps| && !ps[a].revealed
    ensures TotalPoints(RevealAndPay(ps, a, k, pts)) == TotalPoints(ps) + pts
    ensures RevealedCount(RevealAndPay(ps, a, k, pts)) == RevealedCount(ps) + 1
  {
    var revealed := ps[a := ps[a].(revealed := true)];
    var paid := revealed[k := revealed[k].(points := revealed[k].points + pts)];
    assert RevealAndPay(ps, a, k, pts) == paid;
    RevealRowCounts(ps, a);
    PayRowCounts(revealed, k, pts);
  }

  /** Revealing a hidden row and paying a row keeps a full deal on intact seats, and moves
      the total by the payment and the reveal count by one. */
  lemma RevealAndPayKeepsDeal(ps: seq<Player>, a: nat, k: nat, pts: nat)
    requires Seats(ps) && AllDealt(ps) && a < |ps| && k < |ps| && !ps[a].revealed
    ensures Seats(RevealAndPay(ps, a, k, pts)) && AllDealt(RevealAndPay(ps, a, k, pts))
    ensures forall uid :: HasUid(ps, uid) ==> HasUid(RevealAndPay(ps, a, k, pts), uid)
    ensures TotalPoints(RevealAndPay(ps, a, k, pts)) == TotalPoints(ps) + pts
    ensures RevealedCount(RevealAndPay(ps, a, k, pts)) == RevealedCount(ps) + 1
  {
    var paid := RevealAndPay(ps, a, k, pts);
    RevealAndPaySeats(ps, a, k, pts);
    RevealAndPayCounts(ps, a, k, pts);
    SeatsKept(ps, paid);
    assert forall i :: 0 <= i < |ps| ==> paid[i].role == Held(paid)[i] == Held(ps)[i] == ps[i].role;
  }

  /** A correct accusation keeps the invariant: the target just found is paid for and
      revealed, so the ledger moves on by exactly one target. */
  lemma CorrectAccusationKeepsInv(s: RoomState, seekerId: Uid, a: nat)
    requires Inv(s) && Admissible(s, seekerId, a)
    ensures HasUid(s.players, seekerId)
    ensures Inv(AfterCorrect(s, seekerId, a))
  {
    var ps := s.players;
    assert HasUid(ps, seekerId);
    var k := RowOf(ps, seekerId);
    var pts := RolePoints(Target(s));
    var paid := RevealAndPay(ps, a, k, pts);
    RevealAndPayKeepsDeal(ps, a, k, pts);
    assert HasUid(paid, ps[a].uid) by {
      assert HasUid(ps, ps[a].uid);
    }
    assert FoundPoints(s.roleIndex + 1) == FoundPoints(s.roleIndex) + pts;
    var t := AfterCorrect(s, seekerId, a);
    if s.roleIndex + 1 >= RoleCount {
      assert t == s.(players := paid, status := Ended);
    } else {
      assert t == s.(players := paid, currentSeeker := Some(ps[a].uid), roleIndex := s.roleIndex + 1,
                     lastAccused := None);
    }
    assert Ledger(t);
    assert Seats(t.players) && WaitingFresh(t) && DealtOk(t);
  }

  /** A correct accusation reveals exactly the accused, pays exactly the seeker the target's
      points, and either advances the index by one or ends the game with the index kept. */
  lemma CorrectAccusationEffects(s: RoomState, seekerId: Uid, a: nat)
    requires Inv(s) && Admissible(s, seekerId, a) && HasUid(s.players, seekerId)
    ensures TotalPoints(AfterCorrect(s, seekerId, a).players) == TotalPoints(s.players) + RolePoints(Target(s))
    ensures RevealedCount(AfterCorrect(s, seekerId, a).players) == RevealedCount(s.players) + 1
    ensures Held(AfterCorrect(s, seekerId, a).players) == Held(s.players)
    ensures var ps, qs, k := s.players, AfterCorrect(s, seekerId, a).players, RowOf(s.players, seekerId);
      && |qs| == |ps| && qs[a].revealed
      && qs[k].points == ps[k].points + RolePoints(Target(s))
      && (forall i :: 0 <= i < |ps| && i != a && i != k ==> qs[i] == ps[i])
      && (forall i :: 0 <= i < |ps| && ps[i].revealed ==> qs[i].revealed)
    ensures var t := AfterCorrect(s, seekerId, a);
      || (s.roleIndex + 1 < RoleCount && t.status == Playing && t.roleIndex == s.roleIndex + 1
          && t.currentSeeker == Some(s.players[a].uid) && t.lastAccused.None?)
      || (s.roleIndex + 1 == RoleCount && t.status == Ended && t.roleIndex == s.roleIndex
          && t.currentSeeker == s.currentSeeker && t.lastAccused == s.lastAccused)
  {
    var ps := s.players;
    var k := RowOf(ps, seekerId);
    var pts := RolePoints(Target(s));
    RevealAndPaySeats(ps, a, k, pts);
    RevealAndPayCounts(ps, a, k, pts);
    assert AfterCorrect(s, seekerId, a).players == RevealAndPay(ps, a, k, pts);
  }

  /** Exchanging two roles changes no id, host flag, point or reveal flag, and moves
      exactly the two roles. */
  lemma SwapRolesRows(ps: seq<Player>, k: nat, a: nat)
    requires k < |ps| && a < |ps|
    ensures SameSeats(ps, SwapRoles(ps, k, a))
    ensures forall i :: 0 <= i < |ps| ==>
      SwapRoles(ps, k, a)[i].points == ps[i].points && SwapRoles(ps, k, a)[i].revealed == ps[i].revealed
    ensures Held(SwapRoles(ps, k, a)) == Held(ps)[k := ps[a].role][a := ps[k].role]
  {
  }

  /** Exchanging two roles keeps the total and the reveal count. */
  lemma SwapRolesCounts(ps: seq<Player>, k: nat, a: nat)
    requires k < |ps| && a < |ps|
    ensures TotalPoints(SwapRoles(ps, k, a)) == TotalPoints(ps)
    ensures RevealedCount(SwapRoles(ps, k, a)) == RevealedCount(ps)
  {
    RoleRowCounts(ps, k, ps[a].role);
    RoleRowCounts(ps[k := ps[k].(role := ps[a].role)], a, ps[k].role);
  }

  /** Exchanging two entries keeps the multiset and keeps entries pairwise distinct. */
  lemma ExchangeKeepsMultiset<T>(h: seq<T>, k: nat, a: nat)
    requires k < |h| && a < |h|
    ensures multiset(h[k := h[a]][a := h[k]]) == multiset(h)
    ensures NoDuplicates(h) ==> NoDuplicates(h[k := h[a]][a := h[k]])
  {
    var g := h[k := h[a]][a := h[k]];
    if NoDuplicates(h) {
      forall i, j | 0 <= i < j < |h| ensures g[i] != g[j] {
        var pi := if i == a then k else if i == k then a else i;
        var pj := if j == a then k else if j == k then a else j;
        assert g[i] == h[pi] && g[j] == h[pj];
      }
    }
  }

  /** Exchanging two roles of a full deal leaves a full deal. */
  lemma SwapRolesDealt(ps: seq<Player>, k: nat, a: nat)
    requires k < |ps| && a < |ps| && AllDealt(ps)
    ensures AllDealt(SwapRoles(ps, k, a))
  {
    var qs := SwapRoles(ps, k, a);
    var h := Held(ps);
    SwapRolesRows(ps, k, a);
    ExchangeKeepsMultiset(h, k, a);
    assert Held(qs) == h[k := h[a]][a := h[k]];
    assert forall i :: 0 <= i < |qs| ==> qs[i].role == Held(qs)[i];
  }

  /** A wrong accusation keeps the invariant: an exchange of two roles keeps them distinct and
      touches no points and no reveal flag. */
  lemma WrongAccusationKeepsInv(s: RoomState, seekerId: Uid, a: nat)
    requires Inv(s) && Admissible(s, seekerId, a)
    ensures HasUid(s.players, seekerId)
    ensures Inv(AfterWrong(s, seekerId, a))
  {
    var ps := s.players;
    assert HasUid(ps, seekerId);
    var k := RowOf(ps, seekerId);
    var swapped := SwapRoles(ps, k, a);
    SwapRolesRows(ps, k, a);
    SwapRolesCounts(ps, k, a);
    SwapRolesDealt(ps, k, a);
    SeatsKept(ps, swapped);
    var t := AfterWrong(s, seekerId, a);
    assert t == s.(players := swapped, lastAccused := Some(ps[a].uid), currentSeeker := Some(ps[a].uid));
    assert HasUid(swapped, ps[a].uid);
    assert Ledger(t);
    assert Seats(t.players) && WaitingFresh(t) && DealtOk(t);
  }

  /** A wrong accusation exchanges the seeker's and the accused's roles and changes nothing
      else in any row. */
  lemma WrongAccusationEffects(s: RoomState, seekerId: Uid, a: nat)
    requires Inv(s) && Admissible(s, seekerId, a) && HasUid(s.players, seekerId)
    ensures var ps, qs := s.players, AfterWrong(s, seekerId, a).players;
      && |qs| == |ps|
      && (forall i :: 0 <= i < |ps| ==> qs[i].points == ps[i].points && qs[i].revealed == ps[i].revealed)
      && (forall i :: 0 <= i < |ps| && ps[i].uid == seekerId ==> qs[i].role == ps[a].role)
      && qs[a].role == (if ps[a].uid == seekerId then ps[a].role else ps[RowOf(ps, seekerId)].role)
      && (forall i :: 0 <= i < |ps| && i != a && ps[i].uid != seekerId ==> qs[i] == ps[i])
    ensures var t := AfterWrong(s, seekerId, a);
      && t.status == s.status && t.roleIndex == s.roleIndex
      && t.lastAccused == Some(s.players[a].uid) && t.currentSeeker == Some(s.players[a].uid)
  {
    var ps := s.players;
    var k := RowOf(ps, seekerId);
    var qs := SwapRoles(ps, k, a);
    assert AfterWrong(s, seekerId, a).players == qs;
    SwapRolesRows(ps, k, a);
    assert forall i :: 0 <= i < |ps| && ps[i].uid == seekerId ==> i == k by {
      assert UidsDistinct(ps);
    }
  }

  /** A wrong accusation keeps the multiset of roles held, the total and the reveal count. */
  lemma WrongAccusationCounts(s: RoomState, seekerId: Uid, a: nat)
    requires Admissible(s, seekerId, a) && HasUid(s.players, seekerId)
    ensures multiset(Held(AfterWrong(s, seekerId, a).players)) == multiset(Held(s.players))
    ensures TotalPoints(AfterWrong(s, seekerId, a).players) == TotalPoints(s.players)
    ensures RevealedCount(AfterWrong(s, seekerId, a).players) == RevealedCount(s.players)
  {
    var ps := s.players;
    var k := RowOf(ps, seekerId);
    SwapRolesRows(ps, k, a);
    SwapRolesCounts(ps, k, a);
    ExchangeKeepsMultiset(Held(ps), k, a);
    assert AfterWrong(s, seekerId, a).players == SwapRoles(ps, k, a);
  }

  // ----- resetGame -----

  /** A row as `UPDATE players SET role = ?, points = 0, has_revealed = 0` leaves it. */
  function ResetRow(p: Player, r: Role): Player
  {
    p.(role := Some(r), points := 0, revealed := false)
  }

  /** The rows after `resetGame`: the row at position q of uid order gets `shuffled[q]`. */
  function ResetRows(ps: seq<Player>, shuffled: seq<Role>): (qs: seq<Player>)
    requires |ps| <= |shuffled|
    ensures |qs| == |ps|
  {
    var order := UidOrder(ps);
    UidOrderSorted(ps);
    seq(|ps|, i requires 0 <= i < |ps| => ResetRow(ps[i], shuffled[IndexOf(order, i)]))
  }

  /** The room after `resetGame`: new roles, no points, nothing revealed, the first player
      in uid order seeks for the target at index 1. */
  function Reset(s: RoomState, shuffled: seq<Role>): RoomState
    requires 0 < |s.players| <= |shuffled|
  {
    s.(players := ResetRows(s.players, shuffled),
       status := Playing,
       currentSeeker := Some(s.players[UidOrder(s.players)[0]].uid),
       roleIndex := 1,
       lastAccused := None)
  }

  /** After a reset the player with the least uid seeks, whoever holds 'GF'. */
  lemma ResetSeekerIsLeast(s: RoomState, shuffled: seq<Role>)
    requires 0 < |s.players| <= |shuffled|
    ensures Reset(s, shuffled).currentSeeker.Some?
    ensures HasUid(s.players, Reset(s, shuffled).currentSeeker.value)
    ensures forall i :: 0 <= i < |s.players| ==> Reset(s, shuffled).currentSeeker.value <= s.players[i].uid
  {
    var first := UidOrder(s.players)[0];
    UidOrderFirstIsLeast(s.players);
    assert s.players[first].uid == Reset(s, shuffled).currentSeeker.value;
  }

  /** In uid order, position q holds the row `order[q]` and no other. */
  lemma ResetRowsAt(ps: seq<Player>, shuffled: seq<Role>, q: nat)
    requires |ps| <= |shuffled| && q < |ps|
    ensures UidOrder(ps)[q] < |ps|
    ensures ResetRows(ps, shuffled)[UidOrder(ps)[q]] == ResetRow(ps[UidOrder(ps)[q]], shuffled[q])
  {
    var order := UidOrder(ps);
    UidOrderSorted(ps);
    IndexOfNoDuplicates(order, q);
  }

  /** The rows after the first q updates of `resetGame`, one row at a time in `order`. */
  function ResetInOrder(ps: seq<Player>, order: seq<nat>, shuffled: seq<Role>, q: nat): (qs: seq<Player>)
    requires q <= |order| <= |shuffled|
    requires forall p :: 0 <= p < |order| ==> order[p] < |ps|
    ensures |qs| == |ps|
  {
    if q == 0 then ps
    else
      var prev := ResetInOrder(ps, order, shuffled, q - 1);
      prev[order[q - 1] := ResetRow(prev[order[q - 1]], shuffled[q - 1])]
  }

  /** After q updates along an order without repeats, the first q rows of the order are
      reset and the others untouched. */
  lemma {:induction false} ResetInOrderRows(ps: seq<Player>, order: seq<nat>, shuffled: seq<Role>, q: nat)
    requires q <= |order| <= |shuffled| && NoDuplicates(order)
    requires forall p :: 0 <= p < |order| ==> order[p] < |ps|
    ensures forall p :: 0 <= p < q ==>
      ResetInOrder(ps, order, shuffled, q)[order[p]] == ResetRow(ps[order[p]], shuffled[p])
    ensures forall p :: q <= p < |order| ==> ResetInOrder(ps, order, shuffled, q)[order[p]] == ps[order[p]]
  {
    if q > 0 {
      ResetInOrderRows(ps, order, shuffled, q - 1);
      assert forall p :: 0 <= p < |order| && p != q - 1 ==> order[p] != order[q - 1];
    }
  }

  /** All the updates of `resetGame`, along uid order, leave the reset rows. */
  lemma ResetInOrderIsResetRows(ps: seq<Player>, shuffled: seq<Role>)
    requires |ps| <= |shuffled|
    ensures ResetInOrder(ps, UidOrder(ps), shuffled, |ps|) == ResetRows(ps, shuffled)
  {
    var order := UidOrder(ps);
    var qs := ResetInOrder(ps, order, shuffled, |ps|);
    UidOrderSorted(ps);
    ResetInOrderRows(ps, order, shuffled, |ps|);
    forall i | 0 <= i < |ps| ensures qs[i] == ResetRows(ps, shuffled)[i] {
      var p := IndexOf(order, i);
      ResetRowsAt(ps, shuffled, p);
    }
  }

  /** Resetting keeps ids and host flags, and leaves every row dealt, unpaid and hidden. */
  lemma ResetRowsFresh(ps: seq<Player>, shuffled: seq<Role>)
    requires |ps| <= |shuffled|
    ensures SameSeats(ps, ResetRows(ps, shuffled))
    ensures forall i :: 0 <= i < |ps| ==>
      && ResetRows(ps, shuffled)[i].role.Some?
      && ResetRows(ps, shuffled)[i].points == 0
      && !ResetRows(ps, shuffled)[i].revealed
  {
  }

  /** Distinct positions in uid order receive distinct entries of a list without repeats. */
  lemma ResetRowsDistinct(ps: seq<Player>, shuffled: seq<Role>)
    requires |ps| <= |shuffled| && NoDuplicates(shuffled)
    ensures NoDuplicates(Held(ResetRows(ps, shuffled)))
  {
    var qs := ResetRows(ps, shuffled);
    var order := UidOrder(ps);
    UidOrderSorted(ps);
    forall i, j | 0 <= i < j < |qs| ensures Held(qs)[i] != Held(qs)[j] {
      assert i in order && j in order;
      var pi, pj := IndexOf(order, i), IndexOf(order, j);
      assert pi != pj;
      assert Held(qs)[i] == Some(shuffled[pi]) && Held(qs)[j] == Some(shuffled[pj]);
    }
  }

  /** A freshly dealt room: seats intact, distinct roles, nobody paid or revealed, a
      seeker in the room, the search at index 1. */
  ghost predicate FreshDeal(t: RoomState)
  {
    && Seats(t.players)
    && t.status == Playing && t.roleIndex == 1
    && (forall i :: 0 <= i < |t.players| ==>
          t.players[i].role.Some? && t.players[i].points == 0 && !t.players[i].revealed)
    && NoDuplicates(Held(t.players))
    && t.currentSeeker.Some? && HasUid(t.players, t.currentSeeker.value)
  }

  lemma FreshDealInv(t: RoomState)
    requires FreshDeal(t)
    ensures Inv(t) && TotalPoints(t.players) == 0 && RevealedCount(t.players) == 0
  {
    TotalPointsZero(t.players);
    RevealedCountZero(t.players);
  }

  /** Reset from any status with the roles of a permutation of the role list keeps the
      invariant, and starts from zero points and no reveals. */
  lemma ResetKeepsInv(s: RoomState, shuffled: seq<Role>)
    requires Inv(s) && |s.players| >= 2
    requires |shuffled| == RoleCount && multiset(shuffled) == multiset(Roles)
    ensures Inv(Reset(s, shuffled))
    ensures TotalPoints(Reset(s, shuffled).players) == 0
    ensures RevealedCount(Reset(s, shuffled).players) == 0
  {
    var ps := s.players;
    var t := Reset(s, shuffled);
    var qs := t.players;
    var order := UidOrder(ps);
    ResetRowsFresh(ps, shuffled);
    assert Seats(qs) && HasUid(qs, ps[order[0]].uid) by {
      SeatsKept(ps, qs);
      assert HasUid(ps, ps[order[0]].uid);
    }
    RoleDealIsDistinct(shuffled);
    ResetRowsDistinct(ps, shuffled);
    FreshDealInv(t);
  }

  // ----- whole games -----

  /** Once ended, the points handed out over the game add up to 10 + 8 + 6 + 4 + 2. */
  lemma EndedGameScoresThirty(s: RoomState)
    requires Inv(s) && s.status == Ended
    ensures TotalPoints(s.players) == 30
  {
    AllTargetsFound();
  }

  /** With six players, distinct dealt roles are exactly the role list: every role is held. */
  lemma SixPlayersHoldEveryRole(s: RoomState, r: Role)
    requires Inv(s) && s.status != Waiting && |s.players| == RoleCount
    ensures exists i :: 0 <= i < RoleCount && s.players[i].role == Some(r)
  {
    var ps := s.players;
    if forall i :: 0 <= i < RoleCount ==> ps[i].role != Some(r) {
      var rs := seq(RoleCount, i requires 0 <= i < RoleCount => ps[i].role.value);
      assert NoDuplicates(rs) by {
        forall i, j | 0 <= i < j < RoleCount ensures rs[i] != rs[j] {
          assert Held(ps)[i] != Held(ps)[j];
        }
      }
      var held := set x | x in rs;
      var others := AllRoles() - {r};
      assert held <= others;
      DistinctCard(rs);
      SubsetCard(held, others);
      assert false;
    }
  }

  /** The six roles as a set. */
  function AllRoles(): (all: set<Role>)
    ensures |all| == RoleCount
    ensures forall r: Role :: r in all
  {
    var all := {GF, Fling, SideChick, Ex, ExsEx, Lover};
    assert |all| == 6 by {
      var two := {GF} + {Fling};
      var three := two + {SideChick};
      var four := three + {Ex};
      var five := four + {ExsEx};
      assert |two| == 2 && |three| == 3 && |four| == 4 && |five| == 5 && |five + {Lover}| == 6;
      assert all == five + {Lover};
    }
    assert forall r: Role :: r in all by {
      forall r: Role ensures r in all {
        RoleListed(r);
      }
    }
    all
  }
  lemma RoleListed(r: Role)
    ensures r in {GF, Fling, SideChick, Ex, ExsEx, Lover}
  {
    if r.GF? {} else if r.Fling? {} else if r.SideChick? {} else if r.Ex? {} else if r.ExsEx? {} else {}
  }
}
