/** Player rows of one room and the derived quantities the invariants speak about. */
module Players {
  import opened Outcomes
  import opened RoleTable
  import opened Sequences

  /** Player ids are opaque; `ORDER BY uid` gives them a total order, modelled by `nat`. */
  type Uid = nat

  /** One row of the players table. */
  datatype Player = Player(uid: Uid, name: string, role: Option<Role>, points: nat, revealed: bool, isHost: bool)

  /** A row as `INSERT INTO players (room_id, uid, name)` creates it (column defaults). */
  function NewPlayer(uid: Uid, name: string, isHost: bool): (p: Player)
    ensures p.uid == uid && p.name == name && p.isHost == isHost
    ensures p.role.None? && p.points == 0 && !p.revealed
  {
    Player(uid, name, None, 0, false, isHost)
  }

  predicate UidsDistinct(ps: seq<Player>)
  {
    forall i, j :: 0 <= i < j < |ps| ==> ps[i].uid != ps[j].uid
  }

  predicate HasUid(ps: seq<Player>, uid: Uid)
  {
    exists i :: 0 <= i < |ps| && ps[i].uid == uid
  }

  /** Two row lists with the same ids and host flags in the same places. */
  predicate SameSeats(ps: seq<Player>, qs: seq<Player>)
  {
    |qs| == |ps| && forall i :: 0 <= i < |ps| ==> qs[i].uid == ps[i].uid && qs[i].isHost == ps[i].isHost
  }

  lemma SameSeatsKeepIds(ps: seq<Player>, qs: seq<Player>)
    requires SameSeats(ps, qs)
    ensures UidsDistinct(ps) ==> UidsDistinct(qs)
    ensures forall uid :: HasUid(ps, uid) ==> HasUid(qs, uid)
  {
    forall uid | HasUid(ps, uid) ensures HasUid(qs, uid) {
      var i :| 0 <= i < |ps| && ps[i].uid == uid;
      assert qs[i].uid == uid;
    }
  }

  /** The roles held, row by row. */
  function Held(ps: seq<Player>): (h: seq<Option<Role>>)
    ensures |h| == |ps|
    ensures forall i :: 0 <= i < |ps| ==> h[i] == ps[i].role
  {
    seq(|ps|, i requires 0 <= i < |ps| => ps[i].role)
  }

  /** A list of roles as the values stored in rows. */
  function Dealt(rs: seq<Role>): (d: seq<Option<Role>>)
    ensures |d| == |rs|
    ensures forall i :: 0 <= i < |rs| ==> d[i] == Some(rs[i])
  {
    seq(|rs|, i requires 0 <= i < |rs| => Some(rs[i]))
  }

  /** The sum of all players' points. */
  function TotalPoints(ps: seq<Player>): nat
  {
    if ps == [] then 0 else TotalPoints(ps[..|ps| - 1]) + ps[|ps| - 1].points
  }

  /** The number of players whose role has been revealed. */
  function RevealedCount(ps: seq<Player>): nat
  {
    if ps == [] then 0 else RevealedCount(ps[..|ps| - 1]) + (if ps[|ps| - 1].revealed then 1 else 0)
  }

  /** Replacing one row changes the total by the difference of that row's points. */
  lemma {:induction false} TotalPointsUpdate(ps: seq<Player>, i: nat, p: Player)
    requires i < |ps|
    ensures TotalPoints(ps[i := p]) + ps[i].points == TotalPoints(ps) + p.points
    decreases |ps|
  {
    var n := |ps| - 1;
    var qs := ps[i := p];
    assert qs[..n] == if i == n then ps[..n] else ps[..n][i := p];
    if i < n {
      TotalPointsUpdate(ps[..n], i, p);
    }
  }

  /** Replacing one row changes the count by that row's change of reveal flag. */
  lemma {:induction false} RevealedCountUpdate(ps: seq<Player>, i: nat, p: Player)
    requires i < |ps|
    ensures RevealedCount(ps[i := p]) + (if ps[i].revealed then 1 else 0)
            == RevealedCount(ps) + (if p.revealed then 1 else 0)
    decreases |ps|
  {
    var n := |ps| - 1;
    var qs := ps[i := p];
    assert qs[..n] == if i == n then ps[..n] else ps[..n][i := p];
    if i < n {
      RevealedCountUpdate(ps[..n], i, p);
    }
  }

  /** Revealing one hidden row adds one to the reveal count and keeps the total. */
  lemma RevealRowCounts(ps: seq<Player>, a: nat)
    requires a < |ps| && !ps[a].revealed
    ensures TotalPoints(ps[a := ps[a].(revealed := true)]) == TotalPoints(ps)
    ensures RevealedCount(ps[a := ps[a].(revealed := true)]) == RevealedCount(ps) + 1
  {
    TotalPointsUpdate(ps, a, ps[a].(revealed := true));
    RevealedCountUpdate(ps, a, ps[a].(revealed := true));
  }

  /** Paying one row adds the payment to the total and keeps the reveal count. */
  lemma PayRowCounts(ps: seq<Player>, k: nat, pts: nat)
    requires k < |ps|
    ensures TotalPoints(ps[k := ps[k].(points := ps[k].points + pts)]) == TotalPoints(ps) + pts
    ensures RevealedCount(ps[k := ps[k].(points := ps[k].points + pts)]) == RevealedCount(ps)
  {
    TotalPointsUpdate(ps, k, ps[k].(points := ps[k].points + pts));
    RevealedCountUpdate(ps, k, ps[k].(points := ps[k].points + pts));
  }

  /** Changing the role of one row keeps the total and the reveal count. */
  lemma RoleRowCounts(ps: seq<Player>, k: nat, r: Option<Role>)
    requires k < |ps|
    ensures TotalPoints(ps[k := ps[k].(role := r)]) == TotalPoints(ps)
    ensures RevealedCount(ps[k := ps[k].(role := r)]) == RevealedCount(ps)
  {
    TotalPointsUpdate(ps, k, ps[k].(role := r));
    RevealedCountUpdate(ps, k, ps[k].(role := r));
  }

  /** No points at all when every row has zero points. */
  lemma {:induction false} TotalPointsZero(ps: seq<Player>)
    requires forall i :: 0 <= i < |ps| ==> ps[i].points == 0
    ensures TotalPoints(ps) == 0
  {
    if ps != [] {
      TotalPointsZero(ps[..|ps| - 1]);
    }
  }

  /** Nobody is revealed when no row has the flag. */
  lemma {:induction false} RevealedCountZero(ps: seq<Player>)
    requires forall i :: 0 <= i < |ps| ==> !ps[i].revealed
    ensures RevealedCount(ps) == 0
  {
    if ps != [] {
      RevealedCountZero(ps[..|ps| - 1]);
    }
  }

  /** `SELECT * FROM players WHERE uid = ?`: the first row with that uid, if any. */
  function FindPlayer(ps: seq<Player>, uid: Uid): (r: Option<nat>)
    ensures r.None? <==> !HasUid(ps, uid)
    ensures r.Some? ==> r.value < |ps| && ps[r.value].uid == uid
    ensures r.Some? ==> forall i :: 0 <= i < r.value ==> ps[i].uid != uid
  {
    if ps == [] then None
    else if ps[0].uid == uid then Some(0)
    else match FindPlayer(ps[1..], uid)
      case None => None
      case Some(k) => Some(k + 1)
  }

  /** The row of `uid`, which the caller knows is in the room. */
  function RowOf(ps: seq<Player>, uid: Uid): (k: nat)
    requires HasUid(ps, uid)
    ensures k < |ps| && ps[k].uid == uid
  {
    FindPlayer(ps, uid).value
  }

  /** The lookup by uid reads ids only, so rows with the same seats answer it alike. */
  lemma {:induction false} FindPlayerSameSeats(ps: seq<Player>, qs: seq<Player>, uid: Uid)
    requires SameSeats(ps, qs)
    ensures FindPlayer(qs, uid) == FindPlayer(ps, uid)
  {
    if ps != [] && ps[0].uid != uid {
      FindPlayerSameSeats(ps[1..], qs[1..], uid);
    }
  }

  // ----- `ORDER BY uid` -----

  predicate SortedByUid(ps: seq<Player>, order: seq<nat>)
    requires forall p :: 0 <= p < |order| ==> order[p] < |ps|
  {
    forall p, q :: 0 <= p < q < |order| ==> ps[order[p]].uid <= ps[order[q]].uid
  }

  /** Insert row index i into an index list sorted by uid. */
  function InsertByUid(ps: seq<Player>, order: seq<nat>, i: nat): (r: seq<nat>)
    requires i < |ps|
    requires forall p :: 0 <= p < |order| ==> order[p] < |ps|
    ensures |r| == |order| + 1
    ensures forall x :: x in r <==> x == i || x in order
    ensures forall p :: 0 <= p < |r| ==> r[p] < |ps|
    decreases |order|
  {
    if order == [] then [i]
    else if ps[i].uid <= ps[order[0]].uid then [i] + order
    else [order[0]] + InsertByUid(ps, order[1..], i)
  }

  lemma {:induction false} InsertKeepsDistinct(ps: seq<Player>, order: seq<nat>, i: nat)
    requires i < |ps|
    requires forall p :: 0 <= p < |order| ==> order[p] < |ps|
    requires NoDuplicates(order) && i !in order
    ensures NoDuplicates(InsertByUid(ps, order, i))
    decreases |order|
  {
    if order != [] && ps[i].uid > ps[order[0]].uid {
      assert forall x :: x in order[1..] ==> x in order;
      InsertKeepsDistinct(ps, order[1..], i);
      assert order[0] !in order[1..];
    }
  }

  lemma {:induction false} InsertKeepsSorted(ps: seq<Player>, order: seq<nat>, i: nat)
    requires i < |ps|
    requires forall p :: 0 <= p < |order| ==> order[p] < |ps|
    requires SortedByUid(ps, order)
    ensures SortedByUid(ps, InsertByUid(ps, order, i))
    decreases |order|
  {
    if order == [] {
    } else if ps[i].uid <= ps[order[0]].uid {
      forall q | 0 <= q < |order| ensures ps[i].uid <= ps[order[q]].uid {
        if q > 0 {
          assert ps[order[0]].uid <= ps[order[q]].uid;
        }
      }
    } else {
      var head, tail := order[0], order[1..];
      InsertKeepsSorted(ps, tail, i);
      var rest := InsertByUid(ps, tail, i);
      forall q | 0 <= q < |rest| ensures ps[head].uid <= ps[rest[q]].uid {
        if rest[q] != i {
          assert rest[q] in tail;
          var p :| 0 <= p < |tail| && tail[p] == rest[q];
          assert order[p + 1] == rest[q];
        }
      }
      assert InsertByUid(ps, order, i) == [head] + rest;
    }
  }

  /** The indices of rows 0 .. k-1, by insertion in uid order. */
  function SortByUid(ps: seq<Player>, k: nat): (r: seq<nat>)
    requires k <= |ps|
    ensures |r| == k
    ensures forall p :: 0 <= p < |r| ==> r[p] < |ps|
  {
    if k == 0 then [] else InsertByUid(ps, SortByUid(ps, k - 1), k - 1)
  }

  /** Sorting rows 0 .. k-1 lists each of them once, in uid order. */
  lemma {:induction false} SortByUidSorted(ps: seq<Player>, k: nat)
    requires k <= |ps|
    ensures forall x: nat :: x in SortByUid(ps, k) <==> x < k
    ensures NoDuplicates(SortByUid(ps, k))
    ensures SortedByUid(ps, SortByUid(ps, k))
  {
    if k > 0 {
      var prefix := SortByUid(ps, k - 1);
      SortByUidSorted(ps, k - 1);
      InsertKeepsDistinct(ps, prefix, k - 1);
      InsertKeepsSorted(ps, prefix, k - 1);
    }
  }

  /** The row order of `SELECT uid FROM players ... ORDER BY uid`. */
  function UidOrder(ps: seq<Player>): (order: seq<nat>)
    ensures |order| == |ps|
    ensures forall p :: 0 <= p < |order| ==> order[p] < |ps|
  {
    SortByUid(ps, |ps|)
  }

  /** Uid order lists every row exactly once, by non-decreasing uid. */
  lemma UidOrderSorted(ps: seq<Player>)
    ensures forall i :: 0 <= i < |ps| ==> i in UidOrder(ps)
    ensures NoDuplicates(UidOrder(ps))
    ensures SortedByUid(ps, UidOrder(ps))
  {
    SortByUidSorted(ps, |ps|);
  }

  /** The first row in uid order carries the smallest uid. */
  lemma UidOrderFirstIsLeast(ps: seq<Player>)
    requires ps != []
    ensures forall i :: 0 <= i < |ps| ==> ps[UidOrder(ps)[0]].uid <= ps[i].uid
  {
    var order := UidOrder(ps);
    UidOrderSorted(ps);
    forall i | 0 <= i < |ps| ensures ps[order[0]].uid <= ps[i].uid {
      assert i in order;
      var q :| 0 <= q < |order| && order[q] == i;
      if q > 0 {
        assert ps[order[0]].uid <= ps[order[q]].uid;
      }
    }
  }
}
