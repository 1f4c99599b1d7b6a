/** The penalty pool: choosing a dare among the least-used classroom-safe ones. */
module Dares {
  import opened Outcomes
  import opened Sequences
  import opened Shuffle

  /** One row of the dares table. */
  datatype Dare = Dare(id: nat, text: string, classroomSafe: bool, usedCount: nat)

  /** What a draw hands back: the dare's id and text. */
  datatype DareCard = DareCard(id: nat, text: string)

  /** `LIMIT 5` of the candidate query. */
  const CandidateLimit: nat := 5

  predicate Eligible(ds: seq<Dare>, k: int)
  {
    0 <= k < |ds| && ds[k].classroomSafe
  }

  predicate HasEligible(ds: seq<Dare>)
  {
    exists k :: 0 <= k < |ds| && Eligible(ds, k)
  }

  predicate IdsDistinct(ds: seq<Dare>)
  {
    forall i, j :: 0 <= i < j < |ds| ==> ds[i].id != ds[j].id
  }

  /** The safe dares used strictly fewer times than `u`. */
  ghost function LessUsed(ds: seq<Dare>, u: nat): set<nat>
  {
    set k: nat | k < |ds| && ds[k].classroomSafe && ds[k].usedCount < u
  }

  /** Dare k can be among the five least-used safe dares, however ties are ordered:
      it is safe and fewer than five safe dares are used less. */
  ghost predicate AmongLeastUsed(ds: seq<Dare>, k: int)
  {
    Eligible(ds, k) && |LessUsed(ds, ds[k].usedCount)| < CandidateLimit
  }

  /** `cands` is a prefix of the safe dares in ascending order of use:
      distinct safe dares, sorted by count, none of them used more than any safe dare left out. */
  ghost predicate LeastUsedPrefix(ds: seq<Dare>, cands: seq<nat>)
  {
    && (forall p :: 0 <= p < |cands| ==> Eligible(ds, cands[p]))
    && (forall p, q :: 0 <= p < q < |cands| ==> cands[p] != cands[q])
    && (forall p, q :: 0 <= p < q < |cands| ==> ds[cands[p]].usedCount <= ds[cands[q]].usedCount)
    && (forall k, p :: Eligible(ds, k) && k !in cands && 0 <= p < |cands| ==>
          ds[cands[p]].usedCount <= ds[k].usedCount)
  }

  /** The least-used safe dare not yet in `chosen` (the lowest such row on a tie), if any. */
  method MinUnchosen(ds: seq<Dare>, chosen: seq<nat>) returns (best: Option<nat>)
    ensures best.None? <==> forall k :: Eligible(ds, k) ==> k in chosen
    ensures best.Some? ==> Eligible(ds, best.value) && best.value !in chosen
    ensures best.Some? ==> forall k :: Eligible(ds, k) && k !in chosen ==>
              ds[best.value].usedCount <= ds[k].usedCount
  {
    best := None;
    var k := 0;
    while k < |ds|
      invariant 0 <= k <= |ds|
      invariant best.None? <==> forall i :: 0 <= i < k && Eligible(ds, i) ==> i in chosen
      invariant best.Some? ==> best.value < k && Eligible(ds, best.value) && best.value !in chosen
      invariant best.Some? ==> forall i :: 0 <= i < k && Eligible(ds, i) && i !in chosen ==>
                  ds[best.value].usedCount <= ds[i].usedCount
    {
      if ds[k].classroomSafe && k !in chosen {
        if best.None? || ds[k].usedCount < ds[best.value].usedCount {
          best := Some(k);
        }
      }
      k := k + 1;
    }
  }

  /** The candidate query `WHERE classroom_safe = 1 ORDER BY used_count ASC LIMIT 5`. */
  method LeastUsedSafe(ds: seq<Dare>) returns (cands: seq<nat>)
    ensures LeastUsedPrefix(ds, cands)
    ensures |cands| <= CandidateLimit
    ensures |cands| < CandidateLimit ==> forall k :: Eligible(ds, k) ==> k in cands
    ensures cands == [] <==> !HasEligible(ds)
  {
    cands := [];
    while |cands| < CandidateLimit
      invariant |cands| <= CandidateLimit
      invariant LeastUsedPrefix(ds, cands)
      decreases CandidateLimit - |cands|
    {
      var best := MinUnchosen(ds, cands);
      if best.None? {
        break;
      }
      cands := cands + [best.value];
    }
    if cands != [] {
      assert Eligible(ds, cands[0]);
    }
  }

  function Elements(s: seq<nat>): set<nat>
  {
    set x | x in s
  }

  lemma {:induction false} ElementsCard(s: seq<nat>)
    ensures |Elements(s)| <= |s|
  {
    if s != [] {
      var t := s[..|s| - 1];
      var last := s[|s| - 1];
      ElementsCard(t);
      assert Elements(s) == Elements(t) + {last} by {
        assert s == t + [last];
      }
      if last in Elements(t) {
        assert Elements(s) == Elements(t);
      } else {
        assert |Elements(s)| == |Elements(t)| + 1;
      }
    }
  }

  /** Every member of the candidate list is among the five least-used safe dares. */
  lemma CandidateIsAmongLeastUsed(ds: seq<Dare>, cands: seq<nat>, c: nat)
    requires LeastUsedPrefix(ds, cands) && |cands| <= CandidateLimit
    requires c in cands
    ensures AmongLeastUsed(ds, c)
  {
    var below := LessUsed(ds, ds[c].usedCount);
    var all := Elements(cands);
    var others := all - {c};
    assert below <= others;
    ElementsCard(cands);
    assert |others| == |all| - 1;
    SubsetCard(below, others);
  }

  /** A draw: dare k of `before` was chosen, handed out as `card`, and only its count went up, by one. */
  ghost predicate Drawn(before: seq<Dare>, after: seq<Dare>, k: int, card: DareCard)
  {
    && AmongLeastUsed(before, k)
    && card == DareCard(before[k].id, before[k].text)
    && after == before[k := before[k].(usedCount := before[k].usedCount + 1)]
  }

  /** The dares table. */
  class DarePool {
    var dares: array<Dare>

    /** `id` is the table's primary key. */
    ghost predicate Valid()
      reads this, dares
    {
      IdsDistinct(dares[..])
    }

    constructor (rows: seq<Dare>)
      requires IdsDistinct(rows)
      ensures Valid() && dares[..] == rows && fresh(dares)
    {
      dares := new Dare[|rows|](k requires 0 <= k < |rows| => rows[k]);
      new;
      assert dares[..] == rows by {
        forall k | 0 <= k < |rows| ensures dares[k] == rows[k] { }
      }
    }

    /** `getRandomDare`: pick one of the five least-used safe dares with the draw `rand`
        and add one to its use count; fail when no safe dare exists. */
    method GetRandomDare(rand: real) returns (r: Result<DareCard>)
      requires Valid() && IsRandom(rand)
      modifies dares
      ensures Valid()
      ensures r.Err? <==> !HasEligible(old(dares[..]))
      ensures r.Err? ==> r.error == NoDares && dares[..] == old(dares[..])
      ensures r.Ok? ==> exists k :: Drawn(old(dares[..]), dares[..], k, r.value)
    {
      var cands := LeastUsedSafe(dares[..]);
      if cands == [] {
        return Err(NoDares);
      }
      var k := cands[RandomBelow(rand, |cands|)];
      CandidateIsAmongLeastUsed(dares[..], cands, k);
      ghost var before := dares[..];
      var picked := dares[k];
      dares[k] := picked.(usedCount := picked.usedCount + 1);
      r := Ok(DareCard(picked.id, picked.text));
      assert dares[..] == before[k := before[k].(usedCount := before[k].usedCount + 1)];
      assert Drawn(before, dares[..], k, r.value);
    }
  }
}
