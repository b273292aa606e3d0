/**
 The draw-and-fill scheme shared by `createPopulation` and
 `affectWorkplaces`: the candidate buildings are numbered, a building is
 drawn at random among the indices still available, it is filled to its
 capacity, its index is removed, and the next is drawn. Drawing from an
 exhausted index list throws. A draw is modelled as a nondeterministic choice
 among the available indices, which is exactly what a uniform index into the
 remaining list can return.
 */
module Assignment {
  import opened Basics
  import opened Buildings

  /** Why an assignment stopped: the index draw of an exhausted candidate list throws. */
  datatype AssignError = ExceededCapacity

  /** Which occupant list a scheme fills: the inhabitants or the workers. */
  datatype Side = Residents | Staff

  function Members(b: Building, side: Side): seq<AgentId> {
    match side
    case Residents => b.inhabitants
    case Staff => b.workers
  }

  function Other(side: Side): (r: Side)
    ensures r != side
  {
    match side
    case Residents => Staff
    case Staff => Residents
  }

  /** The indices below `n`: the list `Enumerable.Range(0, n)` as a set. */
  function Indices(n: nat): (s: set<nat>)
    ensures forall k: int :: k in s <==> 0 <= k < n
  {
    if n == 0 then {} else Indices(n - 1) + {n - 1}
  }

  /** The capacities of the listed buildings. */
  function Capacities(bs: map<BuildingId, Building>, ids: seq<BuildingId>): (caps: seq<nat>)
    requires forall k :: 0 <= k < |ids| ==> ids[k] in bs
    ensures |caps| == |ids| && forall k :: 0 <= k < |ids| ==> caps[k] == bs[ids[k]].capacity
  {
    seq(|ids|, k requires 0 <= k < |ids| => bs[ids[k]].capacity)
  }

  function Sum(s: seq<nat>): nat {
    if |s| == 0 then 0 else Sum(s[..|s| - 1]) + s[|s| - 1]
  }

  /** The sum of the entries whose index is no longer available: the capacity used up so far. */
  function UsedSum(s: seq<nat>, avail: set<nat>): nat {
    if |s| == 0 then 0
    else UsedSum(s[..|s| - 1], avail) + (if |s| - 1 in avail then 0 else s[|s| - 1])
  }

  lemma {:induction false} UsedSumAll(s: seq<nat>, avail: set<nat>)
    requires forall k :: 0 <= k < |s| ==> k in avail
    ensures UsedSum(s, avail) == 0
  {
    if |s| > 0 {
      UsedSumAll(s[..|s| - 1], avail);
    }
  }

  lemma {:induction false} UsedSumNone(s: seq<nat>)
    ensures UsedSum(s, {}) == Sum(s)
  {
    if |s| > 0 {
      UsedSumNone(s[..|s| - 1]);
    }
  }

  /** Using up one more index adds its entry to the used sum. */
  lemma {:induction false} UsedSumTake(s: seq<nat>, avail: set<nat>, k: nat)
    requires k in avail && k < |s|
    ensures UsedSum(s, avail - {k}) == UsedSum(s, avail) + s[k]
  {
    if k < |s| - 1 {
      UsedSumTake(s[..|s| - 1], avail, k);
    } else {
      UsedSumSame(s[..|s| - 1], avail, avail - {k});
    }
  }

  lemma {:induction false} UsedSumSame(s: seq<nat>, a1: set<nat>, a2: set<nat>)
    requires forall k :: 0 <= k < |s| ==> (k in a1 <==> k in a2)
    ensures UsedSum(s, a1) == UsedSum(s, a2)
  {
    if |s| > 0 {
      UsedSumSame(s[..|s| - 1], a1, a2);
    }
  }

  lemma {:induction false} UsedSumBound(s: seq<nat>, avail: set<nat>)
    ensures UsedSum(s, avail) <= Sum(s)
  {
    if |s| > 0 {
      UsedSumBound(s[..|s| - 1], avail);
    }
  }

  /** Candidates as the scheme expects them: distinct, present, empty, each with room for one. */
  ghost predicate Fresh(bs: map<BuildingId, Building>, ids: seq<BuildingId>) {
    && Distinct(ids)
    && forall k :: 0 <= k < |ids| ==>
      && ids[k] in bs
      && IsEmpty(bs[ids[k]])
      && bs[ids[k]].capacity >= 1
  }

  /**
   The state of the scheme over the candidates `ids` of `bs`, now `now`:
   `idx` is the drawn index, whose building holds `count` members; the
   indices no longer available are full; the available ones other than
   `idx` are untouched; the other occupant list stays empty everywhere.
   */
  ghost predicate Filling(bs: map<BuildingId, Building>, ids: seq<BuildingId>, side: Side, caps: seq<nat>,
                          now: map<BuildingId, Building>, avail: set<nat>, idx: nat, count: nat) {
    && |caps| == |ids| && idx in avail
    && (forall k :: k in avail ==> 0 <= k < |ids|)
    && (forall k :: 0 <= k < |ids| ==>
          && ids[k] in bs && ids[k] in now
          && now[ids[k]].capacity == caps[k] == bs[ids[k]].capacity
          && |Members(now[ids[k]], Other(side))| == 0)
    && (forall k :: 0 <= k < |ids| && k !in avail ==> |Members(now[ids[k]], side)| == caps[k])
    && (forall k :: k in avail && k != idx ==> now[ids[k]] == bs[ids[k]])
    && |Members(now[ids[idx]], side)| == count <= caps[idx]
  }

  /** Before the first assignment: every index available, the first drawn building empty. */
  lemma FillingStart(bs: map<BuildingId, Building>, ids: seq<BuildingId>, side: Side, idx: nat)
    requires Fresh(bs, ids) && idx < |ids|
    ensures Filling(bs, ids, side, Capacities(bs, ids), bs, Indices(|ids|), idx, 0)
    ensures UsedSum(Capacities(bs, ids), Indices(|ids|)) == 0
  {
    UsedSumAll(Capacities(bs, ids), Indices(|ids|));
  }

  /**
   What an iteration reads of the state: the drawn building, its capacity,
   and how many it holds. The building counts as full (`IsFull`) exactly
   when the count has reached the capacity.
   */
  lemma FillingCurrent(bs: map<BuildingId, Building>, ids: seq<BuildingId>, side: Side, caps: seq<nat>,
                       now: map<BuildingId, Building>, avail: set<nat>, idx: nat, count: nat)
    requires Fresh(bs, ids) && Filling(bs, ids, side, caps, now, avail, idx, count)
    ensures idx < |ids| == |caps| && ids[idx] in now
    ensures now[ids[idx]].capacity == caps[idx] >= 1 && count <= caps[idx]
    ensures IsFull(now[ids[idx]]) <==> count == caps[idx]
  {
    assert |Members(now[ids[idx]], Other(side))| == 0;
  }

  /** Adding one member to the drawn building counts one more in it and touches no other candidate. */
  lemma FillingStep(bs: map<BuildingId, Building>, ids: seq<BuildingId>, side: Side, caps: seq<nat>,
                    now: map<BuildingId, Building>, now': map<BuildingId, Building>, avail: set<nat>, idx: nat, count: nat)
    requires Fresh(bs, ids) && Filling(bs, ids, side, caps, now, avail, idx, count) && count < caps[idx]
    requires idx < |ids| && now'.Keys == now.Keys
    requires forall b :: b in now && b != ids[idx] ==> now'[b] == now[b]
    requires |Members(now'[ids[idx]], side)| == count + 1
    requires Members(now'[ids[idx]], Other(side)) == Members(now[ids[idx]], Other(side))
    requires now'[ids[idx]].capacity == now[ids[idx]].capacity
    ensures Filling(bs, ids, side, caps, now', avail, idx, count + 1)
  {
    forall k | 0 <= k < |ids| && k != idx
      ensures now'[ids[k]] == now[ids[k]]
    {
      assert ids[k] != ids[idx];
    }
  }

  /** Once the drawn building is full, drawing another available index starts on an untouched, empty building. */
  lemma FillingNext(bs: map<BuildingId, Building>, ids: seq<BuildingId>, side: Side, caps: seq<nat>,
                    now: map<BuildingId, Building>, avail: set<nat>, idx: nat, next: nat, i: nat)
    requires Fresh(bs, ids) && idx < |caps| && Filling(bs, ids, side, caps, now, avail, idx, caps[idx])
    requires i == UsedSum(caps, avail) + caps[idx] && next in avail - {idx}
    ensures Filling(bs, ids, side, caps, now, avail - {idx}, next, 0)
    ensures i == UsedSum(caps, avail - {idx})
  {
    UsedSumTake(caps, avail, idx);
  }

  /** The drawn building is full and no index is left: exactly the total capacity has been assigned. */
  lemma FillingExhausted(caps: seq<nat>, avail: set<nat>, idx: nat, i: nat)
    requires idx < |caps| && idx in avail && i == UsedSum(caps, avail) + caps[idx] && avail - {idx} == {}
    ensures i == Sum(caps)
  {
    UsedSumTake(caps, avail, idx);
    UsedSumNone(caps);
  }

  /** At any point, no more than the total capacity has been assigned. */
  lemma FillingBound(caps: seq<nat>, avail: set<nat>, idx: nat, count: nat, i: nat)
    requires idx < |caps| && idx in avail && count <= caps[idx] && i == UsedSum(caps, avail) + count
    ensures i <= Sum(caps)
  {
    UsedSumTake(caps, avail, idx);
    UsedSumBound(caps, avail - {idx});
  }
}
