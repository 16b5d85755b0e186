/** The fixed-size rings behind the lanes, and the critical sections that run on them. */
module PoolRings {
  import opened Bytes
  import opened ThreadPool

  /** The ring cell of the k-th job of a lane whose head is at h. */
  function Cell(h: nat, k: nat): (c: nat)
    ensures c < RING
  {
    (h + k) % RING
  }

  lemma WrapsOnce(h: nat, k: nat)
    requires h < RING
    ensures Cell(Cell(h, 1), k) == Cell(h, k + 1)
  {
  }

  lemma DistinctCells(h: nat, i: nat, j: nat)
    requires i < j < i + RING
    ensures Cell(h, i) != Cell(h, j)
  {
  }

  /** The part of worker_t that its mutex guards. */
  class WorkerRings {
    const ring: array2<Job>
    const head: array<nat>
    const count: array<nat>

    ghost predicate Valid()
      reads this, head, count
    {
      && ring.Length0 == LANES && ring.Length1 == RING
      && head.Length == count.Length == LANES && head != count
      && forall l | 0 <= l < LANES :: head[l] < RING && count[l] <= RING
    }

    /** A lane's jobs, oldest first. */
    ghost function Lane(l: nat): (s: seq<Job>)
      requires Valid() && l < LANES
      reads this, ring, head, count
      ensures |s| == count[l]
    {
      seq(count[l], k requires 0 <= k < count[l] && Valid() reads this, ring, head, count => ring[l, Cell(head[l], k)])
    }

    ghost function View(): Lanes
      requires Valid()
      reads this, ring, head, count
    {
      [Lane(0), Lane(1), Lane(2)]
    }

    constructor ()
      ensures Valid() && View() == EMPTY && fresh(ring) && fresh(head) && fresh(count)
    {
      ring := new Job[LANES, RING]((_, _) => Job(0, 0));
      head := new nat[LANES](_ => 0);
      count := new nat[LANES](_ => 0);
    }

    /** pop_lane. */
    method PopLane(l: nat) returns (r: Option<Job>)
      requires Valid() && l < LANES
      modifies head, count
      ensures Valid()
      ensures if |old(Lane(l))| == 0 then r == None && View() == old(View())
              else r == Some(old(Lane(l))[0]) && View() == old(View())[l := old(Lane(l))[1..]]
    {
      if count[l] == 0 { return None; }
      ghost var was := Lane(l);
      ghost var h := head[l];
      r := Some(ring[l, head[l]]);
      head[l] := (head[l] + 1) % RING;
      count[l] := count[l] - 1;
      forall k | 0 <= k < count[l] ensures Lane(l)[k] == was[1..][k] {
        WrapsOnce(h, k);
      }
      assert Lane(l) == was[1..];
      forall m | 0 <= m < LANES && m != l ensures Lane(m) == old(Lane(m)) {
      }
    }

    /** The worker's own section: the most urgent job, if there is any. */
    method PopOwnLanes() returns (r: Option<Job>)
      requires Valid()
      modifies head, count
      ensures Valid()
      ensures var l := OwnPick(old(View()));
        if l == LANES then r == None && View() == old(View())
        else r == Some(old(View())[l][0]) && View() == old(View())[l := old(View())[l][1..]]
    {
      r := None;
      var l := 0;
      while l < LANES && r.None?
        invariant Valid() && l <= LANES
        invariant r.None? ==> View() == old(View()) && forall k | 0 <= k < l :: |View()[k]| == 0
        invariant r.Some? ==> 0 < l == OwnPick(old(View())) + 1
        invariant r.Some? ==>
          r == Some(old(View())[l - 1][0]) && View() == old(View())[l - 1 := old(View())[l - 1][1..]]
      {
        r := PopLane(l);
        l := l + 1;
      }
    }

    /** A thief's section on a neighbour: the least urgent job, if there is any. */
    method PopForThief() returns (r: Option<Job>)
      requires Valid()
      modifies head, count
      ensures Valid()
      ensures var l := StealPick(old(View()));
        if l == LANES then r == None && View() == old(View())
        else r == Some(old(View())[l][0]) && View() == old(View())[l := old(View())[l][1..]]
    {
      r := None;
      var l: int := LANES - 1;
      while l >= 0 && r.None?
        invariant Valid() && -1 <= l < LANES
        invariant r.None? ==> View() == old(View()) && forall k | l < k < LANES :: |View()[k]| == 0
        invariant r.Some? ==> l + 1 < LANES && l + 1 == StealPick(old(View()))
        invariant r.Some? ==>
          r == Some(old(View())[l + 1][0]) && View() == old(View())[l + 1 := old(View())[l + 1][1..]]
      {
        r := PopLane(l);
        l := l - 1;
      }
    }

    /** The section of minecpp_job_submit: behind the lane's last job, unless the ring is full. */
    method PushLane(l: nat, j: Job) returns (ok: bool)
      requires Valid() && l < LANES
      modifies ring, count
      ensures Valid() && ok == (|old(Lane(l))| < RING)
      ensures View() == if ok then old(View())[l := old(Lane(l)) + [j]] else old(View())
    {
      if count[l] >= RING { return false; }
      ghost var was := Lane(l);
      forall k | 0 <= k < count[l] ensures Cell(head[l], k) != Cell(head[l], count[l]) {
        DistinctCells(head[l], k, count[l]);
      }
      ring[l, Cell(head[l], count[l])] := j;
      count[l] := count[l] + 1;
      assert Lane(l) == was + [j];
      forall m | 0 <= m < LANES && m != l ensures Lane(m) == old(Lane(m)) {
      }
      ok := true;
    }
  }
}
