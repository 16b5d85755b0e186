/** Who gets which job: what a submit, an owner and a thief do when nobody is in their way, by worker numbers
    and lanes. */
module PoolEffects {
  import opened Bytes
  import opened ThreadPool
  import opened PoolProofs
  import opened PoolShutdown

  /** Worker w's neighbour at distance d. */
  function Neighbour(w: nat, d: nat, n: nat): nat
    requires w < n && d < n
  {
    if w + d < n then w + d else w + d - n
  }

  predicate NoJob(wk: Worker) {
    wk.lanes == [[], [], []]
  }

  /** Lane l is the least urgent one with a job. */
  predicate Coldest(wk: Worker, l: nat) {
    |wk.lanes| == 3 && l < 3 && wk.lanes[l] != [] && forall k | l < k < 3 :: wk.lanes[k] == []
  }

  /** Lane l is the most urgent one with a job. */
  predicate Hottest(wk: Worker, l: nat) {
    |wk.lanes| == 3 && l < 3 && wk.lanes[l] != [] && forall k | 0 <= k < l :: wk.lanes[k] == []
  }

  /** wk without the oldest job of lane l. */
  function Robbed(wk: Worker, l: nat): Worker
    requires ShapedWorker(wk) && l < 3 && wk.lanes[l] != []
  {
    wk.(lanes := wk.lanes[l := wk.lanes[l][1..]], popped := wk.popped[l := wk.popped[l] + [wk.lanes[l][0]]])
  }

  /** A worker that has found nothing and woken up, in a pool not going down, no mutex but its own held. */
  predicate Looking(s: Pool, w: nat) {
    && Shaped(s) && w < |s.workers| && !s.down && s.workers[w].pc == Woken(None)
    && forall v | 0 <= v < |s.workers| && v != w :: !s.workers[v].pc.Woken?
  }

  /** Worker w goes on as pc, and nothing else changes. */
  function Moved(s: Pool, w: nat, pc: Pc): Pool
    requires w < |s.workers|
  {
    s.(workers := s.workers[w := s.workers[w].(pc := pc)])
  }

  /** m trylocks that succeed. */
  function Tries(w: nat, m: nat): (run: seq<Action>)
    ensures |run| == m
    ensures forall a | a in run :: a == TrySteal(w, true)
  {
    seq(m, _ => TrySteal(w, true))
  }

  lemma LeadsNowhere(s: Pool)
    ensures Leads(s, [], s) && HonestRun(s, [])
  {
  }

  lemma OnePasses(s: Pool, w: nat, d: nat)
    requires Shaped(s) && w < |s.workers| && s.workers[w].pc == Stealing(d) && 1 <= d < |s.workers|
    requires var v := Neighbour(w, d, |s.workers|); NoJob(s.workers[v]) && !s.workers[v].pc.Woken?
    ensures Step(s, TrySteal(w, true)) == Some(Moved(s, w, Stealing(d + 1))) && HonestTry(s, TrySteal(w, true))
    ensures Shaped(Moved(s, w, Stealing(d + 1)))
  {
    VictimIsNeighbour(s, w);
    StepKeepsShape(s, TrySteal(w, true));
  }

  lemma ModNone(m: nat, n: nat)
    requires m < n
    ensures m % n == m
  {
  }

  lemma ModOnce(m: nat, n: nat)
    requires n <= m < n + n
    ensures m % n == m - n
  {
    var q, r := m / n, m % n;
    assert m == q * n + r && 0 <= r < n;
    assert q >= 2 ==> q * n >= 2 * n;
    assert q <= 0 ==> q * n <= 0;
  }

  lemma VictimIsNeighbour(s: Pool, w: nat)
    requires w < |s.workers| && s.workers[w].pc.Stealing? && s.workers[w].pc.k < |s.workers|
    ensures Victim(s, w) == Neighbour(w, s.workers[w].pc.k, |s.workers|)
  {
    var m, n := w + s.workers[w].pc.k, |s.workers|;
    if m >= n {
      ModOnce(m, n);
    } else {
      ModNone(m, n);
    }
  }

  lemma StartsLooking(s: Pool, w: nat)
    requires Looking(s, w)
    ensures Step(s, LoadStop(w)) == Some(Moved(s, w, Stealing(1))) && HonestTry(s, LoadStop(w))
    ensures Shaped(Moved(s, w, Stealing(1)))
  {
    StepKeepsShape(s, LoadStop(w));
  }

  /** Worker w has the oldest job of worker v's lane l in its hand, and v does not have it any more. */
  function Taken(s: Pool, w: nat, v: nat, l: nat): Pool
    requires Shaped(s) && w < |s.workers| && v < |s.workers| && v != w && l < 3 && s.workers[v].lanes[l] != []
  {
    Moved(s.(workers := s.workers[v := Robbed(s.workers[v], l)]), w, Running(s.workers[v].lanes[l][0], false))
  }

  lemma OneTakes(s: Pool, w: nat, d: nat, l: nat)
    requires Shaped(s) && w < |s.workers| && s.workers[w].pc == Stealing(d) && 1 <= d < |s.workers|
    requires var v := Neighbour(w, d, |s.workers|); Coldest(s.workers[v], l) && !s.workers[v].pc.Woken?
    ensures var v := Neighbour(w, d, |s.workers|);
      v != w && Step(s, TrySteal(w, true)) == Some(Taken(s, w, v, l)) && HonestTry(s, TrySteal(w, true))
  {
    VictimIsNeighbour(s, w);
  }

  /** Having passed all neighbours, the thief goes back to the top of its loop. */
  lemma OneGivesUp(s: Pool, w: nat)
    requires Shaped(s) && w < |s.workers| && s.workers[w].pc == Stealing(|s.workers|)
    ensures Step(s, TrySteal(w, true)) == Some(Moved(s, w, Top)) && HonestTry(s, TrySteal(w, true))
  {
  }

  /** What the thief at distance d comes to: the first neighbour with a job, at distance e, or none up to e. */
  function Found(s: Pool, w: nat, e: nat, l: nat): Pool
    requires Shaped(s) && w < |s.workers| && 1 <= e <= |s.workers|
    requires e < |s.workers| ==> Coldest(s.workers[Neighbour(w, e, |s.workers|)], l)
  {
    if e < |s.workers| then Taken(s, w, Neighbour(w, e, |s.workers|), l) else Moved(s, w, Top)
  }

  lemma {:induction false} TriesUpTo(s: Pool, w: nat, d: nat, e: nat, l: nat)
    requires Shaped(s) && w < |s.workers| && s.workers[w].pc == Stealing(d) && 1 <= d <= e <= |s.workers|
    requires forall v | 0 <= v < |s.workers| && v != w :: !s.workers[v].pc.Woken?
    requires forall c | d <= c < e :: NoJob(s.workers[Neighbour(w, c, |s.workers|)])
    requires e < |s.workers| ==> Coldest(s.workers[Neighbour(w, e, |s.workers|)], l)
    ensures Leads(s, Tries(w, e - d + 1), Found(s, w, e, l)) && HonestRun(s, Tries(w, e - d + 1))
    decreases e - d
  {
    hide Step, HonestTry, Taken;
    var try, n := TrySteal(w, true), |s.workers|;
    if d == e {
      if e < n {
        OneTakes(s, w, d, l);
      } else {
        OneGivesUp(s, w);
      }
      assert Tries(w, 1) == [try];
      OneStep(s, try, Found(s, w, e, l));
    } else {
      var t := Moved(s, w, Stealing(d + 1));
      OnePasses(s, w, d);
      forall c | d < c <= e && c < n ensures t.workers[Neighbour(w, c, n)] == s.workers[Neighbour(w, c, n)] {
      }
      TriesUpTo(t, w, d + 1, e, l);
      FoundSame(s, w, d + 1, e, l);
      assert Tries(w, e - d + 1) == [try] + Tries(w, e - d);
      LeadsFirst(s, try, Tries(w, e - d), Found(s, w, e, l));
    }
  }

  lemma OneStep(s: Pool, a: Action, t: Pool)
    requires Shaped(s) && Step(s, a) == Some(t) && HonestTry(s, a)
    ensures Leads(s, [a], t) && HonestRun(s, [a])
  {
    hide Step, HonestTry;
    LeadsNowhere(t);
    assert [a][1..] == [];
  }

  /** Where the thief itself stands makes no difference to what it finds. */
  lemma FoundSame(s: Pool, w: nat, k: nat, e: nat, l: nat)
    requires Shaped(s) && w < |s.workers| && 1 <= e <= |s.workers|
    requires e < |s.workers| ==> Coldest(s.workers[Neighbour(w, e, |s.workers|)], l)
    requires Shaped(Moved(s, w, Stealing(k)))
    ensures Found(Moved(s, w, Stealing(k)), w, e, l) == Found(s, w, e, l)
  {
    var t := Moved(s, w, Stealing(k));
    assert Moved(t, w, Top) == Moved(s, w, Top);
    if e < |s.workers| {
      var v := Neighbour(w, e, |s.workers|);
      assert Found(t, w, e, l).workers == Found(s, w, e, l).workers;
    }
  }

  /** A thief with nobody in its way: LoadStop and then trylocks, in the order w + 1, w + 2, .., round to w - 1.
      At the first neighbour with a job, at distance e, it takes the oldest job of the least urgent lane that has
      one, and nothing else changes; with none it is back at the top of its loop, and nothing else has changed. */
  lemma ThiefFinds(s: Pool, w: nat, e: nat, l: nat)
    requires Looking(s, w) && 1 <= e <= |s.workers|
    requires forall c | 1 <= c < e :: NoJob(s.workers[Neighbour(w, c, |s.workers|)])
    requires e < |s.workers| ==> Coldest(s.workers[Neighbour(w, e, |s.workers|)], l)
    ensures var run := [LoadStop(w)] + Tries(w, e);
      Leads(s, run, Found(s, w, e, l)) && HonestRun(s, run)
  {
    hide Step, HonestTry, Found;
    var n, t := |s.workers|, Moved(s, w, Stealing(1));
    StartsLooking(s, w);
    forall c | 1 <= c <= e && c < n ensures t.workers[Neighbour(w, c, n)] == s.workers[Neighbour(w, c, n)] {
    }
    TriesUpTo(t, w, 1, e, l);
    FoundSame(s, w, 1, e, l);
    LeadsFirst(s, LoadStop(w), Tries(w, e), Found(s, w, e, l));
  }

  /** A worker without a job, and the first of its neighbours that has one. */
  lemma FirstWithJob(s: Pool, w: nat) returns (e: nat, l: nat)
    requires Shaped(s) && w < |s.workers|
    ensures 1 <= e <= |s.workers| && forall c | 1 <= c < e :: NoJob(s.workers[Neighbour(w, c, |s.workers|)])
    ensures e < |s.workers| ==> Coldest(s.workers[Neighbour(w, e, |s.workers|)], l)
  {
    e, l := 1, 0;
    var n := |s.workers|;
    while e < n && NoJob(s.workers[Neighbour(w, e, n)])
      invariant 1 <= e <= n && forall c | 1 <= c < e :: NoJob(s.workers[Neighbour(w, c, n)])
    {
      e := e + 1;
    }
    if e < n {
      var lanes := s.workers[Neighbour(w, e, n)].lanes;
      l := if lanes[2] != [] then 2 else if lanes[1] != [] then 1 else 0;
    }
  }

  /** Its own steps bring a thief that nobody stops to somebody's job, or back to the top of its loop exactly when
      no other worker has one. */
  lemma ThiefOutcome(s: Pool, w: nat) returns (run: seq<Action>, t: Pool)
    requires Looking(s, w)
    ensures Leads(s, run, t) && HonestRun(s, run) && forall a | a in run :: a == LoadStop(w) || a == TrySteal(w, true)
    ensures |t.workers| == |s.workers| && (t.workers[w].pc.Running? || t.workers[w].pc == Top)
    ensures t.workers[w].pc == Top <==> forall v | 0 <= v < |s.workers| && v != w :: NoJob(s.workers[v])
  {
    hide NoJob;
    var e, l := FirstWithJob(s, w);
    run, t := [LoadStop(w)] + Tries(w, e), Found(s, w, e, l);
    ThiefFinds(s, w, e, l);
    var n := |s.workers|;
    if e < n {
      assert !NoJob(s.workers[Neighbour(w, e, n)]) by { ColdestHasJob(s.workers[Neighbour(w, e, n)], l); }
    } else {
      forall v | 0 <= v < n && v != w ensures NoJob(s.workers[v]) {
        assert v == Neighbour(w, if v > w then v - w else v + n - w, n);
      }
    }
  }

  lemma ColdestHasJob(wk: Worker, l: nat)
    requires Coldest(wk, l)
    ensures !NoJob(wk)
  {
  }

  // ---------------------------------------------------------------- the owner

  /** The owner, at the top of its loop, after its wait or in the drain loop, takes the oldest job of its most
      urgent lane that has one; with none it waits, looks at others' jobs, drains or leaves. */
  lemma OwnerTakesHottest(s: Pool, w: nat, l: nat)
    requires Shaped(s) && w < |s.workers| && Hottest(s.workers[w], l)
    ensures var wk := s.workers[w];
      var j := wk.lanes[l][0];
      && (wk.pc.Top? ==> Step(s, OwnPop(w)) == Some(SetWorker(s, w, Robbed(wk, l).(pc := Running(j, false)))))
      && (wk.pc.Draining? ==> Step(s, DrainPop(w)) == Some(SetWorker(s, w, Robbed(wk, l).(pc := Running(j, true)))))
      && (wk.pc.Waiting? && !s.down ==>
            Step(s, Wake(w)) == Some(SetWorker(s, w, Robbed(wk, l).(pc := Woken(Some(j))))))
  {
  }

  lemma OwnerFindsNothing(s: Pool, w: nat)
    requires Shaped(s) && w < |s.workers| && NoJob(s.workers[w])
    ensures var pc := s.workers[w].pc;
      && (pc.Top? ==> Step(s, OwnPop(w)) == Some(Moved(s, w, if s.down then Draining else Waiting)))
      && (pc.Waiting? ==> Step(s, Wake(w)) == Some(Moved(s, w, Woken(None))))
      && (pc == Woken(None) ==> Step(s, LoadStop(w)) == Some(Moved(s, w, if s.down then Draining else Stealing(1))))
      && (pc.Draining? ==> Step(s, DrainPop(w)) == Some(Moved(s, w, Exited)))
  {
  }

  lemma ThreeSteps(s: Pool, a: Action, s1: Pool, b: Action, s2: Pool, c: Action, s3: Pool)
    requires Shaped(s) && Shaped(s1) && Shaped(s2)
    requires Step(s, a) == Some(s1) && Step(s1, b) == Some(s2) && Step(s2, c) == Some(s3)
    ensures Leads(s, [a, b, c], s3)
  {
    hide Step;
    assert [a, b, c][1..] == [b, c] && [b, c][1..] == [c] && [c][1..] == [];
    assert Leads(s3, [], s3) && Leads(s2, [c], s3) && Leads(s1, [b, c], s3);
  }

  /** A job in the hand is run once and counted, and then the worker is back in its loop. */
  lemma JobIsRunAndCounted(s: Pool, w: nat)
    requires Shaped(s) && w < |s.workers| && s.workers[w].pc.Running?
    ensures var wk := s.workers[w];
      var last := wk.(done := wk.done + 1, pc := if wk.pc.drain then Draining else Top);
      Leads(s, [RunJob(w), CountDone(w), CountCompleted(w)],
            SetWorker(s, w, last).(ran := s.ran + [wk.pc.j], completed := s.completed + 1))
  {
    hide StealPick;
    var wk := s.workers[w];
    var run := [RunJob(w), CountDone(w), CountCompleted(w)];
    var s1 := Step(s, run[0]).value;
    StepKeepsShape(s, run[0]);
    var s2 := Step(s1, run[1]).value;
    StepKeepsShape(s1, run[1]);
    var s3 := Step(s2, run[2]).value;
    assert s3.workers == s.workers[w := wk.(done := wk.done + 1, pc := if wk.pc.drain then Draining else Top)];
    ThreeSteps(s, run[0], s1, run[1], s2, run[2], s3);
  }

  // ---------------------------------------------------------------- the submitter

  /** A submit that is not in anybody's way: behind the jobs of its own priority, at the worker whose turn it is,
      and counted; or, when that ring holds 1024 jobs, dropped and counted as such. */
  lemma SubmitLands(s: Pool, i: nat, prio: nat, job: Job)
    requires Shaped(s) && i < |s.subs| && s.subs[i].Idle? && prio < 3 && !s.down
    requires !s.workers[s.rr % |s.workers|].pc.Woken?
    ensures var v := s.rr % |s.workers|;
      var wk, next := s.workers[v], (s.rr + 1) % 0x1_0000_0000;
      var run := [SubmitCheck(i, prio, job), SubmitAim(i), SubmitPush(i), SubmitCount(i)];
      Leads(s, run,
        if |wk.lanes[prio]| >= 1024 then s.(rr := next, dropped := s.dropped + 1)
        else s.(rr := next, submitted := s.submitted + 1, accepted := s.accepted + [job],
                workers := s.workers[v := wk.(lanes := wk.lanes[prio := wk.lanes[prio] + [job]],
                                              pushed := wk.pushed[prio := wk.pushed[prio] + [job]])]))
  {
    hide Step, WorkerStep;
    var v := s.rr % |s.workers|;
    var run := [SubmitCheck(i, prio, job), SubmitAim(i), SubmitPush(i), SubmitCount(i)];
    var s1 := s.(subs := s.subs[i := Checked(prio, job)]);
    var s2 := s.(subs := s.subs[i := Aimed(prio, job, v)], rr := (s.rr + 1) % 0x1_0000_0000);
    SubmitAims(s, i, prio, job);
    PushesAndCounts(s2, i);
    var s3 := Step(s2, run[2]).value;
    StepKeepsShape(s2, run[2]);
    var s4 := Step(s3, run[3]).value;
    assert s2.subs[i := Idle] == s.subs;
    ThreeSteps(s1, run[1], s2, run[2], s3, run[3], s4);
    assert run[1..] == [run[1], run[2], run[3]];
  }

  lemma SubmitAims(s: Pool, i: nat, prio: nat, job: Job)
    requires Shaped(s) && i < |s.subs| && s.subs[i].Idle? && prio < 3 && !s.down
    ensures var s1 := s.(subs := s.subs[i := Checked(prio, job)]);
      var s2 := s.(subs := s.subs[i := Aimed(prio, job, s.rr % |s.workers|)], rr := (s.rr + 1) % 0x1_0000_0000);
      && Step(s, SubmitCheck(i, prio, job)) == Some(s1) && Shaped(s1)
      && Step(s1, SubmitAim(i)) == Some(s2) && Shaped(s2)
  {
    var s1 := s.(subs := s.subs[i := Checked(prio, job)]);
    StepKeepsShape(s, SubmitCheck(i, prio, job));
    StepKeepsShape(s1, SubmitAim(i));
    assert s1.subs[i := Aimed(prio, job, s.rr % |s.workers|)] == s.subs[i := Aimed(prio, job, s.rr % |s.workers|)];
  }

  lemma PushesAndCounts(s: Pool, i: nat)
    requires Shaped(s) && i < |s.subs| && s.subs[i].Aimed? && !s.workers[s.subs[i].w].pc.Woken?
    ensures var sub := s.subs[i];
      var wk := s.workers[sub.w];
      var s1 := Step(s, SubmitPush(i));
      && s1.Some? && Shaped(s1.value) && Step(s1.value, SubmitCount(i)) == Some(
        if |wk.lanes[sub.prio]| >= 1024 then s.(subs := s.subs[i := Idle], dropped := s.dropped + 1)
        else s.(subs := s.subs[i := Idle], submitted := s.submitted + 1, accepted := s.accepted + [sub.job],
                workers := s.workers[sub.w := wk.(lanes := wk.lanes[sub.prio := wk.lanes[sub.prio] + [sub.job]],
                                                  pushed := wk.pushed[sub.prio := wk.pushed[sub.prio] + [sub.job]])]))
  {
    var s1 := Step(s, SubmitPush(i)).value;
    StepKeepsShape(s, SubmitPush(i));
    assert s1.subs[i := Idle] == s.subs[i := Idle];
  }

  /** With a priority that is none of the three, or the pool going down, nothing happens. */
  lemma SubmitRefused(s: Pool, i: nat, prio: nat, job: Job)
    requires Shaped(s) && i < |s.subs| && s.subs[i].Idle? && (prio >= 3 || s.down)
    ensures Step(s, SubmitCheck(i, prio, job)) == Some(s)
  {
  }
}
