/** When shutting the pool down loses no job: exactly when no submit has passed the stop flag without having
    pushed yet. */
module PoolShutdown {
  import opened ThreadPool
  import opened PoolProofs

  /** Whatever is scheduled after shutdown starts in s: once all workers have left, every accepted job has
      run exactly once. */
  ghost predicate LosesNothing(s: Pool) {
    forall run, t :: Leads(s, [Shutdown] + run, t) && AllExited(t) ==> multiset(t.ran) == multiset(t.accepted)
  }

  /** The same where no trylock on a free mutex fails. */
  ghost predicate LosesNothingHonestly(s: Pool) {
    forall run, t :: Leads(s, [Shutdown] + run, t) && HonestRun(s, [Shutdown] + run) && AllExited(t) ==>
      multiset(t.ran) == multiset(t.accepted)
  }

  lemma LeadsFirst(s: Pool, a: Action, run: seq<Action>, t: Pool)
    requires Shaped(s) && Step(s, a).Some?
    ensures Leads(s, [a] + run, t) <==> Leads(Step(s, a).value, run, t)
    ensures HonestRun(s, [a] + run) <==> HonestTry(s, a) && HonestRun(Step(s, a).value, run)
  {
    hide Step, HonestTry;
    assert ([a] + run)[1..] == run;
  }

  lemma {:induction false} LeadsOn(s: Pool, run: seq<Action>, t: Pool, more: seq<Action>, u: Pool)
    requires Leads(s, run, t) && Leads(t, more, u)
    ensures Leads(s, run + more, u)
    ensures HonestRun(s, run) && HonestRun(t, more) ==> HonestRun(s, run + more)
    decreases |run|
  {
    hide Step, HonestTry;
    if |run| == 0 {
      assert run + more == more;
    } else {
      LeadsOn(Step(s, run[0]).value, run[1..], t, more, u);
      assert (run + more)[1..] == run[1..] + more;
    }
  }

  /** The stop flag stays up, so that no second shutdown starts. */
  lemma {:induction false} DownStaysQuiet(s: Pool, run: seq<Action>, t: Pool)
    requires s.down && Leads(s, run, t)
    ensures t.down && QuietRun(s, run)
    decreases |run|
  {
    hide WorkerStep, SubStep;
    if |run| > 0 {
      DownStays(s, run[0]);
      DownStaysQuiet(Step(s, run[0]).value, run[1..], t);
    }
  }

  lemma DownStays(s: Pool, a: Action)
    requires Shaped(s) && s.down && Step(s, a).Some?
    ensures Step(s, a).value.down
  {
    hide WorkerStep;
    if ByWorker(a) {
      WorkerStepSparesSubmits(s, a);
    }
  }

  /** A run that ends with the flag down had no shutdown in it. */
  lemma {:induction false} UpMeansQuiet(s: Pool, run: seq<Action>, t: Pool)
    requires Leads(s, run, t) && !t.down
    ensures QuietRun(s, run)
    decreases |run|
  {
    hide WorkerStep, SubStep;
    if |run| > 0 {
      UpMeansQuiet(Step(s, run[0]).value, run[1..], t);
      if run[0].Shutdown? {
        DownStaysQuiet(Step(s, run[0]).value, run[1..], t);
      }
    }
  }

  /** With all submits settled, whatever happens after shutdown loses nothing. */
  lemma SettledLosesNothing(s: Pool, run: seq<Action>, t: Pool)
    requires Sound(s) && CalmWorkers(s) && !s.down && Settled(s)
    requires Leads(s, [Shutdown] + run, t) && AllExited(t)
    ensures multiset(t.ran) == multiset(t.accepted)
  {
    hide Conserved, CountersExact, AllInOrder;
    LeadsFirst(s, Shutdown, run, t);
    var s1 := Step(s, Shutdown).value;
    StepKeepsSound(s, Shutdown);
    DownStaysQuiet(s1, run, t);
    StepKeepsCalm(s, Shutdown);
    RunKeepsSound(s1, run, t);
    ExitedRanAll(t);
  }

  /** A submit that has not chosen its worker yet chooses one. */
  lemma Aims(s: Pool, i: nat) returns (run: seq<Action>, t: Pool)
    requires Shaped(s) && i < |s.subs| && Committed(s.subs[i])
    ensures Leads(s, run, t) && Shaped(t) && |t.subs| == |s.subs| && t.subs[i].Aimed? && t.subs[i].job == s.subs[i].job
    ensures t == s.(subs := t.subs, rr := t.rr) && HonestRun(s, run)
  {
    if s.subs[i].Aimed? {
      run, t := [], s;
    } else {
      run, t := [SubmitAim(i)], Step(s, SubmitAim(i)).value;
      StepKeepsShape(s, SubmitAim(i));
      assert run[1..] == [];
    }
  }

  /** It pushes into the empty ring of a worker that has left, and returns 0. */
  lemma PushesTooLate(t: Pool, i: nat) returns (u: Pool)
    requires Shaped(t) && AllExited(t) && i < |t.subs| && t.subs[i].Aimed?
    requires forall w | 0 <= w < |t.workers| :: NoJobs(t.workers[w])
    ensures Leads(t, [SubmitPush(i), SubmitCount(i)], u) && AllExited(u)
    ensures HonestRun(t, [SubmitPush(i), SubmitCount(i)])
    ensures u.ran == t.ran && u.accepted == t.accepted + [t.subs[i].job] && u.submitted == t.submitted + 1
  {
    var t1 := Step(t, SubmitPush(i)).value;
    StepKeepsShape(t, SubmitPush(i));
    u := Step(t1, SubmitCount(i)).value;
    assert [SubmitPush(i), SubmitCount(i)][1..] == [SubmitCount(i)];
    assert [SubmitCount(i)][1..] == [];
  }

  /** With a submit still on its way to its push, its job can be accepted and never run: the workers drain
      and leave first. */
  lemma CommittedCanBeLost(s: Pool, i: nat) returns (run: seq<Action>, u: Pool)
    requires Sound(s) && CalmWorkers(s) && !s.down && i < |s.subs| && Committed(s.subs[i])
    ensures Leads(s, [Shutdown] + run, u) && HonestRun(s, [Shutdown] + run) && AllExited(u)
    ensures u.accepted == s.accepted + [s.subs[i].job] && multiset(u.ran) == multiset(s.accepted)
    ensures u.submitted == s.submitted + 1
  {
    hide Conserved, CountersExact, AllInOrder, WorkerStep, SubStep;
    SoundIsShaped(s);
    var s1 := Step(s, Shutdown).value;
    StepKeepsSound(s, Shutdown);
    SoundIsShaped(s1);
    var aim, s2 := Aims(s1, i);
    RunKeepsSound(s1, aim, s2);
    var drain, t := DrainCompletes(s2);
    RunKeepsSound(s2, drain, t);
    SoundIsShaped(t);
    assert CalmWorkers(s2) by { StillCalm(s, s2); }
    ExitedRanAll(t);
    u := PushesTooLate(t, i);
    LeadsOn(s2, drain, t, [SubmitPush(i), SubmitCount(i)], u);
    LeadsOn(s1, aim, s2, drain + [SubmitPush(i), SubmitCount(i)], u);
    run := aim + (drain + [SubmitPush(i), SubmitCount(i)]);
    LeadsFirst(s, Shutdown, run, u);
  }

  lemma SoundIsShaped(s: Pool)
    requires Sound(s)
    ensures Shaped(s)
  {
  }

  lemma StillCalm(s: Pool, t: Pool)
    requires CalmWorkers(s) && t.workers == s.workers && t.down
    ensures CalmWorkers(t)
  {
    forall w | 0 <= w < |t.workers| ensures CalmWorker(t.workers[w], t.down) {
      assert CalmWorker(s.workers[w], s.down);
    }
  }

  /** In any state a new pool can reach, with any number of workers and submitters: shutting down then loses
      nothing, whatever is scheduled afterwards, if and only if no submit is between its test of the stop
      flag and its push. Submits that have pushed and only have a counter left to move do no harm, and it makes
      no difference whether a trylock can fail on a free mutex. */
  lemma ShutdownIsSafeWhenSettled(n: nat, m: nat, before: seq<Action>, s: Pool)
    requires n > 0 && Leads(Init(n, m), before, s) && !s.down
    ensures LosesNothing(s) <==> Settled(s)
    ensures LosesNothingHonestly(s) <==> Settled(s)
  {
    hide Sound, CalmWorkers;
    InitIsSound(n, m);
    UpMeansQuiet(Init(n, m), before, s);
    RunKeepsSound(Init(n, m), before, s);
    if Settled(s) {
      forall run, t | Leads(s, [Shutdown] + run, t) && AllExited(t) ensures multiset(t.ran) == multiset(t.accepted) {
        SettledLosesNothing(s, run, t);
      }
    } else {
      var i :| 0 <= i < |s.subs| && Committed(s.subs[i]);
      var run, u := CommittedCanBeLost(s, i);
      Differ(u.ran, s.accepted, s.subs[i].job);
    }
  }

  lemma Differ(ran: seq<Job>, accepted: seq<Job>, j: Job)
    requires multiset(ran) == multiset(accepted)
    ensures multiset(ran) != multiset(accepted + [j])
  {
    assert |multiset(ran)| == |multiset(accepted)| == |accepted|;
    assert |multiset(accepted + [j])| == |accepted| + 1;
  }

  /** One worker and one submitter are enough: the caller is told 0, accepted, and the job never runs. */
  lemma LateSubmitIsLost(j: Job)
    ensures exists run, t ::
      && Leads(Init(1, 1), run, t) && HonestRun(Init(1, 1), run) && AllExited(t)
      && t.submitted == 1 && t.accepted == [j] && t.ran == []
  {
    hide Sound, CalmWorkers;
    var check := SubmitCheck(0, 0, j);
    var s := Step(Init(1, 1), check).value;
    InitIsSound(1, 1);
    assert Leads(s, [], s);
    LeadsFirst(Init(1, 1), check, [], s);
    assert [check] + [] == [check];
    UpMeansQuiet(Init(1, 1), [check], s);
    RunKeepsSound(Init(1, 1), [check], s);
    var run, u := CommittedCanBeLost(s, 0);
    LeadsFirst(Init(1, 1), check, [Shutdown] + run, u);
    assert s.accepted == [] && [] + [j] == [j];
    assert |multiset(u.ran)| == |u.ran|;
  }
}
