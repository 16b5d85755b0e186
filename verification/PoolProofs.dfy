/** Exactly-once execution, lane order, exact counters and a draining shutdown, for every interleaving. */
module PoolProofs {
  import opened Bytes
  import opened ThreadPool

  // ---------------------------------------------------------------- sums over threads

  function Sum<T>(f: T -> nat, xs: seq<T>): nat {
    if |xs| == 0 then 0 else f(xs[0]) + Sum(f, xs[1..])
  }

  lemma {:induction false} SumOfUpdate<T>(f: T -> nat, xs: seq<T>, i: nat, x: T)
    requires i < |xs|
    ensures Sum(f, xs[i := x]) + f(xs[i]) == Sum(f, xs) + f(x)
    decreases i
  {
    var ys := xs[i := x];
    if i == 0 {
      assert ys[1..] == xs[1..];
    } else {
      assert ys[1..] == xs[1..][i - 1 := x];
      SumOfUpdate(f, xs[1..], i - 1, x);
    }
  }

  lemma {:induction false} SumOfZeros<T>(f: T -> nat, xs: seq<T>)
    requires forall x | x in xs :: f(x) == 0
    ensures Sum(f, xs) == 0
  {
    if |xs| > 0 {
      assert xs[0] in xs && forall x | x in xs[1..] :: x in xs;
      SumOfZeros(f, xs[1..]);
    }
  }

  /** How often a job occurs in a history. */
  function Times(j: Job, js: seq<Job>): nat {
    multiset(js)[j]
  }

  lemma TimesOfCons(j: Job, x: Job, js: seq<Job>)
    ensures Times(j, [x] + js) == (if x == j then 1 else 0) + Times(j, js)
  {
  }

  lemma TimesOfSnoc(j: Job, js: seq<Job>, x: Job)
    ensures Times(j, js + [x]) == Times(j, js) + (if x == j then 1 else 0)
  {
  }

  /** How many of the jobs a worker is responsible for are j: queued in its lanes, or in its hands. */
  function Load(j: Job, wk: Worker): nat {
    (if |wk.lanes| == LANES then Times(j, wk.lanes[0]) + Times(j, wk.lanes[1]) + Times(j, wk.lanes[2]) else 0)
      + InHand(j, wk.pc)
  }

  function InHand(j: Job, pc: Pc): nat {
    match pc
    case Running(x, _) => if x == j then 1 else 0
    case Woken(job) => if job == Some(j) then 1 else 0
    case _ => 0
  }

  function LoadOf(j: Job): Worker -> nat {
    wk => Load(j, wk)
  }

  // ---------------------------------------------------------------- conservation

  /** Accepted = run + queued + in hand, job by job. */
  ghost predicate Conserved(s: Pool) {
    Shaped(s) && forall j :: Times(j, s.accepted) == Times(j, s.ran) + Sum(LoadOf(j), s.workers)
  }

  /** Every lane's history of pushes is its history of pops, by whomever, and then its contents. */
  predicate InOrder(wk: Worker) {
    ShapedWorker(wk) && (forall l | 0 <= l < LANES :: wk.pushed[l] == wk.popped[l] + wk.lanes[l])
    && (forall l | 0 <= l < LANES :: |wk.lanes[l]| <= RING)
  }

  lemma PopMovesOne(wk: Worker, l: nat, pc: Pc, j: Job)
    requires ShapedWorker(wk) && l < LANES && |wk.lanes[l]| > 0
    ensures var t := Pop(wk, l).(pc := pc);
      && ShapedWorker(t) && (InOrder(wk) ==> InOrder(t))
      && Load(j, t) + (if wk.lanes[l][0] == j then 1 else 0) + InHand(j, wk.pc) == Load(j, wk) + InHand(j, pc)
  {
    hide Times;
    var x, rest := wk.lanes[l][0], wk.lanes[l][1..];
    assert wk.lanes[l] == [x] + rest;
    TimesOfCons(j, x, rest);
    assert wk.popped[l] + wk.lanes[l] == wk.popped[l] + [x] + rest;
  }

  lemma PushAddsOne(wk: Worker, l: nat, x: Job, j: Job)
    requires ShapedWorker(wk) && l < LANES
    ensures var t := Push(wk, l, x);
      && ShapedWorker(t) && (InOrder(wk) && |wk.lanes[l]| < RING ==> InOrder(t))
      && Load(j, t) == Load(j, wk) + (if x == j then 1 else 0)
  {
    hide Times;
    TimesOfSnoc(j, wk.lanes[l], x);
    assert wk.popped[l] + (wk.lanes[l] + [x]) == wk.popped[l] + wk.lanes[l] + [x];
  }

  /** A worker's own step keeps its jobs, but for the one it runs. */
  lemma OwnStepKeepsLoad(wk: Worker, a: Action, n: nat, down: bool, j: Job)
    requires ShapedWorker(wk) && ByWorker(a) && OwnStep(wk, a, n, down).Some?
    ensures var t := OwnStep(wk, a, n, down).value;
      && (InOrder(wk) ==> InOrder(t)) && (a.RunJob? ==> wk.pc.Running?)
      && Load(j, t) + (if a.RunJob? && wk.pc.j == j then 1 else 0) == Load(j, wk)
  {
    hide Times, InOrder;
    var l := OwnPick(wk.lanes);
    if l < LANES {
      PopMovesOne(wk, l, OwnStep(wk, a, n, down).value.pc, j);
    }
    var t := OwnStep(wk, a, n, down).value;
    if t.lanes == wk.lanes && t.pushed == wk.pushed && t.popped == wk.popped {
      PcKeepsOrder(wk, t);
    }
  }

  lemma PcKeepsOrder(wk: Worker, t: Worker)
    requires t.lanes == wk.lanes && t.pushed == wk.pushed && t.popped == wk.popped
    ensures InOrder(t) <==> InOrder(wk)
  {
  }

  predicate AllInOrder(s: Pool) {
    forall w | 0 <= w < |s.workers| :: InOrder(s.workers[w])
  }

  lemma StealConserves(s: Pool, w: nat, j: Job)
    requires Shaped(s) && Steals(s, TrySteal(w, true))
    ensures Sum(LoadOf(j), Steal(s, w).workers) == Sum(LoadOf(j), s.workers)
    ensures AllInOrder(s) ==> AllInOrder(Steal(s, w))
  {
    hide Load, Sum, InOrder;
    var v := Victim(s, w);
    var vk := s.workers[v];
    var l := StealPick(vk.lanes);
    var x := vk.lanes[l][0];
    var s1 := SetWorker(s, v, Pop(vk, l));
    var wk := s1.workers[w];
    var t := wk.(pc := Running(x, false));
    PopMovesOne(vk, l, vk.pc, j);
    assert Pop(vk, l).(pc := vk.pc) == Pop(vk, l);
    SumOfUpdate(LoadOf(j), s.workers, v, Pop(vk, l));
    SumOfUpdate(LoadOf(j), s1.workers, w, t);
    HandChanges(wk, t, j);
    PcKeepsOrder(wk, t);
  }

  lemma HandChanges(a: Worker, b: Worker, j: Job)
    requires b == a.(pc := b.pc)
    ensures Load(j, b) + InHand(j, a.pc) == Load(j, a) + InHand(j, b.pc)
  {
  }

  /** One step keeps the balance for job j, and every lane's order. */
  lemma StepConserves(s: Pool, a: Action, j: Job)
    requires Shaped(s) && Step(s, a).Some? && AllInOrder(s)
    requires Times(j, s.accepted) == Times(j, s.ran) + Sum(LoadOf(j), s.workers)
    ensures var t := Step(s, a).value;
      Times(j, t.accepted) == Times(j, t.ran) + Sum(LoadOf(j), t.workers) && AllInOrder(t)
  {
    hide Load, Sum, Times, OwnStep, InOrder, Push;
    if ByWorker(a) {
      if Steals(s, a) {
        StealConserves(s, a.w, j);
      } else {
        var wk := s.workers[a.w];
        var next := OwnStep(wk, a, |s.workers|, s.down).value;
        OwnStepKeepsLoad(wk, a, |s.workers|, s.down, j);
        SumOfUpdate(LoadOf(j), s.workers, a.w, next);
        if a.RunJob? {
          TimesOfSnoc(j, s.ran, wk.pc.j);
        }
      }
    } else if a.SubmitPush? && |s.workers[s.subs[a.i].w].lanes[s.subs[a.i].prio]| < RING {
      var sub := s.subs[a.i];
      PushAddsOne(s.workers[sub.w], sub.prio, sub.job, j);
      SumOfUpdate(LoadOf(j), s.workers, sub.w, Push(s.workers[sub.w], sub.prio, sub.job));
      TimesOfSnoc(j, s.accepted, sub.job);
    }
  }

  // ---------------------------------------------------------------- counters

  function DoneOf(wk: Worker): nat { wk.done }

  function RanOf(wk: Worker): nat { if wk.pc.Ran? then 1 else 0 }

  function BetweenOf(wk: Worker): nat { if wk.pc.Ran? || wk.pc.Counted? then 1 else 0 }

  function PushedOf(sub: Sub): nat { if sub.Pushed? then 1 else 0 }

  /** Each counter lags behind the history it counts by exactly the threads on their way to it. */
  predicate CountersExact(s: Pool) {
    && |s.ran| == s.completed + Sum(BetweenOf, s.workers)
    && |s.ran| == Sum(DoneOf, s.workers) + Sum(RanOf, s.workers)
    && |s.accepted| == s.submitted + Sum(PushedOf, s.subs)
  }

  lemma OwnStepCounts(wk: Worker, a: Action, n: nat, down: bool)
    requires ShapedWorker(wk) && ByWorker(a) && OwnStep(wk, a, n, down).Some?
    ensures var t := OwnStep(wk, a, n, down).value;
      && (a.RunJob? ==> wk.pc.Running?)
      && BetweenOf(t) + (if a.CountCompleted? then 1 else 0) == BetweenOf(wk) + (if a.RunJob? then 1 else 0)
      && DoneOf(t) + RanOf(t) == DoneOf(wk) + RanOf(wk) + (if a.RunJob? then 1 else 0)
  {
  }

  lemma OwnStepKeepsCounters(s: Pool, a: Action)
    requires Shaped(s) && ByWorker(a) && !Steals(s, a) && Step(s, a).Some? && CountersExact(s)
    ensures CountersExact(Step(s, a).value)
  {
    hide Sum, OwnStep;
    var wk := s.workers[a.w];
    var next := OwnStep(wk, a, |s.workers|, s.down).value;
    OwnStepCounts(wk, a, |s.workers|, s.down);
    SumsOfUpdate(s.workers, a.w, next);
  }

  lemma StealKeepsCounters(s: Pool, w: nat)
    requires Shaped(s) && Steals(s, TrySteal(w, true)) && CountersExact(s)
    ensures CountersExact(Steal(s, w))
  {
    hide Sum, StealPick;
    var v := Victim(s, w);
    var l := StealPick(s.workers[v].lanes);
    var s1 := SetWorker(s, v, Pop(s.workers[v], l));
    var t := s1.workers[w].(pc := Running(s.workers[v].lanes[l][0], false));
    SumsOfUpdate(s.workers, v, Pop(s.workers[v], l));
    SumsOfUpdate(s1.workers, w, t);
  }

  lemma SubStepKeepsCounters(s: Pool, a: Action)
    requires Shaped(s) && !ByWorker(a) && Step(s, a).Some? && CountersExact(s)
    ensures CountersExact(Step(s, a).value)
  {
    hide Sum;
    var t := Step(s, a).value;
    if !a.Shutdown? {
      SumOfUpdate(PushedOf, s.subs, a.i, t.subs[a.i]);
      if a.SubmitPush? {
        var w := s.subs[a.i].w;
        SumsOfUpdate(s.workers, w, t.workers[w]);
      }
    }
  }

  lemma StepKeepsCounters(s: Pool, a: Action)
    requires Shaped(s) && Step(s, a).Some? && CountersExact(s)
    ensures CountersExact(Step(s, a).value)
  {
    hide Sum, OwnStep, CountersExact;
    if !ByWorker(a) {
      SubStepKeepsCounters(s, a);
    } else if Steals(s, a) {
      StealKeepsCounters(s, a.w);
    } else {
      OwnStepKeepsCounters(s, a);
    }
  }

  lemma SumsOfUpdate(ws: seq<Worker>, i: nat, wk: Worker)
    requires i < |ws|
    ensures Sum(BetweenOf, ws[i := wk]) + BetweenOf(ws[i]) == Sum(BetweenOf, ws) + BetweenOf(wk)
    ensures Sum(DoneOf, ws[i := wk]) + DoneOf(ws[i]) == Sum(DoneOf, ws) + DoneOf(wk)
    ensures Sum(RanOf, ws[i := wk]) + RanOf(ws[i]) == Sum(RanOf, ws) + RanOf(wk)
  {
    SumOfUpdate(BetweenOf, ws, i, wk);
    SumOfUpdate(DoneOf, ws, i, wk);
    SumOfUpdate(RanOf, ws, i, wk);
  }

  // ---------------------------------------------------------------- shutting down

  /** A submit between its test of the stop flag and its push. */
  predicate Committed(sub: Sub) {
    sub.Checked? || sub.Aimed?
  }

  predicate Settled(s: Pool) {
    forall i | 0 <= i < |s.subs| :: !Committed(s.subs[i])
  }

  predicate NoJobs(wk: Worker) {
    ShapedWorker(wk) && forall l | 0 <= l < LANES :: |wk.lanes[l]| == 0
  }

  /** Only a pool going down has workers that drain or have left, and they leave nothing behind. */
  predicate CalmWorker(wk: Worker, down: bool) {
    && (wk.pc.Exited? ==> NoJobs(wk))
    && (wk.pc.Exited? || wk.pc.Draining? ==> down)
    && (wk.pc.Running? || wk.pc.Ran? || wk.pc.Counted? ==> wk.pc.drain ==> down)
  }

  predicate CalmWorkers(s: Pool) {
    forall w | 0 <= w < |s.workers| :: CalmWorker(s.workers[w], s.down)
  }

  predicate Calm(s: Pool) {
    (s.down ==> Settled(s)) && CalmWorkers(s)
  }

  /** Shutdown starts only when no submit is on its way to its push. */
  predicate Quiet(s: Pool, a: Action) {
    a.Shutdown? ==> Settled(s)
  }

  lemma OwnStepKeepsCalm(wk: Worker, a: Action, n: nat, down: bool)
    requires ShapedWorker(wk) && ByWorker(a) && OwnStep(wk, a, n, down).Some? && CalmWorker(wk, down)
    ensures CalmWorker(OwnStep(wk, a, n, down).value, down)
  {
  }

  /** Workers keep the pool calm whatever the submits are doing, and leave what concerns submits alone. */
  lemma WorkerStepKeepsCalm(s: Pool, a: Action)
    requires Shaped(s) && ByWorker(a) && Step(s, a).Some? && CalmWorkers(s)
    ensures CalmWorkers(Step(s, a).value)
  {
    hide OwnStep;
    if !Steals(s, a) {
      OwnStepKeepsCalm(s.workers[a.w], a, |s.workers|, s.down);
    }
  }

  lemma WorkerStepSparesSubmits(s: Pool, a: Action)
    requires Shaped(s) && ByWorker(a) && Step(s, a).Some?
    ensures var t := Step(s, a).value;
      t.subs == s.subs && t.accepted == s.accepted && t.submitted == s.submitted && t.down == s.down
  {
    hide OwnStep;
  }

  lemma StepKeepsCalm(s: Pool, a: Action)
    requires Shaped(s) && Step(s, a).Some? && Calm(s) && Quiet(s, a)
    ensures Calm(Step(s, a).value)
  {
    hide OwnStep, WorkerStep, CalmWorker;
    if ByWorker(a) {
      WorkerStepKeepsCalm(s, a);
      WorkerStepSparesSubmits(s, a);
    } else {
      SubStepKeepsCalm(s, a);
    }
  }

  lemma SubStepKeepsCalm(s: Pool, a: Action)
    requires Shaped(s) && !ByWorker(a) && Step(s, a).Some? && Calm(s) && Quiet(s, a)
    ensures Calm(Step(s, a).value)
  {
  }

  // ---------------------------------------------------------------- every run

  ghost predicate Sound(s: Pool) {
    Conserved(s) && AllInOrder(s) && CountersExact(s)
  }

  /** Every Shutdown in the run is quiet. */
  predicate QuietRun(s: Pool, run: seq<Action>)
    decreases |run|
  {
    |run| > 0 && Shaped(s) && Step(s, run[0]).Some? ==> Quiet(s, run[0]) && QuietRun(Step(s, run[0]).value, run[1..])
  }

  lemma StepKeepsSound(s: Pool, a: Action)
    requires Sound(s) && Step(s, a).Some?
    ensures Sound(Step(s, a).value)
  {
    hide Step, Times, LoadOf, Sum, CountersExact;
    StepKeepsShape(s, a);
    StepKeepsCounters(s, a);
    forall j ensures Times(j, Step(s, a).value.accepted) ==
      Times(j, Step(s, a).value.ran) + Sum(LoadOf(j), Step(s, a).value.workers) {
      StepConserves(s, a, j);
    }
    StepConserves(s, a, Job(0, 0));
  }

  lemma {:induction false} RunKeepsSound(s: Pool, run: seq<Action>, t: Pool)
    requires Sound(s) && Leads(s, run, t)
    ensures Sound(t)
    ensures Calm(s) && QuietRun(s, run) ==> Calm(t)
    decreases |run|
  {
    hide Step, Sound, Calm, Quiet;
    if |run| > 0 {
      var s1 := Step(s, run[0]).value;
      StepKeepsSound(s, run[0]);
      if Calm(s) && QuietRun(s, run) {
        StepKeepsCalm(s, run[0]);
      }
      RunKeepsSound(s1, run[1..], t);
    }
  }

  lemma InitIsSound(n: nat, m: nat)
    requires n > 0
    ensures Sound(Init(n, m)) && Calm(Init(n, m))
  {
    var s := Init(n, m);
    forall j ensures Sum(LoadOf(j), s.workers) == 0 {
      forall x | x in s.workers ensures LoadOf(j)(x) == 0 {
      }
      SumOfZeros(LoadOf(j), s.workers);
    }
    SumOfZeros(BetweenOf, s.workers);
    SumOfZeros(DoneOf, s.workers);
    SumOfZeros(RanOf, s.workers);
    SumOfZeros(PushedOf, s.subs);
  }

  predicate AllExited(s: Pool) {
    |s.workers| > 0 && forall w | 0 <= w < |s.workers| :: s.workers[w].pc.Exited?
  }

  /** At every moment of every run of a new pool: each accepted job has been run, is queued or is in a
      worker's hands, exactly once; every lane is popped in the order it was pushed, by owner and thieves
      together; and each counter equals its history but for the threads about to update it. */
  lemma EveryJobIsSomewhere(n: nat, m: nat, run: seq<Action>, t: Pool)
    requires n > 0 && Leads(Init(n, m), run, t)
    ensures forall j :: Times(j, t.accepted) == Times(j, t.ran) + Sum(LoadOf(j), t.workers)
    ensures forall w, l | 0 <= w < |t.workers| && 0 <= l < LANES ::
      ShapedWorker(t.workers[w]) && t.workers[w].pushed[l] == t.workers[w].popped[l] + t.workers[w].lanes[l]
    ensures CountersExact(t)
  {
    InitIsSound(n, m);
    RunKeepsSound(Init(n, m), run, t);
  }

  /** A pool all of whose workers left calmly has run everything it accepted, exactly once. */
  lemma ExitedRanAll(t: Pool)
    requires Conserved(t) && CalmWorkers(t) && AllExited(t)
    ensures multiset(t.ran) == multiset(t.accepted) && |t.ran| == |t.accepted|
    ensures forall w | 0 <= w < |t.workers| :: NoJobs(t.workers[w])
  {
    forall w | 0 <= w < |t.workers| ensures NoJobs(t.workers[w]) {
      assert CalmWorker(t.workers[w], t.down);
    }
    forall j ensures multiset(t.ran)[j] == multiset(t.accepted)[j] {
      forall x | x in t.workers ensures LoadOf(j)(x) == 0 {
        assert NoJobs(x);
      }
      SumOfZeros(LoadOf(j), t.workers);
      assert Times(j, t.accepted) == Times(j, t.ran);
    }
    SameTotal(t.ran, t.accepted);
  }

  /** When no submit was between its test and its push as shutdown began, and all workers have exited: every
      accepted job has run exactly once, every ring is empty, and the counts of jobs run agree. The count of
      submits agrees too exactly when no submit has yet to add itself. */
  lemma ShutdownDrains(n: nat, m: nat, run: seq<Action>, t: Pool)
    requires n > 0 && Leads(Init(n, m), run, t) && QuietRun(Init(n, m), run) && AllExited(t)
    ensures multiset(t.ran) == multiset(t.accepted)
    ensures forall w | 0 <= w < |t.workers| :: NoJobs(t.workers[w])
    ensures t.completed == |t.accepted| == Sum(DoneOf, t.workers)
    ensures t.submitted == t.completed <==> forall i | 0 <= i < |t.subs| :: !t.subs[i].Pushed?
  {
    InitIsSound(n, m);
    RunKeepsSound(Init(n, m), run, t);
    ExitedRanAll(t);
    SumOfZeros(BetweenOf, t.workers);
    SumOfZeros(RanOf, t.workers);
    PushedSum(t.subs);
  }

  lemma {:induction false} PushedSum(subs: seq<Sub>)
    ensures Sum(PushedOf, subs) == 0 <==> forall i | 0 <= i < |subs| :: !subs[i].Pushed?
  {
    if |subs| > 0 {
      PushedSum(subs[1..]);
      assert subs == [subs[0]] + subs[1..];
    }
  }

  lemma SameTotal(a: seq<Job>, b: seq<Job>)
    requires multiset(a) == multiset(b)
    ensures |a| == |b|
  {
    assert |multiset(a)| == |a| && |multiset(b)| == |b|;
  }

  // ---------------------------------------------------------------- and it comes to an end

  /** How much a worker still has to do once the pool is going down. */
  function RankOf(n: nat, wk: Worker): nat {
    (if |wk.lanes| == LANES then 10 * (|wk.lanes[0]| + |wk.lanes[1]| + |wk.lanes[2]|) else 0)
    + match wk.pc
      case Exited => 0
      case Draining => 1
      case Top => 2
      case Counted(_) => 3
      case Ran(_) => 4
      case Running(_, _) => 5
      case Woken(_) => 6
      case Waiting => 7
      case Stealing(k) => if k < n then 3 + n - k else 3
  }

  function Rank(n: nat): Worker -> nat {
    wk => RankOf(n, wk)
  }

  lemma OwnStepShrinks(wk: Worker, a: Action, n: nat)
    requires ShapedWorker(wk) && ByWorker(a) && OwnStep(wk, a, n, true).Some?
    ensures RankOf(n, OwnStep(wk, a, n, true).value) < RankOf(n, wk)
  {
  }

  /** Once the pool is going down, every step a worker takes leaves strictly less to do. */
  lemma WorkerStepShrinks(s: Pool, a: Action)
    requires Shaped(s) && s.down && ByWorker(a) && Step(s, a).Some?
    ensures Step(s, a).value.down
    ensures Sum(Rank(|s.workers|), Step(s, a).value.workers) < Sum(Rank(|s.workers|), s.workers)
  {
    hide Sum, OwnStep;
    var n := |s.workers|;
    if Steals(s, a) {
      StealShrinks(s, a.w);
    } else {
      OwnStepShrinks(s.workers[a.w], a, n);
      SumOfUpdate(Rank(n), s.workers, a.w, OwnStep(s.workers[a.w], a, n, true).value);
    }
  }

  lemma StealShrinks(s: Pool, w: nat)
    requires Shaped(s) && Steals(s, TrySteal(w, true))
    ensures Sum(Rank(|s.workers|), Steal(s, w).workers) < Sum(Rank(|s.workers|), s.workers)
  {
    hide Sum, StealPick;
    var n := |s.workers|;
    var v := Victim(s, w);
    var l := StealPick(s.workers[v].lanes);
    var s1 := SetWorker(s, v, Pop(s.workers[v], l));
    var t := s1.workers[w].(pc := Running(s.workers[v].lanes[l][0], false));
    SumOfUpdate(Rank(n), s.workers, v, Pop(s.workers[v], l));
    SumOfUpdate(Rank(n), s1.workers, w, t);
  }

  /** A step that a worker can always take, unless it has exited; its trylock fails only on a held mutex. */
  function NextAction(s: Pool, w: nat): Action
    requires w < |s.workers|
  {
    match s.workers[w].pc
    case Top => OwnPop(w)
    case Waiting => Wake(w)
    case Woken(_) => LoadStop(w)
    case Stealing(k) => TrySteal(w, !(k < |s.workers| && Locked(s.workers[Victim(s, w)])))
    case Running(_, _) => RunJob(w)
    case Ran(_) => CountDone(w)
    case Counted(_) => CountCompleted(w)
    case _ => DrainPop(w)
  }

  /** A thief's trylock fails only on a mutex that somebody holds. */
  predicate HonestTry(s: Pool, a: Action) {
    a.TrySteal? && !a.locked && a.w < |s.workers| && s.workers[a.w].pc.Stealing? && s.workers[a.w].pc.k < |s.workers|
    ==> Locked(s.workers[Victim(s, a.w)])
  }

  /** And so throughout a run. */
  predicate HonestRun(s: Pool, run: seq<Action>)
    decreases |run|
  {
    |run| > 0 ==>
      Shaped(s) && HonestTry(s, run[0]) && (Step(s, run[0]).Some? ==> HonestRun(Step(s, run[0]).value, run[1..]))
  }

  lemma NeverStuck(s: Pool, w: nat)
    requires Shaped(s) && w < |s.workers| && !s.workers[w].pc.Exited?
    ensures var a := NextAction(s, w); ByWorker(a) && Step(s, a).Some? && HonestTry(s, a)
  {
  }

  /** Shutdown always completes: from any state going down, the workers' steps lead to all of them having
      exited, whatever the submits are doing, within as many steps as there is left to do. */
  lemma {:induction false} DrainCompletes(s: Pool) returns (run: seq<Action>, t: Pool)
    requires Shaped(s) && s.down
    ensures Leads(s, run, t) && HonestRun(s, run) && AllExited(t) && |run| <= Sum(Rank(|s.workers|), s.workers)
    ensures t.subs == s.subs && t.accepted == s.accepted && t.submitted == s.submitted && t.down
    ensures CalmWorkers(s) ==> CalmWorkers(t)
    decreases Sum(Rank(|s.workers|), s.workers)
  {
    hide Step, Sum, Rank, CalmWorkers, HonestTry;
    if AllExited(s) {
      run, t := [], s;
    } else {
      var w :| 0 <= w < |s.workers| && !s.workers[w].pc.Exited?;
      var a := NextAction(s, w);
      NeverStuck(s, w);
      StepKeepsShape(s, a);
      WorkerStepShrinks(s, a);
      WorkerStepSparesSubmits(s, a);
      if CalmWorkers(s) {
        WorkerStepKeepsCalm(s, a);
      }
      var more;
      more, t := DrainCompletes(Step(s, a).value);
      run := [a] + more;
      assert run[1..] == more;
    }
  }
}
