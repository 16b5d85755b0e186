/** The work-stealing pool as interleaved steps. One step is one critical section, one trylock, one
    job run or one atomic access; between any two of them any other thread may act. */
module ThreadPool {
  import opened Bytes

  const LANES: nat := 3
  const RING: nat := 1024

  datatype Job = Job(fn: nat, ctx: nat)

  type Lanes = seq<seq<Job>>

  // ---------------------------------------------------------------- critical sections on one worker

  /** The owner's order: the most urgent non-empty lane; LANES when all are empty. */
  function OwnPick(lanes: Lanes): (l: nat)
    requires |lanes| == LANES
    ensures l <= LANES && (l < LANES ==> |lanes[l]| > 0)
    ensures forall k | 0 <= k < l :: |lanes[k]| == 0
  {
    if |lanes[0]| > 0 then 0 else if |lanes[1]| > 0 then 1 else if |lanes[2]| > 0 then 2 else LANES
  }

  /** A thief's order: the least urgent non-empty lane. */
  function StealPick(lanes: Lanes): (l: nat)
    requires |lanes| == LANES
    ensures l <= LANES && (l < LANES ==> |lanes[l]| > 0)
    ensures forall k | l < k < LANES :: |lanes[k]| == 0
    ensures l == LANES ==> forall k | 0 <= k < LANES :: |lanes[k]| == 0
  {
    if |lanes[2]| > 0 then 2 else if |lanes[1]| > 0 then 1 else if |lanes[0]| > 0 then 0 else LANES
  }

  // ---------------------------------------------------------------- states

  /** Where a worker thread is in worker_main. `drain` tells the drain loop from the main loop. */
  datatype Pc =
    | Top                              // about to lock its own mutex
    | Waiting                          // in the timed condition wait, mutex released
    | Woken(job: Option<Job>)          // mutex held again, lanes looked at, about to load the stop flag
    | Stealing(k: nat)                 // about to try the mutex of its k-th neighbour
    | Running(j: Job, drain: bool)     // about to call the job
    | Ran(drain: bool)                 // about to add to its own count
    | Counted(drain: bool)             // about to add to the pool's count
    | Draining                         // about to lock its own mutex in the drain loop
    | Exited

  /** pushed and popped are histories, lane by lane. */
  datatype Worker = Worker(lanes: Lanes, pc: Pc, done: nat, pushed: Lanes, popped: Lanes)

  /** Where a thread is in minecpp_job_submit. */
  datatype Sub = Idle | Checked(prio: nat, job: Job) | Aimed(prio: nat, job: Job, w: nat) | Pushed | Refused

  /** accepted and ran are histories: jobs pushed, jobs run. */
  datatype Pool = Pool(workers: seq<Worker>, subs: seq<Sub>, rr: nat, down: bool,
                       submitted: nat, completed: nat, dropped: nat,
                       accepted: seq<Job>, ran: seq<Job>)

  datatype Action =
    | SubmitCheck(i: nat, prio: nat, job: Job)
    | SubmitAim(i: nat)
    | SubmitPush(i: nat)
    | SubmitCount(i: nat)
    | OwnPop(w: nat)
    | Wake(w: nat)
    | LoadStop(w: nat)
    | TrySteal(w: nat, locked: bool)
    | RunJob(w: nat)
    | CountDone(w: nat)
    | CountCompleted(w: nat)
    | DrainPop(w: nat)
    | Shutdown

  const EMPTY: Lanes := [[], [], []]

  function NewWorker(): Worker {
    Worker(EMPTY, Top, 0, EMPTY, EMPTY)
  }

  /** A pool of n workers, and m threads that may submit. */
  function Init(n: nat, m: nat): Pool {
    Pool(seq(n, _ => NewWorker()), seq(m, _ => Idle), 0, false, 0, 0, 0, [], [])
  }

  // ---------------------------------------------------------------- steps

  function Pop(wk: Worker, l: nat): Worker
    requires |wk.lanes| == |wk.popped| == LANES && l < LANES && |wk.lanes[l]| > 0
  {
    wk.(lanes := wk.lanes[l := wk.lanes[l][1..]], popped := wk.popped[l := wk.popped[l] + [wk.lanes[l][0]]])
  }

  function Push(wk: Worker, l: nat, j: Job): Worker
    requires |wk.lanes| == |wk.pushed| == LANES && l < LANES
  {
    wk.(lanes := wk.lanes[l := wk.lanes[l] + [j]], pushed := wk.pushed[l := wk.pushed[l] + [j]])
  }

  predicate ShapedWorker(wk: Worker) {
    |wk.lanes| == |wk.pushed| == |wk.popped| == LANES
  }

  predicate Shaped(s: Pool) {
    |s.workers| > 0
    && (forall w | 0 <= w < |s.workers| :: ShapedWorker(s.workers[w]))
    && (forall i | 0 <= i < |s.subs| :: s.subs[i].Aimed? ==> s.subs[i].w < |s.workers| && s.subs[i].prio < LANES)
    && (forall i | 0 <= i < |s.subs| :: s.subs[i].Checked? ==> s.subs[i].prio < LANES)
  }

  /** A worker's mutex is held across steps only between waking up and loading the stop flag. */
  predicate Locked(wk: Worker) {
    wk.pc.Woken?
  }

  function SetWorker(s: Pool, w: nat, wk: Worker): Pool
    requires w < |s.workers|
  {
    s.(workers := s.workers[w := wk])
  }

  /** The owner's section: pop by urgency and go on as `found`, or stay and go on as `none`. */
  function PopOwn(wk: Worker, drain: bool, none: Pc): Worker
    requires ShapedWorker(wk)
  {
    var l := OwnPick(wk.lanes);
    if l < LANES then Pop(wk, l).(pc := Running(wk.lanes[l][0], drain)) else wk.(pc := none)
  }

  predicate ByWorker(a: Action) {
    !a.SubmitCheck? && !a.SubmitAim? && !a.SubmitPush? && !a.SubmitCount? && !a.Shutdown?
  }

  /** A worker's step that touches its own record only; n is the number of workers. */
  function OwnStep(wk: Worker, a: Action, n: nat, down: bool): Option<Worker>
    requires ShapedWorker(wk) && ByWorker(a)
  {
    match a
    case OwnPop(_) =>
      if wk.pc.Top? then Some(PopOwn(wk, false, if down then Draining else Waiting)) else None
    case Wake(_) =>
      if !wk.pc.Waiting? then None
      else
        var l := OwnPick(wk.lanes);
        if down || l == LANES then Some(wk.(pc := Woken(None)))
        else Some(Pop(wk, l).(pc := Woken(Some(wk.lanes[l][0]))))
    case LoadStop(_) =>
      if !wk.pc.Woken? then None
      else Some(wk.(pc := match wk.pc.job
        case Some(j) => Running(j, false)
        case None => if down then Draining else Stealing(1)))
    case TrySteal(_, _) =>
      if !wk.pc.Stealing? then None
      else Some(wk.(pc := if wk.pc.k >= n then Top else Stealing(wk.pc.k + 1)))
    case RunJob(_) => if wk.pc.Running? then Some(wk.(pc := Ran(wk.pc.drain))) else None
    case CountDone(_) => if wk.pc.Ran? then Some(wk.(pc := Counted(wk.pc.drain), done := wk.done + 1)) else None
    case CountCompleted(_) =>
      if wk.pc.Counted? then Some(wk.(pc := if wk.pc.drain then Draining else Top)) else None
    case DrainPop(_) => if wk.pc.Draining? then Some(PopOwn(wk, true, Exited)) else None
  }

  /** A neighbour's mutex was got: take its least urgent job, if it has any. */
  predicate Steals(s: Pool, a: Action)
    requires Shaped(s)
  {
    && a.TrySteal? && a.locked && a.w < |s.workers|
    && s.workers[a.w].pc.Stealing? && s.workers[a.w].pc.k < |s.workers|
    && StealPick(s.workers[Victim(s, a.w)].lanes) < LANES
  }

  function Victim(s: Pool, w: nat): (v: nat)
    requires w < |s.workers| && s.workers[w].pc.Stealing?
    ensures v < |s.workers|
  {
    (w + s.workers[w].pc.k) % |s.workers|
  }

  function Steal(s: Pool, w: nat): Pool
    requires Shaped(s) && Steals(s, TrySteal(w, true))
  {
    var v := Victim(s, w);
    var vk := s.workers[v];
    var l := StealPick(vk.lanes);
    var t := SetWorker(s, v, Pop(vk, l));
    SetWorker(t, w, t.workers[w].(pc := Running(vk.lanes[l][0], false)))
  }

  /** The shared history and counter move with the job run and the count. */
  function WorkerStep(s: Pool, a: Action): Option<Pool>
    requires Shaped(s) && ByWorker(a) && a.w < |s.workers|
  {
    var wk := s.workers[a.w];
    if a.TrySteal? && a.locked && wk.pc.Stealing? && wk.pc.k < |s.workers|
      && Locked(s.workers[Victim(s, a.w)]) then None
    else if Steals(s, a) then Some(Steal(s, a.w))
    else
      match OwnStep(wk, a, |s.workers|, s.down)
      case None => None
      case Some(next) =>
        Some(SetWorker(s, a.w, next).(
          ran := if a.RunJob? then s.ran + [wk.pc.j] else s.ran,
          completed := if a.CountCompleted? then s.completed + 1 else s.completed))
  }

  function SubStep(s: Pool, a: Action): Option<Pool>
    requires Shaped(s) && (a.SubmitCheck? || a.SubmitAim? || a.SubmitPush? || a.SubmitCount?) && a.i < |s.subs|
  {
    var i, sub := a.i, s.subs[a.i];
    match a
    case SubmitCheck(_, prio, job) =>
      // A bad priority, or a pool going down: -1 at once.
      if !sub.Idle? then None
      else if prio >= LANES || s.down then Some(s)
      else Some(s.(subs := s.subs[i := Checked(prio, job)]))
    case SubmitAim(_) =>
      if !sub.Checked? then None
      else Some(s.(subs := s.subs[i := Aimed(sub.prio, sub.job, s.rr % |s.workers|)], rr := (s.rr + 1) % 0x1_0000_0000))
    case SubmitPush(_) =>
      if !sub.Aimed? || Locked(s.workers[sub.w]) then None
      else
        var wk := s.workers[sub.w];
        if |wk.lanes[sub.prio]| >= RING then Some(s.(subs := s.subs[i := Refused]))
        else Some(SetWorker(s, sub.w, Push(wk, sub.prio, sub.job)).(
                    subs := s.subs[i := Sub.Pushed], accepted := s.accepted + [sub.job]))
    case SubmitCount(_) =>
      if sub.Pushed? then Some(s.(subs := s.subs[i := Idle], submitted := s.submitted + 1))
      else if sub.Refused? then Some(s.(subs := s.subs[i := Idle], dropped := s.dropped + 1))
      else None
  }

  /** One step of the system; None when the step is not possible there. */
  function Step(s: Pool, a: Action): Option<Pool>
    requires Shaped(s)
  {
    if a.Shutdown? then (if s.down then None else Some(s.(down := true)))
    else if ByWorker(a) then (if a.w < |s.workers| then WorkerStep(s, a) else None)
    else if a.i < |s.subs| then SubStep(s, a) else None
  }

  lemma OwnStepKeepsShape(wk: Worker, a: Action, n: nat, down: bool)
    requires ShapedWorker(wk) && ByWorker(a) && OwnStep(wk, a, n, down).Some?
    ensures ShapedWorker(OwnStep(wk, a, n, down).value)
  {
  }

  lemma StepKeepsShape(s: Pool, a: Action)
    requires Shaped(s) && Step(s, a).Some?
    ensures Shaped(Step(s, a).value) && |Step(s, a).value.workers| == |s.workers|
  {
    hide WorkerStep, SubStep;
    if a.Shutdown? {
    } else if ByWorker(a) {
      WorkerStepKeepsShape(s, a);
    } else {
      SubStepKeepsShape(s, a);
    }
  }

  lemma WorkerStepKeepsShape(s: Pool, a: Action)
    requires Shaped(s) && ByWorker(a) && a.w < |s.workers| && WorkerStep(s, a).Some?
    ensures Shaped(WorkerStep(s, a).value) && |WorkerStep(s, a).value.workers| == |s.workers|
  {
    hide OwnStep, Steal;
    if Steals(s, a) {
      StealKeepsShape(s, a.w);
    } else {
      OwnStepKeepsShape(s.workers[a.w], a, |s.workers|, s.down);
    }
  }

  lemma StealKeepsShape(s: Pool, w: nat)
    requires Shaped(s) && Steals(s, TrySteal(w, true))
    ensures Shaped(Steal(s, w)) && |Steal(s, w).workers| == |s.workers|
  {
    hide StealPick, Victim;
  }

  lemma SubStepKeepsShape(s: Pool, a: Action)
    requires Shaped(s) && (a.SubmitCheck? || a.SubmitAim? || a.SubmitPush? || a.SubmitCount?) && a.i < |s.subs|
    requires SubStep(s, a).Some?
    ensures Shaped(SubStep(s, a).value) && |SubStep(s, a).value.workers| == |s.workers|
  {
  }

  /** From s, the steps of `run` lead to t. */
  predicate Leads(s: Pool, run: seq<Action>, t: Pool)
    decreases |run|
  {
    if |run| == 0 then s == t
    else Shaped(s) && Step(s, run[0]).Some? && Leads(Step(s, run[0]).value, run[1..], t)
  }
}
