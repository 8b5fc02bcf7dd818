/** The thread pool as a protocol: every region that holds the pool's mutex is one atomic step, waiting
    on the condition variable and being woken are steps of their own, and time is left to chance. */
module ThreadPool {
  import opened Basics

  datatype Life = Run | Stopping | Stopped

  type Id = int
  type Task = int

  /** Workers are parked on the condition variable, awake (about to look at the queue) or executing
      the task with a given acceptance number.  Awaiters are threads inside Stop(true).  accepted,
      started and finished record the history. */
  datatype Pool = Pool(
    low: nat, high: nat, maxQueue: nat,
    tasks: seq<Task>, life: Life, running: int, sleeping: int,
    parked: set<Id>, awake: set<Id>, executing: map<Id, nat>,
    parkedAwaiters: set<Id>, awakeAwaiters: set<Id>, returned: set<Id>,
    accepted: seq<Task>, started: nat, finished: set<nat>)
  {
    ghost predicate IsWorker(w: Id) { w in parked || w in awake || w in executing }

    ghost predicate IsAwaiter(a: Id) { a in parkedAwaiters || a in awakeAwaiters || a in returned }
  }

  /** The constructor: low workers are started, every counter agrees. */
  ghost function Start(low: nat, high: nat, maxQueue: nat, ids: set<Id>): Pool
  {
    Pool(low, high, maxQueue, [], Run, |ids|, |ids|, {}, ids, map[], {}, {}, {}, [], 0, {})
  }

  datatype Waiter = AWorker(w: Id) | AnAwaiter(a: Id) | Nobody

  /** notify_one wakes some waiter if there is one, whichever kind it is. */
  ghost predicate MayWake(p: Pool, who: Waiter) {
    match who
    case AWorker(w) => w in p.parked
    case AnAwaiter(a) => a in p.parkedAwaiters
    case Nobody => p.parked == {} && p.parkedAwaiters == {}
  }

  ghost function WakeOne(p: Pool, who: Waiter): Pool {
    match who
    case AWorker(w) => p.(parked := p.parked - {w}, awake := p.awake + {w})
    case AnAwaiter(a) => p.(parkedAwaiters := p.parkedAwaiters - {a}, awakeAwaiters := p.awakeAwaiters + {a})
    case Nobody => p
  }

  ghost function WakeAll(p: Pool): Pool {
    p.(parked := {}, awake := p.awake + p.parked,
       parkedAwaiters := {}, awakeAwaiters := p.awakeAwaiters + p.parkedAwaiters)
  }

  datatype Step =
    /** A call of Execute; spawned names the thread it may start, woken the one notify_one picks. */
    | Execute(task: Task, spawned: Id, woken: Waiter)
    /** An awake worker holds the mutex; timedOut is what the clock comparison says. */
    | Look(w: Id, timedOut: bool, woken: Waiter)
    /** A parked worker's wait ends by time-out or spuriously. */
    | WakeUp(w: Id)
    /** A worker comes back from its task. */
    | Finish(w: Id)
    | Stop(awaiter: Option<Id>)
    /** A woken awaiter looks at running_threads again. */
    | Recheck(a: Id)
    /** An awaiter's wait ends spuriously. */
    | WakeAwaiter(a: Id)

  ghost predicate Enabled(p: Pool, s: Step) {
    match s
    case Execute(task, spawned, woken) =>
      !p.IsWorker(spawned) && MayWake(p, woken)
    case Look(w, timedOut, woken) => w in p.awake && MayWake(p, woken)
    case WakeUp(w) => w in p.parked
    case Finish(w) => w in p.executing
    case Stop(awaiter) => awaiter.Some? ==> !p.IsAwaiter(awaiter.value)
    case Recheck(a) => a in p.awakeAwaiters
    case WakeAwaiter(a) => a in p.parkedAwaiters
  }

  predicate Accepts(p: Pool) { p.life.Run? && |p.tasks| < p.maxQueue }

  ghost function ExecuteStep(p: Pool, task: Task, spawned: Id, woken: Waiter): Pool {
    if !Accepts(p) then p
    else
      var q := p.(tasks := p.tasks + [task], accepted := p.accepted + [task]);
      if p.sleeping != 0 then WakeOne(q, woken)
      else if p.running < p.high then
        WakeOne(q.(running := p.running + 1, sleeping := p.sleeping + 1, awake := p.awake + {spawned}), woken)
      else q
  }

  ghost function LookStep(p: Pool, w: Id, timedOut: bool, woken: Waiter): Pool {
    if p.tasks == [] && p.life.Run? && !timedOut then
      p.(awake := p.awake - {w}, parked := p.parked + {w})
    else if p.tasks != [] then
      p.(sleeping := p.sleeping - 1, tasks := p.tasks[1..], awake := p.awake - {w},
         executing := p.executing[w := p.started], started := p.started + 1)
    else if !p.life.Run? then
      var q := p.(sleeping := p.sleeping - 1, running := p.running - 1, awake := p.awake - {w});
      if q.running == 0 then WakeOne(q.(life := Stopped), woken) else q
    else if p.sleeping - 1 >= p.low then
      p.(sleeping := p.sleeping - 1, running := p.running - 1, awake := p.awake - {w})
    else p
  }

  ghost function FinishStep(p: Pool, w: Id): Pool
    requires w in p.executing
  {
    p.(executing := p.executing - {w}, awake := p.awake + {w}, sleeping := p.sleeping + 1,
       finished := p.finished + {p.executing[w]})
  }

  ghost function StopStep(p: Pool, awaiter: Option<Id>): Pool {
    var q := WakeAll(p.(life := Stopping));
    if awaiter.None? then q else Await(q, awaiter.value)
  }

  /** The loop test of Stop(true): wait while workers run. */
  ghost function Await(p: Pool, a: Id): Pool {
    if p.running > 0 then p.(parkedAwaiters := p.parkedAwaiters + {a})
    else p.(returned := p.returned + {a})
  }

  ghost function Apply(p: Pool, s: Step): Pool
    requires Enabled(p, s)
  {
    match s
    case Execute(task, spawned, woken) => ExecuteStep(p, task, spawned, woken)
    case Look(w, timedOut, woken) => LookStep(p, w, timedOut, woken)
    case WakeUp(w) => WakeOne(p, AWorker(w))
    case Finish(w) => FinishStep(p, w)
    case Stop(awaiter) => StopStep(p, awaiter)
    case Recheck(a) => Await(p.(awakeAwaiters := p.awakeAwaiters - {a}), a)
    case WakeAwaiter(a) => WakeOne(p, AnAwaiter(a))
  }

  ghost predicate Next(p: Pool, s: Step, q: Pool) {
    Enabled(p, s) && q == Apply(p, s)
  }

  /** The states a run goes through; the first is where it starts. */
  ghost predicate IsRun(states: seq<Pool>, steps: seq<Step>) {
    && |states| == |steps| + 1
    && (forall i {:trigger steps[i]} :: 0 <= i < |steps| ==> Next(states[i], steps[i], states[i + 1]))
  }

  /** running_threads counts the live workers and sleeping_workers those not executing. */
  ghost predicate CountersExact(p: Pool) {
    && p.parked !! p.awake !! p.executing.Keys
    && p.sleeping == |p.parked| + |p.awake|
    && p.running == p.sleeping + |p.executing|
    && p.running <= (if p.low < p.high then p.high else p.low)
    && (p.life.Run? ==> p.low <= p.running)
  }

  /** While anyone is parked, each queued task has an awake worker of its own coming for it; and
      queued tasks have workers at all, unless both watermarks are zero. */
  ghost predicate WorkConserved(p: Pool) {
    && |p.tasks| <= p.maxQueue
    && (p.parked != {} ==> |p.tasks| <= |p.awake|)
    && (p.low + p.high > 0 && p.tasks != [] ==> p.running > 0)
    && (!p.life.Run? ==> p.parked == {})
  }

  ghost predicate InFlight(executing: map<Id, nat>, n: nat) {
    exists w :: w in executing && executing[w] == n
  }

  /** Tasks are started in the order they were accepted, and each just once. */
  ghost predicate HistoryOrdered(p: Pool) {
    && p.started <= |p.accepted|
    && p.tasks == p.accepted[p.started..]
    && (forall w :: w in p.executing ==> p.executing[w] < p.started && p.executing[w] !in p.finished)
    && (forall v, w :: v in p.executing && w in p.executing && v != w ==> p.executing[v] != p.executing[w])
    && (forall n :: n in p.finished ==> n < p.started)
    && (forall n: nat :: n < p.started ==> n in p.finished || InFlight(p.executing, n))
  }

  ghost predicate AwaitersOrdered(p: Pool) {
    && p.parkedAwaiters !! p.awakeAwaiters !! p.returned
    && (p.life.Run? ==> p.parkedAwaiters == {} && p.awakeAwaiters == {} && p.returned == {})
    && (p.returned != {} ==> p.running == 0)
  }

  ghost predicate Inv(p: Pool) {
    CountersExact(p) && WorkConserved(p) && HistoryOrdered(p) && AwaitersOrdered(p)
  }

  lemma StartKeeps(low: nat, high: nat, maxQueue: nat, ids: set<Id>)
    requires |ids| == low
    ensures Inv(Start(low, high, maxQueue, ids))
  {}

  lemma SameHistory(p: Pool, q: Pool)
    requires HistoryOrdered(p)
    requires q.tasks == p.tasks && q.accepted == p.accepted
    requires q.started == p.started && q.finished == p.finished && q.executing == p.executing
    ensures HistoryOrdered(q)
  {}

  lemma WakeOneCounts(p: Pool, who: Waiter)
    requires CountersExact(p) && WorkConserved(p) && AwaitersOrdered(p) && MayWake(p, who)
    ensures var q := WakeOne(p, who);
            CountersExact(q) && WorkConserved(q) && AwaitersOrdered(q)
  {}

  lemma WakeOneKeeps(p: Pool, who: Waiter)
    requires Inv(p) && MayWake(p, who)
    ensures Inv(WakeOne(p, who))
  {
    hide CountersExact; hide WorkConserved; hide AwaitersOrdered; hide HistoryOrdered;
    WakeOneCounts(p, who);
    SameHistory(p, WakeOne(p, who));
  }

  /** A new task goes to the end of the queue; nothing is started or finished. */
  lemma AcceptKeepsHistory(p: Pool, q: Pool, task: Task)
    requires HistoryOrdered(p)
    requires q.tasks == p.tasks + [task] && q.accepted == p.accepted + [task]
    requires q.started == p.started && q.finished == p.finished && q.executing == p.executing
    ensures HistoryOrdered(q)
  {}

  lemma AcceptCounts(p: Pool, task: Task, spawned: Id, woken: Waiter)
    requires CountersExact(p) && WorkConserved(p) && AwaitersOrdered(p)
    requires !p.IsWorker(spawned) && MayWake(p, woken) && Accepts(p)
    ensures var q := ExecuteStep(p, task, spawned, woken);
            CountersExact(q) && WorkConserved(q) && AwaitersOrdered(q)
  {}

  lemma Accepted(p: Pool, task: Task, spawned: Id, woken: Waiter)
    requires Accepts(p)
    ensures var q := ExecuteStep(p, task, spawned, woken);
            && q.tasks == p.tasks + [task] && q.accepted == p.accepted + [task]
            && q.started == p.started && q.finished == p.finished && q.executing == p.executing
  {}

  lemma ExecuteKeeps(p: Pool, task: Task, spawned: Id, woken: Waiter)
    requires Inv(p) && !p.IsWorker(spawned) && MayWake(p, woken)
    ensures Inv(ExecuteStep(p, task, spawned, woken))
  {
    hide CountersExact; hide WorkConserved; hide AwaitersOrdered; hide HistoryOrdered;
    if Accepts(p) {
      AcceptCounts(p, task, spawned, woken);
      Accepted(p, task, spawned, woken);
      hide ExecuteStep;
      AcceptKeepsHistory(p, ExecuteStep(p, task, spawned, woken), task);
    }
  }

  /** A worker that takes the oldest task gives it the next start number. */
  lemma TakeKeepsHistory(p: Pool, w: Id)
    requires HistoryOrdered(p) && p.tasks != [] && w !in p.executing
    ensures HistoryOrdered(p.(tasks := p.tasks[1..], executing := p.executing[w := p.started], started := p.started + 1))
  {
    var executing := p.executing[w := p.started];
    forall n: nat | n < p.started + 1 ensures n in p.finished || InFlight(executing, n) {
      if n == p.started {
        assert executing[w] == n;
      } else if n !in p.finished {
        assert InFlight(p.executing, n);
        var v :| v in p.executing && p.executing[v] == n;
        assert executing[v] == n;
      }
    }
  }

  lemma TakeCounts(p: Pool, w: Id, timedOut: bool, woken: Waiter)
    requires Inv(p) && w in p.awake && p.tasks != []
    ensures CountersExact(LookStep(p, w, timedOut, woken))
  {
    assert p.executing[w := p.started].Keys == p.executing.Keys + {w};
  }

  lemma TakeConserves(p: Pool, w: Id, timedOut: bool, woken: Waiter)
    requires Inv(p) && w in p.awake && p.tasks != []
    ensures WorkConserved(LookStep(p, w, timedOut, woken)) && AwaitersOrdered(LookStep(p, w, timedOut, woken))
  {}

  lemma TakeKeeps(p: Pool, w: Id, timedOut: bool, woken: Waiter)
    requires Inv(p) && w in p.awake && p.tasks != []
    ensures Inv(LookStep(p, w, timedOut, woken))
  {
    TakeKeepsHistory(p, w);
    TakeCounts(p, w, timedOut, woken);
    TakeConserves(p, w, timedOut, woken);
  }

  lemma ParkKeeps(p: Pool, w: Id, timedOut: bool, woken: Waiter)
    requires Inv(p) && w in p.awake && p.tasks == [] && p.life.Run?
    ensures Inv(LookStep(p, w, timedOut, woken))
  {}

  lemma QuitKeeps(p: Pool, w: Id, timedOut: bool, woken: Waiter)
    requires Inv(p) && w in p.awake && p.tasks == [] && !p.life.Run? && MayWake(p, woken)
    ensures Inv(LookStep(p, w, timedOut, woken))
  {}

  lemma LookKeeps(p: Pool, w: Id, timedOut: bool, woken: Waiter)
    requires Inv(p) && w in p.awake && MayWake(p, woken)
    ensures Inv(LookStep(p, w, timedOut, woken))
  {
    if p.tasks != [] {
      TakeKeeps(p, w, timedOut, woken);
    } else if p.life.Run? {
      ParkKeeps(p, w, timedOut, woken);
    } else {
      QuitKeeps(p, w, timedOut, woken);
    }
  }

  lemma FinishKeepsHistory(p: Pool, w: Id)
    requires HistoryOrdered(p) && w in p.executing
    ensures HistoryOrdered(p.(executing := p.executing - {w}, finished := p.finished + {p.executing[w]}))
  {
    forall n: nat | n < p.started && n !in p.finished && n != p.executing[w] ensures InFlight(p.executing - {w}, n) {
      assert InFlight(p.executing, n);
      var v :| v in p.executing && p.executing[v] == n;
      assert v in p.executing - {w};
    }
  }

  lemma FinishKeeps(p: Pool, w: Id)
    requires Inv(p) && w in p.executing
    ensures Inv(FinishStep(p, w))
  {
    assert (p.executing - {w}).Keys == p.executing.Keys - {w};
    FinishKeepsHistory(p, w);
  }

  lemma AwaitKeeps(p: Pool, a: Id)
    requires Inv(p) && !p.life.Run? && !p.IsAwaiter(a)
    ensures Inv(Await(p, a))
  {}

  lemma WakeAllKeeps(p: Pool)
    requires Inv(p)
    ensures Inv(WakeAll(p.(life := Stopping)))
  {}

  lemma StopKeeps(p: Pool, awaiter: Option<Id>)
    requires Inv(p) && Enabled(p, Stop(awaiter))
    ensures Inv(StopStep(p, awaiter))
  {
    WakeAllKeeps(p);
    if awaiter.Some? {
      AwaitKeeps(WakeAll(p.(life := Stopping)), awaiter.value);
    }
  }

  lemma RecheckKeeps(p: Pool, a: Id)
    requires Inv(p) && a in p.awakeAwaiters
    ensures Inv(Await(p.(awakeAwaiters := p.awakeAwaiters - {a}), a))
  {}

  /** Every step keeps the counters exact, the work conserved, the history ordered. */
  lemma StepKeeps(p: Pool, s: Step, q: Pool)
    requires Inv(p) && Next(p, s, q)
    ensures Inv(q)
  {
    match s
    case Execute(task, spawned, woken) => ExecuteKeeps(p, task, spawned, woken);
    case Look(w, timedOut, woken) => LookKeeps(p, w, timedOut, woken);
    case WakeUp(w) => WakeOneKeeps(p, AWorker(w));
    case Finish(w) => FinishKeeps(p, w);
    case Stop(awaiter) => StopKeeps(p, awaiter);
    case Recheck(a) => RecheckKeeps(p, a);
    case WakeAwaiter(a) => WakeOneKeeps(p, AnAwaiter(a));
  }

  /** Hence so does every run. */
  lemma {:induction false} RunKeeps(states: seq<Pool>, steps: seq<Step>, i: nat)
    requires IsRun(states, steps) && Inv(states[0]) && i < |states|
    ensures Inv(states[i])
    ensures states[i].low == states[0].low && states[i].high == states[0].high
  {
    hide Next; hide Inv;
    if i > 0 {
      RunKeeps(states, steps, i - 1);
      assert Next(states[i - 1], steps[i - 1], states[i]);
      StepKeeps(states[i - 1], steps[i - 1], states[i]);
      ConfigKept(states[i - 1], steps[i - 1], states[i]);
    }
  }

  lemma ConfigKept(p: Pool, s: Step, q: Pool)
    requires Next(p, s, q)
    ensures q.low == p.low && q.high == p.high && q.maxQueue == p.maxQueue
  {}

  /** No run strands an accepted task: while tasks are queued some worker is not parked. */
  lemma NeverStranded(ids: set<Id>, high: nat, maxQueue: nat, states: seq<Pool>, steps: seq<Step>)
    requires |ids| + high > 0
    requires IsRun(states, steps) && states[0] == Start(|ids|, high, maxQueue, ids)
    ensures forall i :: 0 <= i < |states| && states[i].tasks != [] ==>
                          states[i].awake != {} || states[i].executing != map[]
  {
    StartKeeps(|ids|, high, maxQueue, ids);
    forall i | 0 <= i < |states| ensures Inv(states[i]) && states[i].low + states[i].high > 0 {
      RunKeeps(states, steps, i);
    }
  }

  /** With both watermarks at zero no run ever has a worker, though tasks are accepted. */
  lemma ZeroWatermarksStrand(maxQueue: nat, task: Task, states: seq<Pool>, steps: seq<Step>)
    requires maxQueue > 0
    requires IsRun(states, steps) && states[0] == Start(0, 0, maxQueue, {})
    ensures forall i :: 0 <= i < |states| ==> states[i].awake == {} && states[i].executing == map[]
    ensures Next(states[0], Execute(task, 0, Nobody), ExecuteStep(states[0], task, 0, Nobody))
    ensures ExecuteStep(states[0], task, 0, Nobody).tasks == [task]
  {
    StartKeeps(0, 0, maxQueue, {});
    forall i | 0 <= i < |states| ensures states[i].awake == {} && states[i].executing == map[] {
      RunKeeps(states, steps, i);
    }
  }

  /** A call of Execute while the pool runs and the queue has room puts the task at the end of the queue, and starts a
      worker exactly if nobody sleeps and there are fewer than the high watermark; any other call changes nothing. */
  lemma ExecuteDecides(p: Pool, task: Task, spawned: Id, woken: Waiter, q: Pool)
    requires Next(p, Execute(task, spawned, woken), q)
    ensures if p.life == Run && |p.tasks| < p.maxQueue then
              var starts := p.sleeping == 0 && p.running < p.high;
              && q.tasks == p.tasks + [task] && q.accepted == p.accepted + [task]
              && q.life == Run && q.started == p.started && q.executing == p.executing && q.finished == p.finished
              && q.running == p.running + (if starts then 1 else 0)
              && q.sleeping == p.sleeping + (if starts then 1 else 0)
              && (starts ==> spawned in q.awake)
              && (starts || p.sleeping != 0 ==> woken == Nobody ==> p.parked == {} && p.parkedAwaiters == {})
              && (starts || p.sleeping != 0 ==> woken.AWorker? ==> woken.w in p.parked && woken.w in q.awake)
            else q == p
  {}

  /** Only Execute accepts tasks, and only in this way. */
  lemma OnlyExecuteAccepts(p: Pool, s: Step, q: Pool)
    requires Next(p, s, q) && !s.Execute?
    ensures q.accepted == p.accepted
  {}

  /** In every state a run can reach in which the pool runs and the queue has room, a task can be handed in, and
      whichever way the call goes it is queued behind the others. */
  lemma RoomIsAccepted(ids: set<Id>, high: nat, maxQueue: nat, states: seq<Pool>, steps: seq<Step>, task: Task, spawned: Id)
      returns (who: Waiter, next: Pool)
    requires IsRun(states, steps) && states[0] == Start(|ids|, high, maxQueue, ids)
    requires var p := states[|steps|];
             && p.life == Run && |p.tasks| < maxQueue
             && spawned !in p.parked && spawned !in p.awake && spawned !in p.executing
    ensures IsRun(states + [next], steps + [Execute(task, spawned, who)])
    ensures forall woken, q :: Next(states[|steps|], Execute(task, spawned, woken), q) ==>
                                 q.tasks == states[|steps|].tasks + [task] && q.accepted == states[|steps|].accepted + [task]
  {
    var p := states[|steps|];
    who := SomebodyMayWake(p);
    next := ExecuteStep(p, task, spawned, who);
    assert Next(p, Execute(task, spawned, who), next);
    RunConfig(states, steps, |steps|);
    forall woken, q | Next(p, Execute(task, spawned, woken), q)
      ensures q.tasks == p.tasks + [task] && q.accepted == p.accepted + [task]
    {
      ExecuteDecides(p, task, spawned, woken, q);
    }
    hide Next;
    var states', steps' := states + [next], steps + [Execute(task, spawned, who)];
    forall i | 0 <= i < |steps'| ensures Next(states'[i], steps'[i], states'[i + 1]) {
      if i < |steps| {
        assert Next(states[i], steps[i], states[i + 1]);
      }
    }
  }

  lemma {:induction false} RunConfig(states: seq<Pool>, steps: seq<Step>, i: nat)
    requires IsRun(states, steps) && i <= |steps|
    ensures states[i].low == states[0].low && states[i].high == states[0].high && states[i].maxQueue == states[0].maxQueue
  {
    hide Next;
    if i > 0 {
      RunConfig(states, steps, i - 1);
      assert Next(states[i - 1], steps[i - 1], states[i]);
      ConfigKept(states[i - 1], steps[i - 1], states[i]);
    }
  }

  /** What a worker does that looks at the queue: it takes the oldest task if there is one; without one it parks
      while the pool runs and its time is not up; it leaves when the pool stops or when, its time being up, as many
      others as the low watermark asks for are not executing; else it looks again. */
  lemma LookDecides(p: Pool, w: Id, timedOut: bool, woken: Waiter, q: Pool)
    requires Inv(p) && Next(p, Look(w, timedOut, woken), q)
    ensures w in q.executing <==> p.tasks != []
    ensures w in q.parked <==> p.tasks == [] && p.life == Run && !timedOut
    ensures w in q.awake <==> p.tasks == [] && p.life == Run && timedOut && |p.parked| + |p.awake| <= p.low
    ensures p.tasks != [] ==> q.tasks == p.tasks[1..] && q.executing[w] == p.started && q.started == p.started + 1
    ensures p.tasks == [] ==> q.tasks == [] && q.executing == p.executing && q.started == p.started
    ensures q.running == p.running - (if q.IsWorker(w) then 0 else 1)
    ensures w in q.awake ==> q == p
    ensures q.life == if p.tasks == [] && p.life != Run && p.running == 1 then Stopped else p.life
  {
    hide HistoryOrdered;
    if p.tasks == [] && p.life != Run {
      WokenIsAnother(p, w, woken);
    }
  }

  lemma WokenIsAnother(p: Pool, w: Id, woken: Waiter)
    requires CountersExact(p) && WorkConserved(p) && p.life != Run && w in p.awake && MayWake(p, woken)
    ensures !woken.AWorker?
  {}

  /** A wait that ends, by itself or by a time-out, makes its thread look again. */
  lemma WaitsEnd(p: Pool, s: Step, q: Pool)
    requires Next(p, s, q) && (s.WakeUp? || s.WakeAwaiter?)
    ensures s.WakeUp? ==> q.awake == p.awake + {s.w} && q.parked == p.parked - {s.w}
    ensures s.WakeAwaiter? ==>
              q.awakeAwaiters == p.awakeAwaiters + {s.a} && q.parkedAwaiters == p.parkedAwaiters - {s.a}
  {}

  /** An idle worker above the low watermark goes when its time is up; at the watermark it stays. */
  lemma IdleWorkerLeaves(p: Pool, w: Id, woken: Waiter, q: Pool)
    requires Inv(p) && Next(p, Look(w, true, woken), q) && p.tasks == [] && p.life == Run
    ensures |p.parked| + |p.awake| > p.low ==>
              !q.IsWorker(w) && q.running == p.running - 1 && q.sleeping == p.sleeping - 1 && q.life == Run
    ensures |p.parked| + |p.awake| <= p.low ==> q == p
  {
    hide HistoryOrdered; hide WorkConserved; hide AwaitersOrdered;
  }

  /** What the workers still have to do. */
  ghost function Work(p: Pool): nat {
    2 * |p.tasks| + 2 * |p.executing| + |p.awake| + 2 * |p.parked|
  }

  predicate ByWorker(s: Step) { s.Look? || s.WakeUp? || s.Finish? }

  function WorkerSteps(steps: seq<Step>): nat {
    if steps == [] then 0
    else WorkerSteps(steps[..|steps| - 1]) + if ByWorker(steps[|steps| - 1]) then 1 else 0
  }

  lemma LookDrains(p: Pool, w: Id, timedOut: bool, woken: Waiter)
    requires CountersExact(p) && WorkConserved(p) && !p.life.Run? && w in p.awake && MayWake(p, woken)
    ensures Work(LookStep(p, w, timedOut, woken)) < Work(p)
  {
    if p.tasks != [] {
      assert p.executing[w := p.started].Keys == p.executing.Keys + {w};
    }
  }

  lemma FinishDrains(p: Pool, w: Id)
    requires CountersExact(p) && w in p.executing
    ensures Work(FinishStep(p, w)) < Work(p)
  {
    assert (p.executing - {w}).Keys == p.executing.Keys - {w};
  }

  /** Once stopping, every step of a worker uses work up and no other step adds any. */
  lemma StopDrainsStep(p: Pool, s: Step, q: Pool)
    requires CountersExact(p) && WorkConserved(p) && !p.life.Run? && Next(p, s, q)
    ensures !q.life.Run? && q.accepted == p.accepted
    ensures Work(q) + (if ByWorker(s) then 1 else 0) <= Work(p)
  {
    if s.Look? {
      LookDrains(p, s.w, s.timedOut, s.woken);
    } else if s.Finish? {
      FinishDrains(p, s.w);
    } else {
      OthersAddNoWork(p, s, q);
    }
  }

  lemma OthersAddNoWork(p: Pool, s: Step, q: Pool)
    requires CountersExact(p) && WorkConserved(p) && !p.life.Run? && Next(p, s, q) && !ByWorker(s)
    ensures !q.life.Run? && q.accepted == p.accepted && Work(q) <= Work(p)
  {}

  /** So a bounded number of worker steps drains the pool. */
  lemma {:induction false} StopDrains(states: seq<Pool>, steps: seq<Step>, i: nat)
    requires IsRun(states, steps) && Inv(states[0]) && !states[0].life.Run? && i <= |steps|
    ensures !states[i].life.Run? && states[i].accepted == states[0].accepted
    ensures WorkerSteps(steps[..i]) + Work(states[i]) <= Work(states[0])
  {
    hide Next; hide Work; hide CountersExact; hide WorkConserved; hide HistoryOrdered; hide AwaitersOrdered;
    if i > 0 {
      StopDrains(states, steps, i - 1);
      RunKeeps(states, steps, i - 1);
      assert Next(states[i - 1], steps[i - 1], states[i]);
      StopDrainsStep(states[i - 1], steps[i - 1], states[i]);
      assert steps[..i][..i - 1] == steps[..i - 1];
    }
  }

  function Looks(steps: seq<Step>): nat {
    if steps == [] then 0
    else Looks(steps[..|steps| - 1]) + if steps[|steps| - 1].Look? then 1 else 0
  }

  lemma LookTakes(p: Pool, s: Step, q: Pool)
    requires Next(p, s, q)
    ensures q.started == if s.Look? && p.tasks != [] then p.started + 1 else p.started
    ensures p.accepted <= q.accepted
  {}

  /** The queue is served by the looks at it: as long as there have been no more of them than tasks were queued, each
      has started one, in order; the task at position n is started by look number n + 1. */
  lemma {:induction false} StartedByLooks(states: seq<Pool>, steps: seq<Step>, i: nat)
    requires IsRun(states, steps) && Inv(states[0]) && i <= |steps| && Looks(steps[..i]) <= |states[0].tasks|
    ensures states[i].started == states[0].started + Looks(steps[..i])
    ensures states[0].accepted <= states[i].accepted
    ensures states[0].tasks[Looks(steps[..i])..] <= states[i].tasks
  {
    hide Next; hide CountersExact; hide WorkConserved; hide AwaitersOrdered;
    if i > 0 {
      assert steps[..i][..i - 1] == steps[..i - 1];
      StartedByLooks(states, steps, i - 1);
      assert Next(states[i - 1], steps[i - 1], states[i]);
      LookTakes(states[i - 1], steps[i - 1], states[i]);
    } else {
      assert steps[..0] == [];
    }
    RunKeeps(states, steps, i);
    QueueIsRest(states[0], states[i], Looks(steps[..i]));
  }

  lemma QueueIsRest(p: Pool, q: Pool, looks: nat)
    requires HistoryOrdered(p) && HistoryOrdered(q) && p.accepted <= q.accepted
    requires looks <= |p.tasks| && q.started == p.started + looks
    ensures p.tasks[looks..] <= q.tasks
  {}

  /** The look that starts a given task. */
  lemma StartedByLook(states: seq<Pool>, steps: seq<Step>, i: nat, n: nat)
    requires IsRun(states, steps) && Inv(states[0]) && i < |steps| && n < |states[0].tasks|
    requires steps[i].Look? && Looks(steps[..i]) == n
    ensures states[i].tasks != [] && states[i].tasks[0] == states[0].tasks[n]
    ensures steps[i].w in states[i + 1].executing && states[i + 1].executing[steps[i].w] == states[0].started + n
  {
    StartedByLooks(states, steps, i);
    assert Next(states[i], steps[i], states[i + 1]);
    assert states[0].tasks[n..][0] == states[0].tasks[n];
    hide Inv; hide IsRun;
    HeadTaken(states[i], steps[i], states[i + 1]);
  }

  lemma HeadTaken(p: Pool, s: Step, q: Pool)
    requires Next(p, s, q) && s.Look? && p.tasks != []
    ensures s.w in q.executing && q.executing[s.w] == p.started
  {}

  ghost predicate WorkerCanMove(p: Pool) {
    exists s :: ByWorker(s) && Enabled(p, s)
  }

  lemma Pick<T>(s: set<T>) returns (x: T)
    requires s != {}
    ensures x in s
  {
    x :| x in s;
  }

  lemma SomebodyMayWake(p: Pool) returns (who: Waiter)
    ensures MayWake(p, who)
  {
    if p.parked != {} {
      var w := Pick(p.parked);
      who := AWorker(w);
    } else if p.parkedAwaiters != {} {
      var a := Pick(p.parkedAwaiters);
      who := AnAwaiter(a);
    } else {
      who := Nobody;
    }
  }

  /** While workers are left one of them has a step to take. */
  lemma WorkersCanMove(p: Pool)
    requires CountersExact(p)
    ensures WorkerCanMove(p) <==> p.running > 0
  {
    if p.running > 0 {
      var who := SomebodyMayWake(p);
      if p.awake != {} {
        var w := Pick(p.awake);
        assert Enabled(p, Look(w, true, who));
      } else if p.parked != {} {
        var w := Pick(p.parked);
        assert Enabled(p, WakeUp(w));
      } else {
        assert p.executing.Keys != {};
        var w := Pick(p.executing.Keys);
        assert Enabled(p, Finish(w));
      }
    }
  }

  /** Where the draining ends: without workers, every accepted task has been started, in order, and
      has finished. */
  lemma DrainedIsDone(p: Pool)
    requires CountersExact(p) && WorkConserved(p) && HistoryOrdered(p)
    requires p.low + p.high > 0 && p.running == 0
    ensures AllDone(p)
  {
    assert p.executing.Keys == {};
    forall n: nat | n < p.started ensures n in p.finished {
      assert !InFlight(p.executing, n);
    }
  }

  ghost predicate AllDone(p: Pool) {
    && p.tasks == []
    && p.started == |p.accepted|
    && (forall n: nat :: n < |p.accepted| ==> n in p.finished)
  }

  /** Stop(true) returns only when every accepted task has finished. */
  lemma AwaitReturnsDone(p: Pool, s: Step, q: Pool)
    requires Inv(p) && p.low + p.high > 0 && Next(p, s, q)
    requires q.returned != p.returned
    ensures q.running == 0 && AllDone(q)
  {
    StepKeeps(p, s, q);
    ConfigKept(p, s, q);
    assert q.running == 0;
    DrainedIsDone(q);
  }

  lemma RestEmpty(s: set<Id>, a: Id)
    requires a in s
    ensures s - {a} == {} <==> |s| <= 1
  {
    assert |s - {a}| == |s| - 1;
  }

  lemma LastLook(p: Pool, w: Id, timedOut: bool, woken: Waiter)
    requires CountersExact(p) && AwaitersOrdered(p) && WorkConserved(p)
    requires w in p.awake && MayWake(p, woken) && p.running > 0 && LookStep(p, w, timedOut, woken).running == 0
    ensures LookStep(p, w, timedOut, woken).parkedAwaiters == WakeOne(p, woken).parkedAwaiters
  {}

  lemma OnlyLookEmpties(p: Pool, s: Step, q: Pool)
    requires Next(p, s, q) && p.running > 0 && q.running == 0
    ensures s.Look?
  {}

  /** The last worker out wakes one awaiter, so it strands an awaiter exactly when several are parked. */
  lemma LastWorkerOut(p: Pool, s: Step, q: Pool)
    requires CountersExact(p) && AwaitersOrdered(p) && WorkConserved(p)
    requires Next(p, s, q) && p.running > 0 && q.running == 0
    ensures q.parkedAwaiters == {} <==> |p.parkedAwaiters| <= 1
  {
    OnlyLookEmpties(p, s, q);
    LastLook(p, s.w, s.timedOut, s.woken);
    if s.woken.AnAwaiter? {
      RestEmpty(p.parkedAwaiters, s.woken.a);
    } else if s.woken.AWorker? {
      assert p.life.Run?;
    }
  }

  ghost function Awaiters(p: Pool): set<Id> { p.parkedAwaiters + p.awakeAwaiters + p.returned }

  function AwaitCalls(steps: seq<Step>): nat {
    if steps == [] then 0
    else
      var last := steps[|steps| - 1];
      AwaitCalls(steps[..|steps| - 1]) + if last.Stop? && last.awaiter.Some? then 1 else 0
  }

  lemma AwaitersGrow(p: Pool, s: Step, q: Pool)
    requires Next(p, s, q)
    ensures Awaiters(q) == Awaiters(p) + if s.Stop? && s.awaiter.Some? then {s.awaiter.value} else {}
  {}

  lemma AwaiterStep(p: Pool, s: Step, q: Pool)
    requires CountersExact(p) && AwaitersOrdered(p) && WorkConserved(p)
    requires Next(p, s, q) && |p.parkedAwaiters| <= 1
    requires p.running >= 0 && q.running >= 0
    requires p.parkedAwaiters != {} ==> p.running > 0
    ensures q.parkedAwaiters != {} ==> q.running > 0
  {
    hide Next; hide CountersExact; hide WorkConserved; hide AwaitersOrdered;
    if q.running == 0 {
      if p.running > 0 {
        LastWorkerOut(p, s, q);
      } else {
        NobodyLeftParks(p, s, q);
      }
    }
  }

  lemma NobodyLeftParks(p: Pool, s: Step, q: Pool)
    requires Next(p, s, q) && p.parkedAwaiters == {} && p.running == 0 && q.running == 0
    ensures q.parkedAwaiters == {}
  {}

  /** While Stop(true) is called at most once, its caller is never parked without a worker to wake it. */
  lemma {:induction false} SingleAwaiterWoken(ids: set<Id>, high: nat, maxQueue: nat, states: seq<Pool>, steps: seq<Step>, i: nat)
    requires IsRun(states, steps) && states[0] == Start(|ids|, high, maxQueue, ids)
    requires i <= |steps| && AwaitCalls(steps[..i]) <= 1
    ensures |Awaiters(states[i])| <= AwaitCalls(steps[..i])
    ensures states[i].parkedAwaiters != {} ==> states[i].running > 0
  {
    hide Next; hide CountersExact; hide WorkConserved; hide HistoryOrdered; hide AwaitersOrdered;
    StartKeeps(|ids|, high, maxQueue, ids);
    if i > 0 {
      assert steps[..i][..i - 1] == steps[..i - 1];
      SingleAwaiterWoken(ids, high, maxQueue, states, steps, i - 1);
      RunKeeps(states, steps, i - 1);
      RunKeeps(states, steps, i);
      NoWorkNoWorkers(states[i - 1]);
      NoWorkNoWorkers(states[i]);
      assert Next(states[i - 1], steps[i - 1], states[i]);
      AwaitersGrow(states[i - 1], steps[i - 1], states[i]);
      SubsetSize(states[i - 1].parkedAwaiters, Awaiters(states[i - 1]));
      AwaiterStep(states[i - 1], steps[i - 1], states[i]);
    }
  }

  lemma {:induction false} Suffix(states: seq<Pool>, steps: seq<Step>, j: nat)
    requires IsRun(states, steps) && j <= |steps|
    ensures IsRun(states[j..], steps[j..])
  {
    hide Next;
    forall i | 0 <= i < |steps[j..]| ensures Next(states[j..][i], steps[j..][i], states[j..][i + 1]) {
      assert Next(states[j + i], steps[j + i], states[j + i + 1]);
    }
  }

  /** Shutdown: at most as many worker steps follow a Stop as there is work; and when no worker can move any
      more, or that many steps have been taken, every accepted task has been done, no thread runs and nobody
      is parked. */
  lemma ShutdownCompletes(ids: set<Id>, high: nat, maxQueue: nat, states: seq<Pool>, steps: seq<Step>, j: nat)
    requires |ids| + high > 0
    requires IsRun(states, steps) && states[0] == Start(|ids|, high, maxQueue, ids)
    requires j <= |steps| && !states[j].life.Run? && AwaitCalls(steps) <= 1
    ensures WorkerSteps(steps[j..]) <= Work(states[j])
    ensures var last := states[|steps|];
            && last.accepted == states[j].accepted
            && (!WorkerCanMove(last) || WorkerSteps(steps[j..]) == Work(states[j]) ==>
                  last.running == 0 && AllDone(last) && last.parked == {} && last.parkedAwaiters == {})
  {
    hide Next; hide CountersExact; hide WorkConserved; hide HistoryOrdered; hide AwaitersOrdered; hide WorkerCanMove;
    hide Work; hide AllDone;
    var n := |steps|;
    var last := states[n];
    StartKeeps(|ids|, high, maxQueue, ids);
    RunKeeps(states, steps, j);
    RunKeeps(states, steps, n);
    Suffix(states, steps, j);
    StopDrains(states[j..], steps[j..], n - j);
    assert steps[j..][..n - j] == steps[j..] && states[j..][n - j] == last;
    WorkersCanMove(last);
    assert steps[..n] == steps;
    SingleAwaiterWoken(ids, high, maxQueue, states, steps, n);
    if !WorkerCanMove(last) || Work(last) == 0 {
      NoWorkNoWorkers(last);
      DrainedIsDone(last);
      StoppedUnparks(last);
    }
  }

  lemma StoppedUnparks(p: Pool)
    requires WorkConserved(p) && !p.life.Run?
    ensures p.parked == {}
  {}

  lemma NoWorkNoWorkers(p: Pool)
    requires CountersExact(p)
    ensures p.running >= 0 && (Work(p) == 0 ==> p.running == 0)
  {}

  lemma TwoCalls(steps: seq<Step>)
    requires |steps| == 4 && steps[0] == Stop(Some(0)) && steps[1] == Stop(Some(1))
    requires !steps[2].Stop? && !steps[3].Stop?
    ensures AwaitCalls(steps) == 2
  {
    assert steps[..3][..2] == [steps[0], steps[1]];
    assert steps[..3][..2][..1] == [steps[0]];
    assert AwaitCalls([steps[0]]) == AwaitCalls([]) + 1;
    assert AwaitCalls(steps[..3][..2]) == 2;
  }

  lemma TwoStops(p0: Pool, p1: Pool, p2: Pool)
    requires p0 == Start(1, p0.high, p0.maxQueue, {0})
    requires p1 == StopStep(p0, Some(0)) && p2 == StopStep(p1, Some(1))
    ensures Next(p0, Stop(Some(0)), p1) && Next(p1, Stop(Some(1)), p2)
    ensures p2.tasks == [] && p2.life == Stopping && p2.running == 1 && p2.sleeping == 1 && p2.awake == {0} && p2.parked == {}
    ensures p2.parkedAwaiters == {1} && p2.awakeAwaiters == {0}
  {}

  lemma OneLook(p2: Pool, p3: Pool, p4: Pool)
    requires p2.tasks == [] && p2.life == Stopping && p2.running == 1 && p2.sleeping == 1 && p2.awake == {0} && p2.parked == {}
    requires p2.parkedAwaiters == {1} && p2.awakeAwaiters == {0}
    requires p3 == Await(p2.(awakeAwaiters := p2.awakeAwaiters - {0}), 0) && p4 == LookStep(p3, 0, false, AnAwaiter(0))
    ensures Next(p2, Recheck(0), p3) && Next(p3, Look(0, false, AnAwaiter(0)), p4)
    ensures p4.running == 0 && p4.parkedAwaiters == {1}
  {
    assert p3.parkedAwaiters == {0, 1};
  }

  /** With two awaiters one of them can be left parked after the last worker has gone. */
  lemma TwoAwaitersStrand(high: nat, maxQueue: nat) returns (states: seq<Pool>, steps: seq<Step>)
    ensures IsRun(states, steps) && states[0] == Start(1, high, maxQueue, {0})
    ensures AwaitCalls(steps) == 2
    ensures states[|steps|].running == 0 && states[|steps|].parkedAwaiters == {1}
  {
    var p0 := Start(1, high, maxQueue, {0});
    var p1 := StopStep(p0, Some(0));
    var p2 := StopStep(p1, Some(1));
    var p3 := Await(p2.(awakeAwaiters := p2.awakeAwaiters - {0}), 0);
    var p4 := LookStep(p3, 0, false, AnAwaiter(0));
    assert p0.high == high && p0.maxQueue == maxQueue;
    hide Next; hide Start; hide StopStep; hide Await; hide LookStep;
    TwoStops(p0, p1, p2);
    OneLook(p2, p3, p4);
    states := [p0, p1, p2, p3, p4];
    steps := [Stop(Some(0)), Stop(Some(1)), Recheck(0), Look(0, false, AnAwaiter(0))];
    TwoCalls(steps);
  }

  datatype Verdict = Parks | Takes(task: Task) | Exits | LooksAgain

  datatype Notification = NotifiedNobody | NotifiedOne

  /** The pool's own fields, as the regions under its mutex change them.  The threads themselves are
      the system's; pool records where each of them is. */
  class Executor {
    const lowWatermark: nat
    const hightWatermark: nat
    const maxQueueSize: nat
    var tasks: seq<Task>
    var state: Life
    var runningThreads: int
    var sleepingWorkers: int
    ghost var pool: Pool

    ghost predicate Agrees()
      reads this
    {
      && pool.low == lowWatermark && pool.high == hightWatermark && pool.maxQueue == maxQueueSize
      && pool.tasks == tasks && pool.life == state
      && pool.running == runningThreads && pool.sleeping == sleepingWorkers
    }

    constructor (low: nat, high: nat, maxQueue: nat, ghost ids: set<Id>)
      requires |ids| == low
      ensures Agrees() && pool == Start(low, high, maxQueue, ids) && Inv(pool)
      ensures lowWatermark == low && hightWatermark == high && maxQueueSize == maxQueue
      ensures tasks == [] && state == Run && runningThreads == low && sleepingWorkers == low && pool.awake == ids
    {
      lowWatermark, hightWatermark, maxQueueSize := low, high, maxQueue;
      tasks, state, runningThreads, sleepingWorkers := [], Run, low, low;
      pool := Start(low, high, maxQueue, ids);
    }

    /** notify_one of the condition variable, which picks woken. */
    method NotifyOne(ghost woken: Waiter)
      requires MayWake(pool, woken)
      modifies this`pool
      ensures pool == WakeOne(old(pool), woken)
    {
      pool := WakeOne(pool, woken);
    }

    /** notify_all of the condition variable. */
    method NotifyAll()
      modifies this`pool
      ensures pool == WakeAll(old(pool))
    {
      pool := WakeAll(pool);
    }

    /** A new thread, about to look at the queue. */
    method StartThread(ghost spawned: Id)
      modifies this`pool
      ensures pool == old(pool).(awake := old(pool).awake + {spawned})
    {
      pool := pool.(awake := pool.awake + {spawned});
    }

    method Submit(task: Task, ghost spawned: Id, ghost woken: Waiter)
        returns (accepted: bool, started: bool, notification: Notification)
      requires Agrees() && spawned !in pool.parked && spawned !in pool.awake && spawned !in pool.executing
      requires match woken
               case AWorker(v) => v in pool.parked
               case AnAwaiter(a) => a in pool.parkedAwaiters
               case Nobody => pool.parked == {} && pool.parkedAwaiters == {}
      modifies this`tasks, this`runningThreads, this`sleepingWorkers, this`pool
      ensures Agrees()
      ensures Next(old(pool), Execute(task, spawned, woken), pool)
      ensures accepted <==> state == Run && |old(tasks)| < maxQueueSize
      ensures tasks == if accepted then old(tasks) + [task] else old(tasks)
      ensures runningThreads == old(runningThreads) + (if started then 1 else 0)
      ensures sleepingWorkers == old(sleepingWorkers) + (if started then 1 else 0)
      ensures pool.accepted == if accepted then old(pool.accepted) + [task] else old(pool.accepted)
      ensures started ==> spawned in pool.awake
      ensures notification == NotifiedOne ==>
                && (woken.AWorker? ==> woken.w in pool.awake && woken.w !in pool.parked)
                && (woken.AnAwaiter? ==> woken.a in pool.awakeAwaiters && woken.a !in pool.parkedAwaiters)
      ensures started <==> accepted && old(sleepingWorkers) == 0 && old(runningThreads) < hightWatermark
      ensures notification == if accepted && (old(sleepingWorkers) != 0 || started) then NotifiedOne else NotifiedNobody
    {
      accepted, started, notification := false, false, NotifiedNobody;
      if state != Run {
        return;
      }
      if |tasks| < maxQueueSize {
        tasks := tasks + [task];
        pool := pool.(tasks := tasks, accepted := pool.accepted + [task]);
      } else {
        return;
      }
      accepted := true;
      if sleepingWorkers == 0 {
        if runningThreads < hightWatermark {
          StartThread(spawned);
          runningThreads := runningThreads + 1;
          sleepingWorkers := sleepingWorkers + 1;
          pool := pool.(running := runningThreads, sleeping := sleepingWorkers);
          NotifyOne(woken);
          started, notification := true, NotifiedOne;
        }
      } else {
        NotifyOne(woken);
        notification := NotifiedOne;
      }
    }

    /** One pass of a worker through the first region of its loop. */
    method LookForTask(ghost w: Id, timedOut: bool, ghost woken: Waiter)
        returns (verdict: Verdict, notification: Notification)
      requires Agrees() && w in pool.awake
      requires match woken
               case AWorker(v) => v in pool.parked
               case AnAwaiter(a) => a in pool.parkedAwaiters
               case Nobody => pool.parked == {} && pool.parkedAwaiters == {}
      modifies this`tasks, this`state, this`runningThreads, this`sleepingWorkers, this`pool
      ensures Agrees()
      ensures Next(old(pool), Look(w, timedOut, woken), pool)
      ensures verdict.Takes? <==> old(tasks) != []
      ensures verdict.Parks? <==> old(tasks) == [] && old(state) == Run && !timedOut
      ensures verdict.Exits? <==>
                old(tasks) == [] && (old(state) != Run || (timedOut && old(sleepingWorkers) - 1 >= lowWatermark))
      ensures verdict.Takes? ==>
                verdict.task == old(tasks)[0] && w in pool.executing && pool.executing[w] == old(pool.started)
      ensures verdict.Parks? ==> w in pool.parked
      ensures verdict.LooksAgain? ==> pool == old(pool)
      ensures tasks == if verdict.Takes? then old(tasks)[1..] else old(tasks)
      ensures sleepingWorkers == old(sleepingWorkers) - (if verdict.Takes? || verdict.Exits? then 1 else 0)
      ensures runningThreads == old(runningThreads) - (if verdict.Exits? then 1 else 0)
      ensures state == if notification == NotifiedOne then Stopped else old(state)
      ensures notification == NotifiedOne && woken.AnAwaiter? ==>
                woken.a in pool.awakeAwaiters && woken.a !in pool.parkedAwaiters
      ensures notification == if verdict.Exits? && old(state) != Run && runningThreads == 0 then NotifiedOne else NotifiedNobody
    {
      notification := NotifiedNobody;
      if tasks == [] && state == Run && !timedOut {
        pool := pool.(awake := pool.awake - {w}, parked := pool.parked + {w});
        return Parks, notification;
      }
      sleepingWorkers := sleepingWorkers - 1;
      if tasks != [] {
        verdict := Takes(tasks[0]);
        tasks := tasks[1..];
        pool := pool.(tasks := tasks, sleeping := sleepingWorkers, awake := pool.awake - {w},
                      executing := pool.executing[w := pool.started], started := pool.started + 1);
      } else {
        if state != Run {
          runningThreads := runningThreads - 1;
          pool := pool.(running := runningThreads, sleeping := sleepingWorkers, awake := pool.awake - {w});
          if runningThreads == 0 {
            state := Stopped;
            pool := pool.(life := state);
            NotifyOne(woken);
            notification := NotifiedOne;
          }
          return Exits, notification;
        }
        if sleepingWorkers >= lowWatermark {
          runningThreads := runningThreads - 1;
          pool := pool.(running := runningThreads, sleeping := sleepingWorkers, awake := pool.awake - {w});
          return Exits, notification;
        }
        sleepingWorkers := sleepingWorkers + 1;
        return LooksAgain, notification;
      }
    }

    method TaskDone(ghost w: Id)
      requires Agrees() && w in pool.executing
      modifies this`sleepingWorkers, this`pool
      ensures Agrees()
      ensures sleepingWorkers == old(sleepingWorkers) + 1
      ensures w in pool.awake && w !in pool.executing && pool.finished == old(pool.finished) + {old(pool.executing)[w]}
      ensures Next(old(pool), Finish(w), pool)
    {
      sleepingWorkers := sleepingWorkers + 1;
      pool := pool.(executing := pool.executing - {w}, awake := pool.awake + {w}, sleeping := sleepingWorkers,
                    finished := pool.finished + {pool.executing[w]});
    }

    /** Stop up to its first wait; an awaiter waits while threads run. */
    method RequestStop(awaiter: Option<Id>) returns (waits: bool)
      requires Agrees()
      requires awaiter.Some? ==>
                 var a := awaiter.value;
                 a !in pool.parkedAwaiters && a !in pool.awakeAwaiters && a !in pool.returned
      modifies this`state, this`pool
      ensures Agrees()
      ensures state == Stopping && pool.accepted == old(pool.accepted)
      ensures pool.parked == {} && pool.awake == old(pool.awake) + old(pool.parked)
      ensures pool.awakeAwaiters == old(pool.awakeAwaiters) + old(pool.parkedAwaiters)
      ensures awaiter.Some? && !waits ==> awaiter.value in pool.returned
      ensures Next(old(pool), Stop(awaiter), pool)
      ensures waits <==> awaiter.Some? && runningThreads > 0
      ensures waits <==> awaiter.Some? && awaiter.value in pool.parkedAwaiters
    {
      state := Stopping;
      pool := pool.(life := state);
      NotifyAll();
      waits := false;
      if awaiter.Some? {
        waits := TestRunning(awaiter.value);
      }
    }

    /** The test of the loop in Stop(true): the awaiter parks while threads run and returns otherwise. */
    method TestRunning(ghost a: Id) returns (waits: bool)
      requires Agrees() && a !in pool.parkedAwaiters
      modifies this`pool
      ensures Agrees() && pool == Await(old(pool), a)
      ensures waits <==> runningThreads > 0
    {
      waits := runningThreads > 0;
      if waits {
        pool := pool.(parkedAwaiters := pool.parkedAwaiters + {a});
      } else {
        pool := pool.(returned := pool.returned + {a});
      }
    }

    /** A later turn of that loop, after the awaiter has been woken. */
    method AwaitAgain(ghost a: Id) returns (waits: bool)
      requires Agrees() && AwaitersOrdered(pool) && a in pool.awakeAwaiters
      modifies this`pool
      ensures Agrees()
      ensures if waits then a in pool.parkedAwaiters else a in pool.returned
      ensures Next(old(pool), Recheck(a), pool)
      ensures waits <==> runningThreads > 0
    {
      pool := pool.(awakeAwaiters := pool.awakeAwaiters - {a});
      waits := TestRunning(a);
    }
  }
}
