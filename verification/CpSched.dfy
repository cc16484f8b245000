/** The copy thread pool of platfree/cpsched.c as a state machine.

    Each step is one lock, unlock, wait, wake, load, store or queue change of
    one thread.  Workers run cpsched_task(), producers run cpsched_schedule(),
    one thread runs cpsched_join().  A waiting thread may wake at any time, so
    signals and broadcasts change nothing.  Memory is sequentially consistent. */
module CpSched {

  /** A task is the address malloc() gave it. */
  type Task = nat

  datatype PoolState = Running | Error | Closed

  datatype Owner = Free | ByWorker(i: nat) | ByProducer(j: nat)

  /** Where a worker is, with its local `task` and `err`. */
  datatype Worker =
    | Lock                             // mtx_lock()
    | Check                            // state != POOL_RUNNING, before waiting
    | Wait                             // cnd_wait(): release and block
    | Blocked                          // in cnd_wait()
    | Relock                           // cnd_wait(): woken
    | Recheck                          // state != POOL_RUNNING, after waiting
    | TestEmpty                        // list_is_empty()
    | Unlink                           // list_last_entry(), list_del()
    | Decrement(task: Task)            // pending -= 1
    | Unlock(task: Task)
    | Copy(task: Task)
    | Release(task: Task, err: bool)   // release_task()
    | Store                            // state := POOL_ERROR
    | Broadcast
    | Terminate                        // terminate_thread: unlock
    | Exited

  datatype Code = Success | Busy | Failed | Terminated

  /** Where a producer is, with its local `task` and `state`. */
  datatype Producer =
    | Idle
    | LoadState
    | LoadPending
    | Alloc
    | Acquire(task: Task)
    | Confirm(task: Task)              // state != POOL_RUNNING, under the lock
    | Append(task: Task)               // list_add_tail()
    | Increment                        // pending += 1
    | Signal
    | Done                             // unlock and return 0
    | Reject(task: Task, seen: PoolState)      // unlock
    | Discard(task: Task, seen: PoolState)     // release_task()
    | Returned(code: Code)

  datatype Joiner = Begin | Announce | Joining(next: nat) | Joined

  /** What happened, in order. */
  datatype Mark =
    | Enqueued(task: Task)
    | Dequeued(task: Task)
    | Ran(task: Task)
    | Freed(task: Task)
    | ErrorStored
    | Exchanged

  const MAX_PENDING := 5
  const UINT := 0x1_0000_0000

  datatype Pool = Pool(
    lock: Owner,
    state: PoolState,
    queue: seq<Task>,
    pending: nat,
    workers: seq<Worker>,
    producers: seq<Producer>,
    joiner: Joiner,
    result: PoolState,     // *res of cpsched_join()
    nextTask: Task,        // next address
    log: seq<Mark>)

  datatype Action = Work(i: nat, err: bool) | Produce(j: nat) | Join

  // ----- steps

  predicate WorkerEnabled(s: Pool, i: nat) {
    i < |s.workers| &&
    match s.workers[i]
    case Lock => s.lock == Free
    case Relock => s.lock == Free
    case Exited => false
    case _ => true
  }

  function At(s: Pool, i: nat, pc: Worker): Pool
    requires i < |s.workers|
  {
    s.(workers := s.workers[i := pc])
  }

  function WorkerStep(s: Pool, i: nat, err: bool): Pool
    requires WorkerEnabled(s, i)
  {
    match s.workers[i]
    case Lock => At(s, i, Check).(lock := ByWorker(i))
    case Check => At(s, i, if s.state != Running then Terminate else Wait)
    case Wait => At(s, i, Blocked).(lock := Free)
    case Blocked => At(s, i, Relock)
    case Relock => At(s, i, Recheck).(lock := ByWorker(i))
    case Recheck => At(s, i, if s.state != Running then Terminate else TestEmpty)
    case TestEmpty => At(s, i, if s.queue == [] then Wait else Unlink)
    case Unlink =>
      if s.queue == [] then s
      else
        var t := s.queue[|s.queue| - 1];
        At(s, i, Decrement(t)).(queue := s.queue[..|s.queue| - 1], log := s.log + [Dequeued(t)])
    case Decrement(t) => At(s, i, Unlock(t)).(pending := (s.pending + UINT - 1) % UINT)
    case Unlock(t) => At(s, i, Copy(t)).(lock := Free)
    case Copy(t) => At(s, i, Release(t, err)).(log := s.log + [Ran(t)])
    case Release(t, e) => At(s, i, if e then Store else Lock).(log := s.log + [Freed(t)])
    case Store => At(s, i, Broadcast).(state := Error, log := s.log + [ErrorStored])
    case Broadcast => At(s, i, Exited)
    case Terminate => At(s, i, Exited).(lock := Free)
    case Exited => s
  }

  predicate ProducerEnabled(s: Pool, j: nat) {
    j < |s.producers| && (s.producers[j].Acquire? ==> s.lock == Free)
  }

  /** What return_state makes of a state that is not running. */
  function Refusal(state: PoolState): Code {
    if state == Error then Failed else Terminated
  }

  function AtP(s: Pool, j: nat, pc: Producer): Pool
    requires j < |s.producers|
  {
    s.(producers := s.producers[j := pc])
  }

  function ProducerStep(s: Pool, j: nat): Pool
    requires ProducerEnabled(s, j)
  {
    match s.producers[j]
    case Idle => AtP(s, j, LoadState)
    case LoadState => AtP(s, j, if s.state != Running then Returned(Refusal(s.state)) else LoadPending)
    case LoadPending => AtP(s, j, if s.pending > MAX_PENDING then Returned(Busy) else Alloc)
    case Alloc => AtP(s, j, Acquire(s.nextTask)).(nextTask := s.nextTask + 1)
    case Acquire(t) => AtP(s, j, Confirm(t)).(lock := ByProducer(j))
    case Confirm(t) => AtP(s, j, if s.state != Running then Reject(t, s.state) else Append(t))
    case Append(t) => AtP(s, j, Increment).(queue := s.queue + [t], log := s.log + [Enqueued(t)])
    case Increment => AtP(s, j, Signal).(pending := (s.pending + 1) % UINT)
    case Signal => AtP(s, j, Done)
    case Done => AtP(s, j, Returned(Success)).(lock := Free)
    case Reject(t, seen) => AtP(s, j, Discard(t, seen)).(lock := Free)
    case Discard(t, seen) => AtP(s, j, Returned(Refusal(seen))).(log := s.log + [Freed(t)])
    case Returned(_) => AtP(s, j, Idle)
  }

  predicate JoinEnabled(s: Pool) {
    match s.joiner
    case Joining(n) => n < |s.workers| ==> s.workers[n] == Exited
    case Joined => false
    case _ => true
  }

  function JoinStep(s: Pool): Pool
    requires JoinEnabled(s)
  {
    match s.joiner
    case Begin => s.(joiner := Announce, result := s.state, state := Closed, log := s.log + [Exchanged])
    case Announce => s.(joiner := Joining(0))
    case Joining(n) => s.(joiner := if n < |s.workers| then Joining(n + 1) else Joined)
    case Joined => s
  }

  predicate Enabled(s: Pool, a: Action) {
    match a
    case Work(i, _) => WorkerEnabled(s, i)
    case Produce(j) => ProducerEnabled(s, j)
    case Join => JoinEnabled(s)
  }

  function Step(s: Pool, a: Action): Pool
    requires Enabled(s, a)
  {
    match a
    case Work(i, err) => WorkerStep(s, i, err)
    case Produce(j) => ProducerStep(s, j)
    case Join => JoinStep(s)
  }

  /** cpsched_deploy(): n workers about to run, nobody scheduling yet. */
  ghost predicate Initial(s: Pool) {
    && s.lock == Free && s.state == Running && s.queue == [] && s.pending == 0
    && (forall i :: 0 <= i < |s.workers| ==> s.workers[i] == Lock)
    && (forall j :: 0 <= j < |s.producers| ==> s.producers[j] == Idle)
    && s.joiner == Begin && s.log == []
    && |s.producers| + MAX_PENDING < UINT - 1
  }

  /** `run` can happen from `s` and ends in `s'`. */
  ghost predicate Reaches(s: Pool, run: seq<Action>, s': Pool)
    decreases |run|
  {
    if run == [] then s' == s
    else Enabled(s, run[0]) && Reaches(Step(s, run[0]), run[1..], s')
  }

  // ----- observations

  /** The pool state was changed by an error or by the exchange. */
  predicate Left(log: seq<Mark>) {
    ErrorStored in log || Exchanged in log
  }

  /** Queue changes after the pool left the running state. */
  function LateMoves(log: seq<Mark>): nat {
    if log == [] then 0
    else
      var init, last := log[..|log| - 1], log[|log| - 1];
      LateMoves(init) + if (last.Enqueued? || last.Dequeued?) && Left(init) then 1 else 0
  }

  /** An error was stored before the exchange. */
  predicate ErrorFirst(log: seq<Mark>) {
    if log == [] then false
    else
      var init, last := log[..|log| - 1], log[|log| - 1];
      ErrorFirst(init) || (last == Exchanged && ErrorStored in init)
  }

  function InHand(w: Worker): set<Task> {
    match w
    case Decrement(t) => {t}
    case Unlock(t) => {t}
    case Copy(t) => {t}
    case Release(t, _) => {t}
    case _ => {}
  }

  function Offered(p: Producer): set<Task> {
    match p
    case Acquire(t) => {t}
    case Confirm(t) => {t}
    case Append(t) => {t}
    case Reject(t, _) => {t}
    case Discard(t, _) => {t}
    case _ => {}
  }

  // ----- the lock

  predicate Holds(w: Worker) {
    match w
    case Lock => false
    case Blocked => false
    case Relock => false
    case Copy(_) => false
    case Release(_, _) => false
    case Store => false
    case Broadcast => false
    case Exited => false
    case _ => true
  }

  predicate HoldsP(p: Producer) {
    match p
    case Confirm(_) => true
    case Append(_) => true
    case Increment => true
    case Signal => true
    case Done => true
    case Reject(_, _) => true
    case _ => false
  }

  ghost predicate Owners(s: Pool) {
    && (forall i :: 0 <= i < |s.workers| ==> (Holds(s.workers[i]) <==> s.lock == ByWorker(i)))
    && (forall j :: 0 <= j < |s.producers| ==> (HoldsP(s.producers[j]) <==> s.lock == ByProducer(j)))
    && (s.lock.ByWorker? ==> s.lock.i < |s.workers|)
    && (s.lock.ByProducer? ==> s.lock.j < |s.producers|)
  }

  /** What a worker's step may touch, and what it does to the lock. */
  lemma WorkerShape(s: Pool, i: nat, err: bool)
    requires WorkerEnabled(s, i)
    ensures var s' := WorkerStep(s, i, err);
            && |s'.workers| == |s.workers| && s'.workers == s.workers[i := s'.workers[i]]
            && s'.producers == s.producers && s'.joiner == s.joiner && s'.result == s.result
            && s'.nextTask == s.nextTask
            && ((s'.lock == s.lock && Holds(s'.workers[i]) == Holds(s.workers[i]))
                || (s.lock == Free && s'.lock == ByWorker(i) && !Holds(s.workers[i]) && Holds(s'.workers[i]))
                || (s'.lock == Free && Holds(s.workers[i]) && !Holds(s'.workers[i])))
  {
  }

  lemma ProducerShape(s: Pool, j: nat)
    requires ProducerEnabled(s, j)
    ensures var s' := ProducerStep(s, j);
            && |s'.producers| == |s.producers| && s'.producers == s.producers[j := s'.producers[j]]
            && s'.workers == s.workers && s'.joiner == s.joiner && s'.result == s.result
            && s.state == s'.state && s.nextTask <= s'.nextTask
            && ((s'.lock == s.lock && HoldsP(s'.producers[j]) == HoldsP(s.producers[j]))
                || (s.lock == Free && s'.lock == ByProducer(j) && !HoldsP(s.producers[j]) && HoldsP(s'.producers[j]))
                || (s'.lock == Free && HoldsP(s.producers[j]) && !HoldsP(s'.producers[j])))
  {
  }

  lemma OwnersKept(s: Pool, a: Action)
    requires Owners(s) && Enabled(s, a)
    ensures Owners(Step(s, a))
  {
    match a
    case Work(i, err) =>
      hide WorkerStep, Holds;
      WorkerShape(s, i, err);
    case Produce(j) =>
      hide ProducerStep, HoldsP;
      ProducerShape(s, j);
    case Join =>
  }

  // ----- the state word

  ghost predicate States(s: Pool) {
    && (s.state == Running <==> !Left(s.log))
    && (s.joiner == Begin <==> Exchanged !in s.log)
    && (s.joiner == Begin ==> s.state != Closed && !ErrorFirst(s.log))
    && (s.joiner != Begin ==> s.result != Closed && (s.result == Error <==> ErrorFirst(s.log)))
  }

  /** How the log and the state word change together. */
  ghost predicate Logged(s: Pool, s': Pool) {
    || (s'.log == s.log && s'.state == s.state)
    || (s'.state == s.state && exists m :: s'.log == s.log + [m] && m != ErrorStored && m != Exchanged)
    || (s'.state == Error && s'.log == s.log + [ErrorStored])
  }

  lemma WorkerLogged(s: Pool, i: nat, err: bool)
    requires WorkerEnabled(s, i)
    ensures Logged(s, WorkerStep(s, i, err))
  {
  }

  lemma ProducerLogged(s: Pool, j: nat)
    requires ProducerEnabled(s, j)
    ensures Logged(s, ProducerStep(s, j))
  {
  }

  lemma LoggedStates(s: Pool, s': Pool)
    requires States(s) && Logged(s, s') && s'.joiner == s.joiner && s'.result == s.result
    ensures States(s')
  {
    if s'.log != s.log {
      var m := s'.log[|s'.log| - 1];
      assert s'.log == s.log + [m];
      assert s'.log[..|s'.log| - 1] == s.log;
    }
  }

  lemma StatesKeptJoin(s: Pool)
    requires States(s) && JoinEnabled(s)
    ensures States(JoinStep(s))
  {
    assert (s.log + [Exchanged])[..|s.log|] == s.log;
  }

  lemma StatesKept(s: Pool, a: Action)
    requires States(s) && Enabled(s, a)
    ensures States(Step(s, a))
  {
    match a
    case Work(i, err) =>
      hide WorkerStep;
      WorkerShape(s, i, err);
      WorkerLogged(s, i, err);
      LoggedStates(s, WorkerStep(s, i, err));
    case Produce(j) =>
      hide ProducerStep;
      ProducerShape(s, j);
      ProducerLogged(s, j);
      LoggedStates(s, ProducerStep(s, j));
    case Join =>
      hide JoinStep, States;
      StatesKeptJoin(s);
  }

  // ----- queue changes after the end

  /** A thread that has checked the state and is about to change the queue. */
  predicate Armed(w: Worker) {
    w.TestEmpty? || w.Unlink?
  }

  ghost predicate NobodyArmed(s: Pool) {
    && (forall i :: 0 <= i < |s.workers| ==> !Armed(s.workers[i]))
    && (forall j :: 0 <= j < |s.producers| ==> !s.producers[j].Append?)
  }

  ghost predicate Lates(s: Pool) {
    && LateMoves(s.log) <= 1
    && (!Left(s.log) ==> LateMoves(s.log) == 0)
    && (LateMoves(s.log) == 1 ==> NobodyArmed(s))
  }

  lemma LateSnoc(log: seq<Mark>, m: Mark)
    ensures LateMoves(log + [m]) == LateMoves(log) + if (m.Enqueued? || m.Dequeued?) && Left(log) then 1 else 0
    ensures Left(log + [m]) <==> Left(log) || m == ErrorStored || m == Exchanged
  {
    assert (log + [m])[..|log|] == log;
  }

  /** A worker changes the queue only when armed, and arms only while the pool
      runs. */
  lemma WorkerArms(s: Pool, i: nat, err: bool)
    requires WorkerEnabled(s, i)
    ensures var s' := WorkerStep(s, i, err);
            && (Armed(s.workers[i]) ==> Holds(s.workers[i]))
            && (Armed(s'.workers[i]) ==> s'.log == s.log && (s.state == Running || Armed(s.workers[i])))
            && (s'.log == s.log ||
                exists m :: s'.log == s.log + [m] && !m.Enqueued? && m != Exchanged &&
                            (m.Dequeued? ==> Armed(s.workers[i])))
  {
  }

  lemma ProducerArms(s: Pool, j: nat)
    requires ProducerEnabled(s, j)
    ensures var s' := ProducerStep(s, j);
            && (s.producers[j].Append? ==> HoldsP(s.producers[j]))
            && (s'.producers[j].Append? ==> s'.log == s.log && s.state == Running)
            && (s'.log == s.log ||
                exists m :: s'.log == s.log + [m] && !m.Dequeued? && m != Exchanged && m != ErrorStored &&
                            (m.Enqueued? ==> s.producers[j].Append?))
  {
  }

  /** Only the lock's owner can be armed. */
  ghost predicate OneArmed(s: Pool) {
    && (forall i :: 0 <= i < |s.workers| && Armed(s.workers[i]) ==> s.lock == ByWorker(i))
    && (forall j :: 0 <= j < |s.producers| && s.producers[j].Append? ==> s.lock == ByProducer(j))
  }

  lemma OwnersArmed(s: Pool)
    requires Owners(s)
    ensures OneArmed(s)
  {
  }

  lemma DisarmedW(s: Pool, s': Pool, i: nat)
    requires i < |s.workers| && |s'.workers| == |s.workers| && s'.workers == s.workers[i := s'.workers[i]]
    requires s'.producers == s.producers && !Armed(s'.workers[i])
    requires NobodyArmed(s) || (OneArmed(s) && s.lock == ByWorker(i))
    ensures NobodyArmed(s')
  {
  }

  lemma LatesKeptW(s: Pool, i: nat, err: bool)
    requires Owners(s) && States(s) && Lates(s) && WorkerEnabled(s, i)
    ensures Lates(WorkerStep(s, i, err))
  {
    OwnersArmed(s);
    WorkerShape(s, i, err);
    WorkerArms(s, i, err);
    assert Armed(s.workers[i]) ==> s.lock == ByWorker(i) && !NobodyArmed(s);
    assert LateMoves(s.log) == 1 ==> s.state != Running && NobodyArmed(s) && !Armed(s.workers[i]);
    hide WorkerStep, Owners, OneArmed, NobodyArmed, States, LateMoves, Armed, Holds, Left, WorkerEnabled;
    var s' := WorkerStep(s, i, err);
    if s'.log == s.log {
      if LateMoves(s.log) == 1 {
        DisarmedW(s, s', i);
      }
    } else {
      var m :| s'.log == s.log + [m] && !m.Enqueued? && m != Exchanged && (m.Dequeued? ==> Armed(s.workers[i]));
      LateSnoc(s.log, m);
      if LateMoves(s.log) == 1 || m.Dequeued? {
        DisarmedW(s, s', i);
      }
    }
  }

  lemma DisarmedP(s: Pool, s': Pool, j: nat)
    requires j < |s.producers| && |s'.producers| == |s.producers| && s'.producers == s.producers[j := s'.producers[j]]
    requires s'.workers == s.workers && !s'.producers[j].Append?
    requires NobodyArmed(s) || (OneArmed(s) && s.lock == ByProducer(j))
    ensures NobodyArmed(s')
  {
    hide Armed;
  }

  lemma LatesKeptP(s: Pool, j: nat)
    requires Owners(s) && States(s) && Lates(s) && ProducerEnabled(s, j)
    ensures Lates(ProducerStep(s, j))
  {
    OwnersArmed(s);
    ProducerShape(s, j);
    ProducerArms(s, j);
    assert s.producers[j].Append? ==> s.lock == ByProducer(j) && !NobodyArmed(s);
    assert LateMoves(s.log) == 1 ==> s.state != Running && NobodyArmed(s) && !s.producers[j].Append?;
    hide ProducerStep, Owners, OneArmed, NobodyArmed, States, LateMoves, Armed, HoldsP, Left, ProducerEnabled;
    var s' := ProducerStep(s, j);
    if s'.log == s.log {
      if LateMoves(s.log) == 1 {
        DisarmedP(s, s', j);
      }
    } else {
      var m :| s'.log == s.log + [m] && !m.Dequeued? && m != Exchanged && m != ErrorStored &&
               (m.Enqueued? ==> s.producers[j].Append?);
      LateSnoc(s.log, m);
      if LateMoves(s.log) == 1 || m.Enqueued? {
        DisarmedP(s, s', j);
      }
    }
  }

  lemma LatesKept(s: Pool, a: Action)
    requires Owners(s) && States(s) && Lates(s) && Enabled(s, a)
    ensures Lates(Step(s, a))
  {
    hide WorkerStep, ProducerStep, LateMoves, Left;
    match a
    case Work(i, err) => LatesKeptW(s, i, err);
    case Produce(j) => LatesKeptP(s, j);
    case Join => LateSnoc(s.log, Exchanged);
  }

  // ----- the pending counter

  /** How far the counter is from the queue while its owner changes both. */
  function Skew(s: Pool): int {
    match s.lock
    case Free => 0
    case ByWorker(i) => if i < |s.workers| && s.workers[i].Decrement? then 1 else 0
    case ByProducer(j) => if j < |s.producers| && s.producers[j].Increment? then -1 else 0
  }

  /** Producers past the pending check that have not counted their task yet. */
  predicate InFlight(p: Producer) {
    p.Alloc? || p.Acquire? || p.Confirm? || p.Append? || p.Increment?
  }

  function Flights(ps: seq<Producer>): (n: nat)
    ensures n <= |ps|
  {
    if ps == [] then 0 else Flights(ps[..|ps| - 1]) + if InFlight(ps[|ps| - 1]) then 1 else 0
  }

  lemma {:induction false} FlightsUpdate(ps: seq<Producer>, j: nat, p: Producer)
    requires j < |ps|
    ensures Flights(ps[j := p]) + (if InFlight(ps[j]) then 1 else 0) == Flights(ps) + if InFlight(p) then 1 else 0
    ensures !InFlight(ps[j]) ==> Flights(ps) < |ps|
  {
    var n := |ps| - 1;
    var ps' := ps[j := p];
    if j < n {
      assert ps'[..n] == ps[..n][j := p];
      FlightsUpdate(ps[..n], j, p);
    } else {
      assert ps'[..n] == ps[..n];
    }
  }

  ghost predicate Counts(s: Pool) {
    && s.pending == |s.queue| + Skew(s)
    && s.pending + Flights(s.producers) <= MAX_PENDING + |s.producers|
    && |s.producers| + MAX_PENDING < UINT - 1
    && forall i :: 0 <= i < |s.workers| && s.workers[i].Unlink? ==> s.queue != []
  }

  lemma CountsUnlink(s: Pool, i: nat, err: bool)
    requires Owners(s) && Counts(s) && WorkerEnabled(s, i) && s.workers[i].Unlink?
    ensures Counts(WorkerStep(s, i, err))
  {
    hide Flights;
    assert Holds(s.workers[i]) && s.lock == ByWorker(i);
  }

  lemma CountsDecrement(s: Pool, i: nat, err: bool)
    requires Owners(s) && Counts(s) && WorkerEnabled(s, i) && s.workers[i].Decrement?
    ensures Counts(WorkerStep(s, i, err))
  {
    hide Flights;
    assert Holds(s.workers[i]) && s.lock == ByWorker(i);
  }

  lemma SkewOther(s: Pool, s': Pool, i: nat)
    requires Owners(s) && i < |s.workers| && |s'.workers| == |s.workers| && s'.workers == s.workers[i := s'.workers[i]]
    requires !s.workers[i].Decrement? && !s'.workers[i].Decrement? && s'.producers == s.producers
    requires s'.lock == s.lock || (s.lock == Free && s'.lock == ByWorker(i)) || (s'.lock == Free && Holds(s.workers[i]))
    ensures Skew(s') == Skew(s)
  {
  }

  /** The other steps of a worker change neither the queue nor the counter. */
  lemma WorkerLeaves(s: Pool, i: nat, err: bool)
    requires WorkerEnabled(s, i) && !s.workers[i].Unlink? && !s.workers[i].Decrement?
    ensures var s' := WorkerStep(s, i, err);
            && s'.queue == s.queue && s'.pending == s.pending && !s'.workers[i].Decrement?
            && (s'.workers[i].Unlink? ==> s.queue != [])
  {
  }

  lemma CountsKeptW(s: Pool, i: nat, err: bool)
    requires Owners(s) && Counts(s) && WorkerEnabled(s, i)
    ensures Counts(WorkerStep(s, i, err))
  {
    if s.workers[i].Unlink? {
      CountsUnlink(s, i, err);
    } else if s.workers[i].Decrement? {
      CountsDecrement(s, i, err);
    } else {
      hide WorkerStep, Flights, Skew, Owners, Holds;
      WorkerShape(s, i, err);
      WorkerLeaves(s, i, err);
      SkewOther(s, WorkerStep(s, i, err), i);
    }
  }

  lemma SkewOtherP(s: Pool, s': Pool, j: nat)
    requires Owners(s) && j < |s.producers| && |s'.producers| == |s.producers|
    requires s'.producers == s.producers[j := s'.producers[j]] && s'.workers == s.workers
    requires !s.producers[j].Increment? && !s'.producers[j].Increment?
    requires s'.lock == s.lock || (s.lock == Free && s'.lock == ByProducer(j)) ||
             (s'.lock == Free && HoldsP(s.producers[j]))
    ensures Skew(s') == Skew(s)
  {
  }

  lemma CountsAppend(s: Pool, j: nat)
    requires Owners(s) && Counts(s) && ProducerEnabled(s, j) && (s.producers[j].Append? || s.producers[j].Increment?)
    ensures Counts(ProducerStep(s, j))
  {
    hide Flights;
    assert HoldsP(s.producers[j]) && s.lock == ByProducer(j);
    FlightsUpdate(s.producers, j, ProducerStep(s, j).producers[j]);
  }

  /** The other steps of a producer change neither the queue nor the counter,
      and it comes under way with a counter up to the limit. */
  lemma ProducerLeaves(s: Pool, j: nat)
    requires ProducerEnabled(s, j) && !s.producers[j].Append? && !s.producers[j].Increment?
    ensures var s' := ProducerStep(s, j);
            && s'.queue == s.queue && s'.pending == s.pending && !s'.producers[j].Increment?
            && (InFlight(s'.producers[j]) && !InFlight(s.producers[j]) ==> s.pending <= MAX_PENDING)
  {
  }

  lemma CountsKeptP(s: Pool, j: nat)
    requires Owners(s) && Counts(s) && ProducerEnabled(s, j)
    ensures Counts(ProducerStep(s, j))
  {
    if s.producers[j].Append? || s.producers[j].Increment? {
      CountsAppend(s, j);
    } else {
      hide ProducerStep, Flights, Skew, Owners, HoldsP, InFlight;
      ProducerShape(s, j);
      ProducerLeaves(s, j);
      SkewOtherP(s, ProducerStep(s, j), j);
      FlightsUpdate(s.producers, j, ProducerStep(s, j).producers[j]);
    }
  }

  // ----- where a task is

  ghost predicate Fresh(log: seq<Mark>, t: Task) {
    Enqueued(t) !in log && Dequeued(t) !in log && Ran(t) !in log && Freed(t) !in log
  }

  ghost predicate Queued(log: seq<Mark>, t: Task) {
    Enqueued(t) in log && Dequeued(t) !in log && Ran(t) !in log && Freed(t) !in log
  }

  ghost predicate Taken(log: seq<Mark>, t: Task, ran: bool) {
    Enqueued(t) in log && Dequeued(t) in log && Freed(t) !in log && (Ran(t) in log <==> ran)
  }

  ghost predicate QueueOk(s: Pool) {
    && (forall a, b :: 0 <= a < b < |s.queue| ==> s.queue[a] != s.queue[b])
    && (forall t :: t in s.queue ==> t < s.nextTask && Queued(s.log, t))
  }

  ghost predicate HandOk(log: seq<Mark>, next: Task, w: Worker) {
    forall t {:trigger t in InHand(w)} :: t in InHand(w) ==> t < next && Taken(log, t, w.Release?)
  }

  ghost predicate OfferOk(log: seq<Mark>, next: Task, p: Producer) {
    forall t {:trigger t in Offered(p)} :: t in Offered(p) ==> t < next && Fresh(log, t)
  }

  ghost predicate HandsOk(s: Pool) {
    && (forall i :: 0 <= i < |s.workers| ==> HandOk(s.log, s.nextTask, s.workers[i]))
    && (forall i, k :: 0 <= i < k < |s.workers| ==> InHand(s.workers[i]) !! InHand(s.workers[k]))
  }

  ghost predicate OffersOk(s: Pool) {
    && (forall j :: 0 <= j < |s.producers| ==> OfferOk(s.log, s.nextTask, s.producers[j]))
    && (forall j, k :: 0 <= j < k < |s.producers| ==> Offered(s.producers[j]) !! Offered(s.producers[k]))
  }

  ghost predicate InSomeHand(s: Pool, t: Task) {
    exists i :: 0 <= i < |s.workers| && t in InHand(s.workers[i])
  }

  predicate Concerns(m: Mark, t: Task) {
    m == Enqueued(t) || m == Dequeued(t) || m == Ran(t) || m == Freed(t)
  }

  /** Nothing happens to the same task twice. */
  ghost predicate Once(log: seq<Mark>) {
    forall a, b :: 0 <= a < b < |log| && log[a] == log[b] ==> log[a] == ErrorStored || log[a] == Exchanged
  }

  ghost predicate LogOk(s: Pool) {
    && (forall t :: t >= s.nextTask ==> Fresh(s.log, t))
    && (forall t :: Enqueued(t) in s.log ==> t in s.queue || InSomeHand(s, t) || Freed(t) in s.log)
    && (forall t :: Enqueued(t) in s.log && Freed(t) in s.log ==> Ran(t) in s.log)
    && Once(s.log)
  }

  ghost predicate Places(s: Pool) {
    QueueOk(s) && HandsOk(s) && OffersOk(s) && LogOk(s)
  }

  lemma OnceSnoc(log: seq<Mark>, m: Mark)
    requires Once(log) && (m !in log || m == ErrorStored || m == Exchanged)
    ensures Once(log + [m])
  {
    var log' := log + [m];
    forall a, b | 0 <= a < b < |log'| && log'[a] == log'[b] ensures log'[a] == ErrorStored || log'[a] == Exchanged {
      if b == |log| {
        assert log[a] in log;
      }
    }
  }

  /** No address beyond the last allocation occurs in the log. */
  lemma NewAddresses(s: Pool, m: Mark)
    requires LogOk(s) && forall t :: t >= s.nextTask ==> !Concerns(m, t)
    ensures forall t :: t >= s.nextTask ==> Fresh(s.log + [m], t)
  {
    forall t | t >= s.nextTask ensures Fresh(s.log + [m], t) {
      assert Fresh(s.log, t);
      assert !Concerns(m, t);
    }
  }

  /** The fields the places depend on, as one thread's step may change them. */
  ghost predicate WorkerMoved(s: Pool, s': Pool, i: nat) {
    && i < |s.workers| && |s'.workers| == |s.workers| && s'.workers == s.workers[i := s'.workers[i]]
    && s'.producers == s.producers && s'.nextTask == s.nextTask
  }

  ghost predicate ProducerMoved(s: Pool, s': Pool, j: nat) {
    && j < |s.producers| && |s'.producers| == |s.producers| && s'.producers == s.producers[j := s'.producers[j]]
    && s'.workers == s.workers
  }

  /** What a mark does not concern stays where it is. */
  lemma OthersAlike(log: seq<Mark>, m: Mark)
    ensures forall t :: !Concerns(m, t) ==> (Fresh(log + [m], t) <==> Fresh(log, t))
    ensures forall t :: !Concerns(m, t) ==> (Queued(log + [m], t) <==> Queued(log, t))
    ensures forall t, ran :: !Concerns(m, t) ==> (Taken(log + [m], t, ran) <==> Taken(log, t, ran))
  {
  }

  lemma PlacesQuiet(s: Pool, s': Pool, i: nat)
    requires Places(s) && WorkerMoved(s, s', i) && s'.queue == s.queue && s'.log == s.log
    requires InHand(s'.workers[i]) == InHand(s.workers[i])
    requires InHand(s.workers[i]) != {} ==> s'.workers[i].Release? == s.workers[i].Release?
    ensures Places(s')
  {
    hide Once, InHand, Offered, Taken, Fresh, Queued;
    forall t | InSomeHand(s, t) ensures InSomeHand(s', t) {
      var k :| 0 <= k < |s.workers| && t in InHand(s.workers[k]);
      assert t in InHand(s'.workers[k]);
    }
  }

  /** An event that concerns no task. */
  lemma PlacesMark(s: Pool, s': Pool, m: Mark)
    requires Places(s) && (m == ErrorStored || m == Exchanged)
    requires s'.queue == s.queue && s'.log == s.log + [m] && s'.nextTask == s.nextTask
    requires s'.producers == s.producers && |s'.workers| == |s.workers|
    requires forall i :: 0 <= i < |s.workers| ==>
               InHand(s'.workers[i]) == InHand(s.workers[i]) &&
               (InHand(s.workers[i]) != {} ==> s'.workers[i].Release? == s.workers[i].Release?)
    ensures Places(s')
  {
    assert forall t :: !Concerns(m, t);
    hide Once, InHand, Offered, Fresh, Queued, Taken, Concerns;
    OnceSnoc(s.log, m);
    OthersAlike(s.log, m);
    forall t | InSomeHand(s, t) ensures InSomeHand(s', t) {
      var k :| 0 <= k < |s.workers| && t in InHand(s.workers[k]);
      assert t in InHand(s'.workers[k]);
    }
  }

  lemma QueueUnlinked(s: Pool, s': Pool, t: Task)
    requires QueueOk(s) && s'.nextTask == s.nextTask
    requires s.queue == s'.queue + [t] && s'.log == s.log + [Dequeued(t)]
    ensures QueueOk(s') && t < s.nextTask && Queued(s.log, t)
    ensures forall x :: x in s.queue <==> x in s'.queue || x == t
    ensures t !in s'.queue
  {
    assert s.queue[|s'.queue|] == t && t in s.queue;
    assert forall a :: 0 <= a < |s'.queue| ==> s'.queue[a] == s.queue[a];
    forall x | x in s'.queue ensures x in s.queue && x != t {
      var a :| 0 <= a < |s'.queue| && s'.queue[a] == x;
      assert s.queue[a] == x;
    }
  }

  /** A mark about one task leaves the others where they are: those in the
      queue, ... */
  lemma QueueKept(s: Pool, s': Pool, m: Mark, t: Task)
    requires QueueOk(s) && s'.queue == s.queue && s'.log == s.log + [m] && s'.nextTask == s.nextTask
    requires t !in s.queue && forall x :: Concerns(m, x) ==> x == t
    ensures QueueOk(s')
  {
    OthersAlike(s.log, m);
    hide Queued, Concerns;
  }

  /** ... those that producers have not enqueued yet, ... */
  lemma OffersKept(s: Pool, s': Pool, m: Mark, t: Task)
    requires OffersOk(s) && s'.producers == s.producers && s'.log == s.log + [m] && s'.nextTask == s.nextTask
    requires !Fresh(s.log, t) && forall x :: Concerns(m, x) ==> x == t
    ensures OffersOk(s')
  {
    OthersAlike(s.log, m);
    hide Fresh, Concerns, Offered;
  }

  /** ... and those in the hands of the other workers. */
  lemma HandsKept(s: Pool, s': Pool, i: nat, m: Mark, t: Task)
    requires HandsOk(s) && WorkerMoved(s, s', i) && s'.log == s.log + [m]
    requires forall x :: Concerns(m, x) ==> x == t
    requires forall k :: 0 <= k < |s.workers| && k != i ==> t !in InHand(s.workers[k])
    requires InHand(s'.workers[i]) <= {t} && HandOk(s'.log, s'.nextTask, s'.workers[i])
    ensures HandsOk(s')
  {
    OthersAlike(s.log, m);
    hide Taken, Concerns, InHand;
  }

  /** A task in the hands of one worker is in no other's. */
  lemma OneHand(s: Pool, i: nat, t: Task)
    requires HandsOk(s) && i < |s.workers| && t in InHand(s.workers[i])
    ensures forall k :: 0 <= k < |s.workers| && k != i ==> t !in InHand(s.workers[k])
    ensures t < s.nextTask && Taken(s.log, t, s.workers[i].Release?)
  {
    hide InHand, Taken;
    forall k | 0 <= k < |s.workers| && k != i ensures t !in InHand(s.workers[k]) {
      if k < i {
        assert InHand(s.workers[k]) !! InHand(s.workers[i]);
      } else {
        assert InHand(s.workers[i]) !! InHand(s.workers[k]);
      }
    }
  }

  lemma SomeHandKept(s: Pool, s': Pool, i: nat, t: Task)
    requires WorkerMoved(s, s', i) && InHand(s.workers[i]) <= InHand(s'.workers[i]) + {t}
    ensures forall x :: x != t && InSomeHand(s, x) ==> InSomeHand(s', x)
    ensures t in InHand(s'.workers[i]) ==> InSomeHand(s', t)
  {
    hide InHand;
    forall x | x != t && InSomeHand(s, x) ensures InSomeHand(s', x) {
      var k :| 0 <= k < |s.workers| && x in InHand(s.workers[k]);
      assert x in InHand(s'.workers[k]);
    }
  }

  /** What the log says of the places, one mark later. */
  lemma LogKept(s: Pool, s': Pool, m: Mark, t: Task)
    requires LogOk(s) && s'.log == s.log + [m] && s'.nextTask == s.nextTask && t < s.nextTask && m !in s.log
    requires forall x :: Concerns(m, x) <==> x == t
    requires forall x :: x != t ==> (x in s.queue ==> x in s'.queue) && (InSomeHand(s, x) ==> InSomeHand(s', x))
    requires Enqueued(t) in s'.log ==> t in s'.queue || InSomeHand(s', t) || Freed(t) in s'.log
    requires Enqueued(t) in s'.log && Freed(t) in s'.log ==> Ran(t) in s'.log
    ensures LogOk(s')
  {
    OnceSnoc(s.log, m);
    NewAddresses(s, m);
    hide Once, Fresh, InSomeHand;
    forall x | x != t
      ensures Enqueued(x) in s'.log <==> Enqueued(x) in s.log
      ensures Freed(x) in s'.log <==> Freed(x) in s.log
      ensures Ran(x) in s'.log <==> Ran(x) in s.log
    {
      assert !Concerns(m, x);
    }
  }

  lemma HandsQueued(s: Pool, t: Task)
    requires HandsOk(s) && Queued(s.log, t)
    ensures forall k :: 0 <= k < |s.workers| ==> t !in InHand(s.workers[k])
  {
    hide InHand;
  }

  /** list_del() of the last entry. */
  lemma PlacesUnlink(s: Pool, s': Pool, i: nat, t: Task)
    requires Places(s) && WorkerMoved(s, s', i)
    requires s.queue == s'.queue + [t] && s'.log == s.log + [Dequeued(t)]
    requires InHand(s.workers[i]) == {} && InHand(s'.workers[i]) == {t} && !s'.workers[i].Release?
    ensures Places(s')
  {
    hide Once, InHand, Offered, QueueOk, HandsOk, OffersOk, LogOk, InSomeHand;
    QueueUnlinked(s, s', t);
    OffersKept(s, s', Dequeued(t), t);
    HandsQueued(s, t);
    HandsKept(s, s', i, Dequeued(t), t);
    SomeHandKept(s, s', i, t);
    LogKept(s, s', Dequeued(t), t);
  }

  lemma NotQueued(s: Pool, t: Task)
    requires QueueOk(s) && !Queued(s.log, t)
    ensures t !in s.queue
  {
    hide Queued;
  }

  /** The copy ran. */
  lemma PlacesRan(s: Pool, s': Pool, i: nat, t: Task)
    requires Places(s) && WorkerMoved(s, s', i)
    requires s'.queue == s.queue && s'.log == s.log + [Ran(t)]
    requires InHand(s.workers[i]) == InHand(s'.workers[i]) == {t}
    requires !s.workers[i].Release? && s'.workers[i].Release?
    ensures Places(s')
  {
    hide Once, InHand, Offered, QueueOk, HandsOk, OffersOk, LogOk, InSomeHand;
    OneHand(s, i, t);
    NotQueued(s, t);
    QueueKept(s, s', Ran(t), t);
    OffersKept(s, s', Ran(t), t);
    HandsKept(s, s', i, Ran(t), t);
    SomeHandKept(s, s', i, t);
    LogKept(s, s', Ran(t), t);
  }

  /** A worker frees its task. */
  lemma PlacesFreed(s: Pool, s': Pool, i: nat, t: Task)
    requires Places(s) && WorkerMoved(s, s', i)
    requires s'.queue == s.queue && s'.log == s.log + [Freed(t)]
    requires InHand(s.workers[i]) == {t} && InHand(s'.workers[i]) == {} && s.workers[i].Release?
    ensures Places(s')
  {
    hide Once, InHand, Offered, QueueOk, HandsOk, OffersOk, LogOk, InSomeHand;
    OneHand(s, i, t);
    NotQueued(s, t);
    QueueKept(s, s', Freed(t), t);
    OffersKept(s, s', Freed(t), t);
    HandsKept(s, s', i, Freed(t), t);
    SomeHandKept(s, s', i, t);
    LogKept(s, s', Freed(t), t);
  }

  lemma PlacesQuietP(s: Pool, s': Pool, j: nat)
    requires Places(s) && ProducerMoved(s, s', j) && s'.queue == s.queue && s'.log == s.log
    requires s'.nextTask == s.nextTask && Offered(s'.producers[j]) == Offered(s.producers[j])
    ensures Places(s')
  {
    hide Once, InHand, Offered, Taken, Fresh, Queued;
    assert forall t :: InSomeHand(s, t) <==> InSomeHand(s', t);
  }

  /** malloc() of a task. */
  lemma PlacesAlloc(s: Pool, s': Pool, j: nat)
    requires Places(s) && ProducerMoved(s, s', j) && s'.queue == s.queue && s'.log == s.log
    requires s'.nextTask == s.nextTask + 1
    requires Offered(s.producers[j]) == {} && Offered(s'.producers[j]) == {s.nextTask}
    ensures Places(s')
  {
    hide Once, InHand, Offered, Taken, Fresh, Queued;
    assert forall t :: InSomeHand(s, t) <==> InSomeHand(s', t);
    forall k, t | 0 <= k < |s.producers| && t in Offered(s.producers[k]) ensures t != s.nextTask {
    }
  }

  lemma QueueAppended(s: Pool, s': Pool, t: Task)
    requires QueueOk(s) && t < s.nextTask && Fresh(s.log, t) && s'.nextTask == s.nextTask
    requires s'.queue == s.queue + [t] && s'.log == s.log + [Enqueued(t)]
    ensures QueueOk(s')
    ensures forall x :: x in s'.queue <==> x in s.queue || x == t
  {
    assert s'.queue[|s.queue|] == t;
    assert forall a :: 0 <= a < |s.queue| ==> s'.queue[a] == s.queue[a] && s.queue[a] in s.queue;
  }

  lemma OthersOffer(s: Pool, j: nat, t: Task)
    requires OffersOk(s) && j < |s.producers| && t in Offered(s.producers[j])
    ensures forall k :: 0 <= k < |s.producers| && k != j ==> t !in Offered(s.producers[k])
  {
    forall k | 0 <= k < |s.producers| && k != j ensures t !in Offered(s.producers[k]) {
      if k < j {
        assert Offered(s.producers[k]) !! Offered(s.producers[j]);
      } else {
        assert Offered(s.producers[j]) !! Offered(s.producers[k]);
      }
    }
  }

  /** A mark about a task a producer had leaves the others where they are. */
  lemma OffersKeptP(s: Pool, s': Pool, j: nat, m: Mark, t: Task)
    requires OffersOk(s) && ProducerMoved(s, s', j) && s'.log == s.log + [m] && s'.nextTask == s.nextTask
    requires Offered(s.producers[j]) == {t} && Offered(s'.producers[j]) == {}
    requires forall x :: Concerns(m, x) <==> x == t
    ensures OffersOk(s') && t < s.nextTask && Fresh(s.log, t)
  {
    assert t in Offered(s.producers[j]);
    OthersOffer(s, j, t);
    OthersAlike(s.log, m);
    hide Fresh, Concerns, Offered;
  }

  lemma HandsKeptP(s: Pool, s': Pool, m: Mark, t: Task)
    requires HandsOk(s) && s'.workers == s.workers && s'.log == s.log + [m] && s'.nextTask == s.nextTask
    requires Fresh(s.log, t) && forall x :: Concerns(m, x) ==> x == t
    ensures HandsOk(s')
  {
    OthersAlike(s.log, m);
    assert forall ran :: !Taken(s.log, t, ran);
    hide Taken, Concerns, InHand;
  }

  lemma SameHands(s: Pool, s': Pool)
    requires s'.workers == s.workers
    ensures forall x :: InSomeHand(s, x) <==> InSomeHand(s', x)
  {
  }

  /** list_add_tail() */
  lemma PlacesAppend(s: Pool, s': Pool, j: nat, t: Task)
    requires Places(s) && ProducerMoved(s, s', j) && s'.nextTask == s.nextTask
    requires s'.queue == s.queue + [t] && s'.log == s.log + [Enqueued(t)]
    requires Offered(s.producers[j]) == {t} && Offered(s'.producers[j]) == {}
    ensures Places(s')
  {
    hide Once, InHand, Offered, QueueOk, HandsOk, OffersOk, LogOk, InSomeHand;
    OffersKeptP(s, s', j, Enqueued(t), t);
    HandsKeptP(s, s', Enqueued(t), t);
    SameHands(s, s');
    QueueAppended(s, s', t);
    LogKept(s, s', Enqueued(t), t);
  }

  /** A producer frees the task it could not hand over. */
  lemma PlacesDiscard(s: Pool, s': Pool, j: nat, t: Task)
    requires Places(s) && ProducerMoved(s, s', j) && s'.nextTask == s.nextTask
    requires s'.queue == s.queue && s'.log == s.log + [Freed(t)]
    requires Offered(s.producers[j]) == {t} && Offered(s'.producers[j]) == {}
    ensures Places(s')
  {
    hide Once, InHand, Offered, QueueOk, HandsOk, OffersOk, LogOk, InSomeHand;
    OffersKeptP(s, s', j, Freed(t), t);
    HandsKeptP(s, s', Freed(t), t);
    SameHands(s, s');
    NotQueued(s, t);
    QueueKept(s, s', Freed(t), t);
    LogKept(s, s', Freed(t), t);
  }

  lemma PlacesKeptW(s: Pool, i: nat, err: bool)
    requires Places(s) && Counts(s) && WorkerEnabled(s, i)
    ensures Places(WorkerStep(s, i, err))
  {
    hide Places;
    var s' := WorkerStep(s, i, err);
    match s.workers[i]
    case Unlink =>
      var t := s.queue[|s.queue| - 1];
      assert s.queue == s'.queue + [t];
      PlacesUnlink(s, s', i, t);
    case Copy(t) => PlacesRan(s, s', i, t);
    case Release(t, _) => PlacesFreed(s, s', i, t);
    case Store => PlacesMark(s, s', ErrorStored);
    case _ => PlacesQuiet(s, s', i);
  }

  lemma PlacesKeptP(s: Pool, j: nat)
    requires Places(s) && ProducerEnabled(s, j)
    ensures Places(ProducerStep(s, j))
  {
    hide Places;
    var s' := ProducerStep(s, j);
    match s.producers[j]
    case Alloc => PlacesAlloc(s, s', j);
    case Append(t) => PlacesAppend(s, s', j, t);
    case Discard(t, _) => PlacesDiscard(s, s', j, t);
    case _ => PlacesQuietP(s, s', j);
  }

  /** The join has waited for the workers before it. */
  ghost predicate Waited(s: Pool) {
    match s.joiner
    case Joining(n) => n <= |s.workers| && forall i :: 0 <= i < n ==> s.workers[i] == Exited
    case Joined => forall i :: 0 <= i < |s.workers| ==> s.workers[i] == Exited
    case _ => true
  }

  lemma WaitedKept(s: Pool, a: Action)
    requires Waited(s) && Enabled(s, a)
    ensures Waited(Step(s, a))
  {
    match a
    case Work(i, err) =>
      assert s.workers[i] != Exited;
      WorkerShape(s, i, err);
      hide WorkerStep;
    case Produce(j) =>
      ProducerShape(s, j);
      hide ProducerStep;
    case Join =>
  }

  datatype Replayed = Broken | Stack(tasks: seq<Task>)

  /** The log replayed on a stack: what is dequeued must be on top. */
  function Replay(log: seq<Mark>): Replayed {
    if log == [] then Stack([])
    else
      var before := Replay(log[..|log| - 1]);
      match log[|log| - 1]
      case Enqueued(t) => if before.Stack? then Stack(before.tasks + [t]) else Broken
      case Dequeued(t) =>
        if before.Stack? && before.tasks != [] && before.tasks[|before.tasks| - 1] == t then
          Stack(before.tasks[..|before.tasks| - 1])
        else Broken
      case _ => before
  }

  /** The log and the queue change together. */
  ghost predicate QueueStep(log: seq<Mark>, queue: seq<Task>, log': seq<Mark>, queue': seq<Task>) {
    || (log' == log && queue' == queue)
    || exists m ::
         && log' == log + [m]
         && match m
            case Enqueued(t) => queue' == queue + [t]
            case Dequeued(t) => queue == queue' + [t]
            case _ => queue' == queue
  }

  lemma Marked(log: seq<Mark>, queue: seq<Task>, m: Mark, queue': seq<Task>)
    requires match m
             case Enqueued(t) => queue' == queue + [t]
             case Dequeued(t) => queue == queue' + [t]
             case _ => queue' == queue
    ensures QueueStep(log, queue, log + [m], queue') && QueueStep(log, queue, log, queue)
  {
  }

  lemma WorkerQueues(s: Pool, i: nat, err: bool)
    requires Counts(s) && WorkerEnabled(s, i)
    ensures var s' := WorkerStep(s, i, err); QueueStep(s.log, s.queue, s'.log, s'.queue)
  {
    hide QueueStep, Flights, Skew;
    match s.workers[i]
    case Unlink =>
      var last := |s.queue| - 1;
      assert s.queue == s.queue[..last] + [s.queue[last]];
      Marked(s.log, s.queue, Dequeued(s.queue[last]), s.queue[..last]);
    case Copy(t) => Marked(s.log, s.queue, Ran(t), s.queue);
    case Release(t, _) => Marked(s.log, s.queue, Freed(t), s.queue);
    case Store => Marked(s.log, s.queue, ErrorStored, s.queue);
    case _ => Marked(s.log, s.queue, ErrorStored, s.queue);
  }

  lemma ProducerQueues(s: Pool, j: nat)
    requires ProducerEnabled(s, j)
    ensures var s' := ProducerStep(s, j); QueueStep(s.log, s.queue, s'.log, s'.queue)
  {
    hide QueueStep;
    match s.producers[j]
    case Append(t) => Marked(s.log, s.queue, Enqueued(t), s.queue + [t]);
    case Discard(t, _) => Marked(s.log, s.queue, Freed(t), s.queue);
    case _ => Marked(s.log, s.queue, ErrorStored, s.queue);
  }

  lemma QueueSteps(s: Pool, a: Action)
    requires Counts(s) && Enabled(s, a)
    ensures var s' := Step(s, a); QueueStep(s.log, s.queue, s'.log, s'.queue)
  {
    hide QueueStep, WorkerStep, ProducerStep, Counts;
    match a
    case Work(i, err) => WorkerQueues(s, i, err);
    case Produce(j) => ProducerQueues(s, j);
    case Join => Marked(s.log, s.queue, Exchanged, s.queue);
  }

  lemma ReplayOn(log: seq<Mark>, queue: seq<Task>, log': seq<Mark>, queue': seq<Task>)
    requires Replay(log) == Stack(queue) && QueueStep(log, queue, log', queue')
    ensures Replay(log') == Stack(queue')
  {
    if log' != log {
      var m := log'[|log|];
      assert log' == log + [m] && log'[..|log|] == log;
      if m.Dequeued? {
        assert queue[..|queue| - 1] == queue';
      }
    }
  }

  // ----- over every run

  ghost predicate Inv(s: Pool) {
    && Owners(s) && States(s) && Lates(s) && Counts(s) && Places(s) && Waited(s)
    && Replay(s.log) == Stack(s.queue)
  }

  lemma {:induction false} NoFlights(ps: seq<Producer>)
    requires forall j :: 0 <= j < |ps| ==> ps[j] == Idle
    ensures Flights(ps) == 0
  {
    if ps != [] {
      NoFlights(ps[..|ps| - 1]);
    }
  }

  lemma InitialPlaces(s: Pool)
    requires Initial(s)
    ensures Places(s)
  {
  }

  lemma InitialRest(s: Pool)
    requires Initial(s)
    ensures Owners(s) && States(s) && Lates(s) && Waited(s) && Replay(s.log) == Stack(s.queue)
  {
  }

  lemma InitialCounts(s: Pool)
    requires Initial(s)
    ensures Counts(s)
  {
    NoFlights(s.producers);
  }

  lemma InitialInv(s: Pool)
    requires Initial(s)
    ensures Inv(s)
  {
    hide Initial, Places, Owners, States, Lates, Counts, Waited, Replay;
    InitialPlaces(s);
    InitialRest(s);
    InitialCounts(s);
  }

  lemma SamePlaces(s: Pool, s': Pool)
    requires Places(s)
    requires s'.queue == s.queue && s'.log == s.log && s'.nextTask == s.nextTask
    requires s'.workers == s.workers && s'.producers == s.producers
    ensures Places(s')
  {
    hide Once, InHand, Offered, Taken, Fresh, Queued;
    assert forall t :: InSomeHand(s, t) <==> InSomeHand(s', t);
  }

  lemma JoinKept(s: Pool)
    requires Counts(s) && Places(s) && JoinEnabled(s)
    ensures Counts(JoinStep(s)) && Places(JoinStep(s))
  {
    hide Places;
    var s' := JoinStep(s);
    if s.joiner == Begin {
      PlacesMark(s, s', Exchanged);
    } else {
      SamePlaces(s, s');
    }
  }

  lemma InvKept(s: Pool, a: Action)
    requires Inv(s) && Enabled(s, a)
    ensures Inv(Step(s, a))
  {
    hide Owners, States, Lates, Counts, Places, Waited, Replay, WorkerStep, ProducerStep, QueueStep;
    QueueSteps(s, a);
    ReplayOn(s.log, s.queue, Step(s, a).log, Step(s, a).queue);
    OwnersKept(s, a);
    WaitedKept(s, a);
    StatesKept(s, a);
    LatesKept(s, a);
    match a
    case Work(i, err) =>
      CountsKeptW(s, i, err);
      PlacesKeptW(s, i, err);
    case Produce(j) =>
      CountsKeptP(s, j);
      PlacesKeptP(s, j);
    case Join =>
      JoinKept(s);
  }

  /** Logs only grow. */
  lemma LogGrows(s: Pool, a: Action)
    requires Enabled(s, a)
    ensures s.log <= Step(s, a).log
  {
  }

  lemma SameThreads(s: Pool, a: Action)
    requires Enabled(s, a)
    ensures |Step(s, a).producers| == |s.producers| && |Step(s, a).workers| == |s.workers|
  {
    hide WorkerStep, ProducerStep;
    match a
    case Work(i, err) => WorkerShape(s, i, err);
    case Produce(j) => ProducerShape(s, j);
    case Join =>
  }

  lemma {:induction false} ReachesInv(s: Pool, run: seq<Action>, s': Pool)
    requires Inv(s) && Reaches(s, run, s')
    ensures Inv(s') && s.log <= s'.log && |s'.producers| == |s.producers| && |s'.workers| == |s.workers|
    decreases |run|
  {
    hide Inv, Step;
    if run != [] {
      InvKept(s, run[0]);
      LogGrows(s, run[0]);
      SameThreads(s, run[0]);
      ReachesInv(Step(s, run[0]), run[1..], s');
    }
  }
}
