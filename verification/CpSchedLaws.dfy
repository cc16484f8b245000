/** What holds in every run of the copy pool. */
module CpSchedLaws {
  import opened CpSched

  /** In every run an accepted task is in exactly one place: the queue, one
      worker's hands, or finished, that is run and freed. */
  lemma OnePlace(s0: Pool, run: seq<Action>, s: Pool, t: Task)
    requires Initial(s0) && Reaches(s0, run, s)
    requires Enqueued(t) in s.log
    ensures t in s.queue || InSomeHand(s, t) || Freed(t) in s.log
    ensures !(t in s.queue && InSomeHand(s, t)) && !(t in s.queue && Freed(t) in s.log)
    ensures !(InSomeHand(s, t) && Freed(t) in s.log)
    ensures forall i, k :: 0 <= i < k < |s.workers| ==> !(t in InHand(s.workers[i]) && t in InHand(s.workers[k]))
    ensures forall a, b :: 0 <= a < b < |s.queue| ==> !(s.queue[a] == t == s.queue[b])
    ensures Freed(t) in s.log ==> Ran(t) in s.log
  {
    hide InHand, Offered;
    InitialInv(s0);
    ReachesInv(s0, run, s);
    forall i, k | 0 <= i < k < |s.workers| ensures !(t in InHand(s.workers[i]) && t in InHand(s.workers[k])) {
      assert InHand(s.workers[i]) !! InHand(s.workers[k]);
    }
  }

  /** No task is enqueued, dequeued, run or freed twice, accepted or not. */
  lemma NeverTwice(s0: Pool, run: seq<Action>, s: Pool)
    requires Initial(s0) && Reaches(s0, run, s)
    ensures Once(s.log)
  {
    InitialInv(s0);
    ReachesInv(s0, run, s);
  }

  /** The step is one of the thread that owns the mutex in `o`. */
  predicate IsOf(a: Action, o: Owner) {
    match a
    case Work(i, _) => o == ByWorker(i)
    case Produce(j) => o == ByProducer(j)
    case Join => false
  }

  /** No thread but `o` is about to change the queue. */
  ghost predicate ArmedBy(s: Pool, o: Owner) {
    && (forall i :: 0 <= i < |s.workers| && Armed(s.workers[i]) ==> o == ByWorker(i))
    && (forall j :: 0 <= j < |s.producers| && s.producers[j].Append? ==> o == ByProducer(j))
  }

  lemma WorkerQueue(s: Pool, i: nat, err: bool)
    requires WorkerEnabled(s, i)
    ensures WorkerStep(s, i, err).queue != s.queue ==> Armed(s.workers[i])
    ensures s.state != Running ==> WorkerStep(s, i, err).state != Running
  {
  }

  lemma ProducerQueue(s: Pool, j: nat)
    requires ProducerEnabled(s, j)
    ensures ProducerStep(s, j).queue != s.queue ==> s.producers[j].Append?
  {
  }

  lemma ArmedByKept(s: Pool, a: Action, o: Owner)
    requires s.state != Running && ArmedBy(s, o) && Enabled(s, a)
    ensures Step(s, a).state != Running && ArmedBy(Step(s, a), o)
    ensures Step(s, a).queue != s.queue ==> IsOf(a, o)
  {
    match a {
      case Work(i, err) =>
        WorkerShape(s, i, err);
        WorkerArms(s, i, err);
        WorkerQueue(s, i, err);
        hide WorkerStep, Armed;
      case Produce(j) =>
        ProducerShape(s, j);
        ProducerArms(s, j);
        ProducerQueue(s, j);
        hide ProducerStep, Armed;
      case Join =>
    }
  }

  lemma {:induction false} ArmedByAll(s: Pool, more: seq<Action>, s': Pool, o: Owner)
    requires s.state != Running && ArmedBy(s, o) && Reaches(s, more, s')
    ensures s'.state != Running && ArmedBy(s', o)
    decreases |more|
  {
    hide ArmedBy, Step;
    if more != [] {
      ArmedByKept(s, more[0], o);
      ArmedByAll(Step(s, more[0]), more[1..], s', o);
    }
  }

  /** Once the pool has left the running state it never runs again, and from
      there on the queue changes at most once more: by a step of the thread that
      owned the mutex then. */
  lemma NeverRunsAgain(s0: Pool, run: seq<Action>, s: Pool, more: seq<Action>, s': Pool)
    requires Initial(s0) && Reaches(s0, run, s) && Reaches(s, more, s')
    requires s.state != Running
    ensures s'.state != Running && LateMoves(s'.log) <= 1
    ensures forall a :: Enabled(s', a) && Step(s', a).queue != s'.queue ==> IsOf(a, s.lock)
  {
    hide Counts, Places;
    InitialInv(s0);
    ReachesInv(s0, run, s);
    ReachesInv(s, more, s');
    assert forall m :: m in s.log ==> m in s'.log;
    OwnersArmed(s);
    hide Owners, States, Lates, Step, Enabled;
    ArmedByAll(s, more, s', s.lock);
    forall a | Enabled(s', a) && Step(s', a).queue != s'.queue ensures IsOf(a, s.lock) {
      ArmedByKept(s', a, s.lock);
    }
  }

  // ----- what is accepted

  /** The step logs that producer `j` enqueued a task. */
  ghost predicate Enqueues(s: Pool, a: Action, j: nat)
    requires Enabled(s, a)
  {
    a == Produce(j) && exists t :: Step(s, a).log == s.log + [Enqueued(t)]
  }

  /** With this step the call of producer `j` returns success. */
  predicate Succeeds(s: Pool, a: Action, j: nat)
    requires Enabled(s, a)
  {
    a == Produce(j) && Step(s, a).producers[j] == Returned(Success)
  }

  ghost function Enqueuings(s: Pool, run: seq<Action>, j: nat): (n: nat)
    decreases |run|
  {
    if run == [] || !Enabled(s, run[0]) then 0
    else (if Enqueues(s, run[0], j) then 1 else 0) + Enqueuings(Step(s, run[0]), run[1..], j)
  }

  ghost function Successes(s: Pool, run: seq<Action>, j: nat): (n: nat)
    decreases |run|
  {
    if run == [] || !Enabled(s, run[0]) then 0
    else (if Succeeds(s, run[0], j) then 1 else 0) + Successes(Step(s, run[0]), run[1..], j)
  }

  /** The producer has enqueued its task and not returned yet. */
  predicate Returning(p: Producer) {
    p.Increment? || p.Signal? || p.Done?
  }

  lemma ProducerReturns(s: Pool, j: nat)
    requires ProducerEnabled(s, j)
    ensures var s' := ProducerStep(s, j);
            && ((exists t :: s'.log == s.log + [Enqueued(t)]) <==> s.producers[j].Append?)
            && (s.producers[j].Append? ==> Returning(s'.producers[j]) && !Returning(s.producers[j]))
            && (s'.producers[j] == Returned(Success) <==> s.producers[j].Done?)
            && (Returning(s'.producers[j]) <==>
                  s.producers[j].Append? || (Returning(s.producers[j]) && !s.producers[j].Done?))
  {
    var s' := ProducerStep(s, j);
    if s.producers[j].Append? {
      assert s'.log == s.log + [Enqueued(s.producers[j].task)];
    } else if s.producers[j].Discard? {
      assert s'.log[|s.log|] == Freed(s.producers[j].task);
    }
  }

  lemma ReturningStep(s: Pool, a: Action, j: nat)
    requires Enabled(s, a) && j < |s.producers|
    ensures |Step(s, a).producers| == |s.producers|
    ensures (if Enqueues(s, a, j) then 1 else 0) + (if Returning(s.producers[j]) then 1 else 0) ==
            (if Succeeds(s, a, j) then 1 else 0) + (if Returning(Step(s, a).producers[j]) then 1 else 0)
  {
    SameThreads(s, a);
    match a {
      case Work(i, err) =>
        WorkerShape(s, i, err);
        hide WorkerStep;
      case Produce(k) =>
        if k == j {
          ProducerReturns(s, j);
        } else {
          ProducerShape(s, k);
        }
        hide ProducerStep;
      case Join =>
    }
  }

  lemma {:induction false} ReturningAll(s: Pool, run: seq<Action>, s': Pool, j: nat)
    requires Reaches(s, run, s') && j < |s.producers|
    ensures |s'.producers| == |s.producers|
    ensures Enqueuings(s, run, j) + (if Returning(s.producers[j]) then 1 else 0) ==
            Successes(s, run, j) + (if Returning(s'.producers[j]) then 1 else 0)
    decreases |run|
  {
    hide Enqueues, Succeeds, Returning, Step;
    if run != [] {
      ReturningStep(s, run[0], j);
      ReturningAll(Step(s, run[0]), run[1..], s', j);
    }
  }

  /** The tasks a producer enqueues are those for which its calls return success:
      in every run there are as many, but for a call that has enqueued its task
      and is about to return. */
  lemma AcceptedIsEnqueued(s0: Pool, run: seq<Action>, s: Pool, j: nat)
    requires Initial(s0) && Reaches(s0, run, s) && j < |s0.producers|
    ensures |s.producers| == |s0.producers|
    ensures Enqueuings(s0, run, j) == Successes(s0, run, j) + if Returning(s.producers[j]) then 1 else 0
  {
    ReturningAll(s0, run, s, j);
    hide Enqueuings, Successes, Reaches;
  }

  // ----- failed copies

  /** With this step a copy fails. */
  predicate Fails(s: Pool, a: Action)
    requires Enabled(s, a)
  {
    a.Work? && a.err && s.workers[a.i].Copy?
  }

  ghost function Failures(s: Pool, run: seq<Action>): (n: nat)
    decreases |run|
  {
    if run == [] || !Enabled(s, run[0]) then 0
    else (if Fails(s, run[0]) then 1 else 0) + Failures(Step(s, run[0]), run[1..])
  }

  /** The worker's copy has failed and its error is not stored yet. */
  predicate Failing(w: Worker) {
    w == Store || (w.Release? && w.err)
  }

  function FailingNow(ws: seq<Worker>): (n: nat) {
    if ws == [] then 0
    else FailingNow(ws[..|ws| - 1]) + if Failing(ws[|ws| - 1]) then 1 else 0
  }

  lemma {:induction false} NoneFailing(ws: seq<Worker>)
    requires forall i :: 0 <= i < |ws| ==> !Failing(ws[i])
    ensures FailingNow(ws) == 0
  {
    if ws != [] {
      NoneFailing(ws[..|ws| - 1]);
    }
  }

  lemma {:induction false} FailingUpdate(ws: seq<Worker>, i: nat, w: Worker)
    requires i < |ws|
    ensures FailingNow(ws[i := w]) + (if Failing(ws[i]) then 1 else 0) ==
            FailingNow(ws) + if Failing(w) then 1 else 0
  {
    hide Failing;
    var last := |ws| - 1;
    if i == last {
      assert ws[i := w][..last] == ws[..last];
    } else {
      assert ws[i := w][..last] == ws[..last][i := w];
      FailingUpdate(ws[..last], i, w);
    }
  }

  lemma WorkerFails(s: Pool, i: nat, err: bool)
    requires WorkerEnabled(s, i)
    ensures var s' := WorkerStep(s, i, err);
            (if Fails(s, Work(i, err)) then 1 else 0) + (if Failing(s.workers[i]) then 1 else 0) ==
            (if Failing(s'.workers[i]) then 1 else 0) + multiset(s'.log)[ErrorStored] - multiset(s.log)[ErrorStored]
  {
  }

  lemma ProducerStores(s: Pool, j: nat)
    requires ProducerEnabled(s, j)
    ensures multiset(ProducerStep(s, j).log)[ErrorStored] == multiset(s.log)[ErrorStored]
  {
  }

  lemma FailuresStep(s: Pool, a: Action)
    requires Enabled(s, a)
    ensures (if Fails(s, a) then 1 else 0) + FailingNow(s.workers) + multiset(s.log)[ErrorStored] ==
            FailingNow(Step(s, a).workers) + multiset(Step(s, a).log)[ErrorStored]
  {
    match a {
      case Work(i, err) =>
        WorkerShape(s, i, err);
        WorkerFails(s, i, err);
        FailingUpdate(s.workers, i, WorkerStep(s, i, err).workers[i]);
        hide WorkerStep, Failing, FailingNow, Fails;
      case Produce(j) =>
        ProducerShape(s, j);
        ProducerStores(s, j);
        hide ProducerStep, FailingNow;
      case Join =>
        hide FailingNow;
    }
  }

  lemma {:induction false} FailuresAll(s: Pool, run: seq<Action>, s': Pool)
    requires Reaches(s, run, s')
    ensures Failures(s, run) + FailingNow(s.workers) + multiset(s.log)[ErrorStored] ==
            FailingNow(s'.workers) + multiset(s'.log)[ErrorStored]
    decreases |run|
  {
    hide Fails, FailingNow, Step;
    if run != [] {
      FailuresStep(s, run[0]);
      FailuresAll(Step(s, run[0]), run[1..], s');
    }
  }

  /** In every run the copies that failed are the errors stored and those that
      their workers are about to store. */
  lemma FailuresStored(s0: Pool, run: seq<Action>, s: Pool)
    requires Initial(s0) && Reaches(s0, run, s)
    ensures Failures(s0, run) == multiset(s.log)[ErrorStored] + FailingNow(s.workers)
  {
    FailuresAll(s0, run, s);
    NoneFailing(s0.workers);
    hide Failures, FailingNow, Reaches;
  }

  lemma {:induction false} ErrorFirstStored(log: seq<Mark>)
    requires ErrorFirst(log)
    ensures ErrorStored in log
  {
    if !(log[|log| - 1] == Exchanged && ErrorStored in log[..|log| - 1]) {
      ErrorFirstStored(log[..|log| - 1]);
    }
  }

  /** The join reports an error exactly when a worker stored one before the
      exchange, so only if a copy failed; otherwise it reports the running
      state.  When it is over, every failed copy has stored its error. */
  lemma JoinReports(s0: Pool, run: seq<Action>, s: Pool)
    requires Initial(s0) && Reaches(s0, run, s) && s.joiner != Begin
    ensures s.result == if ErrorFirst(s.log) then Error else Running
    ensures s.result == Error ==> Failures(s0, run) > 0
    ensures s.joiner == Joined ==> Failures(s0, run) == multiset(s.log)[ErrorStored]
  {
    InitialInv(s0);
    ReachesInv(s0, run, s);
    hide Owners, Lates, Counts, Places, Replay;
    FailuresStored(s0, run, s);
    hide Failures, Reaches, FailingNow;
    if ErrorFirst(s.log) {
      ErrorFirstStored(s.log);
    }
    if s.joiner == Joined {
      NoneFailing(s.workers);
    }
  }

  /** The unlocked check keeps the queue short: with k producers it never holds
      more than MAX_PENDING + k tasks, and the counter never wraps.  Whenever
      the lock is free the counter is the length of the queue. */
  lemma QueueBound(s0: Pool, run: seq<Action>, s: Pool)
    requires Initial(s0) && Reaches(s0, run, s)
    ensures |s.queue| <= MAX_PENDING + |s0.producers|
    ensures s.pending <= MAX_PENDING + |s0.producers|
    ensures s.lock == Free ==> s.pending == |s.queue|
  {
    InitialInv(s0);
    ReachesInv(s0, run, s);
    if s.lock.ByProducer? && s.producers[s.lock.j].Increment? {
      FlightsUpdate(s.producers, s.lock.j, Idle);
    }
  }

  /** After the join every worker has exited, and each accepted task is either
      finished or still in the queue. */
  lemma AfterJoin(s0: Pool, run: seq<Action>, s: Pool, t: Task)
    requires Initial(s0) && Reaches(s0, run, s) && s.joiner == Joined
    ensures forall i :: 0 <= i < |s.workers| ==> s.workers[i] == Exited
    ensures Enqueued(t) in s.log ==> (t in s.queue <==> !(Ran(t) in s.log && Freed(t) in s.log))
  {
    InitialInv(s0);
    ReachesInv(s0, run, s);
    if Enqueued(t) in s.log {
      OnePlace(s0, run, s, t);
    }
  }

  /** With the one producer the program has, the join leaves at most six
      accepted tasks behind. */
  lemma LeftBehind(s0: Pool, run: seq<Action>, s: Pool)
    requires Initial(s0) && |s0.producers| == 1 && Reaches(s0, run, s) && s.joiner == Joined
    ensures |s.queue| <= 6
    ensures forall t :: Enqueued(t) in s.log && t !in s.queue ==> Ran(t) in s.log && Freed(t) in s.log
  {
    QueueBound(s0, run, s);
    forall t | Enqueued(t) in s.log && t !in s.queue ensures Ran(t) in s.log && Freed(t) in s.log {
      AfterJoin(s0, run, s, t);
    }
  }

  // ----- the bounds are reached

  lemma {:induction false} ReachesOn(s: Pool, run: seq<Action>, m: Pool, more: seq<Action>, s': Pool)
    requires Reaches(s, run, m) && Reaches(m, more, s')
    ensures Reaches(s, run + more, s')
    decreases |run|
  {
    hide Step, Enabled;
    if run == [] {
      assert run + more == more;
    } else {
      assert (run + more)[1..] == run[1..] + more;
      ReachesOn(Step(s, run[0]), run[1..], m, more, s');
    }
  }

  lemma OneMore(s: Pool, run: seq<Action>, m: Pool, a: Action)
    requires Reaches(s, run, m) && Enabled(m, a)
    ensures Reaches(s, run + [a], Step(m, a))
  {
    hide Step, Enabled;
    assert [a][1..] == [];
    assert Reaches(m, [a], Step(m, a)) by {
      assert Reaches(Step(m, a), [], Step(m, a));
    }
    ReachesOn(s, run, m, [a], Step(m, a));
  }

  /** The pool runs and nobody holds its lock; `n` tasks are queued. */
  predicate Calm(s: Pool, n: nat) {
    s.lock == Free && s.state == Running && s.joiner == Begin && s.pending == n == |s.queue|
  }

  lemma Again(ps: seq<Producer>, j: nat, p: Producer, q: Producer)
    requires j < |ps|
    ensures ps[j := p][j := q] == ps[j := q]
  {
  }

  /** A producer passes the unlocked check. */
  lemma PassCheck(s0: Pool, run: seq<Action>, s: Pool, j: nat, n: nat) returns (run': seq<Action>, s': Pool)
    requires Reaches(s0, run, s) && Calm(s, n) && n <= MAX_PENDING
    requires j < |s.producers| && s.producers[j] == Idle
    ensures Reaches(s0, run', s') && Calm(s', n)
    ensures s'.producers == s.producers[j := Alloc] && s'.workers == s.workers
  {
    hide Reaches;
    Again(s.producers, j, LoadState, LoadPending);
    Again(s.producers, j, LoadPending, Alloc);
    var a, b := AtP(s, j, LoadState), AtP(s, j, LoadPending);
    OneMore(s0, run, s, Produce(j));
    OneMore(s0, run + [Produce(j)], a, Produce(j));
    OneMore(s0, run + [Produce(j)] + [Produce(j)], b, Produce(j));
    run', s' := run + [Produce(j)] + [Produce(j)] + [Produce(j)], AtP(s, j, Alloc);
  }

  /** Behind the check it queues its task whatever the counter is by then: it
      gets the lock ... */
  lemma TakeLock(s0: Pool, run: seq<Action>, s: Pool, j: nat, n: nat) returns (run': seq<Action>, s': Pool)
    requires Reaches(s0, run, s) && Calm(s, n) && j < |s.producers| && s.producers[j] == Alloc
    ensures Reaches(s0, run', s')
    ensures s' == s.(nextTask := s.nextTask + 1, lock := ByProducer(j),
                     producers := s.producers[j := Append(s.nextTask)])
  {
    hide Reaches;
    var t := s.nextTask;
    Again(s.producers, j, Acquire(t), Confirm(t));
    Again(s.producers, j, Confirm(t), Append(t));
    var a := AtP(s, j, Acquire(t)).(nextTask := t + 1);
    var b := AtP(a, j, Confirm(t)).(lock := ByProducer(j));
    OneMore(s0, run, s, Produce(j));
    OneMore(s0, run + [Produce(j)], a, Produce(j));
    OneMore(s0, run + [Produce(j)] + [Produce(j)], b, Produce(j));
    run', s' := run + [Produce(j)] + [Produce(j)] + [Produce(j)], AtP(b, j, Append(t));
  }

  /** ... and appends it. */
  lemma Deliver(s0: Pool, run: seq<Action>, s: Pool, j: nat, n: nat) returns (run': seq<Action>, s': Pool)
    requires Reaches(s0, run, s) && Calm(s, n) && n + 1 < UINT && j < |s.producers| && s.producers[j] == Alloc
    ensures Reaches(s0, run', s') && Calm(s', n + 1)
    ensures s'.producers == s.producers[j := Idle] && s'.workers == s.workers
  {
    hide Reaches;
    var m;
    run', m := TakeLock(s0, run, s, j, n);
    var t := s.nextTask;
    Again(s.producers, j, Append(t), Increment);
    Again(s.producers, j, Increment, Signal);
    Again(s.producers, j, Signal, Done);
    Again(s.producers, j, Done, Returned(Success));
    Again(s.producers, j, Returned(Success), Idle);
    var a := AtP(m, j, Increment).(queue := m.queue + [t], log := m.log + [Enqueued(t)]);
    var b := AtP(a, j, Signal).(pending := (a.pending + 1) % UINT);
    var c := AtP(b, j, Done);
    var d := AtP(c, j, Returned(Success)).(lock := Free);
    OneMore(s0, run', m, Produce(j));
    OneMore(s0, run' + [Produce(j)], a, Produce(j));
    OneMore(s0, run' + [Produce(j)] + [Produce(j)], b, Produce(j));
    OneMore(s0, run' + [Produce(j)] + [Produce(j)] + [Produce(j)], c, Produce(j));
    OneMore(s0, run' + [Produce(j)] + [Produce(j)] + [Produce(j)] + [Produce(j)], d, Produce(j));
    run' := run' + [Produce(j)] + [Produce(j)] + [Produce(j)] + [Produce(j)] + [Produce(j)];
    s' := AtP(d, j, Idle);
  }

  /** The first producer queues `n` tasks alone. */
  lemma {:induction false} Fill(s0: Pool, n: nat) returns (run: seq<Action>, s: Pool)
    requires Initial(s0) && |s0.producers| > 0 && n <= MAX_PENDING
    ensures Reaches(s0, run, s) && Calm(s, n) && s.producers == s0.producers && s.workers == s0.workers
  {
    if n == 0 {
      run, s := [], s0;
    } else {
      run, s := Fill(s0, n - 1);
      hide Reaches;
      run, s := PassCheck(s0, run, s, 0, n - 1);
      run, s := Deliver(s0, run, s, 0, n - 1);
      assert s.producers == s0.producers;
    }
  }

  /** With MAX_PENDING tasks queued, `n` producers pass the check. */
  lemma {:induction false} PassAll(s0: Pool, n: nat) returns (run: seq<Action>, s: Pool)
    requires Initial(s0) && 0 < n <= |s0.producers|
    ensures Reaches(s0, run, s) && Calm(s, MAX_PENDING) && |s.producers| == |s0.producers| && s.workers == s0.workers
    ensures forall j :: 0 <= j < |s.producers| ==> s.producers[j] == if j < n then Alloc else Idle
    decreases n
  {
    hide Reaches;
    if n == 1 {
      run, s := Fill(s0, MAX_PENDING);
    } else {
      run, s := PassAll(s0, n - 1);
    }
    run, s := PassCheck(s0, run, s, n - 1, MAX_PENDING);
  }

  /** They all queue their tasks. */
  lemma {:induction false} DeliverAll(s0: Pool, n: nat) returns (run: seq<Action>, s: Pool)
    requires Initial(s0) && n <= |s0.producers| && |s0.producers| > 0
    ensures Reaches(s0, run, s) && Calm(s, MAX_PENDING + n) && |s.producers| == |s0.producers|
    ensures s.workers == s0.workers
    ensures forall j :: n <= j < |s.producers| ==> s.producers[j] == Alloc
    decreases n
  {
    hide Reaches;
    if n == 0 {
      run, s := PassAll(s0, |s0.producers|);
    } else {
      run, s := DeliverAll(s0, n - 1);
      run, s := Deliver(s0, run, s, n - 1, MAX_PENDING + n - 1);
    }
  }

  /** The bound on the queue is the best: some run from any start ends with that
      many tasks queued, and nobody holding the lock. */
  lemma BoundReached(s0: Pool) returns (run: seq<Action>, s: Pool)
    requires Initial(s0) && |s0.producers| > 0
    ensures Reaches(s0, run, s) && s.lock == Free
    ensures |s.queue| == s.pending == MAX_PENDING + |s0.producers|
  {
    run, s := DeliverAll(s0, |s0.producers|);
  }

  /** The pool is closed, nobody holds its lock, and the first `n` workers have
      exited. */
  ghost predicate Closing(s: Pool, n: nat, queue: seq<Task>) {
    && s.lock == Free && s.state == Closed && s.queue == queue && n <= |s.workers|
    && forall i :: 0 <= i < |s.workers| ==> s.workers[i] == if i < n then Exited else Lock
  }

  /** A worker that finds the pool closed exits. */
  lemma ExitOne(s0: Pool, run: seq<Action>, s: Pool, i: nat, queue: seq<Task>) returns (run': seq<Action>, s': Pool)
    requires Reaches(s0, run, s) && Closing(s, i, queue) && i < |s.workers|
    ensures Reaches(s0, run', s') && Closing(s', i + 1, queue)
    ensures s'.joiner == s.joiner && |s'.workers| == |s.workers|
  {
    hide Reaches;
    var w := Work(i, false);
    var a := At(s, i, Check).(lock := ByWorker(i));
    var b := At(a, i, Terminate);
    OneMore(s0, run, s, w);
    OneMore(s0, run + [w], a, w);
    OneMore(s0, run + [w] + [w], b, w);
    run', s' := run + [w] + [w] + [w], At(b, i, Exited).(lock := Free);
  }

  lemma {:induction false} ExitAll(s0: Pool, run: seq<Action>, s: Pool, n: nat, queue: seq<Task>)
    returns (run': seq<Action>, s': Pool)
    requires Reaches(s0, run, s) && Closing(s, 0, queue) && n <= |s.workers|
    ensures Reaches(s0, run', s') && Closing(s', n, queue)
    ensures s'.joiner == s.joiner && |s'.workers| == |s.workers|
  {
    hide Reaches;
    if n == 0 {
      run', s' := run, s;
    } else {
      run', s' := ExitAll(s0, run, s, n - 1, queue);
      run', s' := ExitOne(s0, run', s', n - 1, queue);
    }
  }

  lemma {:induction false} JoinAll(s0: Pool, run: seq<Action>, s: Pool, n: nat, queue: seq<Task>)
    returns (run': seq<Action>, s': Pool)
    requires Reaches(s0, run, s) && Closing(s, |s.workers|, queue) && s.joiner == Joining(0) && n <= |s.workers|
    ensures Reaches(s0, run', s') && Closing(s', |s.workers|, queue) && |s'.workers| == |s.workers|
    ensures s'.joiner == Joining(n)
  {
    hide Reaches;
    if n == 0 {
      run', s' := run, s;
    } else {
      run', s' := JoinAll(s0, run, s, n - 1, queue);
      OneMore(s0, run', s', Join);
      run', s' := run' + [Join], Step(s', Join);
    }
  }

  /** So many tasks can be left behind: six by the one producer the program has. */
  lemma LeftReached(s0: Pool) returns (run: seq<Action>, s: Pool)
    requires Initial(s0) && |s0.producers| > 0
    ensures Reaches(s0, run, s) && s.joiner == Joined && |s.queue| == MAX_PENDING + |s0.producers|
    ensures |s0.producers| == 1 ==> |s.queue| == 6
  {
    run, s := DeliverAll(s0, |s0.producers|);
    hide Reaches;
    var queue := s.queue;
    OneMore(s0, run, s, Join);
    run, s := run + [Join], Step(s, Join);
    OneMore(s0, run, s, Join);
    run, s := run + [Join], Step(s, Join);
    run, s := ExitAll(s0, run, s, |s.workers|, queue);
    run, s := JoinAll(s0, run, s, |s.workers|, queue);
    OneMore(s0, run, s, Join);
    run, s := run + [Join], Step(s, Join);
  }

  /** A worker always takes the task accepted last: replaying the log on a
      stack succeeds and gives the queue. */
  lemma NewestFirst(s0: Pool, run: seq<Action>, s: Pool)
    requires Initial(s0) && Reaches(s0, run, s)
    ensures Replay(s.log) == Stack(s.queue)
  {
    InitialInv(s0);
    ReachesInv(s0, run, s);
  }
}
