/** What a thread of the copy pool may do along a run: how a worker fails and
    waits, what a producer is answered, and how the join can wait for ever. */
module CpSchedRuns {
  import opened CpSched
  import opened CpSchedLaws

  // ----- the end of a worker

  ghost predicate FailsAt(s: Pool, a: Action, i: nat)
    requires Enabled(s, a)
  {
    a == Work(i, true) && s.workers[i].Copy?
  }

  ghost function FailuresOf(s: Pool, run: seq<Action>, i: nat): (n: nat)
    decreases |run|
  {
    if run == [] || !Enabled(s, run[0]) then 0
    else (if FailsAt(s, run[0], i) then 1 else 0) + FailuresOf(Step(s, run[0]), run[1..], i)
  }

  /** On its way out after a failed copy. */
  predicate Spent(w: Worker) {
    (w.Release? && w.err) || w == Store || w == Broadcast
  }

  lemma SpentStep(s: Pool, a: Action, i: nat)
    requires Enabled(s, a) && i < |s.workers|
    ensures i < |Step(s, a).workers|
    ensures var w, w' := s.workers[i], Step(s, a).workers[i];
            && (w == Exited ==> w' == Exited) && (Spent(w) ==> Spent(w') || w' == Exited)
            && (FailsAt(s, a, i) ==> Spent(w') && !Spent(w) && w != Exited)
  {
    match a {
      case Work(k, err) =>
        if k != i {
          WorkerShape(s, k, err);
          hide WorkerStep;
        }
      case Produce(j) =>
        ProducerShape(s, j);
        hide ProducerStep;
      case Join =>
    }
  }

  /** A worker makes no copy after one that failed: it is on its way out, or
      gone. */
  lemma {:induction false} FailsOnce(s: Pool, run: seq<Action>, s': Pool, i: nat)
    requires Reaches(s, run, s') && i < |s.workers|
    ensures i < |s'.workers| && FailuresOf(s, run, i) <= 1
    ensures FailuresOf(s, run, i) == 1 || Spent(s.workers[i]) ==> Spent(s'.workers[i]) || s'.workers[i] == Exited
    ensures Spent(s.workers[i]) || s.workers[i] == Exited ==> FailuresOf(s, run, i) == 0
    ensures s.workers[i] == Exited ==> s'.workers[i] == Exited
    decreases |run|
  {
    hide FailsAt, Spent, Step;
    if run != [] {
      SpentStep(s, run[0], i);
      FailsOnce(Step(s, run[0]), run[1..], s', i);
    }
  }

  /** Workers end only when the pool does. */
  ghost predicate Endings(s: Pool) {
    forall i :: 0 <= i < |s.workers| && (s.workers[i].Terminate? || s.workers[i].Broadcast? || s.workers[i].Exited?) ==>
      Left(s.log)
  }

  lemma WorkerEnds(s: Pool, i: nat, err: bool)
    requires States(s) && WorkerEnabled(s, i)
    ensures var s' := WorkerStep(s, i, err);
            && (Left(s.log) ==> Left(s'.log))
            && (s'.workers[i].Terminate? || s'.workers[i].Broadcast? || s'.workers[i].Exited? ==>
                  Left(s'.log) || s.workers[i].Terminate? || s.workers[i].Broadcast?)
  {
  }

  lemma EndingsKept(s: Pool, a: Action)
    requires States(s) && Endings(s) && Enabled(s, a)
    ensures Endings(Step(s, a))
  {
    match a {
      case Work(i, err) =>
        WorkerShape(s, i, err);
        WorkerEnds(s, i, err);
        hide WorkerStep, Left, States;
      case Produce(j) =>
        ProducerShape(s, j);
        LogGrows(s, a);
        hide ProducerStep, States;
      case Join =>
    }
  }

  lemma {:induction false} EndingsAll(s: Pool, run: seq<Action>, s': Pool)
    requires Inv(s) && Endings(s) && Reaches(s, run, s')
    ensures Endings(s')
    decreases |run|
  {
    if run != [] {
      InvKept(s, run[0]);
      assert States(s);
      hide Inv, Endings, Step, States;
      EndingsKept(s, run[0]);
      EndingsAll(Step(s, run[0]), run[1..], s');
    }
  }

  /** No worker exits while the pool runs. */
  lemma ExitsAtEnd(s0: Pool, run: seq<Action>, s: Pool, i: nat)
    requires Initial(s0) && Reaches(s0, run, s)
    requires i < |s.workers| && s.workers[i] == Exited
    ensures s.state != Running
  {
    InitialInv(s0);
    EndingsAll(s0, run, s);
    ReachesInv(s0, run, s);
    hide Reaches, Owners, Lates, Counts, Places, Waited, Replay;
  }

  // ----- waits

  /** With this step worker `i` wakes. */
  ghost predicate Wakes(s: Pool, a: Action, i: nat)
    requires Enabled(s, a)
  {
    a.Work? && a.i == i && s.workers[i].Blocked?
  }

  /** With this step worker `i` takes a task. */
  ghost predicate Takes(s: Pool, a: Action, i: nat)
    requires Enabled(s, a)
  {
    a.Work? && a.i == i && exists t :: Step(s, a).log == s.log + [Dequeued(t)]
  }

  ghost function Wakings(s: Pool, run: seq<Action>, i: nat): (n: nat)
    decreases |run|
  {
    if run == [] || !Enabled(s, run[0]) then 0
    else (if Wakes(s, run[0], i) then 1 else 0) + Wakings(Step(s, run[0]), run[1..], i)
  }

  ghost function Takings(s: Pool, run: seq<Action>, i: nat): (n: nat)
    decreases |run|
  {
    if run == [] || !Enabled(s, run[0]) then 0
    else (if Takes(s, run[0], i) then 1 else 0) + Takings(Step(s, run[0]), run[1..], i)
  }

  /** Woken, with no task taken since. */
  predicate Woken(w: Worker) {
    w.Relock? || w.Recheck? || w.TestEmpty? || w.Unlink?
  }

  lemma WakesStep(s: Pool, a: Action, i: nat)
    requires Enabled(s, a) && i < |s.workers|
    ensures i < |Step(s, a).workers|
    ensures (if Takes(s, a, i) then 1 else 0) + (if Woken(Step(s, a).workers[i]) then 1 else 0) <=
            (if Wakes(s, a, i) then 1 else 0) + if Woken(s.workers[i]) then 1 else 0
  {
    match a {
      case Work(k, err) =>
        if k != i {
          WorkerShape(s, k, err);
          hide WorkerStep;
        } else if Takes(s, a, i) {
          var t :| Step(s, a).log == s.log + [Dequeued(t)];
          assert Step(s, a).log[|s.log|] == Dequeued(t);
        }
      case Produce(j) =>
        ProducerShape(s, j);
        hide ProducerStep;
      case Join =>
    }
  }

  lemma {:induction false} WakesAll(s: Pool, run: seq<Action>, s': Pool, i: nat)
    requires Reaches(s, run, s') && i < |s.workers|
    ensures i < |s'.workers|
    ensures Takings(s, run, i) + (if Woken(s'.workers[i]) then 1 else 0) <=
            Wakings(s, run, i) + if Woken(s.workers[i]) then 1 else 0
    decreases |run|
  {
    hide Takes, Wakes, Woken, Step;
    if run != [] {
      WakesStep(s, run[0], i);
      WakesAll(Step(s, run[0]), run[1..], s', i);
    }
  }

  /** A worker waits before it takes a task, also when one is queued already:
      it takes no more tasks than it is woken. */
  lemma WaitsFirst(s0: Pool, run: seq<Action>, s: Pool, i: nat)
    requires Initial(s0) && Reaches(s0, run, s) && i < |s0.workers|
    ensures Takings(s0, run, i) <= Wakings(s0, run, i)
  {
    WakesAll(s0, run, s, i);
    hide Takings, Wakings, Reaches;
  }

  // ----- answers

  /** The state word as the log leaves it. */
  function Word(log: seq<Mark>): PoolState {
    if log == [] then Running
    else
      match log[|log| - 1]
      case ErrorStored => Error
      case Exchanged => Closed
      case _ => Word(log[..|log| - 1])
  }

  lemma WordOn(s: Pool, s': Pool)
    requires s.state == Word(s.log) && Logged(s, s')
    ensures s'.state == Word(s'.log)
  {
    if s'.log != s.log {
      var m := s'.log[|s'.log| - 1];
      assert s'.log == s.log + [m] && s'.log[..|s'.log| - 1] == s.log;
    }
  }

  lemma WordKept(s: Pool, a: Action)
    requires s.state == Word(s.log) && Enabled(s, a)
    ensures Step(s, a).state == Word(Step(s, a).log)
  {
    match a {
      case Work(i, err) =>
        WorkerLogged(s, i, err);
        WordOn(s, WorkerStep(s, i, err));
        hide WorkerStep, Word;
      case Produce(j) =>
        ProducerLogged(s, j);
        WordOn(s, ProducerStep(s, j));
        hide ProducerStep, Word;
      case Join =>
    }
  }

  lemma {:induction false} WordMarked(log: seq<Mark>)
    ensures Word(log) == Error ==> ErrorStored in log
    ensures Word(log) == Closed ==> Exchanged in log
    ensures Word(log) == Running <==> !Left(log)
  {
    if log != [] {
      WordMarked(log[..|log| - 1]);
      assert log == log[..|log| - 1] + [log[|log| - 1]];
    }
  }

  /** What a producer has seen or answers has happened. */
  predicate Truthful(log: seq<Mark>, p: Producer) {
    match p
    case Reject(_, seen) => if seen == Error then ErrorStored in log else Exchanged in log
    case Discard(_, seen) => if seen == Error then ErrorStored in log else Exchanged in log
    case Returned(code) => (code == Failed ==> ErrorStored in log) && (code == Terminated ==> Exchanged in log)
    case _ => true
  }

  ghost predicate Answers(s: Pool) {
    s.state == Word(s.log) && forall j :: 0 <= j < |s.producers| ==> Truthful(s.log, s.producers[j])
  }

  lemma TruthfulOn(log: seq<Mark>, log': seq<Mark>, p: Producer)
    requires Truthful(log, p) && log <= log'
    ensures Truthful(log', p)
  {
  }

  lemma TruthfulStep(s: Pool, j: nat)
    requires s.state == Word(s.log) && ProducerEnabled(s, j) && Truthful(s.log, s.producers[j])
    ensures Truthful(ProducerStep(s, j).log, ProducerStep(s, j).producers[j])
  {
    WordMarked(s.log);
    hide Word;
  }

  lemma AnswersKept(s: Pool, a: Action)
    requires Answers(s) && Enabled(s, a)
    ensures Answers(Step(s, a))
  {
    WordKept(s, a);
    LogGrows(s, a);
    SameThreads(s, a);
    hide Truthful, Word, WorkerStep, ProducerStep;
    forall j | 0 <= j < |s.producers| ensures Truthful(Step(s, a).log, Step(s, a).producers[j]) {
      match a {
        case Work(i, err) => WorkerShape(s, i, err);
        case Produce(k) => ProducerShape(s, k);
        case Join =>
      }
      if a == Produce(j) {
        TruthfulStep(s, j);
      } else {
        TruthfulOn(s.log, Step(s, a).log, s.producers[j]);
      }
    }
  }

  lemma {:induction false} AnswersAll(s: Pool, run: seq<Action>, s': Pool)
    requires Answers(s) && Reaches(s, run, s')
    ensures Answers(s')
    decreases |run|
  {
    hide Answers, Step;
    if run != [] {
      AnswersKept(s, run[0]);
      AnswersAll(Step(s, run[0]), run[1..], s');
    }
  }

  /** A producer is told of an error or of the end only when there was one. */
  lemma AnswersMean(s0: Pool, run: seq<Action>, s: Pool, j: nat)
    requires Initial(s0) && Reaches(s0, run, s) && j < |s.producers|
    ensures s.producers[j] == Returned(Failed) ==> ErrorStored in s.log
    ensures s.producers[j] == Returned(Terminated) ==> Exchanged in s.log
  {
    AnswersAll(s0, run, s);
    hide Reaches, Word;
  }

  /** What the first look of a call at the state word makes of it: it goes on
      while the pool runs, and is otherwise told what happened last. */
  lemma FirstLook(s0: Pool, run: seq<Action>, s: Pool, j: nat)
    requires Initial(s0) && Reaches(s0, run, s) && j < |s.producers| && s.producers[j] == LoadState
    ensures Step(s, Produce(j)).producers[j] ==
            match Word(s.log)
            case Running => LoadPending
            case Error => Returned(Failed)
            case Closed => Returned(Terminated)
    ensures Word(s.log) == Running <==> !Left(s.log)
  {
    AnswersAll(s0, run, s);
    WordMarked(s.log);
    hide Reaches, Word;
  }

  /** The call has not passed its first look at the state word. */
  predicate TurnedAway(p: Producer) {
    p == Idle || p == LoadState || p == Returned(Failed) || p == Returned(Terminated)
  }

  lemma TurnedAwayStep(s: Pool, a: Action, j: nat)
    requires s.state != Running && Enabled(s, a) && j < |s.producers| && TurnedAway(s.producers[j])
    ensures Step(s, a).state != Running && j < |Step(s, a).producers| && TurnedAway(Step(s, a).producers[j])
  {
    match a {
      case Work(i, err) =>
        WorkerShape(s, i, err);
        WorkerQueue(s, i, err);
        hide WorkerStep;
      case Produce(k) =>
        if k != j {
          ProducerShape(s, k);
          hide ProducerStep;
        }
      case Join =>
    }
  }

  /** A call made after the pool has left the running state is refused at once:
      it allocates nothing, and it is not told that the pool is busy. */
  lemma {:induction false} RefusedAtOnce(s: Pool, more: seq<Action>, s': Pool, j: nat)
    requires s.state != Running && j < |s.producers| && TurnedAway(s.producers[j]) && Reaches(s, more, s')
    ensures j < |s'.producers| && TurnedAway(s'.producers[j])
    decreases |more|
  {
    hide TurnedAway, Step;
    if more != [] {
      TurnedAwayStep(s, more[0], j);
      RefusedAtOnce(Step(s, more[0]), more[1..], s', j);
    }
  }

  lemma BusyStep(s: Pool, j: nat)
    requires ProducerEnabled(s, j)
    ensures ProducerStep(s, j).producers[j] == Returned(Busy) <==>
            s.producers[j] == LoadPending && s.pending > MAX_PENDING
  {
  }

  /** A call is told that the pool is busy when more than MAX_PENDING tasks are
      queued, give or take the one that the owner of the lock is counting. */
  lemma BusyMeansFull(s0: Pool, run: seq<Action>, s: Pool, j: nat)
    requires Initial(s0) && Reaches(s0, run, s) && j < |s.producers| && s.producers[j] == LoadPending
    ensures var busy := Step(s, Produce(j)).producers[j] == Returned(Busy);
            && (busy ==> |s.queue| >= MAX_PENDING) && (|s.queue| > MAX_PENDING + 1 ==> busy)
            && (s.lock == Free ==> (busy <==> |s.queue| > MAX_PENDING))
  {
    BusyStep(s, j);
    InitialInv(s0);
    ReachesInv(s0, run, s);
    hide Reaches, Owners, States, Lates, Places, Waited, Replay, Flights, ProducerStep;
  }

  /** How often producer `j` moves in `more`. */
  function Turns(more: seq<Action>, j: nat): (n: nat) {
    if more == [] then 0
    else (if more[0] == Produce(j) then 1 else 0) + Turns(more[1..], j)
  }

  lemma OthersTurn(s: Pool, a: Action, j: nat)
    requires Enabled(s, a) && j < |s.producers| && a != Produce(j)
    ensures j < |Step(s, a).producers| && Step(s, a).producers[j] == s.producers[j]
  {
    match a {
      case Work(i, err) =>
        WorkerShape(s, i, err);
        hide WorkerStep;
      case Produce(k) =>
        ProducerShape(s, k);
        hide ProducerStep;
      case Join =>
    }
  }

  lemma {:induction false} NoTurns(s: Pool, more: seq<Action>, s': Pool, j: nat)
    requires Reaches(s, more, s') && j < |s.producers| && Turns(more, j) == 0
    ensures j < |s'.producers| && s'.producers[j] == s.producers[j]
    decreases |more|
  {
    hide Step;
    if more != [] {
      OthersTurn(s, more[0], j);
      NoTurns(Step(s, more[0]), more[1..], s', j);
    }
  }

  /** The rest of a refused call, whatever the others do in between. */
  lemma {:induction false} RestOfCall(s: Pool, more: seq<Action>, s': Pool, j: nat, t: Task, seen: PoolState)
    requires Reaches(s, more, s') && j < |s.producers|
    requires (s.producers[j] == Reject(t, seen) && Turns(more, j) == 2)
             || (s.producers[j] == Discard(t, seen) && Turns(more, j) == 1)
    ensures j < |s'.producers| && s'.producers[j] == Returned(if seen == Error then Failed else Terminated)
    decreases |more|
  {
    var m := Step(s, more[0]);
    if more[0] != Produce(j) {
      hide Step;
      OthersTurn(s, more[0], j);
      RestOfCall(m, more[1..], s', j, t, seen);
    } else if s.producers[j].Reject? {
      assert m.producers[j] == Discard(t, seen);
      hide Step;
      RestOfCall(m, more[1..], s', j, t, seen);
    } else {
      assert m.producers[j] == Returned(if seen == Error then Failed else Terminated);
      hide Step;
      NoTurns(m, more[1..], s', j);
    }
  }

  /** A call refused under the lock answers what it saw there, whatever happens
      to the state word before it returns. */
  lemma TellsWhatItSaw(s: Pool, more: seq<Action>, s': Pool, j: nat)
    requires ProducerEnabled(s, j) && s.producers[j].Confirm? && s.state != Running
    requires Reaches(Step(s, Produce(j)), more, s') && Turns(more, j) == 2
    ensures j < |s'.producers| && s'.producers[j] == Returned(if s.state == Error then Failed else Terminated)
  {
    RestOfCall(Step(s, Produce(j)), more, s', j, s.producers[j].task, s.state);
  }

  // ----- no address is lost

  ghost predicate Held(s: Pool, t: Task) {
    exists j :: 0 <= j < |s.producers| && t in Offered(s.producers[j])
  }

  ghost predicate Known(s: Pool, first: Task) {
    forall t :: first <= t < s.nextTask ==> Held(s, t) || Enqueued(t) in s.log || Freed(t) in s.log
  }

  lemma ProducerHolds(s: Pool, j: nat, t: Task)
    requires ProducerEnabled(s, j) && t < ProducerStep(s, j).nextTask
    requires t in Offered(s.producers[j]) || t >= s.nextTask
    ensures var s' := ProducerStep(s, j);
            t in Offered(s'.producers[j]) || Enqueued(t) in s'.log || Freed(t) in s'.log
  {
    var s' := ProducerStep(s, j);
    if s.producers[j].Append? || s.producers[j].Discard? {
      assert s'.log[|s.log|] in s'.log;
    }
  }

  lemma KnownKept(s: Pool, a: Action, first: Task)
    requires Known(s, first) && Enabled(s, a)
    ensures Known(Step(s, a), first)
  {
    LogGrows(s, a);
    SameThreads(s, a);
    var s' := Step(s, a);
    forall t | first <= t < s'.nextTask ensures Held(s', t) || Enqueued(t) in s'.log || Freed(t) in s'.log {
      match a {
        case Work(i, err) =>
          WorkerShape(s, i, err);
          hide WorkerStep, Offered;
        case Produce(k) =>
          ProducerShape(s, k);
          if t in Offered(s.producers[k]) || t >= s.nextTask {
            ProducerHolds(s, k, t);
          }
          hide ProducerStep, Offered;
        case Join =>
      }
      if t < s.nextTask && Held(s, t) {
        var j :| 0 <= j < |s.producers| && t in Offered(s.producers[j]);
        assert t in Offered(s'.producers[j]) || a == Produce(j);
      }
    }
  }

  lemma {:induction false} KnownAll(s: Pool, run: seq<Action>, s': Pool, first: Task)
    requires Known(s, first) && Reaches(s, run, s')
    ensures Known(s', first)
    decreases |run|
  {
    hide Known, Step;
    if run != [] {
      KnownKept(s, run[0], first);
      KnownAll(Step(s, run[0]), run[1..], s', first);
    }
  }

  /** No task is lost: every address malloc() gave is in a producer's hands, was
      enqueued, or has been freed. */
  lemma NoneLost(s0: Pool, run: seq<Action>, s: Pool, t: Task)
    requires Initial(s0) && Reaches(s0, run, s) && s0.nextTask <= t < s.nextTask
    ensures || Enqueued(t) in s.log || Freed(t) in s.log
            || exists j :: 0 <= j < |s.producers| && t in Offered(s.producers[j])
  {
    KnownAll(s0, run, s, s0.nextTask);
  }

  // ----- the work gets done

  /** So many steps of worker `i` alone, each copy of which succeeds. */
  function Alone(i: nat, n: nat): (run: seq<Action>)
    ensures |run| == n && forall a :: a in run ==> a == Work(i, false)
  {
    seq(n, _ => Work(i, false))
  }

  /** The pool runs, its lock is free, and worker `i` is about to take it. */
  predicate Ready(s: Pool, i: nat) {
    i < |s.workers| && s.workers[i] == Lock && s.lock == Free && s.state == Running
    && s.pending == |s.queue| < UINT
  }

  lemma AgainW(ws: seq<Worker>, i: nat, p: Worker, q: Worker)
    requires i < |ws|
    ensures ws[i := p][i := q] == ws[i := q]
  {
  }

  lemma {:induction false} OnTheWay(s: Pool, i: nat, n: nat, m: Pool)
    requires Reaches(s, Alone(i, n), m) && WorkerEnabled(m, i)
    ensures Reaches(s, Alone(i, n + 1), WorkerStep(m, i, false))
  {
    assert Alone(i, n + 1) == Alone(i, n) + [Work(i, false)];
    hide Reaches, WorkerStep, WorkerEnabled;
    OneMore(s, Alone(i, n), m, Work(i, false));
  }

  /** A worker waits, is woken, and finds the state of the pool unchanged. */
  lemma WakesUp(s: Pool, i: nat)
    requires Ready(s, i)
    ensures Reaches(s, Alone(i, 6), At(s, i, TestEmpty).(lock := ByWorker(i)))
  {
    assert Reaches(s, Alone(i, 0), s);
    hide Reaches, Alone;
    var a := At(s, i, Check).(lock := ByWorker(i));
    var b, c, d := At(a, i, Wait), At(s, i, Blocked), At(s, i, Relock);
    var e := At(s, i, Recheck).(lock := ByWorker(i));
    AgainW(s.workers, i, Check, Wait);
    AgainW(s.workers, i, Wait, Blocked);
    AgainW(s.workers, i, Blocked, Relock);
    AgainW(s.workers, i, Relock, Recheck);
    AgainW(s.workers, i, Recheck, TestEmpty);
    OnTheWay(s, i, 0, s);
    OnTheWay(s, i, 1, a);
    OnTheWay(s, i, 2, b);
    OnTheWay(s, i, 3, c);
    OnTheWay(s, i, 4, d);
    OnTheWay(s, i, 5, e);
  }

  /** The worker at `pc`, with the lock, before it takes its task or behind. */
  function Taking(s: Pool, i: nat, pc: Worker, queue: seq<Task>, pending: nat, log: seq<Mark>): Pool
    requires i < |s.workers|
  {
    At(s, i, pc).(lock := ByWorker(i), queue := queue, pending := pending, log := log)
  }

  lemma TakingSteps(s: Pool, i: nat, t: Task, queue: seq<Task>)
    requires Ready(s, i) && s.queue == queue + [t]
    ensures i < |s.workers|
    ensures At(s, i, TestEmpty).(lock := ByWorker(i)) == Taking(s, i, TestEmpty, s.queue, s.pending, s.log)
    ensures WorkerStep(Taking(s, i, TestEmpty, s.queue, s.pending, s.log), i, false) ==
            Taking(s, i, Unlink, s.queue, s.pending, s.log)
    ensures WorkerStep(Taking(s, i, Unlink, s.queue, s.pending, s.log), i, false) ==
            Taking(s, i, Decrement(t), queue, s.pending, s.log + [Dequeued(t)])
  {
    AgainW(s.workers, i, TestEmpty, Unlink);
    AgainW(s.workers, i, Unlink, Decrement(t));
    assert s.queue[..|s.queue| - 1] == queue;
  }

  lemma CountingSteps(s: Pool, i: nat, t: Task, queue: seq<Task>)
    requires Ready(s, i) && s.queue == queue + [t]
    ensures var log := s.log + [Dequeued(t)];
            && WorkerStep(Taking(s, i, Decrement(t), queue, s.pending, log), i, false) ==
               Taking(s, i, Unlock(t), queue, |queue|, log)
            && WorkerStep(Taking(s, i, Unlock(t), queue, |queue|, log), i, false) ==
               Taking(s, i, Copy(t), queue, |queue|, log).(lock := Free)
  {
    AgainW(s.workers, i, Decrement(t), Unlock(t));
    AgainW(s.workers, i, Unlock(t), Copy(t));
  }

  /** What a worker alone makes of the newest task. */
  function Served(s: Pool): Pool
    requires s.queue != []
  {
    var last := |s.queue| - 1;
    var t := s.queue[last];
    s.(queue := s.queue[..last], pending := last, log := s.log + [Dequeued(t)] + [Ran(t)] + [Freed(t)])
  }

  lemma RunningSteps(s: Pool, i: nat, t: Task, queue: seq<Task>)
    requires Ready(s, i) && s.queue == queue + [t]
    ensures var log := s.log + [Dequeued(t)];
            && WorkerStep(Taking(s, i, Copy(t), queue, |queue|, log).(lock := Free), i, false) ==
               Taking(s, i, Release(t, false), queue, |queue|, log + [Ran(t)]).(lock := Free)
            && WorkerStep(Taking(s, i, Release(t, false), queue, |queue|, log + [Ran(t)]).(lock := Free), i, false) ==
               Served(s)
  {
    AgainW(s.workers, i, Copy(t), Release(t, false));
    AgainW(s.workers, i, Release(t, false), Lock);
    assert s.workers[i := Lock] == s.workers;
    assert s.queue[..|s.queue| - 1] == queue;
  }

  lemma NotWaiting(s: Pool, i: nat, pc: Worker, queue: seq<Task>, pending: nat, log: seq<Mark>)
    requires i < |s.workers| && pc != Lock && pc != Relock && pc != Exited
    ensures WorkerEnabled(Taking(s, i, pc, queue, pending, log), i)
    ensures WorkerEnabled(Taking(s, i, pc, queue, pending, log).(lock := Free), i)
  {
  }

  lemma TakesOne(s: Pool, i: nat, t: Task, queue: seq<Task>)
    requires Ready(s, i) && s.queue == queue + [t]
    ensures i < |s.workers|
    ensures Reaches(s, Alone(i, 8), Taking(s, i, Decrement(t), queue, s.pending, s.log + [Dequeued(t)]))
  {
    hide *;
    WakesUp(s, i);
    TakingSteps(s, i, t, queue);
    NotWaiting(s, i, TestEmpty, s.queue, s.pending, s.log);
    OnTheWay(s, i, 6, Taking(s, i, TestEmpty, s.queue, s.pending, s.log));
    NotWaiting(s, i, Unlink, s.queue, s.pending, s.log);
    OnTheWay(s, i, 7, Taking(s, i, Unlink, s.queue, s.pending, s.log));
  }

  lemma CountsOne(s: Pool, i: nat, t: Task, queue: seq<Task>)
    requires Ready(s, i) && s.queue == queue + [t]
    ensures i < |s.workers|
    ensures Reaches(s, Alone(i, 10), Taking(s, i, Copy(t), queue, |queue|, s.log + [Dequeued(t)]).(lock := Free))
  {
    hide *;
    TakesOne(s, i, t, queue);
    CountingSteps(s, i, t, queue);
    var log := s.log + [Dequeued(t)];
    NotWaiting(s, i, Decrement(t), queue, s.pending, log);
    OnTheWay(s, i, 8, Taking(s, i, Decrement(t), queue, s.pending, log));
    NotWaiting(s, i, Unlock(t), queue, |queue|, log);
    OnTheWay(s, i, 9, Taking(s, i, Unlock(t), queue, |queue|, log));
  }

  lemma ServesOne(s: Pool, i: nat, t: Task, queue: seq<Task>)
    requires Ready(s, i) && s.queue == queue + [t]
    ensures Reaches(s, Alone(i, 12), Served(s))
  {
    hide *;
    CountsOne(s, i, t, queue);
    RunningSteps(s, i, t, queue);
    var log := s.log + [Dequeued(t)];
    NotWaiting(s, i, Copy(t), queue, |queue|, log);
    OnTheWay(s, i, 10, Taking(s, i, Copy(t), queue, |queue|, log).(lock := Free));
    NotWaiting(s, i, Release(t, false), queue, |queue|, log + [Ran(t)]);
    OnTheWay(s, i, 11, Taking(s, i, Release(t, false), queue, |queue|, log + [Ran(t)]).(lock := Free));
  }

  lemma {:induction false} ServesAll(s: Pool, i: nat) returns (s': Pool)
    requires Ready(s, i)
    ensures Reaches(s, Alone(i, 12 * |s.queue|), s') && s'.queue == [] && s.log <= s'.log
    ensures forall t :: t in s.queue ==> Ran(t) in s'.log && Freed(t) in s'.log
    decreases |s.queue|
  {
    if s.queue == [] {
      s' := s;
    } else {
      var t, m := s.queue[|s.queue| - 1], Served(s);
      ServesOne(s, i, t, m.queue);
      assert s.queue == m.queue + [t] && Ran(t) in m.log && Freed(t) in m.log && s.log <= m.log;
      hide Served;
      s' := ServesAll(m, i);
      assert Alone(i, 12) + Alone(i, 12 * |m.queue|) == Alone(i, 12 * |s.queue|);
      ReachesOn(s, Alone(i, 12), m, Alone(i, 12 * |m.queue|), s');
    }
  }

  /** Whatever happened before: while the pool runs, a worker that nobody
      disturbs and that is woken whenever it waits runs all that is queued. */
  lemma Drains(s0: Pool, run: seq<Action>, s: Pool, i: nat) returns (s': Pool)
    requires Initial(s0) && Reaches(s0, run, s)
    requires s.state == Running && s.lock == Free && i < |s.workers| && s.workers[i] == Lock
    ensures Reaches(s, Alone(i, 12 * |s.queue|), s') && s'.queue == []
    ensures forall t :: t in s.queue ==> Ran(t) in s'.log && Freed(t) in s'.log
  {
    QueueBound(s0, run, s);
    hide Reaches, Alone;
    s' := ServesAll(s, i);
  }

  // ----- the last broadcast

  /** With this step worker `i` blocks. */
  ghost predicate Blocks(s: Pool, a: Action, i: nat)
    requires Enabled(s, a)
  {
    a.Work? && a.i == i && s.workers[i].Wait?
  }

  ghost function Blockings(s: Pool, run: seq<Action>, i: nat): (n: nat)
    decreases |run|
  {
    if run == [] || !Enabled(s, run[0]) then 0
    else (if Blocks(s, run[0], i) then 1 else 0) + Blockings(Step(s, run[0]), run[1..], i)
  }

  /** Past its check of the state. */
  predicate MayBlock(w: Worker) {
    w.Wait? || w.TestEmpty?
  }

  lemma BlocksStep(s: Pool, a: Action, i: nat)
    requires s.state != Running && Enabled(s, a) && i < |s.workers|
    ensures Step(s, a).state != Running && i < |Step(s, a).workers|
    ensures (if Blocks(s, a, i) then 1 else 0) + (if MayBlock(Step(s, a).workers[i]) then 1 else 0) <=
            if MayBlock(s.workers[i]) then 1 else 0
  {
    match a {
      case Work(k, err) =>
        WorkerQueue(s, k, err);
        if k != i {
          WorkerShape(s, k, err);
          hide WorkerStep;
        }
      case Produce(j) =>
        ProducerShape(s, j);
        hide ProducerStep;
      case Join =>
    }
  }

  lemma {:induction false} BlocksAll(s: Pool, more: seq<Action>, s': Pool, i: nat)
    requires s.state != Running && Reaches(s, more, s') && i < |s.workers|
    ensures Blockings(s, more, i) <= if MayBlock(s.workers[i]) then 1 else 0
    decreases |more|
  {
    hide Blocks, MayBlock, Step;
    if more != [] {
      BlocksStep(s, more[0], i);
      BlocksAll(Step(s, more[0]), more[1..], s', i);
    }
  }

  /** Once the pool has left the running state, at most the worker that owned
      the mutex then still blocks, and it does so once. */
  lemma LastToBlock(s0: Pool, run: seq<Action>, s: Pool, more: seq<Action>, s': Pool, i: nat)
    requires Initial(s0) && Reaches(s0, run, s) && Reaches(s, more, s')
    requires s.state != Running && i < |s.workers|
    ensures Blockings(s, more, i) <= 1
    ensures Blockings(s, more, i) == 1 ==> s.lock == ByWorker(i)
  {
    InitialInv(s0);
    ReachesInv(s0, run, s);
    BlocksAll(s, more, s', i);
    hide Reaches, Blockings, States, Lates, Counts, Places, Waited, Replay;
  }

  /** The step signals the condition variable or broadcasts on it. */
  predicate Signals(s: Pool, a: Action)
    requires Enabled(s, a)
  {
    match a
    case Work(i, _) => s.workers[i].Broadcast?
    case Produce(j) => s.producers[j].Signal?
    case Join => s.joiner == Announce
  }

  /** The join waits for the first worker, which is blocked; the others end
      without a copy, and no producer is about to signal. */
  ghost predicate Stuck(s: Pool) {
    && s.state != Running && s.joiner == Joining(0) && |s.workers| > 0 && s.workers[0] == Blocked
    && (forall i :: 0 < i < |s.workers| ==> s.workers[i] in {Lock, Check, Terminate, Exited})
    && forall j :: 0 <= j < |s.producers| ==> TurnedAway(s.producers[j])
  }

  lemma StuckStep(s: Pool, a: Action)
    requires Stuck(s) && Enabled(s, a) && !(a.Work? && a.i == 0)
    ensures Stuck(Step(s, a)) && !Signals(s, a)
  {
    SameThreads(s, a);
    match a {
      case Work(i, err) =>
        WorkerShape(s, i, err);
        WorkerQueue(s, i, err);
        assert WorkerStep(s, i, err).workers[i] in {Lock, Check, Terminate, Exited};
        hide WorkerStep, TurnedAway;
      case Produce(j) =>
        ProducerShape(s, j);
        TurnedAwayStep(s, a, j);
        hide ProducerStep;
      case Join =>
    }
  }

  /** From there nothing but a spurious wake-up of that worker ends the join:
      nobody signals any more. */
  lemma {:induction false} StuckForever(s: Pool, more: seq<Action>, s': Pool)
    requires Stuck(s) && Reaches(s, more, s')
    requires forall a :: a in more && a.Work? ==> a.i != 0
    ensures s'.joiner != Joined && |s'.workers| > 0 && s'.workers[0] == Blocked
    ensures forall a :: Enabled(s', a) && Signals(s', a) ==> a.Work? && a.i == 0
    decreases |more|
  {
    hide Signals, Step;
    if more == [] {
      forall a | Enabled(s', a) && Signals(s', a) ensures a.Work? && a.i == 0 {
        if !(a.Work? && a.i == 0) {
          StuckStep(s', a);
        }
      }
    } else {
      StuckStep(s, more[0]);
      StuckForever(Step(s, more[0]), more[1..], s');
    }
  }

  /** The broadcast of the join can be missed: the exchange does not take the
      mutex, so a worker past its check blocks after it. */
  lemma BroadcastMissed(s0: Pool) returns (run: seq<Action>, s: Pool)
    requires Initial(s0) && |s0.workers| > 0
    ensures Reaches(s0, run, s) && |s.workers| > 0
    ensures s.joiner == Joining(0) && s.lock == ByWorker(0) && s.workers[0] == Wait
    ensures Stuck(Step(s, Work(0, false)))
  {
    assert Reaches(s0, [], s0);
    hide Reaches;
    var w := Work(0, false);
    var a := At(s0, 0, Check).(lock := ByWorker(0));
    var b := At(a, 0, Wait);
    var c := Step(b, Join);
    OneMore(s0, [], s0, w);
    OneMore(s0, [] + [w], a, w);
    OneMore(s0, [] + [w] + [w], b, Join);
    OneMore(s0, [] + [w] + [w] + [Join], c, Join);
    run, s := [] + [w] + [w] + [Join] + [Join], Step(c, Join);
  }
}
