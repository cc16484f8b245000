/** What the threads of the backup scheduler do along a run: which task is
    taken, what is counted, when the watchdog resets. */
module BakSchedLaws {
  import opened BakSched
  import opened Sequences

  // ---- the newest task -------------------------------------------------------

  datatype Replayed = Broken | Stack(configs: seq<nat>)

  /** The log replayed on a stack: what is taken must be on top. */
  function Replay(log: seq<Event>): Replayed {
    if log == [] then Stack([])
    else
      var before := Replay(log[..|log| - 1]);
      match log[|log| - 1]
      case Queued(n) => if before.Stack? then Stack(before.configs + [n]) else Broken
      case Taken(n) =>
        if before.Stack? && before.configs != [] && before.configs[|before.configs| - 1] == n then
          Stack(before.configs[..|before.configs| - 1])
        else Broken
      case _ => before
  }

  /** The log grows by one event, and the queue with it. */
  predicate Fitting(queue: seq<nat>, e: Event, after: seq<nat>) {
    match e
    case Queued(n) => after == queue + [n]
    case Taken(n) => queue == after + [n]
    case _ => after == queue
  }

  lemma ReplayOn(log: seq<Event>, queue: seq<nat>, e: Event, after: seq<nat>)
    requires Replay(log) == Stack(queue) && Fitting(queue, e, after)
    ensures Replay(log + [e]) == Stack(after)
  {
    assert (log + [e])[..|log|] == log;
    if e.Taken? {
      assert queue[..|queue| - 1] == after;
    }
  }

  lemma OwnerReplays(s: State)
    requires Shaped(s) && s.mutex != Free && Replay(s.log) == Stack(s.queue)
    ensures var r := Critically(s); Replay(r.log) == Stack(r.queue)
  {
    hide Bit, Set, Toggle, Shaped, Replay;
    var r := Critically(s);
    if s.mutex.Link? {
      ReplayOn(s.log, s.queue, Queued(s.mutex.config), r.queue);
    } else if s.mutex.Look? && s.queue != [] {
      SplitLast(s.queue);
      ReplayOn(s.log, s.queue, Taken(r.mutex.config), r.queue);
    }
  }

  lemma ReplayKept(s: State, a: Action)
    requires Shaped(s) && Enabled(s, a) && Replay(s.log) == Stack(s.queue)
    ensures var r := Do(s, a); Replay(r.log) == Stack(r.queue)
  {
    hide Shaped, Replay, Critically;
    match a {
      case Inside => OwnerReplays(s);
      case Count(i) => ReplayOn(s.log, s.queue, Rejection(s.posters[i].config), s.queue);
      case Watch(seconds) =>
        ReplayOn(s.log, s.queue, Sample(s.overload), s.queue);
        ReplayOn(s.log, s.queue, Clock(seconds), s.queue);
        ReplayOn(s.log, s.queue, Reset, s.queue);
      case _ =>
    }
  }

  lemma {:induction false} ReplayAll(s: State, run: seq<Action>, s': State)
    requires Reaches(s, run, s') && Replay(s.log) == Stack(s.queue)
    ensures Replay(s'.log) == Stack(s'.queue)
    decreases |run|
  {
    hide Shaped, Enabled, Do, Replay;
    if run != [] {
      ReplayKept(s, run[0]);
      ReplayAll(Do(s, run[0]), run[1..], s');
    }
  }

  /** A worker always takes the task queued last. */
  lemma NewestFirst(s: State)
    requires Reachable(s)
    ensures Replay(s.log) == Stack(s.queue)
  {
    var s0, run :| Init(s0) && Reaches(s0, run, s);
    ReplayAll(s0, run, s);
    hide Reaches;
  }

  // ---- what is counted -------------------------------------------------------

  /** The rejections after the last reset. */
  function Since(log: seq<Event>): (n: nat) {
    if log == [] then 0
    else
      match log[|log| - 1]
      case Reset => 0
      case Rejection(_) => Since(log[..|log| - 1]) + 1
      case _ => Since(log[..|log| - 1])
  }

  lemma SinceOn(log: seq<Event>, e: Event)
    ensures Since(log + [e]) == match e case Reset => 0 case Rejection(_) => Since(log) + 1 case _ => Since(log)
  {
    assert (log + [e])[..|log|] == log;
  }

  lemma OwnerSince(s: State)
    requires Shaped(s) && s.mutex != Free && s.overload == Since(s.log)
    ensures var r := Critically(s); r.overload == Since(r.log)
  {
    OwnerUnwatched(s);
    hide Critically, Shaped, Since;
    var r := Critically(s);
    if r.log != s.log {
      SinceOn(s.log, r.log[|s.log|]);
    }
  }

  lemma WatchdogSince(s: State, seconds: int)
    requires s.overload == Since(s.log)
    ensures var r := Watchdog(s, seconds); r.overload == Since(r.log)
  {
    hide Since;
    SinceOn(s.log, Sample(s.overload));
    SinceOn(s.log, Clock(seconds));
    SinceOn(s.log, Reset);
  }

  lemma CountSince(s: State, i: nat)
    requires Shaped(s) && Enabled(s, Count(i)) && Bounded(s) && s.overload == Since(s.log)
    ensures var r := Do(s, Count(i)); r.overload == Since(r.log)
  {
    BoundKept(s, Count(i));
    SinceOn(s.log, Rejection(s.posters[i].config));
    hide Shaped, Since, Bounded;
  }

  lemma SinceKept(s: State, a: Action)
    requires Shaped(s) && Enabled(s, a) && Bounded(s) && s.overload == Since(s.log)
    ensures var r := Do(s, a); r.overload == Since(r.log)
  {
    hide Shaped, Since, Bounded, Critically, Watchdog;
    match a {
      case Inside => OwnerSince(s);
      case Count(i) => CountSince(s, i);
      case Watch(seconds) => WatchdogSince(s, seconds);
      case _ =>
    }
  }

  lemma {:induction false} SinceAll(s: State, run: seq<Action>, s': State)
    requires Inv(s) && Reaches(s, run, s') && s.overload == Since(s.log)
    ensures s'.overload == Since(s'.log)
    decreases |run|
  {
    if run != [] {
      InvKept(s, run[0]);
      assert Bounded(s);
      hide Inv, Shaped, Enabled, Do, Since, Bounded;
      SinceKept(s, run[0]);
      SinceAll(Do(s, run[0]), run[1..], s');
    }
  }

  /** The counter holds the posts that were turned away since the last reset. */
  lemma CountsSince(s: State)
    requires Reachable(s)
    ensures s.overload == Since(s.log)
  {
    var s0, run :| Init(s0) && Reaches(s0, run, s);
    InitInv(s0);
    SinceAll(s0, run, s);
    hide Inv, Reaches;
  }

  lemma DiesBeyond(s: State, i: nat)
    requires Shaped(s) && Bounded(s) && Enabled(s, Count(i))
    ensures Do(s, Count(i)).posters[i] == (if s.overload >= 10 then Dying else Idle)
  {
    BoundKept(s, Count(i));
    hide Shaped, Bounded, Critically, Watchdog;
  }

  /** The program dies of the eleventh post turned away since the last reset,
      and of no earlier one. */
  lemma DiesOfEleventh(s: State, i: nat)
    requires Reachable(s) && Enabled(s, Count(i))
    ensures Shaped(s) && Do(s, Count(i)).posters[i] == (if Since(s.log) >= 10 then Dying else Idle)
  {
    ReachableInv(s);
    CountsSince(s);
    DiesBeyond(s, i);
    hide Reachable, Shaped, Since, Do;
  }

  // ---- the watchdog decides --------------------------------------------------

  /** What the clock says at the steps of the watchdog. */
  function Clocks(run: seq<Action>): seq<int> {
    if run == [] then []
    else (if run[0].Watch? then [run[0].seconds] else []) + Clocks(run[1..])
  }

  function Resets(log: seq<Event>): nat {
    multiset(log)[Reset]
  }

  lemma OthersLeaveDog(s: State, a: Action)
    requires Shaped(s) && Enabled(s, a) && !a.Watch?
    ensures var r := Do(s, a);
            r.dog == s.dog && r.last == s.last && r.lts == s.lts && Resets(r.log) == Resets(s.log)
  {
    hide Bit, Set, Toggle, Shaped;
    if a.Inside? {
      OwnerUnwatched(s);
      hide Critically;
    }
  }

  /** The other threads may go on before the watchdog moves. */
  lemma {:induction false} UntilWatch(s: State, run: seq<Action>, s': State) returns (m: State, rest: seq<Action>)
    requires Reaches(s, run, s') && Clocks(run) != []
    ensures m.dog == s.dog && m.last == s.last && m.lts == s.lts && Resets(m.log) == Resets(s.log)
    ensures Shaped(m) && Reaches(Watchdog(m, Clocks(run)[0]), rest, s') && Clocks(rest) == Clocks(run)[1..]
    decreases |run|
  {
    if run[0].Watch? {
      m, rest := s, run[1..];
    } else {
      OthersLeaveDog(s, run[0]);
      hide Do, Shaped, Enabled;
      m, rest := UntilWatch(Do(s, run[0]), run[1..], s');
    }
  }

  lemma {:induction false} NoWatch(s: State, run: seq<Action>, s': State)
    requires Reaches(s, run, s') && Clocks(run) == []
    ensures s'.dog == s.dog && s'.last == s.last && s'.lts == s.lts && Resets(s'.log) == Resets(s.log)
    decreases |run|
  {
    if run != [] {
      OthersLeaveDog(s, run[0]);
      hide Do, Shaped, Enabled;
      NoWatch(Do(s, run[0]), run[1..], s');
    }
  }

  lemma OneWatch(m: State, seconds: int)
    ensures var r := Watchdog(m, seconds);
            match m.dog
            case Load =>
              r.dog == Decide(m.overload) && r.last == m.last && r.lts == m.lts && Resets(r.log) == Resets(m.log)
            case Decide(now) =>
              && r.lts == m.lts && Resets(r.log) == Resets(m.log)
              && r.last == (if now == 0 then m.last else now)
              && r.dog == (if now == 0 then Sleep else if m.last != now then Stamp else Check)
            case Stamp => r.dog == Sleep && r.last == m.last && r.lts == seconds && Resets(r.log) == Resets(m.log)
            case Check =>
              && r.last == m.last && r.lts == m.lts && Resets(r.log) == Resets(m.log)
              && r.dog == (if seconds - m.lts > 5 then Store else Sleep)
            case Store => r.dog == Sleep && r.last == 0 && r.lts == m.lts && Resets(r.log) == Resets(m.log) + 1
            case Sleep => r.dog == Load && r.last == m.last && r.lts == m.lts && Resets(r.log) == Resets(m.log)
  {
  }

  /** The watchdog has sampled the counter, and found another value than 0 and
      than the one it remembers: it remembers the new one, and when that was. */
  lemma WindowStarts(s: State, run: seq<Action>, s': State, now: nat)
    requires s.dog == Decide(now) && now != 0 && now != s.last
    requires Reaches(s, run, s') && |Clocks(run)| == 2
    ensures s'.dog == Sleep && s'.last == now && s'.lts == Clocks(run)[1] && Resets(s'.log) == Resets(s.log)
  {
    hide Reaches, Resets, Watchdog, Clocks, Shaped;
    var clocks := Clocks(run);
    var m, rest := UntilWatch(s, run, s');
    OneWatch(m, clocks[0]);
    var n, last := UntilWatch(Watchdog(m, clocks[0]), rest, s');
    OneWatch(n, clocks[1]);
    NoWatch(Watchdog(n, clocks[1]), last, s');
  }

  /** It has sampled the value it remembers: whatever the other threads do in
      the meantime, a reset follows if more than five seconds have passed since,
      and otherwise none does. */
  lemma ResetFollows(s: State, run: seq<Action>, s': State)
    requires s.dog == Decide(s.last) && s.last != 0
    requires Reaches(s, run, s') && |Clocks(run)| == 3
    ensures Resets(s'.log) == Resets(s.log) + if Clocks(run)[1] - s.lts > 5 then 1 else 0
    ensures Clocks(run)[1] - s.lts > 5 ==> s'.last == 0
  {
    hide Reaches, Resets, Watchdog, Clocks, Shaped;
    var clocks := Clocks(run);
    var m, rest := UntilWatch(s, run, s');
    OneWatch(m, clocks[0]);
    var n, more := UntilWatch(Watchdog(m, clocks[0]), rest, s');
    OneWatch(n, clocks[1]);
    var p, last := UntilWatch(Watchdog(n, clocks[1]), more, s');
    OneWatch(p, clocks[2]);
    NoWatch(Watchdog(p, clocks[2]), last, s');
  }

  /** A counter that is 0 makes no difference; and what it samples is the
      counter. */
  lemma NothingToWatch(s: State, run: seq<Action>, s': State)
    requires s.dog == Decide(0) && Reaches(s, run, s') && |Clocks(run)| == 1
    ensures s'.dog == Sleep && s'.last == s.last && s'.lts == s.lts && Resets(s'.log) == Resets(s.log)
  {
    hide Reaches, Resets, Watchdog, Clocks, Shaped;
    var clocks := Clocks(run);
    var m, rest := UntilWatch(s, run, s');
    OneWatch(m, clocks[0]);
    NoWatch(Watchdog(m, clocks[0]), rest, s');
  }

  // ---- what a worker runs ----------------------------------------------------

  /** With this step a worker has finished the backup of `n`. */
  predicate Finishes(s: State, a: Action, n: nat)
    requires Enabled(s, a)
  {
    a.Done? && s.workers[a.j].config == n
  }

  ghost function Finished(s: State, run: seq<Action>, n: nat): (k: nat)
    decreases |run|
  {
    if run == [] || !Shaped(s) || !Enabled(s, run[0]) then 0
    else (if Finishes(s, run[0], n) then 1 else 0) + Finished(Do(s, run[0]), run[1..], n)
  }

  /** How many workers are at the backup of `n`. */
  function Busy(ws: seq<Worker>, n: nat): (k: nat) {
    if ws == [] then 0 else Busy(ws[..|ws| - 1], n) + if ws[|ws| - 1] == Running(n) then 1 else 0
  }

  lemma {:induction false} BusyUpdate(ws: seq<Worker>, j: nat, w: Worker, n: nat)
    requires j < |ws|
    ensures Busy(ws[j := w], n) + (if ws[j] == Running(n) then 1 else 0) ==
            Busy(ws, n) + if w == Running(n) then 1 else 0
  {
    var k := |ws| - 1;
    if j == k {
      assert ws[j := w][..k] == ws[..k];
    } else {
      assert ws[j := w][..k] == ws[..k][j := w];
      BusyUpdate(ws[..k], j, w, n);
    }
  }

  lemma {:induction false} NoneBusy(ws: seq<Worker>, n: nat)
    requires forall j :: 0 <= j < |ws| ==> ws[j] == Begin
    ensures Busy(ws, n) == 0
  {
    if ws != [] {
      NoneBusy(ws[..|ws| - 1], n);
    }
  }

  /** The owner of the mutex is about to run `n`. */
  function Fetched(c: Critical, n: nat): nat {
    match c
    case Clear(_, m) => if m == n then 1 else 0
    case Leave(_, m) => if m == n then 1 else 0
    case _ => 0
  }

  lemma OwnerRuns(s: State, n: nat)
    requires Shaped(s) && s.mutex != Free
    ensures var r := Critically(s);
            multiset(s.log)[Taken(n)] + Busy(r.workers, n) + Fetched(r.mutex, n) ==
            multiset(r.log)[Taken(n)] + Busy(s.workers, n) + Fetched(s.mutex, n)
  {
    hide Busy, Bit, Set, Toggle;
    var r := Critically(s);
    match s.mutex {
      case Enter(j) => BusyUpdate(s.workers, j, Waiting, n);
      case Leave(j, m) => BusyUpdate(s.workers, j, Running(m), n);
      case _ =>
    }
  }

  lemma TakenOn(log: seq<Event>, e: Event, n: nat)
    ensures multiset(log + [e])[Taken(n)] == multiset(log)[Taken(n)] + if e == Taken(n) then 1 else 0
  {
  }

  lemma WatchdogTakes(s: State, seconds: int, n: nat)
    ensures multiset(Watchdog(s, seconds).log)[Taken(n)] == multiset(s.log)[Taken(n)]
  {
    TakenOn(s.log, Sample(s.overload), n);
    TakenOn(s.log, Clock(seconds), n);
    TakenOn(s.log, Reset, n);
  }

  lemma RunsStep(s: State, a: Action, n: nat)
    requires Shaped(s) && Enabled(s, a)
    ensures var r := Do(s, a);
            (if Finishes(s, a, n) then 1 else 0) + multiset(s.log)[Taken(n)] +
            Busy(r.workers, n) + Fetched(r.mutex, n) ==
            multiset(r.log)[Taken(n)] + Busy(s.workers, n) + Fetched(s.mutex, n)
  {
    hide Busy, Shaped;
    match a {
      case Inside =>
        OwnerRuns(s, n);
        hide Critically, Fetched;
      case WorkLock(j) => BusyUpdate(s.workers, j, Owns, n);
      case Wake(j) => BusyUpdate(s.workers, j, Owns, n);
      case Done(j) => BusyUpdate(s.workers, j, Begin, n);
      case Count(i) => TakenOn(s.log, Rejection(s.posters[i].config), n);
      case Watch(seconds) =>
        WatchdogTakes(s, seconds, n);
        WatchdogKeeps(s, seconds);
        hide Watchdog;
      case _ =>
    }
  }

  lemma {:induction false} RunsAll(s: State, run: seq<Action>, s': State, n: nat)
    requires Reaches(s, run, s')
    ensures multiset(s.log)[Taken(n)] + Finished(s, run, n) + Busy(s'.workers, n) + Fetched(s'.mutex, n) ==
            multiset(s'.log)[Taken(n)] + Busy(s.workers, n) + Fetched(s.mutex, n)
    decreases |run|
  {
    hide Shaped, Enabled, Do, Busy, Fetched, Finishes;
    if run != [] {
      RunsStep(s, run[0], n);
      RunsAll(Do(s, run[0]), run[1..], s', n);
    }
  }

  /** Each task taken is a backup of its config that was made, is being made, or
      is about to be. */
  lemma RunsWhatItTakes(s0: State, run: seq<Action>, s: State, n: nat)
    requires Init(s0) && Reaches(s0, run, s)
    ensures multiset(s.log)[Taken(n)] == Finished(s0, run, n) + Busy(s.workers, n) + Fetched(s.mutex, n)
  {
    RunsAll(s0, run, s, n);
    NoneBusy(s0.workers, n);
    hide Finished, Reaches, Busy;
  }

  // ---- waits -----------------------------------------------------------------

  ghost predicate Wakes(s: State, a: Action, j: nat) {
    a == Wake(j)
  }

  /** With this step worker `j` takes a task. */
  ghost predicate Takes(s: State, a: Action, j: nat)
    requires Shaped(s) && Enabled(s, a)
  {
    a == Inside && s.mutex == Look(j) && exists n :: Do(s, a).log == s.log + [Taken(n)]
  }

  ghost function Wakings(s: State, run: seq<Action>, j: nat): (k: nat)
    decreases |run|
  {
    if run == [] || !Shaped(s) || !Enabled(s, run[0]) then 0
    else (if Wakes(s, run[0], j) then 1 else 0) + Wakings(Do(s, run[0]), run[1..], j)
  }

  ghost function Takings(s: State, run: seq<Action>, j: nat): (k: nat)
    decreases |run|
  {
    if run == [] || !Shaped(s) || !Enabled(s, run[0]) then 0
    else (if Takes(s, run[0], j) then 1 else 0) + Takings(Do(s, run[0]), run[1..], j)
  }

  lemma WaitsStep(s: State, a: Action, j: nat)
    requires Shaped(s) && Enabled(s, a)
    ensures (if Takes(s, a, j) then 1 else 0) + (if Do(s, a).mutex == Look(j) then 1 else 0) <=
            (if Wakes(s, a, j) then 1 else 0) + if s.mutex == Look(j) then 1 else 0
  {
    hide Bit, Set, Toggle, Shaped;
  }

  lemma {:induction false} WaitsAll(s: State, run: seq<Action>, s': State, j: nat)
    requires Reaches(s, run, s')
    ensures Takings(s, run, j) + (if s'.mutex == Look(j) then 1 else 0) <=
            Wakings(s, run, j) + if s.mutex == Look(j) then 1 else 0
    decreases |run|
  {
    hide Shaped, Enabled, Do, Takes, Wakes;
    if run != [] {
      WaitsStep(s, run[0], j);
      WaitsAll(Do(s, run[0]), run[1..], s', j);
    }
  }

  /** A worker waits before it takes a task, also when one is queued already. */
  lemma WaitsFirst(s0: State, run: seq<Action>, s: State, j: nat)
    requires Init(s0) && Reaches(s0, run, s)
    ensures Takings(s0, run, j) <= Wakings(s0, run, j)
  {
    WaitsAll(s0, run, s, j);
    hide Takings, Wakings, Reaches;
  }

  /** A worker that waits and is woken takes the newest task, clears its bit,
      makes the backup and waits again. */
  lemma Serves(s: State, j: nat) returns (r: State)
    requires Reachable(s) && s.mutex == Free && j < |s.workers| && s.workers[j] == Waiting && s.queue != []
    ensures Reachable(r)
    ensures var last := |s.queue| - 1;
            r == s.(words := r.words, queue := s.queue[..last], log := s.log + [Taken(s.queue[last])])
  {
    hide Reachable, Shaped, Bit, Set, Toggle;
    ReachableOn(s, Wake(j));
    var s1 := Do(s, Wake(j));
    ReachableOn(s1, Inside);
    var s2 := Do(s1, Inside);
    ReachableOn(s2, Inside);
    var s3 := Do(s2, Inside);
    ReachableOn(s3, Inside);
    var s4 := Do(s3, Inside);
    ReachableOn(s4, Done(j));
    var s5 := Do(s4, Done(j));
    ReachableOn(s5, WorkLock(j));
    var s6 := Do(s5, WorkLock(j));
    ReachableOn(s6, Inside);
    r := Do(s6, Inside);
    assert r.workers == s.workers;
  }

  function Reversed(queue: seq<nat>): (log: seq<Event>) {
    if queue == [] then [] else [Taken(queue[|queue| - 1])] + Reversed(queue[..|queue| - 1])
  }

  /** Whatever is queued, a worker that nobody disturbs takes it all. */
  lemma {:induction false} Drains(s: State, j: nat) returns (r: State)
    requires Reachable(s) && s.mutex == Free && j < |s.workers| && s.workers[j] == Waiting
    ensures Reachable(r) && r == s.(words := r.words, queue := [], log := s.log + Reversed(s.queue))
    decreases |s.queue|
  {
    hide Reachable;
    if s.queue == [] {
      r := s;
      assert s.log + [] == s.log;
    } else {
      var m := Serves(s, j);
      r := Drains(m, j);
      Assoc(s.log, [Taken(s.queue[|s.queue| - 1])], Reversed(m.queue));
    }
  }
}
