/** platfree/baksched.c as a state machine: timer threads post tasks, worker
    threads take them, a watchdog forgives old overloads.  Every load, store and
    queue change is a step of its own.  The code between mtx_lock() and
    mtx_unlock() is run by whoever owns the mutex, so the program counter of
    that thread is the state of the mutex. */
module BakSched {
  import opened Sequences

  const MAX_OVERLOAD_COUNT: nat := 10
  const OVERLOAD_WINDOW: int := 5
  const UINT_RANGE: nat := 0x1_0000_0000

  /** sizeof(ullong), and its number of bits */
  const ULLONG: nat := 8
  const ULLONG_BIT: nat := 64

  // ---- the bit set -----------------------------------------------------------

  /** A word, as the set of its bits that are 1: `|` is the union, `&` the
      intersection and `^` the symmetric difference. */
  type Word = set<nat>

  /** task_pos of config `n`: 1 << (n % ULLONG); its task_idx is n / ULLONG. */
  function Pos(n: nat): (p: Word) {
    {n % ULLONG}
  }

  predicate Fits(words: seq<Word>, n: nat) {
    n / ULLONG < |words|
  }

  predicate Bit(words: seq<Word>, n: nat)
    requires Fits(words, n)
  {
    words[n / ULLONG] * Pos(n) != {}
  }

  function Set(words: seq<Word>, n: nat): (r: seq<Word>)
    requires Fits(words, n)
    ensures |r| == |words|
  {
    words[n / ULLONG := words[n / ULLONG] + Pos(n)]
  }

  function Toggle(words: seq<Word>, n: nat): (r: seq<Word>)
    requires Fits(words, n)
    ensures |r| == |words|
  {
    var w := words[n / ULLONG];
    words[n / ULLONG := (w - Pos(n)) + (Pos(n) - w)]
  }

  /** The number of words that baksched_init() allocates for `nl` configs. */
  function Words(nl: nat): nat {
    if nl / ULLONG_BIT == 0 then 1 else nl / ULLONG_BIT
  }

  /** The allocation counts 64 configs to a word, but their indices 8: it is
      large enough for all of them exactly up to 8 configs. */
  lemma AllocFits(nl: nat)
    ensures (forall n: nat :: n < nl ==> n / ULLONG < Words(nl)) <==> nl <= 8
    ensures nl <= 8 * Words(nl) <==> nl <= 8
    ensures if nl < 64 then Words(nl) == 1 else 64 * Words(nl) <= nl < 64 * (Words(nl) + 1)
  {
    if nl > ULLONG {
      var n: nat := nl - 1;
      assert n / ULLONG >= Words(nl);
    }
  }

  lemma BitIs(words: seq<Word>, n: nat)
    requires Fits(words, n)
    ensures Bit(words, n) <==> n % ULLONG in words[n / ULLONG]
  {
    var w := words[n / ULLONG];
    assert n % ULLONG in w ==> n % ULLONG in w * Pos(n);
    assert w * Pos(n) != {} ==> exists x :: x in w * Pos(n);
  }

  /** No two configs share a bit: `|=` makes the one bit set, `^=` turns it
      over, and no other config's bit changes. */
  lemma OneBit(words: seq<Word>, n: nat, m: nat)
    requires Fits(words, n) && Fits(words, m)
    ensures Fits(Set(words, n), m) && Fits(Toggle(words, n), m)
    ensures Bit(Set(words, n), m) <==> m == n || Bit(words, m)
    ensures Bit(Toggle(words, n), m) <==> if m == n then !Bit(words, n) else Bit(words, m)
  {
    BitIs(words, m);
    BitIs(Set(words, n), m);
    BitIs(Toggle(words, n), m);
    if m / ULLONG == n / ULLONG && m % ULLONG == n % ULLONG {
      assert m == n;
    }
  }

  // ---- the threads -----------------------------------------------------------

  /** Who owns the queue mutex and what it does next. */
  datatype Critical =
    | Free
    | Test(poster: nat, config: nat)
    | Mark(poster: nat, config: nat)
    | Link(poster: nat, config: nat)
    | Accept(poster: nat)
    | Reject(poster: nat, config: nat)
    | Enter(worker: nat)
    | Look(worker: nat)
    | Clear(worker: nat, config: nat)
    | Leave(worker: nat, config: nat)

  datatype Poster = Idle | Posting(config: nat) | Owner | Counting(config: nat) | Dying

  datatype Worker = Begin | Waiting | Owns | Running(config: nat)

  datatype Dog = Load | Decide(now: nat) | Stamp | Check | Store | Sleep

  /** What happens, in order; Clock is a reading of the UTC clock's seconds. */
  datatype Event =
    | Queued(config: nat)
    | Taken(config: nat)
    | Rejection(config: nat)
    | Sample(value: nat)
    | Clock(seconds: int)
    | Reset

  /** `first` and `second` are where in the log the watchdog's last two samples
      of the same count are, `stamped` where the clock reading between them is;
      no step depends on them. */
  datatype State = State(
    nl: nat,
    words: seq<Word>, queue: seq<nat>, mutex: Critical,
    posters: seq<Poster>, workers: seq<Worker>,
    overload: nat, dog: Dog, last: nat, lts: int,
    log: seq<Event>, first: nat, stamped: nat, second: nat)

  /** A step, and the choice the scheduler or the clock makes in it. */
  datatype Action =
    | Post(i: nat, config: nat)
    | PostLock(i: nat)
    | Inside
    | Count(i: nat)
    | WorkLock(j: nat)
    | Wake(j: nat)
    | Done(j: nat)
    | Watch(seconds: int)

  /** After baksched_init(): two workers, and `posters` timer threads. */
  predicate Init(s: State) {
    && s.queue == [] && s.mutex == Free && s.overload == 0 && s.log == []
    && s.words == seq(|s.words|, _ => {})
    && (forall i :: 0 <= i < |s.posters| ==> s.posters[i] == Idle)
    && s.workers == [Begin, Begin]
    && s.dog == Load && s.last == 0
    && s.nl <= ULLONG * |s.words|
    && MAX_OVERLOAD_COUNT + |s.posters| < UINT_RANGE
  }

  predicate Enabled(s: State, a: Action) {
    match a
    case Post(i, n) => i < |s.posters| && s.posters[i] == Idle && n < s.nl
    case PostLock(i) => i < |s.posters| && s.posters[i].Posting? && s.mutex == Free
    case Inside => s.mutex != Free
    case Count(i) => i < |s.posters| && s.posters[i].Counting?
    case WorkLock(j) => j < |s.workers| && s.workers[j] == Begin && s.mutex == Free
    case Wake(j) => j < |s.workers| && s.workers[j] == Waiting && s.mutex == Free
    case Done(j) => j < |s.workers| && s.workers[j].Running?
    case Watch(_) => true
  }

  predicate Posts(posters: seq<Poster>, i: nat) {
    i < |posters| && posters[i] == Owner
  }

  predicate Works(workers: seq<Worker>, j: nat) {
    j < |workers| && workers[j] == Owns
  }

  /** Indices that the types do not bound, and who the owner of the mutex is. */
  predicate Shaped(s: State) {
    && s.nl <= ULLONG * |s.words|
    && (forall i :: 0 <= i < |s.queue| ==> s.queue[i] < s.nl)
    && (forall i :: 0 <= i < |s.posters| ==> s.posters[i].Posting? ==> s.posters[i].config < s.nl)
    && match s.mutex
       case Free => true
       case Test(i, n) => Posts(s.posters, i) && n < s.nl
       case Mark(i, n) => Posts(s.posters, i) && n < s.nl
       case Link(i, n) => Posts(s.posters, i) && n < s.nl
       case Accept(i) => Posts(s.posters, i)
       case Reject(i, n) => Posts(s.posters, i)
       case Enter(j) => Works(s.workers, j)
       case Look(j) => Works(s.workers, j)
       case Clear(j, n) => Works(s.workers, j) && n < s.nl
       case Leave(j, n) => Works(s.workers, j)
  }

  /** The next step of the owner of the mutex. cnd_signal() is no step: a waiting
      thread may wake up at any time. */
  function Critically(s: State): (r: State)
    requires Shaped(s) && s.mutex != Free
  {
    match s.mutex
    case Test(i, n) => s.(mutex := if Bit(s.words, n) then Reject(i, n) else Mark(i, n))
    case Mark(i, n) => s.(mutex := Link(i, n), words := Set(s.words, n))
    case Link(i, n) => s.(mutex := Accept(i), queue := s.queue + [n], log := s.log + [Queued(n)])
    case Accept(i) => s.(mutex := Free, posters := s.posters[i := Idle])
    case Reject(i, n) => s.(mutex := Free, posters := s.posters[i := Counting(n)])
    case Enter(j) => s.(mutex := Free, workers := s.workers[j := Waiting])
    case Look(j) =>
      if s.queue == [] then s.(mutex := Enter(j)) else
        var k := |s.queue| - 1;
        s.(mutex := Clear(j, s.queue[k]), queue := s.queue[..k], log := s.log + [Taken(s.queue[k])])
    case Clear(j, n) => s.(mutex := Leave(j, n), words := Toggle(s.words, n))
    case Leave(j, n) => s.(mutex := Free, workers := s.workers[j := Running(n)])
  }

  /** watchdog(), between two of its accesses to shared state. */
  function Watchdog(s: State, seconds: int): (r: State) {
    match s.dog
    case Load => s.(dog := Decide(s.overload), second := |s.log|, log := s.log + [Sample(s.overload)])
    case Decide(now) =>
      if now == 0 then s.(dog := Sleep)
      else if s.last != now then s.(dog := Stamp, last := now, first := s.second)
      else s.(dog := Check)
    case Stamp => s.(dog := Sleep, lts := seconds, stamped := |s.log|, log := s.log + [Clock(seconds)])
    case Check =>
      s.(dog := if seconds - s.lts > OVERLOAD_WINDOW then Store else Sleep, log := s.log + [Clock(seconds)])
    case Store => s.(dog := Sleep, overload := 0, last := 0, log := s.log + [Reset])
    case Sleep => s.(dog := Load)
  }

  function Do(s: State, a: Action): (r: State)
    requires Shaped(s) && Enabled(s, a)
  {
    match a
    case Post(i, n) => s.(posters := s.posters[i := Posting(n)])
    case PostLock(i) => s.(mutex := Test(i, s.posters[i].config), posters := s.posters[i := Owner])
    case Inside => Critically(s)
    case Count(i) =>
      var count := (s.overload + 1) % UINT_RANGE;
      s.(overload := count, log := s.log + [Rejection(s.posters[i].config)],
         posters := s.posters[i := if count <= MAX_OVERLOAD_COUNT then Idle else Dying])
    case WorkLock(j) => s.(mutex := Enter(j), workers := s.workers[j := Owns])
    case Wake(j) => s.(mutex := Look(j), workers := s.workers[j := Owns])
    case Done(j) => s.(workers := s.workers[j := Begin])
    case Watch(seconds) => Watchdog(s, seconds)
  }

  /** The run of `run` from `s` ends in `s'`. */
  ghost predicate Reaches(s: State, run: seq<Action>, s': State)
    decreases |run|
  {
    if run == [] then s == s'
    else Shaped(s) && Enabled(s, run[0]) && Reaches(Do(s, run[0]), run[1..], s')
  }

  // ---- the invariants --------------------------------------------------------

  /** The task that the owner of the mutex is about to queue or has just taken. */
  function InHand(c: Critical): (m: multiset<nat>) {
    match c
    case Link(_, n) => multiset{n}
    case Clear(_, n) => multiset{n}
    case _ => multiset{}
  }

  /** A set bit stands for exactly one task, a clear one for none. */
  ghost predicate BitFor(words: seq<Word>, queue: seq<nat>, c: Critical, n: nat)
    requires Fits(words, n)
  {
    multiset(queue)[n] + InHand(c)[n] == if Bit(words, n) then 1 else 0
  }

  ghost predicate BitsAgree(s: State)
    requires Shaped(s)
  {
    && (forall n: nat :: n < s.nl ==> BitFor(s.words, s.queue, s.mutex, n))
    && (s.mutex.Mark? ==> !Bit(s.words, s.mutex.config))
  }

  /** What was queued and not taken is in the queue. */
  ghost predicate Tallied(log: seq<Event>, queue: seq<nat>) {
    forall n: nat :: multiset(log)[Queued(n)] == multiset(log)[Taken(n)] + multiset(queue)[n]
  }

  /** The watchdog changes neither the queue nor the bits, nor has it the mutex. */
  lemma WatchdogKeeps(s: State, seconds: int)
    ensures var r := Watchdog(s, seconds);
            r.words == s.words && r.queue == s.queue && r.mutex == s.mutex && r.posters == s.posters
            && r.workers == s.workers && r.nl == s.nl
  {
  }

  lemma ShapedInside(s: State)
    requires Shaped(s) && s.mutex != Free
    ensures Shaped(Critically(s))
  {
    hide Bit, Set, Toggle;
  }

  lemma ShapedKept(s: State, a: Action)
    requires Shaped(s) && Enabled(s, a)
    ensures Shaped(Do(s, a))
  {
    hide Bit, Set, Toggle, Critically, Watchdog;
    match a
    case Inside => ShapedInside(s);
    case Watch(seconds) => WatchdogKeeps(s, seconds);
    case _ =>
  }

  lemma NoHand(c: Critical)
    requires !c.Link? && !c.Clear?
    ensures InHand(c) == multiset{}
  {
  }

  lemma OneHand(c: Critical)
    requires c.Link? || c.Clear?
    ensures InHand(c) == multiset{c.config}
  {
  }

  lemma TakenOver(words: seq<Word>, queue: seq<nat>, m: nat, c: Critical, d: Critical, n: nat)
    requires Fits(words, n) && BitFor(words, queue + [m], c, n)
    requires InHand(c) == multiset{} && InHand(d) == multiset{m}
    ensures BitFor(words, queue, d, n)
  {
    hide Bit, InHand;
  }

  lemma HandKept(words: seq<Word>, queue: seq<nat>, c: Critical, d: Critical, n: nat)
    requires Fits(words, n) && BitFor(words, queue, c, n)
    requires InHand(c) == InHand(d)
    ensures BitFor(words, queue, d, n)
  {
  }

  lemma LookKeeps(s: State, n: nat)
    requires Shaped(s) && s.mutex.Look? && Fits(s.words, n) && BitFor(s.words, s.queue, s.mutex, n)
    ensures var r := Critically(s); r.words == s.words && BitFor(s.words, r.queue, r.mutex, n)
  {
    hide Bit, Set, Toggle, BitFor, Shaped, Fits, InHand;
    NoHand(s.mutex);
    var r := Critically(s);
    if s.queue != [] {
      SplitLast(s.queue);
      OneHand(r.mutex);
      TakenOver(s.words, r.queue, r.mutex.config, s.mutex, r.mutex, n);
    } else {
      NoHand(r.mutex);
      HandKept(s.words, s.queue, s.mutex, r.mutex, n);
    }
  }

  lemma HandedOver(words: seq<Word>, queue: seq<nat>, c: Critical, m: nat, d: Critical, n: nat)
    requires Fits(words, n) && BitFor(words, queue, c, n)
    requires InHand(c) == multiset{m} && InHand(d) == multiset{}
    ensures BitFor(words, queue + [m], d, n)
  {
    hide Bit, InHand;
  }

  lemma QueueKeeps(s: State, n: nat)
    requires Shaped(s) && s.mutex != Free && !s.mutex.Mark? && !s.mutex.Clear?
    requires Fits(s.words, n) && BitFor(s.words, s.queue, s.mutex, n)
    ensures var r := Critically(s); r.words == s.words && BitFor(s.words, r.queue, r.mutex, n)
  {
    hide Bit, Set, Toggle, BitFor, Shaped, Fits, InHand;
    var r := Critically(s);
    match s.mutex {
      case Link(_, m) =>
        OneHand(s.mutex);
        NoHand(r.mutex);
        HandedOver(s.words, s.queue, s.mutex, m, r.mutex, n);
      case Look(_) => LookKeeps(s, n);
      case _ =>
        NoHand(s.mutex);
        NoHand(r.mutex);
        HandKept(s.words, s.queue, s.mutex, r.mutex, n);
    }
  }

  lemma MarkKeeps(words: seq<Word>, queue: seq<nat>, c: Critical, n: nat)
    requires c.Mark? && Fits(words, n) && Fits(words, c.config) && !Bit(words, c.config)
    requires BitFor(words, queue, c, n)
    ensures BitFor(Set(words, c.config), queue, Link(c.poster, c.config), n)
  {
    OneBit(words, c.config, n);
    hide Bit, Set;
  }

  /** The XOR clears the bit of the task that was just taken. */
  lemma ClearKeeps(words: seq<Word>, queue: seq<nat>, c: Critical, n: nat)
    requires c.Clear? && Fits(words, n) && Fits(words, c.config)
    requires BitFor(words, queue, c, n) && BitFor(words, queue, c, c.config)
    ensures BitFor(Toggle(words, c.config), queue, Leave(c.worker, c.config), n)
    ensures Bit(words, c.config) && !Bit(Toggle(words, c.config), c.config)
  {
    OneBit(words, c.config, n);
    OneBit(words, c.config, c.config);
    hide Bit, Toggle;
  }

  /** What the owner of the mutex does to one config's bit and tasks. */
  lemma BitKept(s: State, n: nat)
    requires Shaped(s) && s.mutex != Free && BitsAgree(s) && n < s.nl
    ensures var r := Critically(s); Fits(r.words, n) && BitFor(r.words, r.queue, r.mutex, n)
  {
    hide Bit, Set, Toggle, BitFor;
    assert BitFor(s.words, s.queue, s.mutex, n);
    match s.mutex {
      case Mark(_, m) => MarkKeeps(s.words, s.queue, s.mutex, n);
      case Clear(_, m) => ClearKeeps(s.words, s.queue, s.mutex, n);
      case _ => QueueKeeps(s, n);
    }
  }

  lemma BitKeptOutside(s: State, a: Action, n: nat)
    requires Shaped(s) && Enabled(s, a) && !a.Inside? && Fits(s.words, n)
    requires BitFor(s.words, s.queue, s.mutex, n)
    ensures var r := Do(s, a); Fits(r.words, n) && BitFor(r.words, r.queue, r.mutex, n)
  {
    hide BitFor, Critically, Shaped, Watchdog;
    var r := Do(s, a);
    if a.Watch? {
      WatchdogKeeps(s, a.seconds);
    }
    HandKept(s.words, s.queue, s.mutex, r.mutex, n);
  }

  /** A bit is set exactly while one task of its config is queued; before it
      is set, it is clear. */
  lemma BitsKept(s: State, a: Action)
    requires Shaped(s) && Enabled(s, a) && BitsAgree(s)
    ensures Shaped(Do(s, a)) && BitsAgree(Do(s, a))
  {
    ShapedKept(s, a);
    hide Bit, Set, Toggle, BitFor;
    var r := Do(s, a);
    forall n: nat | n < s.nl ensures BitFor(r.words, r.queue, r.mutex, n) {
      if a.Inside? {
        BitKept(s, n);
      } else {
        BitKeptOutside(s, a, n);
      }
    }
  }

  lemma TallyStep(log: seq<Event>, queue: seq<nat>, e: Event, after: seq<nat>)
    requires Tallied(log, queue)
    requires match e
             case Queued(n) => after == queue + [n]
             case Taken(n) => queue == after + [n]
             case _ => after == queue
    ensures Tallied(log + [e], after)
  {
    forall n: nat
      ensures multiset(log + [e])[Queued(n)] == multiset(log + [e])[Taken(n)] + multiset(after)[n]
    {
      assert multiset(log)[Queued(n)] == multiset(log)[Taken(n)] + multiset(queue)[n];
      CountSnoc(log, e, Queued(n));
      CountSnoc(log, e, Taken(n));
      match e
      case Queued(m) => CountSnoc(queue, m, n);
      case Taken(m) => CountSnoc(after, m, n);
      case _ =>
    }
  }

  lemma OwnerTallies(s: State)
    requires Shaped(s) && s.mutex != Free && Tallied(s.log, s.queue)
    ensures var r := Critically(s); Tallied(r.log, r.queue)
  {
    hide Bit, Set, Toggle, Shaped, Tallied;
    var r := Critically(s);
    if s.mutex.Link? {
      TallyStep(s.log, s.queue, Queued(s.mutex.config), r.queue);
    } else if s.mutex.Look? && s.queue != [] {
      SplitLast(s.queue);
      TallyStep(s.log, s.queue, Taken(r.mutex.config), r.queue);
    }
  }

  lemma WatchdogTallies(s: State, seconds: int)
    requires Tallied(s.log, s.queue)
    ensures var r := Watchdog(s, seconds); Tallied(r.log, r.queue)
  {
    hide Tallied;
    TallyStep(s.log, s.queue, Sample(s.overload), s.queue);
    TallyStep(s.log, s.queue, Clock(seconds), s.queue);
    TallyStep(s.log, s.queue, Reset, s.queue);
  }

  lemma TallyKept(s: State, a: Action)
    requires Shaped(s) && Enabled(s, a) && Tallied(s.log, s.queue)
    ensures var r := Do(s, a); Tallied(r.log, r.queue)
  {
    hide Bit, Set, Toggle, Shaped, Tallied;
    match a {
      case Inside => OwnerTallies(s);
      case Count(i) => TallyStep(s.log, s.queue, Rejection(s.posters[i].config), s.queue);
      case Watch(seconds) => WatchdogTallies(s, seconds);
      case _ =>
    }
  }

  // ---- the overload counter --------------------------------------------------

  function Died(ps: seq<Poster>): (n: nat)
    ensures n <= |ps|
    ensures (exists i :: 0 <= i < |ps| && ps[i] != Dying) ==> n < |ps|
  {
    if ps == [] then 0 else Died(ps[..|ps| - 1]) + if ps[|ps| - 1] == Dying then 1 else 0
  }

  lemma {:induction false} DiedUpdate(ps: seq<Poster>, i: nat, p: Poster)
    requires i < |ps|
    ensures Died(ps[i := p]) + (if ps[i] == Dying then 1 else 0) == Died(ps) + if p == Dying then 1 else 0
  {
    var k := |ps| - 1;
    if i == k {
      assert ps[i := p][..k] == ps[..k];
    } else {
      assert ps[i := p][..k] == ps[..k][i := p];
      DiedUpdate(ps[..k], i, p);
    }
  }

  /** Beyond the limit, every count is of a thread that is dying. */
  ghost predicate Bounded(s: State) {
    && s.overload <= MAX_OVERLOAD_COUNT + Died(s.posters)
    && MAX_OVERLOAD_COUNT + |s.posters| < UINT_RANGE
  }

  lemma OwnerBounded(s: State)
    requires Shaped(s) && s.mutex != Free
    ensures var r := Critically(s);
            r.overload == s.overload && |r.posters| == |s.posters| && Died(r.posters) >= Died(s.posters)
  {
    hide Died, Bit, Set, Toggle;
    var r := Critically(s);
    match s.mutex {
      case Accept(i) => DiedUpdate(s.posters, i, r.posters[i]);
      case Reject(i, _) => DiedUpdate(s.posters, i, r.posters[i]);
      case _ =>
    }
  }

  lemma BoundKept(s: State, a: Action)
    requires Shaped(s) && Enabled(s, a) && Bounded(s)
    ensures Bounded(Do(s, a))
    ensures a.Count? ==> Do(s, a).overload == s.overload + 1
    ensures a == Inside ==> Do(s, a).overload == s.overload
  {
    hide Died, Shaped, Bit, Set, Toggle;
    var r := Do(s, a);
    match a {
      case Post(i, _) => DiedUpdate(s.posters, i, r.posters[i]);
      case PostLock(i) => DiedUpdate(s.posters, i, r.posters[i]);
      case Count(i) => DiedUpdate(s.posters, i, r.posters[i]);
      case Inside => OwnerBounded(s);
      case _ =>
    }
  }

  // ---- the watchdog ----------------------------------------------------------

  /** How many posts were rejected from position `k` of the log on. */
  function Rejected(log: seq<Event>, k: nat): (n: nat) {
    if |log| <= k then 0
    else Rejected(log[..|log| - 1], k) + if log[|log| - 1].Rejection? then 1 else 0
  }

  /** The sample at `k` of the log read `v`, and the counter has counted every
      rejection since. */
  ghost predicate Tracks(log: seq<Event>, overload: nat, k: nat, v: nat) {
    && k < |log| && log[k] == Sample(v)
    && overload == v + Rejected(log, k)
    && forall x :: k <= x < |log| ==> log[x] != Reset
  }

  ghost predicate Timed(log: seq<Event>, k: nat, stamped: nat, lts: int) {
    k < stamped < |log| && log[stamped] == Clock(lts)
  }

  /** The clock was read at `m`, more than the window after `lts`. */
  predicate Late(log: seq<Event>, m: nat, lts: int) {
    m < |log| && log[m].Clock? && log[m].seconds - lts > OVERLOAD_WINDOW
  }

  ghost predicate Expired(log: seq<Event>, second: nat, lts: int) {
    exists m :: second < m && Late(log, m, lts)
  }

  ghost predicate Watched(s: State) {
    && (s.last != 0 ==>
          && Tracks(s.log, s.overload, s.first, s.last)
          && (s.dog != Stamp ==> Timed(s.log, s.first, s.stamped, s.lts)))
    && match s.dog
       case Decide(now) => Tracks(s.log, s.overload, s.second, now) && (s.last != 0 ==> s.stamped < s.second)
       case Stamp => s.last != 0
       case Check => s.last != 0 && s.stamped < s.second && Tracks(s.log, s.overload, s.second, s.last)
       case Store =>
         && s.last != 0 && s.stamped < s.second && Tracks(s.log, s.overload, s.second, s.last)
         && Expired(s.log, s.second, s.lts)
       case _ => true
  }

  /** Two samples, at `i` and `j`, of the same nonzero count, with no rejection
      between them; a clock reading after each, more than the window apart. */
  ghost predicate Window(log: seq<Event>, i: nat, k: nat, j: nat, m: nat) {
    && i < k < j < m < |log|
    && log[i].Sample? && log[i].value != 0 && log[j] == log[i]
    && log[k].Clock? && Late(log, m, log[k].seconds)
    && forall x :: i <= x <= j ==> log[x] != Reset && !log[x].Rejection?
  }

  ghost predicate Justified(log: seq<Event>) {
    exists i: nat, k: nat, j: nat, m: nat :: Window(log, i, k, j, m)
  }

  ghost predicate ResetsJustified(log: seq<Event>) {
    forall r :: 0 <= r < |log| && log[r] == Reset ==> Justified(log[..r])
  }

  lemma TracksOn(log: seq<Event>, overload: nat, k: nat, v: nat, e: Event, overload': nat)
    requires Tracks(log, overload, k, v) && e != Reset
    requires overload' == overload + if e.Rejection? then 1 else 0
    ensures Tracks(log + [e], overload', k, v)
  {
    assert (log + [e])[..|log|] == log;
  }

  lemma TracksNow(log: seq<Event>, v: nat)
    ensures Tracks(log + [Sample(v)], v, |log|, v)
  {
    assert (log + [Sample(v)])[..|log|] == log;
  }

  lemma TimesOn(log: seq<Event>, k: nat, stamped: nat, lts: int, second: nat, e: Event)
    ensures Timed(log, k, stamped, lts) ==> Timed(log + [e], k, stamped, lts)
    ensures Expired(log, second, lts) ==> Expired(log + [e], second, lts)
  {
    if Expired(log, second, lts) {
      var m :| second < m && Late(log, m, lts);
      assert Late(log + [e], m, lts);
    }
  }

  /** Steps of the other threads. */
  lemma WatchedOn(s: State, r: State, e: Event)
    requires Watched(s) && r.log == s.log + [e] && e != Reset
    requires r.overload == s.overload + if e.Rejection? then 1 else 0
    requires r.dog == s.dog && r.last == s.last && r.lts == s.lts
    requires r.first == s.first && r.stamped == s.stamped && r.second == s.second
    ensures Watched(r)
  {
    hide Tracks, Timed, Expired, Rejected;
    TimesOn(s.log, s.first, s.stamped, s.lts, s.second, e);
    forall k: nat, v: nat | Tracks(s.log, s.overload, k, v) ensures Tracks(r.log, r.overload, k, v) {
      TracksOn(s.log, s.overload, k, v, e, r.overload);
    }
  }

  lemma WatchedSame(s: State, r: State)
    requires Watched(s) && r.log == s.log && r.overload == s.overload
    requires r.dog == s.dog && r.last == s.last && r.lts == s.lts
    requires r.first == s.first && r.stamped == s.stamped && r.second == s.second
    ensures Watched(r)
  {
    hide Tracks, Timed, Expired, Rejected;
  }

  lemma TimedInLog(log: seq<Event>, k: nat, stamped: nat, lts: int)
    requires Timed(log, k, stamped, lts)
    ensures stamped < |log|
  {
  }

  /** Steps of the watchdog itself. */
  lemma WatchdogWatched(s: State, seconds: int)
    requires Watched(s)
    ensures Watched(Watchdog(s, seconds))
  {
    hide Rejected;
    var r := Watchdog(s, seconds);
    match s.dog {
      case Load =>
        hide Tracks, Timed, Expired;
        TracksNow(s.log, s.overload);
        TimesOn(s.log, s.first, s.stamped, s.lts, s.second, Sample(s.overload));
        if s.last != 0 {
          TracksOn(s.log, s.overload, s.first, s.last, Sample(s.overload), s.overload);
          TimedInLog(s.log, s.first, s.stamped, s.lts);
        }
      case Stamp => TracksOn(s.log, s.overload, s.first, s.last, Clock(seconds), s.overload);
      case Check =>
        TracksOn(s.log, s.overload, s.first, s.last, Clock(seconds), s.overload);
        TracksOn(s.log, s.overload, s.second, s.last, Clock(seconds), s.overload);
        if r.dog == Store {
          assert Late(r.log, |s.log|, s.lts);
        }
      case _ =>
    }
  }

  lemma {:induction false} NoneBetween(log: seq<Event>, i: nat, j: nat)
    requires i <= j <= |log|
    ensures Rejected(log, i) >= Rejected(log, j)
    ensures Rejected(log, i) == Rejected(log, j) ==> forall x :: i <= x < j ==> !log[x].Rejection?
  {
    if |log| > i {
      var k := |log| - 1;
      if j <= k {
        NoneBetween(log[..k], i, j);
      } else {
        NoneBetween(log[..k], i, k);
      }
    }
  }

  lemma StoreJustified(s: State)
    requires Watched(s) && s.dog == Store
    ensures Justified(s.log)
  {
    hide Rejected;
    NoneBetween(s.log, s.first, s.second);
    var m :| s.second < m && Late(s.log, m, s.lts);
    assert Window(s.log, s.first, s.stamped, s.second, m);
  }

  lemma ResetsOn(log: seq<Event>, e: Event)
    requires ResetsJustified(log) && (e == Reset ==> Justified(log))
    ensures ResetsJustified(log + [e])
  {
    hide Justified;
    var after := log + [e];
    forall r | 0 <= r < |after| && after[r] == Reset ensures Justified(after[..r]) {
      assert after[..r] == log[..r];
      assert log[..|log|] == log;
    }
  }

  lemma OwnerUnwatched(s: State)
    requires Shaped(s) && s.mutex != Free
    ensures var r := Critically(s);
            && r.overload == s.overload && r.dog == s.dog && r.last == s.last && r.lts == s.lts
            && r.first == s.first && r.stamped == s.stamped && r.second == s.second
            && (r.log == s.log
                || exists e: Event :: r.log == s.log + [e] && (e.Queued? || e.Taken?))
  {
    hide Bit, Set, Toggle;
  }

  lemma WatchdogResets(s: State, seconds: int)
    requires Watched(s) && ResetsJustified(s.log)
    ensures ResetsJustified(Watchdog(s, seconds).log)
  {
    if s.dog == Store {
      StoreJustified(s);
    }
    hide Watched, ResetsJustified, Justified;
    ResetsOn(s.log, Sample(s.overload));
    ResetsOn(s.log, Clock(seconds));
    if s.dog == Store {
      ResetsOn(s.log, Reset);
    }
  }

  lemma WatchKept(s: State, a: Action)
    requires Shaped(s) && Enabled(s, a) && Bounded(s) && Watched(s) && ResetsJustified(s.log)
    ensures var r := Do(s, a); Watched(r) && ResetsJustified(r.log)
  {
    BoundKept(s, a);
    hide Watched, ResetsJustified, Bit, Set, Toggle, Shaped, Bounded;
    var r := Do(s, a);
    match a {
      case Inside =>
        OwnerUnwatched(s);
        if r.log == s.log {
          WatchedSame(s, r);
        } else {
          WatchedOn(s, r, r.log[|s.log|]);
          ResetsOn(s.log, r.log[|s.log|]);
        }
      case Count(i) =>
        WatchedOn(s, r, Rejection(s.posters[i].config));
        ResetsOn(s.log, Rejection(s.posters[i].config));
      case Watch(seconds) =>
        WatchdogWatched(s, seconds);
        WatchdogResets(s, seconds);
      case _ => WatchedSame(s, r);
    }
  }

  // ---- every run -------------------------------------------------------------

  ghost predicate Inv(s: State) {
    && Shaped(s) && BitsAgree(s) && Tallied(s.log, s.queue)
    && Bounded(s) && Watched(s) && ResetsJustified(s.log)
  }

  lemma {:induction false} NoneDied(ps: seq<Poster>)
    requires forall i :: 0 <= i < |ps| ==> ps[i] == Idle
    ensures Died(ps) == 0
  {
    if ps != [] {
      NoneDied(ps[..|ps| - 1]);
    }
  }

  lemma InitInv(s: State)
    requires Init(s)
    ensures Inv(s)
  {
    assert forall n: nat :: n < s.nl ==> !Bit(s.words, n);
    NoneDied(s.posters);
  }

  lemma InvKept(s: State, a: Action)
    requires Inv(s) && Enabled(s, a)
    ensures Inv(Do(s, a))
  {
    hide Shaped, BitsAgree, Tallied, Bounded, Watched, ResetsJustified, Do;
    ShapedKept(s, a);
    BitsKept(s, a);
    TallyKept(s, a);
    BoundKept(s, a);
    WatchKept(s, a);
  }

  lemma {:induction false} ReachesInv(s: State, run: seq<Action>, s': State)
    requires Inv(s) && Reaches(s, run, s')
    ensures Inv(s')
    decreases |run|
  {
    hide Inv, Do;
    if run != [] {
      InvKept(s, run[0]);
      ReachesInv(Do(s, run[0]), run[1..], s');
    }
  }

  ghost predicate Reachable(s: State) {
    exists s0, run :: Init(s0) && Reaches(s0, run, s)
  }

  lemma ReachableInv(s: State)
    requires Reachable(s)
    ensures Inv(s)
  {
    hide Inv, Init, Reaches;
    var s0, run :| Init(s0) && Reaches(s0, run, s);
    InitInv(s0);
    ReachesInv(s0, run, s);
  }

  /** Whenever the mutex is free, a config's bit is set exactly when the queue
      holds exactly one task for it, and clear exactly when it holds none. */
  lemma OneTaskPerBit(s: State, n: nat)
    requires Reachable(s) && s.mutex == Free && n < s.nl
    ensures Fits(s.words, n) && multiset(s.queue)[n] == if Bit(s.words, n) then 1 else 0
  {
    ReachableInv(s);
    assert BitFor(s.words, s.queue, s.mutex, n);
  }

  /** A post is turned away exactly when a task of its config is queued. */
  lemma RejectedIffQueued(s: State, i: nat, n: nat)
    requires Reachable(s) && s.mutex == Test(i, n)
    ensures Shaped(s)
    ensures Do(s, Inside).mutex == (if n in s.queue then Reject(i, n) else Mark(i, n))
  {
    ReachableInv(s);
    assert BitFor(s.words, s.queue, s.mutex, n);
    hide Bit;
  }

  /** The XOR of routine() always clears: the bit was set, and it is the only
      one that changes. */
  lemma XorClears(s: State, j: nat, n: nat)
    requires Reachable(s) && s.mutex == Clear(j, n)
    ensures Shaped(s) && Bit(s.words, n) && !Bit(Do(s, Inside).words, n)
    ensures forall m: nat :: m < s.nl && m != n ==> (Bit(Do(s, Inside).words, m) <==> Bit(s.words, m))
  {
    ReachableInv(s);
    assert BitFor(s.words, s.queue, s.mutex, n);
    OneBit(s.words, n, n);
    forall m: nat | m < s.nl && m != n ensures Bit(Do(s, Inside).words, m) <==> Bit(s.words, m) {
      OneBit(s.words, n, m);
    }
  }

  /** Along any run, the tasks of one config are queued and taken by turns. */
  lemma TakenByTurns(s: State, n: nat)
    requires Reachable(s) && n < s.nl
    ensures multiset(s.log)[Taken(n)] <= multiset(s.log)[Queued(n)] <= multiset(s.log)[Taken(n)] + 1
  {
    ReachableInv(s);
    assert BitFor(s.words, s.queue, s.mutex, n);
    hide Bit;
  }

  /** The counter never wraps: what is above the limit was counted by threads
      that die of it. */
  lemma OverloadBound(s: State)
    requires Reachable(s)
    ensures s.overload <= MAX_OVERLOAD_COUNT + Died(s.posters) < UINT_RANGE
  {
    ReachableInv(s);
    hide Died;
  }

  /** The watchdog resets the counter only after more than OVERLOAD_WINDOW
      seconds between two readings of the clock, and there was no rejection
      between the two samples before them. */
  lemma EveryResetJustified(s: State, r: nat)
    requires Reachable(s) && r < |s.log| && s.log[r] == Reset
    ensures Justified(s.log[..r])
  {
    hide Justified;
    ReachableInv(s);
  }

  /** What a reset forgets beyond the sampled count: all the rejections after
      the second sample. */
  lemma ResetForgets(s: State)
    requires Reachable(s) && s.dog == Store
    ensures s.second < |s.log| && s.log[s.second] == Sample(s.last)
    ensures s.overload == s.last + Rejected(s.log, s.second)
  {
    hide Rejected;
    ReachableInv(s);
  }

  // ---- a rejection that is forgotten -----------------------------------------

  lemma {:induction false} RunOn(s0: State, run: seq<Action>, s: State, a: Action)
    requires Reaches(s0, run, s) && Shaped(s) && Enabled(s, a)
    ensures Reaches(s0, run + [a], Do(s, a))
    decreases |run|
  {
    hide Shaped, Enabled, Do;
    if run == [] {
      assert [a][1..] == [];
      assert ([] + [a])[0] == a && run + [a] == [a];
    } else {
      RunOn(Do(s0, run[0]), run[1..], s, a);
      assert (run + [a])[1..] == run[1..] + [a];
    }
  }

  lemma ReachableShaped(s: State)
    requires Reachable(s)
    ensures Shaped(s)
  {
    hide Reachable;
    ReachableInv(s);
  }

  lemma ReachableOn(s: State, a: Action)
    requires Reachable(s) && Enabled(s, a)
    ensures Shaped(s) && Reachable(Do(s, a)) && Shaped(Do(s, a))
  {
    hide Shaped, Init, Reaches, Do, Enabled;
    ReachableShaped(s);
    var s0, run :| Init(s0) && Reaches(s0, run, s);
    RunOn(s0, run, s, a);
    ReachableShaped(Do(s, a));
  }

  /** A post that finds its bit clear. */
  lemma Posted(s: State, i: nat, n: nat) returns (r: State)
    requires Reachable(s) && s.mutex == Free && i < |s.posters| && s.posters[i] == Idle && n < s.nl
    requires Fits(s.words, n) && !Bit(s.words, n)
    ensures Reachable(r) && Fits(r.words, n) && Bit(r.words, n)
    ensures r == s.(words := r.words, queue := s.queue + [n], log := s.log + [Queued(n)])
  {
    hide Reachable, Shaped, Bit, Set, Toggle;
    ReachableOn(s, Post(i, n));
    var s1 := Do(s, Post(i, n));
    ReachableOn(s1, PostLock(i));
    var s2 := Do(s1, PostLock(i));
    ReachableOn(s2, Inside);
    var s3 := Do(s2, Inside);
    ReachableOn(s3, Inside);
    var s4 := Do(s3, Inside);
    ReachableOn(s4, Inside);
    var s5 := Do(s4, Inside);
    ReachableOn(s5, Inside);
    r := Do(s5, Inside);
    assert r.posters == s.posters;
    OneBit(s.words, n, n);
  }

  /** A post that finds its bit set. */
  lemma TurnedAway(s: State, i: nat, n: nat) returns (r: State)
    requires Reachable(s) && s.mutex == Free && i < |s.posters| && s.posters[i] == Idle && n < s.nl
    requires Fits(s.words, n) && Bit(s.words, n) && s.overload < MAX_OVERLOAD_COUNT
    ensures Reachable(r)
    ensures r == s.(overload := s.overload + 1, log := s.log + [Rejection(n)])
  {
    hide Reachable, Shaped, Bit, Set, Toggle;
    ReachableOn(s, Post(i, n));
    var s1 := Do(s, Post(i, n));
    ReachableOn(s1, PostLock(i));
    var s2 := Do(s1, PostLock(i));
    ReachableOn(s2, Inside);
    var s3 := Do(s2, Inside);
    ReachableOn(s3, Inside);
    var s4 := Do(s3, Inside);
    ReachableOn(s4, Count(i));
    r := Do(s4, Count(i));
    assert r.posters == s.posters;
  }

  /** The watchdog sees an overload count, and the same one again later. */
  lemma SeenTwice(s: State) returns (r: State)
    requires Reachable(s) && s.dog == Load && s.last == 0 && s.overload != 0
    ensures Reachable(r) && r.dog == Store
    ensures r == s.(dog := Store, last := s.overload, lts := 0, log := r.log,
                    first := r.first, stamped := r.stamped, second := r.second)
  {
    hide Reachable, Shaped;
    ReachableOn(s, Watch(0));
    var s1 := Do(s, Watch(0));
    ReachableOn(s1, Watch(0));
    var s2 := Do(s1, Watch(0));
    ReachableOn(s2, Watch(0));
    var s3 := Do(s2, Watch(0));
    ReachableOn(s3, Watch(0));
    var s4 := Do(s3, Watch(0));
    ReachableOn(s4, Watch(0));
    var s5 := Do(s4, Watch(0));
    ReachableOn(s5, Watch(0));
    var s6 := Do(s5, Watch(0));
    ReachableOn(s6, Watch(OVERLOAD_WINDOW + 1));
    r := Do(s6, Watch(OVERLOAD_WINDOW + 1));
  }

  /** The two samples are not the whole story: a post can be turned away right
      before the reset, and the counter is 0 nevertheless. */
  lemma RejectionForgotten(s0: State) returns (s: State)
    requires Init(s0) && s0.posters != [] && s0.nl > 0
    ensures Reachable(s) && s.overload == 0
    ensures |s.log| >= 2 && s.log[|s.log| - 2] == Rejection(0) && s.log[|s.log| - 1] == Reset
  {
    assert Reaches(s0, [], s0);
    assert Reachable(s0);
    assert s0.words[0] == {};
    var s1 := Posted(s0, 0, 0);
    var s2 := TurnedAway(s1, 0, 0);
    var s3 := SeenTwice(s2);
    var s4 := TurnedAway(s3, 0, 0);
    ReachableOn(s4, Watch(0));
    s := Do(s4, Watch(0));
  }
}
