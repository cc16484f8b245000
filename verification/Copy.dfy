/** Copying a tree: makedir(), cpyfile() and copy() of commands/copy.c, two
    walks over the source that share one destination buffer. */
module Copy {
  import opened CString
  import opened Sequences
  import opened FileTree
  import opened FileSystem
  import opened FileIter
  import opened Mkdir

  // ----- names

  /** What strbuf_concatat_base() leaves in the buffer for a callback. */
  function Target(dest: string, rel: Option<string>): string {
    if rel.Some? then dest + rel.value else dest
  }

  /** The destination keeps the shape of the source: an entry of a directory
      becomes an entry of that directory's target. */
  lemma TargetChild(root: string, dest: string, p: string, name: string)
    requires root <= p && !EndsWithSlash(p) && !EndsWithSlash(Target(dest, After(p, root)))
    ensures root <= Child(p, name)
    ensures Target(dest, After(Child(p, name), root)) == Child(Target(dest, After(p, root)), name)
  {
    var rest := p[|root|..];
    DropOfConcat(p, "/", |root|);
    DropOfConcat(p + "/", name, |root|);
    Assoc(dest, rest + "/", name);
    Assoc(dest, rest, "/");
  }

  /** A source whose name ends in '/' loses the separator: its entries do not
      land in the destination directory. */
  lemma TargetIff(root: string, dest: string, name: string)
    requires root != [] && dest != [] && !EndsWithSlash(dest) && IsFileName(name)
    ensures Target(dest, After(Child(root, name), root)) == Child(dest, name) <==> !EndsWithSlash(root)
  {
    var c := Child(root, name);
    if EndsWithSlash(root) {
      assert c[|root|..] == name;
      assert |dest + name| != |Child(dest, name)|;
    } else {
      assert c[|root|..] == "/" + name;
      Assoc(dest, "/", name);
    }
  }

  lemma RealTarget(root: string, dest: string, p: string, t: string, name: string)
    requires root <= p && p != "" && !EndsWithSlash(p) && IsFileName(name)
    requires t == Target(dest, After(p, root)) && t != "" && !EndsWithSlash(t)
    ensures var c, u := Child(p, name), Child(t, name);
            && root <= c && c != "" && !EndsWithSlash(c) && u == Target(dest, After(c, root)) != "" && !EndsWithSlash(u)
            && Real(c) == Child(Real(p), name) && Real(u) == Child(Real(t), name) && Real(u) != "/"
  {
    TargetChild(root, dest, p, name);
    RealBelow(p, name);
    RealBelow(t, name);
    ChildEnd(p, name);
    ChildEnd(t, name);
    hide Real, Target, EndsWithSlash;
  }

  // ----- pass one: directories

  predicate MkAllowed(fs: Fs, dest: string, e: Event) {
    match e
    case Open(d) => HasDir(fs, Real(d))
    case VisitDir(_, rel) =>
      var t := Target(dest, rel);
      t != "" && ParentOk(fs, Real(t)) && !IsThere(fs, Real(t))
    case Visit(_, _, _) => false
  }

  function MkApplied(fs: Fs, dest: string, e: Event): Fs {
    if e.VisitDir? then fs[Real(Target(dest, e.rel)) := IsDir] else fs
  }

  function MkState(fs: Fs, dest: string, faults: seq<Event> -> bool, history: seq<Event>): Fs {
    if history == [] then fs
    else
      var last := history[|history| - 1];
      var before := MkState(fs, dest, faults, history[..|history| - 1]);
      if faults(history) || !MkAllowed(before, dest, last) then before else MkApplied(before, dest, last)
  }

  /** makedir() as an environment. */
  function MakeDir(fs: Fs, dest: string, faults: seq<Event> -> bool): Env {
    (history: seq<Event>) =>
      if history == [] then 0
      else if faults(history) ||
              !MkAllowed(MkState(fs, dest, faults, history[..|history| - 1]), dest, history[|history| - 1]) then -1
      else 0
  }

  ghost function MkExec(fs: Fs, dest: string, todo: seq<Event>): Option<Fs>
    decreases |todo|
  {
    if todo == [] then Some(fs)
    else if MkAllowed(fs, dest, todo[0]) then MkExec(MkApplied(fs, dest, todo[0]), dest, todo[1..])
    else None
  }

  lemma {:induction false} MkExecConcat(fs: Fs, dest: string, a: seq<Event>, b: seq<Event>)
    ensures MkExec(fs, dest, a + b) ==
            (var mid := MkExec(fs, dest, a); if mid.Some? then MkExec(mid.value, dest, b) else None)
    decreases |a|
  {
    if a == [] {
      assert a + b == b;
    } else {
      assert (a + b)[1..] == a[1..] + b;
      if MkAllowed(fs, dest, a[0]) {
        MkExecConcat(MkApplied(fs, dest, a[0]), dest, a[1..], b);
      }
    }
  }

  /** One call after a history. */
  lemma LastMake(fs: Fs, dest: string, faults: seq<Event> -> bool, done: seq<Event>, e: Event)
    ensures var now, before := done + [e], MkState(fs, dest, faults, done);
            var refused := faults(now) || !MkAllowed(before, dest, e);
            && MkState(fs, dest, faults, now) == (if refused then before else MkApplied(before, dest, e))
            && MakeDir(fs, dest, faults)(now) == if refused then -1 else 0
  {
    hide MkAllowed, MkApplied;
    var now := done + [e];
    assert now[|now| - 1] == e && now[..|now| - 1] == done;
  }

  lemma OneMake(fs: Fs, dest: string, faults: seq<Event> -> bool, done: seq<Event>, e: Event)
    ensures var now, before := done + [e], MkState(fs, dest, faults, done);
            if MkAllowed(before, dest, e) then
              && (Reply(MakeDir(fs, dest, faults), now) != 0 ==>
                    faults(now) && Reply(MakeDir(fs, dest, faults), now) == -1)
              && (Reply(MakeDir(fs, dest, faults), now) == 0 ==>
                    MkState(fs, dest, faults, now) == MkApplied(before, dest, e))
            else Reply(MakeDir(fs, dest, faults), now) == -1 && MkState(fs, dest, faults, now) == before
  {
    LastMake(fs, dest, faults, done, e);
    assert MkAllowed(MkState(fs, dest, faults, done), dest, e) ==> !e.Visit?;
    hide MkState, MakeDir, MkAllowed, MkApplied;
  }

  lemma {:induction false} RunMakes(fs: Fs, dest: string, faults: seq<Event> -> bool, done: seq<Event>,
                                    todo: seq<Event>)
    requires MkExec(MkState(fs, dest, faults, done), dest, todo).Some?
    ensures var (trace, ret) := Run(MakeDir(fs, dest, faults), done, todo);
            && (ret == 0 ==>
                  Some(MkState(fs, dest, faults, trace)) == MkExec(MkState(fs, dest, faults, done), dest, todo))
            && (ret != 0 ==> |done| < |trace| && faults(trace))
    decreases |todo|
  {
    hide MkState, MakeDir, Reply, MkAllowed, MkApplied;
    if todo != [] {
      OneMake(fs, dest, faults, done, todo[0]);
      var now := done + [todo[0]];
      if Reply(MakeDir(fs, dest, faults), now) == 0 {
        RunMakes(fs, dest, faults, now, todo[1..]);
      }
    }
  }

  /** The directories of the destination, for the source tree `es`. */
  function Skeleton(d: string, es: seq<Entry>): set<string>
    decreases Size(es), 1
  {
    {d} + SkeletonSubs(d, Subdirs(es))
  }

  function SkeletonSubs(d: string, ds: seq<Sub>): set<string>
    decreases SubSize(ds), 0
  {
    if ds == [] then {}
    else SkeletonSubs(d, ds[..|ds| - 1]) + Skeleton(Child(d, ds[|ds| - 1].name), ds[|ds| - 1].entries)
  }

  function WithDirs(fs: Fs, dirs: set<string>): Fs {
    fs + map d | d in dirs :: IsDir
  }

  lemma SubWithin(d: string, names: set<string>, t: string)
    requires !EndsWithSlash(d) && Among(d, names, t)
    ensures Within(d, t)
  {
    var n :| n in names && Within(Child(d, n), t);
    ChildUnder(d, n);
    UnderTrans(d, Child(d, n), t);
  }

  lemma {:induction false} SkeletonWithin(d: string, es: seq<Entry>)
    requires !EndsWithSlash(d) && Named(es)
    ensures forall t :: t in Skeleton(d, es) ==> Within(d, t)
    decreases Size(es), 1
  {
    NamedSubdirs(es);
    SkeletonSubsWithin(d, Subdirs(es));
    forall t | t in SkeletonSubs(d, Subdirs(es)) ensures Within(d, t) {
      SubWithin(d, SubNames(Subdirs(es)), t);
    }
  }

  lemma {:induction false} SkeletonSubsWithin(d: string, ds: seq<Sub>)
    requires !EndsWithSlash(d) && NamedSubs(ds)
    ensures forall t :: t in SkeletonSubs(d, ds) ==> Among(d, SubNames(ds), t)
    decreases SubSize(ds), 0
  {
    if ds != [] {
      var init, last := ds[..|ds| - 1], ds[|ds| - 1];
      SkeletonSubsWithin(d, init);
      ChildEnd(d, last.name);
      SkeletonWithin(Child(d, last.name), last.entries);
      forall t | t in SkeletonSubs(d, ds) ensures Among(d, SubNames(ds), t) {
        if t in SkeletonSubs(d, init) {
          var n :| n in SubNames(init) && Within(Child(d, n), t);
          assert n in SubNames(ds);
        } else {
          assert last.name in SubNames(ds);
        }
      }
    }
  }

  /** The source directory `p` and its target share no path. */
  ghost predicate Apart(p: string, d: string) {
    forall q :: !(Within(p, q) && Within(d, q))
  }

  ghost predicate Nothing(fs: Fs, d: string) {
    forall q :: q in fs ==> !Within(d, q)
  }

  lemma ApartChildren(p: string, d: string, n: string)
    requires Apart(p, d) && !EndsWithSlash(p) && !EndsWithSlash(d)
    ensures Apart(Child(p, n), Child(d, n)) && Apart(Child(p, n), d)
  {
    ChildUnder(p, n);
    ChildUnder(d, n);
    forall q ensures Within(Child(p, n), q) ==> Within(p, q) {
      if Within(Child(p, n), q) {
        UnderTrans(p, Child(p, n), q);
      }
    }
    forall q ensures Within(Child(d, n), q) ==> Within(d, q) {
      if Within(Child(d, n), q) {
        UnderTrans(d, Child(d, n), q);
      }
    }
  }

  /** New directories inside `t` do not touch what is apart from it. */
  lemma WithDirsSame(fs: Fs, t: string, dirs: set<string>, c: string)
    requires forall q :: q in dirs ==> Within(t, q)
    requires Apart(c, t)
    ensures SameWithin(fs, WithDirs(fs, dirs), c)
  {
  }

  lemma WithDirsMore(fs: Fs, a: set<string>, b: set<string>)
    ensures WithDirs(WithDirs(fs, a), b) == WithDirs(fs, a + b)
  {
  }

  lemma ChildParentOk(fs: Fs, d: string, n: string)
    requires IsFileName(n) && !EndsWithSlash(d) && HasDir(fs, d)
    ensures ParentOk(fs, Child(d, n))
  {
    LastSlashOfChild(d, n);
    assert Child(d, n)[..|d|] == d;
  }

  /** The room a subdirectory's target needs is there, and stays there when the
      target of a sibling is filled. */
  ghost predicate Room(fs: Fs, d: string, names: set<string>) {
    forall n :: n in names ==> Nothing(fs, Child(d, n))
  }

  lemma RoomKept(fs: Fs, d: string, names: set<string>, m: string, dirs: set<string>)
    requires !EndsWithSlash(d) && Room(fs, d, names) && IsFileName(m) && m !in names
    requires forall n :: n in names ==> IsFileName(n)
    requires forall q :: q in dirs ==> Within(Child(d, m), q)
    ensures Room(WithDirs(fs, dirs), d, names)
  {
    forall n, q | n in names && q in WithDirs(fs, dirs) ensures !Within(Child(d, n), q) {
      if q in dirs && Within(Child(d, n), q) {
        SiblingsApart(d, m, n, q);
      }
    }
  }

  lemma HoldsSubsAfter(fs: Fs, p: string, d: string, ds: seq<Sub>, dirs: set<string>)
    requires !EndsWithSlash(p) && !EndsWithSlash(d) && Apart(p, d)
    requires NamedSubs(ds) && HoldsSubs(fs, p, ds)
    requires forall q :: q in dirs ==> Within(d, q)
    ensures HoldsSubs(WithDirs(fs, dirs), p, ds)
  {
    forall n | n in SubNames(ds) ensures SameWithin(fs, WithDirs(fs, dirs), Child(p, n)) {
      ApartChildren(p, d, n);
      WithDirsSame(fs, d, dirs, Child(p, n));
    }
    HoldsSubsFrame(fs, WithDirs(fs, dirs), p, ds);
  }

  lemma MkNone(fs: Fs, dest: string)
    ensures MkExec(fs, dest, []) == Some(WithDirs(fs, {}))
  {
    assert WithDirs(fs, {}) == fs;
  }

  /** Filling one subdirectory's target leaves the others as they were. */
  lemma NextSubs(fs: Fs, p: string, d: string, init: seq<Sub>, m: string, dirs: set<string>)
    requires !EndsWithSlash(p) && !EndsWithSlash(d) && Apart(p, d) && IsFileName(m)
    requires NamedSubs(init) && HoldsSubs(fs, p, init) && m !in SubNames(init)
    requires HasDir(fs, d) && Room(fs, d, SubNames(init) + {m})
    requires forall q :: q in dirs ==> Within(Child(d, m), q)
    ensures HoldsSubs(WithDirs(fs, dirs), p, init)
    ensures HasDir(WithDirs(fs, dirs), d)
    ensures Room(WithDirs(fs, dirs), d, SubNames(init))
  {
    NamedSubNames(init);
    assert Room(fs, d, SubNames(init)) by {
      assert forall n :: n in SubNames(init) ==> n in SubNames(init) + {m};
    }
    RoomKept(fs, d, SubNames(init), m, dirs);
    ChildUnder(d, m);
    forall q | q in dirs ensures Within(d, q) {
      UnderTrans(d, Child(d, m), q);
    }
    HoldsSubsAfter(fs, p, d, init, dirs);
  }

  lemma NothingThere(fs: Fs, d: string)
    requires Nothing(fs, d)
    ensures d !in fs && Within(d, d)
  {
  }

  lemma MkHead(root: string, dest: string, fs: Fs, p: string, es: seq<Entry>, t: string)
    requires t == Target(dest, After(p, root)) && HasDir(fs, Real(p))
    requires t != "" && ParentOk(fs, Real(t)) && !IsThere(fs, Real(t))
    ensures MkExec(fs, dest, [VisitDir(p, After(p, root))] + [Open(p)] + ListEvents(root, p, es, DirsOnly)) ==
            Some(WithDirs(fs, {Real(t)}))
    ensures HasDir(WithDirs(fs, {Real(t)}), Real(t))
  {
    hide Real, Target, ParentOk;
    var visit := VisitDir(p, After(p, root));
    assert [visit] + [Open(p)] + ListEvents(root, p, es, DirsOnly) == [visit, Open(p)];
    assert [visit, Open(p)][1..] == [Open(p)] && [Open(p)][1..] == [];
    var fs' := fs[Real(t) := IsDir];
    assert WithDirs(fs, {Real(t)}) == fs';
    assert MkExec(fs', dest, [Open(p)]) == Some(fs') by {
      assert MkExec(fs', dest, []) == Some(fs');
    }
  }

  lemma RoomBelow(fs: Fs, d: string, names: set<string>)
    requires !EndsWithSlash(d) && Nothing(fs, d)
    ensures Room(WithDirs(fs, {d}), d, names) && Nothing(fs, d)
  {
    forall n, q | n in names && q in WithDirs(fs, {d}) ensures !Within(Child(d, n), q) {
      ChildUnder(d, n);
      if Within(Child(d, n), q) {
        UnderTrans(d, Child(d, n), q);
      }
    }
  }

  lemma {:induction false} MkExecSubs(root: string, dest: string, fs: Fs, p: string, ds: seq<Sub>, t: string)
    requires root <= p && p != "" && !EndsWithSlash(p)
    requires t == Target(dest, After(p, root)) && t != "" && !EndsWithSlash(t) && Apart(Real(p), Real(t))
    requires NamedSubs(ds) && DistinctSubs(ds) && HoldsSubs(fs, Real(p), ds)
    requires HasDir(fs, Real(t)) && Room(fs, Real(t), SubNames(ds))
    ensures MkExec(fs, dest, PreRev(root, p, ds, DirsOnly)) == Some(WithDirs(fs, SkeletonSubs(Real(t), ds)))
    decreases SubSize(ds), 0
  {
    hide MkExec, Pre, Apart, Target, ParentOk, WithDirs, Skeleton, Real, EndsWithSlash, Child;
    if ds == [] {
      MkNone(fs, dest);
    } else {
      var init, last := ds[..|ds| - 1], ds[|ds| - 1];
      var c, u, d := Child(p, last.name), Child(t, last.name), Real(t);
      assert last.name in SubNames(ds);
      RealTarget(root, dest, p, t, last.name);
      ApartChildren(Real(p), d, last.name);
      ChildParentOk(fs, d, last.name);
      MkExecPre(root, dest, fs, c, last.entries, u);
      var dirs := Skeleton(Real(u), last.entries);
      var fs' := WithDirs(fs, dirs);
      SkeletonWithin(Real(u), last.entries);
      NextSubs(fs, Real(p), d, init, last.name, dirs);
      MkExecSubs(root, dest, fs', p, init, t);
      MkExecConcat(fs, dest, Pre(root, c, last.entries, DirsOnly), PreRev(root, p, init, DirsOnly));
      WithDirsMore(fs, dirs, SkeletonSubs(d, init));
      assert dirs + SkeletonSubs(d, init) == SkeletonSubs(d, init) + dirs;
    }
  }

  /** Pass one: every directory is made after its parent and where nothing is
      yet, and the result is exactly the skeleton of the source. */
  lemma {:induction false} MkExecPre(root: string, dest: string, fs: Fs, p: string, es: seq<Entry>, t: string)
    requires root <= p && p != "" && !EndsWithSlash(p)
    requires t == Target(dest, After(p, root)) && t != "" && !EndsWithSlash(t) && Apart(Real(p), Real(t))
    requires Named(es) && Distinct(es)
    requires HasDir(fs, Real(p)) && Mirrors(fs, Real(p), es)
    requires Real(t) != "/" && ParentOk(fs, Real(t)) && Nothing(fs, Real(t))
    ensures MkExec(fs, dest, Pre(root, p, es, DirsOnly)) == Some(WithDirs(fs, Skeleton(Real(t), es)))
    decreases Size(es), 1
  {
    hide PreRev, Apart, Target, ParentOk, WithDirs, Real, EndsWithSlash;
    var ds, d := Subdirs(es), Real(t);
    NamesApart(es);
    NamedSubdirs(es);
    HoldsAllSubs(fs, Real(p), es);
    NothingThere(fs, d);
    MkHead(root, dest, fs, p, es, t);
    var fs' := WithDirs(fs, {d});
    HoldsSubsAfter(fs, Real(p), d, ds, {d});
    RoomBelow(fs, d, SubNames(ds));
    MkExecSubs(root, dest, fs', p, ds, t);
    var head := [VisitDir(p, After(p, root))] + [Open(p)] + ListEvents(root, p, es, DirsOnly);
    assert Pre(root, p, es, DirsOnly) == head + PreRev(root, p, ds, DirsOnly);
    MkExecConcat(fs, dest, head, PreRev(root, p, ds, DirsOnly));
    WithDirsMore(fs, {d}, SkeletonSubs(d, ds));
  }

  // ----- pass two: files

  /** A leaf handed to the pool, or copied in place when the pool is busy. */
  datatype Job = Job(src: string, dest: string, symlink: bool, queued: bool)

  const SCHED_BUSY := 1

  /** cpyfile() as an environment: the pool's answer, or that of the inline
      copy when the pool is busy. */
  function CopyFile(sched: seq<Event> -> int, inline: seq<Event> -> int): Env {
    (history: seq<Event>) =>
      if history == [] then 0
      else if history[|history| - 1].Visit? then
        (if sched(history) != SCHED_BUSY then sched(history) else inline(history))
      else inline(history)
  }

  /** The jobs a history of callbacks gave rise to. */
  function Jobs(dest: string, sched: seq<Event> -> int, history: seq<Event>): seq<Job> {
    if history == [] then []
    else
      var last := history[|history| - 1];
      Jobs(dest, sched, history[..|history| - 1]) +
      (if last.Visit? && last.kind != Unknown && (sched(history) == 0 || sched(history) == SCHED_BUSY) then
         [Job(last.abs, Target(dest, last.rel), last.kind == Symlink, sched(history) == 0)]
       else [])
  }

  /** The files among a list of callbacks. */
  function Leaves(evs: seq<Event>): seq<Event> {
    if evs == [] then []
    else Leaves(evs[..|evs| - 1]) + if evs[|evs| - 1].Visit? then [evs[|evs| - 1]] else []
  }

  lemma {:induction false} LeavesConcat(a: seq<Event>, b: seq<Event>)
    ensures Leaves(a + b) == Leaves(a) + Leaves(b)
  {
    if b == [] {
      assert a + b == a;
    } else {
      var init, last := b[..|b| - 1], b[|b| - 1];
      assert b == init + [last];
      AppendLast(a, init, last);
      LeavesConcat(a, init);
      Assoc(Leaves(a), Leaves(init), if last.Visit? then [last] else []);
    }
  }

  /** A job for each leaf, with its own target and kind. */
  ghost predicate JobsMatch(dest: string, jobs: seq<Job>, leaves: seq<Event>) {
    |jobs| == |leaves| &&
    forall i :: 0 <= i < |jobs| ==>
      leaves[i].Visit? && jobs[i].src == leaves[i].abs && jobs[i].dest == Target(dest, leaves[i].rel) &&
      (jobs[i].symlink <==> leaves[i].kind == Symlink)
  }

  /** The jobs are those of the first leaves, as many as there are jobs. */
  ghost predicate JobsPrefix(dest: string, jobs: seq<Job>, leaves: seq<Event>) {
    |jobs| <= |leaves| && JobsMatch(dest, jobs, leaves[..|jobs|])
  }

  lemma OneJob(dest: string, jobs: seq<Job>, leaves: seq<Event>, job: Job, e: Event, added: bool)
    requires JobsMatch(dest, jobs, leaves) && (added ==> e.Visit?)
    requires added ==> job.src == e.abs && job.dest == Target(dest, e.rel) && job.symlink == (e.kind == Symlink)
    ensures var all, more := jobs + (if added then [job] else []), leaves + if e.Visit? then [e] else [];
            JobsPrefix(dest, all, more) && (added || !e.Visit? ==> JobsMatch(dest, all, more))
  {
    hide Target;
    var more := leaves + if e.Visit? then [e] else [];
    assert more[..|leaves|] == leaves && more[..|more|] == more;
  }

  predicate Answers(job: Job, sched: seq<Event> -> int, h: seq<Event>) {
    h != [] && h[|h| - 1].Visit? && h[|h| - 1].abs == job.src && sched(h) == if job.queued then 0 else 1
  }

  /** Each job is queued if the pool took its leaf, and copied in place if the
      pool was busy. */
  ghost predicate JobsAnswered(jobs: seq<Job>, sched: seq<Event> -> int, trace: seq<Event>) {
    forall job :: job in jobs ==> exists h :: h <= trace && Answers(job, sched, h)
  }

  lemma AnsweredOn(jobs: seq<Job>, sched: seq<Event> -> int, trace: seq<Event>, order: seq<Event>)
    requires JobsAnswered(jobs, sched, trace) && trace <= order
    ensures JobsAnswered(jobs, sched, order)
  {
    hide Answers;
    forall job | job in jobs ensures exists h :: h <= order && Answers(job, sched, h) {
      var h :| h <= trace && Answers(job, sched, h);
      assert h <= order;
    }
  }

  lemma {:induction false} JobsAreAnswered(dest: string, sched: seq<Event> -> int, trace: seq<Event>)
    ensures JobsAnswered(Jobs(dest, sched, trace), sched, trace)
  {
    if trace != [] {
      var init, jobs := trace[..|trace| - 1], Jobs(dest, sched, trace);
      JobsAreAnswered(dest, sched, init);
      AnsweredOn(Jobs(dest, sched, init), sched, init, trace);
      forall job | job in jobs ensures exists h :: h <= trace && Answers(job, sched, h) {
        if job !in Jobs(dest, sched, init) {
          assert Answers(job, sched, trace) && trace <= trace;
        }
      }
    }
  }

  /** One callback more: the leaf becomes a job, or the pass ends there. */
  lemma JobsStep(dest: string, sched: seq<Event> -> int, inline: seq<Event> -> int, done: seq<Event>, e: Event)
    requires JobsMatch(dest, Jobs(dest, sched, done), Leaves(done))
    ensures var now := done + [e];
            && JobsPrefix(dest, Jobs(dest, sched, now), Leaves(now))
            && (Reply(CopyFile(sched, inline), now) == 0 ==> JobsMatch(dest, Jobs(dest, sched, now), Leaves(now)))
  {
    var now := done + [e];
    assert now[..|now| - 1] == done && now[|now| - 1] == e;
    var jobs, leaves := Jobs(dest, sched, done), Leaves(done);
    var target := if e.Open? then dest else Target(dest, e.rel);
    var job := Job(e.abs, target, e.Visit? && e.kind == Symlink, sched(now) == 0);
    var added := e.Visit? && e.kind != Unknown && (sched(now) == 0 || sched(now) == SCHED_BUSY);
    assert Jobs(dest, sched, now) == jobs + if added then [job] else [];
    assert Leaves(now) == leaves + if e.Visit? then [e] else [];
    assert e.Visit? && !added ==> Reply(CopyFile(sched, inline), now) != 0;
    hide Jobs, Leaves, Reply, CopyFile, Target;
    OneJob(dest, jobs, leaves, job, e, added);
  }

  /** When pass two ends well, it handed over one job per leaf, in order. */
  lemma {:induction false} RunCopies(dest: string, sched: seq<Event> -> int, inline: seq<Event> -> int,
                                     done: seq<Event>, todo: seq<Event>)
    requires JobsMatch(dest, Jobs(dest, sched, done), Leaves(done))
    ensures var (trace, ret) := Run(CopyFile(sched, inline), done, todo);
            ret == 0 ==> trace == done + todo && JobsMatch(dest, Jobs(dest, sched, trace), Leaves(trace))
    decreases |todo|
  {
    hide Jobs, JobsMatch, Leaves, Reply, CopyFile;
    if todo == [] {
      EmptyConcat(done);
    } else {
      var now := done + [todo[0]];
      JobsStep(dest, sched, inline, done, todo[0]);
      assert now + todo[1..] == done + todo;
      if Reply(CopyFile(sched, inline), now) == 0 {
        RunCopies(dest, sched, inline, now, todo[1..]);
      }
    }
  }

  lemma PrefixMore(dest: string, jobs: seq<Job>, a: seq<Event>, b: seq<Event>)
    requires JobsPrefix(dest, jobs, a)
    ensures JobsPrefix(dest, jobs, a + b)
  {
    assert (a + b)[..|jobs|] == a[..|jobs|];
  }

  lemma WholePrefix(dest: string, jobs: seq<Job>, leaves: seq<Event>)
    requires JobsMatch(dest, jobs, leaves)
    ensures JobsPrefix(dest, jobs, leaves)
  {
    assert leaves[..|leaves|] == leaves;
  }

  /** However pass two ends, the jobs are those of the first leaves. */
  lemma {:induction false} RunHandsOver(dest: string, sched: seq<Event> -> int, inline: seq<Event> -> int,
                                        done: seq<Event>, todo: seq<Event>)
    requires JobsMatch(dest, Jobs(dest, sched, done), Leaves(done))
    ensures var trace := Run(CopyFile(sched, inline), done, todo).0;
            JobsPrefix(dest, Jobs(dest, sched, trace), Leaves(done + todo))
    decreases |todo|
  {
    hide Jobs, JobsMatch, JobsPrefix, Leaves, Reply;
    if todo == [] {
      assert done + todo == done;
      WholePrefix(dest, Jobs(dest, sched, done), Leaves(done));
    } else {
      var now := done + [todo[0]];
      JobsStep(dest, sched, inline, done, todo[0]);
      assert now + todo[1..] == done + todo;
      if Reply(CopyFile(sched, inline), now) == 0 {
        RunHandsOver(dest, sched, inline, now, todo[1..]);
      } else {
        LeavesConcat(now, todo[1..]);
        PrefixMore(dest, Jobs(dest, sched, now), Leaves(now), Leaves(todo[1..]));
      }
    }
  }

  /** The pool takes the leaf (0), or it is busy (1) and copying in place goes
      well; a directory can be opened. */
  predicate Answered(sched: seq<Event> -> int, inline: seq<Event> -> int, history: seq<Event>)
    requires history != []
  {
    var last := history[|history| - 1];
    if last.Visit? then
      last.kind != Unknown && (sched(history) == 0 || (sched(history) == 1 && inline(history) == 0))
    else inline(history) == 0
  }

  /** Nothing stands in the way of these calls. */
  ghost predicate Smooth(sched: seq<Event> -> int, inline: seq<Event> -> int, order: seq<Event>) {
    forall h :: h != [] && h <= order ==> Answered(sched, inline, h)
  }

  lemma ReplyAnswered(sched: seq<Event> -> int, inline: seq<Event> -> int, history: seq<Event>)
    requires history != []
    ensures Reply(CopyFile(sched, inline), history) == 0 <==> Answered(sched, inline, history)
  {
  }

  /** A second pass goes through if and only if nothing stands in its way;
      otherwise it ends where the first thing does. */
  lemma RunSmooth(sched: seq<Event> -> int, inline: seq<Event> -> int, order: seq<Event>)
    ensures var (trace, ret) := Run(CopyFile(sched, inline), [], order);
            && (ret == 0 <==> Smooth(sched, inline, order))
            && (ret != 0 ==> && trace != [] && trace <= order && !Answered(sched, inline, trace)
                             && Smooth(sched, inline, trace[..|trace| - 1]))
  {
    hide Run, Reply, CopyFile, Answered;
    var env := CopyFile(sched, inline);
    var (trace, ret) := Run(env, [], order);
    RunSucceedsIff(env, order);
    forall h | h != [] ensures Reply(env, h) == 0 <==> Answered(sched, inline, h) {
      ReplyAnswered(sched, inline, h);
    }
  }

  // ----- each leaf once

  ghost predicate Once(evs: seq<Event>) {
    forall i, j :: 0 <= i < j < |evs| ==> Real(evs[i].abs) != Real(evs[j].abs)
  }

  ghost predicate AllAmong(p: string, names: set<string>, evs: seq<Event>) {
    forall e :: e in evs ==> Among(p, names, Real(e.abs))
  }

  lemma OnceJoined(a: seq<Event>, b: seq<Event>)
    requires Once(a) && Once(b)
    requires forall e, f :: e in a && f in b ==> Real(e.abs) != Real(f.abs)
    ensures Once(a + b)
  {
    hide Real;
    var ab := a + b;
    forall i, j | 0 <= i < j < |ab| ensures Real(ab[i].abs) != Real(ab[j].abs) {
      if i < |a| <= j {
        assert ab[i] in a && ab[j] in b;
      }
    }
  }

  lemma OnceConcat(p: string, a: seq<Event>, na: set<string>, b: seq<Event>, nb: set<string>)
    requires !EndsWithSlash(p) && na !! nb
    requires forall n :: n in na + nb ==> IsFileName(n)
    requires Once(a) && Once(b) && AllAmong(p, na, a) && AllAmong(p, nb, b)
    ensures Once(a + b) && AllAmong(p, na + nb, a + b)
  {
    hide Real;
    forall e, f | e in a && f in b ensures Real(e.abs) != Real(f.abs) {
      var n :| n in na && Within(Child(p, n), Real(e.abs));
      var m :| m in nb && Within(Child(p, m), Real(f.abs));
      if Real(e.abs) == Real(f.abs) {
        SiblingsApart(p, n, m, Real(e.abs));
      }
    }
    OnceJoined(a, b);
    forall e | e in a + b ensures Among(p, na + nb, Real(e.abs)) {
      if e in a {
        AmongMore(p, na, na + nb, Real(e.abs));
      } else {
        AmongMore(p, nb, na + nb, Real(e.abs));
      }
    }
  }

  lemma NoneOnce(p: string)
    ensures Once([]) && AllAmong(p, {}, []) && Leaves([]) == []
  {
  }

  lemma OneOnce(p: string, n: string, e: Event)
    requires p != "" && IsFileName(n) && e.Visit? && e.abs == Child(p, n)
    ensures Once([e]) && AllAmong(Real(p), {n}, [e]) && Leaves([e]) == [e]
  {
    RealChild(p, n);
    AmongItself(Real(p), {n}, n);
    hide Real, Among;
    assert [e][..0] == [];
  }

  lemma {:induction false} ListOnce(root: string, p: string, es: seq<Entry>)
    requires p != "" && Real(p) != "/" && Named(es) && Distinct(es)
    ensures var evs := ListEvents(root, p, es, FilesOnly);
            Once(evs) && AllAmong(Real(p), FileNames(es), evs) && Leaves(evs) == evs
  {
    hide Once, AllAmong, Leaves, Real, EndsWithSlash;
    if es == [] {
      NoneOnce(Real(p));
    } else {
      var init, last := es[..|es| - 1], es[|es| - 1];
      ListOnce(root, p, init);
      NamesApart(init);
      if last.File? {
        var e := Visit(Child(p, last.name), After(Child(p, last.name), root), last.kind);
        OneOnce(p, last.name, e);
        OnceConcat(Real(p), ListEvents(root, p, init, FilesOnly), FileNames(init), [e], {last.name});
        LeavesConcat(ListEvents(root, p, init, FilesOnly), [e]);
      } else {
        assert FileNames(es) == FileNames(init);
        assert ListEvents(root, p, es, FilesOnly) == ListEvents(root, p, init, FilesOnly);
      }
    }
  }

  lemma AmongOne(p: string, n: string, q: string)
    requires Under(Child(p, n), q)
    ensures Among(p, {n}, q)
  {
    assert n in {n} && Within(Child(p, n), q);
  }

  lemma OpenNoLeaf(p: string)
    ensures Leaves([Open(p)]) == []
  {
    assert [Open(p)][..0] == [];
  }

  lemma PreLeaves(root: string, p: string, es: seq<Entry>)
    ensures Leaves(Pre(root, p, es, FilesOnly)) ==
            Leaves(ListEvents(root, p, es, FilesOnly)) + Leaves(PreRev(root, p, Subdirs(es), FilesOnly))
  {
    hide ListEvents, PreRev, Leaves, Subdirs;
    var list, subs := ListEvents(root, p, es, FilesOnly), PreRev(root, p, Subdirs(es), FilesOnly);
    EmptyConcat([Open(p)]);
    var all := Pre(root, p, es, FilesOnly);
    assert all == [Open(p)] + list + subs;
    hide Pre;
    OpenNoLeaf(p);
    LeavesConcat([Open(p)], list);
    LeavesConcat([Open(p)] + list, subs);
    EmptyConcat(Leaves(list));
  }

  lemma AllUnder(p: string, names: set<string>, evs: seq<Event>)
    requires !EndsWithSlash(p) && AllAmong(p, names, evs)
    ensures forall e :: e in evs ==> Under(p, Real(e.abs))
  {
    hide Real;
    forall e | e in evs ensures Under(p, Real(e.abs)) {
      var n :| n in names && Within(Child(p, n), Real(e.abs));
      ChildUnder(p, n);
      UnderTrans(p, Child(p, n), Real(e.abs));
    }
  }

  lemma {:induction false} PreRevOnce(root: string, p: string, ds: seq<Sub>)
    requires p != "" && Real(p) != "/" && NamedSubs(ds) && DistinctSubs(ds)
    ensures var evs := Leaves(PreRev(root, p, ds, FilesOnly)); Once(evs) && AllAmong(Real(p), SubNames(ds), evs)
    decreases SubSize(ds), 0
  {
    hide Pre, Among, Real, EndsWithSlash, Once, Leaves, Under;
    if ds == [] {
      NoneOnce(Real(p));
    } else {
      var init, last := ds[..|ds| - 1], ds[|ds| - 1];
      var c := Child(p, last.name);
      RealBelow(p, last.name);
      PreOnce(root, c, last.entries);
      PreRevOnce(root, p, init);
      NamedSubNames(ds);
      var evs := Leaves(Pre(root, c, last.entries, FilesOnly));
      forall e | e in evs ensures Among(Real(p), {last.name}, Real(e.abs)) {
        AmongOne(Real(p), last.name, Real(e.abs));
      }
      OnceConcat(Real(p), evs, {last.name}, Leaves(PreRev(root, p, init, FilesOnly)), SubNames(init));
      LeavesConcat(Pre(root, c, last.entries, FilesOnly), PreRev(root, p, init, FilesOnly));
      assert {last.name} + SubNames(init) == SubNames(ds);
    }
  }

  /** Pass two meets every leaf of the source exactly once. */
  lemma {:induction false} PreOnce(root: string, p: string, es: seq<Entry>)
    requires p != "" && Real(p) != "/" && Named(es) && Distinct(es)
    ensures var evs := Leaves(Pre(root, p, es, FilesOnly));
            && Once(evs)
            && (forall e :: e in evs ==> Under(Real(p), Real(e.abs)))
            && evs == ListEvents(root, p, es, FilesOnly) + Leaves(PreRev(root, p, Subdirs(es), FilesOnly))
    decreases Size(es), 1
  {
    hide Pre, ListEvents, PreRev, Once, AllAmong, Leaves, Subdirs, Real, EndsWithSlash;
    var ds := Subdirs(es);
    var list, subs := ListEvents(root, p, es, FilesOnly), PreRev(root, p, ds, FilesOnly);
    NamesApart(es);
    NamedSubdirs(es);
    ListOnce(root, p, es);
    PreRevOnce(root, p, ds);
    PreLeaves(root, p, es);
    OnceConcat(Real(p), list, FileNames(es), Leaves(subs), SubNames(ds));
    AllUnder(Real(p), FileNames(es) + SubNames(ds), list + Leaves(subs));
  }

  // ----- no leaf missed

  ghost predicate HasPath(evs: seq<Event>, q: string) {
    exists e :: e in evs && Real(e.abs) == q
  }

  lemma HasPathConcat(a: seq<Event>, b: seq<Event>, q: string)
    ensures HasPath(a + b, q) <==> HasPath(a, q) || HasPath(b, q)
  {
    hide Real;
    if HasPath(a, q) {
      var e :| e in a && Real(e.abs) == q;
      assert e in a + b;
    }
    if HasPath(b, q) {
      var e :| e in b && Real(e.abs) == q;
      assert e in a + b;
    }
  }

  lemma BelowDir(fs: Fs, c: string, q: string)
    requires Within(c, q) && HasDir(fs, c) && q in fs && fs[q] != IsDir
    ensures Under(c, q)
  {
  }

  lemma OwnLeaf(fs: Fs, e: Event, q: string)
    requires Within(Real(e.abs), q) && q in fs && forall r :: r in fs ==> !Under(Real(e.abs), r)
    ensures HasPath([e], q)
  {
    hide Real;
    assert e in [e];
  }

  lemma {:induction false} ListLeaves(root: string, p: string, es: seq<Entry>)
    ensures Leaves(ListEvents(root, p, es, FilesOnly)) == ListEvents(root, p, es, FilesOnly)
  {
    if es != [] {
      var init, last := es[..|es| - 1], es[|es| - 1];
      ListLeaves(root, p, init);
      if last.File? {
        var e := Visit(Child(p, last.name), After(Child(p, last.name), root), last.kind);
        assert [e][..0] == [];
        LeavesConcat(ListEvents(root, p, init, FilesOnly), [e]);
      } else {
        assert ListEvents(root, p, es, FilesOnly) == ListEvents(root, p, init, FilesOnly);
      }
    }
  }

  lemma {:induction false} LeafFound(fs: Fs, root: string, p: string, es: seq<Entry>, q: string)
    requires p != "" && Named(es)
    requires HoldsAll(fs, Real(p), es) && Owned(Real(p), es, q) && q in fs && fs[q] != IsDir
    ensures HasPath(ListEvents(root, p, es, FilesOnly), q) ||
            HasPath(Leaves(PreRev(root, p, Subdirs(es), FilesOnly)), q)
    decreases Size(es), 1
  {
    hide Leaves, Pre, Real, EndsWithSlash, Child, Within, Under, Mirrors, HasPath;
    var init, last := es[..|es| - 1], es[|es| - 1];
    var c, ds := Child(p, last.name), Subdirs(es);
    RealBelow(p, last.name);
    if last.Dir? {
      assert ds[..|ds| - 1] == Subdirs(init);
      assert ListEvents(root, p, es, FilesOnly) == ListEvents(root, p, init, FilesOnly);
      LeavesConcat(Pre(root, c, last.entries, FilesOnly), PreRev(root, p, Subdirs(init), FilesOnly));
      HasPathConcat(Leaves(Pre(root, c, last.entries, FilesOnly)),
                    Leaves(PreRev(root, p, Subdirs(init), FilesOnly)), q);
    } else {
      HasPathConcat(ListEvents(root, p, init, FilesOnly), [Visit(c, After(c, root), last.kind)], q);
    }
    if Owned(Real(p), init, q) {
      LeafFound(fs, root, p, init, q);
    } else if last.Dir? {
      BelowDir(fs, Real(c), q);
      PreComplete(fs, root, c, last.entries, q);
    } else {
      OwnLeaf(fs, Visit(c, After(c, root), last.kind), q);
    }
  }

  /** Every file below the source directory is among the leaves of pass two. */
  lemma {:induction false} PreComplete(fs: Fs, root: string, p: string, es: seq<Entry>, q: string)
    requires p != "" && Named(es)
    requires Mirrors(fs, Real(p), es) && Under(Real(p), q) && q in fs && fs[q] != IsDir
    ensures HasPath(Leaves(Pre(root, p, es, FilesOnly)), q)
    decreases Size(es), 2
  {
    hide Real, Leaves, Pre, PreRev, ListEvents;
    LeafFound(fs, root, p, es, q);
    PreLeaves(root, p, es);
    ListLeaves(root, p, es);
    HasPathConcat(ListEvents(root, p, es, FilesOnly), Leaves(PreRev(root, p, Subdirs(es), FilesOnly)), q);
  }

  /** The directory a leaf is copied into is part of the skeleton. */
  ghost predicate InSkeleton(dest: string, dirs: set<string>, e: Event) {
    e.Visit? &&
    (var t := Real(Target(dest, e.rel));
     LastSlash(t) > 0 && t[..LastSlash(t)] in dirs)
  }

  lemma LeafInSkeleton(d: string, n: string)
    requires d != "" && !EndsWithSlash(d) && IsFileName(n)
    ensures LastSlash(Child(d, n)) > 0 && Child(d, n)[..LastSlash(Child(d, n))] == d
  {
    LastSlashOfChild(d, n);
    assert Child(d, n)[..|d|] == d;
  }

  lemma {:induction false} ListInSkeleton(root: string, dest: string, p: string, es: seq<Entry>, t: string)
    requires root <= p && p != "" && !EndsWithSlash(p) && Named(es)
    requires t == Target(dest, After(p, root)) && t != "" && !EndsWithSlash(t)
    ensures forall e :: e in ListEvents(root, p, es, FilesOnly) ==> InSkeleton(dest, {Real(t)}, e)
  {
    hide Real, EndsWithSlash, Target, Child;
    if es != [] {
      var init, last := es[..|es| - 1], es[|es| - 1];
      ListInSkeleton(root, dest, p, init, t);
      RealTarget(root, dest, p, t, last.name);
      LeafInSkeleton(Real(t), last.name);
    }
  }

  lemma {:induction false} RevInSkeleton(root: string, dest: string, p: string, ds: seq<Sub>, t: string)
    requires root <= p && p != "" && !EndsWithSlash(p) && NamedSubs(ds)
    requires t == Target(dest, After(p, root)) && t != "" && !EndsWithSlash(t)
    ensures forall e :: e in Leaves(PreRev(root, p, ds, FilesOnly)) ==>
              InSkeleton(dest, SkeletonSubs(Real(t), ds), e)
    decreases SubSize(ds), 0
  {
    hide Pre, Leaves, Skeleton, Target, Real, EndsWithSlash, Child;
    if ds == [] {
      NoneOnce(p);
    } else {
      var init, last := ds[..|ds| - 1], ds[|ds| - 1];
      var c := Child(p, last.name);
      RealTarget(root, dest, p, t, last.name);
      PreInSkeleton(root, dest, c, last.entries, Child(t, last.name));
      RevInSkeleton(root, dest, p, init, t);
      LeavesConcat(Pre(root, c, last.entries, FilesOnly), PreRev(root, p, init, FilesOnly));
    }
  }

  lemma {:induction false} PreInSkeleton(root: string, dest: string, p: string, es: seq<Entry>, t: string)
    requires root <= p && p != "" && !EndsWithSlash(p) && Named(es)
    requires t == Target(dest, After(p, root)) && t != "" && !EndsWithSlash(t)
    ensures forall e :: e in Leaves(Pre(root, p, es, FilesOnly)) ==> InSkeleton(dest, Skeleton(Real(t), es), e)
    decreases Size(es), 1
  {
    hide Pre, Leaves, SkeletonSubs, Target, ListEvents, PreRev, Real, EndsWithSlash;
    NamedSubdirs(es);
    ListInSkeleton(root, dest, p, es, t);
    RevInSkeleton(root, dest, p, Subdirs(es), t);
    PreLeaves(root, p, es);
    ListLeaves(root, p, es);
  }

  // ----- the command

  lemma RootTarget(src: string, dest: string)
    ensures Target(dest, After(src, src)) == dest
    ensures dest != "" && !EndsWithSlash(dest) ==> Real(dest) != "/" && !EndsWithSlash(Real(dest))
  {
    assert src[|src|..] == "" && dest + "" == dest;
    hide Squeezed;
  }

  /** The destination's parent directories, as mkfdirp() leaves them. */
  function Parents(fs: Fs, dest: string, faults: nat -> bool): (Fs, bool)
    requires LastSlash(dest) >= 0
  {
    var parent := dest[..LastSlash(dest)];
    MkAll(fs, Steps(parent, First(parent, 0)), faults, 0)
  }

  lemma CutName(dest: string)
    requires LastSlash(dest) >= 0 && !EndsWithSlash(dest)
    ensures var k := LastSlash(dest);
            var base, n := dest[..k + 1], dest[k + 1..];
            && base == dest[..k] + "/" && (k == 0 ==> base == "/" && dest[..k] == "")
            && base != "" && IsFileName(n) && Child(base, n) == dest
  {
    hide LastSlash;
    CutAround(dest, LastSlash(dest));
    var n := dest[LastSlash(dest) + 1..];
    assert forall i :: 0 <= i < |n| ==> n[i] != '/';
  }

  lemma RootName()
    ensures Real("/") == "/"
  {
    assert "/"[..0] == "";
  }

  lemma LongerChild(p: string, n: string)
    requires IsFileName(n)
    ensures |p| < |Child(p, n)| && Real("") == ""
  {
  }

  /** The last component of a name that does not end in '/'. */
  lemma LastName(dest: string)
    requires LastSlash(dest) >= 0 && !EndsWithSlash(dest)
    ensures var parent, n := dest[..LastSlash(dest)], dest[LastSlash(dest) + 1..];
            && IsFileName(n)
            && Real(dest) == Child(if parent == "" then "/" else Real(parent), n)
            && |Real(parent)| < |Real(dest)|
  {
    hide *;
    var k := LastSlash(dest);
    CutName(dest);
    RealChild(dest[..k + 1], dest[k + 1..]);
    if k == 0 {
      RootName();
    } else {
      RealSlash(dest[..k]);
    }
    LongerChild(if k == 0 then "/" else Real(dest[..k]), dest[k + 1..]);
  }

  /** Nothing is before the first component of a name. */
  lemma StartsAlong(fs: Fs, name: string)
    requires name != ""
    ensures Along(fs, name, First(name, 0))
  {
    if name[0] == '/' {
      assert First(name, 0) == 1 && name[..1] == "/";
      RootName();
    } else {
      assert First(name, 0) == 0 && name[..0] == "";
    }
  }

  /** A destination directly below the root has a parent without a name, and
      that cannot be made, whatever else succeeds. */
  lemma RootParent(fs: Fs, dest: string, faults: nat -> bool)
    requires LastSlash(dest) == 0
    ensures !Parents(fs, dest, faults).1
  {
    var parent := dest[..0];
    assert First(parent, 0) == 0 && Steps(parent, 0) == [""];
  }

  /** Where no call fails of itself, the parents of the destination can be made
      if and only if its parent has a name, and whatever is on the way to it is
      a directory; then there is a directory for the destination if and only if
      the parent is not something else. */
  lemma ParentsIff(fs: Fs, dest: string, faults: nat -> bool)
    requires LastSlash(dest) >= 0 && forall m :: !faults(m)
    ensures var parent := dest[..LastSlash(dest)];
            && (Parents(fs, dest, faults).1 <==> parent != "" && Cleared(fs, Real(parent)))
            && (Parents(fs, dest, faults).1 && !EndsWithSlash(dest) ==>
                  (ParentOk(Parents(fs, dest, faults).0, Real(dest)) <==>
                   Real(parent) == "/" || (Real(parent) in fs ==> fs[Real(parent)] == IsDir)))
  {
    var parent := dest[..LastSlash(dest)];
    if parent == "" {
      RootParent(fs, dest, faults);
    } else {
      StartsAlong(fs, parent);
      MkAllSucceeds(fs, parent, First(parent, 0), faults, 0);
      if Parents(fs, dest, faults).1 && !EndsWithSlash(dest) {
        LastName(dest);
        hide Real, Steps, MkAll, First, Cleared, Along;
        MadeChild(Parents(fs, dest, faults).0, Real(parent), dest[LastSlash(dest) + 1..]);
      }
    }
  }

  /** Every step is the name up to some '/', or all of it; the last is all of
      it. */
  lemma {:induction false} StepsAt(name: string, from: nat)
    requires from <= |name|
    ensures forall s :: s in Steps(name, from) ==> s <= name && (|s| < |name| ==> name[|s|] == '/')
    ensures name in Steps(name, from)
    decreases |name| - from
  {
    var k := NextSlash(name, from);
    if k < |name| {
      StepsAt(name, k + 1);
    }
  }

  lemma ShorterName(p: string, q: string)
    requires Within(p, q)
    ensures |p| <= |q|
  {
  }

  lemma StepWithin(dest: string, parent: string, s: string)
    requires LastSlash(dest) >= 0 && parent == dest[..LastSlash(dest)]
    requires s <= parent && (|s| < |parent| ==> parent[|s|] == '/') && Real(s) != "" && Real(s) != "/"
    ensures Within(Real(s), Real(dest)) && |Real(s)| <= |Real(parent)|
  {
    hide Real, LastSlash, Within;
    RealName("");
    assert s != "";
    TakeOfTake(dest, |parent|, |s|);
    assert s == parent[..|s|];
    RealPrefix(dest, |s|);
    RealPrefix(parent, |s|);
    ShorterName(Real(s), Real(parent));
  }

  ghost predicate Extends(fs: Fs, fs': Fs) {
    forall q :: q in fs ==> q in fs' && fs'[q] == fs[q]
  }

  /** What the parents add is on the way to the destination. */
  lemma ParentsAdd(fs: Fs, dest: string, faults: nat -> bool)
    requires LastSlash(dest) >= 0
    ensures var fs', parent := Parents(fs, dest, faults).0, dest[..LastSlash(dest)];
            && Extends(fs, fs')
            && (forall q :: q in fs' && q !in fs ==> Within(q, Real(dest)) && |q| <= |Real(parent)| && fs'[q] == IsDir)
            && (Parents(fs, dest, faults).1 ==> IsThere(fs', Real(parent)))
  {
    var parent := dest[..LastSlash(dest)];
    var fs', steps := Parents(fs, dest, faults).0, Steps(parent, First(parent, 0));
    MkAllSound(fs, steps, faults, 0);
    StepsAt(parent, First(parent, 0));
    hide Real, Within, Steps, MkAll, First;
    assert Parents(fs, dest, faults).1 ==> Names(steps, Real(parent));
    forall q | q in fs' && q !in fs ensures Within(q, Real(dest)) && |q| <= |Real(parent)| {
      var s :| s in steps && Real(s) == q;
      StepWithin(dest, parent, s);
    }
  }

  lemma WithinTrans(p: string, q: string, r: string)
    requires Within(p, q) && Within(q, r)
    ensures Within(p, r)
  {
    if p != q {
      UnderTrans(p, q, r);
    }
  }

  lemma ApartFrom(p: string, q: string, r: string)
    requires Within(q, r) && |q| < |r| && !Within(p, r)
    ensures !Within(r, q) && !Under(p, q) && q != p
  {
    if Within(p, q) {
      WithinTrans(p, q, r);
    }
  }

  /** Making the parents touches neither the source nor the place of the
      destination. */
  lemma ParentsApart(fs: Fs, src: string, dest: string, es: seq<Entry>, faults: nat -> bool)
    requires LastSlash(dest) >= 0 && !EndsWithSlash(dest) && Nothing(fs, Real(dest))
    requires !Within(Real(src), Real(dest)) && src != "" && !EndsWithSlash(src) && Named(es)
    ensures var fs' := Parents(fs, dest, faults).0;
            && Nothing(fs', Real(dest)) && Extends(fs, fs')
            && (HasDir(fs', Real(src)) <==> HasDir(fs, Real(src)))
            && (Mirrors(fs, Real(src), es) ==> Mirrors(fs', Real(src), es))
  {
    var fs' := Parents(fs, dest, faults).0;
    ParentsAdd(fs, dest, faults);
    LastName(dest);
    hide Real, Parents, LastSlash, Within, Under, Mirrors;
    RootTarget(src, src);
    forall q | q in fs' && q !in fs
      ensures !Within(Real(dest), q) && !Under(Real(src), q) && q != Real(src)
    {
      ApartFrom(Real(src), q, Real(dest));
    }
    HoldsFrame(fs, fs', Real(src), es);
  }

  lemma Comparable(a: string, b: string, q: string)
    requires Within(a, q) && Within(b, q)
    ensures Within(a, b) || Within(b, a)
  {
    if |a| == |b| {
      assert a == q[..|a|] == b;
    } else if |a| < |b| {
      assert a + "/" == q[..|a| + 1] == b[..|a| + 1];
    } else {
      assert b + "/" == q[..|b| + 1] == a[..|b| + 1];
    }
  }

  /** A source with its own name and a destination that does not exist yet
      share no path. */
  lemma SourceApart(fs: Fs, src: string, dest: string)
    requires src in fs && Nothing(fs, dest) && !Within(src, dest)
    ensures Apart(src, dest)
  {
    forall q ensures !(Within(src, q) && Within(dest, q)) {
      if Within(src, q) && Within(dest, q) {
        Comparable(src, dest, q);
      }
    }
  }

  lemma {:induction false} MkStateExtends(fs: Fs, dest: string, faults: seq<Event> -> bool, history: seq<Event>)
    ensures Extends(fs, MkState(fs, dest, faults, history))
  {
    if history != [] {
      MkStateExtends(fs, dest, faults, history[..|history| - 1]);
    }
  }

  lemma StartState(fs: Fs, dest: string, faults: seq<Event> -> bool)
    ensures MkState(fs, dest, faults, []) == fs
  {
  }

  lemma VisitThenOpen(src: string, es: seq<Entry>) returns (rest: seq<Event>)
    ensures Pre(src, src, es, DirsOnly) == [VisitDir(src, After(src, src))] + ([Open(src)] + rest)
  {
    hide ListEvents, PreRev;
    rest := ListEvents(src, src, es, DirsOnly) + PreRev(src, src, Subdirs(es), DirsOnly);
    assert Pre(src, src, es, DirsOnly) == [VisitDir(src, After(src, src))] + ([Open(src)] + rest);
  }

  /** If the destination itself cannot be made, pass one ends there. */
  lemma FirstMkdir(fs: Fs, src: string, dest: string, es: seq<Entry>, faults: seq<Event> -> bool)
    requires IsThere(fs, Real(dest)) || !ParentOk(fs, Real(dest))
    ensures var (trace, ret) := Run(MakeDir(fs, dest, faults), [], Pre(src, src, es, DirsOnly));
            ret == -1 && MkState(fs, dest, faults, trace) == fs
  {
    var e := VisitDir(src, After(src, src));
    RootTarget(src, dest);
    assert !MkAllowed(fs, dest, e);
    hide MkState, MakeDir, MkAllowed, MkApplied, Pre, Run, Reply, Target;
    var rest := VisitThenOpen(src, es);
    StartState(fs, dest, faults);
    OneMake(fs, dest, faults, [], e);
    RunOne(MakeDir(fs, dest, faults), [], e, [Open(src)] + rest);
  }

  /** No system call of the pass fails of itself. */
  ghost predicate FaultFree(faults: seq<Event> -> bool, order: seq<Event>) {
    forall h :: h != [] && h <= order ==> !faults(h)
  }

  lemma FirstFault(faults: seq<Event> -> bool, e: Event, rest: seq<Event>)
    requires FaultFree(faults, [e] + rest)
    ensures !faults([] + [e])
  {
    assert [] + [e] <= [e] + rest;
  }

  lemma MakesFaultFree(fs: Fs, dest: string, faults: seq<Event> -> bool, order: seq<Event>)
    ensures Run(MakeDir(fs, dest, faults), [], order).1 == 0 ==> FaultFree(faults, order)
  {
    hide Run, MkState, MkAllowed;
    var env := MakeDir(fs, dest, faults);
    RunSucceedsIff(env, order);
    forall h | h != [] && Reply(env, h) == 0 ensures !faults(h) {
    }
  }

  /** Pass one as a whole. */
  lemma PassOne(fs: Fs, src: string, dest: string, es: seq<Entry>, faults: seq<Event> -> bool)
    requires src != "" && !EndsWithSlash(src) && dest != "" && !EndsWithSlash(dest) && Named(es) && Distinct(es)
    requires HasDir(fs, Real(src)) && Mirrors(fs, Real(src), es)
    requires Nothing(fs, Real(dest)) && !Within(Real(src), Real(dest))
    ensures var (trace, ret) := Run(MakeDir(fs, dest, faults), [], Pre(src, src, es, DirsOnly));
            && (ret == 0 ==> MkState(fs, dest, faults, trace) == WithDirs(fs, Skeleton(Real(dest), es)))
            && (ret == 0 <==> ParentOk(fs, Real(dest)) && FaultFree(faults, Pre(src, src, es, DirsOnly)))
  {
    hide Mirrors, Skeleton, WithDirs, Within, HoldsAll, Real, EndsWithSlash, ParentOk, Pre, Target;
    RootTarget(src, dest);
    if ParentOk(fs, Real(dest)) {
      SourceApart(fs, Real(src), Real(dest));
      MkExecPre(src, dest, fs, src, es, dest);
      var order := Pre(src, src, es, DirsOnly);
      RunMakes(fs, dest, faults, [], order);
      MakesFaultFree(fs, dest, faults, order);
      RunSucceedsIff(MakeDir(fs, dest, faults), order);
    } else {
      FirstMkdir(fs, src, dest, es, faults);
    }
  }

  /** The calls of pass one for a source that is no directory. */
  lemma MadeNotOpened(fs: Fs, src: string, dest: string, e: Event)
    requires dest != "" && !EndsWithSlash(dest) && src != "" && e == VisitDir(src, After(src, src))
    requires !HasDir(fs, Real(src)) && Real(src) != Real(dest) && Real(dest) !in fs && ParentOk(fs, Real(dest))
    ensures MkAllowed(fs, dest, e) && MkApplied(fs, dest, e) == WithDirs(fs, {Real(dest)})
    ensures !MkAllowed(fs, dest, Open(src)) && !MkAllowed(MkApplied(fs, dest, e), dest, Open(src))
  {
    RootTarget(src, dest);
    hide Real, Target, ParentOk, EndsWithSlash;
  }

  /** A source that is no directory: the destination is made, and stays. */
  lemma NoSource(fs: Fs, src: string, dest: string, es: seq<Entry>, faults: seq<Event> -> bool)
    requires dest != "" && !EndsWithSlash(dest) && src != ""
    requires !HasDir(fs, Real(src)) && Real(src) != Real(dest) && Real(dest) !in fs
    ensures var (trace, ret) := Run(MakeDir(fs, dest, faults), [], Pre(src, src, es, DirsOnly));
            && ret == -1
            && (ParentOk(fs, Real(dest)) && FaultFree(faults, Pre(src, src, es, DirsOnly)) ==>
                  MkState(fs, dest, faults, trace) == WithDirs(fs, {Real(dest)}))
  {
    hide *;
    if !ParentOk(fs, Real(dest)) {
      FirstMkdir(fs, src, dest, es, faults);
    } else {
      var e := VisitDir(src, After(src, src));
      MadeNotOpened(fs, src, dest, e);
      var rest := VisitThenOpen(src, es);
      StartState(fs, dest, faults);
      OneMake(fs, dest, faults, [], e);
      RunOne(MakeDir(fs, dest, faults), [], e, [Open(src)] + rest);
      OneMake(fs, dest, faults, [] + [e], Open(src));
      RunOne(MakeDir(fs, dest, faults), [] + [e], Open(src), rest);
      if FaultFree(faults, [e] + ([Open(src)] + rest)) {
        FirstFault(faults, e, [Open(src)] + rest);
      }
    }
  }

  lemma NoJobs(dest: string, sched: seq<Event> -> int)
    ensures JobsMatch(dest, Jobs(dest, sched, []), Leaves([]))
  {
  }

  /** Pass two as a whole.  It goes through if and only if the pool takes each
      leaf, or is busy and the copy in place goes well, and every directory can
      be opened; then there is one job for each leaf.  Otherwise it ends where
      this fails first, with the jobs of the leaves up to there. */
  lemma PassTwo(src: string, dest: string, es: seq<Entry>, sched: seq<Event> -> int, inline: seq<Event> -> int)
    ensures var order := Pre(src, src, es, FilesOnly);
            var (trace, ret) := Run(CopyFile(sched, inline), [], order);
            && JobsPrefix(dest, Jobs(dest, sched, trace), Leaves(order))
            && JobsAnswered(Jobs(dest, sched, trace), sched, order)
            && (ret == 0 ==> JobsMatch(dest, Jobs(dest, sched, trace), Leaves(order)))
            && (ret == 0 <==> Smooth(sched, inline, order))
            && (ret != 0 ==> && trace != [] && trace <= order && !Answered(sched, inline, trace)
                             && Smooth(sched, inline, trace[..|trace| - 1]))
  {
    hide Jobs, Leaves, JobsMatch, JobsPrefix, JobsAnswered, Run, Pre, Smooth, Answered;
    var order := Pre(src, src, es, FilesOnly);
    NoJobs(dest, sched);
    RunCopies(dest, sched, inline, [], order);
    RunHandsOver(dest, sched, inline, [], order);
    RunSmooth(sched, inline, order);
    assert [] + order == order;
    AnsweredOn(Jobs(dest, sched, Run(CopyFile(sched, inline), [], order).0), sched,
               Run(CopyFile(sched, inline), [], order).0, order) by {
      RunIsPrefix(CopyFile(sched, inline), [], order);
      JobsAreAnswered(dest, sched, Run(CopyFile(sched, inline), [], order).0);
    }
  }

  /** The directory each job copies into exists. */
  ghost predicate HaveParents(fs: Fs, jobs: seq<Job>) {
    forall i :: 0 <= i < |jobs| ==>
      var d := Real(jobs[i].dest);
      LastSlash(d) > 0 && HasDir(fs, d[..LastSlash(d)])
  }

  lemma NoneHandedOver(dest: string, leaves: seq<Event>)
    ensures forall fs' :: HaveParents(fs', [])
    ensures JobsPrefix(dest, [], leaves)
    ensures forall sched, order :: JobsAnswered([], sched, order)
  {
  }

  lemma DirAdded(dest: string, dirs: set<string>, e: Event, fs: Fs)
    requires InSkeleton(dest, dirs, e)
    ensures var d := Real(Target(dest, e.rel)); LastSlash(d) > 0 && HasDir(WithDirs(fs, dirs), d[..LastSlash(d)])
  {
    hide Real, Target, LastSlash;
  }

  lemma JobsHaveParents(src: string, dest: string, fs: Fs, es: seq<Entry>, jobs: seq<Job>)
    requires src != "" && !EndsWithSlash(src) && dest != "" && !EndsWithSlash(dest) && Named(es)
    requires JobsPrefix(dest, jobs, Leaves(Pre(src, src, es, FilesOnly)))
    ensures HaveParents(WithDirs(fs, Skeleton(Real(dest), es)), jobs)
  {
    var leaves, dirs := Leaves(Pre(src, src, es, FilesOnly)), Skeleton(Real(dest), es);
    RootTarget(src, dest);
    PreInSkeleton(src, dest, src, es, dest);
    hide Pre, Skeleton, Leaves, Real, EndsWithSlash, LastSlash, WithDirs, InSkeleton, Target, HasDir;
    forall i | 0 <= i < |jobs|
      ensures var d := Real(jobs[i].dest);
              LastSlash(d) > 0 && HasDir(WithDirs(fs, dirs), d[..LastSlash(d)])
    {
      assert leaves[..|jobs|][i] == leaves[i] && leaves[i] in leaves;
      DirAdded(dest, dirs, leaves[i], fs);
    }
  }

  /** access() finds the destination; behind a '/' only a directory is found. */
  predicate Accessible(fs: Fs, dest: string) {
    dest != "" && IsThere(fs, Real(dest)) && (EndsWithSlash(dest) && Real(dest) != "/" ==> fs[Real(dest)] == IsDir)
  }

  predicate IsDirectory(fs: Fs, dest: string) {
    Real(dest) == "/" || HasDir(fs, Real(dest))
  }

  lemma Found(fs: Fs, dest: string)
    ensures Accessible(fs, dest) <==>
            dest != "" && if EndsWithSlash(dest) then IsDirectory(fs, dest) else IsThere(fs, Real(dest))
  {
    hide Real;
  }

  /** A destination that ends in '/' is made with its parents. */
  lemma SlashParents(fs: Fs, dest: string, faults: nat -> bool)
    requires EndsWithSlash(dest) && Parents(fs, dest, faults).1
    ensures IsThere(Parents(fs, dest, faults).0, Real(dest))
  {
    var parent := dest[..LastSlash(dest)];
    assert LastSlash(dest) == |dest| - 1;
    SplitLast(dest);
    hide Parents, Real, LastSlash;
    if parent == "" {
      RootParent(fs, dest, faults);
    } else {
      RealSlash(parent);
      ParentsAdd(fs, dest, faults);
    }
  }

  /** Nothing stands in the way of the two passes and of the pool. */
  ghost predicate Unhindered(src: string, es: seq<Entry>, faults: seq<Event> -> bool, sched: seq<Event> -> int,
                             inline: seq<Event> -> int, joined: int) {
    && FaultFree(faults, Pre(src, src, es, DirsOnly))
    && Smooth(sched, inline, Pre(src, src, es, FilesOnly))
    && joined == 0
  }

  /** What the name of the destination must be like for a copy, and what is
      there before it. */
  ghost predicate Makeable(fs: Fs, dest: string, faults: nat -> bool) {
    && LastSlash(dest) >= 0 && !EndsWithSlash(dest)
    && Parents(fs, dest, faults).1 && ParentOk(Parents(fs, dest, faults).0, Real(dest))
  }

  lemma ExtendsItself(fs: Fs)
    ensures Extends(fs, fs)
  {
  }

  lemma ExtendsTrans(fs: Fs, now: Fs, fs': Fs)
    requires Extends(fs, now) && Extends(now, fs')
    ensures Extends(fs, fs')
  {
  }

  lemma NotMakeableParents(fs: Fs, dest: string, faults: nat -> bool)
    ensures LastSlash(dest) >= 0 ==>
              var parent := dest[..LastSlash(dest)];
              Parents(fs, dest, faults) == MkAll(fs, Steps(parent, First(parent, 0)), faults, 0)
  {
  }

  /** Where no directory for the destination can be made. */
  lemma NotMakeable(fs: Fs, dest: string, faults: nat -> bool)
    ensures LastSlash(dest) < 0 ==> !Makeable(fs, dest, faults) && !EndsWithSlash(dest)
    ensures LastSlash(dest) >= 0 ==>
              var parent := dest[..LastSlash(dest)];
              Parents(fs, dest, faults) == MkAll(fs, Steps(parent, First(parent, 0)), faults, 0)
    ensures LastSlash(dest) >= 0 && !Parents(fs, dest, faults).1 ==> !Makeable(fs, dest, faults)
    ensures EndsWithSlash(dest) ==> !Makeable(fs, dest, faults)
  {
    hide Parents, MkAll, Steps, ParentOk;
    NotMakeableParents(fs, dest, faults);
  }

  /** Pass one, behind the parents. */
  lemma BehindParents(fs: Fs, src: string, dest: string, es: seq<Entry>, dirFaults: nat -> bool,
                      faults: seq<Event> -> bool)
    requires src != "" && !EndsWithSlash(src) && Named(es) && Distinct(es)
    requires HasDir(fs, Real(src)) ==> Mirrors(fs, Real(src), es)
    requires !Within(Real(src), Real(dest)) && (!IsThere(fs, Real(dest)) ==> Nothing(fs, Real(dest)))
    requires !Accessible(fs, dest) && LastSlash(dest) >= 0 && Parents(fs, dest, dirFaults).1
    ensures var parents := Parents(fs, dest, dirFaults).0;
            var order := Pre(src, src, es, DirsOnly);
            var (trace, made) := Run(MakeDir(parents, dest, faults), [], order);
            var made', all := MkState(parents, dest, faults, trace), WithDirs(parents, Skeleton(Real(dest), es));
            && Extends(fs, made')
            && (made == 0 <==> Makeable(fs, dest, dirFaults) && HasDir(fs, Real(src)) && FaultFree(faults, order))
            && (EndsWithSlash(dest) ==> made' == parents)
            && (Makeable(fs, dest, dirFaults) && FaultFree(faults, order) ==>
                  made' == if HasDir(fs, Real(src)) then all else WithDirs(parents, {Real(dest)}))
  {
    hide MkState, MakeDir, Pre, Run, WithDirs, Skeleton, Real, Parents, ParentOk, Mirrors;
    var parents := Parents(fs, dest, dirFaults).0;
    ParentsAdd(fs, dest, dirFaults);
    var trace := Run(MakeDir(parents, dest, faults), [], Pre(src, src, es, DirsOnly)).0;
    MkStateExtends(parents, dest, faults, trace);
    ExtendsTrans(fs, parents, MkState(parents, dest, faults, trace));
    if EndsWithSlash(dest) {
      SlashParents(fs, dest, dirFaults);
      FirstMkdir(parents, src, dest, es, faults);
    } else {
      ParentsApart(fs, src, dest, es, dirFaults);
      RootTarget(src, dest);
      if HasDir(fs, Real(src)) {
        PassOne(parents, src, dest, es, faults);
      } else {
        NothingThere(parents, Real(dest));
        NoSource(parents, src, dest, es, faults);
      }
    }
  }

  lemma CopiesUnhindered(src: string, es: seq<Entry>, faults: seq<Event> -> bool, sched: seq<Event> -> int,
                         inline: seq<Event> -> int, joined: int)
    ensures Unhindered(src, es, faults, sched, inline, joined) <==>
              && FaultFree(faults, Pre(src, src, es, DirsOnly))
              && Smooth(sched, inline, Pre(src, src, es, FilesOnly))
              && joined == 0
  {
  }

  lemma CopyCalls(src: string, es: seq<Entry>)
    requires src != ""
    ensures Calls(src, es, DirsOnly) == Pre(src, src, es, DirsOnly)
    ensures Calls(src, es, FilesOnly) == Pre(src, src, es, FilesOnly)
  {
  }

  /** copy() without --force.  `dirFaults` and `faults` name the failing system
      calls, `sched` gives the answers of the pool, `inline` those of copying in
      place, `joined` is what cpsched_join() reports.  `undef` says that the C
      code would write through a null pointer. */
  method Copy(src: string, dest: string, es: seq<Entry>, fs: Fs, dirFaults: nat -> bool, faults: seq<Event> -> bool,
              sched: seq<Event> -> int, inline: seq<Event> -> int, joined: int)
    returns (ret: int, fs': Fs, jobs: seq<Job>, undef: bool)
    requires src != "" && !EndsWithSlash(src) && Named(es) && Distinct(es) && NUL !in dest
    requires HasDir(fs, Real(src)) ==> Mirrors(fs, Real(src), es)
    requires !Within(Real(src), Real(dest))
    requires !IsThere(fs, Real(dest)) ==> Nothing(fs, Real(dest))
    // what there is stays
    ensures Extends(fs, fs')
    // no copy
    ensures Accessible(fs, dest) ==> ret == -1 && fs' == fs && jobs == []
    ensures dest != "" && (if EndsWithSlash(dest) then IsDirectory(fs, dest) else IsThere(fs, Real(dest))) ==>
              ret == -1 && fs' == fs && jobs == [] && !undef
    ensures undef <==> !Accessible(fs, dest) && LastSlash(dest) < 0
    ensures undef ==> fs' == fs && jobs == []
    ensures EndsWithSlash(dest) || !HasDir(fs, Real(src)) ==> (ret == -1 || undef) && jobs == []
    ensures EndsWithSlash(dest) && !Accessible(fs, dest) ==> fs' == Parents(fs, dest, dirFaults).0
    ensures !Accessible(fs, dest) && Makeable(fs, dest, dirFaults) &&
            FaultFree(faults, Pre(src, src, es, DirsOnly)) ==>
              fs' == WithDirs(Parents(fs, dest, dirFaults).0,
                              if HasDir(fs, Real(src)) then Skeleton(Real(dest), es) else {Real(dest)})
    // a copy
    ensures ret == 0 <==> && !Accessible(fs, dest) && Makeable(fs, dest, dirFaults) && HasDir(fs, Real(src))
                          && Unhindered(src, es, faults, sched, inline, joined)
    ensures ret == 0 ==>
              && !undef
              && fs' == WithDirs(Parents(fs, dest, dirFaults).0, Skeleton(Real(dest), es))
              && JobsMatch(dest, jobs, Leaves(Pre(src, src, es, FilesOnly)))
    ensures JobsPrefix(dest, jobs, Leaves(Pre(src, src, es, FilesOnly))) && HaveParents(fs', jobs)
    ensures JobsAnswered(jobs, sched, Pre(src, src, es, FilesOnly))
  {
    hide *;
    NoneHandedOver(dest, Leaves(Pre(src, src, es, FilesOnly)));
    ret, fs', jobs, undef := -1, fs, [], false;
    ExtendsItself(fs);
    NotMakeable(fs, dest, dirFaults);
    Found(fs, dest);
    CopyCalls(src, es);
    CopiesUnhindered(src, es, faults, sched, inline, joined);
    if Accessible(fs, dest) {
      return;
    }
    var dir := new char[|dest| + 1](i => if 0 <= i < |dest| then dest[i] else NUL);
    HoldsName(dir, dest);
    var ok;
    ok, fs', undef := MkFileDirP(dir, dest, fs, dirFaults);
    if undef {
      return;
    }
    ParentsAdd(fs, dest, dirFaults);
    if !ok {
      return;
    }
    ghost var parents := fs';
    var none, made;
    var one := new Walker(src, DirsOnly, MakeDir(fs', dest, faults));
    made, none := one.Walk(es);
    BehindParents(fs, src, dest, es, dirFaults, faults);
    fs' := MkState(fs', dest, faults, one.trace);
    if made != 0 {
      return;
    }
    var copied;
    var two := new Walker(src, FilesOnly, CopyFile(sched, inline));
    copied, none := two.Walk(es);
    PassTwo(src, dest, es, sched, inline);
    jobs := Jobs(dest, sched, two.trace);
    JobsHaveParents(src, dest, parents, es, jobs);
    if copied == 0 && joined == 0 {
      ret := 0;
    }
  }
}
