/** Removing a tree: do_rmdirr() and rmdirr() of platfree/mkdir.c. */
module Rmdirr {
  import opened CString
  import opened FileTree
  import opened FileSystem
  import opened FileIter
  import opened Sequences

  /** What the system requires before it opens, unlinks or removes. */
  predicate Allowed(fs: Fs, e: Event) {
    var p := Real(e.abs);
    p in fs &&
    match e
    case Open(_) => fs[p] == IsDir
    case Visit(_, _, kind) => fs[p] != IsDir && kind != Unknown
    case VisitDir(_, _) => fs[p] == IsDir && forall q :: q in fs ==> !Under(p, q)
  }

  /** opendir() changes nothing; unlink() and rmdir() take the name away. */
  function Applied(fs: Fs, e: Event): Fs {
    if e.Open? then fs else fs - {Real(e.abs)}
  }

  /** Run a list of calls; every one must be allowed. */
  ghost function Exec(fs: Fs, todo: seq<Event>): Option<Fs> {
    if todo == [] then Some(fs)
    else if Allowed(fs, todo[0]) then Exec(Applied(fs, todo[0]), todo[1..])
    else None
  }

  /** The file system after a history in which the calls named by `faults`
      failed for reasons of their own. */
  function StateAfter(fs: Fs, faults: seq<Event> -> bool, history: seq<Event>): Fs {
    if history == [] then fs
    else
      var last := history[|history| - 1];
      var before := StateAfter(fs, faults, history[..|history| - 1]);
      if faults(history) || !Allowed(before, last) then before else Applied(before, last)
  }

  /** do_rmdirr() as an environment: -1 when the system call fails. */
  function Callback(fs: Fs, faults: seq<Event> -> bool): Env {
    (history: seq<Event>) =>
      if history == [] then 0
      else if faults(history) ||
              !Allowed(StateAfter(fs, faults, history[..|history| - 1]), history[|history| - 1]) then -1
      else 0
  }

  lemma {:induction false} ExecConcat(fs: Fs, a: seq<Event>, b: seq<Event>)
    ensures Exec(fs, a + b) == (var mid := Exec(fs, a); if mid.Some? then Exec(mid.value, b) else None)
  {
    if a == [] {
      assert a + b == b;
    } else {
      assert (a + b)[1..] == a[1..] + b;
      if Allowed(fs, a[0]) {
        ExecConcat(Applied(fs, a[0]), a[1..], b);
      }
    }
  }

  lemma ExecOne(fs: Fs, e: Event)
    requires Allowed(fs, e)
    ensures Exec(fs, [e]) == Some(Applied(fs, e))
  {
    assert [e][1..] == [];
  }

  lemma NotNamed(es: seq<Entry>)
    requires Named(es) && Distinct(es) && es != []
    ensures es[|es| - 1].name !in FileNames(es[..|es| - 1])
    ensures forall n :: n in FileNames(es[..|es| - 1]) ==> IsFileName(n)
  {
    NamesApart(es[..|es| - 1]);
  }

  lemma UnlinkOne(fs: Fs, p: string, names: set<string>, n: string, e: Event)
    requires !EndsWithSlash(p) && IsFileName(n) && n !in names
    requires forall m :: m in names ==> IsFileName(m)
    requires e.Visit? && Real(e.abs) == Child(p, n) && e.kind != Unknown
    requires Real(e.abs) in fs && fs[Real(e.abs)] != IsDir && forall q :: q in fs ==> !Under(Real(e.abs), q)
    ensures Exec(Gone(fs, p, names), [e]) == Some(Gone(fs, p, names + {n}))
  {
    hide Real;
    var g, c := Gone(fs, p, names), Child(p, n);
    GoneKeeps(fs, p, names, n);
    assert Within(c, c);
    ExecOne(g, e);
    GoneMore(fs, p, names, n);
    assert g - {c} == Without(g, c);
  }

  lemma ExecNone(fs: Fs, p: string)
    ensures Exec(fs, []) == Some(Gone(fs, p, {}))
  {
    assert Gone(fs, p, {}) == fs;
  }

  /** Unlinking the files of a directory, in listing order. */
  lemma {:induction false} ExecFiles(root: string, fs: Fs, p: string, es: seq<Entry>)
    requires p != "" && Real(p) != "/" && Named(es) && Distinct(es) && Known(es)
    requires HoldsAll(fs, Real(p), es)
    ensures Exec(fs, ListEvents(root, p, es, PostOrder)) == Some(Gone(fs, Real(p), FileNames(es)))
  {
    hide Exec, Gone, Real, EndsWithSlash;
    if es == [] {
      ExecNone(fs, Real(p));
    } else {
      var init, last := es[..|es| - 1], es[|es| - 1];
      var c := Child(p, last.name);
      ExecFiles(root, fs, p, init);
      if last.Dir? {
        assert ListEvents(root, p, es, PostOrder) == ListEvents(root, p, init, PostOrder);
        assert FileNames(es) == FileNames(init);
      } else {
        NotNamed(es);
        var e := Visit(c, After(c, root), last.kind);
        ExecConcat(fs, ListEvents(root, p, init, PostOrder), [e]);
        RealChild(p, last.name);
        UnlinkOne(fs, Real(p), FileNames(init), last.name, e);
      }
    }
  }

  /** Removing the subdirectories, last listed first. */
  lemma {:induction false} ExecSubs(root: string, fs: Fs, p: string, ds: seq<Sub>)
    requires p != "" && Real(p) != "/" && NamedSubs(ds) && DistinctSubs(ds) && KnownSubs(ds)
    requires HoldsSubs(fs, Real(p), ds)
    ensures Exec(fs, PostRev(root, p, ds)) == Some(Gone(fs, Real(p), SubNames(ds)))
    decreases SubSize(ds), 0
  {
    hide Exec, Gone, Without, Real, Child, EndsWithSlash;
    var d := Real(p);
    if ds == [] {
      ExecNone(fs, d);
    } else {
      var init, last := ds[..|ds| - 1], ds[|ds| - 1];
      var c := Child(p, last.name);
      RealBelow(p, last.name);
      ExecPost(root, fs, c, last.entries);
      var fs' := Without(fs, Child(d, last.name));
      NamedSubNames(init);
      forall n | n in SubNames(init) ensures SameWithin(fs, fs', Child(d, n)) {
        WithoutKeeps(fs, d, last.name, n);
      }
      HoldsSubsFrame(fs, fs', d, init);
      ExecSubs(root, fs', p, init);
      ExecConcat(fs, Post(root, c, last.entries), PostRev(root, p, init));
      GoneMore(fs, d, SubNames(init), last.name);
    }
  }

  /** The post-order removes a whole tree: every file is there when it is
      unlinked, every directory is empty when it is removed, and at the end
      nothing is left at or below `p` and everything else is. */
  lemma {:induction false} ExecPost(root: string, fs: Fs, p: string, es: seq<Entry>)
    requires p != "" && Real(p) != "/" && Named(es) && Distinct(es) && Known(es)
    requires HasDir(fs, Real(p)) && Mirrors(fs, Real(p), es)
    ensures Exec(fs, Post(root, p, es)) == Some(Without(fs, Real(p)))
    decreases Size(es), 1
  {
    hide Exec, Gone, Without, ListEvents, PostRev, Real, EndsWithSlash, Within, Under;
    var ds, d := Subdirs(es), Real(p);
    var files, subs, visit := ListEvents(root, p, es, PostOrder), PostRev(root, p, ds), VisitDir(p, After(p, root));
    NamesApart(es);
    NamedSubdirs(es);
    KnownSubdirs(es);
    HoldsAllSubs(fs, d, es);
    ExecOne(fs, Open(p));
    ExecFiles(root, fs, p, es);
    var fs1 := Gone(fs, d, FileNames(es));
    forall n | n in SubNames(ds) ensures SameWithin(fs, fs1, Child(d, n)) {
      GoneKeeps(fs, d, FileNames(es), n);
    }
    HoldsSubsFrame(fs, fs1, d, ds);
    ExecSubs(root, fs1, p, ds);
    var fs2 := Gone(fs, d, FileNames(es) + SubNames(ds));
    GoneGone(fs, d, FileNames(es), SubNames(ds));
    GoneAll(fs, d, es);
    ExecOne(fs2, visit);
    ExecConcat(fs, [Open(p)], files);
    ExecConcat(fs, [Open(p)] + files, subs);
    ExecConcat(fs, [Open(p)] + files + subs, [visit]);
  }

  /** One of the calls takes `q` away. */
  ghost predicate Takes(todo: seq<Event>, q: string) {
    exists e :: e in todo && !e.Open? && Real(e.abs) == q
  }

  ghost predicate TakesOnce(todo: seq<Event>) {
    forall i, j :: 0 <= i < j < |todo| && !todo[i].Open? && !todo[j].Open? ==> Real(todo[i].abs) != Real(todo[j].abs)
  }

  lemma TakesMore(e: Event, rest: seq<Event>)
    ensures forall q :: Takes([e] + rest, q) <==> (!e.Open? && Real(e.abs) == q) || Takes(rest, q)
    ensures TakesOnce(rest) && (e.Open? || !Takes(rest, Real(e.abs))) ==> TakesOnce([e] + rest)
  {
    hide Real;
    var todo := [e] + rest;
    assert todo[0] == e && forall i :: 0 < i < |todo| ==> todo[i] == rest[i - 1] && todo[i] in rest;
  }

  lemma TakesAway(fs: Fs, e: Event)
    requires Allowed(fs, e)
    ensures Real(e.abs) in fs
    ensures forall q :: q in Applied(fs, e) <==> q in fs && (e.Open? || q != Real(e.abs))
  {
  }

  /** When every call of a list is allowed, no path is removed twice, and what
      is missing at the end is what was removed. */
  lemma {:induction false} ExecOnce(fs: Fs, todo: seq<Event>)
    requires Exec(fs, todo).Some?
    ensures TakesOnce(todo)
    ensures forall q :: Takes(todo, q) ==> q in fs
    ensures forall q :: q in Exec(fs, todo).value <==> q in fs && !Takes(todo, q)
    decreases |todo|
  {
    if todo != [] {
      TakesAway(fs, todo[0]);
      assert todo == [todo[0]] + todo[1..];
      hide Real, Allowed, Applied, Takes, TakesOnce;
      TakesMore(todo[0], todo[1..]);
      ExecOnce(Applied(fs, todo[0]), todo[1..]);
    }
  }

  /** The post-order calls back exactly once for each path at or below `p`. */
  lemma PostVisitsOnce(root: string, fs: Fs, p: string, es: seq<Entry>)
    requires p != "" && Real(p) != "/" && Named(es) && Distinct(es) && Known(es)
    requires HasDir(fs, Real(p)) && Mirrors(fs, Real(p), es)
    ensures TakesOnce(Post(root, p, es))
    ensures forall q :: q in fs ==> (Takes(Post(root, p, es), q) <==> Within(Real(p), q))
  {
    hide Post, Mirrors, Exec, Real, Takes, TakesOnce;
    ExecPost(root, fs, p, es);
    ExecOnce(fs, Post(root, p, es));
  }

  // ----- under any pattern of failing calls

  /** One call after a history. */
  lemma LastCall(fs: Fs, faults: seq<Event> -> bool, done: seq<Event>, e: Event)
    ensures var now, before := done + [e], StateAfter(fs, faults, done);
            var refused := faults(now) || !Allowed(before, e);
            && StateAfter(fs, faults, now) == (if refused then before else Applied(before, e))
            && Callback(fs, faults)(now) == if refused then -1 else 0
  {
    hide Allowed, Applied;
    var now := done + [e];
    assert now[|now| - 1] == e && now[..|now| - 1] == done;
  }

  lemma KnownKind(fs: Fs, e: Event)
    requires Allowed(fs, e)
    ensures e.Visit? ==> e.kind != Unknown
  {
  }

  lemma OneCall(fs: Fs, faults: seq<Event> -> bool, done: seq<Event>, e: Event)
    requires Allowed(StateAfter(fs, faults, done), e)
    ensures var now := done + [e];
            && (Reply(Callback(fs, faults), now) != 0 ==> faults(now))
            && (Reply(Callback(fs, faults), now) == 0 ==>
                  StateAfter(fs, faults, now) == Applied(StateAfter(fs, faults, done), e))
  {
    hide Allowed, Applied, Callback, StateAfter;
    LastCall(fs, faults, done, e);
    KnownKind(StateAfter(fs, faults, done), e);
  }

  /** If every call of the list is allowed when nothing fails, then a run stops
      early only where a call fails for reasons of its own. */
  lemma {:induction false} RunRemoves(fs: Fs, faults: seq<Event> -> bool, done: seq<Event>, todo: seq<Event>)
    requires Exec(StateAfter(fs, faults, done), todo).Some?
    ensures var (trace, ret) := Run(Callback(fs, faults), done, todo);
            && (ret == 0 ==> Some(StateAfter(fs, faults, trace)) == Exec(StateAfter(fs, faults, done), todo))
            && (ret != 0 ==> |done| < |trace| && faults(trace))
    decreases |todo|
  {
    hide StateAfter, Callback, Reply, Allowed, Applied;
    if todo != [] {
      OneCall(fs, faults, done, todo[0]);
      var now := done + [todo[0]];
      if Reply(Callback(fs, faults), now) == 0 {
        RunRemoves(fs, faults, now, todo[1..]);
      }
    }
  }

  /** Calls on paths within `p` leave everything else alone, and only remove. */
  lemma {:induction false} OutsideKept(fs: Fs, faults: seq<Event> -> bool, history: seq<Event>, p: string)
    requires forall e :: e in history ==> Within(p, Real(e.abs))
    ensures var fs' := StateAfter(fs, faults, history);
            && (forall q :: q in fs' ==> q in fs && fs'[q] == fs[q])
            && (forall q :: q in fs && !Within(p, q) ==> q in fs')
  {
    hide Real;
    if history != [] {
      var init, last := history[..|history| - 1], history[|history| - 1];
      assert forall e :: e in init ==> e in history;
      assert last in history;
      OutsideKept(fs, faults, init, p);
    }
  }

  lemma {:induction false} ListWithin(root: string, p: string, es: seq<Entry>)
    requires p != "" && Real(p) != "/" && Named(es)
    ensures forall e :: e in ListEvents(root, p, es, PostOrder) ==>
              Among(Real(p), FileNames(es), Real(e.abs)) && Under(Real(p), Real(e.abs))
  {
    hide Real, EndsWithSlash, Child, Under, Within, Among;
    if es != [] {
      var init, last := es[..|es| - 1], es[|es| - 1];
      ListWithin(root, p, init);
      forall q | Among(Real(p), FileNames(init), q) ensures Among(Real(p), FileNames(es), q) {
        AmongMore(Real(p), FileNames(init), FileNames(es), q);
      }
      if last.File? {
        RealChild(p, last.name);
        ChildUnder(Real(p), last.name);
        AmongItself(Real(p), FileNames(es), last.name);
      }
    }
  }

  lemma UnderIsWithin(p: string)
    ensures Within(p, p) && forall q :: Under(p, q) ==> Within(p, q)
  {
  }

  lemma {:induction false} PostRevWithin(root: string, p: string, ds: seq<Sub>)
    requires p != "" && Real(p) != "/" && NamedSubs(ds)
    ensures forall e :: e in PostRev(root, p, ds) ==> Under(Real(p), Real(e.abs))
    decreases SubSize(ds), 0
  {
    hide Real, EndsWithSlash, Child, Under, Within, Post;
    if ds != [] {
      var init, last := ds[..|ds| - 1], ds[|ds| - 1];
      var c := Child(p, last.name);
      RealBelow(p, last.name);
      ChildUnder(Real(p), last.name);
      PostWithin(root, c, last.entries);
      PostRevWithin(root, p, init);
      forall e | e in Post(root, c, last.entries) ensures Under(Real(p), Real(e.abs)) {
        UnderTrans(Real(p), Real(c), Real(e.abs));
      }
    }
  }

  lemma {:induction false} PostWithin(root: string, p: string, es: seq<Entry>)
    requires p != "" && Real(p) != "/" && Named(es)
    ensures forall e :: e in Post(root, p, es) ==> Within(Real(p), Real(e.abs))
    decreases Size(es), 1
  {
    hide ListEvents, PostRev, Within, Under, Among, Real;
    ListWithin(root, p, es);
    NamedSubdirs(es);
    PostRevWithin(root, p, Subdirs(es));
    UnderIsWithin(Real(p));
  }

  // ----- a name that ends in '/'

  /** The calls of a walk before it calls back for its root too early. */
  function Listing(name: string, es: seq<Entry>): seq<Event> {
    [Open(name)] + ListEvents(name, name, es, PostOrder)
  }

  lemma ListingWithin(name: string, es: seq<Entry>)
    requires name != "" && Real(name) != "/" && Named(es)
    ensures forall e :: e in Listing(name, es) ==> e.Open? || Among(Real(name), FileNames(es), Real(e.abs))
    ensures forall e :: e in Listing(name, es) ==> Within(Real(name), Real(e.abs))
  {
    ListWithin(name, name, es);
    hide ListEvents, Among, Real;
    UnderIsWithin(Real(name));
  }

  /** What no call is about stays. */
  lemma {:induction false} UntouchedKept(fs: Fs, faults: seq<Event> -> bool, history: seq<Event>, q: string)
    requires q in fs && forall e :: e in history && !e.Open? ==> Real(e.abs) != q
    ensures q in StateAfter(fs, faults, history)
  {
    hide Real;
    if history != [] {
      var init, last := history[..|history| - 1], history[|history| - 1];
      assert forall e :: e in init ==> e in history;
      assert last in history;
      UntouchedKept(fs, faults, init, q);
    }
  }

  lemma NotAmong(p: string, names: set<string>, n: string)
    requires !EndsWithSlash(p) && IsFileName(n) && n !in names && forall m :: m in names ==> IsFileName(m)
    ensures !Among(p, names, Child(p, n))
  {
    if Among(p, names, Child(p, n)) {
      var m :| m in names && Within(Child(p, m), Child(p, n));
      assert Within(Child(p, n), Child(p, n));
      SiblingsApart(p, m, n, Child(p, n));
    }
  }

  /** After the listing the subdirectories are still there. */
  lemma SubdirsKept(name: string, es: seq<Entry>, fs: Fs, faults: seq<Event> -> bool)
    requires name != "" && Real(name) != "/" && Named(es) && Distinct(es) && Subdirs(es) != []
    requires Mirrors(fs, Real(name), es)
    ensures exists q :: q in StateAfter(fs, faults, Listing(name, es)) && Under(Real(name), q)
  {
    var d, ds := Real(name), Subdirs(es);
    var n := ds[|ds| - 1].name;
    var c := Child(d, n);
    NamesApart(es);
    HoldsAllSubs(fs, d, es);
    assert n in SubNames(ds);
    ChildUnder(d, n);
    assert c in fs && Within(c, c);
    ListingWithin(name, es);
    hide Real, Mirrors, Listing, Within, Under, Among, FileNames, SubNames;
    forall e | e in Listing(name, es) && !e.Open? ensures Real(e.abs) != c {
      if Real(e.abs) == c {
        NotAmong(d, FileNames(es), n);
      }
    }
    UntouchedKept(fs, faults, Listing(name, es), c);
  }

  lemma RefusedLast(fs: Fs, faults: seq<Event> -> bool, history: seq<Event>, e: Event)
    requires !Allowed(StateAfter(fs, faults, history), e)
    ensures Reply(Callback(fs, faults), history + [e]) == -1
    ensures StateAfter(fs, faults, history + [e]) == StateAfter(fs, faults, history)
  {
    hide Allowed, Applied, Callback, StateAfter;
    LastCall(fs, faults, history, e);
  }

  /** Removing a tree by a name that ends in '/' goes no further than the first
      rmdir(), which is for the root while its subdirectories are there. */
  lemma EarlyStops(name: string, es: seq<Entry>, fs: Fs, faults: seq<Event> -> bool)
    requires name != "" && Real(name) != "/" && Named(es) && Distinct(es) && Misordered(name, es, PostOrder)
    requires HasDir(fs, Real(name)) && Mirrors(fs, Real(name), es)
    ensures var (trace, ret) := Run(Callback(fs, faults), [], EarlyRoot(name, es));
            var (listed, failed) := Run(Callback(fs, faults), [], Listing(name, es));
            var visit := VisitDir(name, After(name, name));
            if failed != 0 then (trace, ret) == (listed, failed)
            else
              && ret != 0 && trace == Listing(name, es) + [visit]
              && StateAfter(fs, faults, trace) == StateAfter(fs, faults, listed)
  {
    var env, visit := Callback(fs, faults), VisitDir(name, After(name, name));
    var tail := PostRev(name, name, Subdirs(es)) + Above(name, name[..|name| - 1]);
    var listing := Listing(name, es);
    Assoc(listing, [visit], tail);
    assert EarlyRoot(name, es) == listing + ([visit] + tail);
    if Run(env, [], listing).1 == 0 {
      SubdirsKept(name, es, fs, faults);
      assert !Allowed(StateAfter(fs, faults, listing), visit);
      RefusedLast(fs, faults, listing, visit);
    }
    hide Mirrors, Callback, StateAfter, Allowed, Listing, EarlyRoot, Run, Real, Above, PostRev, Named, Distinct;
    RunConcat(env, [], listing, [visit] + tail);
    RunIsPrefix(env, [], listing);
    assert [] + listing == listing;
    RunOne(env, listing, visit, tail);
  }

  /** Up to there exactly the files of the directory itself are removed, if
      nothing fails. */
  lemma ListingRemoves(name: string, es: seq<Entry>, fs: Fs, faults: seq<Event> -> bool)
    requires name != "" && Real(name) != "/" && Named(es) && Distinct(es) && Known(es)
    requires HasDir(fs, Real(name)) && Mirrors(fs, Real(name), es)
    ensures var (trace, ret) := Run(Callback(fs, faults), [], Listing(name, es));
            && (ret == 0 ==> StateAfter(fs, faults, trace) == Gone(fs, Real(name), FileNames(es)))
            && (ret != 0 ==> trace != [] && faults(trace))
  {
    hide Real, Gone, Run, EndsWithSlash;
    ExecOne(fs, Open(name)) by {
      assert Allowed(fs, Open(name));
    }
    ExecFiles(name, fs, name, es);
    ExecConcat(fs, [Open(name)], ListEvents(name, name, es, PostOrder));
    RunRemoves(fs, faults, [], Listing(name, es));
  }

  // ----- entries of unknown type

  lemma {:induction false} UnknownInPost(root: string, p: string, es: seq<Entry>)
    requires !Known(es)
    ensures HasUnknown(Post(root, p, es))
    decreases Size(es), 2
  {
    var files, subs := ListEvents(root, p, es, PostOrder), PostRev(root, p, Subdirs(es));
    UnknownInList(root, p, es);
    UnknownConcat([Open(p)], files);
    UnknownConcat([Open(p)] + files, subs);
    UnknownConcat([Open(p)] + files + subs, [VisitDir(p, After(p, root))]);
  }

  lemma {:induction false} UnknownInList(root: string, p: string, es: seq<Entry>)
    requires !Known(es)
    ensures HasUnknown(ListEvents(root, p, es, PostOrder)) || HasUnknown(PostRev(root, p, Subdirs(es)))
    decreases Size(es), 1
  {
    var init, last := es[..|es| - 1], es[|es| - 1];
    var c := Child(p, last.name);
    if !Known(init) {
      UnknownInList(root, p, init);
    }
    match last
    case File(_, kind) =>
      var e := Visit(c, After(c, root), kind);
      UnknownConcat(ListEvents(root, p, init, PostOrder), [e]);
      assert e in [e];
    case Dir(_, sub) =>
      assert ListEvents(root, p, es, PostOrder) == ListEvents(root, p, init, PostOrder);
      var ds := Subdirs(es);
      assert ds[..|ds| - 1] == Subdirs(init);
      UnknownConcat(Post(root, c, sub), PostRev(root, p, Subdirs(init)));
      if Known(init) {
        UnknownInPost(root, c, sub);
      }
  }

  lemma UnknownInCalls(root: string, es: seq<Entry>)
    requires root != [] && !Known(es)
    ensures HasUnknown(Calls(root, es, PostOrder))
  {
    if Misordered(root, es, PostOrder) {
      var subs, above := PostRev(root, root, Subdirs(es)), Above(root, root[..|root| - 1]);
      var visit := VisitDir(root, After(root, root));
      UnknownInList(root, root, es);
      UnknownConcat([Open(root)], ListEvents(root, root, es, PostOrder));
      UnknownConcat(Listing(root, es), [visit]);
      UnknownConcat(subs, above);
      UnknownConcat(Listing(root, es) + [visit], subs + above);
      assert EarlyRoot(root, es) == Listing(root, es) + [visit] + (subs + above);
    } else {
      UnknownInPost(root, root, es);
    }
  }

  lemma RunReaches(env: Env, order: seq<Event>, k: nat)
    requires k < |order| && Run(env, [], order).1 == 0
    ensures order[..k + 1][k] == order[k] && Reply(env, order[..k + 1]) == 0
  {
    RunIsPrefix(env, [], order);
    assert [] + order == order;
    RunStopsFirst(env, [], order, k + 1);
  }

  /** An entry of unknown type makes the walk fail. */
  lemma UnknownStops(env: Env, root: string, es: seq<Entry>)
    requires root != [] && !Known(es)
    ensures Run(env, [], Calls(root, es, PostOrder)).1 != 0
  {
    hide Run, Post, Calls;
    var order := Calls(root, es, PostOrder);
    UnknownInCalls(root, es);
    var k :| 0 <= k < |order| && order[k].Visit? && order[k].kind == Unknown;
    if Run(env, [], order).1 == 0 {
      RunReaches(env, order, k);
    }
  }

  // ----- the program

  lemma PrefixWithin(p: string, a: seq<Event>, b: seq<Event>)
    requires a <= b && forall e :: e in b ==> Within(p, Real(e.abs))
    ensures forall e :: e in a ==> Within(p, Real(e.abs))
  {
    assert forall i :: 0 <= i < |a| ==> a[i] == b[i];
  }

  lemma EarlyInside(name: string, es: seq<Entry>, fs: Fs, faults: seq<Event> -> bool)
    requires name != "" && Real(name) != "/" && Named(es) && Distinct(es) && Misordered(name, es, PostOrder)
    requires HasDir(fs, Real(name)) && Mirrors(fs, Real(name), es)
    ensures forall e :: e in Run(Callback(fs, faults), [], EarlyRoot(name, es)).0 ==> Within(Real(name), Real(e.abs))
  {
    hide Run, Listing, EarlyRoot, Real, Callback, StateAfter, Mirrors, Within, Among;
    var listing, visit := Listing(name, es), VisitDir(name, After(name, name));
    EarlyStops(name, es, fs, faults);
    ListingWithin(name, es);
    RunIsPrefix(Callback(fs, faults), [], listing);
    assert [] + listing == listing;
    UnderIsWithin(Real(name));
    PrefixWithin(Real(name), Run(Callback(fs, faults), [], EarlyRoot(name, es)).0, listing + [visit]);
  }

  lemma TraceInside(name: string, es: seq<Entry>, fs: Fs, faults: seq<Event> -> bool)
    requires name != "" && Real(name) != "/" && Named(es) && Distinct(es)
    requires HasDir(fs, Real(name)) && Mirrors(fs, Real(name), es)
    ensures forall e :: e in Run(Callback(fs, faults), [], Calls(name, es, PostOrder)).0 ==>
              Within(Real(name), Real(e.abs))
  {
    hide Run, Post, EarlyRoot, Real, Callback, Mirrors, Within;
    if Misordered(name, es, PostOrder) {
      EarlyInside(name, es, fs, faults);
    } else {
      var order := Post(name, name, es);
      RunIsPrefix(Callback(fs, faults), [], order);
      assert [] + order == order;
      PostWithin(name, name, es);
      PrefixWithin(Real(name), Run(Callback(fs, faults), [], order).0, order);
    }
  }

  /** What a run of the removal comes to.  It fails for no reason of its own,
      but for a name that ends in '/' while there are subdirectories. */
  lemma Removes(name: string, es: seq<Entry>, fs: Fs, faults: seq<Event> -> bool)
    requires name != "" && Real(name) != "/" && Named(es) && Distinct(es)
    requires HasDir(fs, Real(name)) && Mirrors(fs, Real(name), es)
    ensures var (trace, ret) := Run(Callback(fs, faults), [], Calls(name, es, PostOrder));
            var fs', early := StateAfter(fs, faults, trace), Misordered(name, es, PostOrder);
            && (ret == 0 ==> Known(es) && !early && fs' == Without(fs, Real(name)))
            && (Known(es) && (forall history :: !faults(history)) ==>
                  (ret == 0 <==> !early) && (early ==> fs' == Gone(fs, Real(name), FileNames(es))))
            && (Known(es) && ret != 0 ==>
                  trace != [] &&
                  (faults(trace) || (early && trace == Listing(name, es) + [VisitDir(name, After(name, name))])))
  {
    hide Post, Mirrors, Without, Gone, Real, Run, Listing, EarlyRoot;
    if Misordered(name, es, PostOrder) {
      EarlyStops(name, es, fs, faults);
      if Known(es) {
        ListingRemoves(name, es, fs, faults);
      }
    } else if Known(es) {
      ExecPost(name, fs, name, es);
      RunRemoves(fs, faults, [], Post(name, name, es));
    } else {
      UnknownStops(Callback(fs, faults), name, es);
    }
  }

  lemma OpenFirst(name: string, es: seq<Entry>)
    requires name != ""
    ensures Calls(name, es, PostOrder) != [] && Calls(name, es, PostOrder)[0] == Open(name)
  {
    hide ListEvents, PostRev, Above;
  }

  lemma StartState(fs: Fs, faults: seq<Event> -> bool)
    ensures StateAfter(fs, faults, []) == fs
  {
  }

  /** A directory that is none cannot be opened. */
  lemma CannotOpen(name: string, es: seq<Entry>, fs: Fs, faults: seq<Event> -> bool)
    requires name != "" && !HasDir(fs, Real(name))
    ensures Run(Callback(fs, faults), [], Calls(name, es, PostOrder)) == ([Open(name)], -1)
    ensures StateAfter(fs, faults, [Open(name)]) == fs
  {
    hide Calls, Run, Callback, StateAfter, Real, Post, EarlyRoot;
    var order := Calls(name, es, PostOrder);
    OpenFirst(name, es);
    assert order == [Open(name)] + order[1..];
    assert [] + [Open(name)] == [Open(name)];
    StartState(fs, faults);
    RefusedLast(fs, faults, [], Open(name));
    RunOne(Callback(fs, faults), [], Open(name), order[1..]);
  }

  /** rmdirr(): walk in post-order, removing on the way. */
  method Rmdirr(name: string, es: seq<Entry>, fs: Fs, faults: seq<Event> -> bool)
    returns (ret: int, fs': Fs, ghost trace: seq<Event>)
    requires name != "" && Real(name) != "/" && Named(es) && Distinct(es)
    requires HasDir(fs, Real(name)) ==> Mirrors(fs, Real(name), es)
    ensures (trace, ret) == Run(Callback(fs, faults), [], Calls(name, es, PostOrder))
    ensures fs' == StateAfter(fs, faults, trace)
    ensures ret == 0 ==> fs' == Without(fs, Real(name))
    ensures !HasDir(fs, Real(name)) ==> ret == -1 && fs' == fs
    ensures HasDir(fs, Real(name)) && Known(es) && (forall history :: !faults(history)) ==>
              (ret == 0 <==> !Misordered(name, es, PostOrder)) &&
              (ret != 0 ==> fs' == Gone(fs, Real(name), FileNames(es)))
    ensures Misordered(name, es, PostOrder) ==> ret != 0
    ensures HasDir(fs, Real(name)) && Known(es) && ret != 0 && !Misordered(name, es, PostOrder) ==>
              trace != [] && faults(trace)
    ensures forall q :: q in fs' ==> q in fs && fs'[q] == fs[q]
    ensures forall q :: q in fs && !Within(Real(name), q) ==> q in fs'
  {
    hide Run, Calls, Real, Gone, Without, StateAfter, Mirrors;
    var w := new Walker(name, PostOrder, Callback(fs, faults));
    var undef;
    ret, undef := w.Walk(es);
    trace := w.trace;
    fs' := StateAfter(fs, faults, w.trace);
    if HasDir(fs, Real(name)) {
      TraceInside(name, es, fs, faults);
      OutsideKept(fs, faults, trace, Real(name));
      Removes(name, es, fs, faults);
    } else {
      CannotOpen(name, es, fs, faults);
    }
    assert !undef;
  }
}
