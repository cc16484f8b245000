/** Adding up a tree: accumsize() and the walk of commands/sizeof.c, which shows
    each directory before what is in it. */
module Sizeof {
  import opened CString
  import opened FileTree
  import opened FileSystem
  import opened FileIter

  // ----- the walk shows a tree as it could be made

  /** Nothing is there yet, but for the directory it goes into. */
  predicate Growable(fs: Fs, base: string, e: Event) {
    var q := Real(e.abs);
    if e.Open? then HasDir(fs, q)
    else q !in fs && (q == base || (LastSlash(q) > 0 && HasDir(fs, q[..LastSlash(q)])))
  }

  function Grown(fs: Fs, e: Event): Fs {
    match e
    case Open(_) => fs
    case Visit(abs, _, kind) => fs[Real(abs) := IsFile(kind)]
    case VisitDir(abs, _) => fs[Real(abs) := IsDir]
  }

  /** Making what a list of callbacks shows, one after the other. */
  ghost function Grow(fs: Fs, base: string, todo: seq<Event>): Option<Fs>
    decreases |todo|
  {
    if todo == [] then Some(fs)
    else if Growable(fs, base, todo[0]) then Grow(Grown(fs, todo[0]), base, todo[1..])
    else None
  }

  lemma {:induction false} GrowConcat(fs: Fs, base: string, a: seq<Event>, b: seq<Event>)
    ensures Grow(fs, base, a + b) ==
            (var mid := Grow(fs, base, a); if mid.Some? then Grow(mid.value, base, b) else None)
    decreases |a|
  {
    if a == [] {
      assert a + b == b;
    } else {
      assert (a + b)[1..] == a[1..] + b;
      if Growable(fs, base, a[0]) {
        GrowConcat(Grown(fs, a[0]), base, a[1..], b);
      }
    }
  }

  lemma GrowOne(fs: Fs, base: string, e: Event)
    requires Growable(fs, base, e)
    ensures Grow(fs, base, [e]) == Some(Grown(fs, e))
  {
    assert [e][1..] == [];
  }

  /** Of what is below `p`, only the entries with these names. */
  function Kept(fs: Fs, p: string, names: set<string>): Fs {
    map q | q in fs && (Under(p, q) ==> Among(p, names, q)) :: fs[q]
  }

  lemma KeptNone(fs: Fs, p: string)
    requires HasDir(fs, p)
    ensures Without(fs, p)[p := IsDir] == Kept(fs, p, {}) && p !in Without(fs, p)
  {
  }

  lemma KeptAll(fs: Fs, p: string, es: seq<Entry>)
    requires !EndsWithSlash(p) && Covers(fs, p, es)
    ensures Kept(fs, p, FileNames(es) + SubNames(Subdirs(es))) == fs
  {
    hide Among, Covers, FileNames, SubNames;
    forall q | q in fs && Under(p, q) ensures Among(p, FileNames(es) + SubNames(Subdirs(es)), q) {
      AmongUnder(fs, p, es, q);
    }
  }

  lemma AmongPlus(p: string, names: set<string>, n: string, q: string)
    ensures Among(p, names + {n}, q) <==> Among(p, names, q) || Within(Child(p, n), q)
  {
    if Among(p, names, q) {
      var m :| m in names && Within(Child(p, m), q);
      assert m in names + {n};
    }
    if Within(Child(p, n), q) {
      assert n in names + {n};
    }
  }

  lemma OthersApart(p: string, names: set<string>, n: string, q: string)
    requires !EndsWithSlash(p) && IsFileName(n) && n !in names && forall m :: m in names ==> IsFileName(m)
    requires Within(Child(p, n), q)
    ensures Under(p, q) && !Among(p, names, q)
  {
    ChildUnder(p, n);
    UnderTrans(p, Child(p, n), q);
    if Among(p, names, q) {
      var m :| m in names && Within(Child(p, m), q);
      SiblingsApart(p, m, n, q);
    }
  }

  /** One entry more. */
  lemma KeptMore(fs: Fs, p: string, names: set<string>, n: string)
    requires !EndsWithSlash(p) && IsFileName(n) && n !in names && forall m :: m in names ==> IsFileName(m)
    ensures var more := Kept(fs, p, names + {n});
            Without(more, Child(p, n)) == Kept(fs, p, names) && SameWithin(fs, more, Child(p, n))
  {
    hide Among, Within, Under, Child, EndsWithSlash;
    forall q ensures Among(p, names + {n}, q) <==> Among(p, names, q) || Within(Child(p, n), q) {
      AmongPlus(p, names, n, q);
    }
    forall q | Within(Child(p, n), q) ensures Under(p, q) && !Among(p, names, q) {
      OthersApart(p, names, n, q);
    }
  }

  lemma KeptFile(fs: Fs, p: string, names: set<string>, n: string)
    requires !EndsWithSlash(p) && IsFileName(n) && n !in names && forall m :: m in names ==> IsFileName(m)
    requires Child(p, n) in fs && forall q :: q in fs ==> !Under(Child(p, n), q)
    ensures var c := Child(p, n);
            c !in Kept(fs, p, names) && Kept(fs, p, names)[c := fs[c]] == Kept(fs, p, names + {n})
  {
    KeptMore(fs, p, names, n);
    hide Among, Child, EndsWithSlash;
    var more := Kept(fs, p, names + {n});
    assert Within(Child(p, n), Child(p, n));
    assert forall q :: q in more ==> q in fs;
    hide Kept;
  }

  lemma EntryGrows(fs: Fs, base: string, p: string, names: set<string>, n: string, e: Event)
    requires p != "" && !EndsWithSlash(p) && IsFileName(n) && HasDir(fs, p)
    requires !e.Open? && Real(e.abs) == Child(p, n) && Child(p, n) !in Kept(fs, p, names)
    ensures Growable(Kept(fs, p, names), base, e)
  {
    hide Real, Among;
    LastSlashOfChild(p, n);
    assert Child(p, n)[..|p|] == p;
    assert !Under(p, p);
  }

  lemma NamesOfFiles(es: seq<Entry>)
    requires Named(es) && Distinct(es) && es != []
    ensures es[|es| - 1].name !in FileNames(es[..|es| - 1])
    ensures forall n :: n in FileNames(es[..|es| - 1]) ==> IsFileName(n)
  {
    NamesApart(es[..|es| - 1]);
  }

  lemma GrowNothing(fs: Fs, base: string)
    ensures Grow(fs, base, []) == Some(fs)
  {
  }

  lemma {:induction false} GrowFiles(root: string, base: string, fs: Fs, p: string, es: seq<Entry>)
    requires p != "" && Real(p) != "/" && Named(es) && Distinct(es)
    requires HasDir(fs, Real(p)) && HoldsAll(fs, Real(p), es)
    ensures Grow(Kept(fs, Real(p), {}), base, ListEvents(root, p, es, PreOrder)) ==
            Some(Kept(fs, Real(p), FileNames(es)))
  {
    hide Grow, Kept, Real, EndsWithSlash, Growable;
    if es == [] {
      GrowNothing(Kept(fs, Real(p), {}), base);
    } else {
      var init, last := es[..|es| - 1], es[|es| - 1];
      GrowFiles(root, base, fs, p, init);
      if last.File? {
        NamesOfFiles(es);
        RealChild(p, last.name);
        var e := Visit(Child(p, last.name), After(Child(p, last.name), root), last.kind);
        KeptFile(fs, Real(p), FileNames(init), last.name);
        EntryGrows(fs, base, Real(p), FileNames(init), last.name, e);
        GrowOne(Kept(fs, Real(p), FileNames(init)), base, e);
        GrowConcat(Kept(fs, Real(p), {}), base, ListEvents(root, p, init, PreOrder), [e]);
      } else {
        assert ListEvents(root, p, es, PreOrder) == ListEvents(root, p, init, PreOrder);
        assert FileNames(es) == FileNames(init);
      }
    }
  }

  lemma HoldsBelow(fs: Fs, fs': Fs, c: string, es: seq<Entry>)
    requires Named(es) && !EndsWithSlash(c) && SameWithin(fs, fs', c) && HasDir(fs, c) && Mirrors(fs, c, es)
    ensures HasDir(fs', c) && Mirrors(fs', c, es)
  {
    HoldsFrame(fs, fs', c, es);
  }

  lemma ParentKept(fs: Fs, p: string, names: set<string>, n: string)
    requires p != "" && !EndsWithSlash(p) && IsFileName(n) && HasDir(fs, p)
    ensures var c := Child(p, n); LastSlash(c) > 0 && HasDir(Kept(fs, p, names), c[..LastSlash(c)])
  {
    LastSlashOfChild(p, n);
    assert Child(p, n)[..|p|] == p;
    assert !Under(p, p);
  }

  lemma KeptDir(fs: Fs, p: string)
    requires HasDir(fs, p)
    ensures HasDir(Kept(fs, p, {}), p)
  {
    assert !Under(p, p);
  }

  lemma {:induction false} GrowSubs(root: string, base: string, fs: Fs, p: string, ds: seq<Sub>, names: set<string>)
    requires p != "" && Real(p) != "/" && NamedSubs(ds) && DistinctSubs(ds) && names !! SubNames(ds)
    requires HasDir(fs, Real(p)) && HoldsSubs(fs, Real(p), ds) && forall m :: m in names ==> IsFileName(m)
    ensures Grow(Kept(fs, Real(p), names), base, PreRev(root, p, ds, PreOrder)) ==
            Some(Kept(fs, Real(p), names + SubNames(ds)))
    decreases SubSize(ds), 0
  {
    hide Grow, Kept, Real, EndsWithSlash, Pre, Mirrors, Child, LastSlash, SameWithin;
    if ds == [] {
      assert names + SubNames(ds) == names;
      GrowNothing(Kept(fs, Real(p), names), base);
    } else {
      var init, last := ds[..|ds| - 1], ds[|ds| - 1];
      var c := Child(p, last.name);
      var more := Kept(fs, Real(p), names + {last.name});
      RealBelow(p, last.name);
      ChildEnd(Real(p), last.name);
      KeptMore(fs, Real(p), names, last.name);
      HoldsBelow(fs, more, Real(c), last.entries);
      ParentKept(fs, Real(p), names, last.name);
      GrowPre(root, base, more, c, last.entries);
      GrowSubs(root, base, fs, p, init, names + {last.name});
      GrowConcat(Kept(fs, Real(p), names), base, Pre(root, c, last.entries, PreOrder),
                 PreRev(root, p, init, PreOrder));
      assert names + {last.name} + SubNames(init) == names + SubNames(ds);
    }
  }

  /** The calls of a walk that lists directories: each path at or below the
      directory is shown once, and behind the directory it is in.  Made in this
      order they give exactly the tree that is there. */
  lemma {:induction false} GrowPre(root: string, base: string, fs: Fs, p: string, es: seq<Entry>)
    requires p != "" && Real(p) != "/" && Named(es) && Distinct(es)
    requires HasDir(fs, Real(p)) && Mirrors(fs, Real(p), es)
    requires var q := Real(p); q == base || (LastSlash(q) > 0 && HasDir(Without(fs, q), q[..LastSlash(q)]))
    ensures Grow(Without(fs, Real(p)), base, Pre(root, p, es, PreOrder)) == Some(fs)
    decreases Size(es), 1
  {
    hide Grow, Kept, Without, Real, EndsWithSlash, PreRev, ListEvents, LastSlash;
    var visit, list := VisitDir(p, After(p, root)), ListEvents(root, p, es, PreOrder);
    var subs, q := PreRev(root, p, Subdirs(es), PreOrder), Real(p);
    KeptNone(fs, q);
    GrowOne(Without(fs, q), base, visit);
    KeptDir(fs, q);
    GrowOne(Kept(fs, q, {}), base, Open(p));
    GrowFiles(root, base, fs, p, es);
    NamesApart(es);
    NamedSubdirs(es);
    HoldsAllSubs(fs, q, es);
    GrowSubs(root, base, fs, p, Subdirs(es), FileNames(es));
    KeptAll(fs, q, es);
    GrowConcat(Without(fs, q), base, [visit], [Open(p)]);
    GrowConcat(Without(fs, q), base, [visit] + [Open(p)], list);
    GrowConcat(Without(fs, q), base, [visit] + [Open(p)] + list, subs);
    assert Pre(root, p, es, PreOrder) == [visit] + [Open(p)] + list + subs;
  }

  // ----- each path once, directories first

  /** How often a list of callbacks shows the path. */
  function Shown(evs: seq<Event>, q: string): (n: nat) {
    if evs == [] then 0
    else (if !evs[0].Open? && Real(evs[0].abs) == q then 1 else 0) + Shown(evs[1..], q)
  }

  lemma {:induction false} GrowShown(fs: Fs, base: string, todo: seq<Event>, fs': Fs, q: string)
    requires Grow(fs, base, todo) == Some(fs')
    ensures q in fs ==> q in fs' && fs'[q] == fs[q]
    ensures Shown(todo, q) == if q in fs' && q !in fs then 1 else 0
    decreases |todo|
  {
    hide Real;
    if todo != [] {
      GrowShown(Grown(fs, todo[0]), base, todo[1..], fs', q);
    }
  }

  /** A walk that lists directories shows each path at or below its root once,
      and nothing else. */
  lemma PreShowsOnce(fs: Fs, root: string, es: seq<Entry>, q: string)
    requires root != "" && Real(root) != "/" && Named(es) && Distinct(es)
    requires HasDir(fs, Real(root)) && Mirrors(fs, Real(root), es)
    ensures Shown(Calls(root, es, PreOrder), q) == if q in fs && Within(Real(root), q) then 1 else 0
  {
    hide Grow, Real, Pre, Mirrors, Within;
    GrowPre(root, Real(root), fs, root, es);
    GrowShown(Without(fs, Real(root)), Real(root), Pre(root, root, es, PreOrder), fs, q);
  }

  lemma {:induction false} GrownBy(fs: Fs, base: string, todo: seq<Event>, fs': Fs, q: string)
    requires Grow(fs, base, todo) == Some(fs') && HasDir(fs', q) && q !in fs
    ensures exists i :: 0 <= i < |todo| && todo[i].VisitDir? && Real(todo[i].abs) == q
    decreases |todo|
  {
    hide Real;
    var now := Grown(fs, todo[0]);
    GrowShown(now, base, todo[1..], fs', q);
    if q in now {
      assert todo[0].VisitDir? && Real(todo[0].abs) == q;
    } else {
      GrownBy(now, base, todo[1..], fs', q);
      var i :| 0 <= i < |todo[1..]| && todo[1..][i].VisitDir? && Real(todo[1..][i].abs) == q;
      assert todo[i + 1] == todo[1..][i];
    }
  }

  lemma GrowUpTo(fs: Fs, base: string, todo: seq<Event>, k: nat)
    requires k < |todo| && Grow(fs, base, todo).Some?
    ensures Grow(fs, base, todo[..k]).Some? && Growable(Grow(fs, base, todo[..k]).value, base, todo[k])
  {
    assert todo == todo[..k] + todo[k..] && todo[k..][0] == todo[k];
    GrowConcat(fs, base, todo[..k], todo[k..]);
  }

  lemma DirWithin(r: string, q: string)
    requires Under(r, q) && r != "" && LastSlash(q) > 0
    ensures Within(r, q[..LastSlash(q)])
  {
    if LastSlash(q) > |r| {
      assert q[..LastSlash(q)][..|r| + 1] == r + "/";
    } else {
      assert q[..|r|] == r;
    }
  }

  lemma {:induction false} ShownAt(evs: seq<Event>, k: nat)
    requires k < |evs| && !evs[k].Open?
    ensures Shown(evs, Real(evs[k].abs)) > 0
  {
    if k > 0 {
      ShownAt(evs[1..], k - 1);
    }
  }

  lemma ShownWithin(fs: Fs, root: string, es: seq<Entry>, k: nat)
    requires root != "" && Real(root) != "/" && Named(es) && Distinct(es)
    requires HasDir(fs, Real(root)) && Mirrors(fs, Real(root), es)
    requires k < |Calls(root, es, PreOrder)| && !Calls(root, es, PreOrder)[k].Open?
    ensures Within(Real(root), Real(Calls(root, es, PreOrder)[k].abs))
  {
    hide Real, Mirrors, Within;
    var evs := Calls(root, es, PreOrder);
    hide Calls;
    var q := Real(evs[k].abs);
    PreShowsOnce(fs, root, es, q);
    ShownAt(evs, k);
  }

  lemma IsUnder(r: string, q: string)
    requires Within(r, q) && q != r
    ensures Under(r, q)
  {
  }

  /** Each directory is shown before what is in it. */
  lemma DirectoriesFirst(fs: Fs, root: string, es: seq<Entry>, k: nat)
    requires root != "" && Real(root) != "/" && Named(es) && Distinct(es)
    requires HasDir(fs, Real(root)) && Mirrors(fs, Real(root), es)
    requires k < |Calls(root, es, PreOrder)| && !Calls(root, es, PreOrder)[k].Open?
    ensures var evs := Calls(root, es, PreOrder);
            var q := Real(evs[k].abs);
            q != Real(root) ==>
              LastSlash(q) > 0 &&
              exists i :: 0 <= i < k && evs[i].VisitDir? && Real(evs[i].abs) == q[..LastSlash(q)]
  {
    hide Grow, Real, Pre, Mirrors, Within;
    var evs, r := Calls(root, es, PreOrder), Real(root);
    var q, before := Real(evs[k].abs), Without(fs, r);
    ShownWithin(fs, root, es, k);
    GrowPre(root, r, fs, root, es);
    GrowUpTo(before, r, evs, k);
    if q != r {
      var made := Grow(before, r, evs[..k]).value;
      var d := q[..LastSlash(q)];
      IsUnder(r, q);
      DirWithin(r, q);
      GrownBy(before, r, evs[..k], made, d);
      var i :| 0 <= i < k && evs[..k][i].VisitDir? && Real(evs[..k][i].abs) == d;
      assert evs[i] == evs[..k][i];
    }
  }

  // ----- what is added up

  const UINT := 0x1_0000_0000
  const ULLONG := 0x1_0000_0000_0000_0000

  /** struct dirinfo */
  datatype Info = Info(size: nat, files: nat, dirs: nat)

  /** A file without a size counts for 64 bytes. */
  function Weight(path: string, size: string -> nat): nat {
    if size(path) == 0 then 64 else size(path)
  }

  /** accumsize() */
  function Accumulate(info: Info, e: Event, size: string -> nat): Info {
    match e
    case Open(_) => info
    case VisitDir(_, _) => info.(dirs := (info.dirs + 1) % UINT)
    case Visit(abs, _, _) =>
      info.(size := (info.size + Weight(abs, size)) % ULLONG, files := (info.files + 1) % UINT)
  }

  function Accumulated(start: Info, evs: seq<Event>, size: string -> nat): Info {
    if evs == [] then start
    else Accumulate(Accumulated(start, evs[..|evs| - 1], size), evs[|evs| - 1], size)
  }

  /** What is in a directory: so many files and directories, at any depth. */
  function Files(es: seq<Entry>): nat
    decreases Size(es)
  {
    if es == [] then 0
    else Files(es[..|es| - 1]) + match es[|es| - 1] case File(_, _) => 1 case Dir(_, sub) => Files(sub)
  }

  function Dirs(es: seq<Entry>): nat
    decreases Size(es)
  {
    if es == [] then 0
    else Dirs(es[..|es| - 1]) + match es[|es| - 1] case File(_, _) => 0 case Dir(_, sub) => 1 + Dirs(sub)
  }

  function Bytes(p: string, es: seq<Entry>, size: string -> nat): nat
    decreases Size(es)
  {
    if es == [] then 0
    else
      var last := es[|es| - 1];
      var c := Child(p, last.name);
      Bytes(p, es[..|es| - 1], size) +
      match last
      case File(_, _) => if size(c) > 0 then size(c) else 64
      case Dir(_, sub) => Bytes(c, sub, size)
  }

  function Plus(a: Info, b: Info): Info {
    Info(a.size + b.size, a.files + b.files, a.dirs + b.dirs)
  }

  function Wrapped(a: Info): Info {
    Info(a.size % ULLONG, a.files % UINT, a.dirs % UINT)
  }

  /** What one callback adds. */
  function Share(e: Event, size: string -> nat): Info {
    match e
    case Open(_) => Info(0, 0, 0)
    case VisitDir(_, _) => Info(0, 0, 1)
    case Visit(abs, _, _) => Info(Weight(abs, size), 1, 0)
  }

  /** The sums without wrap-around. */
  function Tally(evs: seq<Event>, size: string -> nat): Info {
    if evs == [] then Info(0, 0, 0) else Plus(Share(evs[0], size), Tally(evs[1..], size))
  }

  lemma PlusAssoc(a: Info, b: Info, c: Info)
    ensures Plus(Plus(a, b), c) == Plus(a, Plus(b, c))
  {
  }

  lemma PlusNone(a: Info)
    ensures Plus(a, Info(0, 0, 0)) == a == Plus(Info(0, 0, 0), a)
  {
  }

  lemma {:induction false} TallyConcat(a: seq<Event>, b: seq<Event>, size: string -> nat)
    ensures Tally(a + b, size) == Plus(Tally(a, size), Tally(b, size))
  {
    hide Plus, Share;
    if a == [] {
      assert a + b == b;
      PlusNone(Tally(b, size));
    } else {
      assert (a + b)[1..] == a[1..] + b;
      TallyConcat(a[1..], b, size);
      PlusAssoc(Share(a[0], size), Tally(a[1..], size), Tally(b, size));
    }
  }

  lemma TallyOne(e: Event, size: string -> nat)
    ensures Tally([e], size) == Share(e, size)
  {
    assert [e][1..] == [];
  }

  lemma {:induction false} Multiple(k: nat, m: nat)
    requires k > 0
    ensures k * m >= m
  {
    if k > 1 {
      Multiple(k - 1, m);
    }
  }

  lemma Apart(p: nat, q: nat, r: nat, s: nat, m: nat)
    requires p < q && r < m
    ensures p * m + r < q * m + s
  {
    Multiple(q - p, m);
    assert (q - p) * m == q * m - p * m;
  }

  lemma Quotient(x: nat, m: nat)
    requires m > 0
    ensures x == (x / m) * m + x % m
  {
  }

  lemma RemainderIs(x: nat, q: nat, r: nat, m: nat)
    requires r < m && x == q * m + r
    ensures x % m == r
  {
    Quotient(x, m);
    if x / m < q {
      Apart(x / m, q, x % m, r, m);
    } else if q < x / m {
      Apart(q, x / m, r, x % m, m);
    }
  }

  lemma AddWraps(a: nat, b: nat, m: nat)
    requires m > 0
    ensures (a % m + b) % m == (a + b) % m
  {
    var y := a % m + b;
    Quotient(a, m);
    Quotient(y, m);
    assert (a / m + y / m) * m == (a / m) * m + (y / m) * m;
    RemainderIs(a + b, a / m + y / m, y % m, m);
  }

  lemma AccumulateWraps(sum: Info, e: Event, size: string -> nat)
    ensures Accumulate(Wrapped(sum), e, size) == Wrapped(Plus(sum, Share(e, size)))
  {
    match e
    case Open(_) =>
    case VisitDir(_, _) => AddWraps(sum.dirs, 1, UINT);
    case Visit(abs, _, _) =>
      hide Weight;
      AddWraps(sum.size, Weight(abs, size), ULLONG);
      AddWraps(sum.files, 1, UINT);
  }

  lemma {:induction false} AccumulatedIs(start: Info, evs: seq<Event>, size: string -> nat)
    requires start == Wrapped(start)
    ensures Accumulated(start, evs, size) == Wrapped(Plus(start, Tally(evs, size)))
  {
    if evs != [] {
      var init, last := evs[..|evs| - 1], evs[|evs| - 1];
      assert evs == init + [last];
      hide Accumulate, Wrapped, Plus, Share, Tally;
      AccumulatedIs(start, init, size);
      AccumulateWraps(Plus(start, Tally(init, size)), last, size);
      TallyConcat(init, [last], size);
      TallyOne(last, size);
      PlusAssoc(start, Tally(init, size), Share(last, size));
    } else {
      PlusNone(start);
    }
  }

  function SubFiles(ds: seq<Sub>): nat {
    if ds == [] then 0 else SubFiles(ds[..|ds| - 1]) + Files(ds[|ds| - 1].entries)
  }

  function SubDirs(ds: seq<Sub>): nat {
    if ds == [] then 0 else SubDirs(ds[..|ds| - 1]) + 1 + Dirs(ds[|ds| - 1].entries)
  }

  function SubBytes(p: string, ds: seq<Sub>, size: string -> nat): nat {
    if ds == [] then 0
    else SubBytes(p, ds[..|ds| - 1], size) + Bytes(Child(p, ds[|ds| - 1].name), ds[|ds| - 1].entries, size)
  }

  lemma {:induction false} TallyList(root: string, p: string, es: seq<Entry>, size: string -> nat)
    ensures var ds, t := Subdirs(es), Tally(ListEvents(root, p, es, PreOrder), size);
            && Files(es) == t.files + SubFiles(ds) && Dirs(es) == SubDirs(ds) && t.dirs == 0
            && Bytes(p, es, size) == t.size + SubBytes(p, ds, size)
  {
    if es != [] {
      var init, last := es[..|es| - 1], es[|es| - 1];
      TallyList(root, p, init, size);
      match last {
        case File(name, kind) =>
          var e := Visit(Child(p, name), After(Child(p, name), root), kind);
          TallyConcat(ListEvents(root, p, init, PreOrder), [e], size);
          TallyOne(e, size);
        case Dir(_, _) =>
          var ds := Subdirs(es);
          assert ds[..|ds| - 1] == Subdirs(init);
          assert ListEvents(root, p, es, PreOrder) == ListEvents(root, p, init, PreOrder);
      }
    }
  }

  lemma TallyNone(size: string -> nat)
    ensures Tally([], size) == Info(0, 0, 0)
  {
  }

  lemma ShareHead(p: string, rel: Option<string>, size: string -> nat)
    ensures Plus(Share(VisitDir(p, rel), size), Share(Open(p), size)) == Info(0, 0, 1)
  {
  }

  lemma TallyHead(root: string, p: string, list: seq<Event>, subs: seq<Event>, size: string -> nat)
    ensures Tally([VisitDir(p, After(p, root))] + [Open(p)] + list + subs, size) ==
            Plus(Plus(Info(0, 0, 1), Tally(list, size)), Tally(subs, size))
  {
    hide *;
    var visit := VisitDir(p, After(p, root));
    TallyOne(visit, size);
    TallyOne(Open(p), size);
    ShareHead(p, After(p, root), size);
    TallyConcat([visit], [Open(p)], size);
    TallyConcat([visit] + [Open(p)], list, size);
    TallyConcat([visit] + [Open(p)] + list, subs, size);
  }

  lemma PreParts(root: string, p: string, es: seq<Entry>)
    ensures Pre(root, p, es, PreOrder) ==
            [VisitDir(p, After(p, root))] + [Open(p)] + ListEvents(root, p, es, PreOrder) +
            PreRev(root, p, Subdirs(es), PreOrder)
  {
    hide ListEvents, PreRev, Subdirs;
  }

  lemma {:induction false} TallyRev(root: string, p: string, ds: seq<Sub>, size: string -> nat)
    ensures Tally(PreRev(root, p, ds, PreOrder), size) == Info(SubBytes(p, ds, size), SubFiles(ds), SubDirs(ds))
    decreases SubSize(ds), 0
  {
    hide Pre, Tally, Files, Dirs, Bytes;
    if ds == [] {
      TallyNone(size);
    } else {
      var init, last := ds[..|ds| - 1], ds[|ds| - 1];
      var c := Child(p, last.name);
      TallyPre(root, c, last.entries, size);
      TallyRev(root, p, init, size);
      TallyConcat(Pre(root, c, last.entries, PreOrder), PreRev(root, p, init, PreOrder), size);
    }
  }

  /** A walk that lists directories counts what is in the tree, and its root. */
  lemma {:induction false} TallyPre(root: string, p: string, es: seq<Entry>, size: string -> nat)
    ensures Tally(Pre(root, p, es, PreOrder), size) == Info(Bytes(p, es, size), Files(es), 1 + Dirs(es))
    decreases Size(es), 1
  {
    hide Tally, Pre, Files, Dirs, Bytes, ListEvents, PreRev, SubFiles, SubDirs, SubBytes;
    TallyList(root, p, es, size);
    TallyRev(root, p, Subdirs(es), size);
    PreParts(root, p, es);
    TallyHead(root, p, ListEvents(root, p, es, PreOrder), PreRev(root, p, Subdirs(es), PreOrder), size);
  }

  // ----- the command, for one directory

  /** stat() and opendir() as an environment; accumsize() itself never fails. */
  function Look(faults: seq<Event> -> bool): Env {
    (history: seq<Event>) => if faults(history) then -1 else 0
  }

  /** No call of the walk fails, and no type is unknown. */
  ghost predicate Readable(faults: seq<Event> -> bool, order: seq<Event>) {
    forall h :: h != [] && h <= order ==>
      !faults(h) && !(h[|h| - 1].Visit? && h[|h| - 1].kind == Unknown)
  }

  lemma LookReply(faults: seq<Event> -> bool, h: seq<Event>)
    requires h != []
    ensures Reply(Look(faults), h) == 0 <==> !faults(h) && !(h[|h| - 1].Visit? && h[|h| - 1].kind == Unknown)
  {
  }

  lemma LooksReadable(faults: seq<Event> -> bool, order: seq<Event>)
    ensures var (trace, ret) := Run(Look(faults), [], order);
            (ret == 0 <==> Readable(faults, order)) && (ret == 0 ==> trace == order)
  {
    hide Run, Reply, Look;
    forall h: seq<Event> | h != []
      ensures Reply(Look(faults), h) == 0 <==>
              !faults(h) && !(h[|h| - 1].Visit? && h[|h| - 1].kind == Unknown)
    {
      LookReply(faults, h);
    }
    RunSucceedsIff(Look(faults), order);
    RunIsPrefix(Look(faults), [], order);
    assert [] + order == order;
  }

  /** The directory `path` of `start` bytes, with what is in it.  The count of
      files starts at 1 and is not reset for a directory. */
  method CalcDir(path: string, es: seq<Entry>, start: nat, size: string -> nat, faults: seq<Event> -> bool)
    returns (err: int, info: Info)
    requires path != "" && Named(es) && start < ULLONG
    ensures err == 0 <==> Readable(faults, Calls(path, es, PreOrder))
    ensures err == 0 ==>
              && info.size == (start + Bytes(path, es, size)) % ULLONG
              && info.files == (1 + Files(es)) % UINT
              && info.dirs == (1 + Dirs(es)) % UINT
  {
    hide Run, Pre, Readable, Files, Dirs, Bytes, Accumulated, Tally;
    var undef;
    var w := new Walker(path, PreOrder, Look(faults));
    err, undef := w.Walk(es);
    info := Accumulated(Info(start, 1, 0), w.trace, size);
    LooksReadable(faults, Calls(path, es, PreOrder));
    AccumulatedIs(Info(start, 1, 0), w.trace, size);
    TallyPre(path, path, es, size);
  }
}
