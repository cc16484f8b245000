/** Directory trees, the callbacks a walk may make, and the orders in which a
    walk is meant to make them. */
module FileTree {
  import opened CString

  /** What readdir() reports as d_type.  `Unknown` makes the walk fail. */
  datatype Kind = Regular | Symlink | Special | Unknown

  /** One directory entry other than "." and "..". */
  datatype Entry =
    | File(name: string, kind: Kind)
    | Dir(name: string, entries: seq<Entry>)

  /** A subdirectory entry. */
  datatype Sub = Sub(name: string, entries: seq<Entry>)

  /** What the walk shows to its environment: it opens a directory, or it calls
      back for a path.  `rel` is the part of `abs` after the root. */
  datatype Event =
    | Open(abs: string)
    | Visit(abs: string, rel: Option<string>, kind: Kind)
    | VisitDir(abs: string, rel: Option<string>)

  /** The flag combinations the repository's callers use. */
  datatype Mode =
    | FilesOnly   // 0
    | DirsOnly    // FITER_LIST_DIR | FITER_LIST_DIR_ONLY
    | PreOrder    // FITER_LIST_DIR
    | PostOrder   // FITER_RECUR_DIR

  /** The environment answers an event, knowing everything that happened before
      and with it.  Zero lets the walk go on. */
  type Env = seq<Event> -> int

  // ----- trees

  function Size(es: seq<Entry>): (n: nat)
    ensures es != [] ==> n >= Size(es[..|es| - 1]) + SizeOf(es[|es| - 1])
  {
    if es == [] then 0 else Size(es[..|es| - 1]) + SizeOf(es[|es| - 1])
  }

  function SizeOf(e: Entry): (n: nat)
    ensures n >= 1 && (e.Dir? ==> n == 1 + Size(e.entries))
  {
    1 + match e case File(_, _) => 0 case Dir(_, es) => Size(es)
  }

  function SubSize(ds: seq<Sub>): nat {
    if ds == [] then 0 else SubSize(ds[..|ds| - 1]) + 1 + Size(ds[|ds| - 1].entries)
  }

  /** Subdirectories in listing order. */
  function Subdirs(es: seq<Entry>): (ds: seq<Sub>)
    ensures SubSize(ds) <= Size(es)
  {
    if es == [] then []
    else
      var ds := Subdirs(es[..|es| - 1]);
      match es[|es| - 1]
      case File(_, _) => ds
      case Dir(name, sub) =>
        assert (ds + [Sub(name, sub)])[..|ds|] == ds;
        ds + [Sub(name, sub)]
  }

  /** Names are file names, here and below. */
  predicate Named(es: seq<Entry>)
    decreases Size(es)
  {
    es == [] ||
    (var last := es[|es| - 1];
     Named(es[..|es| - 1]) && IsFileName(last.name) && (last.Dir? ==> Named(last.entries)))
  }

  predicate NamedSubs(ds: seq<Sub>) {
    ds == [] ||
    (var last := ds[|ds| - 1];
     NamedSubs(ds[..|ds| - 1]) && IsFileName(last.name) && Named(last.entries))
  }

  lemma NamedSubdirs(es: seq<Entry>)
    requires Named(es)
    ensures NamedSubs(Subdirs(es))
  {
    if es != [] {
      var init := es[..|es| - 1];
      NamedSubdirs(init);
      assert es[|es| - 1].Dir? ==> Subdirs(es)[..|Subdirs(es)| - 1] == Subdirs(init);
    }
  }

  /** No entry is of a type readdir() cannot tell. */
  predicate Known(es: seq<Entry>)
    decreases Size(es)
  {
    es == [] ||
    (var last := es[|es| - 1];
     Known(es[..|es| - 1]) &&
     match last case File(_, kind) => kind != Unknown case Dir(_, sub) => Known(sub))
  }

  predicate KnownSubs(ds: seq<Sub>) {
    ds == [] || (KnownSubs(ds[..|ds| - 1]) && Known(ds[|ds| - 1].entries))
  }

  lemma {:induction false} KnownSubdirs(es: seq<Entry>)
    requires Known(es)
    ensures KnownSubs(Subdirs(es))
  {
    if es != [] {
      KnownSubdirs(es[..|es| - 1]);
      assert es[|es| - 1].Dir? ==> Subdirs(es)[..|Subdirs(es)| - 1] == Subdirs(es[..|es| - 1]);
    }
  }

  // ----- paths

  /** The path dispatch_file builds for an entry of `path`. */
  function Child(path: string, name: string): string {
    if EndsWithSlash(path) then path + name else path + "/" + name
  }

  // ----- reference orders

  /** Callbacks made while listing one directory: its files, in order. */
  function ListEvents(root: string, path: string, es: seq<Entry>, mode: Mode): seq<Event> {
    if es == [] || mode == DirsOnly then []
    else
      ListEvents(root, path, es[..|es| - 1], mode) +
      match es[|es| - 1]
      case Dir(_, _) => []
      case File(name, kind) =>
        var abs := Child(path, name);
        [Visit(abs, After(abs, root), kind)]
  }

  /** The recursive post-order: files, then subdirectories from the last listed
      to the first, then the directory itself. */
  function Post(root: string, path: string, es: seq<Entry>): seq<Event>
    decreases Size(es), 1
  {
    [Open(path)] + ListEvents(root, path, es, PostOrder) +
    PostRev(root, path, Subdirs(es)) + [VisitDir(path, After(path, root))]
  }

  function PostRev(root: string, path: string, ds: seq<Sub>): seq<Event>
    decreases SubSize(ds), 0
  {
    if ds == [] then []
    else
      var last := ds[|ds| - 1];
      Post(root, Child(path, last.name), last.entries) + PostRev(root, path, ds[..|ds| - 1])
  }

  /** The recursive pre-order of the other modes. */
  function Pre(root: string, path: string, es: seq<Entry>, mode: Mode): seq<Event>
    decreases Size(es), 1
  {
    (if mode == FilesOnly then [] else [VisitDir(path, After(path, root))]) +
    [Open(path)] + ListEvents(root, path, es, mode) +
    PreRev(root, path, Subdirs(es), mode)
  }

  function PreRev(root: string, path: string, ds: seq<Sub>, mode: Mode): seq<Event>
    decreases SubSize(ds), 0
  {
    if ds == [] then []
    else
      var last := ds[|ds| - 1];
      Pre(root, Child(path, last.name), last.entries, mode) + PreRev(root, path, ds[..|ds| - 1], mode)
  }

  /** The order a walk in `mode` is meant to follow. */
  function Order(root: string, es: seq<Entry>, mode: Mode): seq<Event> {
    if mode == PostOrder then Post(root, root, es) else Pre(root, root, es, mode)
  }

  // ----- running a list of events against an environment

  /** What the walker makes of the last event: an entry of unknown type and a
      directory that cannot be opened give -1, a callback its own value. */
  function Reply(env: Env, history: seq<Event>): int
    requires history != []
  {
    var last := history[|history| - 1];
    if last.Visit? && last.kind == Unknown then -1
    else if last.Open? && env(history) != 0 then -1
    else env(history)
  }

  /** Emit `todo` after `done` until a reply is not zero. */
  function Run(env: Env, done: seq<Event>, todo: seq<Event>): (r: (seq<Event>, int))
    ensures done <= r.0
    decreases |todo|
  {
    if todo == [] then (done, 0)
    else
      var now := done + [todo[0]];
      var reply := Reply(env, now);
      if reply != 0 then (now, reply) else Run(env, now, todo[1..])
  }

  /** A run is a prefix of the full order; it stops at a nonzero reply only and
      returns it: -1 for a directory that cannot be opened or an entry of
      unknown type, and otherwise what the callback returned. */
  lemma {:induction false} RunIsPrefix(env: Env, done: seq<Event>, todo: seq<Event>)
    ensures var (trace, ret) := Run(env, done, todo);
            && done <= trace <= done + todo
            && (ret == 0 ==> trace == done + todo)
            && (ret != 0 ==> |done| < |trace| && ret == Reply(env, trace))
            && (ret != 0 ==> var last := trace[|trace| - 1];
                             ret == if last.Open? || (last.Visit? && last.kind == Unknown) then -1 else env(trace))
    decreases |todo|
  {
    if todo != [] {
      var now := done + [todo[0]];
      assert now + todo[1..] == done + todo;
      if Reply(env, now) == 0 {
        RunIsPrefix(env, now, todo[1..]);
      }
    }
  }

  /** No reply before the end of a run was nonzero. */
  lemma {:induction false} RunStopsFirst(env: Env, done: seq<Event>, todo: seq<Event>, k: nat)
    requires |done| < k <= |Run(env, done, todo).0|
    requires k < |Run(env, done, todo).0| || Run(env, done, todo).1 == 0
    ensures Reply(env, Run(env, done, todo).0[..k]) == 0
    decreases |todo|
  {
    if todo != [] {
      var now := done + [todo[0]];
      var trace := Run(env, done, todo).0;
      assert trace[..|now|] == now;
      if Reply(env, now) == 0 && k > |now| {
        RunStopsFirst(env, now, todo[1..], k);
      }
    }
  }

  /** A run succeeds if and only if every reply is zero; otherwise it ends with
      the first that is not. */
  lemma RunSucceedsIff(env: Env, todo: seq<Event>)
    ensures var (trace, ret) := Run(env, [], todo);
            && trace <= todo && (ret != 0 ==> trace != [] && ret == Reply(env, trace))
            && (ret == 0 <==> forall h :: h != [] && h <= todo ==> Reply(env, h) == 0)
            && forall h :: h != [] && h < trace ==> Reply(env, h) == 0
  {
    hide Run, Reply;
    var (trace, ret) := Run(env, [], todo);
    RunIsPrefix(env, [], todo);
    assert [] + todo == todo;
    forall h | h != [] && h <= trace && (|h| < |trace| || ret == 0) ensures Reply(env, h) == 0 {
      RunStopsFirst(env, [], todo, |h|);
      assert trace[..|h|] == h;
    }
  }

  lemma {:induction false} RunConcat(env: Env, done: seq<Event>, a: seq<Event>, b: seq<Event>)
    ensures Run(env, done, a + b) ==
            (var r := Run(env, done, a); if r.1 != 0 then r else Run(env, r.0, b))
    decreases |a|
  {
    if a == [] {
      assert a + b == b;
    } else {
      assert (a + b)[1..] == a[1..] + b;
      RunConcat(env, done + [a[0]], a[1..], b);
    }
  }

  lemma RunOne(env: Env, done: seq<Event>, e: Event, rest: seq<Event>)
    ensures Run(env, done, [e] + rest) ==
            (var now := done + [e];
             if Reply(env, now) != 0 then (now, Reply(env, now)) else Run(env, now, rest))
  {
    assert ([e] + rest)[1..] == rest;
  }

  /** One of these calls meets a type that readdir() cannot tell. */
  ghost predicate HasUnknown(evs: seq<Event>) {
    exists e :: e in evs && e.Visit? && e.kind == Unknown
  }

  lemma UnknownConcat(a: seq<Event>, b: seq<Event>)
    ensures HasUnknown(a + b) <==> HasUnknown(a) || HasUnknown(b)
  {
    if HasUnknown(a) {
      var e :| e in a && e.Visit? && e.kind == Unknown;
      assert e in a + b;
    }
    if HasUnknown(b) {
      var e :| e in b && e.Visit? && e.kind == Unknown;
      assert e in a + b;
    }
  }
}
