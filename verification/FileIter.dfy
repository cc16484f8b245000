/** The directory walker: platfree/fileiter.c over platspec/unix/fileiter.c.

    The walker keeps a stack of path strings and nothing else; in PostOrder it
    tells finished directories from unfinished ones by comparing path lengths. */
module FileIter {
  import opened CString
  import opened FileTree
  import opened Sequences

  /** A path on the walker's stack, with the directory opendir() finds there. */
  datatype Item = Item(path: string, entries: seq<Entry>)

  // ----- the stack, and the events it stands for

  function Items(path: string, ds: seq<Sub>): seq<Item> {
    if ds == [] then []
    else
      var last := ds[|ds| - 1];
      Items(path, ds[..|ds| - 1]) + [Item(Child(path, last.name), last.entries)]
  }

  ghost function StackSize(sl: seq<Item>): nat {
    if sl == [] then 0
    else StackSize(sl[..|sl| - 1]) + 1 + Size(sl[|sl| - 1].entries)
  }

  /** What is left of a pre-order walk once the current directory is done. */
  ghost function PreStack(root: string, sl: seq<Item>, mode: Mode): seq<Event> {
    if sl == [] then []
    else
      var top := sl[|sl| - 1];
      Pre(root, top.path, top.entries, mode) + PreStack(root, sl[..|sl| - 1], mode)
  }

  lemma {:induction false} PushSize(sl: seq<Item>, path: string, ds: seq<Sub>)
    ensures StackSize(sl + Items(path, ds)) == StackSize(sl) + SubSize(ds)
  {
    var all := sl + Items(path, ds);
    if ds == [] {
      assert all == sl;
    } else {
      var init, last := ds[..|ds| - 1], ds[|ds| - 1];
      AppendLast(sl, Items(path, init), Item(Child(path, last.name), last.entries));
      PushSize(sl, path, init);
    }
  }

  /** No path on the stack is empty. */
  ghost predicate Pathed(sl: seq<Item>) {
    sl == [] || (sl[|sl| - 1].path != [] && Pathed(sl[..|sl| - 1]))
  }

  lemma {:induction false} PushPathed(sl: seq<Item>, path: string, ds: seq<Sub>)
    requires Pathed(sl)
    ensures Pathed(sl + Items(path, ds))
  {
    if ds == [] {
      assert sl + Items(path, ds) == sl;
    } else {
      var init, last := ds[..|ds| - 1], ds[|ds| - 1];
      AppendLast(sl, Items(path, init), Item(Child(path, last.name), last.entries));
      PushPathed(sl, path, init);
    }
  }

  lemma {:induction false} PushPre(root: string, sl: seq<Item>, path: string, ds: seq<Sub>, mode: Mode)
    ensures PreStack(root, sl + Items(path, ds), mode) == PreRev(root, path, ds, mode) + PreStack(root, sl, mode)
  {
    var all := sl + Items(path, ds);
    if ds == [] {
      assert all == sl;
    } else {
      var init, last := ds[..|ds| - 1], ds[|ds| - 1];
      var top := Item(Child(path, last.name), last.entries);
      AppendLast(sl, Items(path, init), top);
      PushPre(root, sl, path, init, mode);
      Assoc(Pre(root, top.path, top.entries, mode), PreRev(root, path, init, mode), PreStack(root, sl, mode));
    }
  }

  lemma {:induction false} ItemsConcat(path: string, a: seq<Sub>, b: seq<Sub>)
    ensures Items(path, a + b) == Items(path, a) + Items(path, b)
  {
    if b == [] {
      assert a + b == a;
    } else {
      var init, last := b[..|b| - 1], b[|b| - 1];
      assert b == init + [last];
      AppendLast(a, init, last);
      ItemsConcat(path, a, init);
      Assoc(Items(path, a), Items(path, init), [Item(Child(path, last.name), last.entries)]);
    }
  }

  // ----- the calls of a walk

  /** The root of a PostOrder walk is called back before its subdirectories
      when its name ends in '/' and it has any. */
  predicate Misordered(root: string, es: seq<Entry>, mode: Mode) {
    mode == PostOrder && EndsWithSlash(root) && Subdirs(es) != []
  }

  /** Calling back for `d` and for every directory above it that its name
      shows, up to the first component. */
  function Above(root: string, d: string): seq<Event>
    decreases |d|
  {
    [VisitDir(d, After(d, root))] + if LastSlash(d) < 0 then [] else Above(root, d[..LastSlash(d)])
  }

  /** A misordered walk: the root right after listing it, its subdirectories,
      and then what is above them, as if nothing were the root. */
  function EarlyRoot(root: string, es: seq<Entry>): seq<Event>
    requires root != []
  {
    [Open(root)] + ListEvents(root, root, es, PostOrder) + [VisitDir(root, After(root, root))] +
    (PostRev(root, root, Subdirs(es)) + Above(root, root[..|root| - 1]))
  }

  /** The calls a walk makes when every reply is zero. */
  function Calls(root: string, es: seq<Entry>, mode: Mode): seq<Event>
    requires root != []
  {
    if Misordered(root, es, mode) then EarlyRoot(root, es) else Order(root, es, mode)
  }

  lemma PostHead(root: string, path: string, es: seq<Entry>)
    ensures Post(root, path, es) != [] && Post(root, path, es)[0] == Open(path)
  {
  }

  lemma EarlyRootIsWrong(root: string, es: seq<Entry>)
    requires Misordered(root, es, PostOrder)
    ensures EarlyRoot(root, es) != Post(root, root, es)
  {
    var listing, subs := [Open(root)] + ListEvents(root, root, es, PostOrder), PostRev(root, root, Subdirs(es));
    PostHead(root, Child(root, Subdirs(es)[|Subdirs(es)| - 1].name), Subdirs(es)[|Subdirs(es)| - 1].entries);
    assert subs != [] && subs[0].Open?;
    assert Post(root, root, es)[|listing|] == subs[0];
    assert EarlyRoot(root, es)[|listing|] == VisitDir(root, After(root, root));
  }

  /** When nothing fails, a PostOrder walk follows the recursive post-order if
      and only if the root does not end in '/' or has no subdirectory. */
  lemma PostOrderIff(root: string, es: seq<Entry>, env: Env, trace: seq<Event>, ret: int)
    requires root != [] && Run(env, [], Calls(root, es, PostOrder)) == (trace, ret)
    requires forall history :: history != [] ==> Reply(env, history) == 0
    ensures trace == Post(root, root, es) <==> !(EndsWithSlash(root) && Subdirs(es) != [])
  {
    hide Run, Post, EarlyRoot, Reply;
    RunIsPrefix(env, [], Calls(root, es, PostOrder));
    assert [] + Calls(root, es, PostOrder) == Calls(root, es, PostOrder);
    if Misordered(root, es, PostOrder) {
      EarlyRootIsWrong(root, es);
    }
  }

  // ----- PostOrder: the chain of open directories behind the stack

  /** The open directories, innermost first.  A frame holds a directory that is
      listed and not yet called back, and its subdirectories that still wait on
      the stack. */
  datatype Frames = Nil | Frame(path: string, pending: seq<Sub>, up: Frames)

  /** `path` names an entry of the directory `dir`, judged by its slashes. */
  predicate IsChild(dir: string, path: string) {
    dir <= path && LastSlash(path) == |dir|
  }

  lemma ChildIsChild(dir: string, name: string)
    requires IsFileName(name)
    ensures var c := Child(dir + "/", name); IsChild(dir, c) && !EndsWithSlash(c) && |c| > |dir| + 1
  {
    LastSlashOfChild(dir, name);
    assert (dir + "/")[|dir|] == '/';
    assert Child(dir + "/", name) == dir + "/" + name;
    assert (dir + "/" + name)[|dir| + |name|] == name[|name| - 1];
  }

  /** A directory with a name as long as the root is the outermost one. */
  ghost predicate Outermost(root: string, fr: Frames)
    requires fr.Frame?
  {
    |fr.path| == |root| ==> fr.up.Nil?
  }

  /** Each frame's directory is the parent of the next one's.  The outermost is
      the root; in a misordered walk it is the first component of its name. */
  ghost predicate Chain(root: string, early: bool, fr: Frames) {
    && fr.Frame?
    && NamedSubs(fr.pending)
    && (fr.pending != [] ==> |root| <= |fr.path| + 1)
    && (if fr.up.Nil? then
          (if early then |fr.path| < |root| && LastSlash(fr.path) < 0 else fr.path == root)
        else
          && IsChild(fr.up.path, fr.path)
          && Chain(root, early, fr.up)
          && Outermost(root, fr.up))
  }

  ghost function StackOf(fr: Frames): seq<Item> {
    match fr
    case Nil => []
    case Frame(path, pending, up) => StackOf(up) + Items(path + "/", pending)
  }

  /** What is left of a post-order walk once the current directory is done. */
  ghost function RestAfter(root: string, fr: Frames): seq<Event> {
    match fr
    case Nil => []
    case Frame(path, pending, up) =>
      PostRev(root, path + "/", pending) + ([VisitDir(path, After(path, root))] + RestAfter(root, up))
  }

  /** A '/' at the end of a directory's name does not matter to its entries. */
  lemma {:induction false} SlashAdded(root: string, path: string, ds: seq<Sub>)
    requires !EndsWithSlash(path)
    ensures Items(path + "/", ds) == Items(path, ds)
    ensures PostRev(root, path + "/", ds) == PostRev(root, path, ds)
  {
    assert (path + "/")[|path|] == '/';
    hide Post;
    if ds != [] {
      SlashAdded(root, path, ds[..|ds| - 1]);
    }
  }

  /** `dir` is one of the open directories. */
  ghost predicate IsOpen(fr: Frames, dir: string) {
    fr.Frame? && (fr.path == dir || IsOpen(fr.up, dir))
  }

  lemma ChainLength(root: string, fr: Frames)
    requires Chain(root, false, fr)
    ensures |root| <= |fr.path|
  {
    if fr.up.Frame? {
      ChainLength(root, fr.up);
    }
  }

  /** Why lengths suffice: the parent of the topmost path is one of the open
      directories, and it is the innermost exactly when their lengths agree. */
  lemma {:induction false} TopParent(root: string, early: bool, fr: Frames)
    requires Chain(root, early, fr) && StackOf(fr) != []
    ensures var sl := StackOf(fr);
            var path := sl[|sl| - 1].path;
            var parent := LastSlash(path);
            && 0 <= parent <= |fr.path| && (parent == |fr.path| <==> fr.pending != [])
            && IsOpen(fr, path[..parent]) && |root| <= parent + 1 && (!early ==> |root| <= parent)
  {
    if fr.pending != [] {
      ChildIsChild(fr.path, fr.pending[|fr.pending| - 1].name);
      if !early {
        ChainLength(root, fr);
      }
    } else {
      assert StackOf(fr) == StackOf(fr.up);
      TopParent(root, early, fr.up);
    }
  }

  /** The frames account for the stack and the path popped from it.  Only the
      root of a misordered walk is called back while its parent has children
      waiting. */
  ghost predicate Pending(root: string, early: bool, fr: Frames, sl: seq<Item>, next: Option<Item>) {
    && Chain(root, early, fr)
    && (Outermost(root, fr) || (fr.pending == [] && fr.up.pending != []))
    && StackOf(fr) == sl + (if next.Some? then [next.value] else [])
    && (next.None? ==> sl == [])
  }

  /** `sb` names the innermost open directory, which may be called back. */
  ghost predicate Closing(root: string, early: bool, fr: Frames, sl: seq<Item>, next: Option<Item>, sb: string) {
    Pending(root, early, fr, sl, next) && sb == fr.path && fr.pending == [] && Outermost(root, fr)
  }

  /** The path popped is a child of the innermost open directory. */
  ghost predicate Entering(root: string, early: bool, fr: Frames, sl: seq<Item>, next: Option<Item>) {
    Pending(root, early, fr, sl, next) && fr.pending != []
  }

  /** What a length comparison says about the popped path. */
  lemma Innermost(root: string, early: bool, fr: Frames, sl: seq<Item>, next: Option<Item>)
    requires Chain(root, early, fr) && (next.None? ==> sl == [])
    requires StackOf(fr) == sl + (if next.Some? then [next.value] else [])
    ensures fr.Frame? && (next.None? ==> fr.pending == [])
    ensures next.Some? ==> 0 <= LastSlash(next.value.path)
    ensures next.Some? ==> (LastSlash(next.value.path) == |fr.path| <==> fr.pending != [])
  {
    if next.Some? {
      TopParent(root, early, fr);
    } else {
      assert |StackOf(fr)| >= |Items(fr.path + "/", fr.pending)|;
    }
  }

  /** Once the innermost directory is called back, lengths tell where the walk
      goes on; a misordered walk is not stopped at the root. */
  lemma FinishFrame(root: string, early: bool, fr: Frames, sl: seq<Item>, next: Option<Item>, sb: string)
    requires Closing(root, early, fr, sl, next, sb)
    ensures |sb| == |root| ==> next.None? && fr.up == Nil && !early
    ensures |sb| != |root| ==>
              var sep := LastSlash(sb);
              if sep < 0 then next.None? && fr.up == Nil && early
              else if next.Some? && LastSlash(next.value.path) == sep then Entering(root, early, fr.up, sl, next)
              else Closing(root, early, fr.up, sl, next, sb[..sep])
  {
    assert StackOf(fr) == StackOf(fr.up);
    if fr.up.Frame? {
      Innermost(root, early, fr.up, sl, next);
    }
  }

  lemma LastClosing(root: string, early: bool, fr: Frames, sl: seq<Item>)
    requires Pending(root, early, fr, sl, None)
    ensures Closing(root, early, fr, sl, None, fr.path)
  {
    assert |StackOf(fr)| >= |Items(fr.path + "/", fr.pending)|;
    if fr.up.Frame? {
      assert |StackOf(fr.up)| >= |Items(fr.up.path + "/", fr.up.pending)|;
    }
  }

  /** The second shortcut of the loop: the popped path has the same parent as
      the directory that is done. */
  lemma SameParent(root: string, early: bool, fr: Frames, sl: seq<Item>, next: Item)
    requires Pending(root, early, fr, sl, Some(next)) && fr.pending == []
    ensures fr.up.Frame? && LastSlash(fr.path) == |fr.up.path|
    ensures if LastSlash(next.path) == |fr.up.path| then Entering(root, early, fr.up, sl, Some(next))
            else Closing(root, early, fr, sl, Some(next), fr.path)
  {
    assert StackOf(fr) == StackOf(fr.up);
    Innermost(root, early, fr.up, sl, Some(next));
  }

  /** Taking the topmost path off the innermost frame. */
  lemma PopFrame(root: string, early: bool, fr: Frames, sl: seq<Item>, next: Item) returns (fr': Frames)
    requires Entering(root, early, fr, sl, Some(next))
    ensures Chain(root, early, fr') && Outermost(root, fr') && StackOf(fr') == sl
    ensures IsChild(fr'.path, next.path) && !EndsWithSlash(next.path) && |root| < |next.path|
    ensures Named(next.entries)
    ensures RestAfter(root, fr) == Post(root, next.path, next.entries) + RestAfter(root, fr')
  {
    var init, d := fr.pending[..|fr.pending| - 1], fr.pending[|fr.pending| - 1];
    fr' := Frame(fr.path, init, fr.up);
    ChildIsChild(fr.path, d.name);
    var base := fr.path + "/";
    var item := Item(Child(base, d.name), d.entries);
    Assoc(StackOf(fr.up), Items(base, init), [item]);
    SnocInjective(sl, next, StackOf(fr'), item);
    var post := Post(root, next.path, next.entries);
    var rest := [VisitDir(fr.path, After(fr.path, root))] + RestAfter(root, fr.up);
    Assoc(post, PostRev(root, base, init), rest);
  }

  /** Where a PostOrder walk stands when it is about to list `dir`. */
  ghost predicate At(root: string, early: bool, fr: Frames, dir: Item) {
    && Named(dir.entries)
    && (if fr.Nil? then dir.path == root != [] && early == Misordered(root, dir.entries, PostOrder)
        else
          && Chain(root, early, fr) && Outermost(root, fr)
          && IsChild(fr.path, dir.path) && !EndsWithSlash(dir.path) && |root| < |dir.path|)
  }

  /** What a PostOrder walk owes there. */
  ghost function Owed(root: string, early: bool, fr: Frames, dir: Item): seq<Event>
    requires At(root, early, fr, dir)
  {
    if fr.Nil? then Calls(root, dir.entries, PostOrder)
    else Post(root, dir.path, dir.entries) + RestAfter(root, fr)
  }

  /** The directories above `d`, none of them with anything to list. */
  ghost function FramesAbove(d: string): Frames
    decreases |d|
  {
    if LastSlash(d) < 0 then Nil else Frame(d[..LastSlash(d)], [], FramesAbove(d[..LastSlash(d)]))
  }

  lemma {:induction false} ChainAbove(root: string, d: string, pending: seq<Sub>)
    requires |d| < |root| && NamedSubs(pending) && (pending != [] ==> |root| <= |d| + 1)
    ensures Chain(root, true, Frame(d, pending, FramesAbove(d)))
    ensures StackOf(FramesAbove(d)) == []
    ensures [VisitDir(d, After(d, root))] + RestAfter(root, FramesAbove(d)) == Above(root, d)
    decreases |d|
  {
    if LastSlash(d) >= 0 {
      var up := d[..LastSlash(d)];
      ChainAbove(root, up, []);
      var visit := [VisitDir(up, After(up, root))];
      assert RestAfter(root, FramesAbove(d)) == [] + (visit + RestAfter(root, FramesAbove(up)));
    }
  }

  lemma EarlyFrames(root: string, d: string, ds: seq<Sub>)
    requires d + "/" == root && StackOf(FramesAbove(d)) == []
    requires [VisitDir(d, After(d, root))] + RestAfter(root, FramesAbove(d)) == Above(root, d)
    ensures var up := Frame(d, ds, FramesAbove(d));
            && StackOf(Frame(root, [], up)) == StackOf(up) == Items(root, ds)
            && RestAfter(root, up) == PostRev(root, root, ds) + Above(root, d)
            && RestAfter(root, Frame(root, [], up)) == [VisitDir(root, After(root, root))] + RestAfter(root, up)
            && IsChild(d, root)
  {
    hide Above, FramesAbove;
    var up := Frame(d, ds, FramesAbove(d));
    assert StackOf(up) == [] + Items(root, ds);
    assert PostRev(root, root + "/", []) == [];
  }

  /** Listing the root of a misordered walk: from here on it passes for a
      directory with an empty name in the directory that it is. */
  lemma OpenEarly(root: string, es: seq<Entry>) returns (fr: Frames)
    requires Named(es) && Misordered(root, es, PostOrder)
    ensures Chain(root, true, fr) && fr.path == root && StackOf(fr) == Items(root, Subdirs(es))
    ensures fr.pending == [] && fr.up.Frame? && fr.up.pending != []
    ensures EarlyRoot(root, es) == ([Open(root)] + ListEvents(root, root, es, PostOrder)) + RestAfter(root, fr)
  {
    var d, ds := root[..|root| - 1], Subdirs(es);
    assert d + "/" == root;
    NamedSubdirs(es);
    ChainAbove(root, d, ds);
    var up := Frame(d, ds, FramesAbove(d));
    fr := Frame(root, [], up);
    EarlyFrames(root, d, ds);
    hide PostRev, Above, RestAfter, Chain, ListEvents;
    var head, visit := [Open(root)] + ListEvents(root, root, es, PostOrder), [VisitDir(root, After(root, root))];
    Assoc(head, visit, RestAfter(root, up));
  }

  /** Listing any other directory opens one more frame. */
  lemma OpenFrame(root: string, early: bool, fr: Frames, dir: Item) returns (fr': Frames)
    requires At(root, early, fr, dir) && (fr.Nil? ==> !early)
    ensures Chain(root, early, fr') && Outermost(root, fr') && fr'.path == dir.path
    ensures StackOf(fr') == StackOf(fr) + Items(dir.path, Subdirs(dir.entries))
    ensures Post(root, dir.path, dir.entries) + RestAfter(root, fr) ==
            ([Open(dir.path)] + ListEvents(root, dir.path, dir.entries, PostOrder)) + RestAfter(root, fr')
  {
    var ds := Subdirs(dir.entries);
    fr' := Frame(dir.path, ds, fr);
    NamedSubdirs(dir.entries);
    if EndsWithSlash(dir.path) {
      assert ds == [];
    } else {
      SlashAdded(root, dir.path, ds);
    }
    var head := [Open(dir.path)] + ListEvents(root, dir.path, dir.entries, PostOrder);
    var subs, visit := PostRev(root, dir.path, ds), [VisitDir(dir.path, After(dir.path, root))];
    var rest := RestAfter(root, fr);
    assert RestAfter(root, fr') == subs + (visit + rest);
    Assoc(head + subs, visit, rest);
    Assoc(head, subs, visit + rest);
  }

  lemma Opened(root: string, early: bool, fr: Frames, dir: Item) returns (fr': Frames)
    requires At(root, early, fr, dir)
    ensures Chain(root, early, fr') && fr'.path == dir.path
    ensures Outermost(root, fr') || (fr'.pending == [] && fr'.up.pending != [])
    ensures StackOf(fr') == StackOf(fr) + Items(dir.path, Subdirs(dir.entries))
    ensures Owed(root, early, fr, dir) ==
            ([Open(dir.path)] + ListEvents(root, dir.path, dir.entries, PostOrder)) + RestAfter(root, fr')
  {
    hide Post, EarlyRoot, ListEvents, Chain, IsChild;
    if fr.Nil? && early {
      fr' := OpenEarly(root, dir.entries);
      assert StackOf(fr') == [] + Items(dir.path, Subdirs(dir.entries));
    } else {
      fr' := OpenFrame(root, early, fr, dir);
      assert fr.Nil? ==> Post(root, dir.path, dir.entries) + [] == Post(root, dir.path, dir.entries);
    }
  }

  // ----- what the walk owes

  /** The walk that owed the events of `fr` at `start` owes those of `fr'` now. */
  ghost predicate Owes(root: string, env: Env, start: seq<Event>, fr: Frames, now: seq<Event>, fr': Frames) {
    Run(env, start, RestAfter(root, fr)) == Run(env, now, RestAfter(root, fr'))
  }

  /** The walk that owed the events of `fr` at `start` is over. */
  ghost predicate Settled(root: string, env: Env, start: seq<Event>, fr: Frames, now: seq<Event>, ret: int) {
    Run(env, start, RestAfter(root, fr)) == (now, ret)
  }

  /** Calling back for the innermost open directory. */
  lemma VisitFrame(root: string, env: Env, start: seq<Event>, fr0: Frames, before: seq<Event>, fr: Frames)
    requires Owes(root, env, start, fr0, before, fr)
    requires fr.Frame? && fr.pending == []
    ensures var now := before + [VisitDir(fr.path, After(fr.path, root))];
            var ret := Reply(env, now);
            && (ret != 0 ==> Settled(root, env, start, fr0, now, ret))
            && (ret == 0 ==> Owes(root, env, start, fr0, now, fr.up))
            && (ret == 0 && fr.up.Nil? ==> Settled(root, env, start, fr0, now, 0))
  {
    var visit := VisitDir(fr.path, After(fr.path, root));
    assert RestAfter(root, fr) == [visit] + RestAfter(root, fr.up);
    RunOne(env, before, visit, RestAfter(root, fr.up));
  }

  ghost predicate PreOwes(root: string, es: seq<Entry>, mode: Mode, env: Env, now: seq<Event>, dir: Item,
                          sl: seq<Item>) {
    Run(env, [], Pre(root, root, es, mode)) ==
    Run(env, now, Pre(root, dir.path, dir.entries, mode) + PreStack(root, sl, mode))
  }

  ghost predicate PreOwesStack(root: string, es: seq<Entry>, mode: Mode, env: Env, now: seq<Event>, sl: seq<Item>) {
    Run(env, [], Pre(root, root, es, mode)) == Run(env, now, PreStack(root, sl, mode))
  }

  ghost predicate PostOwes(root: string, es: seq<Entry>, env: Env, now: seq<Event>, dir: Item, fr: Frames,
                           sl: seq<Item>)
    requires root != []
  {
    var early := Misordered(root, es, PostOrder);
    && At(root, early, fr, dir) && StackOf(fr) == sl
    && Run(env, [], Calls(root, es, PostOrder)) == Run(env, now, Owed(root, early, fr, dir))
  }

  ghost predicate PostOwesStack(root: string, es: seq<Entry>, env: Env, now: seq<Event>, fr: Frames, sl: seq<Item>)
    requires root != []
  {
    && Chain(root, Misordered(root, es, PostOrder), fr) && StackOf(fr) == sl
    && (Outermost(root, fr) || (fr.pending == [] && fr.up.pending != []))
    && Run(env, [], Calls(root, es, PostOrder)) == Run(env, now, RestAfter(root, fr))
  }

  /** The events of one round of the outer loop, up to the pop. */
  ghost function EnterEvents(root: string, dir: Item, mode: Mode): seq<Event> {
    (if mode == PreOrder || mode == DirsOnly then [VisitDir(dir.path, After(dir.path, root))] else []) +
    ([Open(dir.path)] + ListEvents(root, dir.path, dir.entries, mode))
  }

  lemma PreStart(root: string, es: seq<Entry>, mode: Mode, env: Env)
    ensures PreOwes(root, es, mode, env, [], Item(root, es), [])
  {
    assert Pre(root, root, es, mode) + PreStack(root, [], mode) == Pre(root, root, es, mode);
  }

  lemma StackRound(sl: seq<Item>, dir: Item)
    requires Pathed(sl)
    ensures Pathed(sl + Items(dir.path, Subdirs(dir.entries)))
    ensures StackSize(sl + Items(dir.path, Subdirs(dir.entries))) < StackSize(sl + [dir])
  {
    PushSize(sl, dir.path, Subdirs(dir.entries));
    PushPathed(sl, dir.path, Subdirs(dir.entries));
    assert (sl + [dir])[..|sl|] == sl;
  }

  lemma PreEntered(root: string, es: seq<Entry>, mode: Mode, env: Env, start: seq<Event>, dir: Item, sl: seq<Item>,
                   now: seq<Event>, ret: int)
    requires mode != PostOrder && PreOwes(root, es, mode, env, start, dir, sl)
    requires Run(env, start, EnterEvents(root, dir, mode)) == (now, ret)
    ensures ret != 0 ==> Run(env, [], Pre(root, root, es, mode)) == (now, ret)
    ensures ret == 0 ==> PreOwesStack(root, es, mode, env, now, sl + Items(dir.path, Subdirs(dir.entries)))
  {
    var events, subs := EnterEvents(root, dir, mode), PreRev(root, dir.path, Subdirs(dir.entries), mode);
    PushPre(root, sl, dir.path, Subdirs(dir.entries), mode);
    var visit := if mode == FilesOnly then [] else [VisitDir(dir.path, After(dir.path, root))];
    var listing := ListEvents(root, dir.path, dir.entries, mode);
    Assoc(visit, [Open(dir.path)], listing);
    Assoc(events, subs, PreStack(root, sl, mode));
    RunConcat(env, start, events, subs + PreStack(root, sl, mode));
  }

  lemma PrePopped(root: string, es: seq<Entry>, mode: Mode, env: Env, now: seq<Event>, sl: seq<Item>, next: Item)
    requires PreOwesStack(root, es, mode, env, now, sl + [next])
    ensures PreOwes(root, es, mode, env, now, next, sl)
  {
    assert (sl + [next])[..|sl|] == sl;
  }

  lemma PostEntered(root: string, es: seq<Entry>, env: Env, start: seq<Event>, dir: Item, fr: Frames, sl: seq<Item>,
                    now: seq<Event>, ret: int) returns (fr': Frames)
    requires root != [] && PostOwes(root, es, env, start, dir, fr, sl)
    requires Run(env, start, EnterEvents(root, dir, PostOrder)) == (now, ret)
    ensures ret != 0 ==> Run(env, [], Calls(root, es, PostOrder)) == (now, ret)
    ensures ret == 0 ==> PostOwesStack(root, es, env, now, fr', sl + Items(dir.path, Subdirs(dir.entries)))
    ensures fr'.Frame? && fr'.path == dir.path
  {
    var early := Misordered(root, es, PostOrder);
    var listing := [Open(dir.path)] + ListEvents(root, dir.path, dir.entries, PostOrder);
    assert EnterEvents(root, dir, PostOrder) == listing;
    fr' := Opened(root, early, fr, dir);
    hide Run, Calls, Owed, RestAfter, ListEvents, Chain, At;
    RunConcat(env, start, listing, RestAfter(root, fr'));
  }

  lemma PostPopped(root: string, es: seq<Entry>, env: Env, start: seq<Event>, fr0: Frames, sl0: seq<Item>,
                   now: seq<Event>, fr: Frames, sl: seq<Item>, next: Item) returns (fr': Frames)
    requires root != [] && PostOwesStack(root, es, env, start, fr0, sl0)
    requires Owes(root, env, start, fr0, now, fr)
    requires Entering(root, Misordered(root, es, PostOrder), fr, sl, Some(next))
    ensures PostOwes(root, es, env, now, next, fr', sl)
  {
    fr' := PopFrame(root, Misordered(root, es, PostOrder), fr, sl, next);
    hide Run, Calls, Post, RestAfter, Chain, StackOf;
  }

  // ----- the outer loop in one view

  /** At the head of the outer loop. */
  ghost predicate Standing(root: string, es: seq<Entry>, mode: Mode, env: Env, now: seq<Event>, dir: Item,
                           fr: Frames, sl: seq<Item>)
    requires root != []
  {
    if mode != PostOrder then PreOwes(root, es, mode, env, now, dir, sl)
    else PostOwes(root, es, env, now, dir, fr, sl)
  }

  /** After listing a directory, before the pop. */
  ghost predicate Listed(root: string, es: seq<Entry>, mode: Mode, env: Env, now: seq<Event>, dir: Item,
                         fr: Frames, sl: seq<Item>)
    requires root != []
  {
    if mode != PostOrder then PreOwesStack(root, es, mode, env, now, sl)
    else PostOwesStack(root, es, env, now, fr, sl) && fr.path == dir.path
  }

  lemma Enters(root: string, es: seq<Entry>, mode: Mode, env: Env, start: seq<Event>, dir: Item, fr: Frames,
               sl: seq<Item>, now: seq<Event>, ret: int) returns (fr': Frames)
    requires root != [] && Standing(root, es, mode, env, start, dir, fr, sl)
    requires Run(env, start, EnterEvents(root, dir, mode)) == (now, ret)
    ensures ret != 0 ==> Run(env, [], Calls(root, es, mode)) == (now, ret)
    ensures ret == 0 ==>
              Listed(root, es, mode, env, now, dir, fr', sl + Items(dir.path, Subdirs(dir.entries)))
  {
    fr' := fr;
    if mode != PostOrder {
      PreEntered(root, es, mode, env, start, dir, sl, now, ret);
    } else {
      fr' := PostEntered(root, es, env, start, dir, fr, sl, now, ret);
    }
  }

  lemma Starts(root: string, es: seq<Entry>, mode: Mode, env: Env)
    requires root != [] && Named(es)
    ensures Standing(root, es, mode, env, [], Item(root, es), Nil, [])
    ensures Pathed([])
  {
    if mode != PostOrder {
      PreStart(root, es, mode, env);
    }
  }

  /** In the pre-order modes the popped path is listed next. */
  lemma PreLeaves(root: string, es: seq<Entry>, mode: Mode, env: Env, now: seq<Event>, dir: Item, fr: Frames,
                  pushed: seq<Item>, sl: seq<Item>, next: Option<Item>)
    requires root != [] && mode != PostOrder && Listed(root, es, mode, env, now, dir, fr, pushed)
    requires pushed == sl + (if next.Some? then [next.value] else []) && (next.None? ==> sl == [])
    ensures !Misordered(root, es, mode)
    ensures next.None? ==> Run(env, [], Calls(root, es, mode)) == (now, 0)
    ensures next.Some? ==> Standing(root, es, mode, env, now, next.value, fr, sl)
  {
    if next.Some? {
      PrePopped(root, es, mode, env, now, sl, next.value);
    }
  }

  lemma ListedPending(root: string, es: seq<Entry>, env: Env, now: seq<Event>, dir: Item, fr: Frames,
                      pushed: seq<Item>, sl: seq<Item>, next: Option<Item>)
    requires root != [] && Listed(root, es, PostOrder, env, now, dir, fr, pushed)
    requires pushed == sl + (if next.Some? then [next.value] else []) && (next.None? ==> sl == [])
    ensures Pending(root, Misordered(root, es, PostOrder), fr, sl, next) && dir.path == fr.path
  {
  }

  /** How a walk ends: by a nonzero reply, at the root, or, if it is misordered,
      above the last '/' of the name. */
  ghost predicate Ends(early: bool, ret: int, done: bool, undef: bool) {
    (ret != 0 ==> !done && !undef) && (done ==> !early) && (undef ==> early && !done)
  }

  /** What CloseFinished reports. */
  ghost predicate Closed(root: string, early: bool, env: Env, start: seq<Event>, fr: Frames, now: seq<Event>,
                         fr': Frames, sl: seq<Item>, next: Option<Item>, ret: int, done: bool, undef: bool) {
    && Ends(early, ret, done, undef)
    && (if ret != 0 || done || undef then Settled(root, env, start, fr, now, ret)
        else next.Some? && Entering(root, early, fr', sl, next) && Owes(root, env, start, fr, now, fr'))
  }

  lemma PendingInnermost(root: string, early: bool, fr: Frames, sl: seq<Item>, next: Option<Item>)
    requires Pending(root, early, fr, sl, next)
    ensures fr.Frame? && (next.None? ==> sl == [] && fr.pending == [])
    ensures next.Some? ==> 0 <= LastSlash(next.value.path)
    ensures next.Some? && LastSlash(next.value.path) == |fr.path| ==> Entering(root, early, fr, sl, next)
    ensures next.Some? && LastSlash(next.value.path) != |fr.path| ==> fr.pending == []
  {
    Innermost(root, early, fr, sl, next);
  }

  lemma ClosedNow(root: string, early: bool, env: Env, start: seq<Event>, fr: Frames, now: seq<Event>,
                  fr': Frames, sl: seq<Item>, next: Option<Item>, ret: int)
    requires next.Some? && Entering(root, early, fr', sl, next)
    requires ret != 0 ==> Settled(root, env, start, fr, now, ret)
    requires ret == 0 ==> Owes(root, env, start, fr, now, fr')
    ensures Closed(root, early, env, start, fr, now, fr', sl, next, ret, false, false)
  {
  }

  lemma OwesItself(root: string, env: Env, now: seq<Event>, fr: Frames)
    ensures Owes(root, env, now, fr, now, fr)
  {
  }

  lemma ClosingPath(root: string, early: bool, fr: Frames, sl: seq<Item>, next: Option<Item>, sb: string)
    requires Closing(root, early, fr, sl, next, sb)
    ensures fr.Frame? && fr.pending == [] && fr.path == sb
  {
  }

  lemma Leaves(root: string, es: seq<Entry>, env: Env, start: seq<Event>, dir: Item, fr: Frames,
               pushed: seq<Item>, sl: seq<Item>, next: Option<Item>, now: seq<Event>, fr': Frames, ret: int,
               done: bool, undef: bool)
    returns (fr'': Frames)
    requires root != [] && Listed(root, es, PostOrder, env, start, dir, fr, pushed)
    requires pushed == sl + (if next.Some? then [next.value] else []) && (next.None? ==> sl == [])
    requires Closed(root, Misordered(root, es, PostOrder), env, start, fr, now, fr', sl, next, ret, done, undef)
    ensures ret != 0 || done || undef ==>
              && Run(env, [], Calls(root, es, PostOrder)) == (now, ret)
              && (undef <==> Misordered(root, es, PostOrder) && ret == 0)
    ensures !(ret != 0 || done || undef) ==>
              next.Some? && Standing(root, es, PostOrder, env, now, next.value, fr'', sl)
  {
    fr'' := fr';
    if !(ret != 0 || done || undef) {
      fr'' := PostPopped(root, es, env, start, fr, pushed, now, fr', sl, next.value);
    }
  }

  // ----- the listing loop

  lemma ListSnoc(root: string, path: string, es: seq<Entry>, i: nat, mode: Mode)
    requires i < |es|
    ensures ListEvents(root, path, es[..i + 1], mode) ==
            ListEvents(root, path, es[..i], mode) + ListEvents(root, path, [es[i]], mode)
    ensures Subdirs(es[..i + 1]) == Subdirs(es[..i]) + Subdirs([es[i]])
  {
    var head := es[..i + 1];
    assert head[..|head| - 1] == es[..i];
    assert [es[i]][..0] == [];
  }

  lemma {:induction false} ListSplit(root: string, path: string, es: seq<Entry>, i: nat, mode: Mode)
    requires i <= |es|
    ensures ListEvents(root, path, es, mode) ==
            ListEvents(root, path, es[..i], mode) + ListEvents(root, path, es[i..], mode)
    decreases |es| - i
  {
    if i == |es| {
      assert es[..i] == es;
    } else {
      var init, e := es[..|es| - 1], es[|es| - 1];
      InitSlices(es, i);
      ListSplit(root, path, init, i, mode);
      var last := if e.Dir? then [] else [Visit(Child(path, e.name), After(Child(path, e.name), root), e.kind)];
      Assoc(ListEvents(root, path, es[..i], mode), ListEvents(root, path, init[i..], mode), last);
    }
  }

  lemma ListNone(root: string, path: string, mode: Mode, env: Env, start: seq<Event>)
    ensures Run(env, start, ListEvents(root, path, [], mode)) == (start, 0)
    ensures Items(path, Subdirs([])) == []
  {
  }

  /** One round of the listing loop. */
  lemma ListStep(root: string, path: string, es: seq<Entry>, i: nat, mode: Mode, env: Env,
                 start: seq<Event>, before: seq<Event>, after: seq<Event>, ret: int)
    requires i < |es|
    requires Run(env, start, ListEvents(root, path, es[..i], mode)) == (before, 0)
    requires Run(env, before, ListEvents(root, path, [es[i]], mode)) == (after, ret)
    ensures Run(env, start, ListEvents(root, path, es[..i + 1], mode)) == (after, ret)
    ensures ret != 0 ==> Run(env, start, ListEvents(root, path, es, mode)) == (after, ret)
    ensures Items(path, Subdirs(es[..i + 1])) == Items(path, Subdirs(es[..i])) + Items(path, Subdirs([es[i]]))
  {
    ListSnoc(root, path, es, i, mode);
    RunConcat(env, start, ListEvents(root, path, es[..i], mode), ListEvents(root, path, [es[i]], mode));
    ListSplit(root, path, es, i + 1, mode);
    RunConcat(env, start, ListEvents(root, path, es[..i + 1], mode), ListEvents(root, path, es[i + 1..], mode));
    ItemsConcat(path, Subdirs(es[..i]), Subdirs([es[i]]));
  }

  lemma BuiltPath(path: string, name: string)
    requires path != []
    ensures Child(path, name) == (if path[|path| - 1] != '/' then path + "/" else path) + name
    ensures |path| <= |Child(path, name)| && Child(path, name)[..|path|] == path
  {
  }

  /** What one entry of a listing stands for. */
  lemma OneEntry(root: string, path: string, e: Entry, mode: Mode, env: Env, start: seq<Event>)
    ensures Items(path, Subdirs([e])) == if e.Dir? then [Item(Child(path, e.name), e.entries)] else []
    ensures var abs := Child(path, e.name);
            Run(env, start, ListEvents(root, path, [e], mode)) ==
            if mode == DirsOnly || e.Dir? then (start, 0)
            else
              var now := start + [Visit(abs, After(abs, root), e.kind)];
              (now, Reply(env, now))
  {
    hide Reply;
    assert [e][..0] == [];
    if e.Dir? {
      assert Subdirs([e]) == [Sub(e.name, e.entries)];
    } else if mode != DirsOnly {
      var visit := Visit(Child(path, e.name), After(Child(path, e.name), root), e.kind);
      assert ListEvents(root, path, [e], mode) == [visit] + [];
      RunOne(env, start, visit, []);
    }
  }

  class Walker {
    const root: string
    const mode: Mode
    const env: Env

    var sb: string       // ctx.sb: the path under construction
    var baslen: nat      // ctx.sb.baslen
    var sl: seq<Item>    // ctx.sl
    var trace: seq<Event>

    constructor (root: string, mode: Mode, env: Env)
      ensures this.root == root && this.mode == mode && this.env == env
      ensures sl == [] && trace == []
    {
      this.root, this.mode, this.env := root, mode, env;
      sb, baslen, sl, trace := [], 0, [], [];
    }

    method Emit(e: Event) returns (ret: int)
      modifies `trace
      ensures trace == old(trace) + [e] && ret == Reply(env, trace)
    {
      trace := trace + [e];
      if e.Visit? && e.kind == Unknown {
        ret := -1;
      } else {
        ret := env(trace);
        if e.Open? && ret != 0 {
          ret := -1;
        }
      }
    }

    /** dispatch_directory() */
    method DispatchDirectory() returns (ret: int)
      modifies `trace
      ensures trace == old(trace) + [VisitDir(sb, After(sb, root))] && ret == Reply(env, trace)
    {
      ret := Emit(VisitDir(sb, After(sb, root)));
    }

    /** dispatch_file() */
    method DispatchFile(e: Entry) returns (ret: int)
      requires sb != [] && |sb| == baslen
      modifies `sb, `sl, `trace
      ensures baslen <= |sb| && sb[..baslen] == old(sb)
      ensures Run(env, old(trace), ListEvents(root, old(sb), [e], mode)) == (trace, ret)
      ensures sl == old(sl) + Items(old(sb), Subdirs([e]))
    {
      hide *;
      ghost var path := sb;
      OneEntry(root, path, e, mode, env, trace);
      BuiltPath(path, e.name);
      if mode == DirsOnly && !e.Dir? {
        return 0;
      }
      if sb[|sb| - 1] != '/' {
        sb := sb + "/";
      }
      sb := sb + e.name;
      match e
      case Dir(name, es) =>
        sl := sl + [Item(sb, es)];
        ret := 0;
      case File(_, kind) =>
        ret := Emit(Visit(sb, After(sb, root), kind));
    }

    /** The readdir() loop. */
    method LoopEntries(es: seq<Entry>) returns (ret: int)
      requires sb != [] && |sb| == baslen
      modifies `sb, `sl, `trace
      ensures |sb| >= baslen && sb[..baslen] == old(sb)
      ensures Run(env, old(trace), ListEvents(root, old(sb), es, mode)) == (trace, ret)
      ensures ret == 0 ==> sl == old(sl) + Items(old(sb), Subdirs(es))
    {
      hide *;
      ghost var path, start, stack := sb, trace, sl;
      ret := 0;
      var i := 0;
      assert es[..0] == [];
      ListNone(root, path, mode, env, start);
      while i < |es|
        invariant 0 <= i <= |es| && ret == 0
        invariant sb == path
        invariant Run(env, start, ListEvents(root, path, es[..i], mode)) == (trace, 0)
        invariant sl == stack + Items(path, Subdirs(es[..i]))
      {
        ghost var before := trace;
        ret := DispatchFile(es[i]);
        ListStep(root, path, es, i, mode, env, start, before, trace, ret);
        Assoc(stack, Items(path, Subdirs(es[..i])), Items(path, Subdirs([es[i]])));
        if ret != 0 {
          return;
        }
        sb := sb[..baslen];
        i := i + 1;
      }
      assert es[..i] == es;
    }

    /** fileiter_loop_dir(): call back for the files, push the subdirectories. */
    method LoopDir(es: seq<Entry>) returns (ret: int)
      requires sb != [] && |sb| == baslen
      modifies `sb, `sl, `trace
      ensures |sb| >= baslen && sb[..baslen] == old(sb)
      ensures Run(env, old(trace), [Open(old(sb))] + ListEvents(root, old(sb), es, mode)) == (trace, ret)
      ensures ret == 0 ==> sl == old(sl) + Items(old(sb), Subdirs(es))
    {
      RunOne(env, trace, Open(sb), ListEvents(root, sb, es, mode));
      ret := Emit(Open(sb));
      if ret == 0 {
        ret := LoopEntries(es);
      }
    }

    /** The head of the outer loop: visit if the mode lists directories, then
        list `dir`. */
    method Enter(dir: Item) returns (ret: int)
      requires dir.path != []
      modifies this
      ensures baslen <= |sb| && sb[..baslen] == dir.path
      ensures Run(env, old(trace), EnterEvents(root, dir, mode)) == (trace, ret)
      ensures ret == 0 ==> sl == old(sl) + Items(dir.path, Subdirs(dir.entries))
    {
      sb, baslen := dir.path, |dir.path|;
      ghost var listing := [Open(sb)] + ListEvents(root, sb, dir.entries, mode);
      if mode == PreOrder || mode == DirsOnly {
        RunOne(env, trace, VisitDir(sb, After(sb, root)), listing);
        ret := DispatchDirectory();
        if ret != 0 {
          return;
        }
      } else {
        assert [] + listing == listing;
      }
      ret := LoopDir(dir.entries);
    }

    /** strlist_pop2() */
    method Pop() returns (next: Option<Item>)
      modifies `sl
      ensures next.None? ==> old(sl) == sl == []
      ensures next.Some? ==> old(sl) == sl + [next.value]
      ensures Pathed(old(sl)) ==> Pathed(sl) && (next.Some? ==> next.value.path != [])
    {
      next := None;
      if sl != [] {
        next := Some(sl[|sl| - 1]);
        sl := sl[..|sl| - 1];
      }
    }

    /** The inner loop, also entered at `iter_done` when no path is left: call
        back for finished directories, up to the parent of the next one.
        `undef` reports that the C code would use a null pointer. */
    method FinishBranch(ndrlen: int, more: bool, ghost next: Option<Item>, ghost early: bool, ghost fr: Frames)
      returns (ret: int, done: bool, undef: bool, ghost fr': Frames)
      requires Closing(root, early, fr, sl, next, sb)
      requires more <==> next.Some?
      requires more ==> ndrlen == LastSlash(next.value.path)
      modifies `sb, `trace
      ensures Closed(root, early, env, old(trace), fr, trace, fr', sl, next, ret, done, undef)
    {
      hide Chain, Pending, Closing, Entering, Owes, Settled, Run, Reply, RestAfter, StackOf;
      fr', ret, done, undef := fr, 0, false, false;
      OwesItself(root, env, trace, fr);
      while true
        invariant !undef && !done
        invariant Closing(root, early, fr', sl, next, sb)
        invariant Owes(root, env, old(trace), fr, trace, fr')
        decreases |sb|
      {
        FinishFrame(root, early, fr', sl, next, sb);
        ClosingPath(root, early, fr', sl, next, sb);
        VisitFrame(root, env, old(trace), fr, trace, fr');
        fr' := fr'.up;
        ret := DispatchDirectory();
        if ret != 0 {
          return;
        }
        if |sb| == |root| {
          done := true;
          return;
        }
        var sep := LastSlash(sb);
        if sep < 0 {
          undef := true;
          return;
        }
        sb := sb[..sep];
        if |sb| == ndrlen && more {
          return;
        }
      }
    }

    /** The PostOrder part of the outer loop, after the next path was popped. */
    method CloseFinished(next: Option<Item>, ghost early: bool, ghost fr: Frames)
      returns (ret: int, done: bool, undef: bool, ghost fr': Frames)
      requires baslen <= |sb|
      requires Pending(root, early, fr, sl, next) && sb[..baslen] == fr.path
      modifies `sb, `trace
      ensures Closed(root, early, env, old(trace), fr, trace, fr', sl, next, ret, done, undef)
    {
      hide *;
      OwesItself(root, env, trace, fr);
      PendingInnermost(root, early, fr, sl, next);
      fr', ret, done, undef := fr, 0, false, false;
      sb := sb[..baslen];
      if next.None? {
        LastClosing(root, early, fr, sl);
        ret, done, undef, fr' := FinishBranch(|root|, false, next, early, fr);
        return;
      }
      var ndrlen := LastSlash(next.value.path);
      if |sb| == ndrlen {
        ClosedNow(root, early, env, trace, fr, trace, fr, sl, next, 0);
        return;
      }
      SameParent(root, early, fr, sl, next.value);
      var pdrlen := LastSlash(sb);
      assert ndrlen >= 0 && pdrlen >= 0;
      if pdrlen == ndrlen {
        VisitFrame(root, env, trace, fr, trace, fr);
        fr' := fr.up;
        ret := DispatchDirectory();
        ClosedNow(root, early, env, old(trace), fr, trace, fr', sl, next, ret);
        return;
      }
      ret, done, undef, fr' := FinishBranch(ndrlen, true, next, early, fr);
    }

    /** fileiter() */
    method Walk(es: seq<Entry>) returns (ret: int, undef: bool)
      requires root != [] && sl == [] && trace == []
      requires Named(es)
      modifies this
      ensures Run(env, [], Calls(root, es, mode)) == (trace, ret)
      ensures undef <==> Misordered(root, es, mode) && ret == 0
    {
      hide *;
      ghost var fr := Nil;
      var dir := Item(root, es);
      undef := false;
      Starts(root, es, mode, env);
      while true
        invariant !undef && dir.path != [] && Pathed(sl)
        invariant Standing(root, es, mode, env, trace, dir, fr, sl)
        decreases StackSize(sl + [dir])
      {
        ghost var start, rest := trace, sl;
        ret := Enter(dir);
        StackRound(rest, dir);
        fr := Enters(root, es, mode, env, start, dir, fr, rest, trace, ret);
        if ret != 0 {
          return;
        }
        ghost var pushed, listed := sl, trace;
        var next := Pop();
        assert pushed == sl + if next.Some? then [next.value] else [];
        if mode != PostOrder {
          PreLeaves(root, es, mode, env, trace, dir, fr, pushed, sl, next);
          if next.None? {
            return;
          }
          dir := next.value;
          continue;
        }
        ListedPending(root, es, env, trace, dir, fr, pushed, sl, next);
        var done;
        ghost var fr';
        ret, done, undef, fr' := CloseFinished(next, Misordered(root, es, mode), fr);
        fr := Leaves(root, es, env, listed, dir, fr, pushed, sl, next, trace, fr', ret, done, undef);
        if ret != 0 || done || undef {
          return;
        }
        dir := next.value;
      }
    }
  }
}
