/** Creating a directory with its parents: mkdirp2() and mkfdirp2() of
    platfree/mkdir.c, which cut the name in place at each '/' and put the '/'
    back. */
module Mkdir {
  import opened CString
  import opened FileSystem
  import opened FileTree

  /** Error of mkdir(): nothing, EEXIST, or anything else. */
  datatype Errno = Ok | Exist | Other

  /** The directory a path is looked up in exists. */
  predicate ParentOk(fs: Fs, p: string) {
    var k := LastSlash(p);
    k <= 0 || (p[..k] in fs && fs[p[..k]] == IsDir)
  }

  /** mkdir(); `fault` is a failure for reasons of its own. */
  function MkdirCall(fs: Fs, d: string, fault: bool): (r: (Fs, Errno))
  {
    var p := Real(d);
    if fault || d == "" || !ParentOk(fs, p) then (fs, Other)
    else if p == "/" || p in fs then (fs, Exist)
    else (fs[p := IsDir], Ok)
  }

  /** First '/' at or after `from`, or the length of the name. */
  function NextSlash(name: string, from: nat): (k: nat)
    requires from <= |name|
    ensures from <= k <= |name|
    ensures k < |name| ==> name[k] == '/'
    ensures forall i :: from <= i < k ==> name[i] != '/'
    decreases |name| - from
  {
    if from == |name| || name[from] == '/' then from else NextSlash(name, from + 1)
  }

  /** Where the first '/' is looked for: past the leading one of an absolute
      name. */
  function First(name: string, start: nat): (r: nat)
    requires start <= |name|
    ensures r <= |name|
  {
    if name != "" && name[0] == '/' && NextSlash(name, start) < |name| then NextSlash(name, start) + 1 else start
  }

  /** The names handed to mkdir(), in order. */
  function Steps(name: string, from: nat): seq<string>
    requires from <= |name|
    decreases |name| - from
  {
    var k := NextSlash(name, from);
    if k == |name| then [name] else [name[..k]] + Steps(name, k + 1)
  }

  /** Calling mkdir() on each, going on after EEXIST only.  `n` numbers the
      calls; the result says how many were made when one failed. */
  function MkAll(fs: Fs, steps: seq<string>, faults: nat -> bool, n: nat): (Fs, bool)
    decreases |steps|
  {
    if steps == [] then (fs, true)
    else
      var (fs', err) := MkdirCall(fs, steps[0], faults(n));
      if err == Other then (fs', false) else MkAll(fs', steps[1..], faults, n + 1)
  }

  /** The buffer holds this C string from its start. */
  predicate Holds(buf: array<char>, name: string)
    reads buf
  {
    |name| < buf.Length && buf[..|name|] == name && buf[|name|] == NUL && NUL !in name
  }

  lemma HoldsAt(buf: array<char>, name: string, i: nat)
    requires Holds(buf, name) && i <= |name|
    ensures buf[i] == NUL <==> i == |name|
    ensures i < |name| ==> buf[i] == name[i]
  {
    if i < |name| {
      assert buf[..|name|][i] == name[i];
      assert name[i] in name;
    }
  }

  lemma HoldsName(buf: array<char>, name: string)
    requires |name| < buf.Length && NUL !in name && buf[|name|] == NUL
    requires forall i :: 0 <= i < |name| ==> buf[i] == name[i]
    ensures Holds(buf, name)
  {
    assert buf[..|name|] == name;
  }

  /** strchr(&buf[from], '/') within the C string `name`. */
  method FindSlash(buf: array<char>, ghost name: string, from: nat) returns (k: nat)
    requires Holds(buf, name) && from <= |name|
    ensures k == NextSlash(name, from)
  {
    k := from;
    HoldsAt(buf, name, k);
    while buf[k] != NUL && buf[k] != '/'
      invariant from <= k <= |name|
      invariant buf[k] == NUL <==> k == |name|
      invariant k < |name| ==> buf[k] == name[k]
      invariant NextSlash(name, from) == NextSlash(name, k)
      decreases |name| - k
    {
      k := k + 1;
      HoldsAt(buf, name, k);
    }
  }

  /** One round of mkdirp2(): cut the name at `k`, make that directory, and put
      the '/' back unless the call failed. */
  method CutAndMake(buf: array<char>, ghost name: string, k: nat, fs: Fs, fault: bool)
    returns (fs': Fs, err: Errno, last: bool)
    requires Holds(buf, name) && k <= |name|
    requires k < |name| ==> name[k] == '/'
    modifies buf
    ensures (fs', err) == MkdirCall(fs, name[..k], fault)
    ensures last <==> k == |name|
    ensures err != Other ==> buf[..] == old(buf[..])
    ensures Holds(buf, if err == Other then name[..k] else name)
    ensures forall i :: 0 <= i < buf.Length && i != k ==> buf[i] == old(buf[i])
  {
    HoldsAt(buf, name, k);
    last := buf[k] == NUL;
    buf[k] := NUL;
    assert buf[..k] == name[..k];
    var call := MkdirCall(fs, buf[..k], fault);
    fs', err := call.0, call.1;
    if err == Other {
      assert NUL !in name[..k];
      return;
    }
    if !last {
      buf[k] := '/';
    }
    assert buf[..] == old(buf[..]);
    assert buf[..|name|] == name;
  }

  lemma MkStep(fs: Fs, name: string, next: nat, faults: nat -> bool, n: nat)
    requires next <= |name|
    ensures var k := NextSlash(name, next);
            var (fs', err) := MkdirCall(fs, name[..k], faults(n));
            MkAll(fs, Steps(name, next), faults, n) ==
              if err == Other then (fs', false)
              else if k == |name| then (fs', true)
              else MkAll(fs', Steps(name, k + 1), faults, n + 1)
  {
    hide MkdirCall, NextSlash;
    var k := NextSlash(name, next);
    assert name[..|name|] == name;
    assert k < |name| ==> ([name[..k]] + Steps(name, k + 1))[1..] == Steps(name, k + 1);
  }

  /** The calls before the `i`th went well, and that one gave another error than
      EEXIST. */
  ghost predicate FailsAt(fs: Fs, steps: seq<string>, faults: nat -> bool, i: nat) {
    && i < |steps|
    && var (before, ok) := MkAll(fs, steps[..i], faults, 0);
       ok && MkdirCall(before, steps[i], faults(i)).1 == Other
  }

  lemma {:induction false} MkSnoc(fs: Fs, steps: seq<string>, s: string, faults: nat -> bool, n: nat)
    requires MkAll(fs, steps, faults, n).1
    ensures var (fs', err) := MkdirCall(MkAll(fs, steps, faults, n).0, s, faults(n + |steps|));
            MkAll(fs, steps + [s], faults, n) == (fs', err != Other)
    decreases |steps|
  {
    hide MkdirCall;
    if steps == [] {
      assert [s][1..] == [];
    } else {
      assert (steps + [s])[1..] == steps[1..] + [s];
      MkSnoc(MkdirCall(fs, steps[0], faults(n)).0, steps[1..], s, faults, n + 1);
    }
  }

  /** After `n` steps the next one is that up to the next '/'. */
  lemma NextStep(steps: seq<string>, n: nat, name: string, next: nat)
    requires n <= |steps| && next <= |name| && steps[n..] == Steps(name, next)
    ensures n < |steps| && steps[n] == name[..NextSlash(name, next)] && steps[..n + 1] == steps[..n] + [steps[n]]
    ensures NextSlash(name, next) < |name| ==> steps[n + 1..] == Steps(name, NextSlash(name, next) + 1)
  {
    assert steps[n..][0] == steps[n] && name[..|name|] == name;
    assert NextSlash(name, next) < |name| ==> steps[n..][1..] == Steps(name, NextSlash(name, next) + 1);
    assert steps[n..][1..] == steps[n + 1..];
  }

  /** The first `n` steps are made, and the next is looked for from `next`. */
  ghost predicate Reached(fs: Fs, steps: seq<string>, faults: nat -> bool, n: nat, now: Fs, name: string, next: nat)
    requires next <= |name|
  {
    && n <= |steps| && steps[n..] == Steps(name, next)
    && MkAll(fs, steps[..n], faults, 0) == (now, true)
    && MkAll(fs, steps, faults, 0) == MkAll(now, Steps(name, next), faults, n)
  }

  lemma ReachedFirst(fs: Fs, faults: nat -> bool, name: string, next: nat)
    requires next <= |name|
    ensures Reached(fs, Steps(name, next), faults, 0, fs, name, next)
  {
    var steps := Steps(name, next);
    assert steps[0..] == steps && steps[..0] == [];
    hide Steps;
  }

  lemma ReachedNext(fs: Fs, steps: seq<string>, faults: nat -> bool, n: nat, now: Fs, name: string, next: nat)
    requires next <= |name| && Reached(fs, steps, faults, n, now, name, next)
    ensures var k := NextSlash(name, next);
            var (after, err) := MkdirCall(now, name[..k], faults(n));
            if err == Other then
              FailsAt(fs, steps, faults, n) && steps[n] == name[..k] && MkAll(fs, steps, faults, 0) == (after, false)
            else if k == |name| then MkAll(fs, steps, faults, 0) == (after, true)
            else Reached(fs, steps, faults, n + 1, after, name, k + 1)
  {
    hide MkAll, Steps, MkdirCall, NextSlash;
    NextStep(steps, n, name, next);
    MkStep(now, name, next, faults, n);
    MkSnoc(fs, steps[..n], steps[n], faults, 0);
  }

  /** The buffer holds the name of the directory that could not be made. */
  ghost predicate CutAtFailure(buf: array<char>, fs: Fs, steps: seq<string>, faults: nat -> bool)
    reads buf
  {
    exists i: nat :: FailsAt(fs, steps, faults, i) && Holds(buf, steps[i])
  }

  /** mkdirp2(): on success the name is as it was; after a failure it is cut at
      the directory that could not be made. */
  method MkdirP(buf: array<char>, ghost name: string, start: nat, fs: Fs, faults: nat -> bool)
    returns (ok: bool, fs': Fs)
    requires Holds(buf, name) && start <= |name|
    modifies buf
    ensures (fs', ok) == MkAll(fs, Steps(name, First(name, start)), faults, 0)
    ensures ok ==> buf[..] == old(buf[..])
    ensures !ok ==> CutAtFailure(buf, fs, Steps(name, First(name, start)), faults)
  {
    hide MkAll, Steps, MkdirCall, FailsAt, Reached;
    ghost var steps := Steps(name, First(name, start));
    var next := start;
    HoldsAt(buf, name, 0);
    if buf[0] == '/' {
      var p := FindSlash(buf, name, start);
      HoldsAt(buf, name, p);
      if buf[p] != NUL {
        next := p + 1;
      }
    }
    fs' := fs;
    var n := 0;
    ReachedFirst(fs, faults, name, next);
    while true
      invariant next <= |name| && buf[..] == old(buf[..])
      invariant Holds(buf, name)
      invariant Reached(fs, steps, faults, n, fs', name, next)
      decreases |name| - next
    {
      var k := FindSlash(buf, name, next);
      ReachedNext(fs, steps, faults, n, fs', name, next);
      var err, last;
      fs', err, last := CutAndMake(buf, name, k, fs', faults(n));
      if err == Other || last {
        ok := err != Other;
        return;
      }
      next, n := k + 1, n + 1;
    }
  }

  /** strrchr(buf, '/'), with -1 for the null pointer. */
  method RFindSlash(buf: array<char>, ghost name: string) returns (p: int)
    requires Holds(buf, name)
    ensures p == LastSlash(name)
  {
    var i := 0;
    p := -1;
    HoldsAt(buf, name, 0);
    while buf[i] != NUL
      invariant 0 <= i <= |name|
      invariant buf[i] == NUL <==> i == |name|
      invariant i < |name| ==> buf[i] == name[i]
      invariant p == LastSlash(name[..i])
      decreases |name| - i
    {
      assert name[..i + 1][..i] == name[..i];
      if buf[i] == '/' {
        p := i;
      }
      i := i + 1;
      HoldsAt(buf, name, i);
    }
    assert name[..i] == name;
  }

  /** mkfdirp2(): the same for the parent of the named file.  `undef` reports
      that the C code would write through a null pointer. */
  method MkFileDirP(buf: array<char>, ghost name: string, fs: Fs, faults: nat -> bool)
    returns (ok: bool, fs': Fs, undef: bool)
    requires Holds(buf, name)
    modifies buf
    ensures undef <==> LastSlash(name) < 0
    ensures undef ==> fs' == fs && buf[..] == old(buf[..])
    ensures !undef ==>
              var parent := name[..LastSlash(name)];
              && (fs', ok) == MkAll(fs, Steps(parent, First(parent, 0)), faults, 0)
              && (!ok ==> CutAtFailure(buf, fs, Steps(parent, First(parent, 0)), faults))
    ensures !undef && ok ==> buf[..] == old(buf[..])
  {
    var p := RFindSlash(buf, name);
    undef, fs', ok := p < 0, fs, false;
    if undef {
      return;
    }
    buf[p] := NUL;
    assert buf[..p] == name[..p];
    ok, fs' := MkdirP(buf, name[..p], 0, fs, faults);
    if ok {
      buf[p] := '/';
      assert buf[..] == old(buf[..]);
    }
  }

  // ----- what the calls achieve

  /** `p` is there itself. */
  predicate IsThere(fs: Fs, p: string) {
    p == "/" || p in fs
  }

  /** One of the names stands for `q`. */
  ghost predicate Names(steps: seq<string>, q: string) {
    exists s :: s in steps && Real(s) == q
  }

  lemma CallAdds(fs: Fs, d: string, fault: bool)
    ensures var (now, err) := MkdirCall(fs, d, fault);
            && (forall q :: q in fs ==> q in now && now[q] == fs[q])
            && (forall q :: q in now && q !in fs ==> q == Real(d) && q != "" && q != "/" && now[q] == IsDir)
            && (err != Other ==> Real(d) == "/" || Real(d) in now)
  {
  }

  lemma NoNames()
    ensures forall q :: !Names([], q)
  {
  }

  lemma NamesMore(s: string, steps: seq<string>)
    ensures forall q :: Names([s] + steps, q) <==> Real(s) == q || Names(steps, q)
  {
    hide Real;
    forall q | Real(s) == q || Names(steps, q) ensures Names([s] + steps, q) {
      if Names(steps, q) {
        var t :| t in steps && Real(t) == q;
        assert t in [s] + steps;
      } else {
        assert s in [s] + steps;
      }
    }
  }

  /** mkdir() only ever adds directories, and only the named ones; on success
      every name exists. */
  lemma {:induction false} MkAllSound(fs: Fs, steps: seq<string>, faults: nat -> bool, n: nat)
    ensures var (fs', ok) := MkAll(fs, steps, faults, n);
            && (forall q :: q in fs ==> q in fs' && fs'[q] == fs[q])
            && (forall q :: q in fs' && q !in fs ==> Names(steps, q) && q != "" && q != "/" && fs'[q] == IsDir)
            && (ok ==> forall q :: Names(steps, q) ==> q == "/" || q in fs')
    decreases |steps|
  {
    hide Names, MkdirCall, Real, ParentOk;
    if steps == [] {
      NoNames();
    } else {
      var (now, err) := MkdirCall(fs, steps[0], faults(n));
      assert steps == [steps[0]] + steps[1..];
      NamesMore(steps[0], steps[1..]);
      CallAdds(fs, steps[0], faults(n));
      MkAllSound(now, steps[1..], faults, n + 1);
    }
  }

  /** Whatever is on the way to `p` is a directory. */
  ghost predicate Cleared(fs: Fs, p: string) {
    forall k :: 0 < k < |p| && p[k] == '/' && p[..k] in fs ==> fs[p[..k]] == IsDir
  }

  /** All directories on the way to `p` are there. */
  ghost predicate Made(fs: Fs, p: string) {
    forall k :: 0 < k < |p| && p[k] == '/' ==> p[..k] in fs && fs[p[..k]] == IsDir
  }

  lemma MadeParent(fs: Fs, p: string)
    requires Made(fs, p)
    ensures ParentOk(fs, p) && Cleared(fs, p)
  {
  }

  /** One component further. */
  lemma MadeChild(fs: Fs, p: string, c: string)
    requires p != "" && (EndsWithSlash(p) ==> p == "/") && IsFileName(c) && Made(fs, p) && IsThere(fs, p)
    ensures ParentOk(fs, Child(p, c)) <==> p == "/" || fs[p] == IsDir
    ensures p == "/" || fs[p] == IsDir ==> Made(fs, Child(p, c))
    ensures Child(p, c) != "/"
  {
    var dir := if p == "/" then "" else p;
    var d := Child(p, c);
    assert d == dir + "/" + c;
    LastSlashOfChild(dir, c);
    assert d[..|dir|] == dir;
    if p == "/" || fs[p] == IsDir {
      forall k | 0 < k < |d| && d[k] == '/' ensures d[..k] in fs && fs[d[..k]] == IsDir {
        assert k <= |dir|;
        assert k < |dir| ==> d[..k] == p[..k] && d[k] == p[k];
      }
    }
  }

  /** The component that starts at `from`, up to the next '/'. */
  function Component(name: string, from: nat): (c: string)
    requires from <= |name|
    ensures '/' !in c && |c| == NextSlash(name, from) - from
    ensures name[..NextSlash(name, from)] == name[..from] + c
  {
    var c := name[from..NextSlash(name, from)];
    assert forall i :: 0 <= i < |c| ==> c[i] == name[from + i];
    c
  }

  /** The path of the name after that component. */
  lemma NextReal(name: string, from: nat)
    requires from <= |name| && (from > 0 ==> name[from - 1] == '/')
    ensures var k, c := NextSlash(name, from), Component(name, from);
            Real(name[..k]) == if k == from then Real(name[..from])
                               else if from == 0 then c else Child(Real(name[..from]), c)
  {
    var p, c := name[..from], Component(name, from);
    hide Component, NextSlash, Real;
    if c == "" {
      assert p + c == p;
    } else if from == 0 {
      assert p + c == c;
      RealName(c);
    } else {
      assert p[|p| - 1] == name[from - 1];
      RealChild(p, c);
    }
  }

  /** The '/' behind it makes no difference. */
  lemma PastSlash(name: string, k: nat)
    requires 0 < k < |name| && name[k] == '/'
    ensures Real(name[..k + 1]) == Real(name[..k])
  {
    hide Real;
    assert name[..k + 1] == name[..k] + "/";
    RealSlash(name[..k]);
  }

  lemma CallThere(fs: Fs, d: string)
    requires d != "" && Made(fs, Real(d)) && Real(d) in fs
    ensures MkdirCall(fs, d, false) == (fs, Exist)
  {
    MadeParent(fs, Real(d));
  }

  /** Nothing is made below something that is no directory. */
  lemma CallRefused(fs: Fs, d: string, here: string, c: string)
    requires here != "" && !EndsWithSlash(here) && Made(fs, here) && here in fs && fs[here] != IsDir
    requires IsFileName(c) && Real(d) == Child(here, c)
    ensures MkdirCall(fs, d, false) == (fs, Other) && Real(d) != "/"
  {
    MadeChild(fs, here, c);
  }

  lemma NotRoot(c: string, p: string)
    requires c != "" && '/' !in c
    ensures IsFileName(c)
    ensures p != "" && Real(p) != "/" ==> Real(p) != "" && !EndsWithSlash(Real(p))
  {
  }

  lemma WithinItself(p: string)
    ensures Within(p, p)
  {
  }

  lemma ChildApart(path: string, c: string, p: string)
    requires !EndsWithSlash(path) && Within(Child(path, c), p)
    ensures Within(path, p) && p != path
  {
    assert path + "/" <= Child(path, c) <= p;
  }

  /** If what is there before the end of the name is no directory, the calls
      succeed if and only if nothing but slashes follows. */
  lemma {:induction false} Blocked(fs: Fs, name: string, from: nat, faults: nat -> bool, n: nat)
    requires 0 < from <= |name| && name[from - 1] == '/' && forall m :: !faults(m)
    requires var here := Real(name[..from]);
             Made(fs, here) && here != "/" && here in fs && fs[here] != IsDir
    ensures var (fs', ok) := MkAll(fs, Steps(name, from), faults, n);
            (ok <==> Real(name) == Real(name[..from])) && (ok ==> fs' == fs)
    ensures Within(Real(name[..from]), Real(name))
    decreases |name| - from
  {
    hide *;
    var k, here, c := NextSlash(name, from), Real(name[..from]), Component(name, from);
    MkStep(fs, name, from, faults, n);
    NextReal(name, from);
    WithinItself(here);
    if k == from {
      CallThere(fs, name[..k]);
      if k < |name| {
        PastSlash(name, k);
        Blocked(fs, name, k + 1, faults, n + 1);
      } else {
        assert name[..k] == name;
      }
    } else {
      NotRoot(c, name[..from]);
      CallRefused(fs, name[..k], here, c);
      RealPrefix(name, k);
      ChildApart(here, c, Real(name));
    }
  }

  lemma ClearedMore(fs: Fs, d: string, p: string)
    requires d !in fs
    ensures Cleared(fs[d := IsDir], p) <==> Cleared(fs, p)
  {
  }

  lemma MadeMore(fs: Fs, d: string, p: string)
    requires d !in fs && Made(fs, p)
    ensures Made(fs[d := IsDir], p)
  {
  }

  /** One call behind directories that are all there. */
  lemma CallMakes(fs: Fs, d: string)
    requires d != "" && Made(fs, Real(d))
    ensures var (now, err) := MkdirCall(fs, d, false);
            && err != Other && now == (if IsThere(fs, Real(d)) then fs else fs[Real(d) := IsDir])
            && Made(now, Real(d)) && IsThere(now, Real(d))
            && forall p :: Cleared(now, p) <==> Cleared(fs, p)
  {
    hide Made, Cleared, Real;
    MadeParent(fs, Real(d));
    if !IsThere(fs, Real(d)) {
      MadeMore(fs, Real(d), Real(d));
      forall p ensures Cleared(fs[Real(d) := IsDir], p) <==> Cleared(fs, p) {
        ClearedMore(fs, Real(d), p);
      }
    }
  }

  /** The calls have come to `from`: what is before it is there. */
  ghost predicate Along(fs: Fs, name: string, from: nat) {
    && name != "" && from <= |name| && (if from > 0 then name[from - 1] == '/' else name[0] != '/')
    && Made(fs, Real(name[..from])) && (from > 0 ==> IsThere(fs, Real(name[..from])))
  }

  lemma AlongIs(fs: Fs, name: string, from: nat)
    requires Along(fs, name, from)
    ensures from <= |name|
    ensures from > 0 ==> name[from - 1] == '/' && Made(fs, Real(name[..from])) && Real(name[..from]) != ""
    ensures from > 0 ==> IsThere(fs, Real(name[..from]))
    ensures from > 0 && Real(name[..from]) != "/" ==> Real(name[..from]) in fs
    ensures from == 0 ==> name != "" && name[0] != '/'
  {
  }

  lemma PathThere(fs: Fs, p: string)
    requires IsThere(fs, p)
    ensures p != "/" ==> p in fs
  {
  }

  lemma AlongNext(fs: Fs, name: string, k: nat)
    requires 0 < k < |name| && name[k] == '/' && Real(name[..k + 1]) == Real(name[..k])
    requires Made(fs, Real(name[..k])) && IsThere(fs, Real(name[..k]))
    ensures Along(fs, name, k + 1)
  {
  }

  lemma SameEnd(fs: Fs, now: Fs, d: string, p: string)
    requires now == if IsThere(fs, d) then fs else fs[d := IsDir]
    ensures (p in now ==> now[p] == IsDir) <==> (p in fs ==> fs[p] == IsDir)
  {
  }

  lemma BlockedCleared(fs: Fs, here: string, p: string)
    requires here != "" && here in fs && fs[here] != IsDir && Made(fs, here)
    requires Within(here, p)
    ensures Cleared(fs, p) <==> p == here
  {
    if p != here {
      assert p[..|here|] == here;
    }
  }

  lemma MadePlain(fs: Fs, c: string)
    requires '/' !in c
    ensures Made(fs, c)
  {
  }

  /** The directories on the way to the next name are there. */
  lemma ReadyFor(fs: Fs, name: string, from: nat)
    requires Along(fs, name, from)
    requires from > 0 && Real(name[..from]) != "/" ==> fs[Real(name[..from])] == IsDir
    ensures var d := name[..NextSlash(name, from)]; d != "" && Made(fs, Real(d))
  {
    hide *;
    AlongIs(fs, name, from);
    NextReal(name, from);
    var c := Component(name, from);
    if from == 0 {
      MadePlain(fs, c);
    } else if c != "" {
      NotRoot(c, name[..from]);
      MadeChild(fs, Real(name[..from]), c);
    }
  }

  /** Where nothing fails of itself, the calls succeed if and only if whatever
      is on the way to the directory is one itself; the directory may be taken
      by something else. */
  lemma {:induction false} MkAllSucceeds(fs: Fs, name: string, from: nat, faults: nat -> bool, n: nat)
    requires Along(fs, name, from) && forall m :: !faults(m)
    ensures var (fs', ok) := MkAll(fs, Steps(name, from), faults, n);
            && (ok <==> Cleared(fs, Real(name)))
            && (ok ==> Made(fs', Real(name)) && IsThere(fs', Real(name)))
            && (ok && Real(name) != "/" ==>
                  (Real(name) in fs' && fs'[Real(name)] == IsDir <==> (Real(name) in fs ==> fs[Real(name)] == IsDir)))
    decreases |name| - from
  {
    hide *;
    AlongIs(fs, name, from);
    var k, here := NextSlash(name, from), Real(name[..from]);
    if from > 0 && here != "/" && fs[here] != IsDir {
      Blocked(fs, name, from, faults, n);
      BlockedCleared(fs, here, Real(name));
    } else {
      var d := name[..k];
      ReadyFor(fs, name, from);
      MkStep(fs, name, from, faults, n);
      CallMakes(fs, d);
      var now := MkdirCall(fs, d, faults(n)).0;
      SameEnd(fs, now, Real(d), Real(name));
      if k == |name| {
        assert d == name;
        MadeParent(now, Real(name));
        PathThere(now, Real(name));
      } else {
        PastSlash(name, k);
        AlongNext(now, name, k);
        MkAllSucceeds(now, name, k + 1, faults, n + 1);
      }
    }
  }
}
