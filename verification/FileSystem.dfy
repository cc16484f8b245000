/** A file system as a map from paths to nodes, and when it holds a tree. */
module FileSystem {
  import opened CString
  import opened FileTree

  datatype Node = IsDir | IsFile(kind: Kind)

  type Fs = map<string, Node>

  predicate HasDir(fs: Fs, p: string) {
    p in fs && fs[p] == IsDir
  }

  // ----- names of a file

  /** No '/' behind another. */
  function Squeezed(p: string): (q: string)
    ensures EndsWithSlash(q) <==> EndsWithSlash(p)
    ensures forall i :: 0 < i < |q| && q[i] == '/' ==> q[i - 1] != '/'
    ensures p != [] ==> q != []
  {
    if p == [] then []
    else
      var init, c := Squeezed(p[..|p| - 1]), p[|p| - 1];
      if c == '/' && EndsWithSlash(init) then init else init + [c]
  }

  /** The path a name stands for: empty components make no difference, nor does
      a '/' at the end, but for the root.  File systems are about these. */
  function Real(p: string): (q: string)
    ensures p != [] ==> q != []
    ensures EndsWithSlash(q) ==> q == "/" && EndsWithSlash(p)
  {
    var q := Squeezed(p);
    if |q| > 1 && EndsWithSlash(q) then q[..|q| - 1] else q
  }

  lemma {:induction false} SqueezedName(p: string, n: string)
    requires '/' !in n
    ensures Squeezed(p + n) == Squeezed(p) + n
  {
    if n == [] {
      assert p + n == p;
    } else {
      var init, c := n[..|n| - 1], n[|n| - 1];
      SqueezedName(p, init);
      assert (p + n)[..|p + n| - 1] == p + init;
      assert c in n;
    }
  }

  lemma SqueezedSlash(p: string)
    ensures Squeezed(p + "/") == if EndsWithSlash(p) then Squeezed(p) else Squeezed(p) + "/"
  {
    assert (p + "/")[..|p|] == p;
  }

  lemma RealSlash(p: string)
    requires p != ""
    ensures Real(p + "/") == Real(p)
  {
    SqueezedSlash(p);
  }

  lemma RealName(n: string)
    requires '/' !in n
    ensures Real(n) == n
  {
    SqueezedName("", n);
    assert "" + n == n;
    assert n != "" ==> n[|n| - 1] in n;
  }

  lemma RealWithName(base: string, n: string)
    requires IsFileName(n)
    ensures Real(base + n) == Squeezed(base) + n
  {
    SqueezedName(base, n);
    assert n[|n| - 1] in n;
  }

  lemma RealChild(p: string, n: string)
    requires p != "" && IsFileName(n)
    ensures Real(Child(p, n)) == Child(Real(p), n)
  {
    var s := Squeezed(p);
    if EndsWithSlash(p) {
      RealWithName(p, n);
      assert |s| > 1 ==> s[..|s| - 1] + "/" == s;
    } else {
      SqueezedSlash(p);
      RealWithName(p + "/", n);
    }
    hide Squeezed;
  }

  lemma {:induction false} SqueezedGrows(p: string, more: string)
    ensures Squeezed(p) <= Squeezed(p + more)
  {
    if more == [] {
      assert p + more == p;
    } else {
      SqueezedGrows(p, more[..|more| - 1]);
      assert (p + more)[..|p + more| - 1] == p + more[..|more| - 1];
    }
  }

  /** `q` is strictly below the directory `p`. */
  predicate Under(p: string, q: string) {
    p + "/" <= q
  }

  predicate Within(p: string, q: string) {
    q == p || Under(p, q)
  }

  lemma SlashedReal(a: string)
    requires a != "" && Real(a) != "/"
    ensures Squeezed(a + "/") == Real(a) + "/"
  {
    SqueezedSlash(a);
    hide Squeezed;
    var q := Squeezed(a);
    assert EndsWithSlash(q) ==> q[..|q| - 1] + "/" == q;
  }

  lemma StripWithin(r: string, t: string)
    requires r + "/" <= t
    ensures Within(r, if |t| > 1 && EndsWithSlash(t) then t[..|t| - 1] else t) || r == ""
  {
    if |t| == |r| + 1 {
      assert t[..|t| - 1] == r;
    } else {
      assert r + "/" <= t[..|t| - 1];
    }
  }

  lemma RealWithin(a: string, b: string)
    requires a != "" && Real(a) != "/" && Squeezed(a + "/") <= Squeezed(b)
    ensures Within(Real(a), Real(b))
  {
    SlashedReal(a);
    StripWithin(Real(a), Squeezed(b));
    hide Squeezed, Within;
  }

  /** A name that goes on behind a '/' stands for the same path or one below. */
  lemma RealPrefix(name: string, k: nat)
    requires 0 < k <= |name| && (k < |name| ==> name[k] == '/') && Real(name[..k]) != "/"
    ensures Within(Real(name[..k]), Real(name))
  {
    if k == |name| {
      assert name[..k] == name;
    } else {
      assert name[..k] + "/" == name[..k + 1] && name[..k + 1] + name[k + 1..] == name;
      SqueezedSlash(name[..k]);
      SqueezedGrows(name[..k + 1], name[k + 1..]);
      RealWithin(name[..k], name);
    }
  }

  lemma RealBelow(p: string, n: string)
    requires p != "" && IsFileName(n)
    ensures Child(p, n) != "" && Real(Child(p, n)) == Child(Real(p), n) != "/"
  {
    RealChild(p, n);
    hide Real;
    assert Child(Real(p), n)[|Child(Real(p), n)| - 1] == n[|n| - 1] && n[|n| - 1] in n;
  }

  ghost function NodeOf(e: Entry): Node {
    match e case File(_, kind) => IsFile(kind) case Dir(_, _) => IsDir
  }

  lemma UnderTrans(p: string, q: string, r: string)
    requires Under(p, q) && Within(q, r)
    ensures Under(p, r)
  {
    assert p + "/" <= q <= r;
  }

  lemma ChildUnder(p: string, name: string)
    requires !EndsWithSlash(p)
    ensures Under(p, Child(p, name))
  {
    assert Child(p, name)[..|p| + 1] == p + "/";
  }

  lemma NamePart(p: string, a: string, q: string)
    requires !EndsWithSlash(p) && Within(Child(p, a), q)
    ensures |p| + 1 + |a| <= |q| && q[|p| + 1..|p| + 1 + |a|] == a
    ensures |q| == |p| + 1 + |a| || q[|p| + 1 + |a|] == '/'
  {
    var c := Child(p, a);
    assert c <= q;
    assert q[|p| + 1..|p| + 1 + |a|] == c[|p| + 1..];
    if q != c {
      assert q[|c|] == (c + "/")[|c|];
    }
  }

  lemma NameStops(p: string, a: string, b: string, q: string)
    requires !EndsWithSlash(p) && |a| < |b|
    requires Within(Child(p, a), q) && Within(Child(p, b), q)
    ensures '/' in b
  {
    NamePart(p, a, q);
    NamePart(p, b, q);
    assert b[|a|] == q[|p| + 1..|p| + 1 + |b|][|a|];
  }

  /** Two entries of one directory own disjoint parts of the file system. */
  lemma SiblingsApart(p: string, a: string, b: string, q: string)
    requires !EndsWithSlash(p) && IsFileName(a) && IsFileName(b)
    requires Within(Child(p, a), q) && Within(Child(p, b), q)
    ensures a == b
  {
    if |a| < |b| {
      NameStops(p, a, b, q);
    } else if |b| < |a| {
      NameStops(p, b, a, q);
    } else {
      NamePart(p, a, q);
      NamePart(p, b, q);
    }
  }

  // ----- holding a tree

  predicate HasName(es: seq<Entry>, name: string) {
    es != [] && (es[|es| - 1].name == name || HasName(es[..|es| - 1], name))
  }

  /** No two entries of a directory share a name, here and below. */
  predicate Distinct(es: seq<Entry>)
    decreases Size(es)
  {
    es == [] ||
    (var init, last := es[..|es| - 1], es[|es| - 1];
     Distinct(init) && !HasName(init, last.name) && (last.Dir? ==> Distinct(last.entries)))
  }

  ghost predicate Owned(p: string, es: seq<Entry>, q: string) {
    es != [] && (Within(Child(p, es[|es| - 1].name), q) || Owned(p, es[..|es| - 1], q))
  }

  /** Every path below `p` belongs to an entry. */
  ghost predicate Covers(fs: Fs, p: string, es: seq<Entry>) {
    forall q :: q in fs && Under(p, q) ==> Owned(p, es, q)
  }

  /** Each entry is where it should be, with its own tree below it. */
  ghost predicate HoldsAll(fs: Fs, p: string, es: seq<Entry>)
    decreases Size(es), 0
  {
    es == [] ||
    (var init, last := es[..|es| - 1], es[|es| - 1];
     var c := Child(p, last.name);
     && HoldsAll(fs, p, init)
     && c in fs && fs[c] == NodeOf(last)
     && (match last
         case File(_, _) => forall q :: q in fs ==> !Under(c, q)
         case Dir(_, sub) => Mirrors(fs, c, sub)))
  }

  /** Strictly below `p` the file system holds exactly the tree `es`. */
  ghost predicate Mirrors(fs: Fs, p: string, es: seq<Entry>)
    decreases Size(es), 1
  {
    HoldsAll(fs, p, es) && Covers(fs, p, es)
  }

  ghost predicate SameUnder(fs: Fs, fs': Fs, p: string) {
    forall q :: Under(p, q) ==> (q in fs <==> q in fs') && (q in fs ==> fs[q] == fs'[q])
  }

  /** Whether a tree is held depends on the part below the directory only. */
  lemma {:induction false} HoldsFrame(fs: Fs, fs': Fs, p: string, es: seq<Entry>)
    requires Named(es) && !EndsWithSlash(p)
    requires SameUnder(fs, fs', p)
    ensures HoldsAll(fs, p, es) ==> HoldsAll(fs', p, es)
    ensures Mirrors(fs, p, es) ==> Mirrors(fs', p, es)
    decreases Size(es)
  {
    if es != [] {
      var init, last := es[..|es| - 1], es[|es| - 1];
      var c := Child(p, last.name);
      ChildUnder(p, last.name);
      HoldsFrame(fs, fs', p, init);
      forall q | Within(c, q) ensures Under(p, q) {
        UnderTrans(p, c, q);
      }
      if last.Dir? {
        assert !EndsWithSlash(c) by {
          assert c[|c| - 1] == last.name[|last.name| - 1];
        }
        HoldsFrame(fs, fs', c, last.entries);
      }
    }
  }

  // ----- the same for the subdirectories alone

  function SubNames(ds: seq<Sub>): set<string> {
    if ds == [] then {} else SubNames(ds[..|ds| - 1]) + {ds[|ds| - 1].name}
  }

  predicate DistinctSubs(ds: seq<Sub>) {
    ds == [] ||
    (var init, last := ds[..|ds| - 1], ds[|ds| - 1];
     DistinctSubs(init) && last.name !in SubNames(init) && Distinct(last.entries))
  }

  lemma NamedSubNames(ds: seq<Sub>)
    requires NamedSubs(ds)
    ensures forall n :: n in SubNames(ds) ==> IsFileName(n)
  {
  }

  function FileNames(es: seq<Entry>): set<string> {
    if es == [] then {}
    else FileNames(es[..|es| - 1]) + if es[|es| - 1].File? then {es[|es| - 1].name} else {}
  }

  ghost predicate HoldsSubs(fs: Fs, p: string, ds: seq<Sub>) {
    ds == [] ||
    (var last := ds[|ds| - 1];
     var c := Child(p, last.name);
     HoldsSubs(fs, p, ds[..|ds| - 1]) && c in fs && fs[c] == IsDir && Mirrors(fs, c, last.entries))
  }

  /** The two kinds of entries do not share names. */
  lemma {:induction false} NamesApart(es: seq<Entry>)
    requires Named(es) && Distinct(es)
    ensures DistinctSubs(Subdirs(es)) && FileNames(es) !! SubNames(Subdirs(es))
    ensures forall n :: n in FileNames(es) + SubNames(Subdirs(es)) ==> IsFileName(n) && HasName(es, n)
  {
    if es != [] {
      var init, last := es[..|es| - 1], es[|es| - 1];
      NamesApart(init);
      if last.Dir? {
        var ds := Subdirs(es);
        assert ds[..|ds| - 1] == Subdirs(init);
      }
    }
  }

  lemma {:induction false} HoldsAllSubs(fs: Fs, p: string, es: seq<Entry>)
    requires HoldsAll(fs, p, es)
    ensures HoldsSubs(fs, p, Subdirs(es))
  {
    if es != [] {
      var init, last := es[..|es| - 1], es[|es| - 1];
      HoldsAllSubs(fs, p, init);
      if last.Dir? {
        var ds := Subdirs(es);
        assert ds[..|ds| - 1] == Subdirs(init);
      }
    }
  }

  ghost predicate SameWithin(fs: Fs, fs': Fs, c: string) {
    forall q :: Within(c, q) ==> (q in fs <==> q in fs') && (q in fs ==> fs[q] == fs'[q])
  }

  lemma ChildEnd(p: string, name: string)
    requires IsFileName(name)
    ensures !EndsWithSlash(Child(p, name))
  {
    assert Child(p, name)[|Child(p, name)| - 1] == name[|name| - 1];
  }

  lemma {:induction false} HoldsSubsFrame(fs: Fs, fs': Fs, p: string, ds: seq<Sub>)
    requires NamedSubs(ds)
    requires HoldsSubs(fs, p, ds)
    requires forall n :: n in SubNames(ds) ==> SameWithin(fs, fs', Child(p, n))
    ensures HoldsSubs(fs', p, ds)
  {
    if ds != [] {
      var last := ds[|ds| - 1];
      HoldsSubsFrame(fs, fs', p, ds[..|ds| - 1]);
      assert last.name in SubNames(ds);
      ChildEnd(p, last.name);
      HoldsFrame(fs, fs', Child(p, last.name), last.entries);
    }
  }

  // ----- taking entries away

  /** `q` belongs to an entry of `p` with one of these names. */
  predicate Among(p: string, names: set<string>, q: string) {
    exists n :: n in names && Within(Child(p, n), q)
  }

  lemma AmongMore(p: string, a: set<string>, b: set<string>, q: string)
    requires a <= b && Among(p, a, q)
    ensures Among(p, b, q)
  {
  }

  lemma AmongItself(p: string, names: set<string>, n: string)
    requires n in names
    ensures Among(p, names, Child(p, n))
  {
    assert Within(Child(p, n), Child(p, n));
  }

  function Gone(fs: Fs, p: string, names: set<string>): Fs {
    map q | q in fs && !Among(p, names, q) :: fs[q]
  }

  function Without(fs: Fs, p: string): Fs {
    map q | q in fs && !Within(p, q) :: fs[q]
  }

  lemma GoneKeeps(fs: Fs, p: string, names: set<string>, n: string)
    requires !EndsWithSlash(p) && IsFileName(n) && n !in names
    requires forall m :: m in names ==> IsFileName(m)
    ensures SameWithin(fs, Gone(fs, p, names), Child(p, n))
  {
    forall q | Within(Child(p, n), q) ensures !Among(p, names, q) {
      forall m | m in names && Within(Child(p, m), q) ensures false {
        SiblingsApart(p, m, n, q);
      }
    }
  }

  lemma WithoutKeeps(fs: Fs, p: string, m: string, n: string)
    requires !EndsWithSlash(p) && IsFileName(n) && IsFileName(m) && n != m
    ensures SameWithin(fs, Without(fs, Child(p, m)), Child(p, n))
  {
    forall q | Within(Child(p, n), q) ensures !Within(Child(p, m), q) {
      if Within(Child(p, m), q) {
        SiblingsApart(p, m, n, q);
      }
    }
  }

  lemma GoneMore(fs: Fs, p: string, names: set<string>, n: string)
    ensures Gone(Without(fs, Child(p, n)), p, names) == Gone(fs, p, names + {n})
    ensures Without(Gone(fs, p, names), Child(p, n)) == Gone(fs, p, names + {n})
  {
    forall q ensures Among(p, names + {n}, q) <==> Among(p, names, q) || Within(Child(p, n), q) {
      if Within(Child(p, n), q) {
        assert n in names + {n};
      }
      if Among(p, names, q) {
        var m :| m in names && Within(Child(p, m), q);
        assert m in names + {n};
      }
    }
  }

  lemma GoneGone(fs: Fs, p: string, a: set<string>, b: set<string>)
    ensures Gone(Gone(fs, p, a), p, b) == Gone(fs, p, a + b)
  {
    forall q ensures Among(p, a + b, q) <==> Among(p, a, q) || Among(p, b, q) {
      if Among(p, a, q) {
        var m :| m in a && Within(Child(p, m), q);
        assert m in a + b;
      }
      if Among(p, b, q) {
        var m :| m in b && Within(Child(p, m), q);
        assert m in a + b;
      }
    }
  }

  lemma {:induction false} OwnedAmong(p: string, es: seq<Entry>, q: string)
    ensures Owned(p, es, q) ==> Among(p, FileNames(es) + SubNames(Subdirs(es)), q)
  {
    if es != [] {
      var init, last := es[..|es| - 1], es[|es| - 1];
      OwnedAmong(p, init, q);
      var ds, names := Subdirs(es), FileNames(es) + SubNames(Subdirs(es));
      if last.Dir? {
        assert ds[..|ds| - 1] == Subdirs(init);
      }
      assert last.name in names;
      if Owned(p, init, q) {
        var m :| m in FileNames(init) + SubNames(Subdirs(init)) && Within(Child(p, m), q);
        assert m in names;
      }
    }
  }

  lemma AmongUnder(fs: Fs, p: string, es: seq<Entry>, q: string)
    requires !EndsWithSlash(p) && Covers(fs, p, es) && q in fs
    ensures Among(p, FileNames(es) + SubNames(Subdirs(es)), q) <==> Under(p, q)
  {
    var names := FileNames(es) + SubNames(Subdirs(es));
    OwnedAmong(p, es, q);
    if Among(p, names, q) {
      var m :| m in names && Within(Child(p, m), q);
      ChildUnder(p, m);
      UnderTrans(p, Child(p, m), q);
    }
  }

  /** With all its entries gone, nothing is below a directory, and nothing else
      is missing. */
  lemma GoneAll(fs: Fs, p: string, es: seq<Entry>)
    requires !EndsWithSlash(p) && Covers(fs, p, es)
    ensures var fs' := Gone(fs, p, FileNames(es) + SubNames(Subdirs(es)));
            && (forall q :: q in fs' ==> !Under(p, q))
            && (p in fs ==> p in fs' && fs'[p] == fs[p])
            && fs' - {p} == Without(fs, p)
  {
    hide Among, Covers, FileNames, SubNames;
    forall q | q in fs ensures Among(p, FileNames(es) + SubNames(Subdirs(es)), q) <==> Under(p, q) {
      AmongUnder(fs, p, es, q);
    }
    assert !Under(p, p);
  }
}
