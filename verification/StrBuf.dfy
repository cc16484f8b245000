/** The growing string buffer of platfree/strbuf.c.  The walker resets and
    extends one; the copy command and the backup rotation overwrite what
    follows its initial string again and again. */
module StrBuf {
  import opened CString

  /** Length of the C string at the start of a buffer. */
  function Terminator(s: seq<char>): (n: nat)
    ensures n <= |s|
    ensures n < |s| ==> s[n] == NUL
    ensures forall i :: 0 <= i < n ==> s[i] != NUL
  {
    if s == [] || s[0] == NUL then 0
    else
      var n := Terminator(s[1..]);
      assert forall i :: 1 <= i < n + 1 ==> s[i] == s[1..][i - 1];
      1 + n
  }

  lemma TerminatorIs(s: seq<char>, n: nat)
    requires n < |s| && s[n] == NUL && forall i :: 0 <= i < n ==> s[i] != NUL
    ensures Terminator(s) == n
  {
  }

  /** The C string ends before `at`, up to where both buffers are the same. */
  lemma TerminatorKept(was: seq<char>, now: seq<char>, at: nat)
    requires at <= |was| && at <= |now| && now[..at] == was[..at] && Terminator(was) < at
    ensures Terminator(now) == Terminator(was) && now[..Terminator(was)] == was[..Terminator(was)]
  {
    assert forall i :: 0 <= i < at ==> now[i] == now[..at][i] == was[..at][i] == was[i];
    TerminatorIs(now, Terminator(was));
  }

  /** It does not: what is written at `at` becomes its end. */
  lemma TerminatorMoved(was: seq<char>, now: seq<char>, at: nat, s: string)
    requires at <= Terminator(was) && at + |s| < |now| && NUL !in s
    requires now[..at] == was[..at] && now[at..at + |s|] == s && now[at + |s|] == NUL
    ensures Terminator(now) == at + |s| && now[..at + |s|] == was[..at] + s
  {
    forall i | 0 <= i < at ensures now[i] != NUL {
      assert now[i] == now[..at][i] == was[..at][i] == was[i];
    }
    forall i | at <= i < at + |s| ensures now[i] != NUL {
      assert now[i] == now[at..at + |s|][i - at];
    }
    TerminatorIs(now, at + |s|);
    assert now[..at + |s|] == now[..at] + now[at..at + |s|];
  }

  /** fix_grow() of include/calc.h. */
  function FixGrow(cap: nat): nat {
    (cap + 16) * 3 / 2
  }

  class StrBuf {
    var str: array<char>   // capacity is its length; no capacity stands for NULL
    var len: nat
    var baslen: nat

    /** The buffer holds a C string no longer than `len`, inside the capacity. */
    ghost predicate Valid()
      reads this, str
    {
      if str.Length == 0 then len == 0
      else len < str.Length && Terminator(str[..]) <= len
    }

    ghost function CStr(): string
      reads this, str
    {
      str[..Terminator(str[..])]
    }

    /** The initial string is intact. */
    ghost predicate Based(base: string)
      reads this, str
    {
      baslen == |base| && baslen <= len && baslen <= str.Length && str[..baslen] == base && NUL !in base
    }

    /** strbuf_init() */
    constructor ()
      ensures Valid() && CStr() == "" && len == 0 && baslen == 0 && fresh(str)
    {
      str := new char[0];
      len, baslen := 0, 0;
    }

    /** CAP_ALLOC(&str, n, &cap) */
    method Grow(n: nat)
      modifies this`str
      ensures n <= str.Length && old(str.Length) <= str.Length
      ensures str == old(str) || fresh(str)
      ensures str[..old(str.Length)] == old(str[..])
      ensures var grown := (old(str.Length) + 16) * 3 / 2;
              str.Length == if n <= old(str.Length) then old(str.Length) else if grown < n then n else grown
    {
      if n > str.Length {
        var cap := FixGrow(str.Length);
        if cap < n {
          cap := n;
        }
        var data := new char[cap];
        forall i | 0 <= i < str.Length {
          data[i] := str[i];
        }
        str := data;
      }
    }

    /** More room, for a buffer that holds a C string or nothing. */
    method Extend(n: nat)
      requires Valid()
      modifies this`str
      ensures n <= str.Length && old(str.Length) <= str.Length && (str == old(str) || fresh(str))
      ensures str[..len] == old(str[..len])
      ensures |CStr()| < len <==> old(|CStr()|) < len
      ensures old(str.Length) > 0 ==> CStr() == old(CStr()) && Valid()
    {
      ghost var was := str[..];
      hide Terminator, FixGrow;
      Grow(n);
      assert str[..|was|] == was;
      assert str[..len] == was[..len];
      if |was| > 0 {
        TerminatorKept(was, str[..], |was|);
      }
    }

    /** memcpy(&str[at], s, strlen(s) + 1) */
    method Put(at: nat, s: string)
      requires at + |s| < str.Length
      modifies str
      ensures str[..at] == old(str[..at]) && str[at..at + |s|] == s && str[at + |s|] == NUL
      ensures str[at + |s| + 1..] == old(str[at + |s| + 1..])
    {
      forall i | 0 <= i <= |s| {
        str[at + i] := if i < |s| then s[i] else NUL;
      }
    }

    /** What a string written at `at` makes of the C string: an earlier NUL
        hides it. */
    method Write(at: nat, s: string)
      requires at + |s| < str.Length && NUL !in s
      modifies str
      ensures str[..at] == old(str[..at]) && str[at..at + |s|] == s && str[at + |s|] == NUL
      ensures CStr() == if |old(CStr())| < at then old(CStr()) else old(str[..at]) + s
      ensures |CStr()| == Terminator(str[..])
    {
      hide Terminator;
      ghost var was := str[..];
      Put(at, s);
      assert str[..at] == was[..at];
      if Terminator(was) < at {
        TerminatorKept(was, str[..], at);
      } else {
        TerminatorMoved(was, str[..], at, s);
      }
    }

    /** strbuf_concat2(): the string goes to `len`, whatever is there.  If the C
        string ends before, it stays what it is. */
    method Concat2(s: string, extalloc: nat) returns (n: nat)
      requires Valid() && NUL !in s
      modifies this`str, this`len, str
      ensures Valid() && (str == old(str) || fresh(str)) && n == |s|
      ensures CStr() == if |old(CStr())| < old(len) then old(CStr()) else old(CStr()) + s
      ensures len == old(len) + |s| && str[..old(len)] == old(str[..len]) && str[old(len)..len] == s
      ensures old(len) + |s| + extalloc < str.Length
    {
      hide Terminator, FixGrow;
      n := |s|;
      Extend(len + n + extalloc + 1);
      Write(len, s);
      len := len + n;
    }

    lemma BaseIntact(base: string)
      requires Valid() && CStr() == base && len == baslen == |base| && NUL !in base
      ensures Based(base)
    {
      assert str[..|base|] == CStr();
    }

    /** strbuf_from2() */
    constructor From(base: string, extalloc: nat)
      requires NUL !in base
      ensures Valid() && Based(base) && CStr() == base && fresh(str)
    {
      str := new char[0];
      len, baslen := 0, 0;
      new;
      baslen := Concat2(base, extalloc);
      assert [] + base == base;
      BaseIntact(base);
    }

    /** strbuf_reset_from() */
    method ResetFrom(base: string)
      requires Valid() && NUL !in base
      modifies this, str
      ensures Valid() && Based(base) && CStr() == base && len == |base|
      ensures str == old(str) || fresh(str)
    {
      len := 0;
      Grow(|base| + 1);
      Write(0, base);
      assert [] + base == base;
      len := |base|;
      baslen := |base|;
      BaseIntact(base);
    }

    lemma BasedLong(base: string)
      requires Valid() && Based(base)
      ensures |CStr()| >= baslen && CStr()[..baslen] == base
    {
      assert forall i :: 0 <= i < baslen ==> str[i] == base[i] != NUL;
    }

    /** strbuf_reset() */
    method Reset(ghost base: string)
      requires Valid() && Based(base) && str.Length > 0
      modifies this`len, str
      ensures Valid() && Based(base) && CStr() == base && len == baslen
    {
      BasedLong(base);
      len := baslen;
      Write(len, []);
      assert base + [] == base;
    }

    lemma TakeOfPrefix(n: nat, was: seq<char>)
      requires n <= len <= str.Length && len <= |was| && str[..len] == was[..len]
      ensures str[..n] == was[..n]
    {
      assert str[..len][..n] == was[..len][..n];
    }

    lemma BeforeEnd(n: nat)
      requires n <= |CStr()|
      ensures CStr()[..n] == str[..n]
    {
    }

    /** strbuf_concatat(): the string goes to `idx`, over what was there.  The
        length is an upper bound afterwards, not the length of the string; at an
        index behind the end of the C string nothing is to be seen of it. */
    method ConcatAt(idx: nat, s: string) returns (n: nat)
      requires Valid() && NUL !in s && idx <= len
      modifies this`str, this`len, str
      ensures Valid() && (str == old(str) || fresh(str)) && n == |s| && str.Length > 0
      ensures CStr() == if |old(CStr())| < idx then old(CStr()) else old(CStr())[..idx] + s
      ensures len == if idx == old(len) then idx + |s|
                     else if idx + |s| + 1 > old(len) then idx + |s| + 1 else old(len)
      ensures str[..idx] == old(str[..idx]) && str[idx..idx + |s|] == s
    {
      hide Terminator, FixGrow;
      if idx == len {
        ghost var c := CStr();
        n := Concat2(s, 0);
        assert c[..|c|] == c;
        return;
      }
      n := |s|;
      var alloc := 0;
      var overlap := len - (idx + 1);
      ghost var was := str[..];
      if n > overlap {
        alloc := n - overlap;
        Extend(len + alloc + 1);
      }
      TakeOfPrefix(idx, was);
      if idx <= |CStr()| {
        BeforeEnd(idx);
      }
      Write(idx, s);
      len := len + alloc;
    }

    /** strbuf_concatat_base(): initial string and `s`, after any history. */
    method ConcatAtBase(s: string, ghost base: string) returns (n: nat)
      requires Valid() && Based(base) && NUL !in s
      modifies this`str, this`len, str
      ensures Valid() && Based(base) && (str == old(str) || fresh(str)) && str.Length > 0
      ensures CStr() == base + s
    {
      BasedLong(base);
      n := ConcatAt(baslen, s);
      assert str[..baslen] == CStr()[..baslen];
    }

    /** strbuf_strrsep(): strrchr(str, '/') */
    method StrRSep() returns (sep: nat)
      requires Valid() && LastSlash(CStr()) >= 0
      ensures sep == LastSlash(CStr())
    {
      var i, q := 0, -1;
      ghost var s := CStr();
      while str[i] != NUL
        invariant 0 <= i <= |s| < str.Length
        invariant q == LastSlash(s[..i])
        decreases |s| - i
      {
        assert s[..i + 1][..i] == s[..i];
        if str[i] == '/' {
          q := i;
        }
        i := i + 1;
      }
      assert s[..i] == s;
      sep := q;
    }

    /** strbuf_to_dirname(): cut at the last '/'. */
    method ToDirname()
      requires Valid() && LastSlash(CStr()) >= 0
      modifies this`len, str
      ensures Valid() && CStr() == old(CStr())[..LastSlash(old(CStr()))] && len == |CStr()|
    {
      ghost var was := CStr();
      var sep := StrRSep();
      assert str[..sep] == was[..sep];
      Write(sep, []);
      assert was[..sep] + [] == was[..sep];
      len := sep;
    }
  }
}
