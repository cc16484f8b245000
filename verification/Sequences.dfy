/** Facts about concatenation, stated once for every element type. */
module Sequences {

  lemma Assoc<T>(a: seq<T>, b: seq<T>, c: seq<T>)
    ensures (a + b) + c == a + (b + c)
  {
  }

  /** The last element of a concatenation, and what is before it. */
  lemma AppendLast<T>(a: seq<T>, b: seq<T>, x: T)
    ensures a + (b + [x]) == (a + b) + [x]
    ensures (a + (b + [x]))[..|a| + |b|] == a + b
    ensures (a + (b + [x]))[|a| + |b|] == x
  {
  }

  lemma SplitLast<T>(s: seq<T>)
    requires s != []
    ensures s == s[..|s| - 1] + [s[|s| - 1]]
  {
  }

  lemma SnocInjective<T>(a: seq<T>, x: T, b: seq<T>, y: T)
    requires a + [x] == b + [y]
    ensures a == b && x == y
  {
    assert |a + [x]| == |b + [y]|;
    assert a == (a + [x])[..|a|] && b == (b + [y])[..|b|];
    assert x == (a + [x])[|a|] && y == (b + [y])[|b|];
  }

  /** The slices of a list without its last element. */
  lemma InitSlices<T>(s: seq<T>, i: nat)
    requires i < |s|
    ensures s[..|s| - 1][..i] == s[..i]
    ensures s[i..][..|s| - 1 - i] == s[..|s| - 1][i..]
    ensures |s[i..]| == |s| - i && s[i..][|s| - 1 - i] == s[|s| - 1]
  {
  }

  lemma SplitAt<T>(s: seq<T>, i: nat)
    requires i < |s|
    ensures s == s[..i] + ([s[i]] + s[i + 1..])
  {
  }

  lemma CutAt<T>(s: seq<T>, i: nat, j: nat)
    requires i <= j <= |s|
    ensures s[..j] == s[..i] + s[i..j]
  {
  }

  /** Slices of slices. */
  lemma TakeOfTake<T>(s: seq<T>, i: nat, j: nat)
    requires j <= i <= |s|
    ensures s[..i][..j] == s[..j]
  {
  }

  lemma OfDrop<T>(s: seq<T>, i: nat, k: nat)
    requires i + k <= |s|
    ensures s[i..][..k] == s[i..i + k] && s[i..][k..] == s[i + k..]
  {
  }

  lemma CountSnoc<T>(s: seq<T>, x: T, y: T)
    ensures multiset(s + [x])[y] == multiset(s)[y] + if x == y then 1 else 0
  {
  }

  lemma ConsSlices<T>(x: T, s: seq<T>, m: nat)
    requires m <= |s|
    ensures ([x] + s)[..m + 1] == [x] + s[..m] && ([x] + s)[m + 1..] == s[m..]
    ensures [x] + s == ([x] + s)[..m + 1] + ([x] + s)[m + 1..]
  {
  }

  lemma DropOfSlice<T>(s: seq<T>, i: nat, j: nat, k: nat)
    requires i + k <= j <= |s|
    ensures s[i..j][k..] == s[i + k..j]
  {
  }

  lemma UpdateAt<T>(s: seq<T>, k: nat, x: T)
    requires k < |s|
    ensures s[k := x][..k + 1] == s[..k] + [x] && s[k := x][..k] == s[..k]
  {
  }

  lemma DropOne<T>(s: seq<T>, i: nat)
    requires i < |s|
    ensures s[i..] == [s[i]] + s[i + 1..]
  {
  }

  lemma CutTail<T>(s: seq<T>, i: nat, j: nat)
    requires i <= j <= |s|
    ensures s[i..] == s[i..j] + s[j..]
  {
  }

  /** A sequence with one element in the middle. */
  lemma AroundOne<T>(a: seq<T>, x: T, b: seq<T>)
    ensures var s := a + [x] + b; |s| == |a| + 1 + |b| && s[..|a|] == a && s[|a|] == x && s[|a| + 1..] == b
  {
  }

  lemma CutAround<T>(s: seq<T>, k: nat)
    requires k < |s|
    ensures s[..k + 1] == s[..k] + [s[k]] && s[..k + 1] + s[k + 1..] == s
    ensures s[..k + 1][k] == s[k] && |s[..k + 1]| == k + 1
  {
  }

  lemma DropOfConcat<T>(a: seq<T>, b: seq<T>, k: nat)
    requires k <= |a|
    ensures (a + b)[k..] == a[k..] + b && (a + b)[..k] == a[..k]
  {
  }

  lemma EmptyConcat<T>(s: seq<T>)
    ensures [] + s == s && s + [] == s
  {
  }
}
