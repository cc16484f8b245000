/** The parts of the C string library and of platfree/string.c that the rest of
    the model rests on.  A C string is a `string` without the NUL character. */
module CString {

  datatype Option<+T> = None | Some(value: T)

  const NUL: char := '\0'

  /** isspace() in the C locale. */
  predicate IsSpace(c: char) {
    c == ' ' || '\t' <= c <= '\r'
  }

  /** Position of the last '/' (strrchr), or -1. */
  function LastSlash(s: string): (r: int)
    ensures -1 <= r < |s|
    ensures r >= 0 ==> s[r] == '/'
    ensures forall i :: r < i < |s| ==> s[i] != '/'
  {
    if s == [] then -1
    else if s[|s| - 1] == '/' then |s| - 1
    else LastSlash(s[..|s| - 1])
  }

  /** strchrnul() */
  function StrChrNul(s: string, c: char): (n: nat)
    ensures n <= |s| && c !in s[..n]
    ensures n < |s| ==> s[n] == c
  {
    if s == [] || s[0] == c then 0
    else
      var n := 1 + StrChrNul(s[1..], c);
      assert s[..n] == [s[0]] + s[1..][..n - 1];
      n
  }

  lemma {:induction false} StrChrNulIs(s: string, c: char, n: nat)
    requires n <= |s| && c !in s[..n] && (n < |s| ==> s[n] == c)
    ensures StrChrNul(s, c) == n
  {
    if 0 < n {
      assert s[0] in s[..n];
      assert s[1..][..n - 1] == s[..n][1..];
      StrChrNulIs(s[1..], c, n - 1);
    }
  }

  predicate EndsWithSlash(s: string) {
    s != [] && s[|s| - 1] == '/'
  }

  /** A file name as a directory entry may carry it. */
  predicate IsFileName(s: string) {
    s != [] && '/' !in s
  }

  lemma LastSlashIs(s: string, i: nat)
    requires i < |s| && s[i] == '/' && '/' !in s[i + 1..]
    ensures LastSlash(s) == i
  {
    assert forall j :: i < j < |s| ==> s[j] == s[i + 1..][j - i - 1];
  }

  lemma LastSlashOfChild(dir: string, name: string)
    requires IsFileName(name)
    ensures LastSlash(dir + "/" + name) == |dir|
  {
    assert (dir + "/" + name)[|dir| + 1..] == name;
    LastSlashIs(dir + "/" + name, |dir|);
  }

  /** What follows `pref` in `str`, if `pref` starts it. */
  function After(str: string, pref: string): Option<string> {
    if pref <= str then Some(str[|pref|..]) else None
  }

  /** straftr() */
  method Straftr(str: string, pref: string) returns (rest: Option<string>)
    requires NUL !in str && NUL !in pref
    ensures rest == After(str, pref)
  {
    // The C loop walks both pointers; the NUL after `str` stops it.
    var i := 0;
    while true
      invariant 0 <= i <= |pref| && i <= |str|
      invariant pref[..i] == str[..i]
      decreases |pref| - i
    {
      if i == |pref| {
        assert pref == pref[..i];
        return Some(str[i..]);
      }
      if i == |str| || str[i] != pref[i] {
        return None;
      }
      i := i + 1;
    }
  }
}
