/** Word wrapping and the recycled string stack of platfree/strlist.c. */
module StrList {
  import opened CString
  import opened Sequences

  // ----- wraps

  /** A wrap of `s` from `from` on, given by where its lines end.  A line ends
      at a whitespace character, which is dropped, or at the end of the text. */
  ghost predicate IsWrap(s: string, bound: nat, from: nat, cuts: seq<nat>)
    decreases |cuts|
  {
    if from >= |s| then cuts == []
    else
      && cuts != []
      && from <= cuts[0] <= |s| && cuts[0] - from <= bound
      && (cuts[0] < |s| ==> IsSpace(s[cuts[0]]))
      && IsWrap(s, bound, cuts[0] + 1, cuts[1..])
  }

  /** The lines of a wrap. */
  ghost function Lines(s: string, from: nat, cuts: seq<nat>): seq<string>
    decreases |cuts|
  {
    if cuts == [] then []
    else (if from <= cuts[0] <= |s| then [s[from..cuts[0]]] else [[]]) + Lines(s, cuts[0] + 1, cuts[1..])
  }

  /** The characters a wrap drops, one after each line that has one. */
  ghost function Drops(s: string, cuts: seq<nat>): seq<string> {
    if cuts == [] then []
    else [if cuts[0] < |s| then [s[cuts[0]]] else ""] + Drops(s, cuts[1..])
  }

  function Weave(a: seq<string>, b: seq<string>): string
    requires |a| == |b|
  {
    if a == [] then "" else a[0] + b[0] + Weave(a[1..], b[1..])
  }

  /** The first line of a wrap, and the rest of it. */
  lemma FirstCut(s: string, bound: nat, from: nat, cuts: seq<nat>)
    requires IsWrap(s, bound, from, cuts)
    ensures from < |s| <==> cuts != []
    ensures cuts != [] ==>
              && from <= cuts[0] <= |s| && cuts[0] <= from + bound
              && (cuts[0] < |s| ==> IsSpace(s[cuts[0]]))
              && IsWrap(s, bound, cuts[0] + 1, cuts[1..])
  {
  }

  lemma WeaveFirst(a: string, lines: seq<string>, b: string, drops: seq<string>)
    requires |lines| == |drops|
    ensures Weave([a] + lines, [b] + drops) == a + b + Weave(lines, drops)
  {
    assert ([a] + lines)[1..] == lines && ([b] + drops)[1..] == drops;
  }

  /** The character a line drops, if any. */
  ghost function Dropped(s: string, c: nat): string {
    if c < |s| then [s[c]] else ""
  }

  lemma FirstLine(s: string, from: nat, cuts: seq<nat>)
    requires cuts != [] && from <= cuts[0] <= |s|
    ensures Lines(s, from, cuts) == [s[from..cuts[0]]] + Lines(s, cuts[0] + 1, cuts[1..])
    ensures Drops(s, cuts) == [Dropped(s, cuts[0])] + Drops(s, cuts[1..])
    ensures s[from..] == s[from..cuts[0]] + Dropped(s, cuts[0]) + if cuts[0] < |s| then s[cuts[0] + 1..] else ""
    ensures |Dropped(s, cuts[0])| <= 1
    ensures Dropped(s, cuts[0]) != "" ==> cuts[0] < |s| && Dropped(s, cuts[0])[0] == s[cuts[0]]
  {
  }

  lemma NoLines(s: string, from: nat)
    ensures Lines(s, from, []) == [] && Drops(s, []) == [] && Weave([], []) == ""
    ensures from == |s| ==> s[from..] == ""
  {
  }

  /** Lines and dropped separators rebuild the text; every line is within the
      bound, and each dropped character is whitespace. */
  lemma {:induction false} WrapRebuilds(s: string, bound: nat, from: nat, cuts: seq<nat>)
    requires IsWrap(s, bound, from, cuts)
    ensures |Lines(s, from, cuts)| == |Drops(s, cuts)| == |cuts|
    ensures from <= |s| ==> Weave(Lines(s, from, cuts), Drops(s, cuts)) == s[from..]
    ensures forall k :: 0 <= k < |cuts| ==> |Lines(s, from, cuts)[k]| <= bound
    ensures forall k :: 0 <= k < |cuts| ==>
              Drops(s, cuts)[k] == "" || (|Drops(s, cuts)[k]| == 1 && IsSpace(Drops(s, cuts)[k][0]))
    decreases |cuts|
  {
    hide *;
    FirstCut(s, bound, from, cuts);
    if cuts == [] {
      NoLines(s, from);
    } else {
      var c := cuts[0];
      var lines, drops := Lines(s, c + 1, cuts[1..]), Drops(s, cuts[1..]);
      FirstLine(s, from, cuts);
      FirstCut(s, bound, c + 1, cuts[1..]);
      WrapRebuilds(s, bound, c + 1, cuts[1..]);
      NoLines(s, c + 1);
      WeaveFirst(s[from..c], lines, Dropped(s, c), drops);
    }
  }

  // ----- when a wrap exists

  ghost predicate BreakIn(s: string, lo: nat, hi: nat) {
    exists k :: lo <= k <= hi && k < |s| && IsSpace(s[k])
  }

  /** The word at `p`, if any, ends within the bound. */
  ghost predicate ShortAt(s: string, bound: nat, p: nat) {
    p + bound < |s| ==> BreakIn(s, p, p + bound)
  }

  /** No word is longer than the bound. */
  ghost predicate NoLongWord(s: string, bound: nat) {
    forall p: nat :: ShortAt(s, bound, p)
  }

  /** Where a line from `from` ends if it is made as long as possible. */
  function Furthest(s: string, from: nat, at: nat): (c: int)
    requires from <= at < |s|
    ensures c == -1 || (from <= c <= at && IsSpace(s[c]))
    ensures forall k :: (if c == -1 then from else c + 1) <= k <= at ==> !IsSpace(s[k])
    decreases at - from
  {
    if IsSpace(s[at]) then at
    else if at == from then -1
    else Furthest(s, from, at - 1)
  }

  function GreedyCut(s: string, bound: nat, from: nat): (c: nat)
    requires from < |s| && NoLongWord(s, bound)
    ensures from <= c <= |s| && c - from <= bound && (c < |s| ==> IsSpace(s[c]))
    ensures from + bound >= |s| ==> c == |s|
    ensures forall k :: c < k <= from + bound && k < |s| ==> !IsSpace(s[k])
  {
    if from + bound >= |s| then |s|
    else
      assert ShortAt(s, bound, from);
      Furthest(s, from, from + bound)
  }

  function GreedyCuts(s: string, bound: nat, from: nat): (cuts: seq<nat>)
    requires NoLongWord(s, bound)
    ensures IsWrap(s, bound, from, cuts)
    decreases |s| - from
  {
    if from >= |s| then []
    else
      var c := GreedyCut(s, bound, from);
      [c] + GreedyCuts(s, bound, c + 1)
  }

  /** Where line `k` begins. */
  function Start(from: nat, cuts: seq<nat>, k: nat): nat
    requires k < |cuts|
  {
    if k == 0 then from else cuts[k - 1] + 1
  }

  /** The line from `st` to `c` is as long as it can be: it reaches the end of
      the text, or the last whitespace within the bound. */
  ghost predicate FullLine(s: string, bound: nat, st: nat, c: nat) {
    if st + bound >= |s| then c == |s|
    else c <= st + bound && forall x :: c < x <= st + bound ==> !IsSpace(s[x])
  }

  ghost predicate Full(s: string, bound: nat, from: nat, cuts: seq<nat>) {
    forall k :: 0 <= k < |cuts| ==> FullLine(s, bound, Start(from, cuts, k), cuts[k])
  }

  lemma FullMore(s: string, bound: nat, from: nat, c: nat, rest: seq<nat>)
    requires FullLine(s, bound, from, c) && Full(s, bound, c + 1, rest)
    ensures Full(s, bound, from, [c] + rest)
  {
    hide FullLine;
    var cuts := [c] + rest;
    forall k | 0 <= k < |cuts| ensures FullLine(s, bound, Start(from, cuts, k), cuts[k]) {
      if k > 0 {
        assert cuts[k] == rest[k - 1] && Start(from, cuts, k) == Start(c + 1, rest, k - 1);
      }
    }
  }

  lemma GreedyLine(s: string, bound: nat, from: nat)
    requires from < |s| && NoLongWord(s, bound)
    ensures FullLine(s, bound, from, GreedyCut(s, bound, from))
  {
    hide NoLongWord;
  }

  lemma NothingFull(s: string, bound: nat, from: nat)
    ensures Full(s, bound, from, [])
  {
  }

  lemma {:induction false} GreedyFull(s: string, bound: nat, from: nat)
    requires NoLongWord(s, bound)
    ensures Full(s, bound, from, GreedyCuts(s, bound, from))
    decreases |s| - from
  {
    hide NoLongWord, GreedyCut, Full;
    if from < |s| {
      var c := GreedyCut(s, bound, from);
      GreedyLine(s, bound, from);
      GreedyFull(s, bound, c + 1);
      FullMore(s, bound, from, c, GreedyCuts(s, bound, c + 1));
    } else {
      NothingFull(s, bound, from);
    }
  }

  lemma GreedyFirst(s: string, bound: nat, from: nat)
    requires from < |s| && NoLongWord(s, bound)
    ensures var c := GreedyCut(s, bound, from);
            |GreedyCuts(s, bound, from)| == 1 + |GreedyCuts(s, bound, c + 1)|
  {
    hide NoLongWord, GreedyCut;
  }

  lemma NoGreedy(s: string, bound: nat, from: nat)
    requires from >= |s| && NoLongWord(s, bound)
    ensures GreedyCuts(s, bound, from) == []
  {
  }

  /** The greedy wrap stays ahead of every other one. */
  lemma {:induction false} GreedyAhead(s: string, bound: nat, other: nat, cuts: seq<nat>, from: nat)
    requires NoLongWord(s, bound) && IsWrap(s, bound, other, cuts) && other <= from
    ensures |GreedyCuts(s, bound, from)| <= |cuts|
    decreases |cuts|
  {
    hide *;
    if from < |s| {
      FirstCut(s, bound, other, cuts);
      GreedyFirst(s, bound, from);
      var c, d := GreedyCut(s, bound, from), cuts[0];
      if d < from {
        GreedyAhead(s, bound, d + 1, cuts[1..], from);
      } else {
        assert d <= c;
        GreedyAhead(s, bound, d + 1, cuts[1..], c + 1);
      }
    } else {
      NoGreedy(s, bound, from);
    }
  }

  lemma {:induction false} WrapBreaks(s: string, bound: nat, from: nat, cuts: seq<nat>, p: nat)
    requires IsWrap(s, bound, from, cuts) && from <= p && p + bound < |s|
    ensures BreakIn(s, p, p + bound)
    decreases |cuts|
  {
    var c := cuts[0];
    if c < p {
      WrapBreaks(s, bound, c + 1, cuts[1..], p);
    } else {
      assert p <= c <= p + bound;
    }
  }

  ghost predicate Wraps(s: string, bound: nat, cuts: seq<nat>) {
    IsWrap(s, bound, 0, cuts)
  }

  /** A text can be wrapped within the bound if and only if no word is longer. */
  lemma WrapIff(s: string, bound: nat)
    ensures (exists cuts :: Wraps(s, bound, cuts)) <==> NoLongWord(s, bound)
  {
    if NoLongWord(s, bound) {
      assert Wraps(s, bound, GreedyCuts(s, bound, 0));
    }
    if exists cuts :: Wraps(s, bound, cuts) {
      var cuts :| Wraps(s, bound, cuts);
      forall p: nat ensures ShortAt(s, bound, p) {
        if p + bound < |s| {
          WrapBreaks(s, bound, 0, cuts, p);
        }
      }
    }
  }

  /** The inner loop of strlist_split_word(): walk back to a whitespace. */
  method WalkBack(buf: array<char>, ptr: nat, bound: nat, ghost s: string) returns (l: nat)
    requires ptr + bound < |s| < buf.Length && NoLongWord(s, bound)
    requires forall k :: ptr <= k < |s| ==> buf[k] == s[k]
    ensures ptr + l == GreedyCut(s, bound, ptr)
  {
    assert ShortAt(s, bound, ptr);
    l := bound;
    while !IsSpace(buf[ptr + l])
      invariant 0 <= l <= bound
      invariant Furthest(s, ptr, ptr + bound) == Furthest(s, ptr, ptr + l) != -1
      decreases l
    {
      l := l - 1;
    }
  }

  lemma InText(s: string, c: char, k: nat)
    requires NUL !in s && k <= |s| && c == if k < |s| then s[k] else NUL
    ensures c == NUL <==> k == |s|
  {
    if k < |s| {
      assert s[k] in s;
    }
  }

  /** One line: find its end, cut there, and take the C string at `ptr`. */
  method OneLine(buf: array<char>, ptr: nat, width: nat, ghost s: string, ghost bound: nat)
    returns (line: string, l: nat)
    requires NUL !in s && NoLongWord(s, bound) && ptr < |s| < buf.Length
    requires width == if ptr + bound >= |s| then |s| - ptr else bound
    requires forall k :: ptr <= k <= |s| ==> buf[k] == if k < |s| then s[k] else NUL
    modifies buf
    ensures ptr + l == GreedyCut(s, bound, ptr) && line == s[ptr..ptr + l]
    ensures forall k :: ptr + l < k < buf.Length ==> buf[k] == old(buf[k])
  {
    l := width;
    InText(s, buf[ptr + width], ptr + width);
    if buf[ptr + width] != NUL {
      l := WalkBack(buf, ptr, width, s);
    }
    buf[ptr + l] := NUL;
    assert buf[ptr..ptr + l] == s[ptr..ptr + l];
    line := buf[ptr..ptr + l];
  }

  lemma GreedyDone(s: string, bound: nat, from: nat)
    requires from >= |s| && NoLongWord(s, bound)
    ensures GreedyCuts(s, bound, from) == [] && Lines(s, from, []) == []
  {
  }

  lemma GreedyBest(s: string, bound: nat)
    requires NoLongWord(s, bound)
    ensures Wraps(s, bound, GreedyCuts(s, bound, 0))
    ensures forall other :: Wraps(s, bound, other) ==> |GreedyCuts(s, bound, 0)| <= |other|
  {
    forall other | Wraps(s, bound, other) ensures |GreedyCuts(s, bound, 0)| <= |other| {
      GreedyAhead(s, bound, 0, other, 0);
    }
  }

  /** The greedy wrap from `from` on, one line at a time. */
  lemma GreedyStep(s: string, bound: nat, from: nat)
    requires from < |s| && NoLongWord(s, bound)
    ensures var c := GreedyCut(s, bound, from);
            && GreedyCuts(s, bound, from) == [c] + GreedyCuts(s, bound, c + 1)
            && Lines(s, from, GreedyCuts(s, bound, from)) ==
               [s[from..c]] + Lines(s, c + 1, GreedyCuts(s, bound, c + 1))
  {
    var c := GreedyCut(s, bound, from);
    assert ([c] + GreedyCuts(s, bound, c + 1))[1..] == GreedyCuts(s, bound, c + 1);
  }

  /** strlist_split_word() on its own copy of the text; `lines` is what it
      pushes.  Each line is as long as it can be, and no other wrap has fewer. */
  method SplitWord(str: string, bound: nat) returns (lines: seq<string>, ghost cuts: seq<nat>)
    requires NUL !in str && NoLongWord(str, bound)
    ensures Wraps(str, bound, cuts) && lines == Lines(str, 0, cuts) && Full(str, bound, 0, cuts)
    ensures forall other :: Wraps(str, bound, other) ==> |lines| <= |other|
  {
    hide GreedyCuts, Lines, IsWrap, Wraps, NoLongWord, Full;
    var tot := |str|;
    var buf := new char[tot + 1](i => if 0 <= i < tot then str[i] else NUL);
    var ptr, width := 0, bound;
    lines, cuts := [], [];
    ghost var all := GreedyCuts(str, bound, 0);
    while ptr < tot
      invariant 0 <= ptr <= tot + 1 && (width == bound || ptr >= tot)
      invariant forall k :: ptr <= k <= tot ==> buf[k] == if k < tot then str[k] else NUL
      invariant all == cuts + GreedyCuts(str, bound, ptr)
      invariant Lines(str, 0, all) == lines + Lines(str, ptr, GreedyCuts(str, bound, ptr))
      invariant |lines| == |cuts|
      decreases tot + 1 - ptr
    {
      if ptr + width >= tot {
        width := tot - ptr;
      }
      var line, l := OneLine(buf, ptr, width, str, bound);
      GreedyStep(str, bound, ptr);
      Assoc(lines, [line], Lines(str, ptr + l + 1, GreedyCuts(str, bound, ptr + l + 1)));
      Assoc(cuts, [ptr + l], GreedyCuts(str, bound, ptr + l + 1));
      lines := lines + [line];
      cuts := cuts + [ptr + l];
      ptr := ptr + l + 1;
    }
    GreedyDone(str, bound, ptr);
    assert all == cuts && Lines(str, 0, all) == lines;
    GreedyBest(str, bound);
    GreedyFull(str, bound, 0);
  }

  // ----- the string stack

  /** One element of the array: capacity 0 marks a buffer never set up, whose
      other fields mean nothing. */
  datatype Buf = Buf(cap: nat, len: nat, text: string)

  function Max(a: nat, b: nat): nat {
    if a < b then b else a
  }

  function Texts(bs: seq<Buf>): seq<string> {
    if bs == [] then [] else Texts(bs[..|bs| - 1]) + [bs[|bs| - 1].text]
  }

  lemma TextsSnoc(bs: seq<Buf>)
    requires bs != []
    ensures Texts(bs) == Texts(bs[..|bs| - 1]) + [bs[|bs| - 1].text]
  {
  }

  class StrStack {
    var list: array<Buf>
    var uninit: nat
    var nl: nat

    /** Elements below `uninit` are set up; those from there on carry the
        marker, so no garbage is ever taken for a buffer. */
    ghost predicate Valid()
      reads this, list
    {
      && nl <= uninit <= list.Length
      && (forall i :: 0 <= i < uninit ==> list[i].cap > 0 && list[i].len <= |list[i].text|)
      && (forall i :: nl <= i < uninit ==> list[i].len == 0)
      && (forall i :: 0 <= i < nl ==> list[i].len == |list[i].text|)
      && (forall i :: uninit <= i < list.Length ==> list[i].cap == 0)
    }

    ghost function Contents(): seq<string>
      reads this, list
      requires Valid()
    {
      Texts(list[..nl])
    }

    constructor ()
      ensures Valid() && Contents() == [] && fresh(list)
    {
      list := new Buf[0];
      uninit, nl := 0, 0;
    }

    /** The new elements carry the marker. */
    method Mark(data: array<Buf>, from: nat)
      requires from <= data.Length
      modifies data
      ensures forall k :: 0 <= k < from ==> data[k] == old(data[k])
      ensures forall k :: from <= k < data.Length ==> data[k].cap == 0
    {
      var i := from;
      while i < data.Length
        invariant from <= i <= data.Length
        invariant forall k :: 0 <= k < from ==> data[k] == old(data[k])
        invariant forall k :: from <= k < i ==> data[k].cap == 0
      {
        data[i] := data[i].(cap := 0);
        i := i + 1;
      }
    }

    /** strlist_grow1(): `garbage` is what realloc() leaves in the new part. */
    method Grow1(garbage: nat -> Buf)
      requires Valid()
      modifies this`list
      ensures Valid() && nl < list.Length && fresh(list) && Contents() == old(Contents())
    {
      hide Texts;
      ghost var kept := list[..nl];
      assert Contents() == Texts(kept);
      var cap := (list.Length + 16) * 3 / 2;
      if cap < nl + 1 {
        cap := nl + 1;
      }
      var data := new Buf[cap](garbage);
      forall i | 0 <= i < list.Length {
        data[i] := list[i];
      }
      Mark(data, uninit);
      list := data;
      assert list[..nl] == kept;
    }

    /** The element on top is set up; the others stay. */
    method Store(sb: Buf)
      requires 0 < nl <= uninit <= list.Length && sb.cap > 0 && sb.len == |sb.text|
      requires forall i :: 0 <= i < uninit && i != nl - 1 ==> list[i].cap > 0 && list[i].len <= |list[i].text|
      requires forall i :: nl <= i < uninit ==> list[i].len == 0
      requires forall i :: 0 <= i < nl - 1 ==> list[i].len == |list[i].text|
      requires forall i :: uninit <= i < list.Length ==> list[i].cap == 0
      modifies list
      ensures Valid() && list[..] == old(list[..])[nl - 1 := sb]
    {
      list[nl - 1] := sb;
    }

    /** strlist_push2() */
    method Push(str: string, extalloc: nat, garbage: nat -> Buf)
      requires Valid()
      modifies this, list
      ensures Valid() && (list == old(list) || fresh(list))
      ensures Contents() == old(Contents()) + [str]
    {
      hide Texts;
      if nl == list.Length {
        Grow1(garbage);
      }
      var sb := list[nl];
      if sb.cap == 0 {
        sb := Buf(0, 0, "");
      }
      nl := nl + 1;
      if uninit <= nl {
        uninit := nl;
      }
      // strbuf_concat2() at the current length, which is 0 for a fresh or
      // recycled buffer.
      var need := sb.len + |str| + extalloc + 1;
      ghost var was, all := list[..nl - 1], list[..];
      assert sb.text[..sb.len] + str == str;
      Store(Buf(Max(sb.cap, need), sb.len + |str|, sb.text[..sb.len] + str));
      UpdateAt(all, nl - 1, list[nl - 1]);
      assert list[..nl] == was + [list[nl - 1]] && list[..nl][..nl - 1] == was;
      TextsSnoc(list[..nl]);
    }

    /** strlist_pop2() */
    method Pop() returns (str: Option<string>)
      requires Valid()
      modifies this`nl, list
      ensures Valid()
      ensures old(Contents()) == [] ==> str == None && Contents() == []
      ensures old(Contents()) != [] ==> str.Some? && old(Contents()) == Contents() + [str.value]
    {
      if nl == 0 {
        return None;
      }
      nl := nl - 1;
      str := Some(list[nl].text);
      assert list[..nl + 1][..nl] == list[..nl];
      ghost var was := list[..nl];
      assert Texts(list[..nl + 1]) == Texts(was) + [str.value];
      list[nl] := list[nl].(len := 0);
      assert list[..nl] == was;
    }
  }
}
