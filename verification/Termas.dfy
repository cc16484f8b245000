/** Control characters in terminal messages: platfree/termas.c.  Each one is
    replaced by the three bytes of U+FFFD, in place and from right to left. */
module Termas {
  import opened Sequences

  newtype byte = b: int | 0 <= b < 256

  /** isascii(c) && !istab(c) && !isnewline(c) && iscntrl(c) */
  predicate IsControl(c: byte) {
    c != 9 && c != 10 && (c < 32 || c == 127)
  }

  const REPLACEMENT: seq<byte> := [0xEF, 0xBF, 0xBD]
  const REPLEN := 3
  const QUESTION: byte := 63
  const SIZES := 0x1_0000_0000_0000_0000

  /** The position array never grows past its first allocation. */
  const POSITIONS := 24

  // ----- what the message should read

  function Expand(s: seq<byte>): seq<byte> {
    if s == [] then []
    else (if IsControl(s[0]) then REPLACEMENT else [s[0]]) + Expand(s[1..])
  }

  /** When there is no room for the replacement. */
  function Mask(s: seq<byte>): seq<byte> {
    seq(|s|, i requires 0 <= i < |s| => if IsControl(s[i]) then QUESTION else s[i])
  }

  ghost predicate Plain(s: seq<byte>) {
    forall i :: 0 <= i < |s| ==> !IsControl(s[i])
  }

  lemma ExpandFirst(c: byte, s: seq<byte>)
    ensures Expand([c] + s) == (if IsControl(c) then REPLACEMENT else [c]) + Expand(s)
  {
    assert ([c] + s)[1..] == s;
  }

  lemma {:induction false} ExpandPlain(a: seq<byte>, b: seq<byte>)
    requires Plain(a)
    ensures Expand(a + b) == a + Expand(b)
    decreases |a|
  {
    hide Expand;
    if a == [] {
      assert a + b == b && a + Expand(b) == Expand(b);
    } else {
      var c, rest := a[0], a[1..];
      assert a == [c] + rest;
      ExpandFirst(c, rest + b);
      ExpandPlain(rest, b);
      Assoc([c], rest, b);
      Assoc([c], rest, Expand(b));
    }
  }

  lemma ExpandControl(c: byte, s: seq<byte>)
    requires IsControl(c)
    ensures Expand([c] + s) == REPLACEMENT + Expand(s)
  {
    ExpandFirst(c, s);
  }

  /** `pos` lists the control characters of `s`, in order and completely. */
  ghost predicate Lists(s: seq<byte>, pos: seq<nat>) {
    && (forall k :: 0 <= k < |pos| ==> pos[k] < |s| && IsControl(s[pos[k]]))
    && (forall j, k :: 0 <= j < k < |pos| ==> pos[j] < pos[k])
    && (forall i :: 0 <= i < |s| && IsControl(s[i]) ==> i in pos)
  }

  function Count(s: seq<byte>): nat {
    if s == [] then 0 else Count(s[..|s| - 1]) + if IsControl(s[|s| - 1]) then 1 else 0
  }

  lemma ListsMore(s: seq<byte>, pos: seq<nat>, c: byte)
    requires Lists(s, pos)
    ensures Lists(s + [c], if IsControl(c) then pos + [|s|] else pos)
  {
    var s' := s + [c];
    var pos' := if IsControl(c) then pos + [|s|] else pos;
    forall i | 0 <= i < |s'| && IsControl(s'[i]) ensures i in pos' {
      if i < |s| {
        assert i in pos;
      } else {
        assert pos'[|pos|] == i;
      }
    }
  }

  lemma {:induction false} CountMonotone(s: seq<byte>, k: nat)
    requires k <= |s|
    ensures Count(s[..k]) <= Count(s)
  {
    if k < |s| {
      assert s[..|s| - 1][..k] == s[..k];
      CountMonotone(s[..|s| - 1], k);
    } else {
      assert s[..k] == s;
    }
  }

  lemma CountMore(s: seq<byte>, i: nat)
    requires i < |s|
    ensures Count(s[..i + 1]) == Count(s[..i]) + (if IsControl(s[i]) then 1 else 0)
    ensures s[..i + 1] == s[..i] + [s[i]]
  {
    assert s[..i + 1][..i] == s[..i];
  }

  lemma NoneListed(s: seq<byte>, pos: seq<nat>)
    requires s == [] && pos == []
    ensures Count(s) == 0 && Lists(s, pos)
  {
  }

  /** record_cntrl_char(). The position array never grows: `overrun` reports
      that the C code would write behind it. */
  method Record(buf: array<byte>, n: nat, pos: array<nat>) returns (nr: nat, overrun: bool)
    requires n <= buf.Length
    modifies pos
    ensures overrun <==> Count(buf[..n]) > pos.Length
    ensures !overrun ==> nr == Count(buf[..n]) && Lists(buf[..n], pos[..nr])
  {
    hide *;
    ghost var s := buf[..n];
    nr, overrun := 0, false;
    var i := 0;
    NoneListed(s[..i], pos[..nr]);
    while i < n
      invariant 0 <= i <= n && nr == Count(s[..i]) && nr <= pos.Length && buf[..n] == s
      invariant Lists(s[..i], pos[..nr])
    {
      CountMore(s, i);
      CountMonotone(s, i + 1);
      ghost var before := pos[..nr];
      ListsMore(s[..i], before, s[i]);
      assert buf[i] == buf[..n][i] == s[i];
      if IsControl(buf[i]) {
        if nr == pos.Length {
          overrun := true;
          return;
        }
        pos[nr] := i;
        nr := nr + 1;
        assert pos[..nr] == before + [i];
      }
      i := i + 1;
    }
    assert s[..i] == s;
  }

  /** memmove() inside one buffer. */
  method MemMove(buf: array<byte>, dst: nat, src: nat, n: nat)
    requires dst + n <= buf.Length && src + n <= buf.Length
    modifies buf
    ensures forall k :: 0 <= k < buf.Length ==>
              buf[k] == if dst <= k < dst + n then old(buf[src + (k - dst)]) else old(buf[k])
  {
    forall i | 0 <= i < n {
      buf[dst + i] := buf[src + i];
    }
  }

  /** memcpy() of the replacement. */
  method PutReplacement(buf: array<byte>, at: nat)
    requires at + REPLEN <= buf.Length
    modifies buf
    ensures forall k :: 0 <= k < buf.Length ==>
              buf[k] == if at <= k < at + REPLEN then REPLACEMENT[k - at] else old(buf[k])
  {
    forall i | 0 <= i < REPLEN {
      buf[at + i] := REPLACEMENT[i];
    }
  }

  /** format_cntrl_char_simple() */
  method FormatSimple(buf: array<byte>, len: nat, pos: array<nat>, nr: nat)
    requires len <= buf.Length && nr <= pos.Length && Lists(buf[..len], pos[..nr])
    modifies buf
    ensures buf[..len] == Mask(old(buf[..len])) && buf[len..] == old(buf[len..])
  {
    ghost var s, cs := buf[..len], pos[..nr];
    var i := 0;
    while i < nr
      invariant 0 <= i <= nr && buf[len..] == old(buf[len..])
      invariant forall k :: 0 <= k < len ==> buf[k] == if k in cs[..i] then QUESTION else s[k]
    {
      assert cs[..i + 1] == cs[..i] + [cs[i]];
      buf[pos[i]] := QUESTION;
      i := i + 1;
    }
    assert cs[..i] == cs;
    forall k | 0 <= k < len ensures k in cs <==> IsControl(s[k]) {
    }
  }

  /** Where the part that still has to be moved ends, `i` positions before
      which are left. */
  ghost function Cut(len: nat, pos: seq<nat>, i: nat): nat
    requires i <= |pos|
  {
    if i == |pos| then len else pos[i]
  }

  /** Between one control character and the next the text is plain. */
  lemma Gap(s: seq<byte>, pos: seq<nat>, i: nat, k: nat)
    requires Lists(s, pos) && i <= |pos|
    requires (i > 0 ==> pos[i - 1] < k) && k < Cut(|s|, pos, i) && k < |s|
    ensures !IsControl(s[k])
  {
    assert forall j :: 0 <= j < |pos| ==> if j < i then pos[j] <= pos[i - 1] else pos[i] <= pos[j];
    assert k !in pos;
  }

  /** One round: the plain text between two control characters, and the first
      of them, become part of the finished tail. */
  lemma TailGrows(s: seq<byte>, pos: seq<nat>, i: nat)
    requires i < |pos| && Lists(s, pos)
    ensures var c, cut := pos[i], Cut(|s|, pos, i + 1);
            c < cut <= |s| && Expand(s[c..]) == REPLACEMENT + (s[c + 1..cut] + Expand(s[cut..]))
  {
    hide Expand;
    var c, cut := pos[i], Cut(|s|, pos, i + 1);
    forall k | c < k < cut ensures !IsControl(s[k]) {
      Gap(s, pos, i + 1, k);
    }
    DropOne(s, c);
    CutTail(s, c + 1, cut);
    ExpandControl(s[c], s[c + 1..]);
    ExpandPlain(s[c + 1..cut], s[cut..]);
  }

  lemma HeadPlain(s: seq<byte>, pos: seq<nat>)
    requires Lists(s, pos)
    ensures var cut := Cut(|s|, pos, 0); cut <= |s| && Expand(s) == s[..cut] + Expand(s[cut..])
  {
    hide Expand;
    var cut := Cut(|s|, pos, 0);
    forall k | 0 <= k < cut ensures !IsControl(s[k]) {
      Gap(s, pos, 0, k);
    }
    assert s == s[..cut] + s[cut..];
    ExpandPlain(s[..cut], s[cut..]);
  }

  /** The text after the control character at `c` is `off` further on, with the
      replacement before it; all before `c` and behind the text is left alone. */
  ghost predicate Moved(was: seq<byte>, now: seq<byte>, c: nat, lasidx: nat, off: nat) {
    && |was| == |now| && c <= lasidx && off >= REPLEN - 1 && lasidx + off < |now|
    && (forall k :: 0 <= k < c ==> now[k] == was[k])
    && (forall k :: 0 <= k < REPLEN ==> now[c + off - (REPLEN - 1) + k] == REPLACEMENT[k])
    && (forall k :: c < k <= lasidx ==> now[k + off] == was[k])
    && (forall k :: lasidx + off < k < |now| ==> now[k] == was[k])
  }

  /** The body of format_cntrl_char_advanced(): the text after the control
      character at `c` moves up to the finished tail, and the replacement takes
      the place before it.  Text up to `c` is left alone. */
  method MoveOne(buf: array<byte>, c: nat, lasidx: nat, off: nat)
    requires c <= lasidx && off >= REPLEN - 1 && lasidx + off < buf.Length
    modifies buf
    ensures Moved(old(buf[..]), buf[..], c, lasidx, off)
  {
    var baslen := lasidx - c;
    var base := c + 1;
    if baslen != 0 {
      MemMove(buf, base + off, base, baslen);
    }
    assert forall k :: c < k <= lasidx ==> buf[k + off] == old(buf[k]);
    assert forall k :: (0 <= k <= c || lasidx + off < k < buf.Length) ==> buf[k] == old(buf[k]);
    base := base + off;
    PutReplacement(buf, base - REPLEN);
  }

  lemma SameStart(was: seq<byte>, s: seq<byte>, cut: nat)
    requires cut <= |was| && cut <= |s| && was[..cut] == s[..cut]
    ensures forall k :: 0 <= k < cut ==> was[k] == s[k]
  {
    assert forall k :: 0 <= k < cut ==> was[..cut][k] == s[..cut][k];
  }

  lemma ReplacementAt(was: seq<byte>, now: seq<byte>, c: nat, lasidx: nat, off: nat)
    requires Moved(was, now, c, lasidx, off)
    ensures now[c + off - (REPLEN - 1)..c + off + 1] == REPLACEMENT
  {
    var at := c + off - (REPLEN - 1);
    assert now[at + 0] == REPLACEMENT[0] && now[at + 1] == REPLACEMENT[1] && now[at + 2] == REPLACEMENT[2];
  }

  lemma EndsAlike(was: seq<byte>, now: seq<byte>, s: seq<byte>, c: nat, lasidx: nat, off: nat, end: nat)
    requires Moved(was, now, c, lasidx, off) && lasidx < |s| && lasidx + 1 + off <= end <= |now|
    requires forall k :: 0 <= k < lasidx + 1 ==> was[k] == s[k]
    ensures now[..c] == s[..c] && now[end..] == was[end..]
    ensures now[lasidx + 1 + off..end] == was[lasidx + 1 + off..end]
  {
  }

  lemma MiddleMoved(was: seq<byte>, now: seq<byte>, s: seq<byte>, c: nat, lasidx: nat, off: nat)
    requires Moved(was, now, c, lasidx, off) && lasidx < |s|
    requires forall k :: 0 <= k < lasidx + 1 ==> was[k] == s[k]
    ensures now[c + 1 + off..lasidx + 1 + off] == s[c + 1..lasidx + 1]
  {
    var x, y := now[c + 1 + off..lasidx + 1 + off], s[c + 1..lasidx + 1];
    forall k | 0 <= k < |x| ensures x[k] == y[k] {
      assert now[(c + 1 + k) + off] == was[c + 1 + k];
    }
  }

  lemma Three(s: seq<byte>, a: nat, b: nat, c: nat, d: nat)
    requires a <= b <= c <= d <= |s|
    ensures s[a..d] == s[a..b] + (s[b..c] + s[c..d])
  {
  }

  /** The finished tail after one round. */
  lemma Assemble(was: seq<byte>, now: seq<byte>, s: seq<byte>, c: nat, lasidx: nat, off: nat, end: nat)
    requires |was| == |now| && c <= lasidx < |s| && off >= REPLEN - 1 && lasidx + 1 + off <= end <= |now|
    requires was[..lasidx + 1] == s[..lasidx + 1]
    requires Moved(was, now, c, lasidx, off)
    ensures now[..c] == s[..c] && now[end..] == was[end..]
    ensures now[c + off - (REPLEN - 1)..end] == REPLACEMENT + (s[c + 1..lasidx + 1] + was[lasidx + 1 + off..end])
  {
    var cut, at := lasidx + 1, c + off - (REPLEN - 1);
    hide Moved;
    SameStart(was, s, cut);
    ReplacementAt(was, now, c, lasidx, off);
    MiddleMoved(was, now, s, c, lasidx, off);
    EndsAlike(was, now, s, c, lasidx, off, end);
    Three(now, at, at + REPLEN, cut + off, end);
  }

  /** The buffer between rounds: text up to `cut` as it was, the rest of the
      message expanded at its final place. */
  ghost predicate Split(b: seq<byte>, s: seq<byte>, cut: nat, off: nat, end: nat) {
    && cut <= |s| && cut + off <= end <= |b|
    && b[..cut] == s[..cut] && b[cut + off..end] == Expand(s[cut..])
  }

  lemma Round(was: seq<byte>, now: seq<byte>, s: seq<byte>, pos: seq<nat>, i: nat, c: nat, lasidx: nat, off: nat,
              end: nat)
    requires |was| == |now| && off >= REPLEN - 1 && Lists(s, pos) && i < |pos| && c == pos[i] <= lasidx
    requires lasidx + 1 == Cut(|s|, pos, i + 1) && Split(was, s, lasidx + 1, off, end)
    requires Moved(was, now, c, lasidx, off)
    ensures Split(now, s, c, off - (REPLEN - 1), end) && now[end..] == was[end..]
  {
    hide Expand, Lists;
    TailGrows(s, pos, i);
    Assemble(was, now, s, c, lasidx, off, end);
  }

  lemma ExpandNone(s: seq<byte>, t: seq<byte>)
    requires s == [] && t == []
    ensures t == Expand(s)
  {
  }

  lemma SplitStart(b: seq<byte>, s: seq<byte>, off: nat)
    requires |s| + off <= |b| && b[..|s|] == s
    ensures Split(b, s, |s|, off, |s| + off)
  {
    ExpandNone(s[|s|..], b[|s| + off..|s| + off]);
  }

  lemma SplitEnd(b: seq<byte>, s: seq<byte>, pos: seq<nat>, end: nat)
    requires Lists(s, pos) && Cut(|s|, pos, 0) <= |s| && Split(b, s, Cut(|s|, pos, 0), 0, end)
    ensures b[..end] == Expand(s)
  {
    hide Expand, Lists;
    HeadPlain(s, pos);
    CutAt(b, Cut(|s|, pos, 0), end);
  }

  lemma SplitBounds(b: seq<byte>, s: seq<byte>, cut: nat, off: nat, end: nat)
    requires Split(b, s, cut, off, end)
    ensures cut + off <= end <= |b|
  {
  }

  /** format_cntrl_char_advanced() */
  method FormatAdvanced(buf: array<byte>, len: nat, pos: array<nat>, nr: nat)
    requires nr <= pos.Length && len + nr * (REPLEN - 1) <= buf.Length
    requires Lists(buf[..len], pos[..nr])
    modifies buf
    ensures buf[..len + nr * (REPLEN - 1)] == Expand(old(buf[..len]))
    ensures buf[len + nr * (REPLEN - 1)..] == old(buf[len + nr * (REPLEN - 1)..])
  {
    hide Expand, Lists, Split, Moved;
    ghost var s, cs := buf[..len], pos[..nr];
    ghost var end := len + 2 * nr;
    var lasidx: int := len - 1;
    var off := nr * (REPLEN - 1);
    var i := nr;
    SplitStart(buf[..], s, off);
    while i > 0
      invariant 0 <= i <= nr && off == 2 * i && lasidx + 1 == Cut(len, cs, i) && pos[..nr] == cs
      invariant 0 <= lasidx + 1 <= len && Split(buf[..], s, lasidx + 1, off, end)
      invariant buf[..][end..] == old(buf[..][end..])
    {
      i := i - 1;
      var c: int := pos[i];
      assert c == pos[..nr][i] == cs[i];
      TailGrows(s, cs, i);
      ghost var was := buf[..];
      SplitBounds(was, s, lasidx + 1, off, end);
      MoveOne(buf, c, lasidx, off);
      Round(was, buf[..], s, cs, i, c, lasidx, off, end);
      off := off - (REPLEN - 1);
      lasidx := -1 + c;
    }
    SplitEnd(buf[..], s, cs, end);
  }

  lemma {:induction false} ExpandSnoc(s: seq<byte>, c: byte)
    ensures Expand(s + [c]) == Expand(s) + if IsControl(c) then REPLACEMENT else [c]
  {
    if s == [] {
      assert s + [c] == [c] && [c][1..] == [];
    } else {
      assert (s + [c])[1..] == s[1..] + [c];
      ExpandSnoc(s[1..], c);
    }
  }

  lemma {:induction false} ExpandLength(s: seq<byte>)
    ensures |Expand(s)| == |s| + (REPLEN - 1) * Count(s)
  {
    if s != [] {
      var init, last := s[..|s| - 1], s[|s| - 1];
      ExpandLength(init);
      ExpandSnoc(init, last);
      SplitLast(s);
    }
  }

  lemma {:induction false} NoControls(s: seq<byte>)
    requires Count(s) == 0
    ensures Expand(s) == s
  {
    if s != [] {
      var init, last := s[..|s| - 1], s[|s| - 1];
      NoControls(init);
      ExpandSnoc(init, last);
      SplitLast(s);
    }
  }

  // ----- what is shown

  /** Fit for a terminal: of the bytes below 32 only tab and newline, and no 127. */
  ghost predicate Clean(s: seq<byte>) {
    forall i :: 0 <= i < |s| ==> s[i] == 9 || s[i] == 10 || (s[i] >= 32 && s[i] != 127)
  }

  lemma CleanConcat(a: seq<byte>, b: seq<byte>)
    requires Clean(a) && Clean(b)
    ensures Clean(a + b)
  {
  }

  lemma CleanOne(c: byte)
    ensures Clean(if IsControl(c) then REPLACEMENT else [c])
  {
  }

  lemma {:induction false} ExpandClean(s: seq<byte>)
    ensures Clean(Expand(s))
  {
    if s != [] {
      ExpandClean(s[1..]);
      CleanOne(s[0]);
      CleanConcat(if IsControl(s[0]) then REPLACEMENT else [s[0]], Expand(s[1..]));
    }
  }

  lemma MaskClean(s: seq<byte>)
    ensures Clean(Mask(s))
  {
  }

  lemma {:induction false} ExpandConcat(a: seq<byte>, b: seq<byte>)
    ensures Expand(a + b) == Expand(a) + Expand(b)
  {
    if b == [] {
      assert a + b == a;
    } else {
      hide Expand;
      var head, c := b[..|b| - 1], b[|b| - 1];
      var last := if IsControl(c) then REPLACEMENT else [c];
      SplitLast(b);
      Assoc(a, head, [c]);
      ExpandConcat(a, head);
      ExpandSnoc(a + head, c);
      ExpandSnoc(head, c);
      Assoc(Expand(a), Expand(head), last);
    }
  }

  lemma Within(a: seq<byte>, m: seq<byte>, b: seq<byte>)
    ensures forall k :: 0 <= k < |m| ==> (a + m + b)[|a| + k] == m[k]
  {
  }

  lemma ExpandOne(c: byte)
    ensures Expand([c]) == if IsControl(c) then REPLACEMENT else [c]
  {
    assert [c][1..] == [];
  }

  /** Each byte of the text is at its place in the expanded one: behind the text
      before it and two more bytes for each control character there; a control
      character stands there as the three bytes of U+FFFD. */
  lemma ExpandAt(s: seq<byte>, i: nat)
    requires i < |s|
    ensures var t, at := Expand(s), i + 2 * Count(s[..i]);
            if (s[i] < 32 && s[i] != 9 && s[i] != 10) || s[i] == 127 then
              at + 3 <= |t| && t[at] == 239 && t[at + 1] == 191 && t[at + 2] == 189
            else at < |t| && t[at] == s[i]
  {
    hide Expand, Count;
    var a, c, b := s[..i], [s[i]], s[i + 1..];
    assert s == a + c + b;
    ExpandConcat(a, c);
    ExpandConcat(a + c, b);
    ExpandOne(s[i]);
    ExpandLength(a);
    Within(Expand(a), Expand(c), Expand(b));
    var t := Expand(a) + Expand(c) + Expand(b);
    assert IsControl(s[i]) ==> t[|Expand(a)| + 1] == Expand(c)[1] && t[|Expand(a)| + 2] == Expand(c)[2];
    assert t[|Expand(a)| + 0] == Expand(c)[0];
  }

  /** Masked, each control character is a '?', and each other byte what it was. */
  lemma MaskAt(s: seq<byte>, i: nat)
    requires i < |s|
    ensures |Mask(s)| == |s|
    ensures Mask(s)[i] == if (s[i] < 32 && s[i] != 9 && s[i] != 10) || s[i] == 127 then 63 else s[i]
  {
  }

  /** vreport_format_cntrl_char().  The room left shrinks by what the
      replacements would take even when there is no room for them, and wraps. */
  method FormatCntrlChar(buf: array<byte>, len: nat, avail: nat) returns (avail': nat, undef: bool)
    requires len + avail <= buf.Length && buf.Length < SIZES
    modifies buf
    ensures undef <==> Count(old(buf[..len])) > 24
    ensures var s := old(buf[..len]); var off := (REPLEN - 1) * Count(s);
            !undef ==>
            && (off <= avail ==> buf[..len + off] == Expand(s) && avail' == avail - off)
            && (off > avail ==> buf[..len] == Mask(s) && avail' == avail - off + SIZES)
            && Clean(buf[..len + if off <= avail then off else 0])
            && buf[len + (if off <= avail then off else 0)..] == old(buf[len + (if off <= avail then off else 0)..])
  {
    hide Expand, Mask, Clean, Count, Lists;
    ExpandClean(buf[..len]);
    MaskClean(buf[..len]);
    var pos := new nat[POSITIONS];
    var nr;
    nr, undef := Record(buf, len, pos);
    avail' := avail;
    if undef {
      return;
    }
    ghost var s := buf[..len];
    if nr == 0 {
      NoControls(s);
      avail' := avail;
      return;
    }
    var off := nr * (REPLEN - 1);
    if off > avail {
      FormatSimple(buf, len, pos, nr);
    } else {
      FormatAdvanced(buf, len, pos, nr);
    }
    avail' := if off <= avail then avail - off else avail - off + SIZES;
  }

  lemma MaskLength(s: seq<byte>)
    ensures |Mask(s)| == |s|
  {
  }

  lemma WrapsAround(n: nat)
    requires n < SIZES
    ensures n % SIZES == n && (n - SIZES) % SIZES == n
  {
  }

  lemma {:induction false} CountBound(s: seq<byte>)
    ensures Count(s) <= |s|
  {
    if s != [] {
      CountBound(s[..|s| - 1]);
    }
  }

  /** vreportf() derives the length of the message from the room left; that is
      the length of the message if and only if the replacements fit. */
  lemma LengthIff(s: seq<byte>, size: nat, avail: nat, avail': nat, shown: seq<byte>)
    requires |s| + avail == size && REPLEN * size < SIZES
    requires var off := (REPLEN - 1) * Count(s);
             if off <= avail then shown == Expand(s) && avail' == avail - off
             else shown == Mask(s) && avail' == avail - off + SIZES
    ensures |shown| == (size - avail') % SIZES <==> (REPLEN - 1) * Count(s) <= avail
  {
    hide Expand, Mask;
    ExpandLength(s);
    CountBound(s);
    MaskLength(s);
    var off := (REPLEN - 1) * Count(s);
    WrapsAround(|s| + off);
    assert size - avail' == if off <= avail then |s| + off else |s| + off - SIZES;
  }
}
