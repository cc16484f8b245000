/** platfree/dotsav.c: the configuration file, parsed line by line in its
    buffer. */
module DotSav {
  import opened CString
  import opened Lexer
  import opened Sequences
  import BakSched

  datatype Key = Config | Save | Backup | Compress | Period | Stack

  function KeyName(k: Key): (s: string)
    ensures s != ""
  {
    match k
    case Config => "config"
    case Save => "save"
    case Backup => "backup"
    case Compress => "compress"
    case Period => "period"
    case Stack => "stack"
  }

  /** dotsav_parse()'s table without its end marker: that has a type of its own,
      so the search does not stop there. */
  const TABLE: seq<Key> := [Config, Save, Backup, Compress, Period, Stack]

  /** struct savesave, as far as it is parsed. */
  datatype Sav = Sav(name: string, save: Option<string>, backup: Option<string>,
                     isDir: bool, compress: bool, period: nat, stack: nat,
                     taskIdx: nat, taskPos: BakSched.Word)

  /** What interpret_save() finds out about a path: no absolute path, not there,
      or empty and neither file nor directory; else what it is. */
  datatype Probe = Unusable | RegularFile | DirectoryFile | OtherFile

  /** Success, die(), or behaviour that the program does not define: a line
      without any key of the table, a field before the first config. */
  datatype Outcome = Ok(savs: seq<Sav>) | Die | Undefined

  // ---- what a text means -----------------------------------------------------

  /** The lines of a text, without their newlines. */
  function Lines(text: string): (ls: seq<string>)
    ensures ls != []
    decreases |text|
  {
    var k := StrChrNul(text, '\n');
    if k == |text| then [text] else [text[..k]] + Lines(text[k + 1..])
  }

  /** The search for a key. A key that is not followed by a space is skipped
      nevertheless: the search goes on behind it. */
  function FindKey(keys: seq<Key>, line: string): (r: Option<(Key, string)>) {
    if keys == [] then None
    else if !(KeyName(keys[0]) <= line) then FindKey(keys[1..], line)
    else
      var rest := line[|KeyName(keys[0])|..];
      var val := DropSpaces(rest);
      if val == rest then FindKey(keys[1..], rest) else Some((keys[0], val))
  }

  predicate Named(savs: seq<Sav>, name: string) {
    exists i :: 0 <= i < |savs| && savs[i].name == name
  }

  /** append_savesave() */
  function Blank(n: nat): (s: Sav) {
    Sav("", None, None, false, false, 0, 0, n / BakSched.ULLONG, BakSched.Pos(n))
  }

  /** apply_savent() with the callbacks of the table. */
  function Applied(k: Key, sav: Sav, val: string, probe: string -> Probe): (r: Option<Sav>)
    requires val != ""
  {
    match k
    case Config => if NoSpace(val) then Some(sav.(name := val)) else None
    case Save =>
      (match probe(val)
       case Unusable => None
       case RegularFile => Some(sav.(save := Some(val), isDir := false))
       case DirectoryFile => Some(sav.(save := Some(val), isDir := true))
       case OtherFile => Some(sav.(save := Some(val))))
    case Backup => Some(sav.(backup := Some(val)))
    case Compress =>
      (match ToBool(val)
       case None => None
       case Some(b) => Some(sav.(compress := b)))
    case Period =>
      (match ToTimespan(val)
       case None => None
       case Some(n) => if n == 0 then None else Some(sav.(period := n)))
    case Stack =>
      (match ToULL(val, |val|, UINT8_MAX)
       case None => None
       case Some(n) => if n == 0 then None else Some(sav.(stack := n)))
  }

  /** A key with its value, both without the spaces around them. */
  function Entry(savs: seq<Sav>, k: Key, val: string, probe: string -> Probe): (o: Outcome) {
    if val == "" then Die
    else if k == Config && Named(savs, val) then Die
    else
      var all := if k == Config then savs + [Blank(|savs|)] else savs;
      if all == [] then Undefined
      else
        var n := |all| - 1;
        match Applied(k, all[n], val, probe)
        case None => Die
        case Some(sav) => Ok(all[n := sav])
  }

  /** parse_line() */
  function ParseLine(savs: seq<Sav>, line: string, probe: string -> Probe): (o: Outcome) {
    var body := DropSpaces(line);
    if body == "" || body[0] == '#' then Ok(savs)
    else
      match FindKey(TABLE, body)
      case None => Undefined
      case Some((k, val)) => Entry(savs, k, TrimEnd(val), probe)
  }

  function ParseLines(savs: seq<Sav>, lines: seq<string>, probe: string -> Probe): (o: Outcome)
    decreases |lines|
  {
    if lines == [] then Ok(savs)
    else
      match ParseLine(savs, lines[0], probe)
      case Ok(more) => ParseLines(more, lines[1..], probe)
      case o => o
  }

  /** check_valid_savent() finds nothing missing. */
  predicate Complete(s: Sav) {
    s.save.Some? && s.backup.Some? && s.period != 0 && s.stack != 0
  }

  /** The prefix of the backup files: update_backup_prefix(), where `ext` is the
      configured extension of archives. */
  function Prefix(s: Sav, ext: string): string
    requires s.backup.Some?
  {
    s.backup.value + "/" + s.name + if s.compress then "." + ext + "." else "."
  }

  function Finalized(savs: seq<Sav>, ext: string): (o: Outcome) {
    if exists i :: 0 <= i < |savs| && !Complete(savs[i]) then Die
    else Ok(seq(|savs|, i requires 0 <= i < |savs| => savs[i].(backup := Some(Prefix(savs[i], ext)))))
  }

  function Parse(text: string, probe: string -> Probe, ext: string): (o: Outcome) {
    match ParseLines([], Lines(text), probe)
    case Ok(savs) => Finalized(savs, ext)
    case o => o
  }

  // ---- doing it in the buffer ------------------------------------------------

  /** The C string that begins at `p`. */
  ghost function CStr(s: seq<char>, p: nat): (r: string) {
    if p < |s| then s[p..][..StrChrNul(s[p..], NUL)] else ""
  }

  ghost predicate Terminated(s: seq<char>, p: nat) {
    p < |s| && NUL in s[p..]
  }

  /** A C string, given its length. */
  lemma CStrIs(s: seq<char>, p: nat, n: nat)
    requires p + n < |s| && NUL !in s[p..p + n] && s[p + n] == NUL
    ensures Terminated(s, p) && CStr(s, p) == s[p..p + n]
  {
    assert s[p..][..n] == s[p..p + n] && s[p..][n] == NUL;
    StrChrNulIs(s[p..], NUL, n);
  }

  lemma CStrEnds(s: seq<char>, p: nat)
    requires Terminated(s, p)
    ensures var n := |CStr(s, p)|; p + n < |s| && s[p + n] == NUL && CStr(s, p) == s[p..p + n] && NUL !in s[p..p + n]
    ensures forall i :: p <= i < p + |CStr(s, p)| ==> s[i] != NUL
  {
    var n := StrChrNul(s[p..], NUL);
    assert n < |s[p..]|;
    assert s[p..][..n] == s[p..p + n];
  }

  /** Characters on, within the same string. */
  lemma CStrOn(s: seq<char>, p: nat, k: nat)
    requires Terminated(s, p) && k <= |CStr(s, p)|
    ensures Terminated(s, p + k) && CStr(s, p + k) == CStr(s, p)[k..]
  {
    CStrEnds(s, p);
    hide CStr, Terminated;
    var n := |CStr(s, p)|;
    DropOfSlice(s, p, p + n, k);
    assert forall i :: p + k <= i < p + n ==> s[i] != NUL;
    CStrIs(s, p + k, n - k);
  }

  /** Reading a character of the string, or the NUL behind it. */
  lemma CharAt(s: seq<char>, p: nat, i: nat)
    requires Terminated(s, p) && i <= |CStr(s, p)|
    ensures p + i < |s| && s[p + i] == if i < |CStr(s, p)| then CStr(s, p)[i] else NUL
    ensures i < |CStr(s, p)| ==> s[p + i] != NUL
  {
    CStrEnds(s, p);
  }

  ghost function DropFrom(s: string, i: nat): string
    requires i <= |s|
  {
    DropSpaces(s[i..])
  }

  ghost function TrimTo(s: string, i: nat): string
    requires i <= |s|
  {
    TrimEnd(s[..i])
  }

  lemma DropStep(s: string, i: nat)
    requires i <= |s|
    ensures DropFrom(s, 0) == DropSpaces(s)
    ensures if i < |s| && IsSpace(s[i]) then DropFrom(s, i) == DropFrom(s, i + 1) else DropFrom(s, i) == s[i..]
  {
    assert s[0..] == s;
    if i < |s| {
      OfDrop(s, i, 1);
    }
  }

  lemma TrimWhole(s: string)
    ensures TrimTo(s, |s|) == TrimEnd(s)
  {
    assert s[..|s|] == s;
  }

  lemma TrimLast(t: string)
    ensures TrimEnd(t) == if t != "" && IsSpace(t[|t| - 1]) then TrimEnd(t[..|t| - 1]) else t
  {
  }

  lemma TrimStep(s: string, i: nat)
    requires i <= |s|
    ensures if i > 0 && IsSpace(s[i - 1]) then TrimTo(s, i) == TrimTo(s, i - 1) else TrimTo(s, i) == s[..i]
  {
    var t := s[..i];
    TrimLast(t);
    if i > 0 {
      TakeOfTake(s, i, i - 1);
    }
    hide TrimEnd, IsSpace;
  }

  lemma SegmentAt(s: seq<char>, text: string, at: nat, next: nat)
    requires at <= next <= |text| < |s| && NUL !in text && s[next] == NUL
    requires forall i :: at <= i < next ==> s[i] == text[i]
    ensures Terminated(s, at) && CStr(s, at) == text[at..next]
  {
    var seg := text[at..next];
    assert s[at..next] == seg;
    assert NUL !in seg by {
      assert forall c :: c in seg ==> c in text;
    }
    CStrIs(s, at, next - at);
  }

  lemma SegmentOf(text: string, at: nat, next: nat)
    requires at <= next <= |text|
    ensures text[at..][..next - at] == text[at..next]
    ensures next < |text| ==> text[at..][next - at + 1..] == text[next + 1..]
  {
  }

  lemma LinesFirst(t: string)
    ensures var k := StrChrNul(t, '\n'); Lines(t) == [t[..k]] + if k == |t| then [] else Lines(t[k + 1..])
  {
    hide StrChrNul;
    assert t[..|t|] == t && [t] + [] == [t];
  }

  /** One line of the text. */
  lemma LinesOn(text: string, at: nat)
    requires at <= |text|
    ensures var next := at + StrChrNul(text[at..], '\n');
            && next <= |text|
            && Lines(text[at..]) == [text[at..next]] + (if next == |text| then [] else Lines(text[next + 1..]))
  {
    hide Lines, StrChrNul;
    LinesFirst(text[at..]);
    SegmentOf(text, at, at + StrChrNul(text[at..], '\n'));
  }

  lemma ParseLinesOn(savs: seq<Sav>, line: string, rest: seq<string>, probe: string -> Probe)
    ensures var o := ParseLine(savs, line, probe);
            ParseLines(savs, [line] + rest, probe) == if o.Ok? then ParseLines(o.savs, rest, probe) else o
  {
    hide ParseLine;
    assert ([line] + rest)[1..] == rest;
  }

  lemma ParseLinesEnd(savs: seq<Sav>, probe: string -> Probe)
    ensures ParseLines(savs, [], probe) == Ok(savs)
  {
  }

  datatype Status = Fine | Failed | Lost

  /** What the methods return for an outcome. */
  ghost predicate Leads(o: Outcome, ret: Status, savarr: seq<Sav>) {
    match o
    case Ok(savs) => ret == Fine && savarr == savs
    case Die => ret == Failed
    case Undefined => ret == Lost
  }

  lemma FindKeyNext(keys: seq<Key>, i: nat, line: string)
    requires i < |keys|
    ensures var name := KeyName(keys[i]);
            FindKey(keys[i..], line) ==
            if !(name <= line) then FindKey(keys[i + 1..], line)
            else if DropSpaces(line[|name|..]) == line[|name|..] then FindKey(keys[i + 1..], line[|name|..])
            else Some((keys[i], DropSpaces(line[|name|..])))
  {
    hide KeyName, DropSpaces;
    assert keys[i..][0] == keys[i] && keys[i..][1..] == keys[i + 1..];
  }

  lemma FindKeyNone(line: string)
    ensures FindKey(TABLE[|TABLE|..], line) == None
  {
  }

  lemma KeyNameIs(k: Key)
    ensures NUL !in KeyName(k)
  {
  }

  lemma NoValue(savs: seq<Sav>, k: Key, probe: string -> Probe)
    ensures Entry(savs, k, "", probe) == Die
  {
  }

  lemma CStrCopy(s: seq<char>, p: nat)
    requires Terminated(s, p)
    ensures p + |CStr(s, p)| < |s| && s[p..p + |CStr(s, p)|] == CStr(s, p)
  {
    CStrEnds(s, p);
  }

  /** A NUL written into a string cuts it there. */
  lemma CutString(s: seq<char>, s': seq<char>, p: nat, k: nat)
    requires Terminated(s, p) && k <= |CStr(s, p)| && p + k < |s| && s' == s[p + k := NUL]
    ensures Terminated(s', p) && CStr(s', p) == CStr(s, p)[..k]
  {
    CStrEnds(s, p);
    assert s'[p..p + k] == CStr(s, p)[..k];
    CStrIs(s', p, k);
  }

  class Parser {
    const buf: array<char>

    var line: nat

    /** ctx->savarr up to ctx->savnl */
    var savarr: seq<Sav>

    constructor (buf: array<char>)
      ensures this.buf == buf && line == 0 && savarr == []
    {
      this.buf, line, savarr := buf, 0, [];
    }

    /** strskipws() */
    method StrSkipWs(p: nat) returns (q: nat)
      requires Terminated(buf[..], p)
      ensures p <= q && Terminated(buf[..], q)
      ensures CStr(buf[..], q) == DropSpaces(CStr(buf[..], p))
      ensures q + |CStr(buf[..], q)| == p + |CStr(buf[..], p)|
    {
      hide CStr, Terminated, DropSpaces, DropFrom;
      ghost var all, s, i: nat := buf[..], CStr(buf[..], p), 0;
      CharAt(all, p, 0);
      DropStep(s, 0);
      q := p;
      while IsSpace(buf[q])
        invariant q == p + i && i <= |s| && q < buf.Length && buf[..] == all
        invariant DropFrom(s, i) == DropSpaces(s)
        decreases |s| - i
      {
        CharAt(all, p, i);
        DropStep(s, i);
        q, i := q + 1, i + 1;
        CharAt(all, p, i);
      }
      CharAt(all, p, i);
      DropStep(s, i);
      CStrOn(all, p, i);
    }

    /** strnxtws(): where the first space is, if there is one. */
    method StrNxtWs(p: nat) returns (ws: Option<nat>)
      requires Terminated(buf[..], p)
      ensures var s := CStr(buf[..], p);
              match ws
              case None => NoSpace(s)
              case Some(q) => p <= q < p + |s| && IsSpace(s[q - p]) && NoSpace(s[..q - p])
    {
      hide CStr, Terminated;
      ghost var all, s := buf[..], CStr(buf[..], p);
      CharAt(all, p, 0);
      var q := p;
      while buf[q] != NUL && !IsSpace(buf[q])
        invariant p <= q <= p + |s| && q < buf.Length && buf[..] == all
        invariant forall i :: 0 <= i < q - p ==> !IsSpace(s[i])
        decreases p + |s| - q
      {
        CharAt(all, p, q - p);
        q := q + 1;
        CharAt(all, p, q - p);
      }
      CharAt(all, p, q - p);
      return if buf[q] == NUL then None else Some(q);
    }

    /** strlen() */
    method StrLen(p: nat) returns (n: nat)
      requires Terminated(buf[..], p)
      ensures n == |CStr(buf[..], p)|
    {
      hide CStr, Terminated;
      ghost var all, s := buf[..], CStr(buf[..], p);
      n := 0;
      CharAt(all, p, 0);
      while buf[p + n] != NUL
        invariant n <= |s| && p + n < buf.Length && buf[..] == all
        decreases |s| - n
      {
        CharAt(all, p, n);
        n := n + 1;
        CharAt(all, p, n);
      }
      CharAt(all, p, n);
    }

    /** strtrimend(): the end of the string is cut off where the spaces begin. */
    method StrTrimEnd(p: nat)
      requires Terminated(buf[..], p)
      modifies buf
      ensures Terminated(buf[..], p) && CStr(buf[..], p) == TrimEnd(old(CStr(buf[..], p)))
      ensures forall i :: 0 <= i < buf.Length && !(p <= i <= p + |old(CStr(buf[..], p))|) ==> buf[i] == old(buf[i])
    {
      hide CStr, Terminated, TrimEnd, TrimTo;
      ghost var all, s := buf[..], CStr(buf[..], p);
      var len := StrLen(p);
      CharAt(all, p, len);
      TrimWhole(s);
      var tail := p + len;
      ghost var i: nat := len;
      while tail != p && IsSpace(buf[tail - 1])
        invariant tail == p + i && 0 <= i <= |s| && buf[..] == all
        invariant TrimTo(s, i) == TrimEnd(s)
        decreases tail
      {
        CharAt(all, p, i - 1);
        TrimStep(s, i);
        tail, i := tail - 1, i - 1;
      }
      if tail != p {
        CharAt(all, p, i - 1);
      }
      TrimStep(s, i);
      CharAt(all, p, i);
      buf[tail] := NUL;
      CutString(all, buf[..], p, i);
    }

    /** strskip(): what is behind `pref`, if the string begins with it. */
    method StrSkip(p: nat, pref: string) returns (q: Option<nat>)
      requires Terminated(buf[..], p) && NUL !in pref
      ensures q.Some? <==> pref <= CStr(buf[..], p)
      ensures q.Some? ==> q.value == p + |pref| && Terminated(buf[..], q.value)
      ensures q.Some? ==> CStr(buf[..], q.value) == CStr(buf[..], p)[|pref|..]
    {
      hide CStr, Terminated;
      ghost var all, s := buf[..], CStr(buf[..], p);
      var i := 0;
      while i < |pref|
        invariant i <= |pref| && i <= |s| && s[..i] == pref[..i] && buf[..] == all
      {
        CharAt(all, p, i);
        assert pref[i] != NUL;
        if buf[p + i] != pref[i] {
          return None;
        }
        i := i + 1;
      }
      CStrOn(all, p, i);
      return Some(p + i);
    }

    /** find_savent_collision() */
    method FindSaventCollision(val: string) returns (i: nat)
      ensures i <= |savarr| && (i < |savarr| <==> Named(savarr, val))
    {
      i := 0;
      while i < |savarr|
        invariant i <= |savarr| && forall j :: 0 <= j < i ==> savarr[j].name != val
      {
        if savarr[i].name == val {
          return;
        }
        i := i + 1;
      }
    }

    /** append_savesave() */
    method AppendSavesave()
      modifies this`savarr
      ensures savarr == old(savarr) + [Blank(|old(savarr)|)]
    {
      savarr := savarr + [Blank(|savarr|)];
    }

    /** apply_savent(), on the last record and the string at `val`. */
    method ApplySavent(k: Key, val: nat, probe: string -> Probe) returns (err: bool)
      requires savarr != [] && Terminated(buf[..], val) && CStr(buf[..], val) != ""
      modifies this`savarr
      ensures match Applied(k, old(savarr[|savarr| - 1]), CStr(buf[..], val), probe)
              case None => err
              case Some(sav) => !err && savarr == old(savarr[|savarr| - 1 := sav])
    {
      hide CStr, Terminated, ToULL, ToTimespan, ToBool;
      var len := StrLen(val);
      CStrCopy(buf[..], val);
      var text := buf[val..val + len];
      var n := |savarr| - 1;
      var sav := savarr[n];
      match k {
        case Config =>
          var ws := StrNxtWs(val);
          if ws.Some? {
            return true;
          }
          sav := sav.(name := text);
        case Save =>
          sav := sav.(save := Some(text));
          match probe(text) {
            case Unusable => return true;
            case RegularFile => sav := sav.(isDir := false);
            case DirectoryFile => sav := sav.(isDir := true);
            case OtherFile =>
          }
        case Backup =>
          sav := sav.(backup := Some(text));
        case Compress =>
          var b := ToBool(text);
          if b.None? {
            return true;
          }
          sav := sav.(compress := b.value);
        case Period =>
          var span := ToTimespan(text);
          if span.None? || span.value == 0 {
            return true;
          }
          sav := sav.(period := span.value);
        case Stack =>
          var depth := ToULL(text, len, UINT8_MAX);
          if depth.None? || depth.value == 0 {
            return true;
          }
          sav := sav.(stack := depth.value);
      }
      savarr := savarr[n := sav];
      return false;
    }

    /** The loop of parse_line(), up to the first key that a space follows. */
    method SearchKey(start: nat) returns (key: Option<Key>, val: nat)
      requires Terminated(buf[..], start)
      ensures match FindKey(TABLE, CStr(buf[..], start))
              case None => key == None
              case Some((k, v)) =>
                && key == Some(k) && start <= val && Terminated(buf[..], val) && CStr(buf[..], val) == v
                && val + |v| == start + |CStr(buf[..], start)|
    {
      hide CStr, Terminated, FindKey, DropSpaces, KeyName;
      ghost var all, body := buf[..], CStr(buf[..], start);
      var p: nat := start;
      var i := 0;
      assert TABLE[0..] == TABLE;
      while i < |TABLE|
        invariant i <= |TABLE| && Terminated(all, p)
        invariant start <= p && p + |CStr(all, p)| == start + |body|
        invariant FindKey(TABLE, body) == FindKey(TABLE[i..], CStr(all, p))
      {
        var k := TABLE[i];
        FindKeyNext(TABLE, i, CStr(all, p));
        i := i + 1;
        KeyNameIs(k);
        var rest := StrSkip(p, KeyName(k));
        if rest.None? {
          continue;
        }
        p := rest.value;
        val := StrSkipWs(p);
        if val == p {
          continue;
        }
        assert DropSpaces(CStr(all, p)) != CStr(all, p);
        return Some(k), val;
      }
      FindKeyNone(CStr(all, p));
      return None, 0;
    }

    /** The end of parse_line(), for a key and its value. */
    method EnterAt(key: Key, val: nat, probe: string -> Probe) returns (ret: Status)
      requires Terminated(buf[..], val) && CStr(buf[..], val) != ""
      modifies this`savarr
      ensures Leads(Entry(old(savarr), key, CStr(buf[..], val), probe), ret, savarr)
    {
      hide CStr, Terminated, Applied;
      if key == Config {
        var len := StrLen(val);
        CStrCopy(buf[..], val);
        var name := buf[val..val + len];
        var idx := FindSaventCollision(name);
        if idx != |savarr| {
          return Failed;
        }
        AppendSavesave();
      }
      if savarr == [] {
        return Lost;  // the record before the first one
      }
      var err := ApplySavent(key, val, probe);
      ret := if err then Failed else Fine;
    }

    /** parse_line(): nothing but the line itself is written to. */
    method ParseLineAt(probe: string -> Probe) returns (ret: Status)
      requires Terminated(buf[..], line)
      modifies this`savarr, buf
      ensures Leads(ParseLine(old(savarr), old(CStr(buf[..], line)), probe), ret, savarr)
      ensures forall i :: 0 <= i < buf.Length && !(line <= i <= line + |old(CStr(buf[..], line))|) ==>
                buf[i] == old(buf[i])
    {
      hide CStr, Terminated, Entry, FindKey, DropSpaces, TrimEnd;
      CharAt(buf[..], line, 0);
      var p := StrSkipWs(line);
      CharAt(buf[..], p, 0);
      if buf[p] == '#' || buf[p] == NUL {
        return Fine;
      }
      var key, val := SearchKey(p);
      if key.None? {
        return Lost;
      }
      StrTrimEnd(val);
      CharAt(buf[..], val, 0);
      if buf[val] == NUL {
        NoValue(savarr, key.value, probe);
        return Failed;
      }
      ret := EnterAt(key.value, val, probe);
    }

    /** What is left of the text is still in the buffer. */
    ghost predicate Ahead(text: string)
      reads this, buf
    {
      && line <= |text| < buf.Length && buf[|text|] == NUL
      && forall i :: line <= i < |text| ==> buf[i] == text[i]
    }

    /** strchrnul() for the newline */
    method NextNewline(ghost text: string) returns (next: nat)
      requires Ahead(text) && NUL !in text
      ensures next == line + StrChrNul(text[line..], '\n')
    {
      ghost var left := text[line..];
      next := line;
      while buf[next] != '\n' && buf[next] != NUL
        invariant line <= next <= |text| && forall i :: line <= i < next ==> text[i] != '\n'
        decreases |text| - next
      {
        next := next + 1;
      }
      assert next < |text| ==> left[next - line] == text[next] == '\n';
      assert forall i :: 0 <= i < next - line ==> left[i] == text[line + i];
      StrChrNulIs(left, '\n', next - line);
    }

    /** One turn of the loop of do_parse(): the line is cut off, and parsed. */
    method TakeLine(probe: string -> Probe, ghost text: string) returns (ret: Status, last: bool)
      requires Ahead(text) && NUL !in text
      modifies this`savarr, this`line, buf
      ensures var next := old(line) + StrChrNul(text[old(line)..], '\n');
              && next <= |text| && last == (next == |text|)
              && Leads(ParseLine(old(savarr), text[old(line)..next], probe), ret, savarr)
              && (ret == Fine && !last ==> line == next + 1 && Ahead(text))
    {
      hide ParseLine, CStr, Terminated, StrChrNul;
      var next := NextNewline(text);
      last := buf[next] == NUL;
      if !last {
        buf[next] := NUL;
      }
      SegmentAt(buf[..], text, line, next);
      ret := ParseLineAt(probe);
      if ret == Fine && !last {
        line := next + 1;
      }
    }

    /** The loop of do_parse(), up to the last line. */
    method DoParse(probe: string -> Probe, ghost text: string) returns (ret: Status)
      requires line == 0 && savarr == [] && Ahead(text) && NUL !in text
      modifies this`savarr, this`line, buf
      ensures Leads(ParseLines([], Lines(text), probe), ret, savarr)
    {
      hide ParseLine, ParseLines, Lines, Ahead;
      ghost var all := ParseLines([], Lines(text), probe);
      assert text[0..] == text;
      var last := false;
      ret := Fine;
      while !last
        invariant !last ==> line <= |text| && Ahead(text) && ret == Fine
        invariant if last then Leads(all, ret, savarr)
                  else line <= |text| && all == ParseLines(savarr, Lines(text[line..]), probe)
        decreases if last then 0 else 1 + |text| - line
      {
        LinesOn(text, line);
        ghost var at, next, before := line, line + StrChrNul(text[line..], '\n'), savarr;
        ret, last := TakeLine(probe, text);
        ghost var rest := if last then [] else Lines(text[next + 1..]);
        ParseLinesOn(before, text[at..next], rest, probe);
        if ret != Fine {
          return;
        }
        ParseLinesEnd(savarr, probe);
      }
    }

    /** finalize_parsing(): `ext` is the configured extension of archives. That
        use_compress is -1 for a directory never happens: it starts as 0. */
    method FinalizeParsing(ext: string) returns (ret: Status)
      modifies this`savarr
      ensures Leads(Finalized(old(savarr), ext), ret, savarr)
    {
      ghost var savs := savarr;
      var i := 0;
      while i < |savarr|
        invariant i <= |savs| && |savarr| == |savs| && savarr[i..] == savs[i..]
        invariant forall j :: 0 <= j < i ==>
                    Complete(savs[j]) && savarr[j] == savs[j].(backup := Some(Prefix(savs[j], ext)))
      {
        var sav := savarr[i];
        assert sav == savs[i..][0];
        if sav.save.None? || sav.backup.None? || sav.period == 0 || sav.stack == 0 {
          assert !Complete(savs[i]);
          return Failed;
        }
        var sb := sav.backup.value + "/" + sav.name;
        if sav.compress {
          sb := sb + ("." + ext + ".");
        } else {
          sb := sb + ".";
        }
        assert sb == Prefix(sav, ext);
        savarr := savarr[i := sav.(backup := Some(sb))];
        i := i + 1;
        assert savarr[i..] == savs[i..];
      }
      return Fine;
    }

    /** dotsav_parse() */
    method DotsavParse(probe: string -> Probe, ext: string, ghost text: string) returns (ret: Status)
      requires line == 0 && savarr == [] && Ahead(text) && NUL !in text
      modifies this`savarr, this`line, buf
      ensures Leads(Parse(text, probe, ext), ret, savarr)
    {
      hide ParseLines, Lines, Finalized;
      ret := DoParse(probe, text);
      if ret == Fine {
        ret := FinalizeParsing(ext);
      }
    }
  }
}
