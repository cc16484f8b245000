/** What a configuration that parses is good for, and the round trip: records
    written down, in whatever layout, are the records that are read. */
module DotSavLaws {
  import opened CString
  import opened Lexer
  import opened DotSav
  import opened Sequences
  import BakSched

  // ---- what success means ----------------------------------------------------

  predicate SoundRecord(s: Sav, n: nat) {
    && s.name != "" && NoSpace(s.name)
    && s.period <= UINT32_MAX && s.stack <= UINT8_MAX
    && s.taskIdx == n / BakSched.ULLONG && s.taskPos == BakSched.Pos(n)
  }

  predicate DistinctRecords(savs: seq<Sav>) {
    forall i, j :: 0 <= i < j < |savs| ==> savs[i].name != savs[j].name
  }

  predicate Sound(savs: seq<Sav>) {
    && (forall i :: 0 <= i < |savs| ==> SoundRecord(savs[i], i))
    && DistinctRecords(savs)
  }

  lemma TimespanBound(val: string)
    requires val != "" && ToTimespan(val).Some?
    ensures ToTimespan(val).value <= UINT32_MAX
  {
    hide ToULL, Stored;
  }

  lemma AppliedSound(k: Key, sav: Sav, val: string, probe: string -> Probe, n: nat)
    requires val != "" && Applied(k, sav, val, probe).Some?
    ensures var r := Applied(k, sav, val, probe).value;
            && (k == Config ==>
                  r.name == val && NoSpace(val) && (SoundRecord(r, n) <==> SoundRecord(sav.(name := val), n)))
            && (k != Config ==> r.name == sav.name && (SoundRecord(sav, n) ==> SoundRecord(r, n)))
  {
    hide ToTimespan, ToBool, StrToULL, BakSched.Pos;
    if k == Period {
      TimespanBound(val);
    }
  }

  lemma BlankSound(n: nat, name: string)
    requires name != "" && NoSpace(name)
    ensures SoundRecord(Blank(n).(name := name), n)
  {
  }

  lemma EntrySound(savs: seq<Sav>, k: Key, val: string, probe: string -> Probe)
    requires Sound(savs) && Entry(savs, k, val, probe).Ok?
    ensures Sound(Entry(savs, k, val, probe).savs)
  {
    hide Applied, SoundRecord;
    var all := if k == Config then savs + [Blank(|savs|)] else savs;
    var n := |all| - 1;
    AppliedSound(k, all[n], val, probe, n);
    var r := Applied(k, all[n], val, probe).value;
    if k == Config {
      BlankSound(n, val);
    }
    assert SoundRecord(r, n);
    hide Entry;
  }

  lemma {:induction false} LinesSound(savs: seq<Sav>, lines: seq<string>, probe: string -> Probe)
    requires Sound(savs) && ParseLines(savs, lines, probe).Ok?
    ensures Sound(ParseLines(savs, lines, probe).savs)
    decreases |lines|
  {
    hide Sound, Entry, FindKey;
    if lines != [] {
      var o := ParseLine(savs, lines[0], probe);
      var body := DropSpaces(lines[0]);
      if body != "" && body[0] != '#' {
        var (k, val) := FindKey(TABLE, body).value;
        EntrySound(savs, k, TrimEnd(val), probe);
      }
      LinesSound(o.savs, lines[1..], probe);
    }
  }

  /** A task number determines a word of the scheduler's bit set, and a bit of
      that word which no other number has. */
  predicate OwnBit(a: Sav, b: Sav) {
    a.taskIdx != b.taskIdx || a.taskPos * b.taskPos == {}
  }

  lemma OwnBits(i: nat, j: nat)
    requires i != j
    ensures i / BakSched.ULLONG != j / BakSched.ULLONG || BakSched.Pos(i) * BakSched.Pos(j) == {}
  {
    if i / 8 == j / 8 {
      assert i % 8 != j % 8;
    }
  }

  /** If the file is accepted, its configs have distinct names without spaces,
      periods and depths are not 0 and fit their types, every config has a save,
      and a bit of its own. */
  lemma SuccessMeans(text: string, probe: string -> Probe, ext: string)
    requires Parse(text, probe, ext).Ok?
    ensures var savs := Parse(text, probe, ext).savs;
            && DistinctRecords(savs)
            && (forall i :: 0 <= i < |savs| ==>
                  && savs[i].name != "" && NoSpace(savs[i].name)
                  && 0 < savs[i].period <= UINT32_MAX && 0 < savs[i].stack <= UINT8_MAX
                  && savs[i].save.Some? && savs[i].backup.Some?)
            && (forall i, j :: 0 <= i < j < |savs| ==> OwnBit(savs[i], savs[j]))
  {
    hide ParseLines, Lines;
    LinesSound([], Lines(text), probe);
    var savs := ParseLines([], Lines(text), probe).savs;
    forall i, j | 0 <= i < j < |savs| ensures OwnBit(savs[i], savs[j]) {
      assert SoundRecord(savs[i], i) && SoundRecord(savs[j], j);
      OwnBits(i, j);
    }
    assert forall i :: 0 <= i < |savs| ==> SoundRecord(savs[i], i) && Complete(savs[i]);
    hide Sound, Prefix;
  }

  // ---- what a field does, and what is refused --------------------------------

  /** A value that ends the program. */
  predicate Refused(k: Key, val: string, probe: string -> Probe)
    requires val != ""
  {
    match k
    case Config => exists i :: 0 <= i < |val| && IsSpace(val[i])
    case Save => probe(val) == Unusable
    case Backup => false
    case Compress => val != "y" && val != "n"
    case Period => ToTimespan(val) == None || ToTimespan(val) == Some(0)
    case Stack => Number(val, 255) == None || Number(val, 255) == Some(0)
  }

  /** A config starts a record with its own bit and nothing else in it. */
  lemma ConfigMeans(savs: seq<Sav>, val: string, probe: string -> Probe)
    requires val != ""
    ensures Entry(savs, Config, val, probe) ==
            if Refused(Config, val, probe) || exists i :: 0 <= i < |savs| && savs[i].name == val then Die
            else Ok(savs + [Sav(val, None, None, false, false, 0, 0, |savs| / 8, {|savs| % 8})])
  {
    var all := savs + [Blank(|savs|)];
    assert all[|savs| := Blank(|savs|).(name := val)] == savs + [Blank(|savs|).(name := val)];
  }

  lemma StackRead(val: string)
    requires val != ""
    ensures ToULL(val, |val|, UINT8_MAX) == Number(val, 255)
  {
    NumberRead(val, "", UINT8_MAX);
    assert val + "" == val;
  }

  /** Any other field changes the last record in one place, unless its value is
      refused. */
  lemma EntryMeans(savs: seq<Sav>, k: Key, val: string, probe: string -> Probe)
    requires val != "" && k != Config
    ensures var o := Entry(savs, k, val, probe);
            if savs == [] then o == Undefined
            else if Refused(k, val, probe) then o == Die
            else
              var n := |savs| - 1;
              var s := savs[n];
              o == Ok(savs[n := Sav(
                s.name,
                if k == Save then Some(val) else s.save,
                if k == Backup then Some(val) else s.backup,
                if k == Save && probe(val) != OtherFile then probe(val) == DirectoryFile else s.isDir,
                if k == Compress then val == "y" else s.compress,
                if k == Period then ToTimespan(val).value else s.period,
                if k == Stack then Number(val, 255).value else s.stack,
                s.taskIdx, s.taskPos)])
  {
    StackRead(val);
    hide ToTimespan, ToULL, Number;
  }

  /** A config without a save, a backup, a period or a depth ends the program;
      the backups of the others get their prefix, with the extension of archives
      where they are compressed. */
  lemma FinalizedMeans(savs: seq<Sav>, ext: string)
    ensures Finalized(savs, ext) == Die <==>
              exists i :: 0 <= i < |savs| &&
                (savs[i].save == None || savs[i].backup == None || savs[i].period == 0 || savs[i].stack == 0)
    ensures Finalized(savs, ext) == Die || Finalized(savs, ext).Ok?
    ensures Finalized(savs, ext).Ok? ==>
              var all := Finalized(savs, ext).savs;
              && |all| == |savs|
              && forall i :: 0 <= i < |savs| ==>
                   && savs[i].backup.Some?
                   && all[i] == savs[i].(backup := Some(
                        savs[i].backup.value + "/" + savs[i].name +
                        (if savs[i].compress then "." + ext + "." else ".")))
  {
    if i :| 0 <= i < |savs| && !Complete(savs[i]) {
    } else {
      assert forall i :: 0 <= i < |savs| ==> Complete(savs[i]);
    }
  }

  // ---- layout ----------------------------------------------------------------

  /** A line of a file: nothing, a comment, or a field with spaces around. */
  datatype Line =
    | Empty(ws: string)
    | Comment(ws: string, text: string)
    | Field(indent: string, key: Key, sep: string, value: string, trail: string)

  function Rendered(l: Line): string {
    match l
    case Empty(ws) => ws
    case Comment(ws, text) => ws + ("#" + text)
    case Field(indent, key, sep, value, trail) => indent + (KeyName(key) + (sep + (value + trail)))
  }

  predicate InLine(s: string) {
    '\n' !in s
  }

  /** A value as it may stand in a line: not empty, no space at its ends. */
  predicate Trimmed(value: string) {
    value != "" && !IsSpace(value[0]) && !IsSpace(value[|value| - 1])
  }

  predicate WellFormed(l: Line) {
    && InLine(Rendered(l))
    && match l
       case Empty(ws) => Spaces(ws)
       case Comment(ws, _) => Spaces(ws)
       case Field(indent, _, sep, value, trail) =>
         Spaces(indent) && Spaces(sep) && sep != "" && Spaces(trail) && Trimmed(value)
  }

  lemma PlaceOf(k: Key) returns (j: nat)
    ensures j < |TABLE| && TABLE[j] == k
  {
    j := match k case Config => 0 case Save => 1 case Backup => 2 case Compress => 3 case Period => 4 case Stack => 5;
  }

  /** No key begins another. */
  lemma OtherKey(k: Key, line: string, i: nat)
    requires i < |TABLE| && KeyName(k) <= line && TABLE[i] != k
    ensures !(KeyName(TABLE[i]) <= line)
  {
    var a, b := KeyName(TABLE[i]), KeyName(k);
    assert a[0] != b[0] || a[1] != b[1] || a[2] != b[2];
    assert line[0] == b[0] && line[1] == b[1] && line[2] == b[2];
  }

  lemma {:induction false} KeyFoundFrom(i: nat, j: nat, k: Key, tail: string)
    requires i <= j < |TABLE| && TABLE[j] == k && DropSpaces(tail) != tail
    ensures FindKey(TABLE[i..], KeyName(k) + tail) == Some((k, DropSpaces(tail)))
    decreases j - i
  {
    hide FindKey, DropSpaces, KeyName;
    var line := KeyName(k) + tail;
    FindKeyNext(TABLE, i, line);
    if TABLE[i] == k {
      assert line[|KeyName(k)|..] == tail;
    } else {
      OtherKey(k, line, i);
      KeyFoundFrom(i + 1, j, k, tail);
    }
  }

  lemma KeyFound(k: Key, tail: string)
    requires DropSpaces(tail) != tail
    ensures FindKey(TABLE, KeyName(k) + tail) == Some((k, DropSpaces(tail)))
  {
    hide FindKey, DropSpaces, KeyName;
    var j := PlaceOf(k);
    assert TABLE[0..] == TABLE;
    KeyFoundFrom(0, j, k, tail);
  }

  // ---- keys that run together ------------------------------------------------

  /** Places in the table, each behind the one before, from `i` on. */
  ghost predicate Climbs(chain: seq<nat>, i: nat) {
    && (forall m :: 0 <= m < |chain| ==> i <= chain[m] < |TABLE|)
    && forall m, n :: 0 <= m < n < |chain| ==> chain[m] < chain[n]
  }

  /** Their names, written without anything between them. */
  function Names(chain: seq<nat>): string
    requires forall m :: 0 <= m < |chain| ==> chain[m] < |TABLE|
  {
    if chain == [] then "" else KeyName(TABLE[chain[0]]) + Names(chain[1..])
  }

  /** The text is a run of key names in the order of the table, the last being
      that of `k`, then at least one space, then `v`. */
  ghost predicate Melted(chain: seq<nat>, i: nat, ws: string, body: string, k: Key, v: string) {
    && chain != [] && Climbs(chain, i) && TABLE[chain[|chain| - 1]] == k
    && ws != "" && Spaces(ws) && (v != "" ==> !IsSpace(v[0]))
    && body == Names(chain) + (ws + v)
  }

  lemma NamesUnfold(chain: seq<nat>, i: nat)
    requires chain != [] && Climbs(chain, i)
    ensures Climbs(chain[1..], chain[0] + 1) && Names(chain) == KeyName(TABLE[chain[0]]) + Names(chain[1..])
  {
    hide KeyName;
  }

  lemma KeysDiffer(m: nat, j: nat)
    requires m < j < |TABLE|
    ensures TABLE[m] != TABLE[j]
  {
  }

  /** A run that begins further down the table. */
  lemma MeltedLater(chain: seq<nat>, i: nat, ws: string, body: string, k: Key, v: string)
    requires Melted(chain, i, ws, body, k, v) && i < chain[0]
    ensures Melted(chain, i + 1, ws, body, k, v) && !(KeyName(TABLE[i]) <= body)
  {
    hide KeyName, Spaces;
    NamesUnfold(chain, i);
    KeysDiffer(i, chain[0]);
    OtherKey(TABLE[chain[0]], body, i);
  }

  /** A run of one key, and a longer one. */
  lemma MeltedOne(chain: seq<nat>, i: nat, ws: string, body: string, k: Key, v: string)
    requires Melted(chain, i, ws, body, k, v) && |chain| == 1
    ensures TABLE[chain[0]] == k && body == KeyName(k) + (ws + v) && DropSpaces(ws + v) == v != ws + v
  {
    hide KeyName;
    NamesUnfold(chain, i);
    assert Names(chain) == KeyName(k) + "" == KeyName(k);
    DropSpacesIs(ws, v);
    assert |ws + v| != |v|;
  }

  lemma BodyStarts(k: Key, tail: string)
    ensures var body := KeyName(k) + tail; body != "" && body[0] != '#' && !IsSpace(body[0])
  {
    assert (KeyName(k) + tail)[0] == KeyName(k)[0];
  }

  /** A text that begins with a key has no leading spaces. */
  lemma Letters(k: Key, tail: string)
    ensures DropSpaces(KeyName(k) + tail) == KeyName(k) + tail
  {
    BodyStarts(k, tail);
    DropSpacesIs("", KeyName(k) + tail);
    assert "" + (KeyName(k) + tail) == KeyName(k) + tail;
  }

  lemma MeltedMore(chain: seq<nat>, i: nat, ws: string, body: string, k: Key, v: string)
    requires Melted(chain, i, ws, body, k, v) && |chain| > 1
    ensures var c, rest := chain[0], Names(chain[1..]) + (ws + v);
            && body == KeyName(TABLE[c]) + rest && DropSpaces(rest) == rest
            && Melted(chain[1..], c + 1, ws, rest, k, v)
  {
    hide KeyName, Spaces, DropSpaces;
    var c, later := chain[0], chain[1..];
    NamesUnfold(chain, i);
    NamesUnfold(later, c + 1);
    assert later[|later| - 1] == chain[|chain| - 1];
    Assoc(KeyName(TABLE[c]), Names(later), ws + v);
    Assoc(KeyName(TABLE[later[0]]), Names(later[1..]), ws + v);
    Letters(TABLE[later[0]], Names(later[1..]) + (ws + v));
  }

  lemma {:induction false} MeltedIsFound(chain: seq<nat>, i: nat, ws: string, body: string, k: Key, v: string)
    requires i <= |TABLE| && Melted(chain, i, ws, body, k, v)
    ensures FindKey(TABLE[i..], body) == Some((k, v))
    decreases |TABLE| - i
  {
    var c := chain[0];
    assert i <= c < |TABLE|;
    hide FindKey, DropSpaces, KeyName, Names, Melted;
    FindKeyNext(TABLE, i, body);
    if i < c {
      MeltedLater(chain, i, ws, body, k, v);
      MeltedIsFound(chain, i + 1, ws, body, k, v);
    } else if |chain| == 1 {
      MeltedOne(chain, i, ws, body, k, v);
      assert body[|KeyName(k)|..] == ws + v;
    } else {
      MeltedMore(chain, i, ws, body, k, v);
      var rest := Names(chain[1..]) + (ws + v);
      assert body[|KeyName(TABLE[c])|..] == rest;
      MeltedIsFound(chain[1..], c + 1, ws, rest, k, v);
    }
  }

  /** One more key before a run, and a run of one. */
  lemma MeltedBefore(chain: seq<nat>, i: nat, ws: string, rest: string, k: Key, v: string)
    requires i < |TABLE| && Melted(chain, i + 1, ws, rest, k, v)
    ensures Melted([i] + chain, i, ws, KeyName(TABLE[i]) + rest, k, v)
  {
    hide KeyName, Spaces;
    var all := [i] + chain;
    assert all[|all| - 1] == chain[|chain| - 1] && all[1..] == chain;
    Assoc(KeyName(TABLE[i]), Names(chain), ws + v);
  }

  lemma MeltedSingle(i: nat, rest: string)
    requires i < |TABLE| && DropSpaces(rest) != rest
    ensures var v := DropSpaces(rest);
            Melted([i], i, rest[..|rest| - |v|], KeyName(TABLE[i]) + rest, TABLE[i], v)
  {
    var v := DropSpaces(rest);
    var n := |rest| - |v|;
    DroppedSpaces(rest);
    hide KeyName, DropSpaces, Spaces;
    assert [i][1..] == [] && Names([i]) == KeyName(TABLE[i]) + "" == KeyName(TABLE[i]);
  }

  lemma FindKeyBehind(i: nat, rest: string)
    requires i < |TABLE|
    ensures FindKey(TABLE[i..], KeyName(TABLE[i]) + rest) ==
            if DropSpaces(rest) == rest then FindKey(TABLE[i + 1..], rest) else Some((TABLE[i], DropSpaces(rest)))
  {
    hide DropSpaces, KeyName, FindKey;
    var name := KeyName(TABLE[i]);
    FindKeyNext(TABLE, i, name + rest);
    assert (name + rest)[|name|..] == rest;
  }

  lemma FromBelow(chain: seq<nat>, i: nat, ws: string, body: string, k: Key, v: string)
    requires Melted(chain, i + 1, ws, body, k, v)
    ensures Melted(chain, i, ws, body, k, v)
  {
  }

  lemma NothingLeft(i: nat, body: string)
    requires i <= |TABLE| && FindKey(TABLE[i..], body).Some?
    ensures i < |TABLE|
  {
  }

  lemma {:induction false} FoundIsMelted(i: nat, body: string, k: Key, v: string) returns (chain: seq<nat>, ws: string)
    requires i <= |TABLE| && FindKey(TABLE[i..], body) == Some((k, v))
    ensures Melted(chain, i, ws, body, k, v)
    decreases |TABLE| - i, 1
  {
    NothingLeft(i, body);
    hide DropSpaces, KeyName, Spaces, FindKey, Melted;
    if KeyName(TABLE[i]) <= body {
      assert body == KeyName(TABLE[i]) + body[|KeyName(TABLE[i])|..];
      chain, ws := FoundWithKey(i, body[|KeyName(TABLE[i])|..], k, v);
    } else {
      FindKeyNext(TABLE, i, body);
      chain, ws := FoundIsMelted(i + 1, body, k, v);
      FromBelow(chain, i, ws, body, k, v);
    }
  }

  lemma {:induction false} FoundWithKey(i: nat, rest: string, k: Key, v: string) returns (chain: seq<nat>, ws: string)
    requires i < |TABLE| && FindKey(TABLE[i..], KeyName(TABLE[i]) + rest) == Some((k, v))
    ensures Melted(chain, i, ws, KeyName(TABLE[i]) + rest, k, v)
    decreases |TABLE| - i, 0
  {
    hide DropSpaces, KeyName, Spaces, FindKey, Melted;
    FindKeyBehind(i, rest);
    if DropSpaces(rest) == rest {
      chain, ws := FoundIsMelted(i + 1, rest, k, v);
      MeltedBefore(chain, i, ws, rest, k, v);
      chain := [i] + chain;
    } else {
      MeltedSingle(i, rest);
      chain, ws := [i], rest[..|rest| - |v|];
    }
  }

  /** Which lines are read as a field of which key: exactly the runs of key
      names, in the order of the table, that end in it and in a space. */
  lemma FoundIff(body: string, k: Key, v: string)
    ensures FindKey(TABLE, body) == Some((k, v)) <==> exists chain, ws :: Melted(chain, 0, ws, body, k, v)
  {
    hide FindKey, Melted;
    assert TABLE[0..] == TABLE;
    if FindKey(TABLE, body) == Some((k, v)) {
      var chain, ws := FoundIsMelted(0, body, k, v);
    }
    if chain, ws :| Melted(chain, 0, ws, body, k, v) {
      MeltedIsFound(chain, 0, ws, body, k, v);
    }
  }

  /** The line begins with this key and a space, as it should. */
  predicate BeginsWith(body: string, k: Key) {
    KeyName(k) <= body && |KeyName(k)| < |body| && IsSpace(body[|KeyName(k)|])
  }

  lemma SpaceFirst(ws: string, v: string)
    requires ws != "" && Spaces(ws)
    ensures IsSpace((ws + v)[0])
  {
  }

  lemma FirstFound(body: string, k: Key, v: string)
    requires FindKey(TABLE, body) == Some((k, v)) && KeyName(k) <= body
    ensures BeginsWith(body, k)
  {
    hide FindKey, KeyName, Spaces;
    assert TABLE[0..] == TABLE;
    var chain, ws := FoundIsMelted(0, body, k, v);
    NamesUnfold(chain, 0);
    var c := chain[0];
    assert KeyName(TABLE[c]) <= body;
    if TABLE[c] != k {
      OtherKey(k, body, c);
    }
    if |chain| > 1 {
      KeysDiffer(c, chain[|chain| - 1]);
    }
    assert Names(chain) == KeyName(k) + "" == KeyName(k);
    assert body[|KeyName(k)|..] == ws + v;
    SpaceFirst(ws, v);
  }

  lemma SpacesDropped(s: string)
    requires s != "" && IsSpace(s[0])
    ensures DropSpaces(s) != s
  {
    assert |DropSpaces(s)| < |s|;
  }

  /** The key read is the one the line begins with if and only if some key of
      the table begins the line and is followed by a space. */
  lemma KeysMelt(body: string)
    ensures (exists k, v :: FindKey(TABLE, body) == Some((k, v)) && KeyName(k) <= body) <==>
            (exists k :: BeginsWith(body, k))
  {
    hide FindKey, KeyName;
    if k :| BeginsWith(body, k) {
      var tail := body[|KeyName(k)|..];
      assert body == KeyName(k) + tail;
      SpacesDropped(tail);
      KeyFound(k, tail);
    }
    if k, v :| FindKey(TABLE, body) == Some((k, v)) && KeyName(k) <= body {
      FirstFound(body, k, v);
    }
  }

  lemma FieldMeans(key: Key, sep: string, value: string, trail: string)
    requires Spaces(sep) && sep != "" && Spaces(trail) && Trimmed(value)
    ensures FindKey(TABLE, KeyName(key) + (sep + (value + trail))) == Some((key, value + trail))
    ensures TrimEnd(value + trail) == value
  {
    hide FindKey, KeyName, TrimEnd, DropSpaces;
    var val := value + trail;
    assert val[0] == value[0];
    DropSpacesIs(sep, val);
    assert |sep + val| != |val|;
    KeyFound(key, sep + val);
    TrimEndIs(value, trail);
  }

  /** Whatever the layout, a line means its key and value, or nothing. */
  lemma LineMeans(savs: seq<Sav>, l: Line, probe: string -> Probe)
    requires WellFormed(l)
    ensures ParseLine(savs, Rendered(l), probe) == if l.Field? then Entry(savs, l.key, l.value, probe) else Ok(savs)
  {
    hide FindKey, Entry, Trimmed, InLine, TrimEnd, DropSpaces;
    match l {
      case Empty(ws) =>
        assert ws == ws + "";
        DropSpacesIs(ws, "");
      case Comment(ws, text) => DropSpacesIs(ws, "#" + text);
      case Field(indent, key, sep, value, trail) =>
        BodyStarts(key, sep + (value + trail));
        DropSpacesIs(indent, KeyName(key) + (sep + (value + trail)));
        FieldMeans(key, sep, value, trail);
    }
  }

  /** A line that is neither blank nor a comment and has no such run of keys is
      not refused: the search leaves the table. */
  lemma UnknownKey(savs: seq<Sav>, line: string, probe: string -> Probe)
    requires var body := DropSpaces(line); body != "" && body[0] != '#'
    requires forall chain, ws, k, v :: !Melted(chain, 0, ws, DropSpaces(line), k, v)
    ensures ParseLine(savs, line, probe) == Undefined
  {
    hide FindKey, DropSpaces, Entry, Melted;
    var body := DropSpaces(line);
    if FindKey(TABLE, body).Some? {
      var (k, v) := FindKey(TABLE, body).value;
      FoundIff(body, k, v);
    }
  }

  lemma KeyWith(k: Key, name: string, v: string)
    requires name == KeyName(k) && (v != "" ==> !IsSpace(v[0]))
    ensures FindKey(TABLE, name + (" " + v)) == Some((k, v))
  {
    hide FindKey, KeyName;
    DropSpacesIs(" ", v);
    assert |" " + v| != |v|;
    KeyFound(k, " " + v);
  }

  /** The keys by their names. */
  lemma KeysAre(v: string)
    requires v != "" ==> !IsSpace(v[0])
    ensures FindKey(TABLE, "config" + (" " + v)) == Some((Config, v))
    ensures FindKey(TABLE, "save" + (" " + v)) == Some((Save, v))
    ensures FindKey(TABLE, "backup" + (" " + v)) == Some((Backup, v))
    ensures FindKey(TABLE, "compress" + (" " + v)) == Some((Compress, v))
    ensures FindKey(TABLE, "period" + (" " + v)) == Some((Period, v))
    ensures FindKey(TABLE, "stack" + (" " + v)) == Some((Stack, v))
  {
    hide FindKey;
    KeyWith(Config, "config", v);
    KeyWith(Save, "save", v);
    KeyWith(Backup, "backup", v);
    KeyWith(Compress, "compress", v);
    KeyWith(Period, "period", v);
    KeyWith(Stack, "stack", v);
  }

  /** A key without a value ends the program. */
  lemma MissingValue(savs: seq<Sav>, indent: string, key: Key, ws: string, probe: string -> Probe)
    requires Spaces(indent) && Spaces(ws) && ws != ""
    ensures ParseLine(savs, indent + (KeyName(key) + ws), probe) == Die
  {
    hide FindKey, KeyName, DropSpaces;
    BodyStarts(key, ws);
    DropSpacesIs(indent, KeyName(key) + ws);
    DropSpacesIs(ws, "");
    assert ws + "" == ws;
    KeyFound(key, ws);
  }

  // ---- files -----------------------------------------------------------------

  function Joined(lines: seq<string>): (text: string)
    requires lines != []
  {
    if |lines| == 1 then lines[0] else lines[0] + ("\n" + Joined(lines[1..]))
  }

  lemma FirstLine(l: string, rest: string)
    requires InLine(l)
    ensures var text := l + ("\n" + rest);
            StrChrNul(text, '\n') == |l| && text[..|l|] == l && text[|l| + 1..] == rest && |text| != |l|
  {
    var text := l + ("\n" + rest);
    assert text[..|l|] == l && text[|l|] == '\n';
    StrChrNulIs(text, '\n', |l|);
  }

  lemma {:induction false} LinesOfJoined(lines: seq<string>)
    requires lines != [] && forall i :: 0 <= i < |lines| ==> InLine(lines[i])
    ensures Lines(Joined(lines)) == lines
    decreases |lines|
  {
    var text, l := Joined(lines), lines[0];
    LinesFirst(text);
    hide Lines, StrChrNul;
    if |lines| == 1 {
      StrChrNulIs(text, '\n', |text|);
      assert [text] + [] == lines && text[..|text|] == text;
    } else {
      LinesOfJoined(lines[1..]);
      FirstLine(l, Joined(lines[1..]));
      assert [l] + lines[1..] == lines;
    }
  }

  function RenderedAll(doc: seq<Line>): (lines: seq<string>)
    ensures |lines| == |doc|
  {
    seq(|doc|, i requires 0 <= i < |doc| => Rendered(doc[i]))
  }

  function Text(doc: seq<Line>): string
    requires doc != []
  {
    Joined(RenderedAll(doc))
  }

  /** The fields of a file, without the rest of its layout. */
  function Fields(doc: seq<Line>): (fs: seq<(Key, string)>) {
    if doc == [] then []
    else (if doc[0].Field? then [(doc[0].key, doc[0].value)] else []) + Fields(doc[1..])
  }

  function Entries(savs: seq<Sav>, fs: seq<(Key, string)>, probe: string -> Probe): (o: Outcome)
    decreases |fs|
  {
    if fs == [] then Ok(savs)
    else
      var o := Entry(savs, fs[0].0, fs[0].1, probe);
      if o.Ok? then Entries(o.savs, fs[1..], probe) else o
  }

  lemma {:induction false} LinesMean(savs: seq<Sav>, doc: seq<Line>, probe: string -> Probe)
    requires forall i :: 0 <= i < |doc| ==> WellFormed(doc[i])
    ensures ParseLines(savs, RenderedAll(doc), probe) == Entries(savs, Fields(doc), probe)
    decreases |doc|
  {
    hide Rendered, ParseLine, Entry, WellFormed;
    if doc != [] {
      LineMeans(savs, doc[0], probe);
      assert RenderedAll(doc)[1..] == RenderedAll(doc[1..]);
      var o := ParseLine(savs, Rendered(doc[0]), probe);
      if o.Ok? {
        LinesMean(o.savs, doc[1..], probe);
      }
      if doc[0].Field? {
        assert Fields(doc)[1..] == Fields(doc[1..]);
      } else {
        assert Fields(doc) == Fields(doc[1..]);
      }
    }
  }

  // ---- the round trip --------------------------------------------------------

  /** A config as a user thinks of it; the period is `count` times a unit, or
      seconds if none is given. */
  datatype Record = Record(name: string, save: string, backup: string, compress: bool,
                           count: nat, unit: Option<char>, stack: nat)

  /** The period; 0 if there is no such unit. */
  function Seconds(r: Record): (n: nat) {
    match r.unit
    case None => r.count
    case Some(c) =>
      if c in "hH" then r.count * 3600 else if c in "mM" then r.count * 60 else if c in "sS" then r.count else 0
  }

  predicate Good(r: Record, probe: string -> Probe) {
    && r.name != "" && NoSpace(r.name)
    && r.save != "" && r.backup != "" && probe(r.save) != Unusable
    && 0 < Seconds(r) <= UINT32_MAX
    && 0 < r.stack <= UINT8_MAX
  }

  /** How a field of the record is written. */
  function FieldValue(r: Record, k: Key): (v: string) {
    match k
    case Config => r.name
    case Save => r.save
    case Backup => r.backup
    case Compress => if r.compress then "y" else "n"
    case Period => Decimal(r.count) + if r.unit.Some? then [r.unit.value] else []
    case Stack => Decimal(r.stack)
  }

  /** The record after the fields in `done` were read. */
  function Partial(r: Record, n: nat, done: set<Key>, probe: string -> Probe): (s: Sav) {
    Sav(r.name,
        if Save in done then Some(r.save) else None,
        if Backup in done then Some(r.backup) else None,
        Save in done && probe(r.save) == DirectoryFile,
        Compress in done && r.compress,
        if Period in done then Seconds(r) else 0,
        if Stack in done then r.stack else 0,
        n / BakSched.ULLONG, BakSched.Pos(n))
  }

  lemma PeriodRead(r: Record)
    requires 0 < Seconds(r) <= UINT32_MAX
    ensures ToTimespan(FieldValue(r, Period)) == Some(Seconds(r))
  {
    var d := Decimal(r.count);
    ValueOfDecimal(r.count);
    hide ToTimespan, Decimal, Value, Stored;
    if r.unit.Some? {
      TimespanExactIff(d, r.unit.value);
    } else {
      TimespanIs(d, 's');
      assert d + [] == d;
    }
  }

  lemma FieldRead(r: Record, k: Key, n: nat, done: set<Key>, probe: string -> Probe)
    requires Good(r, probe) && k != Config
    ensures FieldValue(r, k) != ""
    ensures Applied(k, Partial(r, n, done, probe), FieldValue(r, k), probe) == Some(Partial(r, n, done + {k}, probe))
  {
    hide ToTimespan, ToULL, Decimal, Value, BakSched.Pos;
    if k == Period {
      PeriodRead(r);
    } else if k == Stack {
      var d := Decimal(r.stack);
      ValueOfDecimal(r.stack);
      DigitsToULL(d, "", UINT8_MAX);
      assert d + "" == d;
    }
  }

  function OtherFields(r: Record, order: seq<Key>): (fs: seq<(Key, string)>) {
    seq(|order|, i requires 0 <= i < |order| => (order[i], FieldValue(r, order[i])))
  }

  /** The fields of one config, its own line first, the others in any order and
      perhaps more than once. */
  function RecordFields(r: Record, order: seq<Key>): (fs: seq<(Key, string)>) {
    [(Config, r.name)] + OtherFields(r, order)
  }

  /** Every field is there; a config that is not compressed need not say so. */
  predicate AnyOrder(r: Record, order: seq<Key>) {
    && Config !in order
    && Save in order && Backup in order && Period in order && Stack in order
    && (r.compress ==> Compress in order)
  }

  lemma {:induction false} OthersRead(savs: seq<Sav>, r: Record, order: seq<Key>, done: set<Key>,
                                      probe: string -> Probe)
    requires Good(r, probe) && Config !in order
    ensures var n := |savs|;
            Entries(savs + [Partial(r, n, done, probe)], OtherFields(r, order), probe) ==
            Ok(savs + [Partial(r, n, done + (set k | k in order), probe)])
    decreases |order|
  {
    hide Good, Partial, FieldValue, Applied;
    var n := |savs|;
    if order == [] {
      assert done + (set k | k in order) == done;
    } else {
      var k := order[0];
      var now, later := Partial(r, n, done, probe), Partial(r, n, done + {k}, probe);
      assert k in order;
      FieldRead(r, k, n, done, probe);
      assert (savs + [now])[n := later] == savs + [later];
      assert OtherFields(r, order)[1..] == OtherFields(r, order[1..]);
      OthersRead(savs, r, order[1..], done + {k}, probe);
      assert done + {k} + (set x | x in order[1..]) == done + (set x | x in order) by {
        assert order == [k] + order[1..];
      }
    }
  }

  /** A missing `compress` means no. */
  lemma AllRead(r: Record, n: nat, done: set<Key>, probe: string -> Probe)
    requires {Save, Backup, Period, Stack} <= done && (r.compress ==> Compress in done)
    ensures Partial(r, n, done, probe) == Partial(r, n, {Save, Backup, Compress, Period, Stack}, probe)
  {
    assert Save in done && Backup in done && Period in done && Stack in done;
  }

  lemma {:induction false} RecordRead(savs: seq<Sav>, r: Record, order: seq<Key>, probe: string -> Probe)
    requires Good(r, probe) && AnyOrder(r, order) && !Named(savs, r.name)
    ensures Entries(savs, RecordFields(r, order), probe) ==
            Ok(savs + [Partial(r, |savs|, {Save, Backup, Compress, Period, Stack}, probe)])
  {
    var n := |savs|;
    assert RecordFields(r, order)[1..] == OtherFields(r, order);
    assert (savs + [Blank(n)])[n := Blank(n).(name := r.name)] == savs + [Partial(r, n, {}, probe)];
    assert Entry(savs, Config, r.name, probe) == Ok(savs + [Partial(r, n, {}, probe)]);
    OthersRead(savs, r, order, {}, probe);
    var done := {} + (set k | k in order);
    assert forall k :: k in order ==> k in done;
    AllRead(r, n, done, probe);
  }

  /** The configs of the file. */
  function AllFields(rs: seq<Record>, orders: seq<seq<Key>>): (fs: seq<(Key, string)>)
    requires |rs| == |orders|
  {
    if rs == [] then [] else RecordFields(rs[0], orders[0]) + AllFields(rs[1..], orders[1..])
  }

  function Read(r: Record, n: nat, probe: string -> Probe): Sav {
    Partial(r, n, {Save, Backup, Compress, Period, Stack}, probe)
  }

  lemma {:induction false} EntriesOn(savs: seq<Sav>, a: seq<(Key, string)>, b: seq<(Key, string)>,
                                     probe: string -> Probe)
    requires Entries(savs, a, probe).Ok?
    ensures Entries(savs, a + b, probe) == Entries(Entries(savs, a, probe).savs, b, probe)
    decreases |a|
  {
    hide Entry;
    if a == [] {
      assert a + b == b;
    } else {
      assert (a + b)[1..] == a[1..] + b;
      EntriesOn(Entry(savs, a[0].0, a[0].1, probe).savs, a[1..], b, probe);
    }
  }

  predicate DistinctNames(rs: seq<Record>) {
    forall i, j :: 0 <= i < j < |rs| ==> rs[i].name != rs[j].name
  }

  function ReadAll(rs: seq<Record>, probe: string -> Probe): (savs: seq<Sav>)
    ensures |savs| == |rs|
    ensures forall i :: 0 <= i < |rs| ==> savs[i] == Read(rs[i], i, probe)
  {
    seq(|rs|, i requires 0 <= i < |rs| => Read(rs[i], i, probe))
  }

  lemma OneRead(savs: seq<Sav>, r: Record, order: seq<Key>, probe: string -> Probe)
    requires Good(r, probe) && AnyOrder(r, order) && !Named(savs, r.name)
    ensures Entries(savs, RecordFields(r, order), probe) == Ok(savs + [Read(r, |savs|, probe)])
  {
    hide Entries, RecordFields, Partial;
    RecordRead(savs, r, order, probe);
  }

  lemma NotYet(rs: seq<Record>, k: nat, probe: string -> Probe)
    requires k < |rs| && DistinctNames(rs)
    ensures !Named(ReadAll(rs[..k], probe), rs[k].name)
  {
  }

  /** Reading the last config after the others. */
  lemma {:induction false} ConfigsRead(rs: seq<Record>, orders: seq<seq<Key>>, k: nat, probe: string -> Probe)
    requires |rs| == |orders| && k <= |rs| && DistinctNames(rs)
    requires forall i :: 0 <= i < |rs| ==> Good(rs[i], probe) && AnyOrder(rs[i], orders[i])
    ensures Entries(ReadAll(rs[..k], probe), AllFields(rs[k..], orders[k..]), probe) == Ok(ReadAll(rs, probe))
    decreases |rs| - k
  {
    hide Good, AnyOrder, Read, RecordFields;
    var savs := ReadAll(rs[..k], probe);
    if k == |rs| {
      assert rs[..k] == rs;
    } else {
      var r, here := rs[k], RecordFields(rs[k], orders[k]);
      NotYet(rs, k, probe);
      OneRead(savs, r, orders[k], probe);
      assert savs + [Read(r, k, probe)] == ReadAll(rs[..k + 1], probe);
      assert rs[k..][1..] == rs[k + 1..] && orders[k..][1..] == orders[k + 1..];
      EntriesOn(savs, here, AllFields(rs[k + 1..], orders[k + 1..]), probe);
      ConfigsRead(rs, orders, k + 1, probe);
    }
  }

  /** The configs as dotsav_parse() returns them. */
  function Expected(rs: seq<Record>, probe: string -> Probe, ext: string): (savs: seq<Sav>)
    ensures |savs| == |rs|
  {
    seq(|rs|, i requires 0 <= i < |rs| =>
          var r := rs[i];
          var prefix := r.backup + "/" + r.name + if r.compress then "." + ext + "." else ".";
          Sav(r.name, Some(r.save), Some(prefix), probe(r.save) == DirectoryFile, r.compress, Seconds(r), r.stack,
              i / 8, {i % 8}))
  }

  /** Whatever the order of the fields and whatever blank lines, comments and
      spaces there are, the configs written are the configs read. */
  lemma RoundTrip(doc: seq<Line>, rs: seq<Record>, orders: seq<seq<Key>>, probe: string -> Probe, ext: string)
    requires doc != [] && forall i :: 0 <= i < |doc| ==> WellFormed(doc[i])
    requires |rs| == |orders| && DistinctNames(rs)
    requires forall i :: 0 <= i < |rs| ==> Good(rs[i], probe) && AnyOrder(rs[i], orders[i])
    requires Fields(doc) == AllFields(rs, orders)
    ensures Parse(Text(doc), probe, ext) == Ok(Expected(rs, probe, ext))
  {
    hide Rendered, Lines, ParseLines, Joined, Fields, AllFields, Entries, Seconds;
    var savs := ReadAll(rs, probe);
    forall i | 0 <= i < |doc| ensures InLine(Rendered(doc[i])) {
      assert WellFormed(doc[i]);
    }
    LinesOfJoined(RenderedAll(doc));
    LinesMean([], doc, probe);
    assert rs[0..] == rs && orders[0..] == orders && ReadAll(rs[..0], probe) == [];
    ConfigsRead(rs, orders, 0, probe);
    assert forall i :: 0 <= i < |rs| ==> Complete(savs[i]);
    assert Finalized(savs, ext) == Ok(Expected(rs, probe, ext));
  }
}
