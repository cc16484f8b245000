/** Backup rotation: platfree/backup.c.  The files `<prefix>0`, `<prefix>1`, ...
    are slots, renamed in place so that the backups stay in order. */
module Backup {
  import opened CString
  import opened Sequences

  /** A slot is empty or holds a backup. */
  type Slot<B> = Option<B>

  /** The backups in slot order. */
  function Contents<B>(slots: seq<Slot<B>>): seq<B> {
    if slots == [] then []
    else
      Contents(slots[..|slots| - 1]) +
      match slots[|slots| - 1] case None => [] case Some(b) => [b]
  }

  lemma {:induction false} ContentsConcat<B>(a: seq<Slot<B>>, b: seq<Slot<B>>)
    ensures Contents(a + b) == Contents(a) + Contents(b)
  {
    if b == [] {
      assert a + b == a;
    } else {
      assert (a + b)[..|a + b| - 1] == a + b[..|b| - 1];
      ContentsConcat(a, b[..|b| - 1]);
    }
  }

  lemma {:induction false} ContentsNone<B>(s: seq<Slot<B>>)
    requires forall k :: 0 <= k < |s| ==> s[k].None?
    ensures Contents(s) == []
  {
    if s != [] {
      ContentsNone(s[..|s| - 1]);
    }
  }

  lemma {:induction false} ContentsSome<B>(s: seq<Slot<B>>)
    ensures |Contents(s)| <= |s|
    ensures |Contents(s)| == |s| <==> forall k :: 0 <= k < |s| ==> s[k].Some?
    ensures |Contents(s)| == |s| ==> forall k :: 0 <= k < |s| ==> s[k] == Some(Contents(s)[k])
  {
    if s != [] {
      ContentsSome(s[..|s| - 1]);
    }
  }

  function One<B>(v: Slot<B>): seq<B> {
    match v case None => [] case Some(b) => [b]
  }

  lemma ContentsOne<B>(v: Slot<B>)
    ensures Contents([v]) == One(v)
  {
    assert [v][..0] == [];
  }

  /** The contents around slot `i`. */
  lemma ContentsAt<B>(s: seq<Slot<B>>, i: nat)
    requires i < |s|
    ensures Contents(s) == Contents(s[..i]) + (One(s[i]) + Contents(s[i + 1..]))
  {
    hide Contents;
    var tail := [s[i]] + s[i + 1..];
    SplitAt(s, i);
    ContentsConcat(s[..i], tail);
    ContentsConcat([s[i]], s[i + 1..]);
    ContentsOne(s[i]);
  }

  lemma TailNone<B>(s: seq<Slot<B>>, k: nat)
    requires k <= |s| && forall j :: k <= j < |s| ==> s[j].None?
    ensures Contents(s) == Contents(s[..k])
  {
    assert s == s[..k] + s[k..];
    ContentsConcat(s[..k], s[k..]);
    ContentsNone(s[k..]);
  }

  lemma HeadNone<B>(s: seq<Slot<B>>, k: nat)
    requires k <= |s| && forall j :: 0 <= j < k ==> s[j].None?
    ensures Contents(s) == Contents(s[k..])
  {
    assert s == s[..k] + s[k..];
    ContentsConcat(s[..k], s[k..]);
    ContentsNone(s[..k]);
  }

  /** Moving a backup down over empty slots keeps the order. */
  lemma MoveKeepsContents<B>(s: seq<Slot<B>>, room: nat, i: nat)
    requires room < i < |s| && s[i].Some?
    requires forall k :: room <= k < i ==> s[k].None?
    ensures Contents(s[room := s[i]][i := None]) == Contents(s)
  {
    hide Contents;
    var s' := s[room := s[i]][i := None];
    ContentsAt(s, i);
    TailNone(s[..i], room);
    assert s[..i][..room] == s[..room];
    ContentsAt(s', room);
    assert s'[..room] == s[..room];
    HeadNone(s'[room + 1..], i - room);
    assert s'[room + 1..][i - room..] == s[i + 1..];
  }

  /** Slots 0 to n-1 are taken and the rest are empty. */
  ghost predicate Compact<B>(s: seq<Slot<B>>, n: nat) {
    n <= |s| && (forall k :: 0 <= k < n ==> s[k].Some?) && (forall k :: n <= k < |s| ==> s[k].None?)
  }

  /** The first empty slot. */
  ghost predicate FirstHole<B>(s: seq<Slot<B>>, base: nat) {
    base < |s| && s[base].None? && forall k :: 0 <= k < base ==> s[k].Some?
  }

  lemma CompactSize<B>(s: seq<Slot<B>>, n: nat)
    requires Compact(s, n)
    ensures |Contents(s)| == n
    ensures forall k :: 0 <= k < n ==> s[k] == Some(Contents(s)[k])
  {
    assert s == s[..n] + s[n..];
    ContentsConcat(s[..n], s[n..]);
    ContentsSome(s[..n]);
    ContentsNone(s[n..]);
  }

  datatype Sorted = Ok | NoRoom | Error

  datatype Next = Room(n: nat) | Failed

  /** What one rotation may do to the backups, in whatever state the slots were
      found and whichever calls failed. */
  ghost predicate Rotated<B>(stack: nat, before: seq<B>, after: seq<B>, r: Next) {
    match r
    case Room(n) => n == |after| < stack && after == if |before| == stack then before[1..] else before
    case Failed => after == before || (|before| == stack > 0 && after == before[1..])
  }

  lemma CompactUnique<B>(s: seq<Slot<B>>, n: nat, m: nat)
    requires Compact(s, n) && m <= |s|
    requires (m > 0 ==> s[m - 1].Some?) && forall k :: m <= k < |s| ==> s[k].None?
    ensures m == n
  {
    assert n > 0 ==> s[n - 1].Some?;
    assert n < |s| ==> s[n].None?;
  }

  /** Removing slot 0 when all are taken drops the oldest backup. */
  lemma DropFirst<B>(s: seq<Slot<B>>)
    requires |s| > 0 && forall k :: 0 <= k < |s| ==> s[k].Some?
    ensures |Contents(s)| == |s| && Contents(s[0 := None]) == Contents(s)[1..]
  {
    hide Contents;
    var s' := s[0 := None];
    ContentsAt(s, 0);
    ContentsAt(s', 0);
    assert s'[1..] == s[1..] && s'[..0] == s[..0] == [];
    ContentsNone(s[..0]);
    ContentsSome(s);
  }

  /** Writing the vacant slot adds the newest backup. */
  lemma WriteAppends<B>(s: seq<Slot<B>>, n: nat, b: B)
    requires n < |s| && Compact(s, n)
    ensures Contents(s[n := Some(b)]) == Contents(s) + [b] && Compact(s[n := Some(b)], n + 1)
  {
    hide Contents;
    var s' := s[n := Some(b)];
    TailNone(s, n);
    ContentsAt(s', n);
    assert s'[..n] == s[..n];
    ContentsNone(s'[n + 1..]);
  }

  /** `now` is the end of `all`. */
  predicate Newest<B(==)>(all: seq<B>, now: seq<B>) {
    |now| <= |all| && now == all[|all| - |now|..]
  }

  lemma NewestDrop<B>(all: seq<B>, now: seq<B>)
    requires Newest(all, now) && now != []
    ensures Newest(all, now[1..])
  {
  }

  lemma NewestAdd<B>(all: seq<B>, now: seq<B>, b: B)
    requires Newest(all, now)
    ensures Newest(all + [b], now + [b])
  {
  }

  // ----- over many rounds

  /** A round: rotate, then perhaps write the slot the rotation found. */
  datatype Round<B> = Round(after: seq<B>, result: Next, written: Option<B>)

  ghost predicate RoundOk<B>(stack: nat, before: seq<B>, r: Round<B>) {
    Rotated(stack, before, r.after, r.result) && (r.written.Some? ==> r.result.Room?)
  }

  function End<B>(r: Round<B>): seq<B> {
    if r.written.Some? then r.after + [r.written.value] else r.after
  }

  function Now<B>(start: seq<B>, rounds: seq<Round<B>>): seq<B> {
    if rounds == [] then start else End(rounds[|rounds| - 1])
  }

  ghost predicate RunOk<B>(stack: nat, start: seq<B>, rounds: seq<Round<B>>) {
    rounds == [] ||
    (var init, last := rounds[..|rounds| - 1], rounds[|rounds| - 1];
     RunOk(stack, start, init) && RoundOk(stack, Now(start, init), last))
  }

  /** Every backup there ever was, oldest first. */
  function History<B>(start: seq<B>, rounds: seq<Round<B>>): seq<B> {
    if rounds == [] then start
    else
      var last := rounds[|rounds| - 1];
      History(start, rounds[..|rounds| - 1]) + if last.written.Some? then [last.written.value] else []
  }

  lemma OneRound<B>(stack: nat, all: seq<B>, now: seq<B>, r: Round<B>)
    requires 1 <= stack && RoundOk(stack, now, r)
    requires Newest(all, now) && |now| <= stack && (|now| == |all| || |now| >= stack - 1)
    ensures var all' := all + (if r.written.Some? then [r.written.value] else []);
            Newest(all', End(r)) && |End(r)| <= stack && (|End(r)| == |all'| || |End(r)| >= stack - 1)
  {
    if r.after != now {
      NewestDrop(all, now);
    }
    if r.written.Some? {
      NewestAdd(all, r.after, r.written.value);
    } else {
      assert all + [] == all;
    }
  }

  /** Whatever fails and whether or not slots get written, the slots always
      hold the newest backups of the whole history, in order: all of them, or
      at least stack - 1. */
  lemma {:induction false} NewestKept<B>(stack: nat, start: seq<B>, rounds: seq<Round<B>>)
    requires 1 <= stack && |start| <= stack && RunOk(stack, start, rounds)
    ensures var all, now := History(start, rounds), Now(start, rounds);
            Newest(all, now) && |now| <= stack && (|now| == |all| || |now| >= stack - 1)
  {
    if rounds == [] {
      assert start[0..] == start;
    } else {
      var init, last := rounds[..|rounds| - 1], rounds[|rounds| - 1];
      var all, now := History(start, init), Now(start, init);
      NewestKept(stack, start, init);
      OneRound(stack, all, now, last);
    }
  }

  /** With no failure and every slot written, the slots are a bounded FIFO: the
      last `stack` backups, oldest first. */
  lemma {:induction false} BoundedFifo<B>(stack: nat, start: seq<B>, rounds: seq<Round<B>>)
    requires 1 <= stack && |start| <= stack && RunOk(stack, start, rounds)
    requires forall k :: 0 <= k < |rounds| ==> rounds[k].result.Room? && rounds[k].written.Some?
    ensures var all, now := History(start, rounds), Now(start, rounds);
            Newest(all, now) && |now| == if |all| <= stack then |all| else stack
  {
    NewestKept(stack, start, rounds);
    if rounds != [] {
      BoundedFifo(stack, start, rounds[..|rounds| - 1]);
    }
  }

  /** The newest of `all`, as many as there is room for, from slot 0 on. */
  ghost predicate InPlace<B>(s: seq<Slot<B>>, all: seq<B>) {
    var n := if |all| <= |s| then |all| else |s|;
    Compact(s, n) && forall k :: 0 <= k < n ==> s[k] == Some(all[|all| - n + k])
  }

  lemma PlacesOf<B>(s: seq<Slot<B>>, all: seq<B>, stack: nat)
    requires |s| == stack && Compact(s, |Contents(s)|) && Newest(all, Contents(s))
    requires |Contents(s)| == if |all| <= stack then |all| else stack
    ensures InPlace(s, all)
  {
    CompactSize(s, |Contents(s)|);
    hide Contents;
  }

  lemma ContentsSize<B>(s: seq<Slot<B>>)
    ensures |Contents(s)| <= |s|
  {
    ContentsSome(s);
  }

  lemma RunStart<B>(stack: nat, start: seq<B>)
    ensures RunOk(stack, start, []) && Now(start, []) == start
  {
  }

  lemma RunOn<B>(stack: nat, start: seq<B>, rounds: seq<Round<B>>, r: Round<B>)
    requires RunOk(stack, start, rounds) && RoundOk(stack, Now(start, rounds), r)
    ensures RunOk(stack, start, rounds + [r]) && Now(start, rounds + [r]) == End(r)
  {
    assert (rounds + [r])[..|rounds|] == rounds;
  }

  lemma {:induction false} AllWritten<B>(start: seq<B>, rounds: seq<Round<B>>, bs: seq<Slot<B>>)
    requires |rounds| == |bs| && forall k :: 0 <= k < |bs| ==> rounds[k].written == bs[k] && bs[k].Some?
    ensures History(start, rounds) == start + Contents(bs)
  {
    if bs == [] {
      assert start + [] == start;
    } else {
      var n := |bs| - 1;
      AllWritten(start, rounds[..n], bs[..n]);
      assert start + Contents(bs) == (start + Contents(bs[..n])) + [bs[n].value];
    }
  }

  /** Where nothing failed and every slot found was filled, the slots hold the
      last backups at their places. */
  lemma AllInPlace<B>(stack: nat, start: seq<B>, rounds: seq<Round<B>>, bs: seq<Slot<B>>, slots: seq<Slot<B>>)
    requires 1 <= stack == |slots| && |start| <= stack && RunOk(stack, start, rounds)
    requires bs != [] && |rounds| == |bs| && forall k :: 0 <= k < |bs| ==> bs[k].Some?
    requires forall k :: 0 <= k < |bs| ==> rounds[k].result.Room? && rounds[k].written == bs[k]
    requires Contents(slots) == Now(start, rounds) && Compact(slots, |Now(start, rounds)|)
    ensures InPlace(slots, start + Contents(bs))
  {
    hide Contents, RunOk, Now, History, Newest, Compact, InPlace;
    BoundedFifo(stack, start, rounds);
    AllWritten(start, rounds, bs);
    PlacesOf(slots, start + Contents(bs), stack);
  }

  // ----- failing calls

  /** How many of the calls number `from` to `end` fail. */
  function Faults(fault: nat -> bool, from: nat, end: nat): (n: nat)
    decreases end
  {
    if end <= from then 0 else Faults(fault, from, end - 1) + if fault(end - 1) then 1 else 0
  }

  /** How many of the rotations failed. */
  function Failures<B>(rounds: seq<Round<B>>): (n: nat) {
    if rounds == [] then 0
    else Failures(rounds[..|rounds| - 1]) + if rounds[|rounds| - 1].result.Failed? then 1 else 0
  }

  lemma {:induction false} FaultsOn(fault: nat -> bool, start: nat, from: nat, end: nat, ok: bool)
    requires start <= from <= end && (!ok ==> from < end && fault(end - 1))
    requires forall n :: from <= n < end - (if ok then 0 else 1) ==> !fault(n)
    ensures Faults(fault, start, end) == Faults(fault, start, from) + if ok then 0 else 1
    decreases end
  {
    if from < end {
      FaultsOn(fault, start, from, end - 1, true);
    }
  }

  lemma FailuresOn<B>(rounds: seq<Round<B>>, r: Round<B>)
    ensures Failures(rounds + [r]) == Failures(rounds) + if r.result.Failed? then 1 else 0
  {
    assert (rounds + [r])[..|rounds|] == rounds;
  }

  lemma {:induction false} NoFailures<B>(rounds: seq<Round<B>>)
    requires Failures(rounds) == 0
    ensures forall k :: 0 <= k < |rounds| ==> rounds[k].result.Room?
  {
    if rounds != [] {
      NoFailures(rounds[..|rounds| - 1]);
    }
  }

  class Directory<B> {
    var slots: array<Slot<B>>
    const fault: nat -> bool     // which system calls fail on their own
    var calls: nat               // how many were made

    constructor (slots: array<Slot<B>>, fault: nat -> bool)
      ensures this.slots == slots && this.fault == fault && calls == 0
    {
      this.slots, this.fault, calls := slots, fault, 0;
    }

    /** Of the calls number `from` to `to` all succeeded; but the last one failed
        unless `ok`. */
    ghost predicate Went(from: nat, to: nat, ok: bool)
    {
      if ok then from <= to && forall n :: from <= n < to ==> !fault(n)
      else from < to && fault(to - 1) && forall n :: from <= n < to - 1 ==> !fault(n)
    }

    /** A call of access(), rename() or flexremove() is about to be made. */
    method Call() returns (ok: bool)
      modifies `calls
      ensures calls == old(calls) + 1 && Went(old(calls), calls, ok)
    {
      ok := !fault(calls);
      calls := calls + 1;
    }

    /** rename() of the backup in slot `i` to the first hole. */
    method Rename(stack: nat, room: nat, i: nat) returns (ok: bool)
      requires room < i < stack <= slots.Length && slots[i].Some?
      requires forall k :: room <= k < i ==> slots[k].None?
      modifies slots, `calls
      ensures calls == old(calls) + 1 && Went(old(calls), calls, ok)
      ensures slots[..] == if ok then old(slots[..])[room := old(slots[i])][i := None] else old(slots[..])
      ensures Contents(slots[..stack]) == Contents(old(slots[..stack]))
    {
      hide Contents;
      ghost var was := slots[..stack];
      MoveKeepsContents(was, room, i);
      ok := Call();
      if ok {
        slots[room], slots[i] := slots[i], None;
        assert slots[..stack] == was[room := was[i]][i := None];
      }
    }

    /** backup_fetch_sort(): look at every slot and move every backup above the
        first hole down, one call for each. */
    method FetchSort(stack: nat) returns (r: Sorted)
      requires stack <= slots.Length && stack <= 255
      modifies slots, `calls
      ensures slots[stack..] == old(slots[stack..])
      ensures Contents(slots[..stack]) == Contents(old(slots[..stack]))
      ensures r == NoRoom ==> slots[..] == old(slots[..]) && forall k :: 0 <= k < stack ==> slots[k].Some?
      ensures r == NoRoom ==> |Contents(slots[..stack])| == stack
      ensures r == Ok ==> |Contents(slots[..stack])| < stack
      ensures r == Ok ==> exists n :: 0 <= n < stack && Compact(slots[..stack], n)
      ensures Went(old(calls), calls, r != Error)
      ensures (forall k :: 0 <= k < stack ==> old(slots[k]).Some?) ==>
                slots[..] == old(slots[..]) && calls <= old(calls) + stack
      ensures r == NoRoom ==> calls == old(calls) + stack
      ensures r == Ok ==> exists base :: 0 <= base < stack && FirstHole(old(slots[..stack]), base) &&
                                         calls == old(calls) + stack + |Contents(slots[..stack])| - base
    {
      hide Contents;
      var room: int := -1;
      ghost var base := 0;
      var i := 0;
      while i < stack
        invariant 0 <= i <= stack
        invariant forall k :: i <= k < slots.Length ==> slots[k] == old(slots[k])
        invariant Contents(slots[..stack]) == Contents(old(slots[..stack]))
        invariant Went(old(calls), calls, true)
        invariant room == -1 ==> calls == old(calls) + i
        invariant room == -1 ==> slots[..] == old(slots[..]) && forall k :: 0 <= k < i ==> slots[k].Some?
        invariant room != -1 ==> base < i && FirstHole(old(slots[..stack]), base)
        invariant room != -1 ==> base <= room && calls == old(calls) + i + (room - base)
        invariant room != -1 ==> 0 <= room < i && (forall k :: 0 <= k < room ==> slots[k].Some?) &&
                                 forall k :: room <= k < i ==> slots[k].None?
      {
        var ok := Call();
        if !ok {
          return Error;
        }
        if slots[i].Some? {
          if room != -1 {
            ok := Rename(stack, room, i);
            if !ok {
              return Error;
            }
            room := room + 1;
          }
        } else if room == -1 {
          room, base := i, i;
        }
        i := i + 1;
      }
      if room == -1 {
        ContentsSome(slots[..stack]);
        return NoRoom;
      }
      assert Compact(slots[..stack], room);
      CompactSize(slots[..stack], room);
      r := Ok;
    }

    /** find_next_room(): one above the highest taken slot. */
    method FindNextRoom(stack: nat) returns (r: Next)
      requires stack <= slots.Length && stack <= 255
      modifies `calls
      ensures r.Room? ==> r.n <= stack && (r.n > 0 ==> slots[r.n - 1].Some?) &&
                          forall k :: r.n <= k < stack ==> slots[k].None?
      ensures Went(old(calls), calls, r.Room?)
      ensures r.Room? ==> calls == old(calls) + stack - r.n + if r.n > 0 then 1 else 0
    {
      var i := stack;
      while i > 0
        invariant 0 <= i <= stack
        invariant forall k :: i <= k < stack ==> slots[k].None?
        invariant Went(old(calls), calls, true) && calls == old(calls) + stack - i
      {
        i := i - 1;
        var ok := Call();
        if !ok {
          return Failed;
        }
        if slots[i].Some? {
          return Room(i + 1);
        }
      }
      r := Room(0);
    }

    /** flexremove() of slot 0, when all slots are taken. */
    method RemoveFirst(stack: nat) returns (ok: bool)
      requires 0 < stack <= slots.Length && forall k :: 0 <= k < stack ==> slots[k].Some?
      modifies slots, `calls
      ensures calls == old(calls) + 1 && Went(old(calls), calls, ok)
      ensures slots[stack..] == old(slots[stack..]) && (!ok ==> slots[..] == old(slots[..]))
      ensures ok ==> Contents(slots[..stack]) == Contents(old(slots[..stack]))[1..]
      ensures |Contents(old(slots[..stack]))| == stack
    {
      hide Contents;
      ghost var before := slots[..stack];
      DropFirst(before);
      ok := Call();
      if ok {
        slots[0] := None;
        assert slots[..stack] == before[0 := None];
      }
    }

    /** next_backup_prefix(): the slot the next backup goes to.  When all slots
        are taken, the call number `stack` removes the oldest backup: it is gone
        when that call succeeded and in no other case. */
    method NextBackup(stack: nat) returns (r: Next)
      requires 1 <= stack <= slots.Length && stack <= 255
      modifies slots, `calls
      ensures slots[stack..] == old(slots[stack..])
      ensures Rotated(stack, Contents(old(slots[..stack])), Contents(slots[..stack]), r)
      ensures r.Room? ==> Compact(slots[..stack], r.n)
      ensures Went(old(calls), calls, r.Room?)
      ensures |Contents(old(slots[..stack]))| == stack ==>
                if calls > old(calls) + stack && !fault(old(calls) + stack) then
                  Contents(slots[..stack]) == Contents(old(slots[..stack]))[1..]
                else r == Failed && slots[..] == old(slots[..])
    {
      hide Contents, FirstHole;
      ghost var before := slots[..stack];
      ContentsSome(before);
      var sorted := FetchSort(stack);
      if sorted == NoRoom {
        var ok := RemoveFirst(stack);
        if !ok {
          return Failed;
        }
        sorted := FetchSort(stack);
      }
      if sorted == Error {
        return Failed;
      }
      ghost var n :| 0 <= n < stack && Compact(slots[..stack], n);
      CompactSize(slots[..stack], n);
      r := FindNextRoom(stack);
      if r.Room? {
        CompactUnique(slots[..stack], n, r.n);
      }
    }

    /** backup(): rotate; filling the slot found is up to the environment. */
    method TakeBackup(stack: nat, b: Slot<B>) returns (ghost round: Round<B>)
      requires 1 <= stack <= slots.Length && stack <= 255
      modifies slots, `calls
      ensures slots[stack..] == old(slots[stack..])
      ensures RoundOk(stack, Contents(old(slots[..stack])), round) && Contents(slots[..stack]) == End(round)
      ensures round.written == if round.result.Room? then b else None
      ensures round.written.Some? ==> Compact(slots[..stack], |End(round)|)
      ensures Went(old(calls), calls, round.result.Room?)
    {
      hide Contents;
      var r := NextBackup(stack);
      round := Round(Contents(slots[..stack]), r, if r.Room? then b else None);
      if r.Room? && b.Some? {
        ghost var found := slots[..stack];
        WriteAppends(found, r.n, b.value);
        slots[r.n] := b;
        assert slots[..stack] == found[r.n := b];
        CompactSize(slots[..stack], r.n + 1);
      }
    }

    /** The backups of one config that routine() takes one after the other: at
        every end the slots hold the newest backups; if no call failed and every
        slot was filled, the last `stack` of them at their places.  One rotation
        fails for each call that does. */
    method TakeBackups(stack: nat, bs: seq<Slot<B>>) returns (ghost rounds: seq<Round<B>>)
      requires 1 <= stack <= slots.Length && stack <= 255
      modifies slots, `calls
      ensures slots[stack..] == old(slots[stack..])
      ensures |rounds| == |bs| && RunOk(stack, Contents(old(slots[..stack])), rounds)
      ensures forall k :: 0 <= k < |bs| ==> rounds[k].written == if rounds[k].result.Room? then bs[k] else None
      ensures var all, now := History(Contents(old(slots[..stack])), rounds), Contents(slots[..stack]);
              Newest(all, now) && |now| <= stack && (|now| == |all| || |now| >= stack - 1)
      ensures old(calls) <= calls && Faults(fault, old(calls), calls) == Failures(rounds)
      ensures Faults(fault, old(calls), calls) == 0 && bs != [] && (forall k :: 0 <= k < |bs| ==> bs[k].Some?) ==>
                InPlace(slots[..stack], Contents(old(slots[..stack])) + Contents(bs))
    {
      hide Contents, RunOk, RoundOk, Now, History, Newest, End, Compact, InPlace;
      ghost var start := Contents(slots[..stack]);
      rounds := [];
      RunStart(stack, start);
      var i := 0;
      while i < |bs|
        invariant i == |rounds| <= |bs| && slots[stack..] == old(slots[stack..])
        invariant RunOk(stack, start, rounds) && Contents(slots[..stack]) == Now(start, rounds)
        invariant forall k :: 0 <= k < i ==> rounds[k].written == if rounds[k].result.Room? then bs[k] else None
        invariant old(calls) <= calls && Faults(fault, old(calls), calls) == Failures(rounds)
        invariant i > 0 && rounds[i - 1].written.Some? ==> Compact(slots[..stack], |Now(start, rounds)|)
      {
        ghost var from := calls;
        ghost var round := TakeBackup(stack, bs[i]);
        FaultsOn(fault, old(calls), from, calls, round.result.Room?);
        FailuresOn(rounds, round);
        RunOn(stack, start, rounds, round);
        rounds := rounds + [round];
        i := i + 1;
      }
      ContentsSize(old(slots[..stack]));
      NewestKept(stack, start, rounds);
      if Failures(rounds) == 0 && bs != [] && forall k :: 0 <= k < |bs| ==> bs[k].Some? {
        NoFailures(rounds);
        AllInPlace(stack, start, rounds, bs, slots[..stack]);
      }
    }
  }
}
