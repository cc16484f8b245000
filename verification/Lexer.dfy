/** The lexing half of platfree/string.c: spaces and numbers. */
module Lexer {
  import opened CString
  import opened Sequences

  // ---- spaces ----------------------------------------------------------------

  /** strskipws() */
  function DropSpaces(s: string): (r: string)
    ensures |r| <= |s|
    ensures r != "" ==> !IsSpace(r[0])
  {
    if s == "" || !IsSpace(s[0]) then s else DropSpaces(s[1..])
  }

  predicate Spaces(s: string) {
    forall i :: 0 <= i < |s| ==> IsSpace(s[i])
  }

  lemma SpacesCons(c: char, s: string)
    requires IsSpace(c) && Spaces(s)
    ensures Spaces([c] + s)
  {
  }

  /** What is dropped are spaces. */
  lemma {:induction false} DroppedSpaces(s: string)
    ensures var n := |s| - |DropSpaces(s)|; Spaces(s[..n]) && s[n..] == DropSpaces(s) && s == s[..n] + s[n..]
  {
    if s != "" && IsSpace(s[0]) {
      var t := s[1..];
      var m := |t| - |DropSpaces(t)|;
      DroppedSpaces(t);
      assert s == [s[0]] + t && |DropSpaces(s)| == |DropSpaces(t)|;
      ConsSlices(s[0], t, m);
      SpacesCons(s[0], t[..m]);
      hide Spaces, DropSpaces;
      assert s[..m + 1] == [s[0]] + t[..m];
    }
  }

  /** strtrimend() */
  function TrimEnd(s: string): (r: string)
    ensures r <= s
    ensures r != "" ==> !IsSpace(r[|r| - 1])
  {
    if s == "" || !IsSpace(s[|s| - 1]) then s else TrimEnd(s[..|s| - 1])
  }

  /** The spaces by their codes: HT, LF, VT, FF, CR and SP. */
  lemma SpaceCodes(c: char)
    ensures DropSpaces([c]) == (if c as int in {9, 10, 11, 12, 13, 32} then "" else [c])
    ensures TrimEnd([c]) == (if c as int in {9, 10, 11, 12, 13, 32} then "" else [c])
  {
    assert [c][1..] == [] && [c][..0] == [];
  }

  /** strnxtws() finds nothing. */
  predicate NoSpace(s: string) {
    forall i :: 0 <= i < |s| ==> !IsSpace(s[i])
  }

  /** Spaces before a text that begins with something else are what is dropped. */
  lemma {:induction false} DropSpacesIs(ws: string, s: string)
    requires Spaces(ws) && (s != "" ==> !IsSpace(s[0]))
    ensures DropSpaces(ws + s) == s
  {
    if ws == "" {
      assert ws + s == s;
    } else {
      assert (ws + s)[1..] == ws[1..] + s;
      DropSpacesIs(ws[1..], s);
    }
  }

  lemma {:induction false} TrimEndIs(s: string, ws: string)
    requires Spaces(ws) && (s != "" ==> !IsSpace(s[|s| - 1]))
    ensures TrimEnd(s + ws) == s
  {
    if ws == "" {
      assert s + ws == s;
    } else {
      var k := |ws| - 1;
      assert (s + ws)[..|s| + k] == s + ws[..k];
      TrimEndIs(s, ws[..k]);
    }
  }

  // ---- numbers ---------------------------------------------------------------

  const ULLONG_MAX: nat := 0xFFFF_FFFF_FFFF_FFFF
  const UINT32_MAX: nat := 0xFFFF_FFFF
  const UINT8_MAX: nat := 0xFF

  predicate IsDigit(c: char) {
    '0' <= c <= '9'
  }

  predicate AllDigits(s: string) {
    forall i :: 0 <= i < |s| ==> IsDigit(s[i])
  }

  /** The value of decimal digits. */
  function Value(s: string): (n: nat)
    requires AllDigits(s)
  {
    if s == "" then 0 else Value(s[..|s| - 1]) * 10 + (s[|s| - 1] as nat - '0' as nat)
  }

  /** The decimal digits of a value. */
  function Decimal(n: nat): (s: string)
    ensures s != "" && AllDigits(s)
  {
    (if n < 10 then "" else Decimal(n / 10)) + [('0' as nat + n % 10) as char]
  }

  lemma {:induction false} ValueOfDecimal(n: nat)
    ensures Value(Decimal(n)) == n
  {
    var s := Decimal(n);
    assert s[|s| - 1] == ('0' as nat + n % 10) as char;
    if n < 10 {
      assert s[..|s| - 1] == "";
    } else {
      assert s[..|s| - 1] == Decimal(n / 10);
      ValueOfDecimal(n / 10);
    }
  }

  function DigitRun(s: string): (k: nat)
    ensures k <= |s| && AllDigits(s[..k])
    ensures k < |s| ==> !IsDigit(s[k])
  {
    if s == "" || !IsDigit(s[0]) then 0
    else
      var k := 1 + DigitRun(s[1..]);
      assert s[..k] == [s[0]] + s[1..][..k - 1];
      k
  }

  lemma {:induction false} DigitRunIs(d: string, rest: string)
    requires AllDigits(d) && (rest != "" ==> !IsDigit(rest[0]))
    ensures DigitRun(d + rest) == |d|
  {
    if d == "" {
      assert d + rest == rest;
    } else {
      assert (d + rest)[1..] == d[1..] + rest;
      DigitRunIs(d[1..], rest);
    }
  }

  /** strtoull() in base 10: the value, how much was read, and whether it was
      out of range. A negative number is negated within the unsigned type. */
  function StrToULL(s: string): (r: (nat, nat, bool))
  {
    var sign := if s != "" && (s[0] == '+' || s[0] == '-') then 1 else 0;
    var k := DigitRun(s[sign..]);
    if k == 0 then (0, 0, false)
    else
      var v := Value(s[sign..][..k]);
      if v > ULLONG_MAX then (ULLONG_MAX, sign + k, true)
      else (if sign == 1 && s[0] == '-' && v > 0 then ULLONG_MAX + 1 - v else v, sign + k, false)
  }

  /** str2ullong() */
  function ToULL(s: string, len: nat, max: nat): (r: Option<nat>) {
    var (v, end, erange) := StrToULL(s);
    if erange || end != len || v > max then None else Some(v)
  }

  /** char2mult(): hours fall through to minutes. */
  function Mult(c: char): (r: Option<nat>) {
    if c == 'H' || c == 'h' then Some(60 * 60)
    else if c == 'M' || c == 'm' then Some(60)
    else if c == 'S' || c == 's' then Some(1)
    else None
  }

  /** Storing in 32 bits. */
  function Stored(v: nat, mult: nat): (r: nat)
    ensures r <= UINT32_MAX
    ensures r == v * mult <==> v * mult <= UINT32_MAX
  {
    v * mult % (UINT32_MAX + 1)
  }

  /** str2timespan(): the product is stored in 32 bits. */
  function ToTimespan(s: string): (r: Option<nat>)
    requires s != ""
  {
    var unit := s[|s| - 1];
    var mult := if IsDigit(unit) then Some(1) else Mult(unit);
    if mult.None? then None
    else
      match ToULL(s, if IsDigit(unit) then |s| else |s| - 1, UINT32_MAX)
      case None => None
      case Some(v) => Some(Stored(v, mult.value))
  }

  /** str2bool() */
  function ToBool(s: string): (r: Option<bool>) {
    if s == "y" then Some(true) else if s == "n" then Some(false) else None
  }

  // ---- what is accepted ------------------------------------------------------

  /** The number a text stands for, if it is one and at most `max`: digits,
      perhaps behind a sign.  A negative one counts down from 2^64. */
  function Number(s: string, max: nat): (r: Option<nat>) {
    var d := if s != "" && s[0] in "+-" then s[1..] else s;
    if d == "" || !AllDigits(d) || Value(d) >= 0x1_0000_0000_0000_0000 then None
    else
      var v := if s[0] == '-' && Value(d) != 0 then 0x1_0000_0000_0000_0000 - Value(d) else Value(d);
      if v <= max then Some(v) else None
  }

  lemma {:induction false} DigitsStop(d: string, rest: string)
    requires !AllDigits(d)
    ensures DigitRun(d + rest) < |d|
  {
    if IsDigit(d[0]) {
      assert (d + rest)[1..] == d[1..] + rest;
      DigitsStop(d[1..], rest);
    }
  }

  lemma NoDigits(rest: string)
    requires rest != "" ==> !IsDigit(rest[0])
    ensures DigitRun("" + rest) == 0
  {
    assert "" + rest == rest;
  }

  /** What strtoull() makes of a text that something else follows. */
  lemma StrToULLIs(s: string, d: string, rest: string, sign: nat)
    requires s != "" && (rest != "" ==> !IsDigit(rest[0]))
    requires sign == (if s[0] in "+-" then 1 else 0) && d == s[sign..]
    ensures var (v, end, erange) := StrToULL(s + rest);
            if d == "" || !AllDigits(d) then end != |s|
            else
              && end == |s| && (erange <==> Value(d) > ULLONG_MAX)
              && (!erange ==> v == if s[0] == '-' && Value(d) != 0 then ULLONG_MAX + 1 - Value(d) else Value(d))
  {
    assert (s + rest)[0] == s[0];
    DropOfConcat(s, rest, sign);
    if d == "" {
      NoDigits(rest);
    } else if AllDigits(d) {
      DigitRunIs(d, rest);
      assert (d + rest)[..|d|] == d;
    } else {
      DigitsStop(d, rest);
    }
    hide DigitRun, Value, AllDigits;
  }

  /** A text is accepted as the number it stands for, and no other text is. */
  lemma NumberRead(s: string, rest: string, max: nat)
    requires s != "" && (rest != "" ==> !IsDigit(rest[0])) && max < ULLONG_MAX
    ensures ToULL(s + rest, |s|, max) == Number(s, max)
  {
    hide StrToULL, Value, AllDigits;
    var sign := if s[0] in "+-" then 1 else 0;
    assert s[0..] == s;
    StrToULLIs(s, s[sign..], rest, sign);
  }

  /** Nothing before a unit is read as 0. */
  lemma NothingRead(unit: char)
    requires !IsDigit(unit) && unit !in "+-"
    ensures ToULL([unit], 0, UINT32_MAX) == Some(0)
  {
    assert [unit][0..] == [unit] == "" + [unit];
    NoDigits([unit]);
  }

  /** The seconds in a unit, and 0 for anything else. */
  function SecondsIn(unit: char): (n: nat) {
    if unit in "hH" then 3600 else if unit in "mM" then 60 else if unit in "sS" then 1 else 0
  }

  lemma UnitIs(unit: char)
    ensures Mult(unit) == if SecondsIn(unit) == 0 then None else Some(SecondsIn(unit))
    ensures SecondsIn(unit) != 0 ==> !IsDigit(unit) && unit !in "+-"
  {
  }

  lemma NumberBound(s: string, max: nat)
    ensures Number(s, max).Some? ==> Number(s, max).value <= max
  {
    hide Value, AllDigits;
  }

  /** Every text: a number counts in seconds, or in the unit behind it; a unit
      alone is 0; the product is truncated to 32 bits. */
  lemma TimespanMeans(s: string)
    requires s != ""
    ensures var body, unit := s[..|s| - 1], s[|s| - 1];
            ToTimespan(s) ==
            if IsDigit(unit) then Number(s, 0xFFFF_FFFF)
            else if SecondsIn(unit) == 0 then None
            else
              match if body == "" then Some(0) else Number(body, 0xFFFF_FFFF)
              case None => None
              case Some(v) => Some(v * SecondsIn(unit) % 0x1_0000_0000)
  {
    hide ToULL, Number, Mult, SecondsIn;
    var body, unit := s[..|s| - 1], s[|s| - 1];
    UnitIs(unit);
    if IsDigit(unit) {
      NumberRead(s, "", UINT32_MAX);
      assert s + "" == s;
      NumberBound(s, UINT32_MAX);
    } else if SecondsIn(unit) != 0 {
      assert s == body + [unit];
      if body == "" {
        NothingRead(unit);
      } else {
        NumberRead(body, [unit], UINT32_MAX);
      }
    }
  }

  lemma DigitsNumber(d: string, max: nat)
    requires d != "" && AllDigits(d) && max < ULLONG_MAX
    ensures Number(d, max) == if Value(d) <= max then Some(Value(d)) else None
  {
    hide Value;
    assert IsDigit(d[0]);
  }

  lemma DigitsToULL(d: string, rest: string, max: nat)
    requires d != "" && AllDigits(d) && (rest != "" ==> !IsDigit(rest[0])) && max < ULLONG_MAX
    ensures ToULL(d + rest, |d|, max) == if Value(d) <= max then Some(Value(d)) else None
  {
    hide ToULL, Number, Value;
    NumberRead(d, rest, max);
    DigitsNumber(d, max);
  }

  /** A number with a unit: what is stored is the product, truncated to 32 bits.
      A letter that is no unit is refused. */
  lemma TimespanIs(d: string, c: char)
    requires d != "" && AllDigits(d) && Value(d) <= UINT32_MAX && !IsDigit(c)
    ensures ToTimespan(d) == Some(Value(d))
    ensures c in "hH" ==> ToTimespan(d + [c]) == Some(Value(d) * 3600 % 0x1_0000_0000)
    ensures c in "mM" ==> ToTimespan(d + [c]) == Some(Value(d) * 60 % 0x1_0000_0000)
    ensures c in "sS" ==> ToTimespan(d + [c]) == Some(Value(d))
    ensures c !in "hHmMsS" ==> ToTimespan(d + [c]) == None
  {
    hide ToTimespan, Number, Value;
    TimespanMeans(d);
    TimespanMeans(d + [c]);
    DigitsNumber(d, UINT32_MAX);
    assert (d + [c])[..|d|] == d && IsDigit(d[|d| - 1]);
  }

  lemma Grows(v: nat, m: nat)
    requires 1 <= m
    ensures v <= v * m
  {
    assert v * 1 <= v * m;
  }

  lemma Truncated(v: nat)
    ensures v % 0x1_0000_0000 == v <==> v < 0x1_0000_0000
  {
  }

  /** It is exact exactly while the product fits. */
  lemma TimespanExactIff(d: string, c: char)
    requires d != "" && AllDigits(d) && c in "hHmMsS"
    ensures var n := Value(d) * (if c in "hH" then 3600 else if c in "mM" then 60 else 1);
            ToTimespan(d + [c]) == Some(n) <==> n <= UINT32_MAX
  {
    hide ToTimespan, Number, Value;
    var n := Value(d) * (if c in "hH" then 3600 else if c in "mM" then 60 else 1);
    TimespanMeans(d + [c]);
    DigitsNumber(d, UINT32_MAX);
    assert (d + [c])[..|d|] == d;
    Grows(Value(d), SecondsIn(c));
    Truncated(n);
  }
}
