/** What an option means, said by the types and flags of its table entry. */
module ArguOptions {
  import opened Argupar
  import opened ArguLaws
  import opened CString
  import opened OptTable

  // ---- one option ------------------------------------------------------------

  /** The option accepts this: a switch, a counter or a string whatever it is, a
      number a value that str2uint() accepts, or being unset. */
  predicate Accepts(o: Opt, arg: Option<string>, unset: bool, isUint: string -> bool) {
    || o.typ in {Switch, CountUp, String}
    || (o.typ == Uint && (unset || (arg.Some? && isUint(arg.value))))
  }

  /** A number option is given something else. */
  predicate Refuses(o: Opt, arg: Option<string>, unset: bool, isUint: string -> bool) {
    o.typ == Uint && !unset && arg.Some? && !isUint(arg.value)
  }

  /** The option is stored and the parsing goes on, or it ends there. */
  function Meant(opts: seq<Opt>, flags: Flags, o: Opt, arg: Option<string>, unset: bool, more: seq<string>,
                 isUint: string -> bool): Outcome
  {
    if Accepts(o, arg, unset, isUint) then
      Combine([], [Applied(o, arg, unset)], Parse(opts, flags, more, isUint))
    else if Refuses(o, arg, unset, isUint) then Exit
    else Unspecified
  }

  lemma ApplyMeans(o: Opt, arg: Option<string>, unset: bool, used: nat, isUint: string -> bool)
    ensures var s := Apply(o, arg, unset, used, isUint);
            && s.used == used
            && (s.status == Success <==> Accepts(o, arg, unset, isUint))
            && (s.status == Error <==> Refuses(o, arg, unset, isUint))
            && (s.status == Success ==> s.applied == [Applied(o, arg, unset)])
  {
  }

  /** A word of options that comes to one of them, with a value behind it or
      without. */
  lemma WordMeans(opts: seq<Opt>, flags: Flags, word: string, o: Opt, arg: Option<string>, unset: bool, used: nat,
                  more: seq<string>, isUint: string -> bool)
    requires IsOption(word) && used <= |more|
    requires Word(opts, flags, word, more, isUint) == Apply(o, arg, unset, used, isUint)
    ensures Parse(opts, flags, [word] + more, isUint) == Meant(opts, flags, o, arg, unset, more[used..], isUint)
  {
    ApplyMeans(o, arg, unset, used, isUint);
    hide Word, Parse, Apply, Accepts, Refuses, Combine;
    ParseOption(opts, flags, word, more, isUint);
  }

  lemma WordFails(opts: seq<Opt>, flags: Flags, word: string, more: seq<string>, isUint: string -> bool)
    requires IsOption(word)
    requires Word(opts, flags, word, more, isUint).status in {Error, Undefined}
    ensures Parse(opts, flags, [word] + more, isUint) ==
            if Word(opts, flags, word, more, isUint).status == Error then Exit else Unspecified
  {
    hide Word, Parse, Combine;
    ParseOption(opts, flags, word, more, isUint);
  }

  /** -c, first in the vector: it sets the first option with this name; one that
      takes a value takes the next word, which must be there. */
  lemma ShortMeans(opts: seq<Opt>, flags: Flags, c: char, more: seq<string>, isUint: string -> bool)
    requires c != '-' && c != 'h'
    ensures var o := FirstShort(opts, c);
            Parse(opts, flags, ["-" + [c]] + more, isUint) ==
            if o.None? then Exit
            else if o.value.noarg then Meant(opts, flags, o.value, None, false, more, isUint)
            else if more != [] then Meant(opts, flags, o.value, Some(more[0]), false, more[1..], isUint)
            else if o.value.optarg then Unspecified
            else Exit
  {
    WordOfShort(opts, flags, [c], more, isUint);
    var s := ShortStep(opts, [c], more, isUint);
    assert Word(opts, flags, "-" + [c], more, isUint) == s;
    assert more[0..] == more;
    hide Word, Short, Parse, FirstShort, Apply, Accepts, Refuses, Meant;
    match FirstShort(opts, c) {
      case None =>
        WordFails(opts, flags, "-" + [c], more, isUint);
      case Some(o) =>
        if o.noarg {
          WordMeans(opts, flags, "-" + [c], o, None, false, 0, more, isUint);
        } else if more != [] {
          WordMeans(opts, flags, "-" + [c], o, Some(more[0]), false, 1, more, isUint);
        } else {
          WordFails(opts, flags, "-" + [c], more, isUint);
        }
    }
  }

  /** A cluster that begins with a name no option has ends the program. */
  lemma UnknownShort(opts: seq<Opt>, flags: Flags, c: char, tail: string, more: seq<string>, isUint: string -> bool)
    requires c != '-' && [c] + tail != "h" && forall i :: 0 <= i < |opts| ==> opts[i].shrt != c
    ensures Parse(opts, flags, ["-" + ([c] + tail)] + more, isUint) == Exit
  {
    WordOfShort(opts, flags, [c] + tail, more, isUint);
    hide Word, Parse, FirstShort;
    assert ShortStep(opts, [c] + tail, more, isUint).status == Error;
    WordFails(opts, flags, "-" + ([c] + tail), more, isUint);
  }

  // ---- long options ----------------------------------------------------------

  lemma NoValue(text: string)
    requires '=' !in text
    ensures '=' !in Stem(text) && StrChrNul(Stem(text), '=') == |Stem(text)|
  {
    assert forall c :: c in Stem(text) ==> c in text;
    StrChrNulIs(Stem(text), '=', |Stem(text)|);
  }

  /** Behind the name there is nothing. */
  lemma LongPlain(opts: seq<Opt>, text: string, more: seq<string>, isUint: string -> bool)
    requires '=' !in text
    ensures var o := Selected(Choose(opts, text));
            Long(opts, text, more, isUint) ==
            if o.None? then Step(Error, [], 0) else LongValue(o.value, "", Negated(text), more, isUint)
  {
    NoValue(text);
    hide LongValue, FirstExact, LastAbbrev, Total, StrChrNul;
    if Choose(opts, text).Named? {
      assert forall c :: c in Stem(text) ==> c != '=';
    }
  }

  /** --name, first in the vector, for a name or an abbreviation of it: it sets
      or unsets the option selected; one that takes a value takes the next word,
      which must be there, unless it is unset. */
  lemma LongMeans(opts: seq<Opt>, flags: Flags, text: string, more: seq<string>, isUint: string -> bool)
    requires text != "" && text != "help" && '=' !in text
    ensures var o := Selected(Choose(opts, text));
            Parse(opts, flags, ["--" + text] + more, isUint) ==
            if o.None? then Exit
            else if o.value.noarg || Negated(text) then
              Meant(opts, flags, o.value, None, Negated(text), more, isUint)
            else if more != [] then Meant(opts, flags, o.value, Some(more[0]), false, more[1..], isUint)
            else if o.value.optarg then Unspecified
            else Exit
  {
    var word, chosen := "--" + text, Selected(Choose(opts, text));
    WordOfLong(opts, flags, text, more, isUint);
    LongPlain(opts, text, more, isUint);
    assert more[0..] == more;
    hide Word, Long, Parse, Choose, Selected, Apply, Meant, Negated;
    match chosen {
      case None => WordFails(opts, flags, word, more, isUint);
      case Some(o) =>
        if o.noarg || Negated(text) {
          WordMeans(opts, flags, word, o, None, Negated(text), 0, more, isUint);
        } else if more != [] {
          WordMeans(opts, flags, word, o, Some(more[0]), false, 1, more, isUint);
        } else {
          WordFails(opts, flags, word, more, isUint);
        }
    }
  }

  lemma StemWithValue(name: string, v: string)
    requires '=' !in name
    ensures var text, body := name + "=" + v, Stem(name);
            && Negated(text) == Negated(name) && Stem(text) == body + "=" + v && '=' !in body
            && StrChrNul(Stem(text), '=') == |body|
  {
    var text := name + "=" + v;
    assert forall c :: c in Stem(name) ==> c in name;
    if Negated(name) {
      assert text[|NO|..] == name[|NO|..] + "=" + v;
    } else {
      NotNegated(name, v);
    }
    StrChrNulIs(Stem(name) + "=" + v, '=', |Stem(name)|);
  }

  /** Behind the name there is a value. */
  lemma LongWithValue(opts: seq<Opt>, name: string, v: string, more: seq<string>, isUint: string -> bool)
    requires '=' !in name && forall o :: o in opts ==> Plain(o)
    ensures var text := name + "=" + v;
            var o := Selected(Choose(opts, text));
            Long(opts, text, more, isUint) ==
            if o.None? then Step(Error, [], 0) else LongValue(o.value, "=" + v, Negated(name), more, isUint)
  {
    var text := name + "=" + v;
    StemWithValue(name, v);
    assert Stem(text)[|Stem(name)|..] == "=" + v;
    hide LongValue, FirstExact, LastAbbrev, Total, StrChrNul;
    if Choose(opts, text).Named? {
      var o := Choose(opts, text).opt;
      var stem := Stem(o.name.value);
      assert Plain(o);
      assert '=' !in stem by {
        assert forall c :: c in stem ==> c in o.name.value;
      }
      ValueAfter(stem, Stem(name), v);
    }
  }

  /** --name=value: the option selected takes the value, if it takes one and is
      not to be unset. */
  lemma LongValueMeans(opts: seq<Opt>, flags: Flags, name: string, v: string, more: seq<string>,
                       isUint: string -> bool)
    requires '=' !in name && forall o :: o in opts ==> Plain(o)
    ensures var o := Selected(Choose(opts, name + "=" + v));
            Parse(opts, flags, ["--" + (name + "=" + v)] + more, isUint) ==
            if o.None? || o.value.noarg || Negated(name) then Exit
            else Meant(opts, flags, o.value, Some(v), false, more, isUint)
  {
    var text := name + "=" + v;
    var word, chosen := "--" + text, Selected(Choose(opts, text));
    assert text[|name|] == '=' && "help"[0] != '=' && "help"[1] != '=' && "help"[2] != '=' && "help"[3] != '=';
    WordOfLong(opts, flags, text, more, isUint);
    LongWithValue(opts, name, v, more, isUint);
    assert more[0..] == more && ("=" + v)[1..] == v;
    hide Word, Long, Parse, Choose, Selected, Apply, Meant, Negated;
    if chosen.None? || chosen.value.noarg || Negated(name) {
      WordFails(opts, flags, word, more, isUint);
    } else {
      WordMeans(opts, flags, word, chosen.value, Some(v), false, 0, more, isUint);
    }
  }

  // ---- which option ----------------------------------------------------------

  /** Of several options with the same short name the first counts, ... */
  lemma {:induction false} FirstShortCounts(opts: seq<Opt>, c: char)
    requires FirstShort(opts, c).Some?
    ensures exists i :: 0 <= i < |opts| && opts[i] == FirstShort(opts, c).value
                        && forall k :: 0 <= k < i ==> opts[k].shrt != c
  {
    if opts[0].shrt != c {
      var tail := opts[1..];
      FirstShortCounts(tail, c);
      var i :| 0 <= i < |tail| && tail[i] == FirstShort(tail, c).value && forall k :: 0 <= k < i ==> tail[k].shrt != c;
      assert opts[i + 1] == tail[i] && forall k :: 0 <= k < i + 1 ==> k == 0 || opts[k] == tail[k - 1];
    }
  }

  /** ... and of several that an argument names in full. */
  lemma {:induction false} FirstNameCounts(opts: seq<Opt>, text: string)
    requires Choose(opts, text).Named?
    ensures exists i :: 0 <= i < |opts| && opts[i] == Choose(opts, text).opt
                        && forall k :: 0 <= k < i ==> !Exact(opts[k], text)
  {
    hide Exact, LastAbbrev, Total;
    if !Exact(opts[0], text) {
      var tail := opts[1..];
      FirstNameCounts(tail, text);
      var i :| 0 <= i < |tail| && tail[i] == Choose(tail, text).opt && forall k :: 0 <= k < i ==> !Exact(tail[k], text);
      assert opts[i + 1] == tail[i] && forall k :: 0 <= k < i + 1 ==> k == 0 || opts[k] == tail[k - 1];
    }
  }

  /** An entry that no long option can mean. */
  predicate Idle(o: Opt) {
    o.name.None? || o.typ == Subcommand || o.typ == MembInfo
  }

  lemma {:induction false} FirstExactSkips(a: seq<Opt>, o: Opt, b: seq<Opt>, text: string)
    requires Idle(o)
    ensures FirstExact(a + ([o] + b), text) == FirstExact(a + b, text)
    decreases |a|
  {
    if a == [] {
      assert a + ([o] + b) == [o] + b && ([o] + b)[1..] == b && a + b == b;
    } else {
      assert (a + ([o] + b))[1..] == a[1..] + ([o] + b) && (a + b)[1..] == a[1..] + b;
      FirstExactSkips(a[1..], o, b, text);
    }
  }

  lemma IdleUnregistered(o: Opt, text: string)
    requires Idle(o)
    ensures Registrations(o, text) == 0
  {
  }

  lemma {:induction false} AbbrevSkips(a: seq<Opt>, o: Opt, b: seq<Opt>, text: string)
    requires Idle(o)
    ensures LastAbbrev(a + ([o] + b), text) == LastAbbrev(a + b, text)
    ensures Total(a + ([o] + b), text) == Total(a + b, text)
    decreases |b|
  {
    IdleUnregistered(o, text);
    hide Idle, Registrations;
    var all := a + ([o] + b);
    var init := all[..|all| - 1];
    if b == [] {
      assert init == a + b;
    } else {
      var n := |b| - 1;
      assert init == a + ([o] + b[..n]) && (a + b)[..|a + b| - 1] == a + b[..n];
      AbbrevSkips(a, o, b[..n], text);
    }
  }

  /** Commands, descriptions of members and entries without a long name take no
      part in the selection of a long option. */
  lemma IdleEntries(a: seq<Opt>, o: Opt, b: seq<Opt>, text: string)
    requires Idle(o)
    ensures Choose(a + ([o] + b), text) == Choose(a + b, text) && Selected(Choose(a + b, text)) != Some(o)
  {
    FirstExactSkips(a, o, b, text);
    AbbrevSkips(a, o, b, text);
  }

  // ---- whole vectors ---------------------------------------------------------

  /** What is stored as a number is one. */
  predicate Numeric(a: Applied, isUint: string -> bool) {
    a.opt.typ == Uint && !a.unset ==> a.arg.Some? && isUint(a.arg.value)
  }

  predicate AllNumeric(stores: seq<Applied>, isUint: string -> bool) {
    forall a :: a in stores ==> Numeric(a, isUint)
  }

  lemma ShortStepNumeric(opts: seq<Opt>, word: string, rest: seq<string>, isUint: string -> bool)
    ensures AllNumeric(ShortStep(opts, word, rest, isUint).applied, isUint)
  {
    hide FirstShort;
  }

  lemma {:induction false} ShortNumeric(opts: seq<Opt>, word: string, rest: seq<string>, isUint: string -> bool)
    ensures AllNumeric(Short(opts, word, rest, isUint).applied, isUint)
    decreases |word|
  {
    hide ShortStep, Numeric;
    ShortStepNumeric(opts, word, rest, isUint);
    if Continues(opts, word) {
      ShortNumeric(opts, word[1..], rest, isUint);
    }
  }

  lemma LongNumeric(opts: seq<Opt>, text: string, rest: seq<string>, isUint: string -> bool)
    ensures AllNumeric(Long(opts, text, rest, isUint).applied, isUint)
  {
    hide Choose, Exact, Negated;
  }

  lemma {:induction false} CommandStores(opts: seq<Opt>, word: string)
    ensures |Command(opts, word).applied| == if Command(opts, word).status == Subcmd then 1 else 0
  {
    if opts != [] {
      CommandStores(opts[1..], word);
    }
  }

  lemma WordNumeric(opts: seq<Opt>, flags: Flags, word: string, rest: seq<string>, isUint: string -> bool)
    ensures var s := Word(opts, flags, word, rest, isUint);
            && (s.status != Subcmd ==> AllNumeric(s.applied, isUint))
            && (s.status == Subcmd ==> flags.commandMode && |s.applied| == 1)
  {
    hide Short, Long, Command, Numeric;
    if !IsOption(word) {
      CommandStores(opts, word);
    } else if |word| == 1 || word[1] != '-' {
      ShortNumeric(opts, word[1..], rest, isUint);
    } else {
      LongNumeric(opts, word[2..], rest, isUint);
    }
  }

  lemma NumericConcat(a: seq<Applied>, b: seq<Applied>, isUint: string -> bool)
    requires AllNumeric(a, isUint) && AllNumeric(b, isUint)
    ensures AllNumeric(a + b, isUint)
  {
  }

  /** All but the last, which selects a command. */
  ghost predicate NumericBefore(stores: seq<Applied>, isUint: string -> bool) {
    stores != [] && AllNumeric(stores[..|stores| - 1], isUint)
  }

  lemma NumericBeforeConcat(a: seq<Applied>, b: seq<Applied>, isUint: string -> bool)
    requires AllNumeric(a, isUint) && NumericBefore(b, isUint)
    ensures NumericBefore(a + b, isUint)
  {
    assert (a + b)[..|a + b| - 1] == a + b[..|b| - 1];
    NumericConcat(a, b[..|b| - 1], isUint);
  }

  /** Every number that a vector stores was accepted as one; only in the mode
      for commands the last store may be the selection of the command. */
  lemma {:induction false} NumbersAreNumbers(opts: seq<Opt>, flags: Flags, words: seq<string>, isUint: string -> bool)
    requires Parse(opts, flags, words, isUint).Parsed?
    ensures var stores := Parse(opts, flags, words, isUint).applied;
            AllNumeric(stores, isUint) || (flags.commandMode && NumericBefore(stores, isUint))
    decreases |words|
  {
    hide Word, Parse, Numeric, Combine;
    if words == [] {
      ParseNothing(opts, flags, isUint);
    } else {
      var s := Word(opts, flags, words[0], words[1..], isUint);
      WordNumeric(opts, flags, words[0], words[1..], isUint);
      ParseFirst(opts, flags, words, isUint);
      if s.status == Success {
        var kept := if IsOption(words[0]) then [] else [words[0]];
        var rest := Parse(opts, flags, words[1 + s.used..], isUint);
        CombineIs(kept, s.applied, rest);
        NumbersAreNumbers(opts, flags, words[1 + s.used..], isUint);
        hide AllNumeric, NumericBefore;
        if AllNumeric(rest.applied, isUint) {
          NumericConcat(s.applied, rest.applied, isUint);
        } else {
          NumericBeforeConcat(s.applied, rest.applied, isUint);
        }
      }
    }
  }

  /** -h and --help ask for help wherever a word is read. */
  lemma HelpExits(opts: seq<Opt>, flags: Flags, more: seq<string>, isUint: string -> bool)
    ensures Parse(opts, flags, ["-h"] + more, isUint) == Exit == Parse(opts, flags, ["--help"] + more, isUint)
  {
    assert (["-h"] + more)[0] == "-h" && (["--help"] + more)[0] == "--help";
    hide Short, Long, Combine;
  }

  /** A lone "-" is an unknown option; it is not an argument. */
  lemma LoneDash(opts: seq<Opt>, flags: Flags, more: seq<string>, isUint: string -> bool)
    ensures Parse(opts, flags, ["-"] + more, isUint) ==
            if exists i :: 0 <= i < |opts| && opts[i].shrt == NUL then Unspecified else Exit
  {
    assert (["-"] + more)[0] == "-" && "-"[1..] == "";
    assert Word(opts, flags, "-", more, isUint) == ShortStep(opts, "", more, isUint);
    hide Word, Parse, FirstShort;
    WordFails(opts, flags, "-", more, isUint);
  }

  predicate Commands(o: Opt, word: string) {
    !o.typ.Group? && o.name == Some(word)
  }

  lemma {:induction false} FirstCommand(opts: seq<Opt>, word: string)
    requires forall o :: o in opts ==> o.typ.Group? || o.name.Some?
    ensures var s := Command(opts, word);
            if exists i :: 0 <= i < |opts| && Commands(opts[i], word) then
              exists i :: 0 <= i < |opts| && Commands(opts[i], word)
                          && (forall k :: 0 <= k < i ==> !Commands(opts[k], word))
                          && s == Step(Subcmd, [Applied(opts[i], None, false)], 0)
            else s == Step(Error, [], 0)
  {
    if opts != [] && !Commands(opts[0], word) {
      var tail := opts[1..];
      FirstCommand(tail, word);
      if i :| 0 <= i < |tail| && Commands(tail[i], word) && (forall k :: 0 <= k < i ==> !Commands(tail[k], word))
              && Command(tail, word) == Step(Subcmd, [Applied(tail[i], None, false)], 0) {
        assert Commands(opts[i + 1], word);
        assert forall k :: 0 <= k < i + 1 ==> opts[k] == if k == 0 then opts[0] else tail[k - 1];
      }
    }
  }

  /** A word that is no option: the parsing stops before it, or it is kept, or
      it must be the name of a command; the first entry with this name is
      chosen, and the rest of the vector is its own. */
  lemma ArgumentMeans(opts: seq<Opt>, flags: Flags, word: string, more: seq<string>, isUint: string -> bool)
    requires !IsOption(word)
    requires flags.commandMode && !flags.stopAtNonopt ==> forall o :: o in opts ==> o.typ.Group? || o.name.Some?
    ensures var o := Parse(opts, flags, [word] + more, isUint);
            && (flags.stopAtNonopt ==> o == Parsed([word] + more, []))
            && (!flags.stopAtNonopt && !flags.commandMode ==>
                  o == Combine([word], [], Parse(opts, flags, more, isUint)))
            && (!flags.stopAtNonopt && flags.commandMode ==>
                  if exists i :: 0 <= i < |opts| && Commands(opts[i], word) then
                    exists i :: 0 <= i < |opts| && Commands(opts[i], word)
                                && (forall k :: 0 <= k < i ==> !Commands(opts[k], word))
                                && o == Parsed(more, [Applied(opts[i], None, false)])
                  else o == Exit)
  {
    var words := [word] + more;
    assert words[0] == word && words[1..] == more && words[1 + 0..] == more;
    if !flags.stopAtNonopt && flags.commandMode {
      FirstCommand(opts, word);
    }
    hide Command, Parse, Combine;
    ParseFirst(opts, flags, words, isUint);
  }

  /** A command that needs an argument exits without one, and does not make any
      difference otherwise. */
  lemma ArgumentNeeded(opts: seq<Opt>, flags: Flags, words: seq<string>, isUint: string -> bool)
    ensures var all, o := ParseAll(opts, flags, words, isUint), Parse(opts, flags, words, isUint);
            if flags.needArgument && (words == [] || (o.Parsed? && o.args == [])) then all == Exit else all == o
  {
    hide Parse;
  }
}
