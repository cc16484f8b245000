/** What users of the argument parser rely on: ways of writing the same thing,
    the order of the arguments, and that the order of the table is irrelevant. */
module ArguLaws {
  import opened Argupar
  import opened CString
  import opened OptTable
  import opened Sequences

  // ---- ways of writing the same thing ----------------------------------------

  lemma WordOfShort(opts: seq<Opt>, flags: Flags, cluster: string, rest: seq<string>, isUint: string -> bool)
    requires cluster != "" && cluster[0] != '-' && cluster != "h"
    ensures IsOption("-" + cluster)
    ensures Word(opts, flags, "-" + cluster, rest, isUint) == Short(opts, cluster, rest, isUint)
  {
    hide Short, Long, Command;
    assert ("-" + cluster)[1..] == cluster;
    assert "-h"[1..] == "h";
  }

  lemma WordOfLong(opts: seq<Opt>, flags: Flags, text: string, rest: seq<string>, isUint: string -> bool)
    requires text != "" && text != "help"
    ensures IsOption("--" + text)
    ensures Word(opts, flags, "--" + text, rest, isUint) == Long(opts, text, rest, isUint)
  {
    hide Short, Long, Command;
    assert ("--" + text)[2..] == text;
    assert "--help"[2..] == "help";
  }

  /** A first word of options. */
  lemma ParseOption(opts: seq<Opt>, flags: Flags, word: string, more: seq<string>, isUint: string -> bool)
    requires IsOption(word)
    ensures var s := Word(opts, flags, word, more, isUint);
            OfOptions(s.status) ==>
              Parse(opts, flags, [word] + more, isUint) ==
              if s.status == Success then Combine([], s.applied, Parse(opts, flags, more[s.used..], isUint))
              else if s.status == Undefined then Unspecified else Exit
  {
    var words := [word] + more;
    var s := Word(opts, flags, word, more, isUint);
    assert words[0] == word && words[1..] == more && words[1 + s.used..] == more[s.used..];
    hide Word, Parse;
    ParseFirst(opts, flags, words, isUint);
  }

  lemma CombineFailure(args: seq<string>, stores: seq<Applied>)
    ensures Combine(args, stores, Exit) == Exit && Combine(args, stores, Unspecified) == Unspecified
  {
  }

  /** -abc is -a -bc where `a` takes no value. */
  lemma ClusterSplit(opts: seq<Opt>, flags: Flags, c: char, tail: string, more: seq<string>, isUint: string -> bool)
    requires tail != "" && tail[0] != '-' && tail != "h" && c != '-' && c != 'h'
    requires FirstShort(opts, c).Some? && FirstShort(opts, c).value.noarg
    ensures Parse(opts, flags, ["-" + ([c] + tail)] + more, isUint) ==
            Parse(opts, flags, ["-" + [c]] + (["-" + tail] + more), isUint)
  {
    var o := FirstShort(opts, c).value;
    var word, later := [c] + tail, ["-" + tail] + more;
    var s, t := Apply(o, None, false, 0, isUint), Short(opts, tail, more, isUint);
    assert word[1..] == tail;
    assert Short(opts, word, more, isUint) == if s.status == Success then Onward(s.applied, t) else s;
    assert Short(opts, [c], later, isUint) == s;
    WordOfShort(opts, flags, word, more, isUint);
    WordOfShort(opts, flags, tail, more, isUint);
    WordOfShort(opts, flags, [c], later, isUint);
    hide Short, Word, Parse, FirstShort, Apply, Combine;
    ParseOption(opts, flags, "-" + word, more, isUint);
    ParseOption(opts, flags, "-" + [c], later, isUint);
    ParseOption(opts, flags, "-" + tail, more, isUint);
    if s.status == Success {
      assert later[0..] == later;
      var rest := Parse(opts, flags, more[t.used..], isUint);
      CombineTwice([], s.applied, [], t.applied, rest);
      CombineFailure([], s.applied);
    }
  }

  /** -oVALUE is -o VALUE where `o` takes a value. */
  lemma ShortValueSplit(opts: seq<Opt>, flags: Flags, c: char, v: string, more: seq<string>, isUint: string -> bool)
    requires v != "" && c != '-' && c != 'h'
    requires FirstShort(opts, c).Some? && !FirstShort(opts, c).value.noarg
    ensures Parse(opts, flags, ["-" + ([c] + v)] + more, isUint) ==
            Parse(opts, flags, ["-" + [c]] + ([v] + more), isUint)
  {
    var o := FirstShort(opts, c).value;
    var word, later := [c] + v, [v] + more;
    assert word[1..] == v;
    assert Short(opts, word, more, isUint) == Apply(o, Some(v), false, 0, isUint);
    assert Short(opts, [c], later, isUint) == Apply(o, Some(v), false, 1, isUint);
    WordOfShort(opts, flags, word, more, isUint);
    WordOfShort(opts, flags, [c], later, isUint);
    hide Short, Word, Parse, FirstShort, Combine;
    ParseOption(opts, flags, "-" + word, more, isUint);
    ParseOption(opts, flags, "-" + [c], later, isUint);
    assert later[1..] == more && more[0..] == more;
  }

  lemma ValueAfter(stem: string, body: string, v: string)
    requires '=' !in stem && '=' !in body
    ensures var text := body + "=" + v;
            (stem <= text && (|text| == |stem| || text[|stem|] == '=')) <==> stem == body
    ensures (stem <= body && (|body| == |stem| || body[|stem|] == '=')) <==> stem == body
  {
    var text := body + "=" + v;
    assert text[..|body|] == body && text[|body|] == '=';
    assert forall i :: 0 <= i < |stem| ==> stem[i] != '=';
  }

  lemma NotNegated(name: string, v: string)
    requires !Negated(name)
    ensures !Negated(name + "=" + v)
  {
    var text := name + "=" + v;
    if |name| < |NO| {
      assert text[|name|] == '=' && NO[|name|] != '=';
    } else {
      assert text[..|NO|] == name[..|NO|];
    }
  }

  /** A value after '=' does not change which option is named. */
  lemma NamedWithValue(o: Opt, name: string, v: string)
    requires Plain(o) && '=' !in name
    ensures Exact(o, name + "=" + v) <==> Exact(o, name)
  {
    var text := name + "=" + v;
    assert Negated(text) == Negated(name) by {
      if !Negated(name) {
        NotNegated(name, v);
      }
    }
    var body := Stem(name);
    assert Stem(text) == body + "=" + v;
    if HasLong(o) {
      var stem := Stem(o.name.value);
      assert '=' !in stem by {
        assert forall c :: c in stem ==> c in o.name.value;
      }
      assert '=' !in body by {
        assert forall c :: c in body ==> c in name;
      }
      ValueAfter(stem, body, v);
    }
  }

  lemma {:induction false} FirstWithValue(opts: seq<Opt>, name: string, v: string)
    requires '=' !in name && forall o :: o in opts ==> Plain(o)
    ensures FirstExact(opts, name + "=" + v) == FirstExact(opts, name)
  {
    if opts != [] {
      NamedWithValue(opts[0], name, v);
      FirstWithValue(opts[1..], name, v);
    }
  }

  lemma PlainStem(o: Opt, name: string)
    requires Plain(o) && Exact(o, name) && '=' !in name && !Negated(name)
    ensures Stem(o.name.value) == name == Stem(name)
  {
    assert '=' !in Stem(o.name.value) by {
      assert forall c :: c in Stem(o.name.value) ==> c in o.name.value;
    }
    ValueAfter(Stem(o.name.value), name, "");
  }

  lemma LongSplit(opts: seq<Opt>, name: string, v: string, more: seq<string>, isUint: string -> bool)
    requires '=' !in name && !Negated(name) && forall o :: o in opts ==> Plain(o)
    requires Choose(opts, name).Named? && !Choose(opts, name).opt.noarg
    ensures var o := Choose(opts, name).opt;
            && Long(opts, name + "=" + v, more, isUint) == Apply(o, Some(v), false, 0, isUint)
            && Long(opts, name, [v] + more, isUint) == Apply(o, Some(v), false, 1, isUint)
  {
    var o, text := Choose(opts, name).opt, name + "=" + v;
    FirstWithValue(opts, name, v);
    NotNegated(name, v);
    assert FirstExact(opts, name) == Some(o) && o in opts;
    PlainStem(o, name);
    hide FirstExact, Choose, Exact, Plain, Long, Apply, Negated;
    LongNamed(opts, text, o, more, isUint);
    LongNamed(opts, name, o, [v] + more, isUint);
    assert text[|name|..] == "=" + v && ("=" + v)[1..] == v;
    assert name[|name|..] == "";
  }

  /** --name=VALUE is --name VALUE where `name` names an option that takes a
      value. */
  lemma LongValueSplit(opts: seq<Opt>, flags: Flags, name: string, v: string, more: seq<string>, isUint: string -> bool)
    requires '=' !in name && !Negated(name) && name != "" && name != "help"
    requires forall o :: o in opts ==> Plain(o)
    requires Choose(opts, name).Named? && !Choose(opts, name).opt.noarg
    ensures Parse(opts, flags, ["--" + (name + "=" + v)] + more, isUint) ==
            Parse(opts, flags, ["--" + name] + ([v] + more), isUint)
  {
    var o := Choose(opts, name).opt;
    var text, later := name + "=" + v, [v] + more;
    assert text[|name|] == '=' && "help"[0] != '=' && "help"[1] != '=' && "help"[2] != '=' && "help"[3] != '=';
    LongSplit(opts, name, v, more, isUint);
    WordOfLong(opts, flags, text, more, isUint);
    WordOfLong(opts, flags, name, later, isUint);
    hide Long, Word, Parse, Choose, Combine, Plain;
    ParseOption(opts, flags, "--" + text, more, isUint);
    ParseOption(opts, flags, "--" + name, later, isUint);
    assert later[1..] == more && more[0..] == more;
  }

  // ---- what is negated -------------------------------------------------------

  /** The argument without its value. */
  function NamePart(text: string): string {
    text[..StrChrNul(text, '=')]
  }

  /** What is written to set an option, and to unset it: the name without and
      with a leading "no-", whichever of the two the table gives.  The size
      command has its --no-dir as such a name, over a variable that is set. */
  function Form(name: string, unset: bool): string {
    if unset then NO + Stem(name) else Stem(name)
  }

  /** The name in the table has this form, or the option has the other one. */
  predicate HasForm(o: Opt, unset: bool) {
    o.name.Some? && (unset == Negated(o.name.value) || o.hasneg)
  }

  predicate Abbreviates(part: string, o: Opt, unset: bool) {
    HasForm(o, unset) && part <= Form(o.name.value, unset)
  }

  function Selected(c: Choice): Option<Opt> {
    match c
    case Named(o) => Some(o)
    case Abbreviated(o) => Some(o)
    case _ => None
  }

  /** Whichever way an option was selected, what decides between setting and
      unsetting is whether the argument begins with "no-". */
  lemma StoresUnset(opts: seq<Opt>, text: string, rest: seq<string>, isUint: string -> bool)
    requires Selected(Choose(opts, text)).Some?
    ensures forall s :: s in Long(opts, text, rest, isUint).applied ==>
              s.opt == Selected(Choose(opts, text)).value && s.unset == Negated(text)
  {
    hide Choose, Negated, Exact, Stem, Dispatch;
  }

  lemma Parts(text: string)
    ensures var part := NamePart(text);
            && Negated(part) == Negated(text)
            && Stem(part) == Stem(text)[..StrChrNul(Stem(text), '=')]
  {
    var cut := StrChrNul(text, '=');
    var part := text[..cut];
    if Negated(text) {
      assert forall i :: 0 <= i < |NO| ==> text[i] == NO[i] != '=';
      assert part[..|NO|] == text[..|NO|];
      assert '=' !in text[|NO|..][..cut - |NO|] by {
        assert forall i :: 0 <= i < cut - |NO| ==> text[|NO|..][i] == text[..cut][|NO| + i];
      }
      StrChrNulIs(text[|NO|..], '=', cut - |NO|);
      assert part[|NO|..] == text[|NO|..][..cut - |NO|];
    }
  }

  lemma StemNamed(stem: string, body: string)
    requires '=' !in stem
    ensures (stem <= body && (|body| == |stem| || body[|stem|] == '=')) <==> body[..StrChrNul(body, '=')] == stem
  {
    if stem <= body && (|body| == |stem| || body[|stem|] == '=') {
      StrChrNulIs(body, '=', |stem|);
    }
  }

  /** An option is named in full by the form that says what is stored, and by
      nothing else. */
  lemma NamedPolarity(o: Opt, text: string)
    requires HasLong(o) && Plain(o)
    ensures Exact(o, text) <==> HasForm(o, Negated(text)) && NamePart(text) == Form(o.name.value, Negated(text))
  {
    Parts(text);
    var stem, body := Stem(o.name.value), Stem(text);
    assert '=' !in stem by {
      assert forall c :: c in stem ==> c in o.name.value;
    }
    StemNamed(stem, body);
    var part := NamePart(text);
    assert Negated(part) ==> part == NO + Stem(part);
    if part == NO + stem && Negated(text) {
      assert Stem(part) == stem;
    }
    hide NamePart, StrChrNul;
  }

  lemma OneRegistration(opts: seq<Opt>, text: string)
    requires Choose(opts, text).Abbreviated?
    ensures Registrations(Choose(opts, text).opt, text) == 1
  {
    hide Registrations, Exact;
    var o := Choose(opts, text).opt;
    assert Total(opts, text) == 1 && o in opts && Registrations(o, text) > 0;
    var i :| 0 <= i < |opts| && opts[i] == o;
    TotalWithout(opts, text, i);
  }

  lemma Behind(a: string, b: string)
    ensures NO + a <= NO + b <==> a <= b
  {
    assert (NO + a)[|NO|..] == a && (NO + b)[|NO|..] == b;
    if a <= b {
      assert b == a + b[|a|..];
      assert NO + b == (NO + a) + b[|a|..];
    }
  }

  /** An abbreviated option is set or unset by an abbreviation of the form that
      says so if and only if what follows a leading "no-" abbreviates the name
      without one; else the option has a negated form and the argument, or what
      follows its "no-", is the beginning of "no-" itself. */
  lemma AbbreviatedPolarity(opts: seq<Opt>, text: string)
    requires Choose(opts, text).Abbreviated?
    ensures var o, part := Choose(opts, text).opt, NamePart(text);
            && HasLong(o) && HasForm(o, Negated(text))
            && (Abbreviates(part, o, Negated(text)) <==> Stem(part) <= Stem(o.name.value))
            && (!Abbreviates(part, o, Negated(text)) ==> o.hasneg && Stem(text) <= NO)
  {
    var o, part := Choose(opts, text).opt, NamePart(text);
    OneRegistration(opts, text);
    Parts(text);
    hide Choose, StrChrNul, NamePart;
    if Negated(text) {
      assert part == NO + Stem(part);
      Behind(Stem(part), Stem(o.name.value));
    }
  }

  lemma OneForN(o: Opt, text: string)
    requires HasLong(o) && o.hasneg && Stem(o.name.value) != "" && Stem(o.name.value)[0] != 'n'
    requires Stem(text) == "n"
    ensures Choose([o], text) == Abbreviated(o)
  {
    StrChrNulIs("n", '=', 1);
    assert "n"[..1] == "n" && "n" <= NO && "n"[0] == 'n';
    assert Registrations(o, text) == 1 && !Exact(o, text);
    assert [o][..0] == [] && [o][1..] == [];
    hide Registrations, Exact;
    assert Total([o], text) == 1 && FirstExact([o], text) == None;
  }

  /** Both ways to go wrong: a word that abbreviates what unsets a switch sets
      it, and a word that abbreviates neither form unsets it. */
  lemma NegationAbbreviated(name: string, rest: seq<string>, isUint: string -> bool)
    requires Stem(name) != "" && Stem(name)[0] != 'n'
    ensures var o := Toggle(name, true);
            && Long([o], "n", rest, isUint) == Step(Success, [Applied(o, None, false)], 0)
            && Abbreviates("n", o, true) && !Abbreviates("n", o, false)
            && Long([o], "no-n", rest, isUint) == Step(Success, [Applied(o, None, true)], 0)
            && !Abbreviates("no-n", o, true) && !Abbreviates("no-n", o, false)
  {
    var o := Toggle(name, true);
    assert "no-n"[|NO|..] == "n" && "no-n"[..|NO|] == NO && "n" <= NO;
    Behind("n", Stem(name));
    assert NO + "n" == "no-n";
    OneForN(o, "n");
    OneForN(o, "no-n");
    hide Choose, Registrations;
  }

  // ---- the arguments that are left -------------------------------------------

  predicate NoOptions(words: seq<string>) {
    forall i :: 0 <= i < |words| ==> !IsOption(words[i])
  }

  lemma ShortStepMore(opts: seq<Opt>, word: string, rest: seq<string>, more: seq<string>, isUint: string -> bool)
    ensures ShortStep(opts, word, rest, isUint).status == Success ==>
              ShortStep(opts, word, rest + more, isUint) == ShortStep(opts, word, rest, isUint)
  {
    assert rest != [] ==> (rest + more)[0] == rest[0];
    hide FirstShort, Apply;
  }

  /** What a word does when it succeeds, it does with more words behind it too:
      none of them can become its value. */
  lemma {:induction false} ShortMore(opts: seq<Opt>, word: string, rest: seq<string>, more: seq<string>,
                                     isUint: string -> bool)
    requires Short(opts, word, rest, isUint).status == Success
    ensures Short(opts, word, rest + more, isUint) == Short(opts, word, rest, isUint)
    decreases |word|
  {
    ShortStepMore(opts, word, rest, more, isUint);
    hide ShortStep, FirstShort;
    if Continues(opts, word) {
      ShortMore(opts, word[1..], rest, more, isUint);
    }
  }

  lemma LongMore(opts: seq<Opt>, text: string, rest: seq<string>, more: seq<string>, isUint: string -> bool)
    requires Long(opts, text, rest, isUint).status == Success
    ensures Long(opts, text, rest + more, isUint) == Long(opts, text, rest, isUint)
  {
    assert rest != [] ==> (rest + more)[0] == rest[0];
    hide Choose, Apply, Exact;
  }

  lemma WordMore(opts: seq<Opt>, flags: Flags, word: string, rest: seq<string>, more: seq<string>,
                 isUint: string -> bool)
    ensures var s := Word(opts, flags, word, rest, isUint);
            s.status == Success || s.status == Done || s.status == Subcmd ==>
              Word(opts, flags, word, rest + more, isUint) == s
  {
    hide Short, Long, Command;
    var s := Word(opts, flags, word, rest, isUint);
    if s.status == Success && IsOption(word) {
      if |word| == 1 || word[1] != '-' {
        ShortMore(opts, word[1..], rest, more, isUint);
      } else {
        LongMore(opts, word[2..], rest, more, isUint);
      }
    }
  }

  /** The first word is used and the parsing goes on. */
  predicate Passes(opts: seq<Opt>, flags: Flags, words: seq<string>, isUint: string -> bool)
    requires words != []
  {
    Word(opts, flags, words[0], words[1..], isUint).status == Success
  }

  /** Where it goes on: behind the word and its value. */
  function Next(opts: seq<Opt>, flags: Flags, words: seq<string>, isUint: string -> bool): (k: nat)
    requires words != []
    ensures 1 <= k <= |words|
  {
    1 + Word(opts, flags, words[0], words[1..], isUint).used
  }

  /** The parser gets through all these words: none of them ends the parsing. */
  predicate RunsThrough(opts: seq<Opt>, flags: Flags, words: seq<string>, isUint: string -> bool)
    decreases |words|
  {
    words == [] ||
    (Passes(opts, flags, words, isUint)
     && RunsThrough(opts, flags, words[Next(opts, flags, words, isUint)..], isUint))
  }

  /** The first word, with and without what follows the vector. */
  lemma OneMore(opts: seq<Opt>, flags: Flags, a: seq<string>, rest: seq<string>, isUint: string -> bool)
    requires a != []
    ensures var s := Word(opts, flags, a[0], a[1..], isUint);
            && (s.status == Success ==>
                  Parse(opts, flags, a + rest, isUint) ==
                  Combine(if IsOption(a[0]) then [] else [a[0]], s.applied,
                          Parse(opts, flags, a[1 + s.used..] + rest, isUint)))
            && (s.status == Subcmd ==> Parse(opts, flags, a + rest, isUint) == Parsed(a[1..] + rest, s.applied))
            && (s.status == Done ==>
                  Parse(opts, flags, a + rest, isUint) == Parsed((if IsOption(a[0]) then a[1..] else a) + rest, []))
  {
    hide Word, Combine, Parse;
    var s := Word(opts, flags, a[0], a[1..], isUint);
    var words := a + rest;
    WordMore(opts, flags, a[0], a[1..], rest, isUint);
    assert words[0] == a[0] && words[1..] == a[1..] + rest && words[1 + s.used..] == a[1 + s.used..] + rest;
    ParseFirst(opts, flags, words, isUint);
  }

  lemma ParseNothing(opts: seq<Opt>, flags: Flags, isUint: string -> bool)
    ensures Parse(opts, flags, [], isUint) == Parsed([], [])
  {
  }

  /** In every mode, a vector that parses may be continued: the rest is parsed
      on its own and appended, or, if the parsing had ended, appended as it is. */
  lemma {:induction false} ParseContinues(opts: seq<Opt>, flags: Flags, a: seq<string>, rest: seq<string>,
                                          isUint: string -> bool)
    requires Parse(opts, flags, a, isUint).Parsed?
    ensures var o := Parse(opts, flags, a, isUint);
            Parse(opts, flags, a + rest, isUint) ==
            if RunsThrough(opts, flags, a, isUint) then Combine(o.args, o.applied, Parse(opts, flags, rest, isUint))
            else Parsed(o.args + rest, o.applied)
    decreases |a|
  {
    hide Word, Combine, Parse;
    if a == [] {
      assert a + rest == rest;
      ParseNothing(opts, flags, isUint);
      CombineNothing(Parse(opts, flags, rest, isUint));
    } else {
      ParseFirst(opts, flags, a, isUint);
      var s := Word(opts, flags, a[0], a[1..], isUint);
      OneMore(opts, flags, a, rest, isUint);
      if s.status == Success {
        var tail := a[1 + s.used..];
        var kept := if IsOption(a[0]) then [] else [a[0]];
        var o := Parse(opts, flags, tail, isUint);
        CombineIs(kept, s.applied, o);
        ParseContinues(opts, flags, tail, rest, isUint);
        CombineTwice(kept, s.applied, o.args, o.applied, Parse(opts, flags, rest, isUint));
        CombineIs(kept, s.applied, Parsed(o.args + rest, o.applied));
        Assoc(kept, o.args, rest);
      }
    }
  }

  /** In the plain mode nothing but a "--" ends the parsing. */
  lemma {:induction false} OnlyDashesEnd(opts: seq<Opt>, flags: Flags, a: seq<string>, isUint: string -> bool)
    requires !flags.stopAtNonopt && !flags.commandMode && "--" !in a
    requires Parse(opts, flags, a, isUint).Parsed?
    ensures RunsThrough(opts, flags, a, isUint)
    decreases |a|
  {
    hide Combine, Parse, Short, Long, Command;
    if a != [] {
      ParseFirst(opts, flags, a, isUint);
      assert a[0] in a;
      var s := Word(opts, flags, a[0], a[1..], isUint);
      if s.status == Success {
        CombineIs(if IsOption(a[0]) then [] else [a[0]], s.applied, Parse(opts, flags, a[1 + s.used..], isUint));
        OnlyDashesEnd(opts, flags, a[1 + s.used..], isUint);
      }
    }
  }

  /** The arguments found before a "--", then everything after it. */
  lemma AfterDashes(opts: seq<Opt>, flags: Flags, a: seq<string>, b: seq<string>, isUint: string -> bool)
    requires Parse(opts, flags, a, isUint).Parsed?
    requires RunsThrough(opts, flags, a, isUint) || (!flags.stopAtNonopt && !flags.commandMode && "--" !in a)
    ensures var o := Parse(opts, flags, a, isUint);
            Parse(opts, flags, a + (["--"] + b), isUint) == Parsed(o.args + b, o.applied)
  {
    if !RunsThrough(opts, flags, a, isUint) {
      OnlyDashesEnd(opts, flags, a, isUint);
    }
    var words := ["--"] + b;
    assert words[0] == "--" && words[1..] == b;
    hide Parse, Combine, RunsThrough, Short, Long, Command;
    ParseContinues(opts, flags, a, words, isUint);
    ParseFirst(opts, flags, words, isUint);
    var o := Parse(opts, flags, a, isUint);
    CombineIs(o.args, o.applied, Parsed(b, []));
    assert o.applied + [] == o.applied;
  }

  /** Without options nothing happens, up to a "--" that is dropped. */
  lemma {:induction false} PlainArguments(opts: seq<Opt>, flags: Flags, a: seq<string>, b: seq<string>,
                                          isUint: string -> bool)
    requires NoOptions(a) && !flags.stopAtNonopt && !flags.commandMode
    ensures Parse(opts, flags, a, isUint) == Parsed(a, [])
    ensures Parse(opts, flags, a + (["--"] + b), isUint) == Parsed(a + b, [])
  {
    hide Combine, Parse, Short, Long, Command, RunsThrough;
    if a == [] {
      ParseNothing(opts, flags, isUint);
    } else {
      PlainArguments(opts, flags, a[1..], b, isUint);
      ParseFirst(opts, flags, a, isUint);
      CombineIs([a[0]], [], Parsed(a[1..], []));
      assert [a[0]] + a[1..] == a;
    }
    AfterDashes(opts, flags, a, b, isUint);
  }

  /** `args` are the words at the positions `at`, in this order. */
  ghost predicate PickedAt(args: seq<string>, words: seq<string>, at: seq<nat>) {
    && |at| == |args|
    && (forall i :: 0 <= i < |at| ==> at[i] < |words| && words[at[i]] == args[i])
    && forall i, j :: 0 <= i < j < |at| ==> at[i] < at[j]
  }

  /** The positions from `k` on, and positions moved up by `k`. */
  function From(k: nat, n: nat): (at: seq<nat>)
    requires k <= n
    ensures |at| == n - k && forall i :: 0 <= i < |at| ==> at[i] == k + i
  {
    seq(n - k, i requires 0 <= i < n - k => k + i)
  }

  function Moved(at: seq<nat>, k: nat): (at': seq<nat>)
    ensures |at'| == |at| && forall i :: 0 <= i < |at| ==> at'[i] == at[i] + k
  {
    seq(|at|, i requires 0 <= i < |at| => at[i] + k)
  }

  lemma SuffixPicked(words: seq<string>, k: nat)
    requires k <= |words|
    ensures PickedAt(words[k..], words, From(k, |words|))
  {
  }

  lemma FirstPicked(args: seq<string>, words: seq<string>, at: seq<nat>)
    requires words != [] && PickedAt(args, words, at) && forall i :: 0 <= i < |at| ==> at[i] >= 1
    ensures PickedAt([words[0]] + args, words, [0] + at)
  {
  }

  lemma MovedPicked(args: seq<string>, words: seq<string>, k: nat, at: seq<nat>)
    requires k <= |words| && PickedAt(args, words[k..], at)
    ensures PickedAt(args, words, Moved(at, k))
  {
    assert forall i :: 0 <= i < |at| ==> words[at[i] + k] == words[k..][at[i]];
  }

  lemma PickedLater(args: seq<string>, words: seq<string>, k: nat, at: seq<nat>, first: bool)
    requires 0 < k <= |words| && PickedAt(args, words[k..], at)
    ensures PickedAt((if first then [words[0]] else []) + args, words, (if first then [0] else []) + Moved(at, k))
  {
    hide PickedAt;
    MovedPicked(args, words, k, at);
    if first {
      FirstPicked(args, words, Moved(at, k));
    } else {
      assert [] + args == args && [] + Moved(at, k) == Moved(at, k);
    }
  }

  /** do_parse() is called with the word at `i` as its first unread word. */
  predicate Reads(opts: seq<Opt>, flags: Flags, words: seq<string>, isUint: string -> bool, i: nat)
    decreases |words|
  {
    i < |words| &&
    (i == 0 ||
     (var k := Next(opts, flags, words, isUint);
      Passes(opts, flags, words, isUint) && i >= k && Reads(opts, flags, words[k..], isUint, i - k)))
  }

  /** The word at `i` is read as options, as the "--" or as the command. */
  predicate UsedHere(opts: seq<Opt>, flags: Flags, words: seq<string>, isUint: string -> bool, i: nat)
    requires i < |words|
  {
    && Reads(opts, flags, words, isUint, i)
    && (IsOption(words[i]) || Word(opts, flags, words[i], words[i + 1..], isUint).status == Subcmd)
  }

  /** The word at `i` is the value of the word of options before it. */
  predicate UsedAsValue(opts: seq<Opt>, flags: Flags, words: seq<string>, isUint: string -> bool, i: nat)
    requires i < |words|
  {
    && i > 0 && Reads(opts, flags, words, isUint, i - 1)
    && Word(opts, flags, words[i - 1], words[i..], isUint).used == 1
  }

  predicate UsedUp(opts: seq<Opt>, flags: Flags, words: seq<string>, isUint: string -> bool, i: nat)
    requires i < |words|
  {
    UsedHere(opts, flags, words, isUint, i) || UsedAsValue(opts, flags, words, isUint, i)
  }

  /** The positions in `at` are all those that are not used up. */
  ghost predicate PickedAll(opts: seq<Opt>, flags: Flags, words: seq<string>, isUint: string -> bool, at: seq<nat>) {
    forall i :: 0 <= i < |words| ==> (i in at <==> !UsedUp(opts, flags, words, isUint, i))
  }

  lemma {:induction false} ShortAtMostOne(opts: seq<Opt>, word: string, rest: seq<string>, isUint: string -> bool)
    ensures Short(opts, word, rest, isUint).used <= 1
    decreases |word|
  {
    if word != "" {
      ShortAtMostOne(opts, word[1..], rest, isUint);
    }
    hide FirstShort;
  }

  /** A word takes no more than the next one as its value. */
  lemma UsedAtMostOne(opts: seq<Opt>, flags: Flags, word: string, rest: seq<string>, isUint: string -> bool)
    ensures Word(opts, flags, word, rest, isUint).used <= 1
  {
    if IsOption(word) && (|word| == 1 || word[1] != '-') {
      ShortAtMostOne(opts, word[1..], rest, isUint);
    }
    hide Short, Choose, Command;
  }

  /** What is read and used up behind the first word and its value. */
  lemma ReadsLater(opts: seq<Opt>, flags: Flags, words: seq<string>, isUint: string -> bool, i: nat)
    requires words != [] && Passes(opts, flags, words, isUint)
    ensures var k := Next(opts, flags, words, isUint);
            if i >= k then Reads(opts, flags, words, isUint, i) <==> Reads(opts, flags, words[k..], isUint, i - k)
            else Reads(opts, flags, words, isUint, i) <==> i == 0
  {
    hide Word, Next, Passes;
  }

  lemma HereLater(opts: seq<Opt>, flags: Flags, words: seq<string>, isUint: string -> bool, i: nat)
    requires words != [] && Passes(opts, flags, words, isUint) && Next(opts, flags, words, isUint) <= i < |words|
    ensures var k := Next(opts, flags, words, isUint);
            UsedHere(opts, flags, words, isUint, i) <==> UsedHere(opts, flags, words[k..], isUint, i - k)
  {
    ReadsLater(opts, flags, words, isUint, i);
    hide Word, Reads, Next, Passes;
    var k := Next(opts, flags, words, isUint);
    OfDrop(words, k, i - k);
    OfDrop(words, k, i + 1 - k);
    assert words[k..][i - k] == words[i];
  }

  lemma NextBound(opts: seq<Opt>, flags: Flags, words: seq<string>, isUint: string -> bool)
    requires words != []
    ensures Next(opts, flags, words, isUint) == 1 + Word(opts, flags, words[0], words[1..], isUint).used <= 2
  {
    UsedAtMostOne(opts, flags, words[0], words[1..], isUint);
    hide Word;
  }

  /** What the parsing goes on with is no value. */
  lemma NoValueThere(opts: seq<Opt>, flags: Flags, words: seq<string>, isUint: string -> bool)
    requires words != [] && Passes(opts, flags, words, isUint) && Next(opts, flags, words, isUint) < |words|
    ensures var k := Next(opts, flags, words, isUint);
            !UsedAsValue(opts, flags, words, isUint, k) && !UsedAsValue(opts, flags, words[k..], isUint, 0)
  {
    var k := Next(opts, flags, words, isUint);
    NextBound(opts, flags, words, isUint);
    ReadsLater(opts, flags, words, isUint, k - 1);
    hide Word, Reads, Next, Passes;
  }

  lemma ValueBehind(opts: seq<Opt>, flags: Flags, words: seq<string>, isUint: string -> bool, i: nat, k: nat)
    requires k < i < |words|
    requires Reads(opts, flags, words, isUint, i - 1) <==> Reads(opts, flags, words[k..], isUint, i - 1 - k)
    ensures UsedAsValue(opts, flags, words, isUint, i) <==> UsedAsValue(opts, flags, words[k..], isUint, i - k)
  {
    hide Word, Reads;
    OfDrop(words, k, i - k);
    assert words[k..][i - k - 1] == words[i - 1];
  }

  lemma ValueLater(opts: seq<Opt>, flags: Flags, words: seq<string>, isUint: string -> bool, i: nat)
    requires words != [] && Passes(opts, flags, words, isUint) && Next(opts, flags, words, isUint) <= i < |words|
    ensures var k := Next(opts, flags, words, isUint);
            UsedAsValue(opts, flags, words, isUint, i) <==> UsedAsValue(opts, flags, words[k..], isUint, i - k)
  {
    hide Word, Reads, Next, Passes, UsedAsValue;
    var k := Next(opts, flags, words, isUint);
    if i > k {
      ReadsLater(opts, flags, words, isUint, i - 1);
      ValueBehind(opts, flags, words, isUint, i, k);
    } else {
      NoValueThere(opts, flags, words, isUint);
    }
  }

  /** The parsing ends at the first word, which is dropped or not. */
  lemma EndsHere(opts: seq<Opt>, flags: Flags, words: seq<string>, isUint: string -> bool, k: nat)
    requires k <= |words| && k <= 1
    requires words != [] ==>
               (var s := Word(opts, flags, words[0], words[1..], isUint);
                (s.status == Subcmd && k == 1) || (s.status == Done && k == if IsOption(words[0]) then 1 else 0))
    ensures PickedAll(opts, flags, words, isUint, From(k, |words|))
  {
    forall i | 0 <= i < |words| ensures i in From(k, |words|) <==> !UsedUp(opts, flags, words, isUint, i) {
      if i >= k {
        assert From(k, |words|)[i - k] == i;
      }
    }
    hide Word;
  }

  lemma UsedLater(opts: seq<Opt>, flags: Flags, words: seq<string>, isUint: string -> bool, i: nat)
    requires words != [] && Passes(opts, flags, words, isUint) && Next(opts, flags, words, isUint) <= i < |words|
    ensures var k := Next(opts, flags, words, isUint);
            UsedUp(opts, flags, words, isUint, i) <==> UsedUp(opts, flags, words[k..], isUint, i - k)
  {
    HereLater(opts, flags, words, isUint, i);
    ValueLater(opts, flags, words, isUint, i);
    hide UsedHere, UsedAsValue, Next, Passes;
  }

  lemma AllFirst(opts: seq<Opt>, flags: Flags, words: seq<string>, isUint: string -> bool, i: nat)
    requires words != [] && Passes(opts, flags, words, isUint)
    requires i < Next(opts, flags, words, isUint) && i < |words|
    ensures !UsedUp(opts, flags, words, isUint, i) <==> i == 0 && !IsOption(words[0])
  {
    NextBound(opts, flags, words, isUint);
    ReadsLater(opts, flags, words, isUint, i);
    hide Word, Reads, Next;
  }

  lemma InMoved(at: seq<nat>, k: nat, i: nat)
    requires i >= k
    ensures i in Moved(at, k) <==> i - k in at
  {
    if i - k in at {
      var j :| 0 <= j < |at| && at[j] == i - k;
      assert Moved(at, k)[j] == i;
    }
  }

  lemma NotInMoved(at: seq<nat>, k: nat, i: nat)
    requires i < k
    ensures i !in Moved(at, k)
  {
  }

  /** The positions behind the first word and its value, and the first. */
  lemma AllLater(opts: seq<Opt>, flags: Flags, words: seq<string>, isUint: string -> bool, at: seq<nat>)
    requires words != [] && Passes(opts, flags, words, isUint)
    requires PickedAll(opts, flags, words[Next(opts, flags, words, isUint)..], isUint, at)
    ensures PickedAll(opts, flags, words, isUint,
                      (if IsOption(words[0]) then [] else [0]) + Moved(at, Next(opts, flags, words, isUint)))
  {
    hide Word, Next, Passes, UsedUp;
    var k := Next(opts, flags, words, isUint);
    var all := (if IsOption(words[0]) then [] else [0]) + Moved(at, k);
    forall i | 0 <= i < |words| ensures i in all <==> !UsedUp(opts, flags, words, isUint, i) {
      if i >= k {
        UsedLater(opts, flags, words, isUint, i);
        InMoved(at, k, i);
      } else {
        NotInMoved(at, k, i);
        AllFirst(opts, flags, words, isUint, i);
      }
    }
  }

  /** Whatever the mode, the arguments left are words of the vector in their
      order, namely all that are neither read as options nor taken as a value
      nor the "--" or the command that ends the parsing. */
  lemma {:induction false} ArgumentsInOrder(opts: seq<Opt>, flags: Flags, words: seq<string>, isUint: string -> bool)
    returns (at: seq<nat>)
    requires Parse(opts, flags, words, isUint).Parsed?
    ensures PickedAt(Parse(opts, flags, words, isUint).args, words, at)
    ensures PickedAll(opts, flags, words, isUint, at)
    decreases |words|
  {
    hide Word, Combine, PickedAt, Parse, PickedAll;
    if words == [] {
      ParseNothing(opts, flags, isUint);
      SuffixPicked(words, 0);
      EndsHere(opts, flags, words, isUint, 0);
      at := From(0, 0);
      return;
    }
    var s := Word(opts, flags, words[0], words[1..], isUint);
    ParseFirst(opts, flags, words, isUint);
    if s.status == Success {
      var rest := Parse(opts, flags, words[1 + s.used..], isUint);
      var first := !IsOption(words[0]);
      CombineIs(if first then [words[0]] else [], s.applied, rest);
      var later := ArgumentsInOrder(opts, flags, words[1 + s.used..], isUint);
      NextBound(opts, flags, words, isUint);
      PickedLater(rest.args, words, 1 + s.used, later, first);
      AllLater(opts, flags, words, isUint, later);
      at := (if first then [0] else []) + Moved(later, 1 + s.used);
    } else {
      var k := if s.status == Subcmd || IsOption(words[0]) then 1 else 0;
      assert words[0..] == words;
      SuffixPicked(words, k);
      EndsHere(opts, flags, words, isUint, k);
      at := From(k, |words|);
    }
  }

  /** Why the arguments begin at `k` in the two modes that stop early. */
  predicate StopsAt(opts: seq<Opt>, flags: Flags, words: seq<string>, k: nat)
    requires k <= |words|
  {
    || k == |words|
    || (k > 0 && words[k - 1] == "--")
    || (flags.stopAtNonopt && !IsOption(words[k]))
    || (!flags.stopAtNonopt && flags.commandMode && k > 0 && !IsOption(words[k - 1])
        && Command(opts, words[k - 1]).status == Subcmd)
  }

  /** Stopping at the first argument, or after the command, leaves the rest of
      the vector as it is. */
  lemma {:induction false} ArgumentsAreSuffix(opts: seq<Opt>, flags: Flags, words: seq<string>, isUint: string -> bool)
    returns (k: nat)
    requires flags.stopAtNonopt || flags.commandMode
    requires Parse(opts, flags, words, isUint).Parsed?
    ensures k <= |words| && StopsAt(opts, flags, words, k)
    ensures Parse(opts, flags, words, isUint).args == words[k..]
    decreases |words|
  {
    hide Combine, Parse, Short, Long, Command;
    if words == [] {
      ParseNothing(opts, flags, isUint);
      return 0;
    }
    var s := Word(opts, flags, words[0], words[1..], isUint);
    ParseFirst(opts, flags, words, isUint);
    if s.status == Success {
      var n := 1 + s.used;
      CombineIs([], s.applied, Parse(opts, flags, words[n..], isUint));
      k := ArgumentsAreSuffix(opts, flags, words[n..], isUint);
      assert words[n..][k..] == words[n + k..];
      k := n + k;
    } else if s.status == Subcmd || IsOption(words[0]) {
      k := 1;
    } else {
      k := 0;
      assert words[0..] == words;
    }
  }

  // ---- the order of the table ------------------------------------------------

  predicate DistinctShort(opts: seq<Opt>) {
    forall i, j :: 0 <= i < |opts| && 0 <= j < |opts| && opts[i].shrt == opts[j].shrt != NUL ==> opts[i] == opts[j]
  }

  predicate SameCommand(a: Opt, b: Opt) {
    !a.typ.Group? && !b.typ.Group? && a.name == b.name
  }

  /** As commands, all entries but the groups are told apart by their names. */
  predicate DistinctCommands(opts: seq<Opt>) {
    && (forall i :: 0 <= i < |opts| ==> opts[i].typ.Group? || opts[i].name.Some?)
    && forall i, j :: 0 <= i < |opts| && 0 <= j < |opts| && SameCommand(opts[i], opts[j]) ==> opts[i] == opts[j]
  }

  lemma ShortAlike(opts: seq<Opt>, p: seq<Opt>, c: char)
    requires DistinctShort(opts) && multiset(p) == multiset(opts)
    ensures FirstShort(p, c).Some? == FirstShort(opts, c).Some?
    ensures c != NUL ==> FirstShort(p, c) == FirstShort(opts, c)
  {
    forall o ensures o in p <==> o in opts {
      SameContents(p, opts, o);
    }
    if FirstShort(p, c).None? {
      forall i | 0 <= i < |opts| ensures opts[i].shrt != c {
        assert opts[i] in p;
      }
    } else {
      assert FirstShort(p, c).value in opts;
    }
  }

  lemma {:induction false} CommandIs(opts: seq<Opt>, word: string)
    requires forall i :: 0 <= i < |opts| ==> opts[i].typ.Group? || opts[i].name.Some?
    ensures var s := Command(opts, word);
            || (s == Step(Error, [], 0) && forall o :: o in opts && !o.typ.Group? ==> o.name != Some(word))
            || exists o :: o in opts && !o.typ.Group? && o.name == Some(word)
                           && s == Step(Subcmd, [Applied(o, None, false)], 0)
  {
    if opts != [] {
      CommandIs(opts[1..], word);
    }
  }

  lemma CommandAlike(opts: seq<Opt>, p: seq<Opt>, word: string)
    requires DistinctCommands(opts) && multiset(p) == multiset(opts)
    ensures Command(p, word) == Command(opts, word)
  {
    forall o ensures o in p <==> o in opts {
      SameContents(p, opts, o);
    }
    forall i | 0 <= i < |p| ensures p[i].typ.Group? || p[i].name.Some? {
      assert p[i] in opts;
    }
    CommandIs(opts, word);
    CommandIs(p, word);
    hide Command;
  }

  lemma {:induction false} ClusterAlike(opts: seq<Opt>, p: seq<Opt>, word: string, rest: seq<string>,
                                        isUint: string -> bool)
    requires DistinctShort(opts) && multiset(p) == multiset(opts) && NUL !in word
    ensures Short(p, word, rest, isUint) == Short(opts, word, rest, isUint)
    decreases |word|
  {
    ShortAlike(opts, p, NUL);
    if word != "" {
      ShortAlike(opts, p, word[0]);
      ClusterAlike(opts, p, word[1..], rest, isUint);
    }
    hide DistinctShort, FirstShort, Apply, NextValue;
  }

  /** A table that may be written in any order. */
  ghost predicate OrderlessTable(opts: seq<Opt>, flags: Flags) {
    && DistinctShort(opts)
    && (flags.commandMode && !flags.stopAtNonopt ==> DistinctCommands(opts))
    && forall text :: OrderFree(opts, text)
  }

  lemma WordAlike(opts: seq<Opt>, p: seq<Opt>, flags: Flags, word: string, rest: seq<string>, isUint: string -> bool)
    requires OrderlessTable(opts, flags) && multiset(p) == multiset(opts) && NUL !in word
    ensures Word(p, flags, word, rest, isUint) == Word(opts, flags, word, rest, isUint)
  {
    if IsOption(word) {
      ClusterAlike(opts, p, word[1..], rest, isUint);
      if |word| > 1 {
        assert OrderFree(opts, word[2..]);
      }
    } else if flags.commandMode && !flags.stopAtNonopt {
      CommandAlike(opts, p, word);
    }
    hide Short, Command, Choose, LongValue, DistinctShort, DistinctCommands;
  }

  /** The meaning of the whole argument vector does not depend on the order of
      the table. */
  lemma {:induction false} ParseAlike(opts: seq<Opt>, p: seq<Opt>, flags: Flags, words: seq<string>,
                                      isUint: string -> bool)
    requires OrderlessTable(opts, flags) && multiset(p) == multiset(opts)
    requires forall i :: 0 <= i < |words| ==> NUL !in words[i]
    ensures Parse(p, flags, words, isUint) == Parse(opts, flags, words, isUint)
    decreases |words|
  {
    hide Word, OrderlessTable, Combine;
    if words != [] {
      WordAlike(opts, p, flags, words[0], words[1..], isUint);
      var s := Word(opts, flags, words[0], words[1..], isUint);
      ParseAlike(opts, p, flags, words[1 + s.used..], isUint);
    }
  }
}
