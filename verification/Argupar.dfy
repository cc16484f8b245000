/** platfree/argupar.c: the argument vector is parsed in place.  The functions
    say what a sequence of words means; the class does it to an array, with the
    read and the write index of the source. */
module Argupar {
  import opened CString
  import opened OptTable
  import opened Sequences

  datatype Flags = Flags(stopAtNonopt: bool, commandMode: bool, needArgument: bool)

  /** enum arguret, prompt_shrt_help(), and what the program does not define: a
      lone "-" where some option has no short name, an optional value that is
      left out, an option whose type has no applicator. */
  datatype Status = Success | Error | Done | Subcmd | Help | Undefined

  /** A store through opt->value. */
  datatype Applied = Applied(opt: Opt, arg: Option<string>, unset: bool)

  /** What one word does: the stores, and how many words after it are used. */
  datatype Step = Step(status: Status, applied: seq<Applied>, used: nat)

  // ---- what words mean -------------------------------------------------------

  /** What a word of options can lead to. */
  predicate OfOptions(s: Status) {
    s == Success || s == Error || s == Undefined
  }

  /** The result of the applicator; `isUint` tells what str2uint() accepts. */
  function Dispatch(o: Opt, arg: Option<string>, unset: bool, isUint: string -> bool): (s: Status)
    ensures OfOptions(s)
  {
    match o.typ
    case Switch => Success
    case CountUp => Success
    case String => Success
    case Uint =>
      if unset then Success
      else if arg.None? then Undefined
      else if isUint(arg.value) then Success else Error
    case _ => Undefined
  }

  function Apply(o: Opt, arg: Option<string>, unset: bool, used: nat, isUint: string -> bool): (s: Step)
    ensures OfOptions(s.status)
  {
    var status := Dispatch(o, arg, unset, isUint);
    Step(status, if status == Success then [Applied(o, arg, unset)] else [], used)
  }

  /** An option at the end of its word takes its value from the next word. */
  function NextValue(o: Opt, unset: bool, rest: seq<string>, isUint: string -> bool): (s: Step)
    ensures s.used <= |rest| && OfOptions(s.status)
  {
    if o.noarg || unset then Apply(o, None, unset, 0, isUint)
    else if rest != [] then Apply(o, Some(rest[0]), unset, 1, isUint)
    else Step(if o.optarg then Undefined else Error, [], 0)
  }

  function FirstShort(opts: seq<Opt>, c: char): (r: Option<Opt>)
    ensures r.None? <==> forall i :: 0 <= i < |opts| ==> opts[i].shrt != c
    ensures r.Some? ==> r.value in opts && r.value.shrt == c
  {
    if opts == [] then None
    else if opts[0].shrt == c then Some(opts[0])
    else FirstShort(opts[1..], c)
  }

  /** The first character of the cluster, with what belongs to it. */
  function ShortStep(opts: seq<Opt>, word: string, rest: seq<string>, isUint: string -> bool): (s: Step)
    ensures s.used <= |rest| && OfOptions(s.status)
  {
    if word == "" then
      Step(if FirstShort(opts, NUL).Some? then Undefined else Error, [], 0)
    else
      match FirstShort(opts, word[0])
      case None => Step(Error, [], 0)
      case Some(o) =>
        if |word| == 1 then NextValue(o, false, rest, isUint)
        else if o.noarg then Apply(o, None, false, 0, isUint)
        else Apply(o, Some(word[1..]), false, 0, isUint)
  }

  /** What follows the first character is not its value, but the next option. */
  predicate Continues(opts: seq<Opt>, word: string) {
    |word| > 1 && FirstShort(opts, word[0]).Some? && FirstShort(opts, word[0]).value.noarg
  }

  function Onward(applied: seq<Applied>, s: Step): Step {
    Step(s.status, applied + s.applied, s.used)
  }

  /** A cluster of short options, without its '-'. */
  function Short(opts: seq<Opt>, word: string, rest: seq<string>, isUint: string -> bool): (s: Step)
    ensures s.used <= |rest| && OfOptions(s.status)
  {
    var s := ShortStep(opts, word, rest, isUint);
    if s.status == Success && Continues(opts, word) then Onward(s.applied, Short(opts, word[1..], rest, isUint))
    else s
  }

  /** The option is known; `tail` is what follows its name. */
  function LongValue(o: Opt, tail: string, unset: bool, rest: seq<string>, isUint: string -> bool): (s: Step)
    ensures s.used <= |rest| && OfOptions(s.status)
  {
    if tail == "" then NextValue(o, unset, rest, isUint)
    else if o.noarg || unset then Step(Error, [], 0)
    else Apply(o, Some(tail[1..]), unset, 0, isUint)
  }

  /** A long option, without its "--". */
  function Long(opts: seq<Opt>, text: string, rest: seq<string>, isUint: string -> bool): (s: Step)
    ensures s.used <= |rest| && OfOptions(s.status)
  {
    var body := Stem(text);
    match Choose(opts, text)
    case Named(o) => LongValue(o, body[|Stem(o.name.value)|..], Negated(text), rest, isUint)
    case Abbreviated(o) => LongValue(o, body[StrChrNul(body, '=')..], Negated(text), rest, isUint)
    case Ambiguous => Step(Error, [], 0)
    case Unknown => Step(Error, [], 0)
  }

  /** parse_subcommand() compares the names of all entries but the groups; one
      without a name crashes it. */
  function Command(opts: seq<Opt>, word: string): (s: Step)
    ensures s.used == 0 && s.status != Success && s.status != Done
  {
    if opts == [] then Step(Error, [], 0)
    else if opts[0].typ.Group? then Command(opts[1..], word)
    else if opts[0].name.None? then Step(Undefined, [], 0)
    else if opts[0].name.value == word then Step(Subcmd, [Applied(opts[0], None, false)], 0)
    else Command(opts[1..], word)
  }

  predicate IsOption(word: string) {
    word != "" && word[0] == '-'
  }

  /** do_parse(): one word, and those after it. */
  function Word(opts: seq<Opt>, flags: Flags, word: string, rest: seq<string>, isUint: string -> bool): (s: Step)
    ensures s.used <= |rest|
    ensures s.status == Done ==> s.used == 0 && s.applied == []
    ensures s.status == Subcmd ==> s.used == 0
  {
    if !IsOption(word) then
      if flags.stopAtNonopt then Step(Done, [], 0)
      else if flags.commandMode then Command(opts, word)
      else Step(Success, [], 0)
    else if |word| == 1 || word[1] != '-' then
      if word == "-h" then Step(Help, [], 0) else Short(opts, word[1..], rest, isUint)
    else if word == "--" then Step(Done, [], 0)
    else if word == "--help" then Step(Help, [], 0)
    else Long(opts, word[2..], rest, isUint)
  }

  datatype Outcome = Parsed(args: seq<string>, applied: seq<Applied>) | Exit | Unspecified

  function Combine(args: seq<string>, applied: seq<Applied>, o: Outcome): Outcome {
    match o
    case Parsed(a, b) => Parsed(args + a, applied + b)
    case _ => o
  }

  function Parse(opts: seq<Opt>, flags: Flags, words: seq<string>, isUint: string -> bool): (o: Outcome)
    decreases |words|
  {
    if words == [] then Parsed([], [])
    else
      var s := Word(opts, flags, words[0], words[1..], isUint);
      match s.status
      case Success =>
        Combine(if IsOption(words[0]) then [] else [words[0]], s.applied,
                Parse(opts, flags, words[1 + s.used..], isUint))
      case Subcmd => Parsed(words[1..], s.applied)
      case Done => Parsed(if IsOption(words[0]) then words[1..] else words, [])
      case Undefined => Unspecified
      case _ => Exit
  }

  function ParseAll(opts: seq<Opt>, flags: Flags, words: seq<string>, isUint: string -> bool): (o: Outcome) {
    if flags.needArgument && words == [] then Exit
    else
      var o := Parse(opts, flags, words, isUint);
      if o.Parsed? && flags.needArgument && o.args == [] then Exit else o
  }

  lemma OnwardOnward(a: seq<Applied>, b: seq<Applied>, s: Step)
    ensures Onward(a, Onward(b, s)) == Onward(a + b, s)
  {
    Assoc(a, b, s.applied);
  }

  /** One turn of the loop of parse_shrtopt(). */

  /** The search for a short name, entry by entry. */
  lemma FirstShortAt(opts: seq<Opt>, c: char)
    ensures opts[0..] == opts && FirstShort(opts[|opts|..], c) == None
    ensures forall i :: 0 <= i < |opts| ==>
              FirstShort(opts[i..], c) == if opts[i].shrt == c then Some(opts[i]) else FirstShort(opts[i + 1..], c)
  {
    assert forall i :: 0 <= i < |opts| ==> opts[i..][0] == opts[i] && opts[i..][1..] == opts[i + 1..];
  }

  lemma NothingShort(opts: seq<Opt>, word: string, rest: seq<string>, isUint: string -> bool)
    ensures FirstShort(opts, if word == "" then NUL else word[0]) == None ==>
              ShortStep(opts, word, rest, isUint) == Step(Error, [], 0)
  {
    hide FirstShort;
  }

  lemma OnwardNothing(s: Step)
    ensures Onward([], s) == s
  {
  }

  lemma ShortOne(opts: seq<Opt>, word: string, rest: seq<string>, isUint: string -> bool, done: seq<Applied>)
    ensures var s, all := ShortStep(opts, word, rest, isUint), Onward(done, Short(opts, word, rest, isUint));
            if s.status == Success && Continues(opts, word)
            then all == Onward(done + s.applied, Short(opts, word[1..], rest, isUint))
            else && all == Onward(done, s) && all.status == s.status && all.used == s.used
                 && all.applied == done + s.applied
  {
    hide ShortStep;
    if Continues(opts, word) {
      OnwardOnward(done, ShortStep(opts, word, rest, isUint).applied, Short(opts, word[1..], rest, isUint));
    }
  }

  // ---- doing it in place -----------------------------------------------------

  /** The words in a part of the vector; there are no null pointers in it. */
  function Words(v: seq<Option<string>>): (w: seq<string>)
    requires forall i :: 0 <= i < |v| ==> v[i].Some?
    ensures |w| == |v| && forall i :: 0 <= i < |v| ==> w[i] == v[i].value
  {
    seq(|v|, i requires 0 <= i < |v| => v[i].value)
  }

  /** What argupar_parse() comes to: a count of arguments, or exit(128). */
  datatype Return = Count(nl: nat) | Exits | Unknowable

  lemma CombineNothing(o: Outcome)
    ensures Combine([], [], o) == o
  {
  }

  lemma CombineTwice(a: seq<string>, s: seq<Applied>, b: seq<string>, t: seq<Applied>, o: Outcome)
    ensures Combine(a, s, Combine(b, t, o)) == Combine(a + b, s + t, o)
  {
    if o.Parsed? {
      Assoc(a, b, o.args);
      Assoc(s, t, o.applied);
    }
  }

  lemma ParseEnd(opts: seq<Opt>, flags: Flags, isUint: string -> bool, kept: seq<string>, stores: seq<Applied>)
    ensures Combine(kept, stores, Parse(opts, flags, [], isUint)) == Parsed(kept + [], stores)
  {
  }

  lemma CombineIs(a: seq<string>, s: seq<Applied>, o: Outcome)
    ensures Combine(a, s, o) == if o.Parsed? then Parsed(a + o.args, s + o.applied) else o
  {
  }

  lemma ParseFirst(opts: seq<Opt>, flags: Flags, words: seq<string>, isUint: string -> bool)
    requires words != []
    ensures var s := Word(opts, flags, words[0], words[1..], isUint);
            Parse(opts, flags, words, isUint) ==
            match s.status
            case Success => Combine(if IsOption(words[0]) then [] else [words[0]], s.applied,
                                    Parse(opts, flags, words[1 + s.used..], isUint))
            case Subcmd => Parsed(words[1..], s.applied)
            case Done => Parsed(if IsOption(words[0]) then words[1..] else words, [])
            case Undefined => Unspecified
            case _ => Exit
  {
    hide Word, Combine;
  }

  /** One word of all of them. */
  lemma ParseOn(opts: seq<Opt>, flags: Flags, words: seq<string>, at: nat, isUint: string -> bool,
                kept: seq<string>, stores: seq<Applied>)
    requires at < |words|
    ensures var all := Combine(kept, stores, Parse(opts, flags, words[at..], isUint));
            var word := words[at];
            var s := Word(opts, flags, word, words[at + 1..], isUint);
            match s.status
            case Success =>
              all == Combine(if IsOption(word) then kept else kept + [word], stores + s.applied,
                             Parse(opts, flags, words[at + 1 + s.used..], isUint))
            case Subcmd => all == Parsed(kept + words[at + 1..], stores + s.applied)
            case Done => all == Parsed(kept + (if IsOption(word) then words[at + 1..] else words[at..]), stores)
            case Undefined => all == Unspecified
            case _ => all == Exit
  {
    hide Word, Parse, Combine;
    var left := words[at..];
    var s := Word(opts, flags, words[at], words[at + 1..], isUint);
    assert left[0] == words[at] && left[1..] == words[at + 1..] && left[1 + s.used..] == words[at + 1 + s.used..];
    ParseFirst(opts, flags, left, isUint);
    CombineIs(kept, stores, Parse(opts, flags, left, isUint));
    if s.status == Success {
      CombineTwice(kept, stores, if IsOption(words[at]) then [] else [words[at]], s.applied,
                   Parse(opts, flags, words[at + 1 + s.used..], isUint));
      assert kept + [] == kept;
    } else {
      var rest := Parse(opts, flags, left, isUint);
      assert rest.Parsed? && s.status == Done ==> rest.applied == [] && stores + rest.applied == stores;
    }
  }

  lemma NothingBefore(opts: seq<Opt>, text: string)
    ensures opts[0..] == opts
    ensures LastAbbrev(opts[..0], text) == None && Total(opts[..0], text) == 0
  {
  }

  lemma LongNamed(opts: seq<Opt>, text: string, o: Opt, rest: seq<string>, isUint: string -> bool)
    requires FirstExact(opts, text) == Some(o)
    ensures Exact(o, text)
    ensures Long(opts, text, rest, isUint) ==
            LongValue(o, Stem(text)[|Stem(o.name.value)|..], Negated(text), rest, isUint)
  {
    hide Exact, LongValue;
  }

  lemma LongOtherwise(opts: seq<Opt>, text: string, rest: seq<string>, isUint: string -> bool)
    requires FirstExact(opts, text) == FirstExact([], text)
    ensures LastAbbrev(opts, text).Some? <==> Total(opts, text) > 0
    ensures Total(opts, text) != 1 ==> Long(opts, text, rest, isUint) == Step(Error, [], 0)
    ensures Total(opts, text) == 1 ==>
              Long(opts, text, rest, isUint) ==
              LongValue(LastAbbrev(opts, text).value, Stem(text)[StrChrNul(Stem(text), '=')..], Negated(text),
                        rest, isUint)
  {
    hide Exact, Registrations, LongValue;
  }

  lemma FirstExactNext(opts: seq<Opt>, i: nat, text: string)
    requires i < |opts|
    ensures FirstExact(opts[i..], text) ==
            if Exact(opts[i], text) then Some(opts[i]) else FirstExact(opts[i + 1..], text)
  {
    assert opts[i..][1..] == opts[i + 1..];
  }

  lemma RegisteredNext(opts: seq<Opt>, i: nat, text: string)
    requires i < |opts|
    ensures Total(opts[..i + 1], text) == Total(opts[..i], text) + Registrations(opts[i], text)
    ensures LastAbbrev(opts[..i + 1], text) ==
            if Registrations(opts[i], text) > 0 then Some(opts[i]) else LastAbbrev(opts[..i], text)
  {
    assert opts[..i + 1][..i] == opts[..i];
  }

  class Parser {
    const outv: array<Option<string>>

    var argc: nat

    /** An index of outv: there both pointers start. */
    var argv: nat
    var outc: nat

    const option: seq<Opt>
    const flags: Flags

    /** What was stored through opt->value. */
    var applied: seq<Applied>

    ghost predicate Valid()
      reads this, outv
    {
      && outc <= argv + 1 && argv + argc < outv.Length
      && (forall i :: argv <= i < argv + argc ==> outv[i].Some?)
      && forall i :: 0 <= i < outc ==> outv[i].Some?
    }

    ghost function Unread(): (w: seq<string>)
      requires Valid()
      reads this, outv
      ensures |w| == argc
    {
      Words(outv[argv..argv + argc])
    }

    /** argupar_init(), and the arguments that argupar_parse() keeps. */
    constructor (argc: nat, argv: array<Option<string>>, option: seq<Opt>, flags: Flags)
      requires argc < argv.Length && forall i :: 0 <= i < argc ==> argv[i].Some?
      ensures Valid() && this.argc == argc && this.argv == 0 && outc == 0 && applied == []
      ensures outv == argv && this.option == option && this.flags == flags
      ensures Unread() == Words(argv[..argc])
    {
      this.argc, this.argv, this.outc := argc, 0, 0;
      this.outv, this.option, this.flags, this.applied := argv, option, flags, [];
    }

    /** dispatch_optarg() */
    method DispatchOptarg(o: Opt, arg: Option<string>, unset: bool, isUint: string -> bool) returns (ret: Status)
      modifies this`applied
      ensures var s := Apply(o, arg, unset, 0, isUint);
              ret == s.status && applied == old(applied) + s.applied
    {
      match o.typ {
        case Uint =>
          if unset {
            ret := Success;
          } else if arg.None? {
            ret := Undefined;
          } else {
            ret := if isUint(arg.value) then Success else Error;
          }
        case Switch => ret := Success;
        case CountUp => ret := Success;
        case String => ret := Success;
        case _ => ret := Undefined;
      }
      if ret == Success {
        applied := applied + [Applied(o, arg, unset)];
      }
    }

    /** The part that both kinds of options share: a value from the next word. */
    method TakeValue(o: Opt, unset: bool, isUint: string -> bool) returns (ret: Status)
      requires Valid() && argc > 0
      modifies this`argc, this`argv, this`applied
      ensures Valid() && var s := NextValue(o, unset, old(Unread())[1..], isUint);
              && ret == s.status && applied == old(applied) + s.applied
              && argc == old(argc) - s.used && argv == old(argv) + s.used
    {
      ghost var rest := Unread()[1..];
      assert argc > 1 ==> rest[0] == outv[argv + 1].value;
      var arg := None;
      if o.noarg || unset {
      } else if argc > 1 {
        argc, argv := argc - 1, argv + 1;
        arg := outv[argv];
      } else {
        return if o.optarg then Undefined else Error;
      }
      ret := DispatchOptarg(o, arg, unset, isUint);
    }

    /** The body of the loop of do_parse_shrtopt(), for the option found. */
    method FoundShort(o: Opt, next: string, isUint: string -> bool) returns (ret: Status, next': Option<string>)
      requires Valid() && argc > 0 && FirstShort(option, if next == "" then NUL else next[0]) == Some(o)
      modifies this`argc, this`argv, this`applied
      ensures Valid()
      ensures var s := ShortStep(option, next, old(Unread())[1..], isUint);
              && ret == s.status && applied == old(applied) + s.applied
              && argc == old(argc) - s.used && argv == old(argv) + s.used
      ensures ret == Success ==> next' == if Continues(option, next) then Some(next[1..]) else None
    {
      hide FirstShort, Unread, NextValue, Dispatch;
      next' := None;
      if next == "" {
        return Undefined, None;  // reads behind the end of the word
      }
      if |next| > 1 {
        if o.noarg {
          next' := Some(next[1..]);
          ret := DispatchOptarg(o, None, false, isUint);
        } else {
          ret := DispatchOptarg(o, Some(next[1..]), false, isUint);
        }
      } else {
        ret := TakeValue(o, false, isUint);
      }
    }

    /** do_parse_shrtopt(): the first character of `next`. */
    method DoParseShrtopt(next: string, isUint: string -> bool) returns (ret: Status, next': Option<string>)
      requires Valid() && argc > 0
      modifies this`argc, this`argv, this`applied
      ensures Valid()
      ensures var s := ShortStep(option, next, old(Unread())[1..], isUint);
              && ret == s.status && applied == old(applied) + s.applied
              && argc == old(argc) - s.used && argv == old(argv) + s.used
      ensures ret == Success ==> next' == if Continues(option, next) then Some(next[1..]) else None
    {
      var c := if next == "" then NUL else next[0];
      NothingShort(option, next, Unread()[1..], isUint);
      FirstShortAt(option, c);
      hide FirstShort, ShortStep, Continues, Unread;
      var i := 0;
      while i < |option|
        invariant i <= |option| && FirstShort(option, c) == FirstShort(option[i..], c)
      {
        if option[i].shrt == c {
          ret, next' := FoundShort(option[i], next, isUint);
          return;
        }
        i := i + 1;
      }
      return Error, None;
    }

    /** parse_shrtopt() */
    method ParseShrtopt(word: string, isUint: string -> bool) returns (ret: Status)
      requires Valid() && argc > 0
      modifies this`argc, this`argv, this`applied
      ensures Valid()
      ensures var s := Short(option, word, old(Unread())[1..], isUint);
              && ret == s.status && applied == old(applied) + s.applied
              && argc == old(argc) - s.used && argv == old(argv) + s.used
    {
      ghost var rest, all := Unread()[1..], Short(option, word, Unread()[1..], isUint);
      ghost var done: seq<Applied> := [];
      OnwardNothing(all);
      EmptyConcat(applied);
      hide ShortStep, Short, Continues, Onward;
      var next := Some(word);
      ret := Success;
      while next.Some?
        invariant Valid() && argc > 0
        invariant ret == Success && applied == old(applied) + done
        invariant next.Some? ==>
                    && argc == old(argc) && argv == old(argv) && Unread()[1..] == rest
                    && all == Onward(done, Short(option, next.value, rest, isUint))
        invariant next.None? ==>
                    && all.status == Success && all.applied == done
                    && argc == old(argc) - all.used && argv == old(argv) + all.used
        decreases if next.Some? then 1 + |next.value| else 0
      {
        var cur := next.value;
        ghost var s := ShortStep(option, cur, rest, isUint);
        ret, next := DoParseShrtopt(cur, isUint);
        ShortOne(option, cur, rest, isUint, done);
        Assoc(old(applied), done, s.applied);
        if ret != Success {
          return;
        }
        done := done + s.applied;
      }
    }

    /** The code behind the label prepare_optarg of parse_longopt(). */
    method PrepareOptarg(o: Opt, argval: string, argUnset: bool, isUint: string -> bool) returns (ret: Status)
      requires Valid() && argc > 0 && (argval != "" ==> argval[0] == '=')
      modifies this`argc, this`argv, this`applied
      ensures Valid()
      ensures var s := LongValue(o, argval, argUnset, old(Unread())[1..], isUint);
              && ret == s.status && applied == old(applied) + s.applied
              && argc == old(argc) - s.used && argv == old(argv) + s.used
    {
      if argval != "" {
        if o.noarg || argUnset {
          return Error;
        }
        ret := DispatchOptarg(o, Some(argval[1..]), argUnset, isUint);
      } else {
        ret := TakeValue(o, argUnset, isUint);
      }
    }

    /** register_abbrev() */
    static method RegisterAbbrev(o: Opt, abbrev: Option<Opt>, ambiguous: Option<Opt>)
      returns (abbrev': Option<Opt>, ambiguous': Option<Opt>)
      ensures abbrev' == Some(o) && ambiguous' == if abbrev.Some? then abbrev else ambiguous
    {
      abbrev', ambiguous' := abbrev, ambiguous;
      if abbrev.Some? {
        ambiguous' := abbrev;
      }
      abbrev' := Some(o);
    }

    /** One turn of the loop of parse_longopt(), up to the label. */
    static method TryLong(o: Opt, text: string, abbrev: Option<Opt>, ambiguous: Option<Opt>)
      returns (named: bool, abbrev': Option<Opt>, ambiguous': Option<Opt>)
      ensures named <==> Exact(o, text)
      ensures var n := Registrations(o, text);
              && abbrev' == (if n > 0 then Some(o) else abbrev)
              && (ambiguous'.Some? <==> ambiguous.Some? || n > 1 || (n == 1 && abbrev.Some?))
    {
      hide StrChrNul, Stem, Negated;
      named, abbrev', ambiguous' := false, abbrev, ambiguous;
      if !HasLong(o) {
        return;
      }
      var argUnset, optUnset := Negated(text), Negated(o.name.value);
      var argstr, optname := Stem(text), Stem(o.name.value);
      if argUnset != optUnset && !o.hasneg {
        return;
      }
      if optname <= argstr {
        var argval := argstr[|optname|..];
        named := argval == "" || argval[0] == '=';
        return;
      }
      if argstr[..StrChrNul(argstr, '=')] <= optname {
        abbrev', ambiguous' := RegisterAbbrev(o, abbrev', ambiguous');
      }
      if o.hasneg && argstr <= NO {
        abbrev', ambiguous' := RegisterAbbrev(o, abbrev', ambiguous');
      }
    }

    /** parse_longopt() */
    method ParseLongopt(text: string, isUint: string -> bool) returns (ret: Status)
      requires Valid() && argc > 0
      modifies this`argc, this`argv, this`applied
      ensures Valid()
      ensures var s := Long(option, text, old(Unread())[1..], isUint);
              && ret == s.status && applied == old(applied) + s.applied
              && argc == old(argc) - s.used && argv == old(argv) + s.used
    {
      hide Unread, FirstExact, LastAbbrev, Total, Long, LongValue, Choose, StrChrNul, Registrations, Stem;
      var argstr := Stem(text);
      var abbrev, ambiguous: Option<Opt> := None, None;
      ghost var rest := Unread()[1..];
      NothingBefore(option, text);
      var i := 0;
      while i < |option|
        invariant i <= |option| && FirstExact(option, text) == FirstExact(option[i..], text)
        invariant abbrev == LastAbbrev(option[..i], text) && (abbrev.Some? <==> Total(option[..i], text) > 0)
        invariant ambiguous.Some? <==> Total(option[..i], text) > 1
        invariant Valid() && argc == old(argc) && argv == old(argv) && applied == old(applied)
        invariant Unread() == old(Unread())
      {
        var o := option[i];
        FirstExactNext(option, i, text);
        RegisteredNext(option, i, text);
        var named;
        named, abbrev, ambiguous := TryLong(o, text, abbrev, ambiguous);
        if named {
          LongNamed(option, text, o, rest, isUint);
          ret := PrepareOptarg(o, argstr[|Stem(o.name.value)|..], Negated(text), isUint);
          return;
        }
        i := i + 1;
      }
      assert option[..i] == option && option[i..] == [];
      LongOtherwise(option, text, rest, isUint);
      if ambiguous.Some? {
        return Error;
      }
      if abbrev.Some? {
        ret := PrepareOptarg(abbrev.value, argstr[StrChrNul(argstr, '=')..], Negated(text), isUint);
        return;
      }
      return Error;
    }

    /** parse_subcommand() */
    method ParseSubcommand(cmd: string) returns (ret: Status)
      modifies this`applied
      ensures var s := Command(option, cmd); ret == s.status && applied == old(applied) + s.applied
    {
      var i := 0;
      while i < |option|
        invariant i <= |option| && Command(option, cmd) == Command(option[i..], cmd)
        invariant applied == old(applied)
      {
        var o := option[i];
        assert option[i..][1..] == option[i + 1..];
        i := i + 1;
        if o.typ.Group? {
          continue;
        }
        if o.name.None? {
          return Undefined;  // strcmp() of a null pointer
        }
        if o.name.value != cmd {
          continue;
        }
        applied := applied + [Applied(o, None, false)];
        return Subcmd;
      }
      return Error;
    }

    /** The two calls of do_parse() for a word of options, which is rewritten
        where it stands. */
    method ParseOptions(word: string, long: bool, isUint: string -> bool) returns (ret: Status)
      requires Valid() && argc > 0 && outc <= argv
      modifies this`argc, this`argv, this`applied, outv
      ensures Valid()
      ensures var rest := old(Unread())[1..];
              var s := if long then Long(option, word, rest, isUint) else Short(option, word, rest, isUint);
              && ret == s.status && applied == old(applied) + s.applied
              && argc == old(argc) - s.used && argv == old(argv) + s.used
      ensures forall i :: 0 <= i < outv.Length && i != old(argv) ==> outv[i] == old(outv[i])
    {
      hide Long, Short;
      outv[argv] := Some(word);
      assert Unread()[1..] == old(Unread())[1..];
      if long {
        ret := ParseLongopt(word, isUint);
      } else {
        ret := ParseShrtopt(word, isUint);
      }
    }

    lemma FirstUnread()
      requires Valid() && argc > 0
      ensures Unread()[0] == outv[argv].value
    {
    }

    /** do_parse(), on the first unread word. */
    method DoParse(isUint: string -> bool) returns (ret: Status)
      requires Valid() && argc > 0 && outc <= argv
      modifies this`argc, this`argv, this`outc, this`applied, outv
      ensures Valid()
      ensures var word := old(Unread())[0];
              var s := Word(option, flags, word, old(Unread())[1..], isUint);
              var used := if ret == Done && IsOption(word) then 1 else s.used;
              var kept := ret == Success && !IsOption(word);
              && ret == s.status && applied == old(applied) + s.applied
              && argc == old(argc) - used && argv == old(argv) + used
              && outc == old(outc) + (if kept then 1 else 0)
              && (kept ==> outv[outc - 1] == Some(word))
              && (!IsOption(word) && !kept ==> outv[old(argv)] == old(outv[argv]))
      ensures forall i :: (0 <= i < old(outc) || old(argv) < i < outv.Length) ==> outv[i] == old(outv[i])
    {
      hide Short, Long, Command, Unread;
      var str := outv[argv].value;
      FirstUnread();
      if str == "" || str[0] != '-' {
        if flags.stopAtNonopt {
          return Done;
        } else if flags.commandMode {
          ret := ParseSubcommand(str);
          return;
        }
        outv[outc] := Some(str);
        outc := outc + 1;
        return Success;
      } else if |str| == 1 || str[1] != '-' {
        if str == "-h" {
          return Help;
        }
        ret := ParseOptions(str[1..], false, isUint);
      } else {
        if |str| == 2 {
          assert str == "--";
          argc, argv := argc - 1, argv + 1;
          return Done;
        }
        if str == "--help" {
          return Help;
        }
        ret := ParseOptions(str[2..], true, isUint);
      }
    }

    /** The unread words, given where they came from. */
    ghost predicate Rest(words: seq<string>)
      reads this, outv
    {
      && argv + argc == |words| < outv.Length
      && forall i :: argv <= i < |words| ==> outv[i] == Some(words[i])
    }

    ghost predicate Kept(kept: seq<string>)
      reads this, outv
    {
      && outc == |kept| <= argv && outc < outv.Length
      && forall i :: 0 <= i < outc ==> outv[i] == Some(kept[i])
    }

    lemma UnreadIs(words: seq<string>)
      requires Valid() && Rest(words)
      ensures Unread() == words[argv..]
    {
    }

    lemma Begins(words: seq<string>)
      requires Valid() && outc == 0 && argv == 0 && words == Unread()
      ensures argv + argc == |words| && Rest(words) && Kept([])
    {
    }

    /** One turn of the loop of argupar_parse(), up to the switch: what is read
        is not overwritten, what is written is not behind what is read. */
    method Turn(isUint: string -> bool, ghost words: seq<string>, ghost kept: seq<string>) returns (ret: Status)
      requires Valid() && argc > 0 && Rest(words) && Kept(kept)
      modifies this`argc, this`argv, this`outc, this`applied, outv
      ensures var word := words[old(argv)];
              var s := Word(option, flags, word, words[old(argv) + 1..], isUint);
              && ret == s.status && applied == old(applied) + s.applied
              && argv + argc == |words|
              && (ret == Success || ret == Subcmd ==>
                    argv == old(argv) + 1 + s.used && Rest(words)
                    && Kept(if ret == Success && !IsOption(word) then kept + [word] else kept))
              && (ret == Done ==> argv == old(argv) + (if IsOption(word) then 1 else 0) && Rest(words) && Kept(kept))
      ensures ret == Success || ret == Subcmd || ret == Done ==> Valid()
      ensures forall i :: |words| <= i < outv.Length ==> outv[i] == old(outv[i])
    {
      hide Word, Unread, IsOption;
      UnreadIs(words);
      DropOne(words, argv);
      assert Unread()[0] == words[argv] && Unread()[1..] == words[argv + 1..];
      ret := DoParse(isUint);
      if ret == Success || ret == Subcmd {
        argc, argv := argc - 1, argv + 1;
      }
    }

    /** memmove() of the words left to the end of those kept. */
    method MoveRest(ghost words: seq<string>, ghost kept: seq<string>)
      requires Rest(words) && Kept(kept)
      modifies outv
      ensures forall i :: 0 <= i < |kept + words[argv..]| ==> outv[i] == Some((kept + words[argv..])[i])
      ensures forall i :: |words| <= i < outv.Length ==> outv[i] == old(outv[i])
    {
      forall i | 0 <= i < argc {
        outv[outc + i] := outv[argv + i];
      }
    }

    /** The loop of argupar_parse(), up to the label parse_done. */
    method Loop(isUint: string -> bool, ghost words: seq<string>) returns (ret: Status, ghost kept: seq<string>)
      requires Valid() && outc == 0 && argv == 0 && applied == [] && words == Unread()
      modifies this`argc, this`argv, this`outc, this`applied, outv
      ensures var all := Parse(option, flags, words, isUint);
              match ret
              case Undefined => all == Unspecified
              case Error => all == Exit
              case Help => all == Exit
              case _ => Rest(words) && Kept(kept) && all == Parsed(kept + words[argv..], applied)
      ensures forall i :: |words| <= i < outv.Length ==> outv[i] == old(outv[i])
    {
      hide Parse, Word, Combine, Valid, Rest, Kept, Unread;
      ghost var all := Parse(option, flags, words, isUint);
      ret, kept := Success, [];
      Begins(words);
      assert words[0..] == words;
      CombineNothing(all);
      while argc > 0
        invariant argv + argc == |words| && Valid() && Rest(words) && Kept(kept) && ret == Success
        invariant all == Combine(kept, applied, Parse(option, flags, words[argv..], isUint))
        invariant forall i :: |words| <= i < outv.Length ==> outv[i] == old(outv[i])
        decreases argc
      {
        ParseOn(option, flags, words, argv, isUint, kept, applied);
        ghost var word, before := words[argv], applied;
        ret := Turn(isUint, words, kept);
        if ret != Success {
          assert ret == Done ==> applied == before + [];
          return;
        }
        kept := if IsOption(word) then kept else kept + [word];
      }
      assert words[argv..] == [];
      ParseEnd(option, flags, isUint, kept, applied);
    }

    /** argupar_parse() */
    method ArguparParse(isUint: string -> bool) returns (ret: Return)
      requires Valid() && outc == 0 && argv == 0 && applied == []
      modifies this`argc, this`argv, this`outc, this`applied, outv
      ensures match ParseAll(option, flags, old(Unread()), isUint)
              case Parsed(args, stores) =>
                && ret == Count(|args|) && |args| <= old(argc)
                && (forall i :: 0 <= i < |args| ==> outv[i] == Some(args[i])) && outv[|args|] == None
                && applied == stores && outc == 0 && argv == 0
              case Exit => ret == Exits
              case Unspecified => ret == Unknowable
      ensures forall i :: old(argc) < i < outv.Length ==> outv[i] == old(outv[i])
    {
      hide Word, Parse;
      if flags.needArgument && argc == 0 {
        return Exits;
      }
      ghost var words := Unread();
      var status, kept := Loop(isUint, words);
      if status == Undefined {
        return Unknowable;
      } else if status == Error || status == Help {
        return Exits;
      }
      MoveRest(words, kept);
      var nl := outc + argc;
      if flags.needArgument && nl == 0 {
        return Exits;
      }
      outv[nl] := None;
      outc, argv := 0, 0;
      return Count(nl);
    }
  }
}
