/** The option table of platfree/argupar.c and how parse_longopt() selects from
    it: the name in full, or a unique abbreviation of it. */
module OptTable {
  import opened CString

  datatype OptType = Group | Subcommand | Callback | Switch | CountUp | Uint | String | MembInfo

  /** `shrt` is NUL for an option without a short name; `value` tells apart
      the variables that options set. */
  datatype Opt = Opt(typ: OptType, shrt: char, name: Option<string>,
                     noarg: bool, optarg: bool, hasneg: bool, value: nat)

  const NO: string := "no-"

  predicate Negated(s: string) {
    NO <= s
  }

  /** A long name, or argument, without a leading "no-". */
  function Stem(s: string): string {
    if Negated(s) then s[|NO|..] else s
  }

  /** The entries of the table that parse_longopt() considers at all. */
  predicate HasLong(o: Opt) {
    o.name.Some? && !o.typ.Subcommand? && !o.typ.MembInfo?
  }

  predicate Eligible(o: Opt, text: string) {
    HasLong(o) && (Negated(text) == Negated(o.name.value) || o.hasneg)
  }

  /** The argument names `o` in full, with or without a value after '='. */
  predicate Exact(o: Opt, text: string) {
    && Eligible(o, text)
    && var stem, body := Stem(o.name.value), Stem(text);
       stem <= body && (|body| == |stem| || body[|stem|] == '=')
  }

  /** How often the option is registered as abbreviated by the argument: an
      option with a negated form may be so twice. */
  function Registrations(o: Opt, text: string): (n: nat) {
    if !Eligible(o, text) then 0
    else
      var stem, body := Stem(o.name.value), Stem(text);
      if stem <= body then 0
      else
        (if body[..StrChrNul(body, '=')] <= stem then 1 else 0) + (if o.hasneg && body <= NO then 1 else 0)
  }

  function Total(opts: seq<Opt>, text: string): (n: nat) {
    if opts == [] then 0 else Total(opts[..|opts| - 1], text) + Registrations(opts[|opts| - 1], text)
  }

  /** The first option named in full. */
  function FirstExact(opts: seq<Opt>, text: string): (r: Option<Opt>)
    ensures r.None? <==> forall i :: 0 <= i < |opts| ==> !Exact(opts[i], text)
    ensures r.Some? ==> r.value in opts && Exact(r.value, text)
  {
    if opts == [] then None
    else if Exact(opts[0], text) then Some(opts[0])
    else FirstExact(opts[1..], text)
  }

  /** The option registered last. */
  function LastAbbrev(opts: seq<Opt>, text: string): (r: Option<Opt>)
    ensures r.Some? ==> r.value in opts && Registrations(r.value, text) > 0
    ensures r.Some? <==> Total(opts, text) > 0
  {
    if opts == [] then None
    else if Registrations(opts[|opts| - 1], text) > 0 then Some(opts[|opts| - 1])
    else LastAbbrev(opts[..|opts| - 1], text)
  }

  datatype Choice = Named(opt: Opt) | Abbreviated(opt: Opt) | Ambiguous | Unknown

  function Choose(opts: seq<Opt>, text: string): (c: Choice)
    ensures c.Named? ==> c.opt in opts && Exact(c.opt, text)
  {
    match FirstExact(opts, text)
    case Some(o) => Named(o)
    case None =>
      match LastAbbrev(opts, text)
      case None => Unknown
      case Some(o) => if Total(opts, text) == 1 then Abbreviated(o) else Ambiguous
  }

  // ---- the order of the table ------------------------------------------------

  function Without(opts: seq<Opt>, i: nat): seq<Opt>
    requires i < |opts|
  {
    opts[..i] + opts[i + 1..]
  }

  lemma WithoutContents(opts: seq<Opt>, i: nat)
    requires i < |opts|
    ensures multiset(Without(opts, i)) == multiset(opts) - multiset{opts[i]}
    ensures multiset([opts[i]] + Without(opts, i)) == multiset(opts)
  {
    assert opts == opts[..i] + ([opts[i]] + opts[i + 1..]);
    assert multiset(opts) == multiset(opts[..i]) + multiset{opts[i]} + multiset(opts[i + 1..]);
  }

  lemma {:induction false} TotalWithout(opts: seq<Opt>, text: string, i: nat)
    requires i < |opts|
    ensures Total(opts, text) == Total(Without(opts, i), text) + Registrations(opts[i], text)
  {
    var k := |opts| - 1;
    if i == k {
      assert Without(opts, i) == opts[..k];
    } else {
      TotalWithout(opts[..k], text, i);
      assert Without(opts, i)[..k - 1] == Without(opts[..k], i);
      assert Without(opts, i)[k - 1] == opts[k];
    }
  }

  lemma {:induction false} TotalOf(a: seq<Opt>, b: seq<Opt>, text: string)
    requires multiset(a) == multiset(b)
    ensures Total(a, text) == Total(b, text)
    decreases |a|
  {
    hide Registrations;
    if a == [] {
      assert |b| == |multiset(b)| == 0;
    } else {
      var o := a[0];
      assert o in multiset(b);
      var i :| 0 <= i < |b| && b[i] == o;
      WithoutContents(a, 0);
      WithoutContents(b, i);
      TotalOf(Without(a, 0), Without(b, i), text);
      TotalWithout(a, text, 0);
      TotalWithout(b, text, i);
    }
  }

  lemma {:induction false} OneAbbrev(opts: seq<Opt>, text: string, o: Opt)
    requires Total(opts, text) == 1 && o in opts && Registrations(o, text) > 0
    ensures LastAbbrev(opts, text) == Some(o)
  {
    hide Registrations;
    var k := |opts| - 1;
    if o in opts[..k] {
      var i :| 0 <= i < k && opts[i] == o;
      TotalWithout(opts[..k], text, i);
      OneAbbrev(opts[..k], text, o);
    } else {
      assert opts == opts[..k] + [opts[k]];
    }
  }

  /** The selection depends on the order of the table only if options that
      differ are named in full by the same argument. */
  predicate OneNamed(opts: seq<Opt>, text: string) {
    forall i, j :: 0 <= i < |opts| && 0 <= j < |opts| && Exact(opts[i], text) && Exact(opts[j], text) ==>
                     opts[i] == opts[j]
  }

  ghost predicate OrderFree(opts: seq<Opt>, text: string) {
    forall p: seq<Opt> :: multiset(p) == multiset(opts) ==> Choose(p, text) == Choose(opts, text)
  }

  lemma SameContents(p: seq<Opt>, opts: seq<Opt>, o: Opt)
    requires multiset(p) == multiset(opts)
    ensures o in p <==> o in opts
  {
    assert o in p <==> o in multiset(p);
    assert o in opts <==> o in multiset(opts);
  }

  lemma ChooseAlike(p: seq<Opt>, opts: seq<Opt>, text: string)
    requires OneNamed(opts, text) && multiset(p) == multiset(opts)
    ensures Choose(p, text) == Choose(opts, text)
  {
    hide Exact, Registrations;
    TotalOf(p, opts, text);
    forall o ensures o in p <==> o in opts {
      SameContents(p, opts, o);
    }
    if FirstExact(p, text).None? {
      forall i | 0 <= i < |opts| ensures !Exact(opts[i], text) {
        assert opts[i] in p;
      }
      if Total(opts, text) == 1 {
        var o := LastAbbrev(opts, text).value;
        assert o in p;
        OneAbbrev(p, text, o);
      }
    } else {
      var o := FirstExact(p, text).value;
      assert o in opts;
    }
  }

  lemma HeadNamed(o: Opt, rest: seq<Opt>, text: string)
    requires Exact(o, text)
    ensures Choose([o] + rest, text) == Named(o)
  {
  }

  lemma OrderFreeIff(opts: seq<Opt>, text: string)
    ensures OrderFree(opts, text) <==> OneNamed(opts, text)
  {
    hide Exact, Choose;
    if OneNamed(opts, text) {
      forall p: seq<Opt> | multiset(p) == multiset(opts) ensures Choose(p, text) == Choose(opts, text) {
        ChooseAlike(p, opts, text);
      }
    }
    if OrderFree(opts, text) {
      forall i, j | 0 <= i < |opts| && 0 <= j < |opts| && Exact(opts[i], text) && Exact(opts[j], text)
        ensures opts[i] == opts[j]
      {
        WithoutContents(opts, i);
        WithoutContents(opts, j);
        HeadNamed(opts[i], Without(opts, i), text);
        HeadNamed(opts[j], Without(opts, j), text);
      }
    }
  }

  // ---- which tables are free of order ----------------------------------------

  predicate Plain(o: Opt) {
    HasLong(o) ==> '=' !in o.name.value
  }

  /** Some argument names both options in full: their names are the same, or
      differ by a leading "no-" that one of them has as its negated form. */
  predicate Clash(a: Opt, b: Opt) {
    && HasLong(a) && HasLong(b)
    && Stem(a.name.value) == Stem(b.name.value)
    && (Negated(a.name.value) == Negated(b.name.value) || a.hasneg || b.hasneg)
  }

  lemma ExactStem(o: Opt, text: string)
    requires Exact(o, text) && Plain(o)
    ensures Stem(o.name.value) == Stem(text)[..StrChrNul(Stem(text), '=')]
  {
    var stem, body := Stem(o.name.value), Stem(text);
    assert body[..|stem|] == stem;
    assert forall c :: c in stem ==> c in o.name.value;
    StrChrNulIs(body, '=', |stem|);
  }

  lemma ClashExact(a: Opt, b: Opt) returns (text: string)
    requires Clash(a, b)
    ensures Exact(a, text) && Exact(b, text)
  {
    if Negated(a.name.value) == Negated(b.name.value) || b.hasneg {
      text := a.name.value;
    } else {
      text := b.name.value;
    }
  }

  lemma ExactClash(a: Opt, b: Opt, text: string)
    requires Exact(a, text) && Exact(b, text) && Plain(a) && Plain(b)
    ensures Clash(a, b)
  {
    ExactStem(a, text);
    ExactStem(b, text);
  }

  /** No argument at all makes the order of the table matter, exactly if no two
      different options of the table clash. */
  lemma TableOrderFree(opts: seq<Opt>)
    requires forall o :: o in opts ==> Plain(o)
    ensures (forall text :: OrderFree(opts, text)) <==>
            (forall i, j :: 0 <= i < |opts| && 0 <= j < |opts| && Clash(opts[i], opts[j]) ==> opts[i] == opts[j])
  {
    hide Exact, Clash, OrderFree;
    if forall text :: OrderFree(opts, text) {
      forall i, j | 0 <= i < |opts| && 0 <= j < |opts| && Clash(opts[i], opts[j]) ensures opts[i] == opts[j] {
        var text := ClashExact(opts[i], opts[j]);
        OrderFreeIff(opts, text);
      }
    }
    if forall i, j :: 0 <= i < |opts| && 0 <= j < |opts| && Clash(opts[i], opts[j]) ==> opts[i] == opts[j] {
      forall text ensures OrderFree(opts, text) {
        forall i, j | 0 <= i < |opts| && 0 <= j < |opts| && Exact(opts[i], text) && Exact(opts[j], text)
          ensures opts[i] == opts[j]
        {
          ExactClash(opts[i], opts[j], text);
        }
        OrderFreeIff(opts, text);
      }
    }
  }

  predicate DistinctNames(opts: seq<Opt>) {
    forall i, j :: 0 <= i < j < |opts| && HasLong(opts[i]) && HasLong(opts[j]) ==> opts[i].name != opts[j].name
  }

  lemma SameStem(a: string, b: string)
    requires Stem(a) == Stem(b) && Negated(a) == Negated(b)
    ensures a == b
  {
    if Negated(a) {
      assert a == NO + a[|NO|..] && b == NO + b[|NO|..];
    }
  }

  /** Distinct names are enough where no option has a negated form... */
  lemma DistinctTable(opts: seq<Opt>, text: string)
    requires forall o :: o in opts ==> Plain(o) && !o.hasneg
    requires DistinctNames(opts)
    ensures OrderFree(opts, text)
  {
    hide OrderFree, Plain;
    forall i, j | 0 <= i < |opts| && 0 <= j < |opts| && Clash(opts[i], opts[j]) ensures opts[i] == opts[j] {
      assert opts[i] in opts && opts[j] in opts;
      SameStem(opts[i].name.value, opts[j].name.value);
      assert i == j;
    }
    hide Clash, DistinctNames;
    TableOrderFree(opts);
  }

  function Toggle(name: string, hasneg: bool): Opt {
    Opt(Switch, NUL, Some(name), true, false, hasneg, 0)
  }

  lemma TwoToggles(name: string)
    requires '=' !in name
    ensures var opts := [Toggle(name, true), Toggle(NO + name, false)];
            DistinctNames(opts) && opts[0] != opts[1] && forall o :: o in opts ==> Plain(o)
  {
    assert |name| != |NO + name|;
  }

  lemma BothNamed(name: string)
    requires !Negated(name)
    ensures Exact(Toggle(name, true), NO + name) && Exact(Toggle(NO + name, false), NO + name)
  {
    assert (NO + name)[|NO|..] == name;
  }

  lemma TwoNamed(a: Opt, b: Opt, text: string)
    requires a != b && Exact(a, text) && Exact(b, text)
    ensures !OneNamed([a, b], text)
  {
    assert [a, b][0] == a && [a, b][1] == b;
  }

  /** ... and not enough where one has. */
  lemma NegatedTable(name: string)
    requires !Negated(name) && '=' !in name
    ensures var opts := [Toggle(name, true), Toggle(NO + name, false)];
            && DistinctNames(opts) && (forall o :: o in opts ==> Plain(o))
            && !OrderFree(opts, NO + name)
  {
    var a, b := Toggle(name, true), Toggle(NO + name, false);
    TwoToggles(name);
    hide Choose, OrderFree, OneNamed, Exact, Plain, DistinctNames;
    BothNamed(name);
    TwoNamed(a, b, NO + name);
    OrderFreeIff([a, b], NO + name);
  }
}
