// cmdutils.c: a command line is split into global options and groups of per-file options,
// each group ended by a file name or by a named separator such as -i.
module CommandLine {
  import opened Common

  const HAS_ARG: bv32 := 0x0001
  const OPT_BOOL: bv32 := 0x0002
  const OPT_EXIT: bv32 := 0x0800
  const OPT_PERFILE: bv32 := 0x2000
  const OPT_OFFSET: bv32 := 0x4000
  const OPT_SPEC: bv32 := 0x8000

  datatype OptionDef = OptionDef(name: string, flags: bv32) {
    predicate Has(flag: bv32) { flags & flag != 0 }

    predicate Global() { !Has(OPT_PERFILE | OPT_SPEC | OPT_OFFSET) }
  }

  datatype OptionGroupDef = OptionGroupDef(sep: Option<string>)

  // opt_default: whether some library option takes the name and the argument.
  datatype AvResult = Taken | NotFound | Refused(code: int)

  datatype Config =
    Config(options: seq<OptionDef>, groups: seq<OptionGroupDef>, avOption: (string, string) -> AvResult)

  datatype Error = Invalid | OptionNotFound | AvError(code: int)

  // `at` is the index in argv of the occurrence; the source keeps a pointer into argv there.
  datatype Opt = Opt(def: OptionDef, key: string, val: Option<string>, at: nat)

  datatype Group = Group(arg: string, opts: seq<Opt>, av: seq<(string, string)>)

  // ---------- Reading the arguments ----------

  datatype Token =
    | Dashes
    | File(arg: string)
    | Separator(group: nat, sep: string, arg: string)
    | Tabled(o: Opt, given: bool)   // given: the value is an argument of its own
    | AvSetting(key: string, val: string)

  // The option table is searched for the name up to the first colon.
  function Base(name: string): (r: string)
    ensures r <= name && ':' !in r
    ensures |r| < |name| ==> name[|r|] == ':'
  {
    if name == "" || name[0] == ':' then "" else [name[0]] + Base(name[1..])
  }

  function Find(options: seq<OptionDef>, name: string): (r: Option<OptionDef>)
    ensures r.Some? ==> r.value in options && r.value.name == name
    ensures r.None? ==> forall d :: d in options ==> d.name != name
  {
    if options == [] then None
    else if options[0].name == name then Some(options[0])
    else Find(options[1..], name)
  }

  function MatchGroup(groups: seq<OptionGroupDef>, name: string, from: nat): (r: Option<nat>)
    requires from <= |groups|
    ensures r.Some? ==> from <= r.value < |groups| && groups[r.value].sep == Some(name)
    ensures r.Some? ==> forall k :: from <= k < r.value ==> groups[k].sep != Some(name)
    ensures r.None? ==> forall k :: from <= k < |groups| ==> groups[k].sep != Some(name)
    decreases |groups| - from
  {
    if from == |groups| then None
    else if groups[from].sep == Some(name) then Some(from)
    else MatchGroup(groups, name, from + 1)
  }

  datatype Read = Read(token: Token, next: nat, dashdash: int) | Stop(error: Error)

  // An argument after a separator or an option that needs one.
  function ArgAt(argv: seq<string>, i: nat): Option<string>
    requires i <= |argv|
  {
    if i < |argv| then Some(argv[i]) else None
  }

  function ReadTabled(def: OptionDef, key: string, argv: seq<string>, i: nat, dashdash: int): Read
    requires i < |argv|
  {
    var arg := ArgAt(argv, i + 1);
    if def.Has(OPT_EXIT) then Read(Tabled(Opt(def, key, arg, i), arg.Some?), i + 2, dashdash)
    else if def.Has(HAS_ARG) then
      if arg.None? then Stop(Invalid) else Read(Tabled(Opt(def, key, arg, i), true), i + 2, dashdash)
    else Read(Tabled(Opt(def, key, Some("1"), i), false), i + 1, dashdash)
  }

  function ReadNegated(c: Config, key: string, i: nat, dashdash: int): Read {
    if |key| >= 2 && key[0] == 'n' && key[1] == 'o' then
      var def := Find(c.options, Base(key[2..]));
      if def.Some? && def.value.Has(OPT_BOOL)
        then Read(Tabled(Opt(def.value, key, Some("0"), i), false), i + 1, dashdash)
      else Stop(OptionNotFound)
    else Stop(OptionNotFound)
  }

  function ReadOption(c: Config, key: string, argv: seq<string>, i: nat, dashdash: int): Read
    requires i < |argv|
  {
    var group := MatchGroup(c.groups, key, 0);
    var def := Find(c.options, Base(key));
    var arg := ArgAt(argv, i + 1);
    if group.Some? then
      if arg.None? then Stop(Invalid) else Read(Separator(group.value, key, arg.value), i + 2, dashdash)
    else if def.Some? then ReadTabled(def.value, key, argv, i, dashdash)
    else if arg.None? then ReadNegated(c, key, i, dashdash)
    else match c.avOption(key, arg.value)
      case Taken => Read(AvSetting(key, arg.value), i + 2, dashdash)
      case Refused(code) => Stop(AvError(code))
      case NotFound => ReadNegated(c, key, i, dashdash)
  }

  // One turn of the loop, at argument i.
  function ReadOne(c: Config, argv: seq<string>, i: nat, dashdash: int): (r: Read)
    requires i < |argv|
    ensures r.Read? ==> i < r.next
  {
    var opt := argv[i];
    if opt == "--" then Read(Dashes, i + 1, i + 1)
    else if opt == "" || opt[0] != '-' || |opt| == 1 || dashdash + 1 == i + 1 then Read(File(opt), i + 1, dashdash)
    else ReadOption(c, opt[1..], argv, i, dashdash)
  }

  // The tokens of a command line, up to its first error.
  datatype Tokens = Tokens(list: seq<Token>, error: Option<Error>)

  function Lex(c: Config, argv: seq<string>, i: nat, dashdash: int): Tokens
    decreases |argv| + 1 - i
  {
    if i >= |argv| then Tokens([], None)
    else match ReadOne(c, argv, i, dashdash)
      case Stop(e) => Tokens([], Some(e))
      case Read(t, next, d) =>
        var rest := Lex(c, argv, next, d);
        Tokens([t] + rest.list, rest.error)
  }

  // ---------- Reading loses nothing ----------

  function Spell(t: Token): seq<string> {
    match t
    case Dashes => ["--"]
    case File(arg) => [arg]
    case Separator(_, sep, arg) => ["-" + sep, arg]
    case Tabled(o, given) => ["-" + o.key] + (if given && o.val.Some? then [o.val.value] else [])
    case AvSetting(key, val) => ["-" + key, val]
  }

  function SpellAll(ts: seq<Token>): seq<string> {
    if ts == [] then [] else Spell(ts[0]) + SpellAll(ts[1..])
  }

  // What was read at argument i is spelled by the arguments from there on.
  ghost predicate Spelled(r: Read, argv: seq<string>, i: nat) {
    r.Read? ==>
      var n := |Spell(r.token)|;
      && i + n <= |argv| && n > 0 && Spell(r.token) == argv[i..i + n]
      && (r.next == i + n || (r.next > |argv| && i + n == |argv|))
      && (r.token.Tabled? ==> r.token.o.at == i)
  }

  lemma OneOrTwo(argv: seq<string>, i: nat)
    requires i < |argv|
    ensures argv[i..i + 1] == [argv[i]]
    ensures i + 1 < |argv| ==> argv[i..i + 2] == [argv[i], argv[i + 1]] == [argv[i]] + [argv[i + 1]]
  {
  }

  lemma ReadTabledSpells(def: OptionDef, key: string, argv: seq<string>, i: nat, dashdash: int)
    requires i < |argv| && argv[i] == "-" + key
    ensures Spelled(ReadTabled(def, key, argv, i, dashdash), argv, i)
  {
    OneOrTwo(argv, i);
    var r := ReadTabled(def, key, argv, i, dashdash);
    if r.Read? && i + 1 < |argv| && r.token.given {
      assert Spell(r.token) == [argv[i]] + [argv[i + 1]];
    }
  }

  lemma ReadOptionSpells(c: Config, key: string, argv: seq<string>, i: nat, dashdash: int)
    requires i < |argv| && argv[i] == "-" + key
    ensures Spelled(ReadOption(c, key, argv, i, dashdash), argv, i)
  {
    OneOrTwo(argv, i);
    var def := Find(c.options, Base(key));
    if def.Some? { ReadTabledSpells(def.value, key, argv, i, dashdash); }
  }

  lemma ReadOneSpells(c: Config, argv: seq<string>, i: nat, dashdash: int)
    requires i < |argv|
    ensures Spelled(ReadOne(c, argv, i, dashdash), argv, i)
  {
    var opt := argv[i];
    OneOrTwo(argv, i);
    if opt != "" && opt[0] == '-' && opt != "--" && |opt| > 1 && dashdash + 1 != i + 1 {
      assert opt == "-" + opt[1..];
      ReadOptionSpells(c, opt[1..], argv, i, dashdash);
    }
  }

  lemma SpellCons(t: Token, ts: seq<Token>)
    ensures SpellAll([t] + ts) == Spell(t) + SpellAll(ts)
  {
    assert ([t] + ts)[1..] == ts;
  }

  lemma SpelledCons(first: seq<string>, more: seq<string>, argv: seq<string>, i: nat, next: nat)
    requires i <= next <= |argv| && first == argv[i..next] && more <= argv[next..]
    ensures first + more <= argv[i..] && (more == argv[next..] ==> first + more == argv[i..])
  {
    assert argv[i..] == argv[i..next] + argv[next..];
  }

  // The tokens of an accepted command line spell exactly its arguments; those of a refused one
  // spell the arguments before the error.
  lemma {:induction false} LexSpells(c: Config, argv: seq<string>, i: nat, dashdash: int)
    requires i <= |argv|
    ensures var ts := Lex(c, argv, i, dashdash);
      SpellAll(ts.list) <= argv[i..] && (ts.error.None? ==> SpellAll(ts.list) == argv[i..])
    decreases |argv| - i
  {
    if i < |argv| {
      ReadOneSpells(c, argv, i, dashdash);
      var r := ReadOne(c, argv, i, dashdash);
      if r.Read? {
        var rest := Lex(c, argv, r.next, r.dashdash);
        SpellCons(r.token, rest.list);
        if r.next <= |argv| {
          LexSpells(c, argv, r.next, r.dashdash);
        }
        SpelledCons(Spell(r.token), SpellAll(rest.list), argv, i, i + |Spell(r.token)|);
      }
    }
  }

  // ---------- Values ----------

  // An option is global unless it is per file, may have a stream specifier, or sets a field of the
  // per-file options.
  lemma IsGlobalIff(def: OptionDef)
    ensures def.Global() <==> def.flags & 0x2000 == 0 && def.flags & 0x8000 == 0 && def.flags & 0x4000 == 0
  {
  }

  // An option of the table without an argument has the value 1.
  lemma PlainIsOne(c: Config, argv: seq<string>, i: nat, dashdash: int, key: string, def: OptionDef)
    requires i < |argv| && argv[i] == "-" + key && argv[i] != "--" && key != "" && dashdash != i
    requires MatchGroup(c.groups, key, 0).None? && Find(c.options, Base(key)) == Some(def)
    requires !def.Has(OPT_EXIT) && !def.Has(HAS_ARG)
    ensures ReadOne(c, argv, i, dashdash) == Read(Tabled(Opt(def, key, Some("1"), i), false), i + 1, dashdash)
  {
    assert argv[i][1..] == key;
  }

  // With an argument, the next one is its value, and is read with it.
  lemma ArgumentIsValue(c: Config, argv: seq<string>, i: nat, dashdash: int, key: string, def: OptionDef)
    requires i < |argv| && argv[i] == "-" + key && argv[i] != "--" && key != "" && dashdash != i
    requires MatchGroup(c.groups, key, 0).None? && Find(c.options, Base(key)) == Some(def) && def.Has(HAS_ARG)
    ensures i + 1 < |argv| ==>
      ReadOne(c, argv, i, dashdash) == Read(Tabled(Opt(def, key, Some(argv[i + 1]), i), true), i + 2, dashdash)
    ensures i + 1 == |argv| && !def.Has(OPT_EXIT) ==> ReadOne(c, argv, i, dashdash) == Stop(Invalid)
  {
    assert argv[i][1..] == key;
  }

  // "no" before the name of a switch gives it the value 0, unless the whole is a name itself; no
  // argument is read with it.
  lemma NegatedIsZero(c: Config, argv: seq<string>, i: nat, dashdash: int, name: string, def: OptionDef)
    requires i < |argv| && argv[i] == "-no" + name && dashdash != i
    requires MatchGroup(c.groups, "no" + name, 0).None? && Find(c.options, Base("no" + name)).None?
    requires i + 1 < |argv| ==> c.avOption("no" + name, argv[i + 1]).NotFound?
    ensures Find(c.options, Base(name)) == Some(def) && def.Has(OPT_BOOL) ==>
      ReadOne(c, argv, i, dashdash) == Read(Tabled(Opt(def, "no" + name, Some("0"), i), false), i + 1, dashdash)
    ensures Find(c.options, Base(name)).None? || (Find(c.options, Base(name)) == Some(def) && !def.Has(OPT_BOOL)) ==>
      ReadOne(c, argv, i, dashdash) == Stop(OptionNotFound)
  {
    var key := "no" + name;
    assert argv[i] == "-" + key;
    assert argv[i][0] == '-' && argv[i][1] == 'n';
    assert argv[i][1..] == key && key[2..] == name && key[0] == 'n' && key[1] == 'o';
  }

  // A separator takes the next argument, and without one the command line is refused.
  lemma SeparatorTakesNext(c: Config, argv: seq<string>, i: nat, dashdash: int, key: string)
    requires i < |argv| && argv[i] == "-" + key && argv[i] != "--" && key != "" && dashdash != i
    requires MatchGroup(c.groups, key, 0).Some?
    ensures var r := ReadOne(c, argv, i, dashdash);
      if i + 1 == |argv| then r == Stop(Invalid)
      else
        && r.Read? && r.token.Separator? && r.token.sep == key && r.token.arg == argv[i + 1] && r.next == i + 2
        && r.token.group < |c.groups| && c.groups[r.token.group].sep == Some(key)
        && forall k :: 0 <= k < r.token.group ==> c.groups[k].sep != Some(key)
  {
    assert argv[i][1..] == key;
  }

  // An option of a library is one only if the table has none of the name; it takes the next argument.
  lemma LibraryTakesNext(c: Config, argv: seq<string>, i: nat, dashdash: int, key: string)
    requires i + 1 < |argv| && argv[i] == "-" + key && argv[i] != "--" && key != "" && dashdash != i
    requires MatchGroup(c.groups, key, 0).None? && Find(c.options, Base(key)).None?
    ensures var r := ReadOne(c, argv, i, dashdash);
      match c.avOption(key, argv[i + 1])
      case Taken => r == Read(AvSetting(key, argv[i + 1]), i + 2, dashdash)
      case Refused(code) => r == Stop(AvError(code))
      case NotFound => r.Stop? || (r.Read? && r.next == i + 1)
  {
    assert argv[i][1..] == key;
  }

  // Everything that does not begin with a dash, a dash alone, and the argument after `--`, is a file.
  lemma FileIff(c: Config, argv: seq<string>, i: nat, dashdash: int)
    requires i < |argv|
    ensures var opt := argv[i];
      var isFile := opt != "--" && (opt == "" || opt[0] != '-' || opt == "-" || dashdash == i);
      isFile <==> ReadOne(c, argv, i, dashdash) == Read(File(opt), i + 1, dashdash)
  {
    var opt := argv[i];
    if |opt| == 1 && opt[0] == '-' { assert opt == "-"; }
  }

  // ---------- `--` ----------

  lemma DashesRead(c: Config, argv: seq<string>, i: nat, dashdash: int)
    requires i < |argv|
    ensures var r := ReadOne(c, argv, i, dashdash);
      r.Read? && r.token.Dashes? ==> argv[i] == "--" && r == Read(Dashes, i + 1, i + 1)
  {
    ReadOneSpells(c, argv, i, dashdash);
  }

  lemma NextAfterDashes(c: Config, argv: seq<string>, i: nat)
    requires 0 < i <= |argv|
    ensures var ts := Lex(c, argv, i, i).list;
      if i == |argv| then ts == [] else |ts| > 0 && ts[0] == if argv[i] == "--" then Dashes else File(argv[i])
  {
  }

  // Where a `--` is read as such, and how reading goes on.
  lemma {:induction false} DashesAt(c: Config, argv: seq<string>, i: nat, dashdash: int, k: nat) returns (j: nat)
    requires i <= |argv| && k < |Lex(c, argv, i, dashdash).list| && Lex(c, argv, i, dashdash).list[k].Dashes?
    ensures j == i + |SpellAll(Lex(c, argv, i, dashdash).list[..k + 1])| && 0 < j <= |argv|
    ensures Lex(c, argv, i, dashdash).list[k + 1..] == Lex(c, argv, j, j).list
    decreases k
  {
    var r, rest := FirstToken(c, argv, i, dashdash, k);
    FirstSpelled(c, argv, i, dashdash, r);
    if k == 0 {
      DashesRead(c, argv, i, dashdash);
      j := i + 1;
    } else {
      j := DashesAt(c, argv, r.next, r.dashdash, k - 1);
    }
    CutOne(r.token, rest, Lex(c, argv, i, dashdash).list, k);
  }

  lemma FirstSpelled(c: Config, argv: seq<string>, i: nat, dashdash: int, r: Read)
    requires i < |argv| && r == ReadOne(c, argv, i, dashdash) && r.Read?
    ensures |Spell(r.token)| > 0 && i + |Spell(r.token)| <= |argv|
    ensures Lex(c, argv, r.next, r.dashdash).list == [] || r.next == i + |Spell(r.token)|
  {
    ReadOneSpells(c, argv, i, dashdash);
  }

  lemma CutOne(t: Token, rest: seq<Token>, all: seq<Token>, k: nat)
    requires all == [t] + rest && k < |all|
    ensures all[k + 1..] == rest[k..]
  {
  }

  // Wherever a `--` is read as such, the argument after it is a file name if and only if it is not
  // itself a `--`; then it is read as such again.
  lemma AfterDashesIff(c: Config, argv: seq<string>, i: nat, dashdash: int, k: nat)
    requires i <= |argv| && k < |Lex(c, argv, i, dashdash).list| && Lex(c, argv, i, dashdash).list[k].Dashes?
    ensures var ts := Lex(c, argv, i, dashdash).list;
      var j := i + |SpellAll(ts[..k + 1])|;
      && j <= |argv| && (k + 1 < |ts| <==> j < |argv|)
      && (j < |argv| ==> ts[k + 1] == if argv[j] == "--" then Dashes else File(argv[j]))
  {
    var ts := Lex(c, argv, i, dashdash).list;
    var j := DashesAt(c, argv, i, dashdash, k);
    NextAfterDashes(c, argv, j);
    assert k + 1 < |ts| ==> ts[k + 1..][0] == ts[k + 1];
  }

  lemma FirstToken(c: Config, argv: seq<string>, i: nat, dashdash: int, k: nat) returns (r: Read, rest: seq<Token>)
    requires i <= |argv| && k < |Lex(c, argv, i, dashdash).list|
    ensures i < |argv| && r == ReadOne(c, argv, i, dashdash) && r.Read? && rest == Lex(c, argv, r.next, r.dashdash).list
    ensures var ts := Lex(c, argv, i, dashdash).list;
      && ts == [r.token] + rest
      && |SpellAll(ts[..k + 1])| == |Spell(r.token)| + |SpellAll(rest[..k])|
  {
    r := ReadOne(c, argv, i, dashdash);
    rest := Lex(c, argv, r.next, r.dashdash).list;
    SpellCons(r.token, rest[..k]);
    assert ([r.token] + rest)[..k + 1] == [r.token] + rest[..k];
  }

  // However many `--` follow each other, the first other argument is a file name.
  lemma {:induction false} DashesThenFile(c: Config, argv: seq<string>, i: nat, j: nat, dashdash: int)
    requires i < j < |argv| && argv[j] != "--"
    requires forall k :: i <= k < j ==> argv[k] == "--"
    ensures var ts := Lex(c, argv, i, dashdash).list;
      |ts| > j - i && ts[j - i] == File(argv[j]) && forall k :: 0 <= k < j - i ==> ts[k] == Dashes
    decreases j - i
  {
    if i + 1 < j {
      DashesThenFile(c, argv, i + 1, j, i + 1);
      var rest := Lex(c, argv, i + 1, i + 1).list;
      assert Lex(c, argv, i, dashdash).list == [Dashes] + rest;
    } else {
      var rest := Lex(c, argv, j + 1, j).list;
      assert Lex(c, argv, j, j).list == [File(argv[j])] + rest;
      assert Lex(c, argv, i, dashdash).list == [Dashes] + ([File(argv[j])] + rest);
    }
  }

  // In `prog -- -- -x` the argument after the first `--` is no file name.
  lemma SecondDashesAreNoFile(c: Config)
    ensures var ts := Lex(c, ["prog", "--", "--", "-x"], 1, -2);
      ts == Tokens([Dashes, Dashes, File("-x")], None)
  {
    var argv := ["prog", "--", "--", "-x"];
    assert Lex(c, argv, 4, 3) == Tokens([], None);
    assert Lex(c, argv, 3, 3) == Tokens([File("-x")] + [], None);
    assert Lex(c, argv, 2, 2) == Tokens([Dashes] + [File("-x")], None);
  }

  // ---------- Grouping ----------

  datatype Parse = Parse(global: seq<Opt>, lists: seq<seq<Group>>, cur: seq<Opt>, av: seq<(string, string)>)

  function Finish(p: Parse, group: nat, arg: string): Parse
    requires group < |p.lists|
  {
    Parse(p.global, p.lists[group := p.lists[group] + [Group(arg, p.cur, p.av)]], [], [])
  }

  function Put(p: Parse, t: Token): (r: Parse)
    requires TokenFits(t, |p.lists|)
    ensures |r.lists| == |p.lists|
  {
    match t
    case Dashes => p
    case File(arg) => Finish(p, 0, arg)
    case Separator(group, _, arg) => Finish(p, group, arg)
    case Tabled(o, _) => if o.def.Global() then p.(global := p.global + [o]) else p.(cur := p.cur + [o])
    case AvSetting(key, val) => p.(av := p.av + [(key, val)])
  }

  predicate TokenFits(t: Token, n: nat) {
    n > 0 && (t.Separator? ==> t.group < n)
  }

  ghost predicate Fit(ts: seq<Token>, n: nat) {
    n > 0 && forall k :: 0 <= k < |ts| ==> TokenFits(ts[k], n)
  }

  function Empty(n: nat): (p: Parse)
    ensures |p.lists| == n
  {
    Parse([], seq(n, _ => []), [], [])
  }

  ghost function PutAll(ts: seq<Token>, n: nat): (p: Parse)
    requires Fit(ts, n)
    ensures |p.lists| == n
  {
    if ts == [] then Empty(n) else Put(PutAll(ts[..|ts| - 1], n), ts[|ts| - 1])
  }

  // ----- What it comes to -----

  predicate Ends(t: Token) { t.File? || t.Separator? }

  function KindOf(t: Token): nat {
    if t.Separator? then t.group else 0
  }

  // Where the group that contains position p begins.
  function Begin(ts: seq<Token>, p: nat): (b: nat)
    requires p <= |ts|
    ensures b <= p && (b > 0 ==> Ends(ts[b - 1]))
    ensures forall k :: b <= k < p ==> !Ends(ts[k])
  {
    if p == 0 then 0 else if Ends(ts[p - 1]) then p else Begin(ts, p - 1)
  }

  function PerFile(ts: seq<Token>): seq<Opt> {
    if ts == [] then []
    else
      var t := ts[|ts| - 1];
      PerFile(ts[..|ts| - 1]) + (if t.Tabled? && !t.o.def.Global() then [t.o] else [])
  }

  function GlobalOf(ts: seq<Token>): seq<Opt> {
    if ts == [] then []
    else
      var t := ts[|ts| - 1];
      GlobalOf(ts[..|ts| - 1]) + (if t.Tabled? && t.o.def.Global() then [t.o] else [])
  }

  function AvOf(ts: seq<Token>): seq<(string, string)> {
    if ts == [] then []
    else
      var t := ts[|ts| - 1];
      AvOf(ts[..|ts| - 1]) + (if t.AvSetting? then [(t.key, t.val)] else [])
  }

  // The groups of one kind: for each token that ends one, what was read since the previous end.
  function GroupsOf(ts: seq<Token>, kind: nat): seq<Group> {
    if ts == [] then []
    else
      var n := |ts| - 1;
      var earlier := GroupsOf(ts[..n], kind);
      if Ends(ts[n]) && KindOf(ts[n]) == kind then
        earlier + [Group(ts[n].arg, PerFile(ts[Begin(ts, n)..n]), AvOf(ts[Begin(ts, n)..n]))]
      else earlier
  }

  lemma {:induction false} BeginPrefix(ts: seq<Token>, n: nat, p: nat)
    requires p <= n <= |ts|
    ensures Begin(ts[..n], p) == Begin(ts, p)
    decreases p
  {
    if p > 0 { BeginPrefix(ts, n, p - 1); }
  }

  // Each finished group holds, in order, exactly the per-file options and the library options
  // since the previous group, and stands in the list of its kind in order of appearance; the
  // options after the last group are left in the current one; the others are global.
  ghost predicate Grouped(p: Parse, ts: seq<Token>) {
    && p.global == GlobalOf(ts)
    && p.cur == PerFile(ts[Begin(ts, |ts|)..])
    && p.av == AvOf(ts[Begin(ts, |ts|)..])
    && forall k :: 0 <= k < |p.lists| ==> p.lists[k] == GroupsOf(ts, k)
  }

  lemma {:induction false} GroupedAsRead(ts: seq<Token>, n: nat)
    requires Fit(ts, n)
    ensures var p := PutAll(ts, n);
      && p.global == GlobalOf(ts)
      && p.cur == PerFile(ts[Begin(ts, |ts|)..])
      && p.av == AvOf(ts[Begin(ts, |ts|)..])
      && forall k :: 0 <= k < n ==> p.lists[k] == GroupsOf(ts, k)
  {
    if ts != [] {
      var m := |ts| - 1;
      GroupedAsRead(ts[..m], n);
      GroupedNext(PutAll(ts[..m], n), ts[..m], ts[m], ts);
      assert Grouped(PutAll(ts, n), ts);
    }
  }

  lemma GroupedNext(p: Parse, before: seq<Token>, t: Token, ts: seq<Token>)
    requires Grouped(p, before) && TokenFits(t, |p.lists|) && ts == before + [t]
    ensures Grouped(Put(p, t), ts)
  {
    var m := |before|;
    assert ts[..m] == before;
    BeginPrefix(ts, m, m);
    var b := Begin(before, m);
    if Ends(t) {
      GroupEnded(p, before, t, ts);
    } else {
      assert Begin(ts, m + 1) == b;
      LastOf(before[b..], t, ts[b..]);
      LastOf(before, t, ts);
    }
  }

  // One more token.
  lemma LastOf(before: seq<Token>, t: Token, ts: seq<Token>)
    requires ts == before + [t]
    ensures PerFile(ts) == PerFile(before) + (if t.Tabled? && !t.o.def.Global() then [t.o] else [])
    ensures GlobalOf(ts) == GlobalOf(before) + (if t.Tabled? && t.o.def.Global() then [t.o] else [])
    ensures AvOf(ts) == AvOf(before) + (if t.AvSetting? then [(t.key, t.val)] else [])
  {
    assert ts[..|ts| - 1] == before;
  }

  lemma GroupEnded(p: Parse, before: seq<Token>, t: Token, ts: seq<Token>)
    requires Grouped(p, before) && TokenFits(t, |p.lists|) && ts == before + [t] && Ends(t)
    ensures Grouped(Put(p, t), ts)
  {
    var m := |before|;
    assert ts[..m] == before;
    BeginPrefix(ts, m, m);
    LastOf(before, t, ts);
    assert ts[Begin(ts, m)..m] == before[Begin(before, m)..];
    assert Put(p, t) == Finish(p, KindOf(t), t.arg);
  }

  // ----- Every occurrence in exactly one place -----

  function Opts(ts: seq<Token>): seq<Opt> {
    if ts == [] then [] else (if ts[0].Tabled? then [ts[0].o] else []) + Opts(ts[1..])
  }

  function InGroups(list: seq<Group>): multiset<Opt> {
    if list == [] then multiset{} else InGroups(list[..|list| - 1]) + multiset(list[|list| - 1].opts)
  }

  function InLists(lists: seq<seq<Group>>): multiset<Opt> {
    if lists == [] then multiset{} else InLists(lists[..|lists| - 1]) + InGroups(lists[|lists| - 1])
  }

  function Everywhere(p: Parse): multiset<Opt> {
    multiset(p.global) + multiset(p.cur) + InLists(p.lists)
  }

  lemma {:induction false} ListUpdated(lists: seq<seq<Group>>, k: nat, g: Group)
    requires k < |lists|
    ensures InLists(lists[k := lists[k] + [g]]) == InLists(lists) + multiset(g.opts)
  {
    var n := |lists| - 1;
    var longer := lists[k] + [g];
    var updated := lists[k := longer];
    if k == n {
      assert updated[..n] == lists[..n];
      assert longer[..|longer| - 1] == lists[k];
    } else {
      ListUpdated(lists[..n], k, g);
      assert updated[..n] == lists[..n][k := longer];
    }
  }

  lemma {:induction false} EmptyLists(n: nat)
    ensures InLists(Empty(n).lists) == multiset{}
  {
    if n > 0 {
      EmptyLists(n - 1);
      assert Empty(n).lists[..n - 1] == Empty(n - 1).lists;
    }
  }

  lemma {:induction false} OptsLast(ts: seq<Token>)
    requires ts != []
    ensures var t := ts[|ts| - 1];
      Opts(ts) == Opts(ts[..|ts| - 1]) + (if t.Tabled? then [t.o] else [])
  {
    if |ts| > 1 {
      OptsLast(ts[1..]);
      assert ts[1..][..|ts| - 2] == ts[..|ts| - 1][1..];
    }
  }

  lemma FinishKeeps(p: Parse, group: nat, arg: string)
    requires group < |p.lists|
    ensures Everywhere(Finish(p, group, arg)) == Everywhere(p)
  {
    ListUpdated(p.lists, group, Group(arg, p.cur, p.av));
  }

  lemma PutKeeps(p: Parse, t: Token)
    requires TokenFits(t, |p.lists|)
    ensures Everywhere(Put(p, t)) == Everywhere(p) + multiset(if t.Tabled? then [t.o] else [])
  {
    match t
    case File(arg) => FinishKeeps(p, 0, arg);
    case Separator(group, _, arg) => FinishKeeps(p, group, arg);
    case _ =>
  }

  lemma {:induction false} Partition(ts: seq<Token>, n: nat)
    requires Fit(ts, n)
    ensures Everywhere(PutAll(ts, n)) == multiset(Opts(ts))
  {
    if ts == [] {
      EmptyLists(n);
    } else {
      var init, t := ts[..|ts| - 1], ts[|ts| - 1];
      Partition(init, n);
      PutKeeps(PutAll(init, n), t);
      OptsLast(ts);
    }
  }

  // Occurrences from lo on, in argument order.
  ghost predicate InOrder(os: seq<Opt>, lo: int, hi: int) {
    && (forall k :: 0 <= k < |os| ==> lo <= os[k].at < hi)
    && (forall j, k :: 0 <= j < k < |os| ==> os[j].at < os[k].at)
  }

  lemma InOrderCons(first: seq<Opt>, os: seq<Opt>, lo: int, next: int, hi: int)
    requires lo < next && InOrder(os, next, hi)
    requires first == [] || (|first| == 1 && first[0].at == lo < hi)
    ensures InOrder(first + os, lo, hi)
  {
    var all := first + os;
    assert forall k :: |first| <= k < |all| ==> all[k] == os[k - |first|];
  }

  // The occurrences read are in argument order, so no two are the same.
  lemma {:induction false} LexInOrder(c: Config, argv: seq<string>, i: nat, dashdash: int)
    ensures InOrder(Opts(Lex(c, argv, i, dashdash).list), i, |argv|)
    decreases |argv| + 1 - i
  {
    if i < |argv| {
      ReadOneSpells(c, argv, i, dashdash);
      var r := ReadOne(c, argv, i, dashdash);
      if r.Read? {
        LexInOrder(c, argv, r.next, r.dashdash);
        var rest := Lex(c, argv, r.next, r.dashdash).list;
        var ts := [r.token] + rest;
        assert Lex(c, argv, i, dashdash).list == ts;
        assert ts[1..] == rest && ts[0] == r.token;
        InOrderCons(if r.token.Tabled? then [r.token.o] else [], Opts(rest), i, r.next, |argv|);
      }
    }
  }

  lemma {:induction false} LexFits(c: Config, argv: seq<string>, i: nat, dashdash: int)
    requires |c.groups| > 0
    ensures Fit(Lex(c, argv, i, dashdash).list, |c.groups|)
    decreases |argv| + 1 - i
  {
    if i < |argv| {
      var r := ReadOne(c, argv, i, dashdash);
      if r.Read? {
        LexFits(c, argv, r.next, r.dashdash);
      }
    }
  }

  lemma {:induction false} DistinctOnce(os: seq<Opt>, k: nat, lo: int, hi: int)
    requires k < |os| && InOrder(os, lo, hi)
    ensures multiset(os)[os[k]] == 1
  {
    var n := |os| - 1;
    assert os == os[..n] + [os[n]];
    if k < n {
      DistinctOnce(os[..n], k, lo, hi);
    } else {
      assert os[n] !in os[..n];
    }
  }

  // Every tabled option read is in exactly one place: among the global options, in one finished
  // group, or in the current one; and it is among the global ones just if it is not per file.
  lemma OccursOnce(c: Config, argv: seq<string>, k: nat)
    requires |c.groups| > 0 && k < |Opts(Lex(c, argv, 1, -2).list)|
    ensures Fit(Lex(c, argv, 1, -2).list, |c.groups|)
    ensures var ts := Lex(c, argv, 1, -2).list;
      var p := PutAll(ts, |c.groups|);
      var o := Opts(ts)[k];
      && Everywhere(p)[o] == 1
      && (o in p.global <==> o.def.Global())
  {
    var ts := Lex(c, argv, 1, -2).list;
    LexFits(c, argv, 1, -2);
    LexInOrder(c, argv, 1, -2);
    Partition(ts, |c.groups|);
    DistinctOnce(Opts(ts), k, 1, |argv|);
    GroupedAsRead(ts, |c.groups|);
    var o := Opts(ts)[k];
    GlobalIff(ts, o);
    assert o in Opts(ts);
  }

  lemma {:induction false} GlobalIff(ts: seq<Token>, o: Opt)
    ensures o in GlobalOf(ts) <==> o in Opts(ts) && o.def.Global()
  {
    if ts != [] {
      GlobalIff(ts[..|ts| - 1], o);
      OptsLast(ts);
    }
  }

  // ---------- split_commandline ----------

  // The loop has read `ts` and stands at argument i.
  ghost predicate Reading(c: Config, argv: seq<string>, all: Tokens, ts: seq<Token>, i: nat, dashdash: int) {
    var rest := Lex(c, argv, i, dashdash);
    all == Tokens(ts + rest.list, rest.error)
  }

  lemma ReadingStep(c: Config, argv: seq<string>, all: Tokens, ts: seq<Token>, i: nat, dashdash: int)
    requires i < |argv| && Reading(c, argv, all, ts, i, dashdash) && Fit(ts, |c.groups|)
    ensures var r := ReadOne(c, argv, i, dashdash);
      && (r.Stop? ==> all == Tokens(ts, Some(r.error)))
      && (r.Read? ==> (
        && Reading(c, argv, all, ts + [r.token], r.next, r.dashdash)
        && Fit(ts + [r.token], |c.groups|)
        && PutAll(ts + [r.token], |c.groups|) == Put(PutAll(ts, |c.groups|), r.token)))
  {
    var r := ReadOne(c, argv, i, dashdash);
    if r.Stop? {
      assert ts + [] == ts;
    } else {
      var rest := Lex(c, argv, r.next, r.dashdash);
      assert ts + ([r.token] + rest.list) == (ts + [r.token]) + rest.list;
      assert (ts + [r.token])[..|ts|] == ts;
    }
  }

  class OptionParseContext {
    const c: Config
    var globalOpts: seq<Opt>
    var groups: seq<seq<Group>>
    var curGroup: seq<Opt>
    var avOpts: seq<(string, string)>

    constructor (c: Config)
      ensures this.c == c && View() == Empty(|c.groups|)
    {
      this.c := c;
      globalOpts, groups, curGroup, avOpts := [], seq(|c.groups|, _ => []), [], [];
    }

    ghost function View(): Parse
      reads this
    {
      Parse(globalOpts, groups, curGroup, avOpts)
    }

    method FinishGroup(group: nat, arg: string)
      requires group < |groups|
      modifies this
      ensures View() == Finish(old(View()), group, arg)
    {
      groups := groups[group := groups[group] + [Group(arg, curGroup, avOpts)]];
      avOpts := [];
      curGroup := [];
    }

    method AddOpt(o: Opt)
      modifies this
      ensures View() == (if o.def.Global() then old(View()).(global := old(globalOpts) + [o])
                         else old(View()).(cur := old(curGroup) + [o]))
    {
      if o.def.Global() {
        globalOpts := globalOpts + [o];
      } else {
        curGroup := curGroup + [o];
      }
    }

    method FindOption(name: string) returns (po: Option<OptionDef>)
      ensures po == Find(c.options, Base(name))
    {
      var base := Base(name);
      var i := 0;
      while i < |c.options|
        invariant 0 <= i <= |c.options| && Find(c.options, base) == Find(c.options[i..], base)
      {
        if c.options[i].name == base { return Some(c.options[i]); }
        i := i + 1;
      }
      return None;
    }

    method MatchGroupSeparator(name: string) returns (group: Option<nat>)
      ensures group == MatchGroup(c.groups, name, 0)
    {
      var i := 0;
      while i < |c.groups|
        invariant 0 <= i <= |c.groups| && MatchGroup(c.groups, name, 0) == MatchGroup(c.groups, name, i)
      {
        if c.groups[i].sep == Some(name) { return Some(i); }
        i := i + 1;
      }
      return None;
    }

    // The part of the loop for an argument that starts with a dash.
    method SplitOption(key: string, argv: seq<string>, i: nat, dashdash: int) returns (next: nat, error: Option<Error>)
      requires i < |argv| && |groups| == |c.groups| > 0
      modifies this
      ensures |groups| == |c.groups|
      ensures var r := ReadOption(c, key, argv, i, dashdash);
        if r.Stop? then error == Some(r.error) && unchanged(this)
        else
          && error == None && next == r.next && r.dashdash == dashdash
          && TokenFits(r.token, |old(groups)|) && View() == Put(old(View()), r.token)
    {
      next, error := i + 1, None;
      var arg := ArgAt(argv, i + 1);
      var group := MatchGroupSeparator(key);
      if group.Some? {
        if arg.None? { return next, Some(Invalid); }
        FinishGroup(group.value, arg.value);
        return i + 2, None;
      }
      var po := FindOption(key);
      if po.Some? {
        if po.value.Has(OPT_EXIT) {
          next := i + 2;
        } else if po.value.Has(HAS_ARG) {
          if arg.None? { return next, Some(Invalid); }
          next := i + 2;
        } else {
          arg := Some("1");
        }
        AddOpt(Opt(po.value, key, arg, i));
        return;
      }
      if arg.Some? {
        match c.avOption(key, arg.value)
        case Taken =>
          avOpts := avOpts + [(key, arg.value)];
          return i + 2, None;
        case Refused(code) => return next, Some(AvError(code));
        case NotFound =>
      }
      if |key| >= 2 && key[0] == 'n' && key[1] == 'o' {
        po := FindOption(key[2..]);
        if po.Some? && po.value.Has(OPT_BOOL) {
          AddOpt(Opt(po.value, key, Some("0"), i));
          return;
        }
      }
      error := Some(OptionNotFound);
    }

    // The context holds what the tokens read come to, on success and on error.
    method SplitCommandline(argv: seq<string>) returns (error: Option<Error>)
      requires |c.groups| > 0 && View() == Empty(|c.groups|)
      modifies this
      ensures error == Lex(c, argv, 1, -2).error
      ensures Fit(Lex(c, argv, 1, -2).list, |c.groups|)
      ensures View() == PutAll(Lex(c, argv, 1, -2).list, |c.groups|)
    {
      var optindex: nat := 1;
      var dashdash: int := -2;
      ghost var ts: seq<Token> := [];
      ghost var all := Lex(c, argv, 1, -2);
      error := None;
      while optindex < |argv|
        invariant error == None && Fit(ts, |c.groups|) && View() == PutAll(ts, |c.groups|)
        invariant Reading(c, argv, all, ts, optindex, dashdash)
        decreases |argv| + 1 - optindex
      {
        ghost var r := ReadOne(c, argv, optindex, dashdash);
        ReadingStep(c, argv, all, ts, optindex, dashdash);
        var opt := argv[optindex];
        if opt == "--" {
          optindex := optindex + 1;
          dashdash := optindex;
          ts := ts + [Dashes];
        } else if opt == "" || opt[0] != '-' || |opt| == 1 || dashdash + 1 == optindex + 1 {
          FinishGroup(0, opt);
          optindex := optindex + 1;
          ts := ts + [File(opt)];
        } else {
          optindex, error := SplitOption(opt[1..], argv, optindex, dashdash);
          if error.Some? { return; }
          ts := ts + [r.token];
        }
      }
      assert ts + [] == ts;
    }
  }
}
