/**
 * What a command line means (cmdutils.c, split_commandline), stated without the splitter:
 * the items that an argument, or two, may be, what they look like, and what the lists of a
 * list of items hold. A command line is split exactly if it is made of such items, and
 * otherwise fails for a reason that stands right after the items before it.
 */
module CommandItems {
  import opened CommandLine
  import opened Wrappers

  datatype Item =
    | Dashes
    | File(name: string)                   // a file by itself, or after dashes
    | Ends(group: nat, name: string)       // a file after the option that ends its group, such as -i
    | Switch(opt: Opt)
    | Param(opt: Opt)                      // with an argument
    | Leave(opt: Opt)                      // an option such as -h, with an argument unless it comes last
    | Negation(opt: Opt)                   // -nofoo
    | Extra(av: AvOpt)                     // an AVOption with its value
  {
    predicate HasOpt() {
      Switch? || Param? || Leave? || Negation?
    }

    predicate EndsGroup() {
      File? || Ends?
    }
  }

  function Printed(cfg: Config, it: Item): (r: seq<string>) {
    match it
    case Dashes => ["--"]
    case File(name) => [name]
    case Ends(g, name) =>
      if g < |cfg.separators| && cfg.separators[g].Some? then ["-" + cfg.separators[g].value, name] else [name]
    case Switch(o) => ["-" + o.key]
    case Negation(o) => ["-" + o.key]
    case Param(o) => if o.val.Some? then ["-" + o.key, o.val.value] else ["-" + o.key]
    case Leave(o) => if o.val.Some? then ["-" + o.key, o.val.value] else ["-" + o.key]
    case Extra(a) => ["-" + a.key, a.val]
  }

  function PrintedAll(cfg: Config, items: seq<Item>): (r: seq<string>) {
    if items == [] then [] else Printed(cfg, items[0]) + PrintedAll(cfg, items[1..])
  }

  // ---- names ------------------------------------------------------------------------

  /** The name of the option, alone or with a stream specifier after a colon. */
  predicate NamedBy(d: OptionDef, name: string) {
    ':' !in d.name && (name == d.name || d.name + ":" <= name)
  }

  /** The first option of the table with this name. */
  ghost predicate Names(options: seq<OptionDef>, name: string, d: OptionDef) {
    exists i :: 0 <= i < |options| && options[i] == d && NamedBy(d, name) && NoneNamed(options[..i], name)
  }

  ghost predicate NoneNamed(options: seq<OptionDef>, name: string) {
    forall k :: 0 <= k < |options| ==> !NamedBy(options[k], name)
  }

  lemma {:induction false} BaseNameIs(name: string)
    ensures BaseName(name) <= name && ':' !in BaseName(name)
    ensures BaseName(name) == name || BaseName(name) + ":" <= name
  {
    if name != "" && name[0] != ':' {
      BaseNameIs(name[1..]);
      assert name == [name[0]] + name[1..];
    }
  }

  lemma NamedByIs(d: OptionDef, name: string)
    ensures NamedBy(d, name) <==> d.name == BaseName(name)
  {
    var base := BaseName(name);
    BaseNameIs(name);
    if NamedBy(d, name) {
      ColonEnds(d.name, base, name);
      ColonEnds(base, d.name, name);
    }
  }

  lemma ColonEnds(a: string, b: string, name: string)
    requires b <= name && (a == name || a + ":" <= name)
    ensures |a| < |b| ==> ':' in b
  {
    if |a| < |b| {
      assert b[|a|] == (a + ":")[|a|];
    }
  }

  /** find_option, said without it. */
  lemma {:induction false} FindsNamed(options: seq<OptionDef>, name: string)
    ensures FindOption(options, name).None? <==> NoneNamed(options, name)
    ensures forall d :: FindOption(options, name) == Some(d) <==> Names(options, name, d)
  {
    if options != [] {
      NamedByIs(options[0], name);
      FindsNamed(options[1..], name);
      assert options == [options[0]] + options[1..];
      if options[0].name == BaseName(name) {
        assert Names(options, name, options[0]) by {
          assert NoneNamed(options[..0], name);
        }
        forall d | Names(options, name, d) ensures d == options[0] {
          NamesFirst(options, name, d);
        }
      } else {
        forall d ensures Names(options, name, d) <==> Names(options[1..], name, d) {
          NamesLater(options, name, d);
        }
      }
    }
  }

  lemma NamesFirst(options: seq<OptionDef>, name: string, d: OptionDef)
    requires Names(options, name, d)
    ensures NamedBy(options[0], name) ==> d == options[0]
  {
    var i :| 0 <= i < |options| && options[i] == d && NamedBy(d, name) && NoneNamed(options[..i], name);
    if i > 0 {
      assert options[..i][0] == options[0];
    }
  }

  lemma NamesLater(options: seq<OptionDef>, name: string, d: OptionDef)
    requires options != [] && !NamedBy(options[0], name)
    ensures Names(options, name, d) <==> Names(options[1..], name, d)
    ensures NoneNamed(options, name) <==> NoneNamed(options[1..], name)
  {
    assert forall k :: 0 < k < |options| ==> options[k] == options[1..][k - 1];
    if Names(options, name, d) {
      var i :| 0 <= i < |options| && options[i] == d && NamedBy(d, name) && NoneNamed(options[..i], name);
      assert options[1..][..i - 1] == options[..i][1..];
      assert options[1..][i - 1] == d;
    }
    if Names(options[1..], name, d) {
      var i :| 0 <= i < |options[1..]| && options[1..][i] == d && NamedBy(d, name)
               && NoneNamed(options[1..][..i], name);
      assert options[..i + 1] == [options[0]] + options[1..][..i];
      assert NoneNamed(options[..i + 1], name);
    }
  }

  // ---- what may stand where ---------------------------------------------------------------

  /** What follows a dash, if the whole is an option. */
  predicate IsKey(key: string) {
    key != "" && key != "-"
  }

  ghost predicate Separates(cfg: Config, g: nat, key: string) {
    && g < |cfg.separators| && cfg.separators[g] == Some(key)
    && forall k :: 0 <= k < g ==> cfg.separators[k] != Some(key)
  }

  ghost predicate NoSeparator(cfg: Config, key: string) {
    forall k :: 0 <= k < |cfg.separators| ==> cfg.separators[k] != Some(key)
  }

  ghost predicate OptionOf(cfg: Config, key: string, d: OptionDef) {
    IsKey(key) && NoSeparator(cfg, key) && Names(cfg.options, key, d)
  }

  /** Neither the end of a group nor an option of the program. */
  ghost predicate Foreign(cfg: Config, key: string) {
    IsKey(key) && NoSeparator(cfg, key) && NoneNamed(cfg.options, key)
  }

  ghost predicate Negates(cfg: Config, key: string, d: OptionDef) {
    |key| >= 2 && key[..2] == "no" && Names(cfg.options, key[2..], d) && d.boolean
  }

  ghost predicate NegatesNone(cfg: Config, key: string) {
    forall d :: d in cfg.options ==> !Negates(cfg, key, d)
  }

  predicate LooksLikeFile(name: string) {
    name == "" || name == "-" || name[0] != '-'
  }

  /** May the item stand here, right after dashes or not, and before what is next? */
  ghost predicate Reads(cfg: Config, it: Item, dashed: bool, next: Option<string>) {
    match it
    case Dashes => true
    case File(name) => name != "--" && (dashed || LooksLikeFile(name))
    case Ends(g, name) => !dashed && exists key :: IsKey(key) && Separates(cfg, g, key)
    case Switch(o) => !dashed && OptionOf(cfg, o.key, o.def) && !o.def.exit && !o.def.hasArg && o.val == Some("1")
    case Param(o) => !dashed && OptionOf(cfg, o.key, o.def) && !o.def.exit && o.def.hasArg && o.val.Some?
    case Leave(o) => !dashed && OptionOf(cfg, o.key, o.def) && o.def.exit && (o.val.None? ==> next.None?)
    case Negation(o) =>
      && !dashed && Foreign(cfg, o.key) && Negates(cfg, o.key, o.def) && o.val == Some("0")
      && (next.Some? ==> !cfg.known(o.key))
    case Extra(a) => !dashed && Foreign(cfg, a.key) && cfg.known(a.key) && !cfg.refuses(a.key, a.val)
  }

  /** May the items stand before this tail? */
  ghost predicate AllRead(cfg: Config, items: seq<Item>, dashed: bool, tail: seq<string>) {
    items == [] || (&& Reads(cfg, items[0], dashed, First(PrintedAll(cfg, items[1..]) + tail))
                    && AllRead(cfg, items[1..], items[0].Dashes?, tail))
  }

  predicate LastDashes(items: seq<Item>, dashed: bool) {
    if items == [] then dashed else items[|items| - 1].Dashes?
  }

  /** Why splitting fails at the start of the tail. */
  ghost predicate Faulty(cfg: Config, tail: seq<string>, error: Result) {
    match error
    case Split(_) => false
    case MissingArgument(key) =>
      && tail == ["-" + key] && IsKey(key)
      && (|| !NoSeparator(cfg, key)
          || exists d :: d in cfg.options && OptionOf(cfg, key, d) && !d.exit && d.hasArg)
    case Refused(key) =>
      |tail| >= 2 && tail[0] == "-" + key && Foreign(cfg, key) && cfg.known(key) && cfg.refuses(key, tail[1])
    case Unrecognized(key) =>
      && tail != [] && tail[0] == "-" + key && Foreign(cfg, key) && NegatesNone(cfg, key)
      && (|tail| >= 2 ==> !cfg.known(key))
  }

  // ---- what items mean ----------------------------------------------------------------------

  /** The options of the program that are for a file, or that are not, in order. */
  function OptsOf(items: seq<Item>, perFile: bool): (r: seq<Opt>) {
    if items == [] then []
    else
      var last := items[|items| - 1];
      OptsOf(items[..|items| - 1], perFile)
      + if last.HasOpt() && last.opt.def.perFile == perFile then [last.opt] else []
  }

  function AvsOf(items: seq<Item>): (r: seq<AvOpt>) {
    if items == [] then []
    else
      var last := items[|items| - 1];
      AvsOf(items[..|items| - 1]) + if last.Extra? then [last.av] else []
  }

  /** What comes after the last file. */
  function SinceFile(items: seq<Item>): (r: seq<Item>) {
    if items == [] || items[|items| - 1].EndsGroup() then []
    else SinceFile(items[..|items| - 1]) + [items[|items| - 1]]
  }

  /** The files of a list, each with the options since the file before it, of whatever list that is. */
  function FilesOf(items: seq<Item>, g: nat): (r: seq<Group>) {
    if items == [] then []
    else
      var before, last := items[..|items| - 1], items[|items| - 1];
      FilesOf(before, g)
      + if last.EndsGroup() && g == (if last.Ends? then last.group else 0)
        then [Group(last.name, OptsOf(SinceFile(before), true), AvsOf(SinceFile(before)))]
        else []
  }

  function Lists(cfg: Config, items: seq<Item>): (r: seq<seq<Group>>)
    ensures |r| == |cfg.separators|
  {
    seq(|cfg.separators|, g requires 0 <= g => FilesOf(items, g))
  }

  function Meaning(cfg: Config, items: seq<Item>): (c: Context) {
    Context(OptsOf(items, false), Lists(cfg, items), OptsOf(SinceFile(items), true), AvsOf(SinceFile(items)))
  }

  // ---- one item at a time ---------------------------------------------------------------------

  function Applied(cfg: Config, c: Context, it: Item): (r: Context)
    requires Fits(cfg, c) && (it.Ends? ==> it.group < |cfg.separators|)
    ensures Fits(cfg, r)
  {
    match it
    case Dashes => c
    case File(name) => Finished(c, 0, name)
    case Ends(g, name) => Finished(c, g, name)
    case Extra(a) => WithAv(c, a)
    case Switch(o) => Added(c, o)
    case Param(o) => Added(c, o)
    case Leave(o) => Added(c, o)
    case Negation(o) => Added(c, o)
  }

  lemma NextFiles(items: seq<Item>, it: Item, g: nat)
    ensures FilesOf(items + [it], g) ==
            FilesOf(items, g)
            + if it.EndsGroup() && g == (if it.Ends? then it.group else 0)
              then [Group(it.name, OptsOf(SinceFile(items), true), AvsOf(SinceFile(items)))]
              else []
  {
    var all := items + [it];
    assert all[..|all| - 1] == items && all[|all| - 1] == it;
  }

  lemma NextLists(cfg: Config, items: seq<Item>, it: Item)
    ensures var g := if it.Ends? then it.group else 0;
            var before := Lists(cfg, items);
            Lists(cfg, items + [it]) ==
            if !it.EndsGroup() || g >= |before| then before
            else before[g := before[g] + [Group(it.name, OptsOf(SinceFile(items), true), AvsOf(SinceFile(items)))]]
  {
    hide FilesOf, OptsOf, AvsOf, SinceFile;
    var g := if it.Ends? then it.group else 0;
    var before := Lists(cfg, items);
    forall k | 0 <= k < |cfg.separators|
      ensures Lists(cfg, items + [it])[k] ==
              if !it.EndsGroup() || g != k then before[k]
              else before[k] + [Group(it.name, OptsOf(SinceFile(items), true), AvsOf(SinceFile(items)))]
    {
      NextFiles(items, it, k);
    }
  }

  lemma NextOpts(items: seq<Item>, it: Item, perFile: bool)
    ensures OptsOf(items + [it], perFile) ==
            OptsOf(items, perFile) + if it.HasOpt() && it.opt.def.perFile == perFile then [it.opt] else []
    ensures AvsOf(items + [it]) == AvsOf(items) + if it.Extra? then [it.av] else []
    ensures SinceFile(items + [it]) == if it.EndsGroup() then [] else SinceFile(items) + [it]
  {
    var all := items + [it];
    assert all[..|all| - 1] == items && all[|all| - 1] == it;
  }

  lemma NextMeaning(cfg: Config, items: seq<Item>, it: Item)
    requires |cfg.separators| > 0 && (it.Ends? ==> it.group < |cfg.separators|)
    ensures Meaning(cfg, items + [it]) == Applied(cfg, Meaning(cfg, items), it)
  {
    hide FilesOf, Lists, SinceFile, OptsOf, AvsOf;
    NextLists(cfg, items, it);
    NextOpts(items, it, false);
    NextOpts(SinceFile(items), it, true);
    NoOpts();
  }

  lemma NoOpts()
    ensures OptsOf([], true) == [] && AvsOf([]) == []
  {
  }

  lemma SeparatorToken(cfg: Config, g: nat, key: string)
    requires Separates(cfg, g, key)
    ensures MatchSeparator(cfg.separators, key) == g
  {
  }

  lemma NoSeparatorToken(cfg: Config, key: string)
    ensures NoSeparator(cfg, key) <==> MatchSeparator(cfg.separators, key) == |cfg.separators|
  {
  }

  lemma NegatesIs(cfg: Config, key: string)
    ensures Negated(cfg.options, key) <==> !NegatesNone(cfg, key)
    ensures forall d :: Negates(cfg, key, d) <==>
                        Negated(cfg.options, key) && FindOption(cfg.options, key[2..]) == Some(d)
  {
    if |key| >= 2 {
      FindsNamed(cfg.options, key[2..]);
    }
    hide FindOption, NamedBy;
    if Negated(cfg.options, key) {
      assert Negates(cfg, key, FindOption(cfg.options, key[2..]).value);
    }
  }

  /** An option of the program, an AVOption or a negation, by what its key names. */
  lemma KeyNamed(cfg: Config, key: string, next: Option<string>)
    requires IsKey(key) && NoSeparator(cfg, key)
    ensures var d := FindOption(cfg.options, key);
            Named(cfg, key, next) ==
            if d.Some? then
              if d.value.exit then
                if next.None? then Plain(Opt(d.value, key, None)) else WithArg(Opt(d.value, key, next))
              else if !d.value.hasArg then Plain(Opt(d.value, key, Some("1")))
              else if next.None? then Bad(MissingArgument(key))
              else WithArg(Opt(d.value, key, next))
            else if next.Some? && cfg.known(key) then
              if cfg.refuses(key, next.value) then Bad(Refused(key)) else Token.Av(AvOpt(key, next.value))
            else if Negated(cfg.options, key) then Plain(Opt(FindOption(cfg.options, key[2..]).value, key, Some("0")))
            else Bad(Unrecognized(key))
  {
    hide FindOption, Negated;
    NoSeparatorToken(cfg, key);
  }

  /** The token that splitting sees in an item. */
  ghost predicate Seen(cfg: Config, it: Item, t: Token) {
    match it
    case Dashes => t.Dashes?
    case File(name) => t.File?
    case Ends(g, name) => t == Token.Ends(g)
    case Switch(o) => t == Plain(o)
    case Negation(o) => t == Plain(o)
    case Param(o) => t == WithArg(o)
    case Leave(o) => t == if o.val.Some? then WithArg(o) else Plain(o)
    case Extra(a) => t == Token.Av(a)
  }

  lemma FirstAfter(p: seq<string>, rest: seq<string>)
    requires 1 <= |p| <= 2
    ensures First((p + rest)[1..]) == if |p| == 2 then Some(p[1]) else First(rest)
    ensures (p + rest)[|p|..] == rest
  {
  }

  lemma ItemSeen(cfg: Config, it: Item, dashed: bool, rest: seq<string>)
    requires Reads(cfg, it, dashed, First(rest))
    ensures var args := Printed(cfg, it) + rest;
            Seen(cfg, it, Classify(cfg, args[0], First(args[1..]), dashed))
  {
    var args := Printed(cfg, it) + rest;
    var next := First(args[1..]);
    match it {
      case Dashes =>
      case File(name) =>
      case Ends(g, name) =>
        var key :| IsKey(key) && Separates(cfg, g, key);
        SeparatorToken(cfg, g, key);
        KeyToken(cfg, key, next);
      case Extra(a) =>
        KeyToken(cfg, a.key, next);
        KeyNamed(cfg, a.key, next);
        FindsNamed(cfg.options, a.key);
      case _ =>
        FirstAfter(Printed(cfg, it), rest);
        KeyToken(cfg, it.opt.key, next);
        KeyNamed(cfg, it.opt.key, next);
        FindsNamed(cfg.options, it.opt.key);
        NegatesIs(cfg, it.opt.key);
    }
  }

  lemma ItemStep(cfg: Config, it: Item, dashed: bool, rest: seq<string>, c: Context)
    requires Fits(cfg, c) && Reads(cfg, it, dashed, First(rest))
    ensures it.Ends? ==> it.group < |cfg.separators|
    ensures SplitRest(cfg, Printed(cfg, it) + rest, dashed, c) ==
            SplitRest(cfg, rest, it.Dashes?, Applied(cfg, c, it))
  {
    var args := Printed(cfg, it) + rest;
    ItemSeen(cfg, it, dashed, rest);
    SplitStep(cfg, args, dashed, c);
    hide Classify, SplitRest, Added, Finished, NamedBy, NoneNamed, Names, NoSeparator, NegatesNone;
    assert |Printed(cfg, it)| == 1 ==> args[1..] == rest;
    assert |Printed(cfg, it)| == 2 ==> args[1..][1..] == rest && args[1..][0] == Printed(cfg, it)[1];
  }

  // ---- command lines ------------------------------------------------------------------------

  lemma {:induction false} ItemsStep(cfg: Config, before: seq<Item>, items: seq<Item>, dashed: bool, tail: seq<string>)
    requires |cfg.separators| > 0 && AllRead(cfg, items, dashed, tail)
    ensures SplitRest(cfg, PrintedAll(cfg, items) + tail, dashed, Meaning(cfg, before)) ==
            SplitRest(cfg, tail, LastDashes(items, dashed), Meaning(cfg, before + items))
    decreases |items|
  {
    hide SplitRest, Meaning, Reads, Printed;
    if items == [] {
      assert before + items == before && PrintedAll(cfg, items) + tail == tail;
    } else {
      var rest := PrintedAll(cfg, items[1..]) + tail;
      assert PrintedAll(cfg, items) + tail == Printed(cfg, items[0]) + rest;
      MeaningFits(cfg, before);
      ItemStep(cfg, items[0], dashed, rest, Meaning(cfg, before));
      NextMeaning(cfg, before, items[0]);
      ItemsStep(cfg, before + [items[0]], items[1..], items[0].Dashes?, tail);
      assert before + [items[0]] + items[1..] == before + items;
    }
  }

  lemma MeaningFits(cfg: Config, items: seq<Item>)
    requires |cfg.separators| > 0
    ensures Fits(cfg, Meaning(cfg, items))
  {
  }

  lemma NothingMeant(cfg: Config)
    ensures Meaning(cfg, []) == Empty(cfg)
  {
    assert Lists(cfg, []) == Empty(cfg).groups;
  }

  /** Every list of items is split into what it means. */
  lemma ItemsSplit(cfg: Config, items: seq<Item>)
    requires |cfg.separators| > 0 && AllRead(cfg, items, false, [])
    ensures SplitAll(cfg, PrintedAll(cfg, items)) == Split(Meaning(cfg, items))
  {
    hide PrintedAll, Meaning, SplitRest, AllRead;
    NothingMeant(cfg);
    ItemsStep(cfg, [], items, false, []);
    assert [] + items == items && PrintedAll(cfg, items) + [] == PrintedAll(cfg, items);
    MeaningFits(cfg, items);
    NothingLeft(cfg, Meaning(cfg, items));
  }

  /** After any list of items splitting fails for the reason that comes next. */
  lemma FaultFails(cfg: Config, items: seq<Item>, tail: seq<string>, error: Result)
    requires |cfg.separators| > 0 && AllRead(cfg, items, false, tail) && !LastDashes(items, false)
    requires Faulty(cfg, tail, error)
    ensures SplitAll(cfg, PrintedAll(cfg, items) + tail) == error
  {
    hide PrintedAll, Meaning, SplitRest, AllRead, Faulty, Step;
    NothingMeant(cfg);
    ItemsStep(cfg, [], items, false, tail);
    assert [] + items == items;
    MeaningFits(cfg, items);
    FaultStops(cfg, tail, error, Meaning(cfg, items));
    SplitStep(cfg, tail, false, Meaning(cfg, items));
  }

  lemma FaultStops(cfg: Config, tail: seq<string>, error: Result, c: Context)
    requires Fits(cfg, c) && Faulty(cfg, tail, error)
    ensures tail != [] && Step(cfg, tail, false, c) == Stop(error)
  {
    var key := error.key;
    KeyToken(cfg, key, First(tail[1..]));
    NoSeparatorToken(cfg, key);
    FindsNamed(cfg.options, key);
    NegatesIs(cfg, key);
    hide FindOption, MatchSeparator, Classify, Negated, NamedBy;
    if NoSeparator(cfg, key) {
      KeyNamed(cfg, key, First(tail[1..]));
    }
  }

  /** The item that a token was seen in. */
  function ItemOf(t: Token, args: seq<string>): (it: Item)
    requires args != [] && !t.Bad? && (t.TakesNext() ==> |args| > 1)
  {
    match t
    case Dashes => Item.Dashes
    case File => Item.File(args[0])
    case Ends(g) => Item.Ends(g, args[1])
    case Plain(o) =>
      if o.def.exit && o.val.None? then Leave(o) else if o.val == Some("1") then Switch(o) else Negation(o)
    case WithArg(o) => if o.def.exit then Leave(o) else Param(o)
    case Av(a) => Extra(a)
  }

  lemma ArgIs(arg: string)
    requires |arg| > 1 && arg[0] == '-'
    ensures arg == "-" + arg[1..] && (arg == "--" || IsKey(arg[1..]))
  {
    assert arg == "-" + arg[1..];
  }

  /** An option of the program, an AVOption or a negation stands for an item, or for a fault. */
  lemma KeyRead(cfg: Config, args: seq<string>, key: string)
    requires args != [] && args[0] == "-" + key && IsKey(key) && NoSeparator(cfg, key)
    ensures var t := Named(cfg, key, First(args[1..]));
            if t.Bad? then Faulty(cfg, args, t.error)
            else
              && (t.Plain? || t.TakesNext())
              && var it := ItemOf(t, args);
              var rest := args[(if t.TakesNext() then 2 else 1)..];
              Reads(cfg, it, false, First(rest)) && Printed(cfg, it) + rest == args
  {
    KeyNamed(cfg, key, First(args[1..]));
    FindsNamed(cfg.options, key);
    NegatesIs(cfg, key);
    assert args == ["-" + key] + args[1..];
    assert |args| > 1 ==> args == ["-" + key, args[1]] + args[2..];
    hide FindOption, Negated, NamedBy, NoSeparator, NoneNamed;
    if FindOption(cfg.options, key).Some? {
      var d := FindOption(cfg.options, key).value;
      assert Names(cfg.options, key, d) && d in cfg.options;
    }
  }

  lemma TokenRead(cfg: Config, args: seq<string>, dashed: bool)
    requires args != []
    ensures var t := Classify(cfg, args[0], First(args[1..]), dashed);
            if t.Bad? then !dashed && Faulty(cfg, args, t.error)
            else
              var it := ItemOf(t, args);
              var rest := args[(if t.TakesNext() then 2 else 1)..];
              Reads(cfg, it, dashed, First(rest)) && Printed(cfg, it) + rest == args
  {
    var t := Classify(cfg, args[0], First(args[1..]), dashed);
    assert args == [args[0]] + args[1..];
    assert |args| > 1 ==> args == [args[0], args[1]] + args[2..];
    if !t.Dashes? && !t.File? {
      var key := args[0][1..];
      ArgIs(args[0]);
      NoSeparatorToken(cfg, key);
      if NoSeparator(cfg, key) {
        KeyRead(cfg, args, key);
      } else {
        assert Separates(cfg, MatchSeparator(cfg.separators, key), key);
      }
    }
  }

  lemma {:induction false} RestRead(cfg: Config, args: seq<string>, dashed: bool, before: seq<Item>)
    returns (items: seq<Item>, tail: seq<string>)
    requires |cfg.separators| > 0
    ensures args == PrintedAll(cfg, items) + tail && AllRead(cfg, items, dashed, tail)
    ensures var r := SplitRest(cfg, args, dashed, Meaning(cfg, before));
            if tail == [] then r == Split(Meaning(cfg, before + items))
            else !LastDashes(items, dashed) && Faulty(cfg, tail, r)
    decreases |args|
  {
    hide SplitRest, Meaning, Reads, Printed, Classify, Faulty;
    MeaningFits(cfg, before);
    items, tail := [], args;
    assert PrintedAll(cfg, []) + args == args && before + [] == before;
    if args == [] {
      NothingLeft(cfg, Meaning(cfg, before));
    } else {
      var t := Classify(cfg, args[0], First(args[1..]), dashed);
      TokenRead(cfg, args, dashed);
      if t.Bad? {
        SplitStep(cfg, args, dashed, Meaning(cfg, before));
      } else {
        var it := ItemOf(t, args);
        var rest := args[(if t.TakesNext() then 2 else 1)..];
        ItemStep(cfg, it, dashed, rest, Meaning(cfg, before));
        NextMeaning(cfg, before, it);
        var more;
        more, tail := RestRead(cfg, rest, it.Dashes?, before + [it]);
        items := [it] + more;
        ItemBefore(cfg, it, more, dashed, tail);
        assert before + [it] + more == before + items;
        assert args == PrintedAll(cfg, items) + tail;
      }
    }
  }

  lemma ItemBefore(cfg: Config, it: Item, more: seq<Item>, dashed: bool, tail: seq<string>)
    ensures PrintedAll(cfg, [it] + more) + tail == Printed(cfg, it) + (PrintedAll(cfg, more) + tail)
    ensures Reads(cfg, it, dashed, First(PrintedAll(cfg, more) + tail)) && AllRead(cfg, more, it.Dashes?, tail)
            ==> AllRead(cfg, [it] + more, dashed, tail)
    ensures LastDashes([it] + more, dashed) == LastDashes(more, it.Dashes?)
  {
    hide Printed, Reads;
    assert ([it] + more)[1..] == more;
  }

  /** Every command line is a list of items and is split into what they mean, or one before a fault. */
  lemma LineRead(cfg: Config, args: seq<string>) returns (items: seq<Item>, tail: seq<string>)
    requires |cfg.separators| > 0
    ensures args == PrintedAll(cfg, items) + tail && AllRead(cfg, items, false, tail)
    ensures if tail == [] then SplitAll(cfg, args) == Split(Meaning(cfg, items))
            else !LastDashes(items, false) && Faulty(cfg, tail, SplitAll(cfg, args))
  {
    hide PrintedAll, Meaning, SplitRest, AllRead, Faulty, LastDashes;
    NothingMeant(cfg);
    items, tail := RestRead(cfg, args, false, []);
    assert [] + items == items;
  }

  ghost predicate IsMade(cfg: Config, args: seq<string>, items: seq<Item>, tail: seq<string>) {
    AllRead(cfg, items, false, tail) && args == PrintedAll(cfg, items) + tail
  }

  /** A command line is split into these lists exactly if it is made of items that mean them. */
  lemma SplitsIff(cfg: Config, args: seq<string>, c: Context)
    requires |cfg.separators| > 0
    ensures SplitAll(cfg, args) == Split(c) <==>
            exists items :: IsMade(cfg, args, items, []) && Meaning(cfg, items) == c
  {
    hide PrintedAll, Meaning, AllRead, SplitAll, LastDashes;
    if SplitAll(cfg, args) == Split(c) {
      var items, tail := LineRead(cfg, args);
      assert IsMade(cfg, args, items, []);
    }
    forall items | IsMade(cfg, args, items, []) ensures SplitAll(cfg, args) == Split(Meaning(cfg, items)) {
      ItemsSplit(cfg, items);
      assert args == PrintedAll(cfg, items);
    }
  }

  /** It fails with an error exactly if that stands after such items, not right after dashes. */
  lemma FailsIff(cfg: Config, args: seq<string>, error: Result)
    requires |cfg.separators| > 0 && !error.Split?
    ensures SplitAll(cfg, args) == error <==>
            exists items, tail ::
              IsMade(cfg, args, items, tail) && !LastDashes(items, false) && Faulty(cfg, tail, error)
  {
    hide PrintedAll, Meaning, AllRead, SplitAll, LastDashes, Faulty;
    if SplitAll(cfg, args) == error {
      var items, tail := LineRead(cfg, args);
      assert IsMade(cfg, args, items, tail);
    }
    forall items, tail |
      IsMade(cfg, args, items, tail) && !LastDashes(items, false) && Faulty(cfg, tail, error)
      ensures SplitAll(cfg, args) == error
    {
      FaultFails(cfg, items, tail, error);
    }
  }
}
