/**
 * Splitting the command line into global options and groups of options for each
 * input and output (cmdutils.c, find_option, match_group_separator, finish_group,
 * add_opt, split_commandline), and a printer for what was split.
 *
 * Which names are options of the libraries (AVOptions), and which of their values are
 * refused, is left to the configuration.
 */
module CommandLine {
  import opened Wrappers

  datatype OptionDef = OptionDef(name: string, hasArg: bool, exit: bool, boolean: bool, perFile: bool)

  datatype Config = Config(
    options: seq<OptionDef>,
    separators: seq<Option<string>>,        // of the groups; the first is for arguments without one
    known: string -> bool,                  // is there an AVOption of this name?
    refuses: (string, string) -> bool)      // does it refuse this value?

  datatype Opt = Opt(def: OptionDef, key: string, val: Option<string>)  // None for NULL

  datatype AvOpt = AvOpt(key: string, val: string)

  /** The options of a file, and the file. */
  datatype Group = Group(arg: string, opts: seq<Opt>, av: seq<AvOpt>)

  /** What has been split: the options since the last file are still without one. */
  datatype Context = Context(globals: seq<Opt>, groups: seq<seq<Group>>, opts: seq<Opt>, av: seq<AvOpt>)

  datatype Result =
    | Split(context: Context)
    | MissingArgument(key: string)
    | Unrecognized(key: string)
    | Refused(key: string)

  // ---- lookup -----------------------------------------------------------------------

  /** The name without its stream specifier. */
  function BaseName(name: string): (r: string) {
    if name == "" || name[0] == ':' then "" else [name[0]] + BaseName(name[1..])
  }

  function FindOption(options: seq<OptionDef>, name: string): (r: Option<OptionDef>) {
    if options == [] then None
    else if options[0].name == BaseName(name) then Some(options[0])
    else FindOption(options[1..], name)
  }

  /** The index of the group that this option ends; their number if there is none. */
  function MatchSeparator(separators: seq<Option<string>>, opt: string): (i: nat)
    ensures i <= |separators|
    ensures i < |separators| ==> separators[i] == Some(opt)
    ensures forall k :: 0 <= k < i ==> separators[k] != Some(opt)
  {
    if separators == [] then 0
    else if separators[0] == Some(opt) then 0
    else 1 + MatchSeparator(separators[1..], opt)
  }

  // ---- splitting ----------------------------------------------------------------------

  function Finished(c: Context, i: nat, arg: string): (r: Context)
    requires i < |c.groups|
  {
    c.(groups := c.groups[i := c.groups[i] + [Group(arg, c.opts, c.av)]], opts := [], av := [])
  }

  function Added(c: Context, o: Opt): (r: Context) {
    if o.def.perFile then c.(opts := c.opts + [o]) else c.(globals := c.globals + [o])
  }

  function WithAv(c: Context, a: AvOpt): (r: Context) {
    c.(av := c.av + [a])
  }

  predicate Negated(options: seq<OptionDef>, key: string) {
    && |key| >= 2 && key[0] == 'n' && key[1] == 'o'
    && var d := FindOption(options, key[2..]);
    d.Some? && d.value.boolean
  }

  /** What an argument is, given the one after it. */
  datatype Token =
    | Dashes
    | File
    | Ends(group: nat)        // with the next argument
    | Plain(opt: Opt)
    | WithArg(opt: Opt)       // the next argument
    | Av(av: AvOpt)           // with the next argument
    | Bad(error: Result)
  {
    predicate TakesNext() {
      Ends? || WithArg? || Av?
    }
  }

  function Classify(cfg: Config, opt: string, next: Option<string>, afterDashes: bool): (t: Token)
    ensures t.TakesNext() ==> next.Some?
    ensures t.Ends? ==> t.group < |cfg.separators|
    ensures t.Bad? ==> !t.error.Split?
  {
    if opt == "--" then Dashes
    else if opt == "" || opt[0] != '-' || opt == "-" || afterDashes then File
    else Named(cfg, opt[1..], next)
  }

  function Named(cfg: Config, key: string, next: Option<string>): (t: Token)
    ensures t.TakesNext() ==> next.Some?
    ensures t.Ends? ==> t.group < |cfg.separators|
    ensures t.Bad? ==> !t.error.Split?
  {
    var group := MatchSeparator(cfg.separators, key);
    var def := FindOption(cfg.options, key);
    if group < |cfg.separators| then
      if next.None? then Bad(MissingArgument(key)) else Ends(group)
    else if def.Some? then
      if def.value.exit then
        if next.None? then Plain(Opt(def.value, key, None)) else WithArg(Opt(def.value, key, next))
      else if def.value.hasArg then
        if next.None? then Bad(MissingArgument(key)) else WithArg(Opt(def.value, key, next))
      else Plain(Opt(def.value, key, Some("1")))
    else if next.Some? && cfg.known(key) then
      if cfg.refuses(key, next.value) then Bad(Refused(key)) else Av(AvOpt(key, next.value))
    else if Negated(cfg.options, key) then Plain(Opt(FindOption(cfg.options, key[2..]).value, key, Some("0")))
    else Bad(Unrecognized(key))
  }

  function First(args: seq<string>): (r: Option<string>) {
    if args == [] then None else Some(args[0])
  }

  predicate Fits(cfg: Config, c: Context) {
    |c.groups| == |cfg.separators| > 0
  }

  /** What is left of the command line when its first argument has been dealt with. */
  datatype Next = Go(args: seq<string>, afterDashes: bool, context: Context) | Stop(error: Result)

  function Step(cfg: Config, args: seq<string>, afterDashes: bool, c: Context): (n: Next)
    requires Fits(cfg, c) && args != []
    ensures n.Go? ==> |n.args| < |args| && Fits(cfg, n.context)
    ensures n.Stop? ==> !n.error.Split?
  {
    var rest := args[1..];
    match Classify(cfg, args[0], First(rest), afterDashes)
    case Dashes => Go(rest, true, c)
    case File => Go(rest, false, Finished(c, 0, args[0]))
    case Ends(group) => Go(rest[1..], false, Finished(c, group, rest[0]))
    case Plain(o) => Go(rest, false, Added(c, o))
    case WithArg(o) => Go(rest[1..], false, Added(c, o))
    case Av(a) => Go(rest[1..], false, WithAv(c, a))
    case Bad(error) => Stop(error)
  }

  /** The rest of the command line, after dashes or not, on top of what has been split. */
  function SplitRest(cfg: Config, args: seq<string>, afterDashes: bool, c: Context): (r: Result)
    requires Fits(cfg, c)
    decreases |args|
  {
    if args == [] then Split(c)
    else
      match Step(cfg, args, afterDashes, c)
      case Go(rest, dashes, next) => SplitRest(cfg, rest, dashes, next)
      case Stop(error) => error
  }

  lemma SplitStep(cfg: Config, args: seq<string>, afterDashes: bool, c: Context)
    requires Fits(cfg, c) && args != []
    ensures SplitRest(cfg, args, afterDashes, c) ==
            match Step(cfg, args, afterDashes, c)
            case Go(rest, dashes, next) => SplitRest(cfg, rest, dashes, next)
            case Stop(error) => error
  {
  }

  lemma NothingLeft(cfg: Config, c: Context)
    requires Fits(cfg, c)
    ensures SplitRest(cfg, [], false, c) == Split(c) == SplitRest(cfg, [], true, c)
  {
  }

  function Empty(cfg: Config): (r: Context) {
    Context([], seq(|cfg.separators|, _ => []), [], [])
  }

  /** The arguments are those after the program's name. */
  function SplitAll(cfg: Config, args: seq<string>): (r: Result)
    requires |cfg.separators| > 0
  {
    SplitRest(cfg, args, false, Empty(cfg))
  }

  // ---- the program ---------------------------------------------------------------------

  class OptionParseContext {
    const cfg: Config
    var globals: seq<Opt>
    var groups: seq<seq<Group>>
    var opts: seq<Opt>   // of the current group
    var av: seq<AvOpt>   // the dictionaries of AVOptions, before a group takes them

    function Contents(): (r: Context)
      reads this
    {
      Context(globals, groups, opts, av)
    }

    predicate Valid()
      reads this
    {
      Fits(cfg, Contents())
    }

    constructor (cfg: Config)
      requires |cfg.separators| > 0
      ensures Valid() && this.cfg == cfg && Contents() == Empty(cfg)
    {
      this.cfg := cfg;
      globals, opts, av := [], [], [];
      groups := seq(|cfg.separators|, _ => []);
    }

    method FinishGroup(i: nat, arg: string)
      requires Valid() && i < |groups|
      modifies this
      ensures Valid() && Contents() == Finished(old(Contents()), i, arg)
    {
      groups := groups[i := groups[i] + [Group(arg, opts, av)]];
      opts, av := [], [];
    }

    method AddOpt(o: Opt)
      requires Valid()
      modifies this
      ensures Valid() && Contents() == Added(old(Contents()), o)
    {
      if !o.def.perFile {
        globals := globals + [o];
      } else {
        opts := opts + [o];
      }
    }

    /** An option of the program, with the argument at optindex if it takes one: the next index, or an error. */
    method TakeOption(argv: seq<string>, optindex: nat, def: OptionDef, key: string)
      returns (error: Option<Result>, next: nat)
      requires Valid() && optindex <= |argv|
      modifies this
      ensures Valid() && optindex <= next <= |argv|
      ensures var arg := First(argv[optindex..]);
              var takes := def.exit || def.hasArg;
              if !def.exit && def.hasArg && arg.None? then
                error == Some(MissingArgument(key)) && Contents() == old(Contents())
              else
                && error == None && next == (if takes && arg.Some? then optindex + 1 else optindex)
                && Contents() == Added(old(Contents()), Opt(def, key, if takes then arg else Some("1")))
    {
      error, next := None, optindex;
      if def.exit {
        var val := None;
        if next < |argv| {
          val := Some(argv[next]);
          next := next + 1;
        }
        AddOpt(Opt(def, key, val));
      } else if def.hasArg {
        if next == |argv| {
          return Some(MissingArgument(key)), next;
        }
        next := next + 1;
        AddOpt(Opt(def, key, Some(argv[next - 1])));
      } else {
        AddOpt(Opt(def, key, Some("1")));
      }
    }

    /** None when there is no error. */
    method SplitCommandline(argv: seq<string>) returns (error: Option<Result>)
      requires |cfg.separators| > 0 && |argv| > 0
      modifies this
      ensures Valid()
      ensures var r := SplitAll(cfg, argv[1..]);
              if r.Split? then error == None && Contents() == r.context else error == Some(r)
    {
      hide FindOption, BaseName, MatchSeparator, SplitRest, Added, Finished;
      var argc := |argv|;
      var optindex := 1;
      var dashdash := -2;
      globals, opts, av := [], [], [];
      groups := seq(|cfg.separators|, _ => []);
      ghost var all := SplitAll(cfg, argv[1..]);
      hide SplitAll, Empty;
      while optindex < argc
        invariant 1 <= optindex <= argc && dashdash <= optindex && Valid()
        invariant SplitRest(cfg, argv[optindex..], dashdash == optindex, Contents()) == all
      {
        var opt := argv[optindex];
        ghost var rest := argv[optindex..][1..];
        assert rest == argv[optindex + 1..];
        assert rest != [] ==> rest[0] == argv[optindex + 1] && rest[1..] == argv[optindex + 2..];
        SplitStep(cfg, argv[optindex..], dashdash == optindex, Contents());
        optindex := optindex + 1;
        if opt == "--" {
          dashdash := optindex;
          continue;
        }
        if opt == "" || opt[0] != '-' || |opt| == 1 || dashdash + 1 == optindex {
          FinishGroup(0, opt);
          continue;
        }
        var key := opt[1..];
        var group := MatchGroupSeparator(cfg.separators, key);
        if group >= 0 {
          if optindex == argc {
            return Some(MissingArgument(key));
          }
          optindex := optindex + 1;
          FinishGroup(group, argv[optindex - 1]);
          continue;
        }
        var po := LookUp(cfg.options, key);
        if po < |cfg.options| {
          var def := cfg.options[po];
          error, optindex := TakeOption(argv, optindex, def, key);
          if error.Some? {
            return;
          }
          continue;
        }
        if optindex < argc && cfg.known(key) {
          if cfg.refuses(key, argv[optindex]) {
            return Some(Refused(key));
          }
          av := av + [AvOpt(key, argv[optindex])];
          optindex := optindex + 1;
          continue;
        }
        if |key| >= 2 && key[0] == 'n' && key[1] == 'o' {
          po := LookUp(cfg.options, key[2..]);
          if po < |cfg.options| && cfg.options[po].boolean {
            AddOpt(Opt(cfg.options[po], key, Some("0")));
            continue;
          }
        }
        return Some(Unrecognized(key));
      }
      NothingLeft(cfg, Contents());
      error := None;
    }
  }

  /** The length of the name without its stream specifier. */
  method NameLength(name: string) returns (len: nat)
    ensures len <= |name| && BaseName(name) == name[..len]
  {
    len := 0;
    while len < |name| && name[len] != ':'
      invariant len <= |name|
      invariant BaseName(name) == name[..len] + BaseName(name[len..])
    {
      assert BaseName(name[len..]) == [name[len]] + BaseName(name[len..][1..]);
      assert name[len..][1..] == name[len + 1..] && name[..len + 1] == name[..len] + [name[len]];
      len := len + 1;
    }
  }

  /** find_option: the index of the option, or of the end of the table. */
  method LookUp(options: seq<OptionDef>, name: string) returns (po: nat)
    ensures po <= |options|
    ensures FindOption(options, name) == if po < |options| then Some(options[po]) else None
  {
    var len := NameLength(name);
    hide BaseName;
    po := 0;
    while po < |options|
      invariant po <= |options|
      invariant FindOption(options, name) == FindOption(options[po..], name)
    {
      assert options[po..][0] == options[po] && options[po..][1..] == options[po + 1..];
      if name[..len] == options[po].name {
        return;
      }
      po := po + 1;
    }
  }

  /** match_group_separator: -1 if none matches. */
  method MatchGroupSeparator(separators: seq<Option<string>>, opt: string) returns (i: int)
    ensures -1 <= i < |separators|
    ensures MatchSeparator(separators, opt) == if i >= 0 then i else |separators|
  {
    i := 0;
    while i < |separators|
      invariant 0 <= i <= |separators|
      invariant forall k :: 0 <= k < i ==> separators[k] != Some(opt)
    {
      if separators[i] == Some(opt) {
        return;
      }
      i := i + 1;
    }
    i := -1;
  }

  // ---- printing ---------------------------------------------------------------------------

  function PrintOpt(o: Opt): (r: seq<string>) {
    if o.def.hasArg && o.val.Some? && !IsNegation(o) then ["-" + o.key, o.val.value] else ["-" + o.key]
  }

  /** A boolean option given as -nofoo: its key does not name it. */
  predicate IsNegation(o: Opt) {
    BaseName(o.key) != o.def.name
  }

  function PrintOpts(os: seq<Opt>): (r: seq<string>) {
    if os == [] then [] else PrintOpt(os[0]) + PrintOpts(os[1..])
  }

  function PrintAv(av: seq<AvOpt>): (r: seq<string>) {
    if av == [] then [] else ["-" + av[0].key, av[0].val] + PrintAv(av[1..])
  }

  /** Does the group have an option that ends it, and no earlier group has the same? */
  predicate HasSeparator(cfg: Config, i: nat)
    requires i < |cfg.separators|
  {
    && cfg.separators[i].Some?
    && var sep := cfg.separators[i].value;
    sep != "" && sep != "-" && MatchSeparator(cfg.separators, sep) == i
  }

  function PrintEnd(cfg: Config, i: nat): (r: string)
    requires i < |cfg.separators|
  {
    if HasSeparator(cfg, i) then "-" + cfg.separators[i].value else "--"
  }

  /** The options of a file and then the file: with the option that ends the group, or after dashes. */
  function PrintGroup(cfg: Config, i: nat, g: Group): (r: seq<string>)
    requires i < |cfg.separators|
  {
    PrintAv(g.av) + PrintOpts(g.opts) + [PrintEnd(cfg, i), g.arg]
  }

  function PrintGroups(cfg: Config, i: nat, gs: seq<Group>): (r: seq<string>)
    requires i < |cfg.separators|
  {
    if gs == [] then [] else PrintGroup(cfg, i, gs[0]) + PrintGroups(cfg, i, gs[1..])
  }

  /** The lists with index below n, the last one first: the inputs of ffmpeg come before its outputs. */
  function PrintLists(cfg: Config, groups: seq<seq<Group>>, n: nat): (r: seq<string>)
    requires n <= |groups| == |cfg.separators|
  {
    if n == 0 then [] else PrintGroups(cfg, n - 1, groups[n - 1]) + PrintLists(cfg, groups, n - 1)
  }

  /** Global options, then the groups, then the options without a file. */
  function Print(cfg: Config, c: Context): (r: seq<string>)
    requires Fits(cfg, c)
  {
    PrintOpts(c.globals) + PrintLists(cfg, c.groups, |c.groups|) + PrintAv(c.av) + PrintOpts(c.opts)
  }

  // ---- what can come from splitting -----------------------------------------------------------

  /** A key that is neither nothing, nor dashes, nor ends a group. */
  predicate OptionKey(cfg: Config, key: string) {
    key != "" && key != "-" && MatchSeparator(cfg.separators, key) == |cfg.separators|
  }

  predicate PrintableAv(cfg: Config, a: AvOpt) {
    OptionKey(cfg, a.key) && FindOption(cfg.options, a.key).None? && cfg.known(a.key) && !cfg.refuses(a.key, a.val)
  }

  /** An option that splitting may give, when nothing follows it. */
  predicate PrintableLast(cfg: Config, o: Opt) {
    && OptionKey(cfg, o.key)
    && match FindOption(cfg.options, o.key)
       case Some(def) =>
         def == o.def && !def.exit && o.val.Some? && (!def.hasArg ==> o.val.value == "1")
       case None =>
         && Negated(cfg.options, o.key) && FindOption(cfg.options, o.key[2..]) == Some(o.def)
         && o.val == Some("0")
  }

  /** The same, whatever follows: -nofoo is then not an AVOption. */
  predicate PrintableOpt(cfg: Config, o: Opt) {
    PrintableLast(cfg, o) && (FindOption(cfg.options, o.key).None? ==> !cfg.known(o.key))
  }

  ghost predicate PrintableAvs(cfg: Config, av: seq<AvOpt>) {
    forall k :: 0 <= k < |av| ==> PrintableAv(cfg, av[k])
  }

  ghost predicate PrintableOpts(cfg: Config, os: seq<Opt>, perFile: bool) {
    forall k :: 0 <= k < |os| ==> PrintableOpt(cfg, os[k]) && os[k].def.perFile == perFile
  }

  ghost predicate PrintableGroup(cfg: Config, i: nat, g: Group)
    requires i < |cfg.separators|
  {
    && PrintableAvs(cfg, g.av) && PrintableOpts(cfg, g.opts, true)
    && (HasSeparator(cfg, i) || (i == 0 && g.arg != "--"))
  }

  ghost predicate PrintableGroups(cfg: Config, groups: seq<seq<Group>>)
    requires |groups| == |cfg.separators|
  {
    forall i, k :: 0 <= i < |groups| && 0 <= k < |groups[i]| ==> PrintableGroup(cfg, i, groups[i][k])
  }

  ghost predicate Printable(cfg: Config, c: Context) {
    && Fits(cfg, c)
    && PrintableOpts(cfg, c.globals, false) && PrintableGroups(cfg, c.groups) && PrintableAvs(cfg, c.av)
    && (forall k :: 0 <= k < |c.opts| ==> c.opts[k].def.perFile && PrintableLast(cfg, c.opts[k]))
    && (forall k :: 0 <= k < |c.opts| - 1 ==> PrintableOpt(cfg, c.opts[k]))
  }

  // ---- splitting what was printed --------------------------------------------------------------

  lemma KeyToken(cfg: Config, key: string, next: Option<string>)
    requires key != "" && key != "-"
    ensures Classify(cfg, "-" + key, next, false) == Named(cfg, key, next)
  {
    assert ("-" + key)[1..] == key;
    assert |"-" + key| > 1 && ("-" + key)[1] == key[0];
  }

  lemma NegationKey(cfg: Config, o: Opt)
    requires PrintableLast(cfg, o)
    ensures IsNegation(o) <==> FindOption(cfg.options, o.key).None?
  {
    FoundName(cfg.options, o.key);
    if Negated(cfg.options, o.key) {
      FoundName(cfg.options, o.key[2..]);
      assert o.key[1..][1..] == o.key[2..];
      assert BaseName(o.key) == [o.key[0]] + ([o.key[1]] + BaseName(o.key[2..]));
    }
  }

  lemma {:induction false} FoundName(options: seq<OptionDef>, name: string)
    ensures FindOption(options, name).Some? ==> FindOption(options, name).value.name == BaseName(name)
  {
    if options != [] {
      FoundName(options[1..], name);
    }
  }

  lemma SplitOpt(cfg: Config, o: Opt, rest: seq<string>, c: Context)
    requires Fits(cfg, c) && (if rest == [] then PrintableLast(cfg, o) else PrintableOpt(cfg, o))
    ensures SplitRest(cfg, PrintOpt(o) + rest, false, c) == SplitRest(cfg, rest, false, Added(c, o))
  {
    var args := PrintOpt(o) + rest;
    NegationKey(cfg, o);
    KeyToken(cfg, o.key, First(args[1..]));
    hide BaseName, FindOption, MatchSeparator, Classify, IsNegation;
    if o.def.hasArg && !IsNegation(o) {
      assert args[1..] == [o.val.value] + rest && args[1..][1..] == rest;
    } else {
      assert args[1..] == rest;
    }
  }

  lemma SplitAv(cfg: Config, a: AvOpt, rest: seq<string>, c: Context)
    requires Fits(cfg, c) && PrintableAv(cfg, a)
    ensures SplitRest(cfg, ["-" + a.key, a.val] + rest, false, c) == SplitRest(cfg, rest, false, WithAv(c, a))
  {
    var args := ["-" + a.key, a.val] + rest;
    KeyToken(cfg, a.key, First(args[1..]));
    hide FindOption, MatchSeparator, Classify;
    assert args[1..] == [a.val] + rest && args[1..][1..] == rest;
  }

  lemma {:induction false} SplitAvs(cfg: Config, av: seq<AvOpt>, rest: seq<string>, c: Context)
    requires Fits(cfg, c) && PrintableAvs(cfg, av)
    ensures SplitRest(cfg, PrintAv(av) + rest, false, c) == SplitRest(cfg, rest, false, c.(av := c.av + av))
    decreases |av|
  {
    hide SplitRest, PrintableAv;
    if av == [] {
      assert PrintAv(av) + rest == rest && c.av + av == c.av;
    } else {
      assert PrintAv(av) + rest == ["-" + av[0].key, av[0].val] + (PrintAv(av[1..]) + rest);
      SplitAv(cfg, av[0], PrintAv(av[1..]) + rest, c);
      SplitAvs(cfg, av[1..], rest, WithAv(c, av[0]));
      assert (c.av + [av[0]]) + av[1..] == c.av + av;
    }
  }

  /** Options of one kind; the last of them may need that nothing follows. */
  lemma {:induction false} SplitOpts(cfg: Config, os: seq<Opt>, perFile: bool, rest: seq<string>, c: Context)
    requires Fits(cfg, c)
    requires forall k :: 0 <= k < |os| ==> os[k].def.perFile == perFile && PrintableLast(cfg, os[k])
    requires forall k :: 0 <= k < |os| && (k < |os| - 1 || rest != []) ==> PrintableOpt(cfg, os[k])
    ensures SplitRest(cfg, PrintOpts(os) + rest, false, c) ==
            SplitRest(cfg, rest, false, if perFile then c.(opts := c.opts + os) else c.(globals := c.globals + os))
    decreases |os|
  {
    hide SplitRest, PrintableLast, PrintableOpt, PrintOpt;
    if os == [] {
      assert PrintOpts(os) + rest == rest && c.opts + os == c.opts && c.globals + os == c.globals;
    } else {
      var tail := PrintOpts(os[1..]) + rest;
      FirstPrinted(os, rest);
      hide PrintOpts;
      SplitOpt(cfg, os[0], tail, c);
      SplitOpts(cfg, os[1..], perFile, rest, Added(c, os[0]));
      FirstAdded(c.opts, os);
      FirstAdded(c.globals, os);
    }
  }

  lemma FirstPrinted(os: seq<Opt>, rest: seq<string>)
    requires os != []
    ensures PrintOpts(os) + rest == PrintOpt(os[0]) + (PrintOpts(os[1..]) + rest)
    ensures PrintOpts(os[1..]) + rest == [] ==> |os| == 1 && rest == []
  {
    hide PrintOpt;
    SomethingPrinted(os[1..]);
    PartsPrinted(PrintOpt(os[0]), PrintOpts(os[1..]), rest);
    hide PrintOpts;
  }

  lemma PartsPrinted(a: seq<string>, b: seq<string>, c: seq<string>)
    ensures (a + b) + c == a + (b + c) && (b + c == [] ==> b == [] && c == [])
  {
    assert |b + c| == |b| + |c|;
  }

  lemma FirstAdded(before: seq<Opt>, os: seq<Opt>)
    requires os != []
    ensures (before + [os[0]]) + os[1..] == before + os
  {
  }

  lemma SomethingPrinted(os: seq<Opt>)
    ensures PrintOpts(os) == [] ==> os == []
  {
    if os != [] {
      assert PrintOpt(os[0]) != [];
    }
  }

  /** The end of a group, without options of its own. */
  lemma SplitEnd(cfg: Config, i: nat, g: Group, rest: seq<string>, c: Context)
    requires Fits(cfg, c) && i < |cfg.separators| && PrintableGroup(cfg, i, g)
    ensures SplitRest(cfg, [PrintEnd(cfg, i), g.arg] + rest, false, c) ==
            SplitRest(cfg, rest, false, Finished(c, i, g.arg))
  {
    hide MatchSeparator, FindOption;
    if !HasSeparator(cfg, i) {
      var args := ["--", g.arg] + rest;
      assert args[1..] == [g.arg] + rest && args[1..][1..] == rest;
      assert SplitRest(cfg, args, false, c) == SplitRest(cfg, args[1..], true, c);
    } else {
      var sep := cfg.separators[i].value;
      var args := ["-" + sep, g.arg] + rest;
      KeyToken(cfg, sep, Some(g.arg));
      assert args[1..] == [g.arg] + rest && args[1..][1..] == rest;
    }
  }

  predicate Pending(c: Context) {
    c.opts != [] || c.av != []
  }

  lemma SplitGroup(cfg: Config, i: nat, g: Group, rest: seq<string>, c: Context)
    requires Fits(cfg, c) && i < |cfg.separators| && PrintableGroup(cfg, i, g) && !Pending(c)
    ensures SplitRest(cfg, PrintGroup(cfg, i, g) + rest, false, c) ==
            SplitRest(cfg, rest, false, c.(groups := c.groups[i := c.groups[i] + [g]]))
  {
    var end := [PrintEnd(cfg, i), g.arg];
    var c1 := c.(av := g.av);
    var c2 := c1.(opts := g.opts);
    SplitEnd(cfg, i, g, rest, c2);
    hide SplitRest, PrintableOpt, PrintAv, PrintOpts, PrintableAv, PrintableLast, PrintEnd, HasSeparator;
    Regrouped(PrintAv(g.av), PrintOpts(g.opts), end, rest);
    assert c.av + g.av == g.av && c.opts + g.opts == g.opts;
    SplitAvs(cfg, g.av, PrintOpts(g.opts) + (end + rest), c);
    LastIfPrintable(cfg, g.opts, true);
    SplitOpts(cfg, g.opts, true, end + rest, c1);
    assert Finished(c2, i, g.arg) == c.(groups := c.groups[i := c.groups[i] + [g]]);
  }

  lemma Regrouped(a: seq<string>, b: seq<string>, c: seq<string>, d: seq<string>)
    ensures (a + b + c) + d == a + (b + (c + d))
  {
  }

  lemma LastIfPrintable(cfg: Config, os: seq<Opt>, perFile: bool)
    requires PrintableOpts(cfg, os, perFile)
    ensures forall k :: 0 <= k < |os| ==> PrintableLast(cfg, os[k])
  {
  }

  /** Groups of different lists may be given in either order. */
  lemma GroupsCommute(cfg: Config, i: nat, g: Group, j: nat, h: Group, rest: seq<string>, c: Context)
    requires Fits(cfg, c) && !Pending(c) && i < |cfg.separators| && j < |cfg.separators| && i != j
    requires PrintableGroup(cfg, i, g) && PrintableGroup(cfg, j, h)
    ensures SplitRest(cfg, PrintGroup(cfg, i, g) + PrintGroup(cfg, j, h) + rest, false, c) ==
            SplitRest(cfg, PrintGroup(cfg, j, h) + PrintGroup(cfg, i, g) + rest, false, c)
  {
    hide SplitRest, PrintGroup, PrintableGroup;
    var c1 := c.(groups := c.groups[i := c.groups[i] + [g]]);
    var c2 := c.(groups := c.groups[j := c.groups[j] + [h]]);
    var first, second := PrintGroup(cfg, i, g), PrintGroup(cfg, j, h);
    assert first + second + rest == first + (second + rest) && second + first + rest == second + (first + rest);
    SplitGroup(cfg, i, g, PrintGroup(cfg, j, h) + rest, c);
    SplitGroup(cfg, j, h, rest, c1);
    SplitGroup(cfg, j, h, PrintGroup(cfg, i, g) + rest, c);
    SplitGroup(cfg, i, g, rest, c2);
    assert c1.groups[j := c1.groups[j] + [h]] == c2.groups[i := c2.groups[i] + [g]];
  }

  lemma {:induction false} SplitGroups(cfg: Config, i: nat, gs: seq<Group>, rest: seq<string>, c: Context)
    requires Fits(cfg, c) && i < |cfg.separators| && !Pending(c)
    requires forall k :: 0 <= k < |gs| ==> PrintableGroup(cfg, i, gs[k])
    ensures SplitRest(cfg, PrintGroups(cfg, i, gs) + rest, false, c) ==
            SplitRest(cfg, rest, false, c.(groups := c.groups[i := c.groups[i] + gs]))
    decreases |gs|
  {
    hide SplitRest, PrintGroup, PrintableGroup;
    if gs == [] {
      assert PrintGroups(cfg, i, gs) + rest == rest;
      assert c.groups[i] + gs == c.groups[i] && c.groups[i := c.groups[i]] == c.groups;
    } else {
      var tail := PrintGroups(cfg, i, gs[1..]) + rest;
      assert PrintGroups(cfg, i, gs) + rest == PrintGroup(cfg, i, gs[0]) + tail;
      SplitGroup(cfg, i, gs[0], tail, c);
      var next := c.(groups := c.groups[i := c.groups[i] + [gs[0]]]);
      SplitGroups(cfg, i, gs[1..], rest, next);
      assert (c.groups[i] + [gs[0]]) + gs[1..] == c.groups[i] + gs;
      assert next.groups[i := next.groups[i] + gs[1..]] == c.groups[i := c.groups[i] + gs];
    }
  }

  /** With the lists from n on already split. */
  lemma {:induction false} SplitLists(cfg: Config, groups: seq<seq<Group>>, n: nat, rest: seq<string>, c: Context)
    requires Fits(cfg, c) && n <= |groups| == |cfg.separators| && !Pending(c) && PrintableGroups(cfg, groups)
    requires forall i :: 0 <= i < |groups| ==> c.groups[i] == if i < n then [] else groups[i]
    ensures SplitRest(cfg, PrintLists(cfg, groups, n) + rest, false, c) ==
            SplitRest(cfg, rest, false, c.(groups := groups))
  {
    hide SplitRest, PrintGroups, PrintableGroup;
    if n == 0 {
      assert PrintLists(cfg, groups, n) + rest == rest;
      assert c.groups == groups;
    } else {
      var tail := PrintLists(cfg, groups, n - 1) + rest;
      assert PrintLists(cfg, groups, n) + rest == PrintGroups(cfg, n - 1, groups[n - 1]) + tail;
      SplitGroups(cfg, n - 1, groups[n - 1], tail, c);
      var next := c.(groups := c.groups[n - 1 := c.groups[n - 1] + groups[n - 1]]);
      assert next.groups[n - 1] == groups[n - 1];
      SplitLists(cfg, groups, n - 1, rest, next);
    }
  }

  /** Whatever may be printed is split into what it was. */
  lemma SplitPrinted(cfg: Config, c: Context)
    requires Printable(cfg, c)
    ensures SplitAll(cfg, Print(cfg, c)) == Split(c)
  {
    var start := Empty(cfg);
    var tail := PrintAv(c.av) + PrintOpts(c.opts);
    var c1 := start.(globals := c.globals);
    var c2 := c1.(groups := c.groups);
    var c3 := c2.(av := c.av);
    hide SplitRest, PrintOpts, PrintAv, PrintLists, PrintableLast, PrintableOpt, PrintableAv, PrintableGroup;
    assert Print(cfg, c) == PrintOpts(c.globals) + (PrintLists(cfg, c.groups, |c.groups|) + tail);
    LastIfPrintable(cfg, c.globals, false);
    assert start.globals + c.globals == c.globals && c2.av + c.av == c.av && c3.opts + c.opts == c.opts;
    SplitOpts(cfg, c.globals, false, PrintLists(cfg, c.groups, |c.groups|) + tail, start);
    SplitLists(cfg, c.groups, |c.groups|, tail, c1);
    SplitAvs(cfg, c.av, PrintOpts(c.opts), c2);
    assert PrintOpts(c.opts) == PrintOpts(c.opts) + [];
    SplitOpts(cfg, c.opts, true, [], c3);
    NothingLeft(cfg, c);
  }


  // ---- what splitting gives may be printed --------------------------------------------------------

  predicate HasExit(os: seq<Opt>) {
    exists k :: 0 <= k < |os| && os[k].def.exit
  }

  /** Is some option one that makes the program exit, such as -h? */
  predicate Exits(c: Context) {
    || HasExit(c.globals) || HasExit(c.opts)
    || exists i, k :: 0 <= i < |c.groups| && 0 <= k < |c.groups[i]| && HasExit(c.groups[i][k].opts)
  }

  /** A boolean option of the program whose negation is also a name of an AVOption. */
  predicate Clash(cfg: Config, key: string, perFile: bool) {
    && OptionKey(cfg, key) && FindOption(cfg.options, key).None? && Negated(cfg.options, key) && cfg.known(key)
    && var d := FindOption(cfg.options, key[2..]).value;
    !d.exit && d.perFile == perFile
  }

  /** While there is more to split: every option so far may be followed by anything. */
  ghost predicate PrintableSoFar(cfg: Config, c: Context) {
    Printable(cfg, c) && PrintableOpts(cfg, c.opts, true)
  }

  lemma NamedGives(cfg: Config, key: string, next: Option<string>)
    requires key != "" && key != "-"
    ensures var t := Named(cfg, key, next);
            && (t.Ends? ==> HasSeparator(cfg, t.group))
            && (t.Av? ==> PrintableAv(cfg, t.av))
            && (t.Plain? || t.WithArg? ==>
                  || t.opt.def.exit
                  || (PrintableOpt(cfg, t.opt))
                  || (PrintableLast(cfg, t.opt) && next.None? && t.Plain? && Clash(cfg, t.opt.key, t.opt.def.perFile)))
  {
  }

  lemma AddedKeeps(cfg: Config, c: Context, o: Opt)
    requires PrintableSoFar(cfg, c) && PrintableOpt(cfg, o)
    ensures PrintableSoFar(cfg, Added(c, o))
  {
    hide PrintableLast, PrintableAvs, PrintableGroups;
  }

  lemma LastKeeps(cfg: Config, c: Context, o: Opt)
    requires PrintableSoFar(cfg, c) && PrintableLast(cfg, o) && o.def.perFile
    ensures Printable(cfg, Added(c, o))
  {
    hide PrintableAvs, PrintableGroups;
  }

  lemma WithAvKeeps(cfg: Config, c: Context, a: AvOpt)
    requires PrintableSoFar(cfg, c) && PrintableAv(cfg, a)
    ensures PrintableSoFar(cfg, WithAv(c, a))
  {
    hide PrintableAv, PrintableOpts, PrintableGroups, PrintableOpt, PrintableLast;
  }

  lemma FinishedKeeps(cfg: Config, c: Context, i: nat, arg: string)
    requires PrintableSoFar(cfg, c) && i < |cfg.separators|
    requires HasSeparator(cfg, i) || (i == 0 && arg != "--")
    ensures PrintableSoFar(cfg, Finished(c, i, arg))
  {
    hide PrintableAvs, PrintableOpts, PrintableOpt, PrintableLast;
    var t := Finished(c, i, arg);
    assert PrintableOpts(cfg, t.opts, true) && PrintableAvs(cfg, t.av) by {
      EmptyPrintable(cfg);
    }
    assert PrintableGroup(cfg, i, Group(arg, c.opts, c.av));
    hide PrintableGroup;
  }

  lemma EmptyPrintable(cfg: Config)
    ensures PrintableOpts(cfg, [], true) && PrintableOpts(cfg, [], false) && PrintableAvs(cfg, [])
  {
  }

  ghost predicate GlobalClash(cfg: Config) {
    exists key :: Clash(cfg, key, false)
  }

  /** An option that makes the program exit stays in what is split. */
  lemma {:induction false} ExitsStay(cfg: Config, args: seq<string>, afterDashes: bool, c: Context)
    requires Fits(cfg, c) && Exits(c) && SplitRest(cfg, args, afterDashes, c).Split?
    ensures Exits(SplitRest(cfg, args, afterDashes, c).context)
    decreases |args|
  {
    hide Step, Exits;
    if args != [] {
      var n := Step(cfg, args, afterDashes, c);
      StepExits(cfg, args, afterDashes, c);
      ExitsStay(cfg, n.args, n.afterDashes, n.context);
    }
  }

  lemma StepExits(cfg: Config, args: seq<string>, afterDashes: bool, c: Context)
    requires Fits(cfg, c) && args != [] && Exits(c) && Step(cfg, args, afterDashes, c).Go?
    ensures Exits(Step(cfg, args, afterDashes, c).context)
  {
    var rest := args[1..];
    hide Classify, HasExit;
    match Classify(cfg, args[0], First(rest), afterDashes)
    case File => ExitsFinished(c, 0, args[0]);
    case Ends(group) => ExitsFinished(c, group, rest[0]);
    case Plain(o) => ExitsAdded(c, o);
    case WithArg(o) => ExitsAdded(c, o);
    case _ =>
  }

  lemma ExitsFinished(c: Context, i: nat, arg: string)
    requires Exits(c) && i < |c.groups|
    ensures Exits(Finished(c, i, arg))
  {
    var t := Finished(c, i, arg);
    hide HasExit;
    if HasExit(c.opts) {
      assert t.groups[i][|c.groups[i]|].opts == c.opts;
    } else if !HasExit(c.globals) {
      var j, k :| 0 <= j < |c.groups| && 0 <= k < |c.groups[j]| && HasExit(c.groups[j][k].opts);
      assert t.groups[j][k] == c.groups[j][k];
    }
  }

  lemma ExitsAdded(c: Context, o: Opt)
    requires Exits(c) || o.def.exit
    ensures Exits(Added(c, o))
  {
    var os := if o.def.perFile then c.opts else c.globals;
    var more := os + [o];
    if o.def.exit {
      assert more[|os|].def.exit;
    } else if HasExit(os) {
      var k :| 0 <= k < |os| && os[k].def.exit;
      assert more[k].def.exit;
    }
  }

  /** Does the last of the global options clash? Then it was the last argument. */
  predicate EndsInClash(cfg: Config, c: Context) {
    c.globals != [] && Clash(cfg, c.globals[|c.globals| - 1].key, false)
  }

  function WithoutLast(c: Context): (r: Context)
    requires c.globals != []
  {
    c.(globals := c.globals[..|c.globals| - 1])
  }

  /** A clash, after options that may be followed by anything. */
  ghost predicate ClashAtEnd(cfg: Config, c: Context) {
    && EndsInClash(cfg, c) && PrintableLast(cfg, c.globals[|c.globals| - 1])
    && PrintableSoFar(cfg, WithoutLast(c))
  }

  /** One step: what it gives may be followed by anything, or nothing follows it. */
  lemma StepPrintable(cfg: Config, args: seq<string>, afterDashes: bool, c: Context)
    requires PrintableSoFar(cfg, c) && args != []
    requires Step(cfg, args, afterDashes, c).Go? && !Exits(Step(cfg, args, afterDashes, c).context)
    ensures var n := Step(cfg, args, afterDashes, c);
            || PrintableSoFar(cfg, n.context)
            || (n.args == [] && (Printable(cfg, n.context) || ClashAtEnd(cfg, n.context)))
  {
    var rest := args[1..];
    var t := Classify(cfg, args[0], First(rest), afterDashes);
    if !t.Dashes? && !t.File? {
      assert args[0] == "-" + args[0][1..];
      NamedGives(cfg, args[0][1..], First(rest));
    }
    assert Fits(cfg, c) && (t.Ends? ==> HasSeparator(cfg, t.group));
    hide PrintableSoFar, Printable, ClashAtEnd, Exits, PrintableOpt, PrintableLast, PrintableAv, Clash, MatchSeparator;
    hide Named;
    match t
    case Dashes =>
    case File => FinishedKeeps(cfg, c, 0, args[0]);
    case Ends(group) => FinishedKeeps(cfg, c, group, rest[0]);
    case Plain(o) => AddedPrintable(cfg, c, o, rest == []);
    case WithArg(o) => AddedPrintable(cfg, c, o, false);
    case Av(a) => WithAvKeeps(cfg, c, a);
  }

  lemma AddedPrintable(cfg: Config, c: Context, o: Opt, last: bool)
    requires PrintableSoFar(cfg, c) && !Exits(Added(c, o))
    requires || o.def.exit || PrintableOpt(cfg, o)
             || (PrintableLast(cfg, o) && last && Clash(cfg, o.key, o.def.perFile))
    ensures || PrintableSoFar(cfg, Added(c, o))
            || (last && (Printable(cfg, Added(c, o)) || ClashAtEnd(cfg, Added(c, o))))
  {
    hide PrintableSoFar, Exits, PrintableOpt, PrintableLast, Clash;
    if o.def.exit {
      ExitsAdded(c, o);
    } else if PrintableOpt(cfg, o) {
      AddedKeeps(cfg, c, o);
    } else if o.def.perFile {
      LastKeeps(cfg, c, o);
    } else {
      assert WithoutLast(Added(c, o)) == c;
    }
  }

  /** But for a clash at the end, everything that splitting gives may be printed. */
  lemma {:induction false} SplitIsPrintable(cfg: Config, args: seq<string>, afterDashes: bool, c: Context)
    requires Fits(cfg, c)
    requires PrintableSoFar(cfg, c) || (args == [] && (Printable(cfg, c) || ClashAtEnd(cfg, c)))
    requires SplitRest(cfg, args, afterDashes, c).Split? && !Exits(SplitRest(cfg, args, afterDashes, c).context)
    ensures var r := SplitRest(cfg, args, afterDashes, c).context;
            Printable(cfg, r) || ClashAtEnd(cfg, r)
    decreases |args|
  {
    if args != [] {
      hide PrintableSoFar, Printable, ClashAtEnd, Exits, Step;
      var n := Step(cfg, args, afterDashes, c);
      if Exits(n.context) {
        ExitsStay(cfg, n.args, n.afterDashes, n.context);
      }
      StepPrintable(cfg, args, afterDashes, c);
      SplitIsPrintable(cfg, n.args, n.afterDashes, n.context);
    }
  }

  /** Printing what was split from the arguments, and splitting that, gives the same. */
  predicate RoundTrips(cfg: Config, args: seq<string>)
    requires |cfg.separators| > 0 && SplitAll(cfg, args).Split?
  {
    SplitFits(cfg, args, false, Empty(cfg));
    SplitAll(cfg, Print(cfg, SplitAll(cfg, args).context)) == SplitAll(cfg, args)
  }

  lemma {:induction false} SplitFits(cfg: Config, args: seq<string>, afterDashes: bool, c: Context)
    requires Fits(cfg, c) && SplitRest(cfg, args, afterDashes, c).Split?
    ensures Fits(cfg, SplitRest(cfg, args, afterDashes, c).context)
    decreases |args|
  {
    if args != [] {
      var n := Step(cfg, args, afterDashes, c);
      SplitFits(cfg, n.args, n.afterDashes, n.context);
    }
  }

  /** Command lines that are split without error and without an option that makes the program exit. */
  predicate InScope(cfg: Config, args: seq<string>)
    requires |cfg.separators| > 0
  {
    SplitAll(cfg, args).Split? && !Exits(SplitAll(cfg, args).context)
  }

  lemma LineSplits(cfg: Config, args: seq<string>)
    requires |cfg.separators| > 0 && InScope(cfg, args)
    ensures var c := SplitAll(cfg, args).context;
            Printable(cfg, c) || ClashAtEnd(cfg, c)
  {
    var start := Empty(cfg);
    assert PrintableSoFar(cfg, start) by {
      EmptyPrintable(cfg);
    }
    hide PrintableSoFar, Printable, ClashAtEnd, Exits;
    SplitIsPrintable(cfg, args, false, start);
  }

  /** Every command line comes back that does not end in a clash. */
  lemma RoundTrip(cfg: Config, args: seq<string>)
    requires |cfg.separators| > 0 && InScope(cfg, args) && !EndsInClash(cfg, SplitAll(cfg, args).context)
    ensures RoundTrips(cfg, args)
  {
    hide Printable, PrintableSoFar, Exits, Print, EndsInClash;
    LineSplits(cfg, args);
    SplitPrinted(cfg, SplitAll(cfg, args).context);
  }

  // ---- command lines that end in a clash ---------------------------------------------------------

  predicate NamesAv(av: seq<AvOpt>, key: string) {
    exists k :: 0 <= k < |av| && av[k].key == key
  }

  /** Is there an AVOption of this name? */
  predicate GivesAv(c: Context, key: string) {
    || NamesAv(c.av, key)
    || exists i, k :: 0 <= i < |c.groups| && 0 <= k < |c.groups[i]| && NamesAv(c.groups[i][k].av, key)
  }

  lemma FinishedGives(c: Context, i: nat, arg: string, key: string)
    requires GivesAv(c, key) && i < |c.groups|
    ensures GivesAv(Finished(c, i, arg), key)
  {
    var t := Finished(c, i, arg);
    hide NamesAv;
    if NamesAv(c.av, key) {
      assert t.groups[i][|c.groups[i]|].av == c.av;
    } else {
      var j, k :| 0 <= j < |c.groups| && 0 <= k < |c.groups[j]| && NamesAv(c.groups[j][k].av, key);
      assert t.groups[j][k] == c.groups[j][k];
    }
  }

  lemma WithAvGives(c: Context, a: AvOpt, key: string)
    requires GivesAv(c, key) || a.key == key
    ensures GivesAv(WithAv(c, a), key)
  {
    var more := c.av + [a];
    if a.key == key {
      assert more[|c.av|] == a;
    } else if NamesAv(c.av, key) {
      var k :| 0 <= k < |c.av| && c.av[k].key == key;
      assert more[k].key == key;
    }
  }

  /** An AVOption stays in what is split. */
  lemma {:induction false} AvStays(cfg: Config, args: seq<string>, afterDashes: bool, c: Context, key: string)
    requires Fits(cfg, c) && GivesAv(c, key) && SplitRest(cfg, args, afterDashes, c).Split?
    ensures GivesAv(SplitRest(cfg, args, afterDashes, c).context, key)
    decreases |args|
  {
    if args != [] {
      var n := Step(cfg, args, afterDashes, c);
      var rest := args[1..];
      hide Classify;
      assert GivesAv(n.context, key) by {
        hide GivesAv;
        match Classify(cfg, args[0], First(rest), afterDashes)
        case File => FinishedGives(c, 0, args[0], key);
        case Ends(group) => FinishedGives(c, group, rest[0], key);
        case Plain(o) => AddedGives(c, o, key);
        case WithArg(o) => AddedGives(c, o, key);
        case Av(a) => WithAvGives(c, a, key);
        case _ =>
      }
      hide GivesAv, Step;
      AvStays(cfg, n.args, n.afterDashes, n.context, key);
    }
  }

  lemma AddedGives(c: Context, o: Opt, key: string)
    requires GivesAv(c, key)
    ensures GivesAv(Added(c, o), key)
  {
    hide NamesAv;
  }

  predicate OnlyGlobals(c: Context) {
    !Pending(c) && forall i :: 0 <= i < |c.groups| ==> c.groups[i] == []
  }

  /** What is printed after the global options. */
  function PrintTail(cfg: Config, c: Context): (r: seq<string>)
    requires Fits(cfg, c)
  {
    PrintLists(cfg, c.groups, |c.groups|) + PrintAv(c.av) + PrintOpts(c.opts)
  }

  lemma {:induction false} NoLists(cfg: Config, groups: seq<seq<Group>>, n: nat)
    requires n <= |groups| == |cfg.separators|
    ensures PrintLists(cfg, groups, n) == [] <==> forall i :: 0 <= i < n ==> groups[i] == []
  {
    if n > 0 {
      NoLists(cfg, groups, n - 1);
    }
  }

  lemma NothingAfterGlobals(cfg: Config, c: Context)
    requires Fits(cfg, c)
    ensures PrintTail(cfg, c) == [] <==> OnlyGlobals(c)
  {
    NoLists(cfg, c.groups, |c.groups|);
    if c.opts != [] {
      assert PrintOpt(c.opts[0]) != [];
    }
  }

  lemma {:induction false} PrintOptsAppend(os: seq<Opt>, o: Opt)
    ensures PrintOpts(os + [o]) == PrintOpts(os) + PrintOpt(o)
  {
    if os == [] {
      assert os + [o] == [o] && [o][1..] == [];
    } else {
      assert (os + [o])[1..] == os[1..] + [o];
      PrintOptsAppend(os[1..], o);
    }
  }

  lemma NegationPrinted(cfg: Config, o: Opt)
    requires PrintableLast(cfg, o) && Clash(cfg, o.key, false)
    ensures PrintOpt(o) == ["-" + o.key]
  {
    NegationKey(cfg, o);
    hide IsNegation, FindOption;
  }

  /** Printed, the clash comes before everything but the other global options. */
  lemma ClashPrinted(cfg: Config, c: Context)
    requires ClashAtEnd(cfg, c)
    ensures Fits(cfg, c)
    ensures SplitAll(cfg, Print(cfg, c)) ==
            SplitRest(cfg, ["-" + c.globals[|c.globals| - 1].key] + PrintTail(cfg, c), false,
                      Empty(cfg).(globals := WithoutLast(c).globals))
  {
    var o, os, tail := c.globals[|c.globals| - 1], WithoutLast(c).globals, PrintTail(cfg, c);
    var start := Empty(cfg);
    hide SplitRest, PrintOpt, PrintOpts, PrintAv, PrintLists, PrintableLast, PrintableOpt, PrintableAv, PrintableGroup;
    hide Clash;
    NegationPrinted(cfg, o);
    LastIfPrintable(cfg, os, false);
    assert os + [o] == c.globals;
    PrintOptsAppend(os, o);
    assert Print(cfg, c) == PrintOpts(os) + (["-" + o.key] + tail);
    assert start.globals + os == os;
    SplitOpts(cfg, os, false, ["-" + o.key] + tail, start);
  }

  /** With something after it, the clash is an AVOption; or an error. */
  lemma ClashIsAv(cfg: Config, key: string, tail: seq<string>, c: Context)
    requires Fits(cfg, c) && Clash(cfg, key, false) && tail != []
    ensures var r := SplitRest(cfg, ["-" + key] + tail, false, c);
            && (r.Split? ==> !cfg.refuses(key, tail[0]))
            && (!cfg.refuses(key, tail[0]) ==> r == SplitRest(cfg, tail[1..], false, WithAv(c, AvOpt(key, tail[0]))))
  {
    var args := ["-" + key] + tail;
    KeyToken(cfg, key, First(tail));
    assert args[1..] == tail;
    hide FindOption, MatchSeparator, Classify;
    SplitStep(cfg, args, false, c);
    hide SplitRest;
  }

  lemma ClashTakes(cfg: Config, key: string, tail: seq<string>, c: Context)
    requires Fits(cfg, c) && Clash(cfg, key, false) && tail != []
    ensures var r := SplitRest(cfg, ["-" + key] + tail, false, c);
            r.Split? ==> GivesAv(r.context, key)
  {
    ClashIsAv(cfg, key, tail, c);
    var a := AvOpt(key, tail[0]);
    hide SplitRest, GivesAv, Clash;
    WithAvGives(c, a, key);
    if SplitRest(cfg, tail[1..], false, WithAv(c, a)).Split? {
      AvStays(cfg, tail[1..], false, WithAv(c, a), key);
    }
  }

  /** With nothing after it, the clash is the option that it was. */
  lemma ClashAlone(cfg: Config, o: Opt, c: Context)
    requires Fits(cfg, c) && PrintableLast(cfg, o) && Clash(cfg, o.key, false)
    ensures SplitRest(cfg, ["-" + o.key], false, c) == Split(Added(c, o))
  {
    var args := ["-" + o.key];
    KeyToken(cfg, o.key, None);
    assert args[1..] == [];
    hide FindOption, MatchSeparator, Classify;
    SplitStep(cfg, args, false, c);
    NothingLeft(cfg, Added(c, o));
  }

  /** Groups stay, and without any the AVOptions only become more. */
  predicate Extends(c: Context, r: Context) {
    NoGroups(r) ==> NoGroups(c) && c.av <= r.av
  }

  predicate NoGroups(c: Context) {
    forall i :: 0 <= i < |c.groups| ==> c.groups[i] == []
  }

  lemma {:induction false} SplitExtends(cfg: Config, args: seq<string>, afterDashes: bool, c: Context)
    requires Fits(cfg, c) && SplitRest(cfg, args, afterDashes, c).Split?
    ensures Extends(c, SplitRest(cfg, args, afterDashes, c).context)
    decreases |args|
  {
    if args != [] {
      var n := Step(cfg, args, afterDashes, c);
      StepExtends(cfg, args, afterDashes, c);
      hide Step, NoGroups;
      SplitExtends(cfg, n.args, n.afterDashes, n.context);
    }
  }

  lemma StepExtends(cfg: Config, args: seq<string>, afterDashes: bool, c: Context)
    requires Fits(cfg, c) && args != [] && Step(cfg, args, afterDashes, c).Go?
    ensures Extends(c, Step(cfg, args, afterDashes, c).context)
  {
    var rest := args[1..];
    hide Classify;
    match Classify(cfg, args[0], First(rest), afterDashes)
    case File => assert Finished(c, 0, args[0]).groups[0] != [];
    case Ends(group) => assert Finished(c, group, rest[0]).groups[group] != [];
    case _ =>
  }

  /** Is every AVOption one that the clash makes of itself? */
  predicate Doubled(av: seq<AvOpt>, key: string) {
    forall k :: 0 <= k < |av| ==> av[k] == AvOpt(key, "-" + key)
  }

  /**
   * After the clash, AVOptions and then options: if nothing else comes of them, then every
   * AVOption is the clash followed by itself, and there are no options.
   */
  lemma {:induction false} ShiftedComesBack(cfg: Config, key: string, av: seq<AvOpt>, os: seq<Opt>, c: Context)
    requires Fits(cfg, c) && Clash(cfg, key, false)
    requires var r := SplitRest(cfg, ["-" + key] + (PrintAv(av) + PrintOpts(os)), false, c);
             r.Split? && NoGroups(r.context) && r.context.av == c.av + av
    ensures Doubled(av, key) && os == []
    decreases |av|
  {
    hide *;
    NothingPrinted(av, os);
    if PrintAv(av) + PrintOpts(os) == [] {
      NoneDoubled(key);
    } else {
      ShiftedStep(cfg, key, av, os, c);
      ShiftedComesBack(cfg, key, av[1..], os, WithAv(c, av[0]));
      FirstDoubled(av, key);
    }
  }

  /** The clash takes the first AVOption's name as value: then that is the clash, and what is left is shifted too. */
  lemma ShiftedStep(cfg: Config, key: string, av: seq<AvOpt>, os: seq<Opt>, c: Context)
    requires Fits(cfg, c) && Clash(cfg, key, false) && PrintAv(av) + PrintOpts(os) != []
    requires var r := SplitRest(cfg, ["-" + key] + (PrintAv(av) + PrintOpts(os)), false, c);
             r.Split? && NoGroups(r.context) && r.context.av == c.av + av
    ensures av != [] && av[0] == AvOpt(key, "-" + key)
    ensures var d := WithAv(c, av[0]);
            && Fits(cfg, d) && d.av + av[1..] == c.av + av
            && SplitRest(cfg, ["-" + key] + (PrintAv(av[1..]) + PrintOpts(os)), false, d) ==
               SplitRest(cfg, ["-" + key] + (PrintAv(av) + PrintOpts(os)), false, c)
  {
    hide SplitRest, Clash, PrintOpts, PrintAv, NoGroups;
    var tail := PrintAv(av) + PrintOpts(os);
    ClashIsAv(cfg, key, tail, c);
    var d := WithAv(c, AvOpt(key, tail[0]));
    SplitExtends(cfg, tail[1..], false, d);
    FirstShifted(key, av, os, c.av, tail);
    assert (c.av + [av[0]]) + av[1..] == c.av + av;
  }

  lemma NoneDoubled(key: string)
    ensures Doubled([], key)
  {
  }

  lemma FirstDoubled(av: seq<AvOpt>, key: string)
    requires av != [] && av[0] == AvOpt(key, "-" + key) && Doubled(av[1..], key)
    ensures Doubled(av, key)
  {
    assert forall k :: 0 < k < |av| ==> av[k] == av[1..][k - 1];
  }

  lemma NothingPrinted(av: seq<AvOpt>, os: seq<Opt>)
    ensures PrintAv(av) + PrintOpts(os) == [] ==> av == [] && os == []
  {
    SomethingPrinted(os);
    hide PrintOpts;
  }

  /** Where the clash takes what the first AVOption has, that is the clash and itself, and the next are shifted too. */
  lemma FirstShifted(key: string, av: seq<AvOpt>, os: seq<Opt>, before: seq<AvOpt>, tail: seq<string>)
    requires tail == PrintAv(av) + PrintOpts(os) && tail != []
    requires before + [AvOpt(key, tail[0])] <= before + av
    ensures av != [] && av[0] == AvOpt(key, tail[0]) == AvOpt(key, "-" + key)
    ensures tail[1..] == ["-" + key] + (PrintAv(av[1..]) + PrintOpts(os))
  {
    hide PrintOpts;
    assert |before| + 1 <= |before + av|;
    assert (before + av)[|before|] == av[0] == (before + [AvOpt(key, tail[0])])[|before|];
    assert tail == ["-" + av[0].key, av[0].val] + (PrintAv(av[1..]) + PrintOpts(os));
  }

  /** The clash, and pairs of it: the pairs come first as well. */
  lemma {:induction false} DoubledPrinted(av: seq<AvOpt>, key: string)
    requires Doubled(av, key)
    ensures ["-" + key] + PrintAv(av) == PrintAv(av) + ["-" + key]
  {
    if av != [] {
      var k, rest := "-" + key, PrintAv(av[1..]);
      DoubledPrinted(av[1..], key);
      assert PrintAv(av) == [k, k] + rest;
      calc {
        [k] + ([k, k] + rest);
        [k, k] + ([k] + rest);
        [k, k] + (rest + [k]);
        ([k, k] + rest) + [k];
      }
    }
  }

  /** Nothing but global options, and AVOptions that the clash makes of itself. */
  predicate OnlyDoubled(c: Context)
    requires c.globals != []
  {
    NoGroups(c) && c.opts == [] && Doubled(c.av, c.globals[|c.globals| - 1].key)
  }

  /**
   * A command line comes back exactly if it does not end in a clash, or gives only global
   * options and AVOptions of the clash's name with the clash itself as value. A line with
   * groups that ends in a clash is in it if no AVOption on it has the clash's name.
   */
  lemma LineRoundTripsIff(cfg: Config, args: seq<string>)
    requires |cfg.separators| > 0 && InScope(cfg, args)
    requires var c := SplitAll(cfg, args).context;
             EndsInClash(cfg, c) ==> NoGroups(c) || !GivesAv(c, c.globals[|c.globals| - 1].key)
    ensures var c := SplitAll(cfg, args).context;
            RoundTrips(cfg, args) <==> !EndsInClash(cfg, c) || OnlyDoubled(c)
  {
    var c := SplitAll(cfg, args).context;
    if !EndsInClash(cfg, c) {
      RoundTrip(cfg, args);
    } else {
      LineSplits(cfg, args);
      NotPrintable(cfg, c);
      hide SplitAll, Printable, RoundTrips, Exits;
      ClashRoundTripsIff(cfg, c);
      assert RoundTrips(cfg, args) <==> SplitAll(cfg, Print(cfg, c)) == Split(c) by {
        RoundTripsIs(cfg, args);
      }
    }
  }

  lemma RoundTripsIs(cfg: Config, args: seq<string>)
    requires |cfg.separators| > 0 && SplitAll(cfg, args).Split?
    ensures var c := SplitAll(cfg, args).context;
            Fits(cfg, c) && (RoundTrips(cfg, args) <==> SplitAll(cfg, Print(cfg, c)) == Split(c))
  {
    SplitFits(cfg, args, false, Empty(cfg));
    hide SplitRest, Print;
  }

  lemma ClashRoundTripsIff(cfg: Config, c: Context)
    requires ClashAtEnd(cfg, c) && (NoGroups(c) || !GivesAv(c, c.globals[|c.globals| - 1].key))
    ensures Fits(cfg, c) && (SplitAll(cfg, Print(cfg, c)) == Split(c) <==> OnlyDoubled(c))
  {
    ClashPrinted(cfg, c);
    hide ClashAtEnd, SplitAll, Print, GivesAv;
    if OnlyDoubled(c) {
      DoubledComesBack(cfg, c);
    } else if SplitAll(cfg, Print(cfg, c)) == Split(c) {
      if NoGroups(c) {
        BackWithoutGroups(cfg, c);
      } else {
        BackGivesAv(cfg, c);
      }
    }
  }

  lemma BackWithoutGroups(cfg: Config, c: Context)
    requires ClashAtEnd(cfg, c) && Fits(cfg, c) && NoGroups(c) && SplitAll(cfg, Print(cfg, c)) == Split(c)
    ensures OnlyDoubled(c)
  {
    ClashPrinted(cfg, c);
    TailWithoutGroups(cfg, c);
    var key, start := c.globals[|c.globals| - 1].key, Empty(cfg).(globals := WithoutLast(c).globals);
    assert start.av + c.av == c.av;
    assert Clash(cfg, key, false);
    hide SplitAll, SplitRest, Print, PrintTail, PrintAv, PrintOpts, Clash, PrintableLast;
    ShiftedComesBack(cfg, key, c.av, c.opts, start);
  }

  lemma BackGivesAv(cfg: Config, c: Context)
    requires ClashAtEnd(cfg, c) && Fits(cfg, c) && !NoGroups(c) && SplitAll(cfg, Print(cfg, c)) == Split(c)
    ensures GivesAv(c, c.globals[|c.globals| - 1].key)
  {
    ClashPrinted(cfg, c);
    NothingAfterGlobals(cfg, c);
    var key, start := c.globals[|c.globals| - 1].key, Empty(cfg).(globals := WithoutLast(c).globals);
    assert Clash(cfg, key, false);
    hide SplitAll, SplitRest, Print, PrintTail, Clash, PrintableLast, GivesAv;
    ClashTakes(cfg, key, PrintTail(cfg, c), start);
  }

  lemma TailWithoutGroups(cfg: Config, c: Context)
    requires Fits(cfg, c) && NoGroups(c)
    ensures PrintTail(cfg, c) == PrintAv(c.av) + PrintOpts(c.opts)
  {
    NoLists(cfg, c.groups, |c.groups|);
  }

  lemma DoubledComesBack(cfg: Config, c: Context)
    requires ClashAtEnd(cfg, c) && OnlyDoubled(c)
    ensures SplitAll(cfg, Print(cfg, c)) == Split(c)
  {
    var o, start := c.globals[|c.globals| - 1], Empty(cfg).(globals := WithoutLast(c).globals);
    var k := "-" + o.key;
    ClashPrinted(cfg, c);
    TailWithoutGroups(cfg, c);
    assert PrintAv(c.av) + PrintOpts(c.opts) == PrintAv(c.av);
    DoubledPrinted(c.av, o.key);
    assert PrintableAvs(cfg, c.av) && PrintableLast(cfg, o) && Clash(cfg, o.key, false);
    hide SplitRest, SplitAll, Print, PrintTail, PrintAv, PrintableAv, PrintableLast, Clash;
    SplitAvs(cfg, c.av, [k], start);
    assert start.av + c.av == c.av;
    ClashAlone(cfg, o, start.(av := c.av));
    OnlyGlobalsIs(cfg, c);
  }

  lemma NotPrintable(cfg: Config, c: Context)
    requires EndsInClash(cfg, c)
    ensures !Printable(cfg, c)
  {
    assert !PrintableOpt(cfg, c.globals[|c.globals| - 1]);
  }

  lemma OnlyGlobalsIs(cfg: Config, c: Context)
    requires Fits(cfg, c) && NoGroups(c) && c.opts == []
    requires c.globals != [] && !c.globals[|c.globals| - 1].def.perFile
    ensures Added(Empty(cfg).(globals := WithoutLast(c).globals, av := c.av), c.globals[|c.globals| - 1]) == c
  {
    assert c.groups == Empty(cfg).groups;
    assert WithoutLast(c).globals + [c.globals[|c.globals| - 1]] == c.globals;
  }

  /** With a clash, `f -nofoo` is an output f and the global option foo off, which does not come back. */
  lemma ClashBreaks(cfg: Config, key: string)
    requires |cfg.separators| > 0 && Clash(cfg, key, false)
    ensures InScope(cfg, ["f", "-" + key]) && !RoundTrips(cfg, ["f", "-" + key])
  {
    var args := ["f", "-" + key];
    var start := Empty(cfg);
    var o := Opt(FindOption(cfg.options, key[2..]).value, key, Some("0"));
    var c1 := start.(groups := start.groups[0 := [Group("f", [], [])]]);
    assert args[1..] == ["-" + key];
    assert start.groups[0] + [Group("f", [], [])] == [Group("f", [], [])];
    assert Step(cfg, args, false, start) == Go(["-" + key], false, c1);
    SplitStep(cfg, args, false, start);
    ClashAlone(cfg, o, c1);
    var c := SplitAll(cfg, args).context;
    assert c == Added(c1, o) && c.globals == [o] && c.groups[0] != [];
    assert !Exits(c) && !GivesAv(c, key);
    LineRoundTripsIff(cfg, args);
  }

  /** Where the clash also names an AVOption, the line may come back: `-nofoo -nofoo -nofoo` does. */
  lemma ClashReturns(cfg: Config, key: string)
    requires |cfg.separators| > 0 && Clash(cfg, key, false) && !cfg.refuses(key, "-" + key)
    ensures var args := ["-" + key, "-" + key, "-" + key];
            && InScope(cfg, args) && RoundTrips(cfg, args)
            && EndsInClash(cfg, SplitAll(cfg, args).context) && !OnlyGlobals(SplitAll(cfg, args).context)
  {
    var k := "-" + key;
    var args, start, a := [k, k, k], Empty(cfg), AvOpt(key, k);
    var o := Opt(FindOption(cfg.options, key[2..]).value, key, Some("0"));
    var c1 := WithAv(start, a);
    KeyToken(cfg, key, Some(k));
    assert args[1..] == [k, k] && args[1..][1..] == [k];
    SplitStep(cfg, args, false, start);
    ClashAlone(cfg, o, c1);
    var c := Added(c1, o);
    assert SplitAll(cfg, args) == Split(c) && c.globals == [o] && c.av == [a];
    assert !Exits(c);
    NegationPrinted(cfg, o);
    hide SplitRest, FindOption, BaseName, MatchSeparator, Exits, PrintOpt;
    NoLists(cfg, c.groups, |c.groups|);
    assert [o][1..] == [] && [a][1..] == [] && c.opts == [];
    assert PrintOpts([o]) == PrintOpt(o) + PrintOpts([]) == [k];
    assert PrintAv([a]) == [k, k] + PrintAv([]) == [k, k] && PrintOpts(c.opts) == [];
    assert Print(cfg, c) == args;
  }

  /**
   * The round trip holds for every command line exactly when no global boolean option
   * foo of the program meets an AVOption nofoo.
   */
  lemma RoundTripsIff(cfg: Config)
    requires |cfg.separators| > 0
    ensures (forall args :: InScope(cfg, args) ==> RoundTrips(cfg, args)) <==> !GlobalClash(cfg)
  {
    if GlobalClash(cfg) {
      var key :| Clash(cfg, key, false);
      ClashBreaks(cfg, key);
    } else {
      forall args | InScope(cfg, args) ensures RoundTrips(cfg, args) {
        RoundTrip(cfg, args);
      }
    }
  }
}
