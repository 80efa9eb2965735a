/**
 * The parser: flag registration into a token table, alias expansion, the
 * token-routing loop and default enforcement.
 *
 * The first half of the module gives each phase as a function on values; the
 * `Parser` class below runs the phases on its own state and on the registered
 * flag objects, and every one of its methods is proved equal to the matching
 * function. Go's map iteration order, which decides what alias expansion
 * reports, is the explicit parameter `order`.
 */
module Parsing {
  import opened Options
  import opened Flags

  /////////////////////
  // Names and tokens //

  /** The number of bytes of `c` in UTF-8, the encoding of Go strings. */
  function Utf8Width(c: char): nat {
    if c as int < 0x80 then 1
    else if c as int < 0x800 then 2
    else if c as int < 0x1_0000 then 3
    else 4
  }

  /**
   * Go's `len` of a string: its length in UTF-8 bytes. It is at least the
   * number of characters, and it is 1 exactly for a single ASCII character.
   */
  function ByteLen(s: string): (n: nat)
    ensures |s| <= n
    ensures n == 0 <==> s == []
    ensures n == 1 <==> |s| == 1 && s[0] as int < 0x80
    decreases |s|
  {
    if s == [] then 0 else Utf8Width(s[0]) + ByteLen(s[1..])
  }

  /** `n` copies of the character `c`: dashes before a flag name, spaces of padding. */
  function Repeat(c: char, n: nat): (s: string)
    ensures |s| == n && forall j :: 0 <= j < n ==> s[j] == c
  {
    seq(n, _ => c)
  }

  /**
   * The token that names a flag on the command line: `-n` for a name of one
   * byte, `--name` for a longer one, and nothing for the empty name. A name
   * of one byte is a single ASCII character (`ByteLen`); `Name2FlagByLength`
   * restates the token in terms of the byte length.
   */
  function Name2Flag(name: string): (token: string)
    ensures |token| == 0 <==> |name| == 0
    ensures |name| > 0 ==> |token| == |name| + (if |name| == 1 && name[0] as int < 0x80 then 1 else 2)
    ensures |name| > 0 ==> token == Repeat('-', |token| - |name|) + name
  {
    if |name| == 0 then ""
    else if |name| == 1 && name[0] as int < 0x80 then "-" + name
    else "--" + name
  }

  /** `strings.HasPrefix(arg, "-")`: the routing loop reads such a token as a flag. */
  predicate IsFlagToken(arg: string)
  {
    |arg| > 0 && arg[0] == '-'
  }

  /** The aliases of a flag: its names after the canonical one. */
  function Aliases(names: seq<string>): seq<string> {
    if |names| == 0 then [] else names[1..]
  }

  /////////////
  // flagset //

  /** The errors of `flagset.add`: they become definition or expansion errors. */
  datatype AddError = EmptyName(flag: Flag) | AlreadyExists(token: string)

  function ErrorList(e: Option<AddError>): seq<AddError> {
    if e.Some? then [e.value] else []
  }

  /**
   * `flagset.add`: a non-empty token that is not yet present is bound to `f`;
   * otherwise the table is returned as it was, with the reason.
   */
  function Add(fs: map<string, Flag>, token: string, f: Flag): (r: (map<string, Flag>, Option<AddError>))
    ensures r.1.None? <==> token != "" && token !in fs
    ensures r.1.None? ==> r.0 == fs[token := f] && r.0.Keys == fs.Keys + {token}
    ensures r.1.Some? ==> r.0 == fs
    ensures token == "" ==> r.1 == Some(EmptyName(f))
    ensures token != "" && token in fs ==> r.1 == Some(AlreadyExists(token))
    ensures forall t :: t in fs ==> t in r.0 && r.0[t] == fs[t]
  {
    if |token| == 0 then (fs, Some(EmptyName(f)))
    else if token in fs then (fs, Some(AlreadyExists(token)))
    else (fs[token := f], None)
  }

  /** The inner loop of `expand`: add every alias of `f`, collecting the failures in order. */
  function AddAliases(res: map<string, Flag>, errs: seq<AddError>, aliases: seq<string>, f: Flag)
    : (r: (map<string, Flag>, seq<AddError>))
    ensures |errs| <= |r.1| <= |errs| + |aliases|
    decreases |aliases|
  {
    if aliases == [] then (res, errs)
    else
      var added := Add(res, Name2Flag(aliases[0]), f);
      AddAliases(added.0, errs + ErrorList(added.1), aliases[1..], f)
  }

  /** Every key of `fs` visited by `order` has a view. */
  ghost predicate OrderResolves(fs: map<string, Flag>, views: map<Flag, FlagView>, order: seq<string>) {
    forall k :: k in order ==> k in fs && fs[k] in views
  }

  /**
   * The outer loop of `expand` over the canonical tokens in `order`: copy the
   * canonical entry with a plain assignment, then add the aliases.
   */
  function ExpandFrom(fs: map<string, Flag>, views: map<Flag, FlagView>, order: seq<string>,
                      res: map<string, Flag>, errs: seq<AddError>): (r: (map<string, Flag>, seq<AddError>))
    requires OrderResolves(fs, views, order)
    ensures |errs| <= |r.1|
    ensures order == [] ==> r == (res, errs)
    decreases |order|
  {
    if order == [] then (res, errs)
    else
      var f := fs[order[0]];
      var added := AddAliases(res[order[0] := f], errs, Aliases(views[f].names), f);
      ExpandFrom(fs, views, order[1..], added.0, added.1)
  }

  /** `flagset.expand`: a fresh table with every canonical token and alias, and the collisions met. */
  function Expansion(fs: map<string, Flag>, views: map<Flag, FlagView>, order: seq<string>)
    : (r: (map<string, Flag>, seq<AddError>))
    requires OrderResolves(fs, views, order)
    ensures BindsWithin(r.0, fs.Values)
  {
    assert BindsWithin(fs, fs.Values) && BindsWithin(map[], fs.Values);
    ExpandFromValues(fs, views, order, map[], [], fs.Values);
    ExpandFrom(fs, views, order, map[], [])
  }

  /** `order` lists every key of `fs` exactly once: one possible Go map iteration. */
  ghost predicate IsIterationOrder(order: seq<string>, fs: map<string, Flag>) {
    && (forall k :: k in fs <==> k in order)
    && (forall a, b :: 0 <= a < b < |order| ==> order[a] != order[b])
  }

  /////////////
  // Routing //

  /** Where the next value token goes: the positional list or a flag. */
  datatype Sink = Positional | ToFlag(flag: Flag)

  datatype ParseError =
    | DefinitionErrors(defErrors: seq<AddError>)
    | ExpansionErrors(expansionErrors: seq<AddError>)
    | UnknownFlag(token: string)
    | MissingValue(token: string)
    | ConsumeFailed(sink: Sink, value: string)

  /** What the routing loop changes: the positional list and the flags. */
  datatype RouteState = RouteState(positional: seq<string>, views: map<Flag, FlagView>)

  datatype Outcome = Outcome(state: RouteState, err: Option<ParseError>)

  /** Every flag the table names has a view. */
  ghost predicate Resolves(table: map<string, Flag>, views: map<Flag, FlagView>) {
    forall t :: t in table ==> table[t] in views
  }

  ghost predicate SinkResolves(sink: Sink, views: map<Flag, FlagView>) {
    sink.ToFlag? ==> sink.flag in views
  }

  /** `full()` of a sink: the positional list never is, a singleton flag once set. */
  predicate SinkFull(sink: Sink, views: map<Flag, FlagView>)
    requires SinkResolves(sink, views)
    ensures SinkFull(sink, views) <==> sink.ToFlag? && sink.flag.shape == Singleton && views[sink.flag].alreadySet
  {
    match sink
    case Positional => false
    case ToFlag(f) => Saturated(f, views[f])
  }

  /** `consume` on a sink: append to the positional list, or let the flag decode and store. */
  function ConsumeInto(sink: Sink, token: string, rs: RouteState): (r: Option<RouteState>)
    requires SinkResolves(sink, rs.views)
    ensures r.Some? ==> r.value.views.Keys == rs.views.Keys
  {
    match sink
    case Positional => Some(rs.(positional := rs.positional + [token]))
    case ToFlag(f) =>
      match Consumed(f, rs.views[f], token)
      case None => None
      case Some(v) => Some(rs.(views := rs.views[f := v]))
  }

  /**
   * `processArguments` from token `i` on, with `sink` the current sink. A value
   * goes to the current sink, or to the positional list when that sink is
   * full; a flag token becomes the current sink; a boolean singleton is set at
   * once; an unknown flag, a non-boolean flag with nothing after it, and a
   * value the sink cannot decode stop the loop, keeping what was done before.
   */
  function Process(args: seq<string>, i: nat, table: map<string, Flag>, sink: Sink, rs: RouteState): (r: Outcome)
    requires i <= |args|
    requires Resolves(table, rs.views) && SinkResolves(sink, rs.views)
    ensures r.state.views.Keys == rs.views.Keys
    ensures rs.positional <= r.state.positional
    decreases |args| - i
  {
    if i == |args| then Outcome(rs, None)
    else
      var arg := args[i];
      if !IsFlagToken(arg) then
        var dest := if SinkFull(sink, rs.views) then Positional else sink;
        match ConsumeInto(dest, arg, rs)
        case None => Outcome(rs, Some(ConsumeFailed(dest, arg)))
        case Some(next) => Process(args, i + 1, table, dest, next)
      else if arg !in table then
        Outcome(rs, Some(UnknownFlag(arg)))
      else
        var f := table[arg];
        if IsBoolSingleton(f) then
          // The source discards the result of consume("true"), which cannot fail.
          Process(args, i + 1, table, ToFlag(f), ConsumeInto(ToFlag(f), "true", rs).GetOr(rs))
        else if i == |args| - 1 then
          Outcome(rs, Some(MissingValue(arg)))
        else
          Process(args, i + 1, table, ToFlag(f), rs)
  }

  /** The default loop of `finalizeParse`, over the flags in registration order. */
  function EnforceDefaults(flags: seq<Flag>, views: map<Flag, FlagView>): (r: map<Flag, FlagView>)
    requires forall f :: f in flags ==> f in views
    ensures r.Keys == views.Keys
    decreases |flags|
  {
    if flags == [] then views
    else EnforceDefaults(flags[1..], views[flags[0] := Defaulted(views[flags[0]])])
  }

  ///////////
  // Parse //

  /** All of a parser's state together with the state of its flags. */
  datatype ParserState = ParserState(
    flags: map<string, Flag>,
    canonical: seq<Flag>,
    defErrors: seq<AddError>,
    positional: seq<string>,
    views: map<Flag, FlagView>)

  ghost predicate WellFormed(st: ParserState) {
    && (forall k :: k in st.flags ==> st.flags[k] in st.views)
    && (forall f :: f in st.canonical ==> f in st.views)
  }

  /**
   * `registerflag` on values: bind the canonical token of a flag whose state
   * is `view` (or record why it cannot be bound) and append the flag to the
   * registration list.
   */
  function RegisterSpec(st: ParserState, flag: Flag, view: FlagView): (r: ParserState)
    requires view.names != []
    ensures var token := Name2Flag(view.names[0]);
            && r.canonical == st.canonical + [flag] && r.positional == st.positional
            && r.views == st.views[flag := view]
            && (token != "" && token !in st.flags <==> r.defErrors == st.defErrors)
            && (token != "" && token !in st.flags ==> r.flags == st.flags[token := flag])
            && (token == "" || token in st.flags ==> r.flags == st.flags && |r.defErrors| == |st.defErrors| + 1)
  {
    var added := Add(st.flags, Name2Flag(view.names[0]), flag);
    ParserState(added.0, st.canonical + [flag], st.defErrors + ErrorList(added.1), st.positional, st.views[flag := view])
  }

  /** Renaming a registered flag after the fact, keeping its canonical name, is registering it renamed. */
  lemma RegisterSpecRenamed(st: ParserState, flag: Flag, view: FlagView, renamed: FlagView)
    requires view.names != [] && renamed.names != [] && renamed.names[0] == view.names[0]
    ensures var r := RegisterSpec(st, flag, view);
            r.(views := r.views[flag := renamed]) == RegisterSpec(st, flag, renamed)
  {
    var token := Name2Flag(view.names[0]);
    assert Name2Flag(renamed.names[0]) == token;
  }

  /** `validateAndExpand`: the expanded table, or every definition or expansion error at once. */
  function ValidateAndExpandSpec(st: ParserState, order: seq<string>): (r: (map<string, Flag>, Option<ParseError>))
    requires WellFormed(st) && forall k :: k in order ==> k in st.flags
    ensures r.1.None? <==> |st.defErrors| == 0 && |Expansion(st.flags, st.views, order).1| == 0
    ensures r.1.Some? ==> r.0 == map[]
    ensures |st.defErrors| > 0 ==> r.1 == Some(DefinitionErrors(st.defErrors))
    ensures r.1.None? ==> BindsWithin(r.0, st.flags.Values)
  {
    if |st.defErrors| > 0 then (map[], Some(DefinitionErrors(st.defErrors)))
    else
      var expanded := Expansion(st.flags, st.views, order);
      if |expanded.1| > 0 then (map[], Some(ExpansionErrors(expanded.1)))
      else (expanded.0, None)
  }

  /** What `Parse` leaves: the positional list, the flags, and the error if any. */
  datatype ParseOutcome = ParseOutcome(positional: seq<string>, views: map<Flag, FlagView>, err: Option<ParseError>)

  /**
   * `Parse`: refuse on any definition or expansion error before touching
   * anything; otherwise route every token, and, only if that succeeded, apply
   * the defaults of the flags never set.
   */
  function ParseSpec(st: ParserState, args: seq<string>, order: seq<string>): (r: ParseOutcome)
    requires WellFormed(st) && forall k :: k in order ==> k in st.flags
    ensures ValidateAndExpandSpec(st, order).1.Some? ==> r == ParseOutcome(st.positional, st.views, ValidateAndExpandSpec(st, order).1)
    ensures st.positional <= r.positional
  {
    var validated := ValidateAndExpandSpec(st, order);
    if validated.1.Some? then ParseOutcome(st.positional, st.views, validated.1)
    else
      assert Resolves(validated.0, st.views) by { ExpandResolves(st.flags, st.views, order); }
      var routed := Process(args, 0, validated.0, Positional, RouteState(st.positional, st.views));
      if routed.err.Some? then ParseOutcome(routed.state.positional, routed.state.views, routed.err)
      else ParseOutcome(routed.state.positional, EnforceDefaults(st.canonical, routed.state.views), None)
  }

  /** Every token of `table` is bound to a flag of `allowed`. */
  ghost predicate BindsWithin(table: map<string, Flag>, allowed: set<Flag>) {
    forall t :: t in table ==> table[t] in allowed
  }

  /** Expansion binds tokens only to flags of the input table. */
  lemma {:induction false} ExpandFromValues(fs: map<string, Flag>, views: map<Flag, FlagView>, order: seq<string>,
                                            res: map<string, Flag>, errs: seq<AddError>, allowed: set<Flag>)
    requires OrderResolves(fs, views, order)
    requires BindsWithin(fs, allowed) && BindsWithin(res, allowed)
    ensures BindsWithin(ExpandFrom(fs, views, order, res, errs).0, allowed)
    decreases |order|
  {
    if order != [] {
      var f := fs[order[0]];
      AddAliasesValues(res[order[0] := f], errs, Aliases(views[f].names), f, allowed);
      var added := AddAliases(res[order[0] := f], errs, Aliases(views[f].names), f);
      assert ExpandFrom(fs, views, order, res, errs) == ExpandFrom(fs, views, order[1..], added.0, added.1);
      ExpandFromValues(fs, views, order[1..], added.0, added.1, allowed);
    }
  }

  lemma {:induction false} AddAliasesValues(res: map<string, Flag>, errs: seq<AddError>, aliases: seq<string>,
                                            f: Flag, allowed: set<Flag>)
    requires f in allowed && BindsWithin(res, allowed)
    ensures BindsWithin(AddAliases(res, errs, aliases, f).0, allowed)
    decreases |aliases|
  {
    if aliases != [] {
      var added := Add(res, Name2Flag(aliases[0]), f);
      assert AddAliases(res, errs, aliases, f) == AddAliases(added.0, errs + ErrorList(added.1), aliases[1..], f);
      AddAliasesValues(added.0, errs + ErrorList(added.1), aliases[1..], f, allowed);
    }
  }

  lemma ExpandResolves(fs: map<string, Flag>, views: map<Flag, FlagView>, order: seq<string>)
    requires OrderResolves(fs, views, order)
    requires BindsWithin(fs, views.Keys)
    ensures BindsWithin(Expansion(fs, views, order).0, views.Keys)
  {
    ExpandFromValues(fs, views, order, map[], [], views.Keys);
  }

  ////////////
  // Parser //

  class Parser {
    var flags: map<string, Flag>
    var canonical: seq<Flag>
    var flagDefErrors: seq<AddError>
    var positional: seq<string>
    var usage: string

    /** The registered flags. */
    ghost function Flags(): set<Flag>
      reads this`canonical
    {
      set f | f in canonical
    }

    ghost predicate Valid()
      reads this`flags, this`canonical, Flags()
    {
      && (forall k :: k in flags ==> flags[k] in canonical)
      && (forall f :: f in canonical ==> f.Valid())
    }

    /** The state of every registered flag. */
    ghost function Views(): map<Flag, FlagView>
      reads this`canonical, Flags()
    {
      map f | f in Flags() :: f.View()
    }

    ghost function State(): ParserState
      reads this, Flags()
    {
      ParserState(flags, canonical, flagDefErrors, positional, Views())
    }

    lemma ViewOf(f: Flag)
      requires f in canonical
      ensures f in Views() && Views()[f] == f.View()
    {
      assert f in Flags();
    }

    lemma StateWellFormed()
      requires Valid()
      ensures WellFormed(State())
    {
    }

    /** `NewParser` without options: nothing registered, no error, no positional argument. */
    constructor ()
      ensures Valid()
      ensures flags == map[] && canonical == [] && flagDefErrors == [] && positional == [] && usage == ""
    {
      flags := map[];
      canonical := [];
      flagDefErrors := [];
      positional := [];
      usage := "";
    }

    /** `errdef`: record one definition error. */
    method ErrDef(err: AddError)
      modifies this`flagDefErrors
      ensures flagDefErrors == old(flagDefErrors) + [err]
    {
      flagDefErrors := flagDefErrors + [err];
    }

    /**
     * `registerflag`: bind the canonical token to the flag, recording an error
     * when it is empty or taken, and append the flag to the registration list
     * in every case.
     */
    method RegisterFlag(flag: Flag)
      requires Valid() && flag.Valid()
      modifies this`flags, this`canonical, this`flagDefErrors
      ensures Valid()
      ensures State() == RegisterSpec(old(State()), flag, flag.View())
    {
      ghost var before := State();
      var added := Add(flags, Name2Flag(flag.Names()[0]), flag);
      flags := added.0;
      if added.1.Some? {
        ErrDef(added.1.value);
      }
      assert flagDefErrors == before.defErrors + ErrorList(added.1);
      assert Views() == before.views;
      AppendCanonical(flag);
      assert State() == ParserState(added.0, before.canonical + [flag], before.defErrors + ErrorList(added.1),
                                    before.positional, before.views[flag := flag.View()]);
    }

    /** Append `flag` to the registration list: its view joins the others. */
    method AppendCanonical(flag: Flag)
      requires flag.Valid() && forall g :: g in canonical ==> g.Valid()
      modifies this`canonical
      ensures canonical == old(canonical) + [flag]
      ensures Views() == old(Views())[flag := flag.View()]
    {
      ghost var before := Views();
      canonical := canonical + [flag];
      assert Views() == before[flag := flag.View()] by {
        assert Flags() == before.Keys + {flag};
      }
    }

    /** `flagset.expand` on the registered table, visiting its keys in `order`. */
    method Expand(order: seq<string>) returns (res: map<string, Flag>, errs: seq<AddError>)
      requires Valid() && IsIterationOrder(order, flags)
      ensures (res, errs) == Expansion(flags, Views(), order)
    {
      ghost var views := Views();
      res, errs := map[], [];
      for i := 0 to |order|
        invariant ExpandFrom(flags, views, order[i..], res, errs) == Expansion(flags, views, order)
      {
        var canon := order[i];
        var flag := flags[canon];
        ViewOf(flag);
        assert order[i..][1..] == order[i + 1..];
        assert ExpandFrom(flags, views, order[i..], res, errs)
            == ExpandFrom(flags, views, order[i + 1..], AddAliases(res[canon := flag], errs, Aliases(flag.namesStore), flag).0,
                          AddAliases(res[canon := flag], errs, Aliases(flag.namesStore), flag).1);
        res := res[canon := flag];
        res, errs := AddAliasesOf(res, errs, flag);
      }
      assert order[|order|..] == [];
    }

    /** The alias loop of `flagset.expand` for one flag. */
    static method AddAliasesOf(res: map<string, Flag>, errs: seq<AddError>, flag: Flag)
      returns (res': map<string, Flag>, errs': seq<AddError>)
      requires flag.Valid()
      ensures (res', errs') == AddAliases(res, errs, Aliases(flag.namesStore), flag)
    {
      var names := flag.Names();
      res', errs' := res, errs;
      assert names[1..] == Aliases(names);
      for j := 1 to |names|
        invariant AddAliases(res', errs', names[j..], flag) == AddAliases(res, errs, Aliases(names), flag)
      {
        var added := Add(res', Name2Flag(names[j]), flag);
        assert names[j..][0] == names[j] && names[j..][1..] == names[j + 1..];
        ghost var next := errs' + ErrorList(added.1);
        res' := added.0;
        if added.1.Some? {
          errs' := errs' + [added.1.value];
        }
        assert errs' == next;
      }
      assert names[|names|..] == [];
    }

    /** `validateAndExpand`. */
    method ValidateAndExpand(order: seq<string>) returns (expanded: map<string, Flag>, err: Option<ParseError>)
      requires Valid() && IsIterationOrder(order, flags)
      ensures (expanded, err) == ValidateAndExpandSpec(State(), order)
    {
      if |flagDefErrors| > 0 {
        return map[], Some(DefinitionErrors(flagDefErrors));
      }
      var errs;
      expanded, errs := Expand(order);
      if |errs| > 0 {
        return map[], Some(ExpansionErrors(errs));
      }
      err := None;
    }

    /** `PositionalArguments.consume`: append, never fail. */
    method ConsumePositional(value: string)
      modifies this`positional
      ensures positional == old(positional) + [value]
    {
      positional := positional + [value];
    }

    /**
     * The value branch of `processArguments`: fall back to the positional list
     * when the current sink is full, then let the sink consume the token.
     */
    method ConsumeValue(sink: Sink, arg: string) returns (dest: Sink, ok: bool)
      requires Valid() && (sink.ToFlag? ==> sink.flag in canonical)
      modifies this`positional, Flags()
      ensures Valid() && (dest.ToFlag? ==> dest.flag in canonical)
      ensures old(SinkResolves(sink, Views()))
      ensures dest == if old(SinkFull(sink, Views())) then Positional else sink
      ensures ConsumeInto(dest, arg, RouteState(old(positional), old(Views())))
           == if ok then Some(RouteState(positional, Views())) else None
      ensures !ok ==> positional == old(positional) && Views() == old(Views())
    {
      ghost var before := RouteState(positional, Views());
      dest := sink;
      if sink.ToFlag? {
        ViewOf(sink.flag);
        if sink.flag.Full() {
          dest := Positional;
        }
      }
      if dest.Positional? {
        ConsumePositional(arg);
        ok := true;
      } else {
        ok := dest.flag.Consume(arg);
        assert Views() == before.views[dest.flag := dest.flag.View()];
        assert !ok ==> Views() == before.views;
      }
    }

    /**
     * One turn of the routing loop of `processArguments`, on token `i` with
     * `sink` as the current sink: either the loop goes on with `next`, or it
     * stops with `err`.
     */
    method RouteToken(arguments: seq<string>, i: nat, table: map<string, Flag>, sink: Sink)
      returns (next: Sink, err: Option<ParseError>)
      requires i < |arguments| && Valid()
      requires forall t :: t in table ==> table[t] in canonical
      requires sink.ToFlag? ==> sink.flag in canonical
      modifies this`positional, Flags()
      ensures Valid() && (next.ToFlag? ==> next.flag in canonical)
      ensures var before := Process(arguments, i, table, sink, RouteState(old(positional), old(Views())));
              if err.Some? then before == Outcome(RouteState(positional, Views()), err)
              else before == Process(arguments, i + 1, table, next, RouteState(positional, Views()))
    {
      var arg := arguments[i];
      ghost var before := RouteState(positional, Views());
      if !IsFlagToken(arg) {
        var ok;
        next, ok := ConsumeValue(sink, arg);
        err := if ok then None else Some(ConsumeFailed(next, arg));
        return;
      }
      if arg !in table {
        return sink, Some(UnknownFlag(arg));
      }
      var f := table[arg];
      next, err := ToFlag(f), None;
      if IsBoolSingleton(f) {
        ViewOf(f);
        var _ := f.Consume("true");
        assert Views() == before.views[f := f.View()];
        assert ConsumeInto(next, "true", before).GetOr(before) == RouteState(positional, Views());
      } else if i == |arguments| - 1 {
        err := Some(MissingValue(arg));
      }
    }

    /** `processArguments`: route every token, stopping at the first error. */
    method ProcessArguments(arguments: seq<string>, table: map<string, Flag>) returns (err: Option<ParseError>)
      requires Valid()
      requires forall t :: t in table ==> table[t] in canonical
      modifies this`positional, Flags()
      ensures Valid()
      ensures var r := Process(arguments, 0, table, Positional, RouteState(old(positional), old(Views())));
              positional == r.state.positional && Views() == r.state.views && err == r.err
    {
      var sink := Positional;
      for i := 0 to |arguments|
        invariant Valid()
        invariant sink.ToFlag? ==> sink.flag in canonical
        invariant Process(arguments, i, table, sink, RouteState(positional, Views()))
               == Process(arguments, 0, table, Positional, RouteState(old(positional), old(Views())))
      {
        sink, err := RouteToken(arguments, i, table, sink);
        if err.Some? {
          return;
        }
      }
      err := None;
    }

    /** The default loop of `finalizeParse` (the help page branch is not modelled). */
    method FinalizeParse()
      requires Valid()
      modifies Flags()
      ensures Valid()
      ensures Views() == EnforceDefaults(canonical, old(Views()))
    {
      for i := 0 to |canonical|
        invariant Valid()
        invariant EnforceDefaults(canonical[i..], Views()) == EnforceDefaults(canonical, old(Views()))
      {
        var f := canonical[i];
        assert canonical[i..][0] == f && canonical[i..][1..] == canonical[i + 1..];
        EnforceDefaultOf(f);
      }
      assert canonical[|canonical|..] == [];
    }

    /** `enforceDefault` on one registered flag: only that flag's view changes. */
    method EnforceDefaultOf(f: Flag)
      requires Valid() && f in canonical
      modifies f`dest
      ensures Valid()
      ensures Views() == old(Views())[f := Defaulted(old(Views())[f])]
    {
      ghost var before := Views();
      ViewOf(f);
      f.EnforceDefault();
      assert Views() == before[f := f.View()] by {
        assert Flags() == before.Keys;
      }
    }

    /** `Parse`: validate and expand, route the tokens, then enforce the defaults. */
    method Parse(arguments: seq<string>, order: seq<string>) returns (err: Option<ParseError>)
      requires Valid() && IsIterationOrder(order, flags)
      modifies this`positional, Flags()
      ensures Valid()
      ensures var r := ParseSpec(old(State()), arguments, order);
              positional == r.positional && Views() == r.views && err == r.err
    {
      var expanded;
      expanded, err := ValidateAndExpand(order);
      if err.Some? {
        return;
      }
      ExpandFromValues(flags, Views(), order, map[], [], Flags());
      err := ProcessArguments(arguments, expanded);
      if err.Some? {
        return;
      }
      FinalizeParse();
    }
  }
}
