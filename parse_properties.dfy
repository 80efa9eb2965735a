/**
 * Properties of flag tokens, of default enforcement and of a whole `Parse`:
 * refusal before any change when a definition or expansion error exists,
 * defaults only after a clean routing pass, and flags that are never renamed,
 * never lose their default and never become unset again.
 */
module ParseProperties {
  import opened Options
  import opened Flags
  import opened Parsing
  import opened RouteProperties

  ////////////
  // Tokens //

  /** The token chosen by the name's length in bytes: none for 0, one dash for 1, two dashes beyond. */
  lemma Name2FlagByLength(name: string)
    ensures Name2Flag(name) == if ByteLen(name) == 0 then "" else if ByteLen(name) == 1 then "-" + name else "--" + name
  {
  }

  /** A one-character name outside ASCII takes two bytes in Go, hence two dashes: `é` gives `--é`. */
  lemma NonAsciiLetterTakesTwoDashes()
    ensures ByteLen("é") == 2 && Name2Flag("é") == "--é"
  {
  }

  /** Distinct names give distinct tokens. */
  lemma Name2FlagInjective(a: string, b: string)
    requires Name2Flag(a) == Name2Flag(b)
    ensures a == b
  {
    var t := Name2Flag(a);
    if |a| > 0 {
      assert |a| == |b|;
      assert a == t[|t| - |a|..] == b;
    }
  }

  /** The routing loop reads a token as a flag exactly when `-` is a prefix of it. */
  lemma FlagTokenIsDashPrefix(arg: string)
    ensures IsFlagToken(arg) <==> "-" <= arg
    ensures IsFlagToken(arg) ==> arg == "-" + arg[1..]
  {
    if IsFlagToken(arg) {
      assert arg[..1] == "-";
    }
  }

  /** A token built from a name is read back as a flag iff the name is non-empty. */
  lemma Name2FlagIsFlagToken(name: string)
    ensures IsFlagToken(Name2Flag(name)) <==> name != ""
  {
  }

  /** No name yields `-`, and only the name `-` yields `--`: both are unknown flags otherwise. */
  lemma DashTokens(name: string)
    ensures Name2Flag(name) != "-"
    ensures Name2Flag(name) == "--" <==> name == "-"
  {
    if name == "-" {
      assert Name2Flag(name) == "--";
    }
    if Name2Flag(name) == "--" {
      assert |name| == 1 && name[0] == "--"[1];
    }
  }

  //////////////////
  // Registration //

  /**
   * Registering keeps the state well formed and binds the canonical token to
   * the new flag exactly when the token is non-empty and free; every earlier
   * binding and every earlier flag's state stays.
   */
  lemma RegisterBinds(st: ParserState, flag: Flag, view: FlagView)
    requires WellFormed(st) && view.names != []
    ensures var token := Name2Flag(view.names[0]);
            var r := RegisterSpec(st, flag, view);
            && WellFormed(r)
            && (r.defErrors == st.defErrors <==> token != "" && token !in st.flags)
            && (r.defErrors == st.defErrors ==> r.flags == st.flags[token := flag])
            && (forall t :: t in st.flags ==> t in r.flags && r.flags[t] == st.flags[t])
            && (forall g :: g in st.views && g != flag ==> r.views[g] == st.views[g])
  {
    var added := Add(st.flags, Name2Flag(view.names[0]), flag);
    if added.1.Some? {
      assert |st.defErrors + ErrorList(added.1)| == |st.defErrors| + 1;
    }
  }

  /**
   * A flag whose canonical name is empty or already taken is still listed,
   * but every later `Parse` refuses with the recorded error and changes nothing.
   */
  lemma ClashingRegistrationRefuses(st: ParserState, flag: Flag, view: FlagView, args: seq<string>, order: seq<string>)
    requires WellFormed(st) && view.names != []
    requires Name2Flag(view.names[0]) == "" || Name2Flag(view.names[0]) in st.flags
    requires forall k :: k in order ==> k in st.flags
    ensures var r := RegisterSpec(st, flag, view);
            var err := if view.names[0] == "" then EmptyName(flag) else AlreadyExists(Name2Flag(view.names[0]));
            && WellFormed(r) && r.flags == st.flags && r.canonical == st.canonical + [flag]
            && ParseSpec(r, args, order) == ParseOutcome(st.positional, r.views, Some(DefinitionErrors(st.defErrors + [err])))
  {
    RegisterBinds(st, flag, view);
  }

  //////////////
  // Defaults //

  /** The default loop applies `enforceDefault` to every listed flag, once or more, and to no other. */
  lemma {:induction false} EnforceDefaultsApplies(flags: seq<Flag>, views: map<Flag, FlagView>)
    requires forall f :: f in flags ==> f in views
    ensures var r := EnforceDefaults(flags, views);
            forall f :: f in views ==> r[f] == if f in flags then Defaulted(views[f]) else views[f]
    decreases |flags|
  {
    if flags != [] {
      var views' := views[flags[0] := Defaulted(views[flags[0]])];
      EnforceDefaultsApplies(flags[1..], views');
      forall f | f in views
        ensures EnforceDefaults(flags, views)[f] == if f in flags then Defaulted(views[f]) else views[f]
      {
        if f != flags[0] && f in flags {
          assert f in flags[1..];
        }
      }
    }
  }

  /**
   * After the default loop every listed flag either was set or holds its
   * default, and nothing else about any flag changed.
   */
  lemma EnforceDefaultsFills(flags: seq<Flag>, views: map<Flag, FlagView>)
    requires forall f :: f in flags ==> f in views
    ensures var r := EnforceDefaults(flags, views);
            && Progressed(views, r)
            && (forall f :: f in views ==> r[f].alreadySet == views[f].alreadySet)
            && (forall f :: f in flags ==> r[f].alreadySet || r[f].dest == r[f].def)
            && (forall f :: f in views && views[f].alreadySet ==> r[f] == views[f])
  {
    EnforceDefaultsApplies(flags, views);
  }

  ///////////
  // Parse //

  /**
   * `validateAndExpand` fails iff a definition error was recorded or the
   * expansion reported a collision; definition errors come first and are
   * all carried, and a failure leaves every flag and the positional list as
   * they were.
   */
  lemma ParseRefuses(st: ParserState, args: seq<string>, order: seq<string>)
    requires WellFormed(st) && forall k :: k in order ==> k in st.flags
    ensures var v := ValidateAndExpandSpec(st, order);
            && (v.1.Some? <==> |st.defErrors| > 0 || |Expansion(st.flags, st.views, order).1| > 0)
            && (|st.defErrors| > 0 ==> v.1 == Some(DefinitionErrors(st.defErrors)))
            && (|st.defErrors| == 0 && v.1.Some? ==> v.1 == Some(ExpansionErrors(Expansion(st.flags, st.views, order).1)))
            && (v.1.Some? ==> ParseSpec(st, args, order) == ParseOutcome(st.positional, st.views, v.1))
  {
  }

  /** `Parse` never renames a flag, never changes a default and never clears an "already set" bit. */
  lemma ParseProgresses(st: ParserState, args: seq<string>, order: seq<string>)
    requires WellFormed(st) && forall k :: k in order ==> k in st.flags
    ensures Progressed(st.views, ParseSpec(st, args, order).views)
  {
    var validated := ValidateAndExpandSpec(st, order);
    if validated.1.None? {
      ExpandResolves(st.flags, st.views, order);
      var rs := RouteState(st.positional, st.views);
      var routed := Process(args, 0, validated.0, Positional, rs);
      ProcessProgresses(args, 0, validated.0, Positional, rs);
      if routed.err.None? {
        EnforceDefaultsFills(st.canonical, routed.state.views);
        ProgressedTransitive(st.views, routed.state.views, EnforceDefaults(st.canonical, routed.state.views));
      }
    }
  }

  /**
   * After a successful `Parse` every registered flag was set or holds its
   * default; after a routing error no default was applied, and the flags
   * and positional list keep what the loop did before it stopped.
   */
  lemma ParseDefaults(st: ParserState, args: seq<string>, order: seq<string>)
    requires WellFormed(st) && forall k :: k in order ==> k in st.flags
    requires ValidateAndExpandSpec(st, order).1.None?
    ensures var table := ValidateAndExpandSpec(st, order).0;
            Resolves(table, st.views) &&
            var routed := Process(args, 0, table, Positional, RouteState(st.positional, st.views));
            var r := ParseSpec(st, args, order);
            && r.positional == routed.state.positional
            && r.err == routed.err
            && (routed.err.Some? ==> r.views == routed.state.views)
            && (routed.err.None? ==>
                  forall f :: f in st.canonical ==> r.views[f] == Defaulted(routed.state.views[f]))
            && (routed.err.None? ==>
                  forall f :: f in st.canonical ==> r.views[f].alreadySet || r.views[f].dest == r.views[f].def)
  {
    var table := ValidateAndExpandSpec(st, order).0;
    ExpandResolves(st.flags, st.views, order);
    var routed := Process(args, 0, table, Positional, RouteState(st.positional, st.views));
    if routed.err.None? {
      EnforceDefaultsApplies(st.canonical, routed.state.views);
      EnforceDefaultsFills(st.canonical, routed.state.views);
    }
  }

  /**
   * A set singleton stays full across `Parse` calls: its bit survives every
   * later parse, clean or not.
   */
  lemma SetStaysSetAcrossParses(st: ParserState, args: seq<string>, order: seq<string>, f: Flag)
    requires WellFormed(st) && forall k :: k in order ==> k in st.flags
    requires f in st.views && st.views[f].alreadySet
    ensures f in ParseSpec(st, args, order).views && ParseSpec(st, args, order).views[f].alreadySet
  {
    ParseProgresses(st, args, order);
  }

  /**
   * Slice values accumulate across `Parse` calls: a slice flag that one parse
   * left unset was given its default but keeps `alreadySet` false, so a run of
   * values in a later parse is appended after the default items instead of
   * replacing them (within a single parse the default is only written after
   * routing, so there the values do take its place).
   */
  lemma DefaultedSliceAppends(args: seq<string>, i: nat, j: nat, table: map<string, Flag>,
                              f: Flag, rs: RouteState, v: FlagView)
    requires i <= j <= |args| && Resolves(table, rs.views) && f in rs.views
    requires f.shape == Slice && v.def.List? && !v.alreadySet && rs.views[f] == Defaulted(v)
    requires forall k :: i <= k < j ==> !IsFlagToken(args[k]) && f.decoder.decode(args[k]).Some?
    ensures var appended := v.(dest := List(v.def.items + DecodedAll(f.decoder, args[i..j])), alreadySet := i < j);
            Process(args, i, table, ToFlag(f), rs)
            == Process(args, j, table, ToFlag(f), rs.(views := rs.views[f := appended]))
  {
    SliceAbsorbsRun(args, i, j, table, f, rs);
    var xs := DecodedAll(f.decoder, args[i..j]);
    assert Absorbed(rs.views[f], xs)
        == v.(dest := List(v.def.items + xs), alreadySet := i < j);
  }
}
