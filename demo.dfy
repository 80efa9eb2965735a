/**
 * The demo program's command line, routed by the parser: the flags it
 * registers (an integer `twentythree` with alias `23`, an integer slice
 * `eight` with alias `8`, a string `four` with alias `4`, a boolean `hatch`)
 * and its fixed token list `4 -8 15 16 --23 42 --hatch 3`.
 */
module Demo {
  import opened Options
  import opened Flags
  import opened Parsing
  import opened RouteProperties
  import opened Registration

  /** The demo's token list, split on spaces. */
  function DemoArgs(): (args: seq<string>)
    ensures |args| == 8
  {
    ["4", "-8", "15", "16", "--23", "42", "--hatch", "3"]
  }

  /**
   * The demo's flags as the routing loop meets them: four distinct flags of
   * the registered kinds, their tokens in the expanded table, none set yet,
   * `eight` empty and `four` defaulting to `4`; `atoi` and `parseBool` read
   * the numbers and `true` as usual.
   */
  ghost predicate DemoSetup(twentythree: Flag, eight: Flag, four: Flag, hatch: Flag, table: map<string, Flag>,
                            views: map<Flag, FlagView>, atoi: string -> Option<int>, parseBool: string -> Option<bool>)
  {
    && twentythree != eight && twentythree != four && twentythree != hatch
    && eight != four && eight != hatch && four != hatch
    && atoi("15") == Some(15) && atoi("16") == Some(16) && atoi("42") == Some(42)
    && parseBool("true") == Some(true)
    && twentythree.shape == Singleton && twentythree.decoder == IntDecoder(atoi)
    && eight.shape == Slice && eight.decoder == IntDecoder(atoi)
    && hatch.shape == Singleton && hatch.decoder == BoolDecoder(parseBool)
    && "-8" in table && table["-8"] == eight
    && "--23" in table && table["--23"] == twentythree
    && "--hatch" in table && table["--hatch"] == hatch
    && Resolves(table, views) && four in views
    && !views[twentythree].alreadySet && !views[hatch].alreadySet && !views[four].alreadySet
    && views[eight].dest == List([]) && views[four].def == Single(StringValue("4"))
  }

  /** A value read while the positional list is the sink is appended to it. */
  lemma PositionalStep(args: seq<string>, i: nat, table: map<string, Flag>, rs: RouteState)
    requires i < |args| && !IsFlagToken(args[i]) && Resolves(table, rs.views)
    ensures Process(args, i, table, Positional, rs)
         == Process(args, i + 1, table, Positional, rs.(positional := rs.positional + [args[i]]))
  {
  }

  /** A non-boolean flag token with a token after it becomes the sink and changes nothing else. */
  lemma FlagStep(args: seq<string>, i: nat, table: map<string, Flag>, sink: Sink, rs: RouteState)
    requires i + 1 < |args| && Resolves(table, rs.views) && SinkResolves(sink, rs.views)
    requires IsFlagToken(args[i]) && args[i] in table && !IsBoolSingleton(table[args[i]])
    ensures Process(args, i, table, sink, rs) == Process(args, i + 1, table, ToFlag(table[args[i]]), rs)
  {
  }

  /** `eight`'s decoder reads `15 16`, the run of values after `-8`. */
  lemma DemoValuesDecode(atoi: string -> Option<int>, d: Decoder)
    requires atoi("15") == Some(15) && atoi("16") == Some(16) && d == IntDecoder(atoi)
    ensures forall k :: 2 <= k < 4 ==> !IsFlagToken(DemoArgs()[k]) && d.decode(DemoArgs()[k]).Some?
    ensures DecodedAll(d, DemoArgs()[2..4]) == [IntValue(15), IntValue(16)]
  {
    var run := DemoArgs()[2..4];
    assert run == ["15", "16"] && run[1..] == ["16"];
  }

  /** `4` goes to the positional list, then `-8 15 16` fills `eight`. */
  lemma DemoFirstHalf(twentythree: Flag, eight: Flag, four: Flag, hatch: Flag, table: map<string, Flag>,
                      views: map<Flag, FlagView>, atoi: string -> Option<int>, parseBool: string -> Option<bool>)
    requires DemoSetup(twentythree, eight, four, hatch, table, views, atoi, parseBool)
    ensures var filled := Absorbed(views[eight], [IntValue(15), IntValue(16)]);
            Process(DemoArgs(), 0, table, Positional, RouteState([], views))
            == Process(DemoArgs(), 4, table, ToFlag(eight), RouteState(["4"], views[eight := filled]))
  {
    var args := DemoArgs();
    var rs0 := RouteState([], views);
    var rs1 := RouteState(["4"], views);
    assert rs0.(positional := rs0.positional + [args[0]]) == rs1;
    PositionalStep(args, 0, table, rs0);
    assert table[args[1]] == eight;
    FlagStep(args, 1, table, Positional, rs1);
    DemoValuesDecode(atoi, eight.decoder);
    SliceAbsorbsRun(args, 2, 4, table, eight, rs1);
    assert rs1.(views := rs1.views[eight := Absorbed(rs1.views[eight], DecodedAll(eight.decoder, args[2..4]))])
        == RouteState(["4"], views[eight := Absorbed(views[eight], [IntValue(15), IntValue(16)])]);
  }

  /** `--23 42` sets `twentythree`, `--hatch` sets `hatch`, and `3` becomes positional. */
  lemma DemoSecondHalf(twentythree: Flag, eight: Flag, four: Flag, hatch: Flag, table: map<string, Flag>,
                       views: map<Flag, FlagView>, atoi: string -> Option<int>, parseBool: string -> Option<bool>,
                       rs: RouteState)
    requires DemoSetup(twentythree, eight, four, hatch, table, views, atoi, parseBool)
    requires rs.positional == ["4"] && rs.views.Keys == views.Keys
    requires rs.views[twentythree] == views[twentythree] && rs.views[hatch] == views[hatch]
    ensures var set23 := rs.views[twentythree].(dest := Single(IntValue(42)), alreadySet := true);
            var setHatch := rs.views[hatch].(dest := Single(BoolValue(true)), alreadySet := true);
            Process(DemoArgs(), 4, table, ToFlag(eight), rs)
            == Outcome(RouteState(["4", "3"], rs.views[twentythree := set23][hatch := setHatch]), None)
  {
    var args := DemoArgs();
    assert table[args[4]] == twentythree && twentythree.decoder.decode(args[5]) == Some(IntValue(42));
    SingletonTakesValue(args, 4, table, ToFlag(eight), rs, IntValue(42));
    var set23 := rs.views[twentythree].(dest := Single(IntValue(42)), alreadySet := true);
    var rs3 := rs.(views := rs.views[twentythree := set23]);
    assert table[args[6]] == hatch && hatch.decoder.decode("true") == Some(BoolValue(true));
    BoolFlagThenValue(args, 6, table, ToFlag(twentythree), rs3);
    var setHatch := rs3.views[hatch].(dest := Single(BoolValue(true)), alreadySet := true);
    assert Process(args, 8, table, Positional, RouteState(rs3.positional + [args[7]], rs3.views[hatch := setHatch]))
        == Outcome(RouteState(["4", "3"], rs.views[twentythree := set23][hatch := setHatch]), None);
  }

  /**
   * Routing the demo's tokens: `4` and `3` are positional (`3` follows the
   * boolean `--hatch`, which is full once set), `eight` receives 15 and 16,
   * `twentythree` receives 42, `hatch` becomes true, and `four`, never
   * named, keeps its state until its default `4` is enforced.
   */
  lemma MainScenario(twentythree: Flag, eight: Flag, four: Flag, hatch: Flag, table: map<string, Flag>,
                     views: map<Flag, FlagView>, atoi: string -> Option<int>, parseBool: string -> Option<bool>)
    requires DemoSetup(twentythree, eight, four, hatch, table, views, atoi, parseBool)
    ensures var r := Process(DemoArgs(), 0, table, Positional, RouteState([], views));
            && r.err == None
            && r.state.positional == ["4", "3"]
            && r.state.views[twentythree].dest == Single(IntValue(42))
            && r.state.views[eight].dest == List([IntValue(15), IntValue(16)])
            && r.state.views[hatch].dest == Single(BoolValue(true))
            && r.state.views[four] == views[four]
            && Defaulted(r.state.views[four]).dest == Single(StringValue("4"))
  {
    var filled := Absorbed(views[eight], [IntValue(15), IntValue(16)]);
    DemoFirstHalf(twentythree, eight, four, hatch, table, views, atoi, parseBool);
    DemoSecondHalf(twentythree, eight, four, hatch, table, views, atoi, parseBool, RouteState(["4"], views[eight := filled]));
  }
}
