/**
 * What the routing loop of `processArguments` guarantees: where value tokens
 * end up, what a flag token does to the current sink, what a run of values
 * does to a slice flag, what each error means, and that the loop never
 * renames a flag, changes a default or clears an "already set" bit.
 */
module RouteProperties {
  import opened Options
  import opened Flags
  import opened Parsing

  /** The value tokens of `args` (those not starting with `-`), in order. */
  function ValueTokens(args: seq<string>): (r: seq<string>)
    ensures forall x :: x in r ==> x in args && !IsFlagToken(x)
    decreases |args|
  {
    if args == [] then []
    else (if IsFlagToken(args[0]) then [] else [args[0]]) + ValueTokens(args[1..])
  }

  /** `xs` is `ys` with some elements left out and the rest kept in order. */
  ghost predicate Subsequence(xs: seq<string>, ys: seq<string>)
    decreases |ys|
  {
    xs == [] || (ys != [] && ((xs[0] == ys[0] && Subsequence(xs[1..], ys[1..])) || Subsequence(xs, ys[1..])))
  }

  /** One value token read: it is appended to the positional list, or goes elsewhere. */
  lemma ValueTokenStep(args: seq<string>, i: nat, before: seq<string>, mid: seq<string>, p: seq<string>)
    requires i < |args| && !IsFlagToken(args[i])
    requires mid == before || mid == before + [args[i]]
    requires mid <= p && Subsequence(p[|mid|..], ValueTokens(args[i + 1..]))
    ensures before <= p && Subsequence(p[|before|..], ValueTokens(args[i..]))
  {
    var arg := args[i];
    var rest := ValueTokens(args[i + 1..]);
    assert args[i..][0] == arg && args[i..][1..] == args[i + 1..];
    assert ValueTokens(args[i..]) == [arg] + rest;
    assert ([arg] + rest)[1..] == rest;
    if mid != before {
      var extra := p[|mid|..];
      assert p[|before|..] == [arg] + extra;
      assert ([arg] + extra)[1..] == extra;
    }
  }

  /** One flag token read: it adds nothing to the value tokens. */
  lemma FlagTokenStep(args: seq<string>, i: nat, before: seq<string>, p: seq<string>)
    requires i < |args| && IsFlagToken(args[i])
    requires before <= p && Subsequence(p[|before|..], ValueTokens(args[i + 1..]))
    ensures before <= p && Subsequence(p[|before|..], ValueTokens(args[i..]))
  {
    assert args[i..][0] == args[i] && args[i..][1..] == args[i + 1..];
    assert ValueTokens(args[i..]) == ValueTokens(args[i + 1..]);
  }

  lemma NothingAppended(before: seq<string>, p: seq<string>, values: seq<string>)
    requires p == before
    ensures before <= p && Subsequence(p[|before|..], values)
  {
    assert p[|before|..] == [];
  }

  /** A token read, of either kind, keeps the positional list a subsequence of the value tokens. */
  lemma PositionalAfterStep(args: seq<string>, i: nat, before: seq<string>, mid: seq<string>, p: seq<string>)
    requires i < |args|
    requires IsFlagToken(args[i]) ==> mid == before
    requires !IsFlagToken(args[i]) ==> mid == before || mid == before + [args[i]]
    requires mid <= p && Subsequence(p[|mid|..], ValueTokens(args[i + 1..]))
    ensures before <= p && Subsequence(p[|before|..], ValueTokens(args[i..]))
  {
    if IsFlagToken(args[i]) {
      FlagTokenStep(args, i, before, p);
    } else {
      ValueTokenStep(args, i, before, mid, p);
    }
  }

  /** The inductive step of `PositionalInOrder`, given the step of `ProcessStep` and the hypothesis for the rest. */
  lemma PositionalInOrderStep(args: seq<string>, i: nat, table: map<string, Flag>, sink: Sink, rs: RouteState,
                              dest: Sink, next: RouteState)
    requires i < |args| && Resolves(table, rs.views) && SinkResolves(sink, rs.views)
    requires Resolves(table, next.views) && SinkResolves(dest, next.views)
    requires Process(args, i, table, sink, rs) == Process(args, i + 1, table, dest, next)
    requires IsFlagToken(args[i]) ==> next.positional == rs.positional
    requires !IsFlagToken(args[i]) ==> next.positional == rs.positional || next.positional == rs.positional + [args[i]]
    requires var q := Process(args, i + 1, table, dest, next).state.positional;
             next.positional <= q && Subsequence(q[|next.positional|..], ValueTokens(args[i + 1..]))
    ensures var p := Process(args, i, table, sink, rs).state.positional;
            rs.positional <= p && Subsequence(p[|rs.positional|..], ValueTokens(args[i..]))
  {
    var p := Process(args, i + 1, table, dest, next).state.positional;
    PositionalAfterStep(args, i, rs.positional, next.positional, p);
  }

  /** What the loop appends to the positional list is a subsequence of the value tokens it read. */
  lemma {:induction false} PositionalInOrder(args: seq<string>, i: nat, table: map<string, Flag>, sink: Sink, rs: RouteState)
    requires i <= |args| && Resolves(table, rs.views) && SinkResolves(sink, rs.views)
    ensures var p := Process(args, i, table, sink, rs).state.positional;
            rs.positional <= p && Subsequence(p[|rs.positional|..], ValueTokens(args[i..]))
    decreases |args| - i
  {
    var p := Process(args, i, table, sink, rs).state.positional;
    if i == |args| {
      NothingAppended(rs.positional, p, ValueTokens(args[i..]));
    } else {
      var stopped, dest, next := ProcessStep(args, i, table, sink, rs);
      if stopped {
        NothingAppended(rs.positional, p, ValueTokens(args[i..]));
      } else {
        PositionalInOrder(args, i + 1, table, dest, next);
        PositionalInOrderStep(args, i, table, sink, rs, dest, next);
      }
    }
  }

  /** Without a flag token, the loop appends every token, in order, to the positional list. */
  lemma {:induction false} OnlyValuesArePositional(args: seq<string>, i: nat, table: map<string, Flag>, rs: RouteState)
    requires i <= |args| && Resolves(table, rs.views)
    requires forall j :: i <= j < |args| ==> !IsFlagToken(args[j])
    ensures Process(args, i, table, Positional, rs) == Outcome(rs.(positional := rs.positional + args[i..]), None)
    decreases |args| - i
  {
    if i < |args| {
      OnlyValuesArePositional(args, i + 1, table, rs.(positional := rs.positional + [args[i]]));
      assert rs.positional + [args[i]] + args[i + 1..] == rs.positional + args[i..];
    }
  }

  /** The loop keeps the names and default of every flag, and never clears an "already set" bit. */
  ghost predicate Progressed(before: map<Flag, FlagView>, after: map<Flag, FlagView>) {
    && after.Keys == before.Keys
    && forall f :: f in before ==>
         && after[f].names == before[f].names
         && after[f].def == before[f].def
         && (before[f].alreadySet ==> after[f].alreadySet)
  }

  lemma ProgressedTransitive(a: map<Flag, FlagView>, b: map<Flag, FlagView>, c: map<Flag, FlagView>)
    requires Progressed(a, b) && Progressed(b, c)
    ensures Progressed(a, c)
  {
  }

  /** One consume keeps every flag's names and default, and sets rather than clears. */
  lemma ConsumeProgresses(sink: Sink, token: string, rs: RouteState)
    requires SinkResolves(sink, rs.views)
    ensures ConsumeInto(sink, token, rs).Some? ==> Progressed(rs.views, ConsumeInto(sink, token, rs).value.views)
  {
  }

  /**
   * One token of the loop: either it stops there with an error, leaving the
   * state as it was, or it moves on to the next token with a new sink and a
   * state that has only progressed, having appended at most that token to
   * the positional list.
   */
  lemma ProcessStep(args: seq<string>, i: nat, table: map<string, Flag>, sink: Sink, rs: RouteState)
    returns (stopped: bool, dest: Sink, next: RouteState)
    requires i < |args| && Resolves(table, rs.views) && SinkResolves(sink, rs.views)
    ensures stopped ==> Process(args, i, table, sink, rs).err.Some? && Process(args, i, table, sink, rs).state == rs
    ensures Stops(args, i, table) ==> stopped
    ensures !stopped ==> Resolves(table, next.views) && SinkResolves(dest, next.views)
    ensures !stopped ==> Process(args, i, table, sink, rs) == Process(args, i + 1, table, dest, next)
    ensures !stopped ==> Progressed(rs.views, next.views)
    ensures !stopped && !IsFlagToken(args[i]) ==>
              next.positional == rs.positional || next.positional == rs.positional + [args[i]]
    ensures !stopped && IsFlagToken(args[i]) ==> next.positional == rs.positional
  {
    var arg := args[i];
    if !IsFlagToken(arg) {
      dest := if SinkFull(sink, rs.views) then Positional else sink;
      ConsumeProgresses(dest, arg, rs);
      var c := ConsumeInto(dest, arg, rs);
      stopped := c.None?;
      next := c.GetOr(rs);
    } else if arg !in table {
      stopped, dest, next := true, sink, rs;
    } else {
      var f := table[arg];
      dest := ToFlag(f);
      if IsBoolSingleton(f) {
        ConsumeProgresses(dest, "true", rs);
        stopped := false;
        next := ConsumeInto(dest, "true", rs).GetOr(rs);
      } else {
        stopped := i == |args| - 1;
        next := rs;
      }
    }
  }

  lemma {:induction false} ProcessProgresses(args: seq<string>, i: nat, table: map<string, Flag>, sink: Sink, rs: RouteState)
    requires i <= |args| && Resolves(table, rs.views) && SinkResolves(sink, rs.views)
    ensures Progressed(rs.views, Process(args, i, table, sink, rs).state.views)
    decreases |args| - i
  {
    if i < |args| {
      var stopped, dest, next := ProcessStep(args, i, table, sink, rs);
      if !stopped {
        ProcessProgresses(args, i + 1, table, dest, next);
        ProgressedTransitive(rs.views, next.views, Process(args, i, table, sink, rs).state.views);
      }
    }
  }

  /** A flag that is not the current sink and that no remaining token names keeps its state. */
  lemma {:induction false} UnnamedFlagUntouched(args: seq<string>, i: nat, table: map<string, Flag>, sink: Sink,
                                                rs: RouteState, f: Flag)
    requires i <= |args| && Resolves(table, rs.views) && SinkResolves(sink, rs.views)
    requires f in rs.views && sink != ToFlag(f)
    requires forall j :: i <= j < |args| && args[j] in table ==> table[args[j]] != f
    ensures Process(args, i, table, sink, rs).state.views[f] == rs.views[f]
    decreases |args| - i
  {
    if i < |args| {
      var arg := args[i];
      if !IsFlagToken(arg) {
        var dest := if SinkFull(sink, rs.views) then Positional else sink;
        var next := ConsumeInto(dest, arg, rs);
        if next.Some? {
          UnnamedFlagUntouched(args, i + 1, table, dest, next.value, f);
        }
      } else if arg in table {
        var g := table[arg];
        if IsBoolSingleton(g) {
          UnnamedFlagUntouched(args, i + 1, table, ToFlag(g), ConsumeInto(ToFlag(g), "true", rs).GetOr(rs), f);
        } else if i < |args| - 1 {
          UnnamedFlagUntouched(args, i + 1, table, ToFlag(g), rs, f);
        }
      }
    }
  }

  /**
   * Every error has its stated cause: an unknown flag is a `-` token missing
   * from the table, a missing value is a non-boolean flag as the last token,
   * and a failed consume is a value its flag's decoder rejects (the
   * positional list accepts everything).
   */
  ghost predicate ExplainedBy(err: ParseError, args: seq<string>, table: map<string, Flag>) {
    match err
    case UnknownFlag(t) => t in args && IsFlagToken(t) && t !in table
    case MissingValue(t) => |args| > 0 && t == args[|args| - 1] && t in table && !IsBoolSingleton(table[t])
    case ConsumeFailed(s, v) => v in args && !IsFlagToken(v) && s.ToFlag? && s.flag.decoder.decode(v).None?
    case _ => false
  }

  lemma {:induction false} ErrorsExplained(args: seq<string>, i: nat, table: map<string, Flag>, sink: Sink, rs: RouteState)
    requires i <= |args| && Resolves(table, rs.views) && SinkResolves(sink, rs.views)
    ensures var r := Process(args, i, table, sink, rs);
            r.err.Some? ==> ExplainedBy(r.err.value, args, table)
    decreases |args| - i
  {
    if i < |args| {
      var arg := args[i];
      if !IsFlagToken(arg) {
        var dest := if SinkFull(sink, rs.views) then Positional else sink;
        var next := ConsumeInto(dest, arg, rs);
        if next.Some? {
          ErrorsExplained(args, i + 1, table, dest, next.value);
        }
      } else if arg in table {
        var f := table[arg];
        if IsBoolSingleton(f) {
          ErrorsExplained(args, i + 1, table, ToFlag(f), ConsumeInto(ToFlag(f), "true", rs).GetOr(rs));
        } else if i < |args| - 1 {
          ErrorsExplained(args, i + 1, table, ToFlag(f), rs);
        }
      }
    }
  }

  /**
   * Token `j` stops the loop wherever it is reached: a `-` token missing from
   * the table, or a non-boolean flag as the last token.
   */
  ghost predicate Stops(args: seq<string>, j: nat, table: map<string, Flag>) {
    j < |args| && IsFlagToken(args[j])
    && (args[j] !in table || (j == |args| - 1 && !IsBoolSingleton(table[args[j]])))
  }

  /**
   * The converse of `ErrorsExplained` for the routing errors: a stopping
   * token anywhere from `i` on makes the loop end with an error (its own, or
   * an earlier one).
   */
  lemma {:induction false} StoppingTokenAborts(args: seq<string>, i: nat, j: nat, table: map<string, Flag>, sink: Sink, rs: RouteState)
    requires i <= j && Stops(args, j, table)
    requires Resolves(table, rs.views) && SinkResolves(sink, rs.views)
    ensures Process(args, i, table, sink, rs).err.Some?
    decreases j - i
  {
    var stopped, dest, next := ProcessStep(args, i, table, sink, rs);
    if !stopped {
      StoppingTokenAborts(args, i + 1, j, table, dest, next);
    }
  }

  /** A `-` token that names no flag, anywhere from `i` on, makes the loop fail. */
  lemma UnknownFlagAborts(args: seq<string>, i: nat, j: nat, table: map<string, Flag>, sink: Sink, rs: RouteState)
    requires i <= j < |args| && IsFlagToken(args[j]) && args[j] !in table
    requires Resolves(table, rs.views) && SinkResolves(sink, rs.views)
    ensures Process(args, i, table, sink, rs).err.Some?
  {
    StoppingTokenAborts(args, i, j, table, sink, rs);
  }

  /** A non-boolean flag as the last token makes the loop fail. */
  lemma MissingValueAborts(args: seq<string>, i: nat, table: map<string, Flag>, sink: Sink, rs: RouteState)
    requires i < |args| && IsFlagToken(args[|args| - 1])
    requires args[|args| - 1] in table && !IsBoolSingleton(table[args[|args| - 1]])
    requires Resolves(table, rs.views) && SinkResolves(sink, rs.views)
    ensures Process(args, i, table, sink, rs).err.Some?
  {
    StoppingTokenAborts(args, i, |args| - 1, table, sink, rs);
  }

  /**
   * An unset non-boolean singleton takes the value right after its token:
   * the flag's destination becomes the decoded value, it is marked set, and
   * it stays the current sink.
   */
  lemma SingletonTakesValue(args: seq<string>, i: nat, table: map<string, Flag>, sink: Sink, rs: RouteState, x: Scalar)
    requires i + 1 < |args| && Resolves(table, rs.views) && SinkResolves(sink, rs.views)
    requires args[i] in table && IsFlagToken(args[i]) && !IsFlagToken(args[i + 1])
    requires var f := table[args[i]]; f.shape == Singleton && !f.decoder.isBool && !rs.views[f].alreadySet
    requires table[args[i]].decoder.decode(args[i + 1]) == Some(x)
    ensures var f := table[args[i]];
            var setView := rs.views[f].(dest := Single(x), alreadySet := true);
            Process(args, i, table, sink, rs)
            == Process(args, i + 2, table, ToFlag(f), rs.(views := rs.views[f := setView]))
  {
    var f := table[args[i]];
    assert Process(args, i, table, sink, rs) == Process(args, i + 1, table, ToFlag(f), rs);
  }

  /** `--count 5` with `--count` an unset integer singleton: the flag holds 5 and nothing is positional. */
  lemma SingletonValueExample(f: Flag, v: FlagView, atoi: string -> Option<int>)
    requires f.shape == Singleton && !v.alreadySet && atoi("5") == Some(5)
    requires f.decoder == Decoder(s => if atoi(s).Some? then Some(IntValue(atoi(s).value)) else None, IntValue(0), false)
    ensures var r := Process(["--count", "5"], 0, map["--count" := f], Positional, RouteState([], map[f := v]));
            r.err == None && r.state == RouteState([], map[f := v.(dest := Single(IntValue(5)), alreadySet := true)])
  {
    var args := ["--count", "5"];
    var table := map["--count" := f];
    var rs := RouteState([], map[f := v]);
    SingletonTakesValue(args, 0, table, Positional, rs, IntValue(5));
  }

  /**
   * A boolean singleton is set by its token alone and becomes the full
   * current sink, so the value right after it goes to the positional list.
   */
  lemma BoolFlagThenValue(args: seq<string>, i: nat, table: map<string, Flag>, sink: Sink, rs: RouteState)
    requires i + 1 < |args| && Resolves(table, rs.views) && SinkResolves(sink, rs.views)
    requires args[i] in table && IsFlagToken(args[i]) && !IsFlagToken(args[i + 1])
    requires var f := table[args[i]]; IsBoolSingleton(f) && f.decoder.decode("true") == Some(BoolValue(true))
    ensures var f := table[args[i]];
            var setView := rs.views[f].(dest := Single(BoolValue(true)), alreadySet := true);
            Process(args, i, table, sink, rs)
            == Process(args, i + 2, table, Positional, RouteState(rs.positional + [args[i + 1]], rs.views[f := setView]))
  {
    var f := table[args[i]];
    var setView := rs.views[f].(dest := Single(BoolValue(true)), alreadySet := true);
    var next := RouteState(rs.positional, rs.views[f := setView]);
    assert ConsumeInto(ToFlag(f), "true", rs) == Some(next);
    assert Process(args, i, table, sink, rs) == Process(args, i + 1, table, ToFlag(f), next);
  }

  /**
   * A non-boolean singleton that is already set (earlier in this parse or in
   * an earlier `Parse`) stays full: the value after its token goes to the
   * positional list, and the list becomes the current sink.
   */
  lemma SetSingletonDiverts(args: seq<string>, i: nat, table: map<string, Flag>, sink: Sink, rs: RouteState)
    requires i + 1 < |args| && Resolves(table, rs.views) && SinkResolves(sink, rs.views)
    requires args[i] in table && IsFlagToken(args[i]) && !IsFlagToken(args[i + 1])
    requires var f := table[args[i]]; f.shape == Singleton && !f.decoder.isBool && rs.views[f].alreadySet
    ensures var f := table[args[i]];
            Process(args, i, table, sink, rs)
            == Process(args, i + 2, table, Positional, rs.(positional := rs.positional + [args[i + 1]]))
  {
    assert Process(args, i, table, sink, rs) == Process(args, i + 1, table, ToFlag(table[args[i]]), rs);
  }

  /** The decoded values of `tokens`, all of which the decoder accepts. */
  function DecodedAll(d: Decoder, tokens: seq<string>): (r: seq<Scalar>)
    requires forall j :: 0 <= j < |tokens| ==> d.decode(tokens[j]).Some?
    ensures |r| == |tokens|
    ensures forall j :: 0 <= j < |tokens| ==> d.decode(tokens[j]) == Some(r[j])
    decreases |tokens|
  {
    if tokens == [] then [] else [d.decode(tokens[0]).value] + DecodedAll(d, tokens[1..])
  }

  /** A slice flag's view after it appends `xs`; appending anything marks it set. */
  function Absorbed(v: FlagView, xs: seq<Scalar>): FlagView {
    v.(dest := List(Items(v.dest) + xs), alreadySet := v.alreadySet || xs != [])
  }

  lemma AbsorbedConcat(v: FlagView, x: Scalar, xs: seq<Scalar>)
    ensures Absorbed(Absorbed(v, [x]), xs) == Absorbed(v, [x] + xs)
  {
    assert Items(v.dest) + [x] + xs == Items(v.dest) + ([x] + xs);
  }

  /**
   * A slice flag is never full: a run of values it can decode is appended
   * to it, in order, and it stays the current sink.
   */
  lemma {:induction false} SliceAbsorbsRun(args: seq<string>, i: nat, j: nat, table: map<string, Flag>, f: Flag, rs: RouteState)
    requires i <= j <= |args| && Resolves(table, rs.views) && f in rs.views
    requires f.shape == Slice && rs.views[f].dest.List?
    requires forall k :: i <= k < j ==> !IsFlagToken(args[k]) && f.decoder.decode(args[k]).Some?
    ensures Process(args, i, table, ToFlag(f), rs)
         == Process(args, j, table, ToFlag(f), rs.(views := rs.views[f := Absorbed(rs.views[f], DecodedAll(f.decoder, args[i..j]))]))
    decreases j - i
  {
    var v := rs.views[f];
    if i == j {
      assert args[i..j] == [];
      assert Items(v.dest) + [] == v.dest.items;
      assert rs.views[f := Absorbed(v, [])] == rs.views;
    } else {
      var x := f.decoder.decode(args[i]).value;
      var rs1 := rs.(views := rs.views[f := Absorbed(v, [x])]);
      SliceStep(args, i, table, f, rs);
      SliceAbsorbsRun(args, i + 1, j, table, f, rs1);
      DecodedAllSplit(f.decoder, args, i, j);
      AbsorbedConcat(v, x, DecodedAll(f.decoder, args[i + 1..j]));
      assert rs1.views[f := Absorbed(rs1.views[f], DecodedAll(f.decoder, args[i + 1..j]))]
          == rs.views[f := Absorbed(v, DecodedAll(f.decoder, args[i..j]))];
    }
  }

  /** One value of the run: the slice flag decodes and appends it, and stays the sink. */
  lemma SliceStep(args: seq<string>, i: nat, table: map<string, Flag>, f: Flag, rs: RouteState)
    requires i < |args| && Resolves(table, rs.views) && f in rs.views
    requires f.shape == Slice && rs.views[f].dest.List?
    requires !IsFlagToken(args[i]) && f.decoder.decode(args[i]).Some?
    ensures var x := f.decoder.decode(args[i]).value;
            Process(args, i, table, ToFlag(f), rs)
            == Process(args, i + 1, table, ToFlag(f), rs.(views := rs.views[f := Absorbed(rs.views[f], [x])]))
  {
  }

  lemma DecodedAllSplit(d: Decoder, args: seq<string>, i: nat, j: nat)
    requires i < j <= |args|
    requires forall k :: i <= k < j ==> d.decode(args[k]).Some?
    ensures DecodedAll(d, args[i..j]) == [d.decode(args[i]).value] + DecodedAll(d, args[i + 1..j])
  {
    assert args[i..j][1..] == args[i + 1..j];
  }
}
