/**
 * What alias expansion guarantees, and what it does not: canonical tokens
 * always survive, an alias that meets a token already in the new table is
 * reported, a clean expansion binds every alias to its own flag, and whether
 * an alias that equals another flag's canonical token is caught depends on
 * the iteration order.
 */
module ExpandProperties {
  import opened Options
  import opened Flags
  import opened Parsing

  /** `big` keeps every binding of `small`. */
  ghost predicate Extends(big: map<string, Flag>, small: map<string, Flag>) {
    forall t :: t in small ==> t in big && big[t] == small[t]
  }

  /** The alias loop only adds bindings and only appends errors. */
  lemma {:induction false} AddAliasesGrows(res: map<string, Flag>, errs: seq<AddError>, aliases: seq<string>, f: Flag)
    ensures Extends(AddAliases(res, errs, aliases, f).0, res)
    ensures errs <= AddAliases(res, errs, aliases, f).1
    decreases |aliases|
  {
    if aliases != [] {
      var added := Add(res, Name2Flag(aliases[0]), f);
      var errs' := errs + ErrorList(added.1);
      assert AddAliases(res, errs, aliases, f) == AddAliases(added.0, errs', aliases[1..], f);
      AddAliasesGrows(added.0, errs', aliases[1..], f);
      assert errs <= errs';
    }
  }

  /**
   * An alias loop that reports nothing met only new, non-empty tokens, and
   * bound each of them to the flag.
   */
  lemma {:induction false} AddAliasesClean(res: map<string, Flag>, errs: seq<AddError>, aliases: seq<string>, f: Flag)
    requires |AddAliases(res, errs, aliases, f).1| == |errs|
    ensures forall a :: a in aliases ==> Name2Flag(a) != "" && Name2Flag(a) !in res
    ensures var r := AddAliases(res, errs, aliases, f).0;
            forall a :: a in aliases ==> Name2Flag(a) in r && r[Name2Flag(a)] == f
    decreases |aliases|
  {
    if aliases != [] {
      var added := Add(res, Name2Flag(aliases[0]), f);
      var errs' := errs + ErrorList(added.1);
      assert AddAliases(res, errs, aliases, f) == AddAliases(added.0, errs', aliases[1..], f);
      AddAliasesGrows(added.0, errs', aliases[1..], f);
      assert added.1.None?;
      AddAliasesClean(added.0, errs', aliases[1..], f);
      forall a | a in aliases
        ensures Name2Flag(a) != "" && Name2Flag(a) !in res
      {
        if a != aliases[0] {
          assert a in aliases[1..];
        }
      }
      forall a | a in aliases
        ensures var r := AddAliases(res, errs, aliases, f).0; Name2Flag(a) in r && r[Name2Flag(a)] == f
      {
        if a != aliases[0] {
          assert a in aliases[1..];
        }
      }
    }
  }

  /**
   * The outer loop only appends errors and never drops a token; a binding is
   * replaced only by the plain assignment of a canonical token.
   */
  lemma {:induction false} ExpandFromGrows(fs: map<string, Flag>, views: map<Flag, FlagView>, order: seq<string>,
                                           res: map<string, Flag>, errs: seq<AddError>)
    requires OrderResolves(fs, views, order)
    ensures var r := ExpandFrom(fs, views, order, res, errs);
            && errs <= r.1
            && (forall t :: t in res ==> t in r.0)
            && (forall t :: t in res && t !in fs ==> r.0[t] == res[t])
    decreases |order|
  {
    if order != [] {
      var f := fs[order[0]];
      var added := AddAliases(res[order[0] := f], errs, Aliases(views[f].names), f);
      assert ExpandFrom(fs, views, order, res, errs) == ExpandFrom(fs, views, order[1..], added.0, added.1);
      AddAliasesGrows(res[order[0] := f], errs, Aliases(views[f].names), f);
      ExpandFromGrows(fs, views, order[1..], added.0, added.1);
    }
  }

  /** A canonical token visited by the loop, or already bound to its flag, ends bound to its flag. */
  lemma {:induction false} ExpandFromCanonical(fs: map<string, Flag>, views: map<Flag, FlagView>, order: seq<string>,
                                               res: map<string, Flag>, errs: seq<AddError>, k: string)
    requires OrderResolves(fs, views, order)
    requires k in order || (k in fs && k in res && res[k] == fs[k])
    ensures var r := ExpandFrom(fs, views, order, res, errs).0;
            k in r && r[k] == fs[k]
    decreases |order|
  {
    if order != [] {
      var f := fs[order[0]];
      var added := AddAliases(res[order[0] := f], errs, Aliases(views[f].names), f);
      assert ExpandFrom(fs, views, order, res, errs) == ExpandFrom(fs, views, order[1..], added.0, added.1);
      AddAliasesGrows(res[order[0] := f], errs, Aliases(views[f].names), f);
      if k != order[0] && k in order {
        assert k in order[1..];
      }
      ExpandFromCanonical(fs, views, order[1..], added.0, added.1, k);
    }
  }


  /**
   * The alias `a` of the flag visited at position `l` is reported when its
   * token is empty, already bound, or a canonical token visited at or before `l`.
   */
  lemma {:induction false} ExpandFromReports(fs: map<string, Flag>, views: map<Flag, FlagView>, order: seq<string>,
                                             res: map<string, Flag>, errs: seq<AddError>, l: nat, a: string)
    requires OrderResolves(fs, views, order)
    requires l < |order| && a in Aliases(views[fs[order[l]]].names)
    requires Name2Flag(a) == "" || Name2Flag(a) in res || Name2Flag(a) in order[..l + 1]
    ensures |ExpandFrom(fs, views, order, res, errs).1| > |errs|
    decreases l
  {
    var f := fs[order[0]];
    var start := res[order[0] := f];
    var added := AddAliases(start, errs, Aliases(views[f].names), f);
    assert ExpandFrom(fs, views, order, res, errs) == ExpandFrom(fs, views, order[1..], added.0, added.1);
    if l == 0 {
      assert Name2Flag(a) == "" || Name2Flag(a) in start;
      if |added.1| == |errs| {
        AddAliasesClean(start, errs, Aliases(views[f].names), f);
        assert false;
      }
    } else {
      assert order[1..][l - 1] == order[l];
      AddAliasesGrows(start, errs, Aliases(views[f].names), f);
      if Name2Flag(a) in order[..l + 1] && Name2Flag(a) != order[0] {
        assert Name2Flag(a) in order[1..][..l];
      }
      ExpandFromReports(fs, views, order[1..], added.0, added.1, l - 1, a);
    }
  }

  /**
   * When the loop reports nothing, the alias `a` of the flag visited at
   * position `l` is bound to that flag, unless its token is some canonical token.
   */
  lemma {:induction false} ExpandFromBindsAlias(fs: map<string, Flag>, views: map<Flag, FlagView>, order: seq<string>,
                                                res: map<string, Flag>, errs: seq<AddError>, l: nat, a: string)
    requires OrderResolves(fs, views, order)
    requires l < |order| && a in Aliases(views[fs[order[l]]].names) && Name2Flag(a) !in fs
    requires |ExpandFrom(fs, views, order, res, errs).1| == |errs|
    ensures var r := ExpandFrom(fs, views, order, res, errs).0;
            Name2Flag(a) in r && r[Name2Flag(a)] == fs[order[l]]
    decreases l
  {
    var f := fs[order[0]];
    var start := res[order[0] := f];
    var added := AddAliases(start, errs, Aliases(views[f].names), f);
    assert ExpandFrom(fs, views, order, res, errs) == ExpandFrom(fs, views, order[1..], added.0, added.1);
    assert |added.1| == |errs|;
    if l == 0 {
      AddAliasesClean(start, errs, Aliases(views[f].names), f);
      ExpandFromGrows(fs, views, order[1..], added.0, added.1);
    } else {
      assert order[1..][l - 1] == order[l];
      ExpandFromBindsAlias(fs, views, order[1..], added.0, added.1, l - 1, a);
    }
  }

  /** The tokens of `aliases`, in order. */
  function AliasTokensOf(aliases: seq<string>): (ts: seq<string>)
    ensures |ts| == |aliases| && forall k :: 0 <= k < |aliases| ==> ts[k] == Name2Flag(aliases[k])
  {
    seq(|aliases|, k requires 0 <= k < |aliases| => Name2Flag(aliases[k]))
  }

  /** The alias tokens the outer loop tries to add, flag by flag in the order visited. */
  function AliasTokens(fs: map<string, Flag>, views: map<Flag, FlagView>, order: seq<string>): seq<string>
    requires OrderResolves(fs, views, order)
    decreases |order|
  {
    if order == [] then []
    else AliasTokensOf(Aliases(views[fs[order[0]]].names)) + AliasTokens(fs, views, order[1..])
  }

  /** Each alias token comes from an alias of a visited flag. */
  lemma AliasTokenHasAlias(fs: map<string, Flag>, views: map<Flag, FlagView>, order: seq<string>, t: string)
    requires OrderResolves(fs, views, order) && t in AliasTokens(fs, views, order)
    ensures exists l, a :: 0 <= l < |order| && a in Aliases(views[fs[order[l]]].names) && t == Name2Flag(a)
  {
    var l, a := AliasOfToken(fs, views, order, t);
  }

  /** The visited flag and the alias an alias token comes from. */
  lemma {:induction false} AliasOfToken(fs: map<string, Flag>, views: map<Flag, FlagView>, order: seq<string>, t: string)
      returns (l: nat, a: string)
    requires OrderResolves(fs, views, order) && t in AliasTokens(fs, views, order)
    ensures l < |order| && a in Aliases(views[fs[order[l]]].names) && t == Name2Flag(a)
    decreases |order|
  {
    var first := Aliases(views[fs[order[0]]].names);
    var ts0 := AliasTokensOf(first);
    var rest := AliasTokens(fs, views, order[1..]);
    assert AliasTokens(fs, views, order) == ts0 + rest;
    if t in ts0 {
      var k :| 0 <= k < |ts0| && ts0[k] == t;
      assert first[k] in first;
      l, a := 0, first[k];
    } else {
      assert t in rest;
      var l', a' := AliasOfToken(fs, views, order[1..], t);
      assert order[1..][l'] == order[l' + 1];
      l, a := l' + 1, a';
    }
  }

  /** The token of every alias of a visited flag is an alias token. */
  lemma {:induction false} AliasIsAliasToken(fs: map<string, Flag>, views: map<Flag, FlagView>, order: seq<string>, l: nat, a: string)
    requires OrderResolves(fs, views, order)
    requires l < |order| && a in Aliases(views[fs[order[l]]].names)
    ensures Name2Flag(a) in AliasTokens(fs, views, order)
    decreases l
  {
    if l == 0 {
      var first := Aliases(views[fs[order[0]]].names);
      var k :| 0 <= k < |first| && first[k] == a;
      assert AliasTokensOf(first)[k] == Name2Flag(a);
    } else {
      assert order[1..][l - 1] == order[l];
      AliasIsAliasToken(fs, views, order[1..], l - 1, a);
    }
  }

  /** `ts` holds no empty token, no token twice, and none of `taken`. */
  ghost predicate FreshTokens(ts: seq<string>, taken: set<string>) {
    && (forall p :: 0 <= p < |ts| ==> ts[p] != "" && ts[p] !in taken)
    && (forall p, q :: 0 <= p < q < |ts| ==> ts[p] != ts[q])
  }

  /** Fresh tokens followed by tokens fresh with respect to a table holding the first ones stay fresh. */
  lemma FreshConcat(ts0: seq<string>, rest: seq<string>, small: set<string>, big: set<string>)
    requires FreshTokens(ts0, small) && FreshTokens(rest, big) && small <= big
    requires forall p :: 0 <= p < |ts0| ==> ts0[p] in big
    ensures FreshTokens(ts0 + rest, small)
  {
    var ts := ts0 + rest;
    forall p | |ts0| <= p < |ts|
      ensures ts[p] != "" && ts[p] !in small
    {
      assert ts[p] == rest[p - |ts0|];
    }
    forall p, q | 0 <= p < q < |ts| && |ts0| <= q
      ensures ts[p] != ts[q]
    {
      assert ts[q] == rest[q - |ts0|];
      if p >= |ts0| {
        assert ts[p] == rest[p - |ts0|];
      }
    }
  }

  /** The alias loop adds exactly the non-empty tokens of the aliases that are not yet keys. */
  lemma {:induction false} AddAliasesKeys(res: map<string, Flag>, errs: seq<AddError>, aliases: seq<string>, f: Flag, t: string)
    ensures t in AddAliases(res, errs, aliases, f).0 <==> t in res || (t != "" && t in AliasTokensOf(aliases))
    decreases |aliases|
  {
    if aliases != [] {
      var added := Add(res, Name2Flag(aliases[0]), f);
      var errs' := errs + ErrorList(added.1);
      assert AddAliases(res, errs, aliases, f) == AddAliases(added.0, errs', aliases[1..], f);
      AddAliasesKeys(added.0, errs', aliases[1..], f, t);
      AliasTokensCons(aliases);
    }
  }

  /** An alias loop that reports nothing met no empty token, no token twice, and no token already bound. */
  lemma {:induction false} AddAliasesFresh(res: map<string, Flag>, errs: seq<AddError>, aliases: seq<string>, f: Flag)
    requires |AddAliases(res, errs, aliases, f).1| == |errs|
    ensures FreshTokens(AliasTokensOf(aliases), res.Keys)
    decreases |aliases|
  {
    if aliases != [] {
      var token := Name2Flag(aliases[0]);
      var added := Add(res, token, f);
      var errs' := errs + ErrorList(added.1);
      assert AddAliases(res, errs, aliases, f) == AddAliases(added.0, errs', aliases[1..], f);
      assert |errs'| <= |AddAliases(added.0, errs', aliases[1..], f).1|;
      assert added.1.None?;
      AddAliasesFresh(added.0, errs', aliases[1..], f);
      FreshTokensStep(aliases, res.Keys, added.0.Keys);
    }
  }

  /** One alias step of `AddAliasesFresh`: a fresh first token in front of tokens fresh for the grown table. */
  lemma FreshTokensStep(aliases: seq<string>, taken: set<string>, grown: set<string>)
    requires aliases != []
    requires Name2Flag(aliases[0]) != "" && Name2Flag(aliases[0]) !in taken
    requires grown == taken + {Name2Flag(aliases[0])}
    requires FreshTokens(AliasTokensOf(aliases[1..]), grown)
    ensures FreshTokens(AliasTokensOf(aliases), taken)
  {
    AliasTokensCons(aliases);
    FreshCons(Name2Flag(aliases[0]), AliasTokensOf(aliases[1..]), taken, grown);
  }

  /** The alias tokens of a non-empty list: the first alias's token, then the rest's. */
  lemma AliasTokensCons(aliases: seq<string>)
    requires aliases != []
    ensures AliasTokensOf(aliases) == [Name2Flag(aliases[0])] + AliasTokensOf(aliases[1..])
  {
    var ts, rest := AliasTokensOf(aliases), AliasTokensOf(aliases[1..]);
    forall k | 0 <= k < |ts|
      ensures ts[k] == ([Name2Flag(aliases[0])] + rest)[k]
    {
      if k > 0 {
        assert rest[k - 1] == Name2Flag(aliases[1..][k - 1]);
      }
    }
  }

  /** A token that is fresh, put in front of tokens fresh for the table grown by it. */
  lemma FreshCons(token: string, rest: seq<string>, taken: set<string>, grown: set<string>)
    requires token != "" && token !in taken && grown == taken + {token}
    requires FreshTokens(rest, grown)
    ensures FreshTokens([token] + rest, taken)
  {
    assert FreshTokens([token], taken);
    FreshConcat([token], rest, taken, grown);
  }

  /**
   * An outer loop that reports nothing met every alias token once, never
   * empty and never already in the table it started from.
   */
  lemma {:induction false} ExpandFromClean(fs: map<string, Flag>, views: map<Flag, FlagView>, order: seq<string>,
                                           res: map<string, Flag>, errs: seq<AddError>)
    requires OrderResolves(fs, views, order)
    requires |ExpandFrom(fs, views, order, res, errs).1| == |errs|
    ensures FreshTokens(AliasTokens(fs, views, order), res.Keys)
    decreases |order|
  {
    if order != [] {
      var f := fs[order[0]];
      var start := res[order[0] := f];
      var first := Aliases(views[f].names);
      var added := AddAliases(start, errs, first, f);
      assert ExpandFrom(fs, views, order, res, errs) == ExpandFrom(fs, views, order[1..], added.0, added.1);
      AddAliasesGrows(start, errs, first, f);
      ExpandFromGrows(fs, views, order[1..], added.0, added.1);
      assert |added.1| == |errs|;
      AddAliasesFresh(start, errs, first, f);
      ExpandFromClean(fs, views, order[1..], added.0, added.1);
      var ts0 := AliasTokensOf(first);
      forall p | 0 <= p < |ts0|
        ensures ts0[p] in added.0.Keys
      {
        AddAliasesKeys(start, errs, first, f, ts0[p]);
      }
      FreshConcat(ts0, AliasTokens(fs, views, order[1..]), res.Keys, added.0.Keys);
    }
  }

  /**
   * The keys after the outer loop: the starting keys, the canonical tokens
   * visited, and the non-empty alias tokens.
   */
  lemma {:induction false} ExpandFromKeys(fs: map<string, Flag>, views: map<Flag, FlagView>, order: seq<string>,
                                          res: map<string, Flag>, errs: seq<AddError>, t: string)
    requires OrderResolves(fs, views, order)
    ensures t in ExpandFrom(fs, views, order, res, errs).0
            <==> t in res || t in order || (t != "" && t in AliasTokens(fs, views, order))
    decreases |order|
  {
    if order != [] {
      var f := fs[order[0]];
      var start := res[order[0] := f];
      var first := Aliases(views[f].names);
      var added := AddAliases(start, errs, first, f);
      assert ExpandFrom(fs, views, order, res, errs) == ExpandFrom(fs, views, order[1..], added.0, added.1);
      AddAliasesKeys(start, errs, first, f, t);
      ExpandFromKeys(fs, views, order[1..], added.0, added.1, t);
      assert t in start <==> t in res || t == order[0];
      VisitedMembership(fs, views, order, t);
    }
  }

  /** A token is visited, or an alias token, at the first flag or at one of the rest. */
  lemma VisitedMembership(fs: map<string, Flag>, views: map<Flag, FlagView>, order: seq<string>, t: string)
    requires OrderResolves(fs, views, order) && order != []
    ensures t in order <==> t == order[0] || t in order[1..]
    ensures t in AliasTokens(fs, views, order)
            <==> t in AliasTokensOf(Aliases(views[fs[order[0]]].names)) || t in AliasTokens(fs, views, order[1..])
  {
    assert order == [order[0]] + order[1..];
    var ts0, rest := AliasTokensOf(Aliases(views[fs[order[0]]].names)), AliasTokens(fs, views, order[1..]);
    assert AliasTokens(fs, views, order) == ts0 + rest;
  }

  /**
   * Every key of the expanded table is a canonical token or the token of an
   * alias, and every canonical token and non-empty alias token is a key.
   */
  lemma ExpandKeys(fs: map<string, Flag>, views: map<Flag, FlagView>, order: seq<string>, t: string)
    requires IsIterationOrder(order, fs) && OrderResolves(fs, views, order)
    ensures t in Expansion(fs, views, order).0
            <==> t in fs || (t != "" && exists l, a :: 0 <= l < |order| && a in Aliases(views[fs[order[l]]].names) && t == Name2Flag(a))
  {
    ExpandFromKeys(fs, views, order, map[], [], t);
    if t in AliasTokens(fs, views, order) {
      AliasTokenHasAlias(fs, views, order, t);
    }
    if exists l, a :: 0 <= l < |order| && a in Aliases(views[fs[order[l]]].names) && t == Name2Flag(a) {
      var l, a :| 0 <= l < |order| && a in Aliases(views[fs[order[l]]].names) && t == Name2Flag(a);
      AliasIsAliasToken(fs, views, order, l, a);
    }
  }

  /**
   * An alias token met a second time, whether from the same flag or from
   * another, is reported whatever the iteration order.
   */
  lemma ExpandReportsAlias(fs: map<string, Flag>, views: map<Flag, FlagView>, order: seq<string>, p: nat, q: nat)
    requires IsIterationOrder(order, fs) && OrderResolves(fs, views, order)
    requires p < q < |AliasTokens(fs, views, order)|
    requires AliasTokens(fs, views, order)[p] == AliasTokens(fs, views, order)[q]
    ensures |Expansion(fs, views, order).1| > 0
  {
    if |Expansion(fs, views, order).1| == 0 {
      ExpandFromClean(fs, views, order, map[], []);
      assert false;
    }
  }

  /** A flag named `flag` with aliases `f` and `f`: the second `-f` is reported, and `-f` stays bound to the flag. */
  lemma DuplicateAliasExample(f: Flag, views: map<Flag, FlagView>)
    requires f in views && views[f].names == ["flag", "f", "f"]
    ensures Expansion(map["--flag" := f], views, ["--flag"]) == (map["--flag" := f, "-f" := f], [AlreadyExists("-f")])
  {
    var fs := map["--flag" := f];
    var m1 := map["--flag" := f];
    var m2 := m1["-f" := f];
    assert Aliases(views[f].names) == ["f", "f"];
    assert Name2Flag("f") == "-f";
    assert ["f", "f"][1..] == ["f"] && ["f"][1..] == [];
    var none: seq<AddError> := [];
    var one := [AlreadyExists("-f")];
    assert Add(m1, "-f", f) == (m2, None);
    assert none + ErrorList(None) == none;
    assert AddAliases(m1, none, ["f", "f"], f) == AddAliases(m2, none, ["f"], f);
    assert Add(m2, "-f", f) == (m2, Some(AlreadyExists("-f")));
    assert none + ErrorList(Some(AlreadyExists("-f"))) == one;
    assert AddAliases(m2, none, ["f"], f) == AddAliases(m2, one, [], f) == (m2, one);
    assert m2 == map["--flag" := f, "-f" := f];
    assert map[]["--flag" := f] == m1;
    assert ["--flag"][1..] == [];
    assert Expansion(fs, views, ["--flag"]) == ExpandFrom(fs, views, [], m2, [AlreadyExists("-f")]);
  }

  /** Every canonical token is in the expanded table, bound to its own flag. */
  lemma ExpandKeepsCanonical(fs: map<string, Flag>, views: map<Flag, FlagView>, order: seq<string>, k: string)
    requires IsIterationOrder(order, fs) && OrderResolves(fs, views, order)
    requires k in fs
    ensures var r := Expansion(fs, views, order).0;
            k in r && r[k] == fs[k]
  {
    ExpandFromCanonical(fs, views, order, map[], [], k);
  }

  /**
   * An alias is always reported when its token is empty, equals its own
   * flag's canonical token, or equals the canonical token of a flag the
   * iteration visited earlier.
   */
  lemma ExpandReportsCollision(fs: map<string, Flag>, views: map<Flag, FlagView>, order: seq<string>, l: nat, a: string)
    requires IsIterationOrder(order, fs) && OrderResolves(fs, views, order)
    requires l < |order| && a in Aliases(views[fs[order[l]]].names)
    requires Name2Flag(a) == "" || Name2Flag(a) in order[..l + 1]
    ensures |Expansion(fs, views, order).1| > 0
  {
    ExpandFromReports(fs, views, order, map[], [], l, a);
  }

  /**
   * A clean expansion binds every alias token that is not a canonical token
   * to the alias's own flag; so two flags that share an alias token never
   * expand cleanly.
   */
  lemma ExpandCleanBindsAliases(fs: map<string, Flag>, views: map<Flag, FlagView>, order: seq<string>, l: nat, a: string)
    requires IsIterationOrder(order, fs) && OrderResolves(fs, views, order)
    requires l < |order| && a in Aliases(views[fs[order[l]]].names) && Name2Flag(a) !in fs
    requires Expansion(fs, views, order).1 == []
    ensures var r := Expansion(fs, views, order).0;
            Name2Flag(a) in r && r[Name2Flag(a)] == fs[order[l]]
  {
    ExpandFromBindsAlias(fs, views, order, map[], [], l, a);
  }

  /**
   * The collision check depends on Go's map iteration order: flag A named
   * `ab` with alias `cd`, and flag B named `cd`. Visiting A first reports
   * nothing and `--cd` silently ends bound to B; visiting B first reports the
   * collision.
   */
  lemma ExpansionDependsOnOrder(a: Flag, b: Flag, views: map<Flag, FlagView>)
    requires a != b && a in views && b in views
    requires views[a].names == ["ab", "cd"] && views[b].names == ["cd"]
    ensures var fs := map["--ab" := a, "--cd" := b];
            && IsIterationOrder(["--ab", "--cd"], fs) && IsIterationOrder(["--cd", "--ab"], fs)
            && Expansion(fs, views, ["--ab", "--cd"]) == (map["--ab" := a, "--cd" := b], [])
            && Expansion(fs, views, ["--cd", "--ab"]) == (map["--ab" := a, "--cd" := b], [AlreadyExists("--cd")])
  {
    TwoKeyOrders(a, b);
    AliasVisitedFirst(a, b, views);
    CanonicalVisitedFirst(a, b, views);
  }

  /** A table of two keys may be visited in either order. */
  lemma TwoKeyOrders(a: Flag, b: Flag)
    ensures var fs := map["--ab" := a, "--cd" := b];
            IsIterationOrder(["--ab", "--cd"], fs) && IsIterationOrder(["--cd", "--ab"], fs)
  {
    var fs := map["--ab" := a, "--cd" := b];
    assert fs.Keys == {"--ab", "--cd"};
    assert "--ab" != "--cd" by { assert "--ab"[2] != "--cd"[2]; }
  }

  /** Visiting A first: `--cd` is bound to A as an alias, then overwritten by B's canonical entry. */
  lemma AliasVisitedFirst(a: Flag, b: Flag, views: map<Flag, FlagView>)
    requires a != b && a in views && b in views
    requires views[a].names == ["ab", "cd"] && views[b].names == ["cd"]
    ensures var fs := map["--ab" := a, "--cd" := b];
            Expansion(fs, views, ["--ab", "--cd"]) == (map["--ab" := a, "--cd" := b], [])
  {
    var fs := map["--ab" := a, "--cd" := b];
    assert Aliases(views[a].names) == ["cd"];
    assert Aliases(views[b].names) == [];
    assert Name2Flag("cd") == "--cd";
    assert ["--ab", "--cd"][1..] == ["--cd"];
    assert ["cd"][1..] == [];
    var m1 := map["--ab" := a];
    assert Add(m1, "--cd", a) == (m1["--cd" := a], None);
    assert ["cd"][0] == "cd";
    assert AddAliases(m1, [], ["cd"], a) == AddAliases(m1["--cd" := a], [] + ErrorList(None), [], a);
    assert m1["--cd" := a]["--cd" := b] == map["--ab" := a, "--cd" := b];
    calc {
      Expansion(fs, views, ["--ab", "--cd"]);
      ExpandFrom(fs, views, ["--cd"], AddAliases(m1, [], ["cd"], a).0, AddAliases(m1, [], ["cd"], a).1);
      ExpandFrom(fs, views, ["--cd"], m1["--cd" := a], []);
      ExpandFrom(fs, views, [], AddAliases(m1["--cd" := a]["--cd" := b], [], [], b).0, []);
    }
  }

  /** Visiting B first: A's alias `cd` meets B's canonical `--cd` and is reported. */
  lemma CanonicalVisitedFirst(a: Flag, b: Flag, views: map<Flag, FlagView>)
    requires a != b && a in views && b in views
    requires views[a].names == ["ab", "cd"] && views[b].names == ["cd"]
    ensures var fs := map["--ab" := a, "--cd" := b];
            Expansion(fs, views, ["--cd", "--ab"]) == (map["--ab" := a, "--cd" := b], [AlreadyExists("--cd")])
  {
    var fs := map["--ab" := a, "--cd" := b];
    assert Aliases(views[a].names) == ["cd"];
    assert Aliases(views[b].names) == [];
    assert Name2Flag("cd") == "--cd";
    assert ["--cd", "--ab"][1..] == ["--ab"];
    assert ["cd"][1..] == [];
    assert ["cd"][0] == "cd";
    var m2 := map["--cd" := b, "--ab" := a];
    assert Add(m2, "--cd", a) == (m2, Some(AlreadyExists("--cd")));
    assert AddAliases(m2, [], ["cd"], a) == AddAliases(m2, [] + ErrorList(Some(AlreadyExists("--cd"))), [], a);
    assert AddAliases(map["--cd" := b], [], [], b) == (map["--cd" := b], []);
    assert m2 == map["--ab" := a, "--cd" := b];
    calc {
      Expansion(fs, views, ["--cd", "--ab"]);
      ExpandFrom(fs, views, ["--ab"], AddAliases(map["--cd" := b], [], [], b).0, AddAliases(map["--cd" := b], [], [], b).1);
      ExpandFrom(fs, views, ["--ab"], map["--cd" := b], []);
      ExpandFrom(fs, views, [], AddAliases(m2, [], ["cd"], a).0, AddAliases(m2, [], ["cd"], a).1);
      {
        assert ErrorList(Some(AlreadyExists("--cd"))) == [AlreadyExists("--cd")];
        assert [] + [AlreadyExists("--cd")] == [AlreadyExists("--cd")];
        assert AddAliases(m2, [AlreadyExists("--cd")], [], a) == (m2, [AlreadyExists("--cd")]);
      }
      ExpandFrom(fs, views, [], m2, [AlreadyExists("--cd")]);
    }
  }
}
