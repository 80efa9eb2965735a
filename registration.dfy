/**
 * Flag registration: the generic `Register` and `RegisterSlice`, the typed
 * wrappers over them, the built-in decoders, and the `WithHelp` option.
 *
 * A Go destination is a pointer to the caller's variable; here each flag owns
 * its destination and the caller passes the variable's current content. The
 * integer and boolean parsers of the decoders are parameters.
 */
module Registration {
  import opened Options
  import opened Flags
  import opened Parsing

  /** The `Int` decoder: `strconv.Atoi`, given as `atoi`. */
  function IntDecoder(atoi: string -> Option<int>): (d: Decoder)
    ensures !d.isBool && d.zero == IntValue(0)
    ensures forall s :: d.decode(s).Some? <==> atoi(s).Some?
    ensures forall s :: atoi(s).Some? ==> d.decode(s) == Some(IntValue(atoi(s).value))
  {
    Decoder(s => if atoi(s).Some? then Some(IntValue(atoi(s).value)) else None, IntValue(0), false)
  }

  /** The `String` decoder: every token decodes to itself. */
  function StringDecoder(): (d: Decoder)
    ensures !d.isBool && d.zero == StringValue("")
    ensures forall s :: d.decode(s) == Some(StringValue(s))
  {
    Decoder(s => Some(StringValue(s)), StringValue(""), false)
  }

  /** The `Bool` decoder, given as `parseBool`; the parser only ever hands it `true`. */
  function BoolDecoder(parseBool: string -> Option<bool>): (d: Decoder)
    requires parseBool("true") == Some(true)
    ensures d.isBool && d.decode("true") == Some(BoolValue(true))
  {
    Decoder(s => if parseBool(s).Some? then Some(BoolValue(parseBool(s).value)) else None, BoolValue(false), true)
  }

  /** `Register`: a singleton whose default is the zero value of its type. */
  method Register(par: Parser, decoder: Decoder, name: string, dest: Scalar, docline: string) returns (flag: Flag)
    requires par.Valid()
    requires decoder.isBool ==> decoder.decode("true") == Some(BoolValue(true))
    modifies par`flags, par`canonical, par`flagDefErrors
    ensures fresh(flag) && par.Valid()
    ensures flag.shape == Singleton && flag.decoder == decoder && flag.docLine == docline
    ensures flag.View() == FlagView([name], Single(decoder.zero), Single(dest), false)
    ensures par.State() == RegisterSpec(old(par.State()), flag, flag.View())
  {
    flag := new Flag(Singleton, decoder, name, Single(dest), Single(decoder.zero), docline);
    par.RegisterFlag(flag);
  }

  /** `RegisterSlice`: a slice flag whose default is the empty (nil) slice. */
  method RegisterSlice(par: Parser, decoder: Decoder, name: string, dest: seq<Scalar>, docline: string) returns (flag: Flag)
    requires par.Valid()
    requires decoder.isBool ==> decoder.decode("true") == Some(BoolValue(true))
    modifies par`flags, par`canonical, par`flagDefErrors
    ensures fresh(flag) && par.Valid()
    ensures flag.shape == Slice && flag.decoder == decoder && flag.docLine == docline
    ensures flag.View() == FlagView([name], List([]), List(dest), false)
    ensures par.State() == RegisterSpec(old(par.State()), flag, flag.View())
  {
    flag := new Flag(Slice, decoder, name, List(dest), List([]), docline);
    par.RegisterFlag(flag);
  }

  method Int(par: Parser, name: string, dest: int, docline: string, atoi: string -> Option<int>) returns (flag: Flag)
    requires par.Valid()
    modifies par`flags, par`canonical, par`flagDefErrors
    ensures fresh(flag) && par.Valid()
    ensures flag.shape == Singleton && flag.decoder == IntDecoder(atoi) && flag.docLine == docline
    ensures flag.View() == FlagView([name], Single(IntValue(0)), Single(IntValue(dest)), false)
    ensures par.State() == RegisterSpec(old(par.State()), flag, flag.View())
  {
    flag := Register(par, IntDecoder(atoi), name, IntValue(dest), docline);
  }

  method String(par: Parser, name: string, dest: string, docline: string) returns (flag: Flag)
    requires par.Valid()
    modifies par`flags, par`canonical, par`flagDefErrors
    ensures fresh(flag) && par.Valid()
    ensures flag.shape == Singleton && flag.decoder == StringDecoder() && flag.docLine == docline
    ensures flag.View() == FlagView([name], Single(StringValue("")), Single(StringValue(dest)), false)
    ensures par.State() == RegisterSpec(old(par.State()), flag, flag.View())
  {
    flag := Register(par, StringDecoder(), name, StringValue(dest), docline);
  }

  method Bool(par: Parser, name: string, dest: bool, docline: string, parseBool: string -> Option<bool>) returns (flag: Flag)
    requires par.Valid() && parseBool("true") == Some(true)
    modifies par`flags, par`canonical, par`flagDefErrors
    ensures fresh(flag) && par.Valid()
    ensures flag.shape == Singleton && flag.decoder == BoolDecoder(parseBool) && flag.docLine == docline
    ensures flag.View() == FlagView([name], Single(BoolValue(false)), Single(BoolValue(dest)), false)
    ensures par.State() == RegisterSpec(old(par.State()), flag, flag.View())
    ensures IsBoolSingleton(flag)
  {
    flag := Register(par, BoolDecoder(parseBool), name, BoolValue(dest), docline);
  }

  method IntSlice(par: Parser, name: string, dest: seq<int>, docline: string, atoi: string -> Option<int>) returns (flag: Flag)
    requires par.Valid()
    modifies par`flags, par`canonical, par`flagDefErrors
    ensures fresh(flag) && par.Valid()
    ensures flag.shape == Slice && flag.decoder == IntDecoder(atoi) && flag.docLine == docline
    ensures flag.View() == FlagView([name], List([]), List(Ints(dest)), false)
    ensures par.State() == RegisterSpec(old(par.State()), flag, flag.View())
  {
    flag := RegisterSlice(par, IntDecoder(atoi), name, Ints(dest), docline);
  }

  method StringSlice(par: Parser, name: string, dest: seq<string>, docline: string) returns (flag: Flag)
    requires par.Valid()
    modifies par`flags, par`canonical, par`flagDefErrors
    ensures fresh(flag) && par.Valid()
    ensures flag.shape == Slice && flag.decoder == StringDecoder() && flag.docLine == docline
    ensures flag.View() == FlagView([name], List([]), List(Strings(dest)), false)
    ensures par.State() == RegisterSpec(old(par.State()), flag, flag.View())
  {
    flag := RegisterSlice(par, StringDecoder(), name, Strings(dest), docline);
  }

  function Ints(xs: seq<int>): (r: seq<Scalar>)
    ensures |r| == |xs| && forall i :: 0 <= i < |xs| ==> r[i] == IntValue(xs[i])
  {
    seq(|xs|, i requires 0 <= i < |xs| => IntValue(xs[i]))
  }

  function Strings(xs: seq<string>): (r: seq<Scalar>)
    ensures |r| == |xs| && forall i :: 0 <= i < |xs| ==> r[i] == StringValue(xs[i])
  {
    seq(|xs|, i requires 0 <= i < |xs| => StringValue(xs[i]))
  }

  /** `Alias` on a flag already registered with `par`: only that flag's names change. */
  method AliasRegistered(par: Parser, flag: Flag, aliases: seq<string>) returns (self: Flag)
    requires par.Valid() && flag in par.canonical
    modifies flag`namesStore
    ensures par.Valid() && self == flag
    ensures flag.View() == old(flag.View()).(names := old(flag.namesStore) + aliases)
    ensures par.State() == old(par.State()).(views := old(par.Views())[flag := flag.View()])
  {
    ghost var before := par.State();
    self := flag.Alias(aliases);
    assert par.Views() == before.views[flag := flag.View()] by {
      assert par.Flags() == before.views.Keys;
    }
  }

  /** `Default` on a flag already registered with `par`: only that flag's default changes. */
  method DefaultRegistered(par: Parser, flag: Flag, value: Value) returns (self: Flag)
    requires par.Valid() && flag in par.canonical && Fits(flag.shape, value)
    modifies flag`def
    ensures par.Valid() && self == flag
    ensures flag.View() == old(flag.View()).(def := value)
    ensures par.State() == old(par.State()).(views := old(par.Views())[flag := flag.View()])
  {
    ghost var before := par.State();
    self := flag.Default(value);
    assert par.Views() == before.views[flag := flag.View()] by {
      assert par.Flags() == before.views.Keys;
    }
  }

  /**
   * The `WithHelp` option: the usage line becomes `arg0 usage`, and a boolean
   * flag `help` with alias `h`, initially false, is registered.
   */
  method WithHelp(par: Parser, arg0: string, usage: string, parseBool: string -> Option<bool>) returns (help: Flag)
    requires par.Valid() && parseBool("true") == Some(true)
    modifies par`usage, par`flags, par`canonical, par`flagDefErrors
    ensures fresh(help) && par.Valid()
    ensures par.usage == arg0 + " " + usage
    ensures IsBoolSingleton(help) && help.docLine == "Print this help page"
    ensures help.View() == FlagView(["help", "h"], Single(BoolValue(false)), Single(BoolValue(false)), false)
    ensures par.State() == RegisterSpec(old(par.State()), help, help.View())
  {
    ghost var before := par.State();
    par.usage := arg0 + " " + usage;
    assert par.State() == before;
    help := Bool(par, "help", false, "Print this help page", parseBool);
    ghost var unaliased := help.View();
    help := AliasRegistered(par, help, ["h"]);
    RegisterSpecRenamed(before, help, unaliased, help.View());
  }
}
