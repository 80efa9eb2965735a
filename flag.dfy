/**
 * Registered flags: the shared base (names, default, destination, "already set"
 * bit), the fluent configuration calls, default enforcement, and the two
 * consuming shapes, singleton and slice.
 *
 * The source is generic over the value type and the decoder. Here the values
 * are a closed sum of the three built-in types, a decoder is a datatype holding
 * its decode function, and the flag's shape says which `consume` it runs.
 */
module Flags {
  import opened Options

  /** One decoded value. */
  datatype Scalar = IntValue(i: int) | StringValue(s: string) | BoolValue(b: bool)

  /** What a destination holds: one value for a singleton, a list for a slice flag. */
  datatype Value = Single(v: Scalar) | List(items: seq<Scalar>)

  /** A singleton accepts one value; a slice flag appends every value it gets. */
  datatype Shape = Singleton | Slice

  /** The destination type of a flag of this shape, as Go's type checker guarantees it. */
  predicate Fits(shape: Shape, v: Value) {
    shape == Singleton <==> v.Single?
  }

  /**
   * A decoder: a partial function from one token to one value, the zero value
   * of its type (the initial default of a singleton), and whether it is the
   * boolean decoder, whose singletons the parser sets by presence alone.
   */
  datatype Decoder = Decoder(decode: string -> Option<Scalar>, zero: Scalar, isBool: bool)

  /** The mutable part of a flag, as a value. */
  datatype FlagView = FlagView(names: seq<string>, def: Value, dest: Value, alreadySet: bool)

  /** The elements of a list destination (a singleton has none). */
  function Items(v: Value): seq<Scalar> {
    if v.List? then v.items else []
  }

  /** The test `is[*singletonflag[bool, Bool]]` of the routing loop, as an explicit tag. */
  predicate IsBoolSingleton(f: Flag)
    ensures IsBoolSingleton(f) ==> f.shape == Singleton && f.decoder.isBool
  {
    f.shape == Singleton && f.decoder.isBool
  }

  /** A singleton is full once it has been set; a slice flag never is. */
  predicate Saturated(f: Flag, v: FlagView)
    ensures f.shape == Slice ==> !Saturated(f, v)
    ensures f.shape == Singleton ==> (Saturated(f, v) <==> v.alreadySet)
  {
    f.shape == Singleton && v.alreadySet
  }

  /**
   * The view after `f` consumes `token`, or None when the decoder rejects it.
   * A singleton stores the decoded value, a slice flag appends it; both mark
   * the flag as set.
   */
  function Consumed(f: Flag, v: FlagView, token: string): (r: Option<FlagView>)
    ensures r.None? <==> f.decoder.decode(token).None?
    ensures r.Some? ==> r.value.alreadySet && r.value.names == v.names && r.value.def == v.def
    ensures r.Some? && f.shape == Singleton ==> r.value.dest == Single(f.decoder.decode(token).value)
    ensures r.Some? && f.shape == Slice ==> Items(r.value.dest) == Items(v.dest) + [f.decoder.decode(token).value]
  {
    match f.decoder.decode(token)
    case None => None
    case Some(x) =>
      var dest := if f.shape == Singleton then Single(x) else List(Items(v.dest) + [x]);
      Some(v.(dest := dest, alreadySet := true))
  }

  /** The view after `enforceDefault`: the default replaces the destination iff the flag was never set. */
  function Defaulted(v: FlagView): (r: FlagView)
    ensures r.names == v.names && r.def == v.def && r.alreadySet == v.alreadySet
    ensures r.alreadySet || r.dest == r.def
    ensures v.alreadySet ==> r == v
  {
    if v.alreadySet then v else v.(dest := v.def)
  }

  class Flag {
    const shape: Shape
    const decoder: Decoder
    const docLine: string
    var namesStore: seq<string>
    var def: Value
    var dest: Value
    var alreadySet: bool

    ghost predicate Valid()
      reads this
    {
      && |namesStore| > 0
      && Fits(shape, def)
      && Fits(shape, dest)
      && (decoder.isBool ==> decoder.decode("true") == Some(BoolValue(true)))
    }

    function View(): FlagView
      reads this
    {
      FlagView(namesStore, def, dest, alreadySet)
    }

    /** A flag that has consumed nothing yet, named `name` and with no alias. */
    constructor (shape: Shape, decoder: Decoder, name: string, dest: Value, def: Value, docLine: string)
      requires Fits(shape, dest) && Fits(shape, def)
      requires decoder.isBool ==> decoder.decode("true") == Some(BoolValue(true))
      ensures Valid()
      ensures this.shape == shape && this.decoder == decoder && this.docLine == docLine
      ensures View() == FlagView([name], def, dest, false)
    {
      this.shape := shape;
      this.decoder := decoder;
      this.docLine := docLine;
      namesStore := [name];
      this.def := def;
      this.dest := dest;
      alreadySet := false;
    }

    function Names(): (names: seq<string>)
      reads this
      requires Valid()
      ensures names == namesStore && |names| > 0
    {
      namesStore
    }

    /** Appends `aliases` to the names; the canonical name stays first. Returns the flag itself. */
    method Alias(aliases: seq<string>) returns (self: Flag)
      requires Valid()
      modifies this`namesStore
      ensures Valid() && self == this
      ensures namesStore == old(namesStore) + aliases
      ensures namesStore[0] == old(namesStore)[0]
    {
      namesStore := namesStore + aliases;
      self := this;
    }

    /** Replaces the default; the destination and the "set" bit are untouched. Returns the flag itself. */
    method Default(value: Value) returns (self: Flag)
      requires Valid() && Fits(shape, value)
      modifies this`def
      ensures Valid() && self == this
      ensures def == value
      ensures dest == old(dest) && alreadySet == old(alreadySet)
    {
      def := value;
      self := this;
    }

    method EnforceDefault()
      requires Valid()
      modifies this`dest
      ensures Valid()
      ensures View() == Defaulted(old(View()))
      ensures dest == if alreadySet then old(dest) else def
    {
      if !alreadySet {
        dest := def;
      }
    }

    predicate Full()
      reads this
      ensures Full() <==> shape == Singleton && alreadySet
    {
      Saturated(this, View())
    }

    /** `singletonflag.consume`: on a decoded value, store it and mark the flag set; otherwise change nothing. */
    method ConsumeSingleton(token: string) returns (ok: bool)
      requires Valid() && shape == Singleton
      modifies this`dest, this`alreadySet
      ensures Valid()
      ensures ok <==> decoder.decode(token).Some?
      ensures ok ==> dest == Single(decoder.decode(token).value) && alreadySet
      ensures !ok ==> dest == old(dest) && alreadySet == old(alreadySet)
    {
      var decoded := decoder.decode(token);
      if decoded.None? {
        return false;
      }
      dest := Single(decoded.value);
      alreadySet := true;
      ok := true;
    }

    /** `sliceFlag.consume`: on a decoded value, append it and mark the flag set; otherwise change nothing. */
    method ConsumeSlice(token: string) returns (ok: bool)
      requires Valid() && shape == Slice
      modifies this`dest, this`alreadySet
      ensures Valid()
      ensures ok <==> decoder.decode(token).Some?
      ensures ok ==> dest == List(old(dest).items + [decoder.decode(token).value]) && alreadySet
      ensures ok ==> |dest.items| == |old(dest).items| + 1
      ensures !ok ==> dest == old(dest) && alreadySet == old(alreadySet)
    {
      var decoded := decoder.decode(token);
      if decoded.None? {
        return false;
      }
      dest := List(dest.items + [decoded.value]);
      alreadySet := true;
      ok := true;
    }

    /** The sink call of the routing loop, dispatched on the flag's shape. */
    method Consume(token: string) returns (ok: bool)
      requires Valid()
      modifies this`dest, this`alreadySet
      ensures Valid()
      ensures ok <==> Consumed(this, old(View()), token).Some?
      ensures View() == if ok then Consumed(this, old(View()), token).value else old(View())
    {
      if shape == Singleton {
        ok := ConsumeSingleton(token);
      } else {
        ok := ConsumeSlice(token);
      }
    }
  }
}
