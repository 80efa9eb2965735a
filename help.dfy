/**
 * The help page: a usage header, then one line per registered flag, in
 * registration order, holding the flag's tokens and its documentation line,
 * with the documentation lines aligned on one column.
 */
module Help {
  import opened Flags
  import opened Parsing
  import Lie

  /** `strings.Join`. */
  function Join(parts: seq<string>, sep: string): (r: string)
    ensures parts == [] ==> r == ""
    ensures parts != [] ==> parts[0] <= r
    decreases |parts|
  {
    if parts == [] then ""
    else if |parts| == 1 then parts[0]
    else parts[0] + sep + Join(parts[1..], sep)
  }

  /** The tokens of a flag's names, canonical first. */
  function Tokens(names: seq<string>): (tokens: seq<string>)
    ensures |tokens| == |names|
    ensures forall i :: 0 <= i < |names| ==> tokens[i] == Name2Flag(names[i])
  {
    seq(|names|, i requires 0 <= i < |names| => Name2Flag(names[i]))
  }

  /** A flag's declaration on the help page: its tokens joined by `, `. */
  function Declaration(names: seq<string>): string {
    Join(Tokens(names), ", ")
  }

  /**
   * `max(max(max(0, len(d0)), len(d1)), ...)`: the width of the declaration
   * column, counted in bytes as Go's `len` does.
   */
  function MaxLen(decls: seq<string>): (width: nat)
    ensures decls == [] ==> width == 0
    ensures decls != [] ==> ByteLen(decls[|decls| - 1]) <= width
    decreases |decls|
  {
    if decls == [] then 0
    else
      var m := MaxLen(decls[..|decls| - 1]);
      var last := decls[|decls| - 1];
      if m < ByteLen(last) then ByteLen(last) else m
  }

  /**
   * The column width is the byte length of the longest declaration: every
   * one fits, one fills it, and it is 0 without any.
   */
  lemma {:induction false} MaxLenIsLongest(decls: seq<string>)
    ensures forall d :: d in decls ==> ByteLen(d) <= MaxLen(decls)
    ensures decls == [] ==> MaxLen(decls) == 0
    ensures decls != [] ==> exists d :: d in decls && ByteLen(d) == MaxLen(decls)
    decreases |decls|
  {
    if decls != [] {
      var init := decls[..|decls| - 1];
      var last := decls[|decls| - 1];
      assert decls == init + [last];
      MaxLenIsLongest(init);
      assert last in decls;
      if init != [] && ByteLen(last) <= MaxLen(init) {
        var d :| d in init && ByteLen(d) == MaxLen(init);
        assert d in decls;
      }
    }
  }

  /** `%-<width>s`: `s` padded on the right with spaces to `width` characters (runes, not bytes). */
  function PadRight(s: string, width: nat): (r: string)
    ensures s <= r
    ensures |r| == if |s| < width then width else |s|
    ensures forall j :: |s| <= j < |r| ==> r[j] == ' '
  {
    if |s| < width then s + Repeat(' ', width - |s|) else s
  }

  /** `"  %-{align}s  %s\n"` applied to a declaration and a documentation line. */
  function Line(decl: string, align: nat, doc: string): (r: string)
    ensures |r| == (if |decl| < align then align else |decl|) + |doc| + 5
    ensures r[|r| - 1] == '\n'
  {
    "  " + PadRight(decl, align) + "  " + doc + "\n"
  }

  function Header(usage: string): (r: string)
    ensures |r| == |usage| + 16 && r[..7] == "Usage: " && r[7..7 + |usage|] == usage
  {
    "Usage: " + usage + "\n\nFlags:\n"
  }

  /** The flag lines of the page, one per declaration, in order. */
  function Lines(decls: seq<string>, align: nat, docs: seq<string>): (r: string)
    requires |decls| == |docs|
    ensures |decls| <= |r|
    decreases |decls|
  {
    if decls == [] then ""
    else Lines(decls[..|decls| - 1], align, docs[..|docs| - 1]) + Line(decls[|decls| - 1], align, docs[|docs| - 1])
  }

  /** The declaration of each flag, given the names of each. */
  function Declarations(names: seq<seq<string>>): (decls: seq<string>)
    ensures |decls| == |names|
    ensures forall i :: 0 <= i < |names| ==> decls[i] == Declaration(names[i])
  {
    seq(|names|, i requires 0 <= i < |names| => Declaration(names[i]))
  }

  /** The whole page, for flags with these names and documentation lines, in registration order. */
  function HelpText(usage: string, names: seq<seq<string>>, docs: seq<string>): (page: string)
    requires |names| == |docs|
    ensures Header(usage) <= page
    ensures names == [] <==> page == Header(usage)
  {
    var decls := Declarations(names);
    Header(usage) + Lines(decls, MaxLen(decls), docs)
  }

  /** The names of each flag of `flags`. */
  ghost function NameLists(flags: seq<Flag>): (r: seq<seq<string>>)
    reads set f | f in flags
    ensures |r| == |flags|
    ensures forall i :: 0 <= i < |flags| ==> r[i] == flags[i].namesStore
    decreases |flags|
  {
    if flags == [] then [] else NameLists(flags[..|flags| - 1]) + [flags[|flags| - 1].namesStore]
  }

  /** The documentation line of each flag of `flags`. */
  function DocLines(flags: seq<Flag>): (r: seq<string>)
    ensures |r| == |flags|
    ensures forall i :: 0 <= i < |flags| ==> r[i] == flags[i].docLine
  {
    seq(|flags|, i requires 0 <= i < |flags| => flags[i].docLine)
  }

  /** The declaration part of the `mkdecl` closure: the flag's tokens, joined. */
  method MakeDeclaration(flag: Flag) returns (decl: string)
    requires flag.Valid()
    ensures decl == Declaration(flag.namesStore)
  {
    var tokens := Lie.Map(Name2Flag, flag.Names());
    assert tokens == Tokens(flag.namesStore);
    decl := Join(tokens, ", ");
  }

  /** `decls` holds the declaration of each of `names`, in order. */
  ghost predicate Declared(decls: seq<string>, names: seq<seq<string>>) {
    |decls| == |names| && forall j :: 0 <= j < |names| ==> decls[j] == Declaration(names[j])
  }

  lemma DeclaredSnoc(decls: seq<string>, names: seq<seq<string>>, decl: string, name: seq<string>)
    requires Declared(decls, names) && decl == Declaration(name)
    ensures Declared(decls + [decl], names + [name])
  {
    forall j | 0 <= j < |names| + 1
      ensures (decls + [decl])[j] == Declaration((names + [name])[j])
    {
      if j < |names| {
        assert (decls + [decl])[j] == decls[j] && (names + [name])[j] == names[j];
      }
    }
  }

  lemma TakeTake<T>(s: seq<T>, n: nat, k: nat)
    requires k <= n <= |s|
    ensures s[..n][..k] == s[..k]
  {
  }

  lemma TakeSnoc<T>(s: seq<T>, i: nat)
    requires i < |s|
    ensures s[..i + 1] == s[..i] + [s[i]]
  {
  }

  /**
   * The first half of `Parser.Help`: every flag's declaration, in
   * registration order, while the column width grows to the longest one.
   */
  method Declare(flags: seq<Flag>) returns (decls: seq<string>, align: nat)
    requires forall f :: f in flags ==> f.Valid()
    ensures Declared(decls, NameLists(flags))
    ensures align == MaxLen(decls)
  {
    ghost var names := NameLists(flags);
    align := 0;
    decls := [];
    for i := 0 to |flags|
      invariant Declared(decls, names[..i])
      invariant align == MaxLen(decls)
    {
      var decl := MakeDeclaration(flags[i]);
      DeclaredSnoc(decls, names[..i], decl, names[i]);
      TakeSnoc(names, i);
      assert (decls + [decl])[..i] == decls;
      align := if align < ByteLen(decl) then ByteLen(decl) else align;
      decls := decls + [decl];
    }
    assert names[..|flags|] == names;
  }

  /**
   * `Parser.Help`: the usage header, then one line per flag with its
   * declaration padded to the common width and its documentation line.
   */
  method Help(par: Parser) returns (text: string)
    requires par.Valid()
    ensures text == HelpText(par.usage, NameLists(par.canonical), DocLines(par.canonical))
  {
    var canonical, usage := par.canonical, par.usage;
    var decls, align := Declare(canonical);
    assert decls == Declarations(NameLists(canonical));
    text := WriteLines("Usage: " + usage + "\n\nFlags:\n", decls, align, canonical);
  }

  lemma ConcatAssoc<T>(a: seq<T>, b: seq<T>, c: seq<T>)
    ensures a + b + c == a + (b + c)
  {
  }

  lemma TakeAll<T>(s: seq<T>)
    ensures s[..|s|] == s
  {
  }

  /** The lines of the first `i + 1` declarations are those of the first `i` and one more line. */
  lemma LinesSnoc(decls: seq<string>, align: nat, docs: seq<string>, i: nat)
    requires |decls| == |docs| && i < |decls|
    ensures Lines(decls[..i + 1], align, docs[..i + 1])
         == Lines(decls[..i], align, docs[..i]) + Line(decls[i], align, docs[i])
  {
    TakeTake(decls, i + 1, i);
    TakeTake(docs, i + 1, i);
  }

  /** The second half of `Parser.Help`: append one line per flag to `text`. */
  method WriteLines(prefix: string, decls: seq<string>, align: nat, flags: seq<Flag>) returns (text: string)
    requires |decls| == |flags|
    ensures text == prefix + Lines(decls, align, DocLines(flags))
  {
    ghost var docs := DocLines(flags);
    text := prefix;
    for i := 0 to |decls|
      invariant text == prefix + Lines(decls[..i], align, docs[..i])
    {
      LinesSnoc(decls, align, docs, i);
      assert docs[i] == flags[i].docLine;
      ghost var before := Lines(decls[..i], align, docs[..i]);
      var line := Line(decls[i], align, flags[i].docLine);
      ConcatAssoc(prefix, before, line);
      text := text + line;
    }
    TakeAll(decls);
    TakeAll(docs);
  }
}

/** Layout properties of the help page. */
module HelpProperties {
  import opened Parsing
  import opened Help

  /** An empty parser's page is the header alone. */
  lemma EmptyPage(usage: string)
    ensures HelpText(usage, [], []) == "Usage: " + usage + "\n\nFlags:\n"
  {
  }

  lemma PrefixOfConcat(pre: string, init: string, tail: string)
    requires pre <= init
    ensures pre <= init + tail
  {
    assert forall j :: 0 <= j < |pre| ==> (init + tail)[j] == init[j];
  }

  /** The inductive step of `LinesPrefix`: a prefix of the lines without the last flag is one of all of them. */
  lemma LinesPrefixStep(decls: seq<string>, align: nat, docs: seq<string>, k: nat)
    requires |decls| == |docs| && k < |decls|
    requires var n := |decls| - 1;
             Lines(decls[..n][..k], align, docs[..n][..k]) <= Lines(decls[..n], align, docs[..n])
    ensures Lines(decls[..k], align, docs[..k]) <= Lines(decls, align, docs)
  {
    var n := |decls| - 1;
    TakeTake(decls, n, k);
    TakeTake(docs, n, k);
    var init := Lines(decls[..n], align, docs[..n]);
    assert Lines(decls, align, docs) == init + Line(decls[n], align, docs[n]);
    PrefixOfConcat(Lines(decls[..k], align, docs[..k]), init, Line(decls[n], align, docs[n]));
  }

  /** The lines of the first `k` flags start the lines of all of them. */
  lemma {:induction false} LinesPrefix(decls: seq<string>, align: nat, docs: seq<string>, k: nat)
    requires |decls| == |docs| && k <= |decls|
    ensures Lines(decls[..k], align, docs[..k]) <= Lines(decls, align, docs)
    decreases |decls|
  {
    if k < |decls| {
      var n := |decls| - 1;
      LinesPrefix(decls[..n], align, docs[..n], k);
      LinesPrefixStep(decls, align, docs, k);
    } else {
      assert decls[..k] == decls && docs[..k] == docs;
    }
  }

  /**
   * The line of flag `k` comes right after the lines of the flags before it:
   * one line per flag, in registration order.
   */
  lemma LinesInOrder(decls: seq<string>, align: nat, docs: seq<string>, k: nat)
    requires |decls| == |docs| && k < |decls|
    ensures Lines(decls[..k], align, docs[..k]) + Line(decls[k], align, docs[k]) <= Lines(decls, align, docs)
  {
    LinesPrefix(decls, align, docs, k + 1);
    assert decls[..k + 1][..k] == decls[..k] && docs[..k + 1][..k] == docs[..k];
  }

  /**
   * A line is two spaces, the declaration padded with spaces to the column
   * width, two spaces, the documentation line and a newline: when the
   * declaration fits, the documentation starts at column `align + 4`.
   */
  lemma LineLayout(decl: string, align: nat, doc: string)
    requires |decl| <= align
    ensures var line := Line(decl, align, doc);
            && |line| == align + 5 + |doc|
            && line[..2] == "  "
            && line[2..2 + |decl|] == decl
            && (forall j :: 2 + |decl| <= j < align + 4 ==> line[j] == ' ')
            && line[align + 4..] == doc + "\n"
  {
    var pad := PadRight(decl, align);
    assert |pad| == align;
    var line := Line(decl, align, doc);
    assert line == "  " + pad + "  " + doc + "\n";
    assert line[2..2 + align] == pad;
    assert pad[..|decl|] == decl;
  }

  /**
   * The column width is the byte length of the longest declaration, which
   * is at least its length in characters, so every declaration fits and
   * every documentation line starts in the same column, `align + 4`.
   */
  lemma DocsAligned(decls: seq<string>, docs: seq<string>, k: nat)
    requires |decls| == |docs| && k < |decls|
    ensures var line := Line(decls[k], MaxLen(decls), docs[k]);
            line[2..2 + |decls[k]|] == decls[k] && line[MaxLen(decls) + 4..] == docs[k] + "\n"
  {
    DeclFits(decls, k);
    LineLayout(decls[k], MaxLen(decls), docs[k]);
  }

  /** Each declaration is no longer, in characters, than the column width. */
  lemma DeclFits(decls: seq<string>, k: nat)
    requires k < |decls|
    ensures |decls[k]| <= MaxLen(decls)
  {
    MaxLenIsLongest(decls);
    assert decls[k] in decls;
  }

  /** `boolflag`, `b` and `bool` become `--boolflag`, `-b` and `--bool`. */
  lemma TokensExample()
    ensures Tokens(["boolflag", "b", "bool"]) == ["--boolflag", "-b", "--bool"]
  {
    assert Name2Flag("boolflag") == "--boolflag" && Name2Flag("b") == "-b" && Name2Flag("bool") == "--bool";
  }

  /** The last two tokens joined: `-b, --bool`. */
  lemma JoinTailExample()
    ensures Join(["-b", "--bool"], ", ") == "-b, --bool"
  {
    assert ["-b", "--bool"][1..] == ["--bool"];
    assert Join(["--bool"], ", ") == "--bool";
  }

  /** The three tokens joined: `--boolflag, -b, --bool`. */
  lemma JoinExample()
    ensures Join(["--boolflag", "-b", "--bool"], ", ") == "--boolflag, -b, --bool"
  {
    JoinTailExample();
    var tokens := ["--boolflag", "-b", "--bool"];
    assert tokens[1..] == ["-b", "--bool"];
    assert Join(tokens, ", ") == "--boolflag" + ", " + "-b, --bool";
  }

  /** A flag named `boolflag` with aliases `b` and `bool` is declared as `--boolflag, -b, --bool`. */
  lemma DeclarationExample()
    ensures Declaration(["boolflag", "b", "bool"]) == "--boolflag, -b, --bool"
  {
    TokensExample();
    JoinExample();
  }
}
