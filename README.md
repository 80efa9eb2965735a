# go/flag in Dafny

A model of the `go/flag` command-line parser and of the `lie.Map` helper it
uses. In this parser:

- a `Parser` keeps a table from flag tokens to flags, the list of registered
  flags in registration order, the deferred definition errors, the
  positional arguments and a usage line;
- registering a flag binds its canonical token (`-n` for a name of one
  byte, that is a single ASCII character, `--name` otherwise, since Go's
  `len` counts bytes) and appends it to the registration list. An empty
  or duplicate token is recorded as a definition error, and the flag is
  appended anyway;
- `Alias` and `Default` configure a flag after registration, through the
  same object;
- `Parse` refuses to run when a definition error exists or when alias
  expansion reports a collision. Otherwise it routes every token, then
  enforces the default of every flag that was never set:
  - a value token goes to the current sink, or to the positional list once
    that sink is full;
  - a flag token becomes the current sink;
  - a boolean singleton is set by its token alone;
  - an unknown flag, a non-boolean flag given as the last token, or a value
    the flag cannot decode stops the loop, which keeps what it already did;
- `Help` renders a usage header and one aligned line per flag.

The model has these modules:

- `Flags` (flag.dfy): the flag class with its two shapes, singleton and
  slice, and their `consume`.
- `Parsing` (parser.dfy):
  - pure specification functions for `add`, `expand`, the routing loop,
    the default loop and `Parse`;
  - the `Parser` class, whose methods are proved equal to those functions.
- `Registration` (registration.dfy): `Register`, `RegisterSlice`, the typed
  wrappers and `WithHelp`.
- `Help` (help.dfy): the help page, its specification and its layout
  lemmas.
- `Lie` (lie.dfy): `Map`.
- `ExpandProperties`, `RouteProperties` and `ParseProperties`: the
  properties of expansion, routing and whole parses.

The parser's state is also available as a value, `Parser.State()`. Its
`views` map gives each registered flag's names, default, destination and
"already set" bit. Go's map iteration order, which `expand` depends on, is a
parameter `order`: any sequence listing each key once.

## Model

| member | source | states |
|---|---|---|
| Flags.Flag.constructor | go/flag/registration.go:11-17 | a new flag has the single name given, the given destination and default, is not set, and is valid |
| Flags.Flag.Names | go/flag/flag.go:67-69 | the names are never empty and the first is the canonical name |
| Flags.Flag.Alias | go/flag/flag.go:54-57 | appends the aliases in order after the existing names, keeps the canonical name first, returns the same flag |
| Flags.Flag.Default | go/flag/flag.go:59-62 | replaces only the default; destination and "already set" bit unchanged; returns the same flag |
| Flags.Flag.EnforceDefault | go/flag/flag.go:74-78 | the destination becomes the default iff the flag was never set; otherwise nothing changes |
| Flags.Flag.ConsumeSingleton | go/flag/singleton-flag.go:15-27 | succeeds iff the decoder accepts the token; then the destination is the decoded value and the flag is set; on failure nothing changes |
| Flags.Flag.ConsumeSlice | go/flag/slice-flag.go:17-29 | succeeds iff the decoder accepts the token; then the decoded value is appended at the end (length grows by one) and the flag is set; on failure nothing changes |
| Flags.Flag.Consume | go/flag/parser.go:88 | the flag's new state is `Consumed` of its old state (success iff the decoder accepts), for either shape |
| Flags.Consumed | go/flag/singleton-flag.go:15-27 | fails iff the decoder rejects the token; on success the flag is set and keeps its names and default, a singleton holding the decoded value and a slice having it appended after its earlier items |
| Flags.Defaulted | go/flag/flag.go:74-78 | names, default and "already set" bit are kept; a flag that was set is unchanged, and one never set ends holding its default |
| Flags.Saturated | go/flag/singleton-flag.go:28-30 | a singleton is full exactly when it has been set; a slice flag is never full |
| Flags.Flag.Full | go/flag/singleton-flag.go:28-30 | the flag reports full iff it is a singleton that has been set |
| Flags.IsBoolSingleton | go/flag/parser.go:100-101 | a flag set by its token alone is a singleton whose decoder is the boolean one |
| Parsing.Name2Flag | go/flag/parser.go:179-188 | empty iff the name is empty; one dash before a one-byte name (a single ASCII character), two before any other; the name ends the token |
| Parsing.ByteLen | go/flag/parser.go:180 | the UTF-8 byte length that Go's `len` gives: at least the number of characters, 0 only for the empty string, 1 exactly for a single ASCII character |
| Parsing.Add | go/flag/parser.go:132-143 | fails iff the token is empty or present, with the matching error, and then leaves the table unchanged; otherwise adds exactly that key bound to the flag; no existing binding changes |
| Parsing.SinkFull | go/flag/parser.go:84-86 | the current sink counts as full iff it is a singleton flag that has been set; the positional list and slice flags never are |
| Parsing.AddAliases | go/flag/parser.go:154-158 | the alias loop never drops an error and adds at most one per alias |
| Parsing.ExpandFrom | go/flag/parser.go:151-159 | the expansion loop never drops an error, and visiting no flag changes nothing |
| Parsing.Expansion | go/flag/parser.go:147-162 | every token of the expanded table is bound to a flag of the registered table |
| Parsing.ConsumeInto | go/flag/flag.go:87-90 | consuming into a sink never adds or removes a flag |
| Parsing.Process | go/flag/parser.go:79-108 | the routing loop never adds or removes a flag and only extends the positional list |
| Parsing.EnforceDefaults | go/flag/parser.go:117-119 | the default loop never adds or removes a flag |
| Parsing.RegisterSpecRenamed | go/flag/flag.go:54-57 | renaming a registered flag while keeping its canonical name gives the state of registering it under the new names |
| Parsing.RegisterSpec | go/flag/parser.go:171-177 | the flag is appended to the registration list with its view; a non-empty, free canonical token is bound to it with no error added; otherwise the table is unchanged and exactly one error is added |
| Parsing.ValidateAndExpandSpec | go/flag/parser.go:61-74 | succeeds iff there is no definition error and expansion reports none; definition errors are reported first and all of them; a failure returns no table; a success binds every token to a registered flag |
| Parsing.ParseSpec | go/flag/parser.go:47-58 | a refusal returns the state as it was with the validation error; the positional list is only ever extended |
| Parsing.ExpandFromValues | go/flag/parser.go:151-159 | the expansion loop binds tokens only to flags of the input table or of the partial result |
| Parsing.AddAliasesValues | go/flag/parser.go:154-158 | the alias loop binds tokens only to the flag being expanded or to flags already bound |
| Parsing.ExpandResolves | go/flag/parser.go:147-162 | every token of the expanded table is bound to a registered flag |
| Parsing.Parser.constructor | go/flag/parser.go:36-43 | a new parser has an empty table, no flag, no error, no positional argument |
| Parsing.Parser.ErrDef | go/flag/parser.go:167-169 | appends the error to the definition errors |
| Parsing.Parser.RegisterFlag | go/flag/parser.go:171-177 | the new state is `RegisterSpec` of the old: table and errors follow `add` on the canonical token, the flag is appended to the registration list in every case, other flags untouched |
| Parsing.Parser.AppendCanonical | go/flag/parser.go:176 | the flag is appended to the registration list, and its view joins the others unchanged |
| Parsing.Parser.Expand | go/flag/parser.go:147-162 | the loop's table and errors equal `Expansion` of the registered table in the given iteration order |
| Parsing.Parser.AddAliasesOf | go/flag/parser.go:154-158 | the alias loop's table and errors equal `AddAliases` over the flag's names after the first |
| Parsing.Parser.ValidateAndExpand | go/flag/parser.go:61-74 | equals `ValidateAndExpandSpec`: definition errors first, then expansion errors, else the expanded table |
| Parsing.Parser.ConsumePositional | go/flag/flag.go:87-90 | the token is appended at the end of the positional list |
| Parsing.Parser.ConsumeValue | go/flag/parser.go:83-93 | the sink falls back to the positional list iff the current one is full; the new state is `ConsumeInto` of the old; a failure changes nothing |
| Parsing.Parser.RouteToken | go/flag/parser.go:82-104 | one turn of the loop: either it stops with the error `Process` gives, or `Process` from the next token with the new sink gives the same outcome |
| Parsing.Parser.ProcessArguments | go/flag/parser.go:79-108 | the positional list, every flag's state and the error equal `Process` from the first token with the positional list as sink |
| Parsing.Parser.FinalizeParse | go/flag/parser.go:117-119 | every flag's state equals `EnforceDefaults` over the registration list |
| Parsing.Parser.EnforceDefaultOf | go/flag/parser.go:118 | `enforceDefault` on one registered flag replaces only that flag's view, by its defaulted view |
| Parsing.Parser.Parse | go/flag/parser.go:47-58 | the positional list, every flag's state and the error equal `ParseSpec` of the state before the call |
| ExpandProperties.AddAliasesGrows | go/flag/parser.go:154-158 | the alias loop keeps every binding and only appends errors |
| ExpandProperties.AddAliasesClean | go/flag/parser.go:154-158 | an alias loop with no error met only non-empty new tokens and bound each to the flag |
| ExpandProperties.ExpandFromGrows | go/flag/parser.go:151-159 | the expansion loop never drops a token and only appends errors |
| ExpandProperties.ExpandFromCanonical | go/flag/parser.go:151-152 | a visited canonical token ends bound to its own flag |
| ExpandProperties.ExpandFromReports | go/flag/parser.go:154-158 | an alias whose token is empty, already bound or a canonical token visited so far adds an error |
| ExpandProperties.ExpandFromBindsAlias | go/flag/parser.go:154-158 | without errors, every alias token that is not canonical is bound to its flag |
| ExpandProperties.ExpandKeepsCanonical | go/flag/parser.go:147-162 | every canonical token is in the expanded table, bound to its own flag |
| ExpandProperties.ExpandReportsCollision | go/flag/parser.go:147-162 | an empty alias, or an alias equal to a canonical token visited no later than its flag, makes expansion report an error |
| ExpandProperties.ExpandCleanBindsAliases | go/flag/parser.go:147-162 | a clean expansion binds every non-canonical alias token to its own flag |
| ExpandProperties.ExpansionDependsOnOrder | go/flag/parser.go:151-158 | for flag A named `ab` with alias `cd` and flag B named `cd`: one iteration order reports nothing, with `--cd` bound to B; the other reports the collision |
| ExpandProperties.AliasTokenHasAlias | go/flag/parser.go:151-158 | each alias token the loop tries to add is the token of an alias of a visited flag |
| ExpandProperties.AliasIsAliasToken | go/flag/parser.go:151-158 | the token of every alias of a visited flag is among the alias tokens tried |
| ExpandProperties.AddAliasesKeys | go/flag/parser.go:154-158 | after the alias loop a token is a key iff it was a key before or is a non-empty alias token |
| ExpandProperties.AddAliasesFresh | go/flag/parser.go:154-158 | an alias loop with no error met no empty token, no token twice and no token already bound |
| ExpandProperties.ExpandFromClean | go/flag/parser.go:151-159 | an expansion loop with no error met every alias token once, never empty and never already bound at the start |
| ExpandProperties.ExpandFromKeys | go/flag/parser.go:151-159 | after the expansion loop a token is a key iff it was a key before, is a visited canonical token, or is a non-empty alias token |
| ExpandProperties.ExpandKeys | go/flag/parser.go:147-162 | the expanded table's keys are exactly the canonical tokens and the non-empty tokens of aliases |
| ExpandProperties.ExpandReportsAlias | go/flag/parser.go:147-162 | an alias token met a second time, from the same flag or another, is reported in every iteration order |
| ExpandProperties.DuplicateAliasExample | go/flag/parser.go:147-162 | names `flag`, `f`, `f` expand to `--flag` and `-f` bound to the flag, with `-f` reported once |
| RouteProperties.PositionalInOrder | go/flag/parser.go:82-93 | the loop only appends to the positional list, and what it appends is a subsequence of the value tokens it read, in order |
| RouteProperties.OnlyValuesArePositional | go/flag/parser.go:83-93 | without flag tokens, every token is appended to the positional list in order and no error occurs |
| RouteProperties.ProcessProgresses | go/flag/parser.go:79-108 | routing never renames a flag, never changes a default and never clears an "already set" bit |
| RouteProperties.UnnamedFlagUntouched | go/flag/parser.go:79-108 | a flag that is not the current sink and is named by no remaining token keeps its state |
| RouteProperties.ErrorsExplained | go/flag/parser.go:88-103 | an unknown-flag error names a `-` token missing from the table; a missing-value error names a non-boolean flag that is the last token; a consume error names a flag whose decoder rejects the value |
| RouteProperties.StoppingTokenAborts | go/flag/parser.go:95-104 | a `-` token missing from the table, or a non-boolean flag as the last token, anywhere from the current position on, makes the loop end with an error |
| RouteProperties.UnknownFlagAborts | go/flag/parser.go:96-99 | a `-` token naming no flag makes the loop fail |
| RouteProperties.MissingValueAborts | go/flag/parser.go:102-103 | a non-boolean flag as the last token makes the loop fail |
| RouteProperties.SingletonTakesValue | go/flag/parser.go:83-93 | an unset non-boolean singleton takes the value after its token: its destination becomes the decoded value, it is marked set, and it stays the current sink |
| RouteProperties.SingletonValueExample | go/flag/parser.go:79-108 | `--count 5` for an unset integer flag ends without error, the flag holding 5 and nothing positional |
| RouteProperties.BoolFlagThenValue | go/flag/parser.go:84-101 | a boolean flag token sets the flag to true, and the value right after it goes to the positional list |
| RouteProperties.SetSingletonDiverts | go/flag/parser.go:84-86 | the value after the token of a singleton that is already set goes to the positional list, and the flag keeps its state |
| RouteProperties.SliceAbsorbsRun | go/flag/slice-flag.go:17-34 | a slice flag is never full: a run of values it decodes is appended to it in order, and it stays the current sink |
| ParseProperties.Name2FlagByLength | go/flag/parser.go:179-188 | the token is chosen by the name's byte length as in the source: 0 gives the empty token, 1 gives `-name`, more gives `--name` |
| ParseProperties.FlagTokenIsDashPrefix | go/flag/parser.go:83 | a token is read as a flag exactly when `-` is a prefix of it, and it is then `-` followed by the rest |
| ParseProperties.NonAsciiLetterTakesTwoDashes | go/flag/parser.go:179-188 | the one-character, two-byte name `é` gets `--é` |
| ParseProperties.Name2FlagInjective | go/flag/parser.go:179-188 | distinct names give distinct tokens |
| ParseProperties.Name2FlagIsFlagToken | go/flag/parser.go:179-188 | a name's token starts with `-` iff the name is non-empty |
| ParseProperties.DashTokens | go/flag/parser.go:179-188 | no name gives `-`, and only the name `-` gives `--` |
| ParseProperties.RegisterBinds | go/flag/parser.go:171-177 | registration keeps the state well formed and records no error iff the canonical token is non-empty and free, in which case it binds that token to the flag; earlier bindings and flags are untouched |
| ParseProperties.ClashingRegistrationRefuses | go/flag/parser.go:61-65 | after registering an empty or taken canonical name, every `Parse` refuses with the definition errors plus that one and changes nothing |
| ParseProperties.EnforceDefaultsApplies | go/flag/parser.go:117-119 | the default loop applies `enforceDefault` to exactly the registered flags |
| ParseProperties.EnforceDefaultsFills | go/flag/flag.go:74-78 | after the default loop every registered flag was set or holds its default; set flags are unchanged |
| ParseProperties.ParseRefuses | go/flag/parser.go:47-51 | `Parse` refuses iff a definition or expansion error exists; definition errors come first and are all reported; a refusal changes nothing |
| ParseProperties.ParseProgresses | go/flag/parser.go:47-58 | `Parse` never renames a flag, never changes a default and never clears an "already set" bit |
| ParseProperties.ParseDefaults | go/flag/parser.go:53-57 | after a routing error no default is applied and the loop's changes stay; after a clean routing, every registered flag was set or holds its default |
| ParseProperties.SetStaysSetAcrossParses | go/flag/singleton-flag.go:24-30 | a flag that was set stays set through any later `Parse` |
| ParseProperties.DefaultedSliceAppends | go/flag/slice-flag.go:17-29 | a slice flag holding its default from an earlier `Parse` appends a later run of values after the default's items instead of replacing them |
| Lie.Map | go/fun/eager/lie/lie.go:5-12 | the result has the source's length and its element `i` is `fun` of source element `i` |
| Help.Tokens | go/flag/help.go:27 | the tokens of a flag's names, one per name, in order |
| Help.Join | go/flag/help.go:27 | joining no part gives the empty string; otherwise the result begins with the first part |
| Help.MaxLen | go/flag/help.go:25-31 | 0 without declarations, and never below the byte length of the last one (every one, by `MaxLenIsLongest`) |
| Help.PadRight | go/flag/help.go:34 | the string, never cut, followed by spaces up to the width |
| Help.Line | go/flag/help.go:34-36 | a line is as long as the padded declaration plus the documentation line plus four spaces and a newline, and ends with the newline |
| Help.Header | go/flag/help.go:17-23 | `Usage: ` then the usage, then the nine characters of the blank line and `Flags:` line |
| Help.HelpText | go/flag/help.go:11-40 | the page begins with the header, and is the header alone iff no flag is registered |
| Help.MaxLenIsLongest | go/flag/help.go:25-30 | the column width is at least the byte length of every declaration, equals the byte length of one, and is 0 without declarations |
| Help.Declarations | go/flag/help.go:31 | one declaration per flag, in registration order |
| Help.MakeDeclaration | go/flag/help.go:27 | the declaration is the flag's tokens, canonical first, joined by `, ` |
| Help.Declare | go/flag/help.go:25-31 | builds every flag's declaration in registration order, with the column width equal to the byte length of the longest one |
| Help.Help | go/flag/help.go:11-40 | the page is the usage header followed by one line per registered flag, in order, padded to the longest declaration; the parser is not modified |
| Help.WriteLines | go/flag/help.go:33-37 | appends one line per declaration, in order, each with its flag's documentation line |
| HelpProperties.EmptyPage | go/flag/help.go:17-23 | a parser without flags renders `Usage: <usage>`, a blank line and `Flags:` |
| HelpProperties.LinesPrefix | go/flag/help.go:35-37 | the lines of the first `k` flags begin the lines of all of them |
| HelpProperties.LinesInOrder | go/flag/help.go:35-37 | the line of flag `k` comes right after the lines of the flags before it |
| HelpProperties.LineLayout | go/flag/help.go:34-36 | a line is two spaces, the declaration padded with spaces to the width, two spaces, the documentation line and a newline |
| HelpProperties.DocsAligned | go/flag/help.go:25-36 | every declaration appears whole on its line, and every documentation line starts in the same column |
| HelpProperties.TokensExample | go/flag/parser.go:179-188 | `boolflag`, `b`, `bool` become `--boolflag`, `-b`, `--bool` |
| HelpProperties.DeclarationExample | go/flag/help.go:27 | names `boolflag`, `b`, `bool` are declared `--boolflag, -b, --bool` |
| Registration.BoolDecoder | go/flag/parser.go:100-101 | the boolean decoder is tagged boolean and accepts `true` as true |
| Registration.IntDecoder | go/flag/decoder.go:14-19 | not boolean, zero value 0; accepts exactly the tokens `atoi` accepts, giving its integer |
| Registration.StringDecoder | go/flag/decoder.go:21-26 | not boolean, zero value the empty string; accepts every token as itself |
| Registration.Register | go/flag/registration.go:10-22 | a fresh singleton with the single given name, the given destination and documentation line, the type's zero value as default, not set; the parser's new state is `RegisterSpec` of the old |
| Registration.RegisterSlice | go/flag/registration.go:26-38 | the same for a slice flag, with the empty list as default |
| Registration.Int | go/flag/registration.go:43-45 | `Register` with the integer decoder: default 0 |
| Registration.String | go/flag/registration.go:47-49 | `Register` with the string decoder: default the empty string |
| Registration.Bool | go/flag/registration.go:51-53 | `Register` with the boolean decoder: default false, and the flag is a boolean singleton |
| Registration.IntSlice | go/flag/registration.go:55-57 | `RegisterSlice` with the integer decoder |
| Registration.StringSlice | go/flag/registration.go:59-61 | `RegisterSlice` with the string decoder |
| Registration.AliasRegistered | go/flag/flag.go:54-57 | `Alias` on a registered flag changes only that flag's names, as the parser sees them |
| Registration.DefaultRegistered | go/flag/flag.go:59-62 | `Default` on a registered flag changes only that flag's default, as the parser sees it |
| Registration.WithHelp | go/flag/parser.go:29-34 | the usage becomes `arg0 usage`, and a boolean flag `help` with alias `h`, default and value false, is registered |
| Demo.DemoFirstHalf | go/main.go:32 | `4` goes to the positional list, then `-8 15 16` appends 15 and 16 to `eight`, which stays the sink |
| Demo.DemoSecondHalf | go/main.go:32 | `--23 42` sets `twentythree` to 42, `--hatch` sets `hatch` to true, `3` becomes positional, and routing ends without error |
| Demo.MainScenario | go/main.go:26-32 | routing `4 -8 15 16 --23 42 --hatch 3` ends without error: positional `4 3`, `twentythree` 42, `eight` 15 16, `hatch` true, `four` untouched until its default `4` is enforced |

## Left out

- The help branch of `finalizeParse` (go/flag/parser.go:112-115) prints the page and exits the process. It is I/O and is not modelled. `printHelp` is the `help` flag's own destination.
- Two parsing functions outside the repository are parameters:
  - `strconv.Atoi`, behind `Int.Decode` (go/flag/decoder.go:17-19), whose range depends on the host, is `atoi` (`IntDecoder`);
  - the `Bool` decoder (used at go/flag/registration.go:52), whose definition is not part of this model, is `parseBool`, which must accept `true`.
- Custom decoders are limited to the three built-in value types (`Scalar`: int, string, bool).
- Error texts are not modelled. This covers the `%T` kind strings, the `"N flag definition errors"` headers and `errors.Join` formatting. Errors are datatype variants, and an aggregated error is a sequence.
- Go's map iteration order is an explicit parameter. `expand` therefore depends on it (see `ExpansionDependsOnOrder`): a canonical token visited after an alias equal to it overwrites the alias's binding with its own flag (go/flag/parser.go:151-152 assigns `res[canonical]` unconditionally), and no error is reported.
- Destinations are not shared pointers. Each flag owns its destination, and registration takes the variable's initial content. Registering two flags on one destination is undefined in the source.
- `NewParser`'s variadic options are not modelled as such. The model is the constructor followed by a call to `WithHelp`.
- The `mkdecl` closure in `Help`, with its side effect on `align`, is written as a loop (`Declare`). The loop computes the same declarations and width.
- Help.Help: the column width `align` is counted in bytes, as Go's `len` does (go/flag/help.go:28), and the format `%-<align>s` built by `Sprintf` (go/flag/help.go:34) pads by characters. `DocsAligned` proves that every documentation line starts in the same column. When a name is non-ASCII, that column is wider than the longest declaration in characters; the model keeps this and does not state a visual width.
- No whole help page is stated as a concrete string. Only the declaration example is.
- `sliceFlag` defines `arity` rather than `full`, and the `flag` interface declares `what` while the flags define `kind`. The model gives slice flags and the positional list a `full` that is always false.
- `PositionalArguments.names` and `kind` (used in consume error messages) are not shown. A consume error carries the sink and the token.
- `is` (go/flag/parser.go:190-193) is replaced by the flag's explicit `isBool` decoder tag.
- Lie.Map: the result type must have a default value, so that the result array can be allocated (Go's `make` needs none).
- The demo program go/main.go: only the routing of its fixed token list (go/main.go:32) is modelled (`MainScenario`), from a table and views assumed as registration and expansion would leave them (`DemoSetup`). Its use of `os.Args`, its second `Parse` with `-h`, and its printing are not modelled.
- Three behaviours of the code are easy to misread, and the model keeps them:
  - a singleton that has been set stays full (go/flag/singleton-flag.go:28-30), and the router sends a token after a full flag to the positional list (go/flag/parser.go:84-86). A repeated singleton therefore keeps its first value, and the later value becomes positional (`SetSingletonDiverts`, `SetStaysSetAcrossParses`);
  - `expand` checks an alias only against the tokens already in the table (go/flag/parser.go:151-158), and canonical tokens enter that table in map order. An alias equal to another flag's canonical token is reported only when that flag was visited first (`ExpansionDependsOnOrder`);
  - `Parse` can be called again, and a slice flag's values accumulate across calls: `enforceDefault` gives an unset slice its default (go/flag/flag.go:74-78), and a later `consume` appends after it (go/flag/slice-flag.go:17-29). The default's items thus stay in front of the new values (`ParseDefaults`, `DefaultedSliceAppends`).
