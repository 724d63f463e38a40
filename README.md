# ArgsParser extraction, in Dafny

This project models the part of `ArgsParser` (src/lib/parser.ts) that is not
handed to a library. It turns an already classified parse result and a
command's declared options into the final `name -> string | true` record.
The parse result holds three things:

- the values given by name (`--key=value`), several per key possible;
- the bare flags (`--key`);
- the positional tokens, in order.

It also models the constructor's configuration defaulting, and `runParser` as
the extraction applied after an abstract classification step.

- `wrappers.dfy`: module `Wrappers`. `Option`, standing for `undefined`/`null`.
- `config.dfy`: module `ParserConfig`. The constructor's `??` defaulting of prefixes, separators and quote pairs.
- `extraction.dfy`: module `Extraction`. The three extraction methods and the lemmas about their result:
  - `getOptionValues` is modelled by the function `OptionValues`.
  - `getOrderedValues` is modelled by the function `OrderedValues`.
  - `extractOptions` is modelled by the method `ExtractOptions`, with its loops.
- `args_parser.dfy`: module `Parsing`. The class `ArgsParser`, whose configuration is fixed by its constructor, and `RunParser`.

`ExtractOptions` is proved equal to `Extract`. `Extract` is a specification
function that replays the same three steps in order:

- the loop over the declared options (`Assigned`);
- the positional fill (`Fill`);
- the flag loop (`WithFlags`).

The lemmas then state what that record is without any loop:

- which keys it has;
- that flags win;
- that the first named value wins when every option is named;
- the value each declared option ends up with;
- that positional tokens past the declared options are ignored.

The extraction behaves in ways a reader might not expect, and the model keeps
each of them as the code has them:

- When the loop meets a declared option with no named value, the positional fill writes every declared index that has a positional token. This overwrites named values already stored for earlier options.
- The fill runs again for each later option that lacks a named value.
- A named option does not shift the positional tokens of the options after it, because the position is the declaration index.
- Flags are written last, as `true`, over whatever the same key held.
- The record is a plain JavaScript object written with `optionsMap[key] = value`. Such an assignment never creates an own key `__proto__`, because the inherited setter ignores a string or `true`. The model's `Store` writes every key except `__proto__` (`ProtoKey`), and the contracts below say so.

A natural reading of the extraction is that each declared option prefers its
own named value and falls back to the positional token at its index, so a
matched option always holds its first matching value. The code does not do
that, because the positional fill overwrites earlier named values
(`PositionalFillOverwritesNamedValue`). The model follows the code.

## Model

| member | source | states |
|---|---|---|
| `ParserConfig.Resolve` | src/lib/parser.ts:19-30 | with no options object every field is its default (`["--","/"]`, `["=",":"]`, the three quote pairs); each supplied field is used as given and each missing one falls back to its own default |
| `ParserConfig.SuppliedFieldReplacesOnlyItsDefault` | src/lib/parser.ts:28-30 | supplying prefixes, separators or quotes changes that field of the resolved configuration and leaves the other two as they were |
| `ParserConfig.EmptyListIsKept` | src/lib/parser.ts:28 | `??` falls back only on a missing field: a supplied empty prefix list stays empty instead of becoming the default |
| `ParserConfig.ResolveRoundTrip` | src/lib/parser.ts:28-30 | a fully supplied options object resolves to exactly the configuration it spells out |
| `Parsing.ArgsParser.constructor` | src/lib/parser.ts:19-34 | the parser's configuration is the resolved one |
| `Parsing.ArgsParser.RunParser` | src/lib/parser.ts:85-88 | the result is the extraction of the content classified with this parser's configuration; every flag other than `__proto__` is `true`, `__proto__` is never a key, and every key is declared or a flag |
| `Extraction.OptionValues` | src/lib/parser.ts:40-42 | the stored value list for a name, the empty list when the name has no entry |
| `Extraction.OrderedValues` | src/lib/parser.ts:44-51 | one entry per declared option; entry `i` is the `i`-th positional token when there is one, null otherwise |
| `Extraction.OrderedValuesReadOnlyDeclaredPositions` | src/lib/parser.ts:48-50 | two parse results that agree on the first `n` positional tokens (n = number of declared options) give the same ordered values |
| `Extraction.ExtractOptions` | src/lib/parser.ts:53-83 | the loops build exactly `Extract`; every flag other than `__proto__` maps to `true`; `__proto__` is never a key; every key is a declared name or a flag; every non-flag key holds a string |
| `Extraction.WithFlags` | src/lib/parser.ts:77-80 | the flag loop adds every flag except `__proto__` as a key holding `true`, overwriting a string under the same name, and leaves every other key as it was |
| `Extraction.FillAt` | src/lib/parser.ts:69-73 | with distinct names, the fill writes the `i`-th positional token under the `i`-th declared name exactly when that token exists and the name is not `__proto__`, and leaves the key otherwise untouched |
| `Extraction.FlagsWin` | src/lib/parser.ts:57-82 | every flag except `__proto__`, declared or not, maps to `true`; `__proto__` is never a key; every key is a declared name or a flag; every other key maps to a string |
| `Extraction.FirstNamedValueWins` | src/lib/parser.ts:60-80 | when every declared option has a named value, the result is each declared name other than `__proto__` mapped to its first named value (later duplicates ignored, positional tokens unused) with the flags written over it |
| `Extraction.ResultKeys` | src/lib/parser.ts:57-82 | the keys are exactly the flags, the declared names given by name, and, once some declared option lacks a named value, every declared name whose index has a positional token, all without `__proto__`; other declared options are absent, never null |
| `Extraction.DeclaredOptionValue` | src/lib/parser.ts:60-74 | with distinct declared names, a non-flag option at index `i` holds the `i`-th positional token when it exists and the option or some later-declared one lacks a named value; otherwise its first named value; otherwise it is absent; an option named `__proto__` is always absent |
| `Extraction.ExtraPositionalTokensIgnored` | src/lib/parser.ts:48-50 | dropping positional tokens beyond the number of declared options does not change the result |
| `Extraction.RepositoryTestExample` | tests/parser.test.ts:5-26 | options `[name, age, flag1]`, passed as the array `runParser` declares, with positional `option1`, `age=10` and flag `flag`, give exactly the test's expected `{name: "option1", age: "10", flag: true}` |
| `Extraction.PositionalFillOverwritesNamedValue` | src/lib/parser.ts:64-74 | options `[name, age]` with `name=x` and positional `y` give exactly `{name: "y"}`: the later option's fill overwrites the named value and `age` stays absent |
| `Extraction.ProtoKeyNeverStored` | src/lib/parser.ts:57-80 | options `[__proto__, age]` with `__proto__` given by name, as a flag and with one positional token yield the empty record: the named, positional and flag writes under `__proto__` are all dropped, and `age` has no token |

## Left out

- Tokenizing and classifying. `Lexer`, `Parser` and `PrefixedStrategy` (src/lib/parser.ts:1-6, 32-33) come from `@sapphire/lexure`, whose source is not part of this model. `parseContent` (src/lib/parser.ts:36-38) is the class's own method, but all it does is run the library's lexer and then its parser. `RunParser` takes that combined step as a function parameter, from configuration and content to the classified result.
- The `Parser` and `Lexer` objects the constructor stores: the class keeps the resolved configuration they are built from.
- `getOptionValues`, `getOrderedValues` and `extractOptions` read no instance state, so they are module-level members rather than class methods.
- `CommandOption` is reduced to its `name`, because nothing else of it is read. Declared options are a `seq<string>`.
- The order in which flags are visited: the model picks set elements in any order. This is sound for the key set and the values, because every flag writes the same value `true`.
- The key order of the returned object. A JavaScript object keeps its keys in insertion order, with integer-like keys first, and `Object.keys` and `JSON.stringify` show that order. The model's result is a Dafny `map`, which has no key order.
- The calling shape of tests/parser.test.ts:22-24, which passes `{ options: testOptions } as Command` to `runParser`. The model uses the array of options that `runParser` declares (src/lib/parser.ts:85) and keeps only the test's expected output. Read literally, the test passes an object that the loop at line 60 cannot iterate.
- Quote-pattern expansion, configuration errors and per-command configuration attachment have no code in src/lib/parser.ts, so there is nothing to model.
- Extraction.DeclaredOptionValue: requires distinct declared names. With a repeated name the last write of the loops decides, and only `Extraction.ResultKeys` and `Extraction.FlagsWin` describe that case.
- benchmarks/index.ts: a timing harness with no logic of its own.
