/**
 The configuration defaulting done by the `ArgsParser` constructor
 (src/lib/parser.ts, lines 19-30). Every field of the optional options object
 falls back to its own default through `??`, independently of the others.
 */
module ParserConfig {
  import opened Wrappers

  /** A quote pair: opening marker and closing marker. */
  type QuotePair = (string, string)

  /** The constructor's optional argument; each field may be left out. */
  datatype ArgsParserOptions = ArgsParserOptions(
    prefixes: Option<seq<string>>,
    separators: Option<seq<string>>,
    quotes: Option<seq<QuotePair>>)

  /** What the constructor hands to the lexer and the prefixed strategy. */
  datatype Config = Config(
    prefixes: seq<string>,
    separators: seq<string>,
    quotes: seq<QuotePair>)

  const DefaultPrefixes: seq<string> := ["--", "/"]
  const DefaultSeparators: seq<string> := ["=", ":"]
  const DefaultQuotes: seq<QuotePair> :=
    [("\"", "\""), ("\U{201C}", "\U{201D}"), ("\U{300C}", "\U{300D}")]

  const Defaults: Config := Config(DefaultPrefixes, DefaultSeparators, DefaultQuotes)

  /** The nullish-coalescing operator `supplied ?? fallback`. */
  function OrDefault<T>(supplied: Option<T>, fallback: T): (r: T)
    ensures supplied.Some? ==> r == supplied.value
    ensures supplied.None? ==> r == fallback
  {
    match supplied
    case Some(v) => v
    case None => fallback
  }

  /** The options object as the optional chain `options?.field` sees it. */
  function Given(options: Option<ArgsParserOptions>): ArgsParserOptions
  {
    match options
    case Some(o) => o
    case None => ArgsParserOptions(None, None, None)
  }

  /** The configuration the constructor builds from its optional argument. */
  function Resolve(options: Option<ArgsParserOptions>): (c: Config)
    ensures options.None? ==> c == Defaults
    ensures options.Some? && options.value.prefixes.Some? ==> c.prefixes == options.value.prefixes.value
    ensures options.Some? && options.value.separators.Some? ==> c.separators == options.value.separators.value
    ensures options.Some? && options.value.quotes.Some? ==> c.quotes == options.value.quotes.value
    ensures (options.None? || options.value.prefixes.None?) ==> c.prefixes == DefaultPrefixes
    ensures (options.None? || options.value.separators.None?) ==> c.separators == DefaultSeparators
    ensures (options.None? || options.value.quotes.None?) ==> c.quotes == DefaultQuotes
  {
    var o := Given(options);
    Config(
      OrDefault(o.prefixes, DefaultPrefixes),
      OrDefault(o.separators, DefaultSeparators),
      OrDefault(o.quotes, DefaultQuotes))
  }

  /** Supplying one field changes that field of the configuration and no other. */
  lemma SuppliedFieldReplacesOnlyItsDefault(o: ArgsParserOptions, prefixes: seq<string>, separators: seq<string>, quotes: seq<QuotePair>)
    ensures Resolve(Some(o.(prefixes := Some(prefixes)))) == Resolve(Some(o)).(prefixes := prefixes)
    ensures Resolve(Some(o.(separators := Some(separators)))) == Resolve(Some(o)).(separators := separators)
    ensures Resolve(Some(o.(quotes := Some(quotes)))) == Resolve(Some(o)).(quotes := quotes)
  {
  }

  /** An empty list is not nullish: it is kept and does not bring back the default. */
  lemma EmptyListIsKept(o: ArgsParserOptions)
    requires o.prefixes == Some([])
    ensures Resolve(Some(o)).prefixes == []
    ensures Resolve(Some(o)).prefixes != DefaultPrefixes
  {
  }

  /** Resolving a configuration spelled out in full gives it back unchanged. */
  lemma ResolveRoundTrip(c: Config)
    ensures Resolve(Some(ArgsParserOptions(Some(c.prefixes), Some(c.separators), Some(c.quotes)))) == c
  {
  }
}
