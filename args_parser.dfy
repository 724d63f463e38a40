/**
 The `ArgsParser` class (src/lib/parser.ts, lines 15-89). Its state is the
 configuration fixed by the constructor; the lexer and the prefixed parser it
 builds from that configuration belong to an external library and appear
 here as one function from (configuration, content) to the classified result.
 */
module Parsing {
  import opened Wrappers
  import opened ParserConfig
  import opened Extraction

  class ArgsParser {
    /** Prefixes, separators and quote pairs, set once by the constructor. */
    const config: Config

    constructor (options: Option<ArgsParserOptions>)
      ensures config == Resolve(options)
    {
      config := Resolve(options);
    }

    /**
     `runParser`: classify the content with this parser's configuration, then
     extract the record for the declared options.
     */
    method RunParser(content: string, commandOptions: seq<string>, parseContent: (Config, string) -> ParserResult)
      returns (r: OptionsMap)
      ensures r == Extract(parseContent(config, content), commandOptions)
      ensures forall f :: f in parseContent(config, content).flags && f != ProtoKey ==> f in r && r[f] == True
      ensures ProtoKey !in r
      ensures forall key :: key in r ==> key in commandOptions || key in parseContent(config, content).flags
    {
      var parsedContent := parseContent(config, content);
      r := ExtractOptions(parsedContent, commandOptions);
    }
  }
}
