/** The data model of the scraper's configuration (the TOML `Shards`,
    `Interpolations` and delimiter sections) and the interface of the
    document library that the engine calls but does not contain. */
module Types {

  datatype Option<+T> = None | Some(value: T)

  /** A fetched page that can be queried with a selector. Its structure
      belongs to the HTML library and is not modelled. */
  type Document

  /** The network and DOM capability: `goquery.NewDocument(url)` (None when
      the fetch fails), `doc.Find(sel).Text()` and `doc.Find(sel).Attr(a)`
      (None when the attribute is absent). Repeated fetches of one URL are
      taken to return the same document. */
  datatype Web = Web(
    fetch: string -> Option<Document>,
    selectText: (Document, string) -> string,
    selectAttr: (Document, string, string) -> Option<string>)

  /** One extractable value. An empty `override`, `url` or `attr` means
      "not set", as in the source. */
  datatype Shard = Shard(
    name: string,
    modifications: seq<string>,
    override: string,
    url: string,
    selector: string,
    attr: string)

  /** A text template (`Interpolation` field in the source) with the URL
      substrings it is selected by and the prefix used to scope lookups. */
  datatype Interpolation = Interpolation(
    modifications: seq<string>,
    urlContains: seq<string>,
    template: string,
    beginsWith: string)

  /** A compiled token pattern `[b][^be]+[e]`, known by its two delimiters. */
  datatype TokenPattern = TokenPattern(begin: char, end: char)

  /** The configuration as the engine receives it: by value, after
      initialisation (names filled in, both token patterns compiled). */
  datatype Config = Config(
    shards: map<string, Shard>,
    interpolations: map<string, Interpolation>,
    shardPattern: TokenPattern,
    interpPattern: TokenPattern)

  /** The two revisions of the engine: `package main` (construct.go,
      shards.go, main.go) and `package SimpleScraper` (config.go,
      interpolations.go). They differ in how an interpolation token is
      looked up. */
  datatype Revision = CommandLine | Library
}
