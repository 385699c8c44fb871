# SimpleScraper template engine, in Dafny

SimpleScraper turns a web page into text. The text comes from a configured
template (an *interpolation*). A template contains two kinds of tokens:

- *shard* tokens, replaced by a value taken from the page, a fixed override or
  another page;
- *interpolation* tokens, replaced by the expansion of another template.

Every value then goes through a *modification pipeline*. The pipeline is a
list of instructions read in groups of four: prepend, append, select pattern,
replacement.

This project models that engine and proves what it promises. It covers:

- the token pattern `[b][^be]+[e]` and its left-to-right matching;
- the pipeline;
- shard lookup across an ordered list of maps, and shard population;
- the mutual recursion between `constructInterpolation` and
  `findInterpolation`;
- the guard against empty replacements;
- the URL policy;
- URL dispatch;
- the `REQUESTED_URL` shard that `main` builds.

The two revisions of the engine in the repository are modelled as one engine
with a `Revision` parameter:

- `package main`: construct.go, shards.go and main.go.
- `package SimpleScraper`: config.go and interpolations.go.

The revisions differ in how an interpolation token is looked up. They also
differ in where the configuration comes from: it is a parameter in one and the
package's configuration object in the other.

Files, one module each:

- `types.dfy`: the configuration records and the `Web` interface.
  - `Web` is the network and DOM capability, passed in as three functions:
    fetch, selector text and selector attribute.
  - `Document` is an abstract type.
- `strings.dfy`: `strings.Contains`, and `regexp.ReplaceAll` for literal
  patterns.
- `tokens.dfy`: delimiters, `constructTokenRegex`, the scanner behind
  `ReplaceAllFunc`, `stripTokenDelimiters` and `validateTokenReplacement`.
- `modifications.dfy`: `runModifications`, a loop over groups of four, proved
  against the function `Modified`.
- `urls.dfy`: `validateURL`.
- `configuration.dfy`: `tomlConfig` as a class, whose `Initialize` rewrites
  the shard map in place.
- `shards.dfy`: `grabShardOverrideURL`, `populateShard`, `findShard` (a loop
  with an early return, proved against `LookupShard`) and the shard pass.
- `interpolations.dfy`: `inheritFromInterp`, interpolation lookup for both
  revisions, and the mutually recursive `ConstructInterpolation`,
  `InterpolationPass` and `FindInterpolation`.
- `dispatch.dfy`:
  - `constructFromURL` as a nested loop, proved against an order-independent
    specification;
  - `ConstructFromURL` of `package SimpleScraper`, which checks the URL first;
  - the `main` dispatch.
- `scenarios.dfy`: an example configuration, `greet`, expanded end to end.

`constructInterpolation` passes `[config.Shards, tempShards]`
(construct.go:192, interpolations.go:67). So configured shards are searched
first and shadow a transient shard of the same name, `REQUESTED_URL`
included (`Shards.ConfiguredShadowsTransient`,
`Dispatch.ConfiguredRequestedURLWins`).

## Model

| member | source | states |
|---|---|---|
| Strings.Contains | construct.go:134-136 | `strings.Contains(s, sub)`: some index of `s` starts an occurrence of `sub`. The empty `sub` occurs in every string. |
| Strings.ReplaceAll | construct.go:75 | `regexp.ReplaceAll` for a literal pattern. Each leftmost occurrence is replaced and scanning resumes after it, so occurrences do not overlap and the replacement text is not scanned again. The empty pattern puts the replacement before every character and at the end. |
| Strings.EmptyIsContained | construct.go:136 | The empty filter is contained in every interpolation name, so an empty `interpContains` selects every interpolation. |
| Strings.ReplaceEmptyByEmpty | config.go:70-80 | Replacing the empty pattern by the empty text returns the value unchanged. This is what makes the padding group harmless. |
| Strings.ReplaceAbsent | construct.go:75 | A select pattern that does not occur in the value leaves it unchanged. |
| Strings.ReplaceBySelf | construct.go:75 | Replacing a pattern by itself leaves the value unchanged, for every pattern, the empty one included. |
| Tokens.DelimiterChar | construct.go:55 | A supported delimiter string stands for one ASCII character, so one byte: itself, or the character after a backslash. |
| Tokens.RunLen | construct.go:55 | `[^be]+` runs greedily: it covers exactly the longest delimiter-free prefix. |
| Tokens.TokenLen | construct.go:55 | A non-zero match length at a position always covers a token: begin char, one or more non-delimiters, end char. |
| Tokens.TokenLenExact | construct.go:55 | A prefix is a token exactly when the pattern matches with that length. Both directions are proved, so at most one token starts at a position. |
| Tokens.ConstructTokenRegex | construct.go:54-61 | For a supported pair, the compiled pattern's delimiters are the two configured characters. At the start of any text it matches exactly the tokens `b`, one or more non-delimiters, `e`. The later revision does the same at config.go:59-66. |
| Tokens.BareCloseMatchLen | construct.go:55 | As written, with `]` as the end delimiter, the pattern reads as begin char, one other char, then two or more `]`. |
| Tokens.BareCloseMissesTokens | construct.go:55 | As written, with a bare `]` end delimiter, no position inside any bracketed token `[name]` that is not followed by another `]` starts a match. |
| Tokens.EscapedCloseMatchesName | config.go:60 | Writing the end delimiter as `\]` gives the intended pattern. That pattern matches `[name]` whole, which the bare `]` pattern never does. |
| Tokens.Scan | construct.go:202-205 | The match loop of `ReplaceAllFunc`. At each position the token that starts there is taken whole; otherwise one character is kept. Scanning resumes after the piece. |
| Tokens.ScanJoin | construct.go:202-205 | The left-to-right scan of `ReplaceAllFunc` splits the text into kept characters and tokens that rejoin to the text: nothing is lost or added. |
| Tokens.ScanTokens | construct.go:202-205 | Every piece the scan hands to the replacement callback is a match of the token pattern. |
| Tokens.MapJoinAppend | construct.go:202-203 | A replacement pass over two runs of pieces is the pass over the first run followed by the pass over the second. |
| Tokens.ScanLeftmost | construct.go:202-205 | No match starts at a character the scan kept, so matching is leftmost and no token is skipped. |
| Tokens.ScanWithoutTokens | interpolations.go:77-80 | A text where no match starts anywhere scans to kept characters only. |
| Tokens.ScanLiteralPrefix | interpolations.go:77-78 | A stretch without a begin character is scanned character by character, independently of what follows it. |
| Tokens.ScanTokenPrefix | interpolations.go:77-78 | A token at the front is taken whole and scanning resumes after it, so a replacement is never rescanned. |
| Tokens.ScanNoBegin | interpolations.go:79-80 | A text without a begin character contains no token. |
| Tokens.OneTokenScan | interpolations.go:77-78 | Plain text, one token, plain text scans to the characters, the token, then the characters. |
| Tokens.EmptyPairIsNoToken | construct.go:55 | An empty pair `be` is never a token. |
| Tokens.InnermostMatch | construct.go:55 | In `b b x e` only the inner `b x e` is matched. |
| Tokens.StripTokenDelimiters | construct.go:149 | The name is the token without its first and last character: length `\|token\| - 2`, character `i` is `token[i + 1]`. The later revision does the same at config.go:86. |
| Tokens.StripRoundTrip | construct.go:149 | For a token, the name is non-empty and delimiter-free, and putting the delimiters back rebuilds the token. |
| Tokens.ValidateTokenReplacement | construct.go:151-157 | An empty replacement gives back the original token. Any other replacement is returned unchanged. The later revision does the same at config.go:88-94. |
| Tokens.ReplacementNeverErases | construct.go:151-157 | A substitution never turns a token into the empty string. |
| Modifications.Padding | construct.go:65-66 | The padding is 1 to 4 empty strings, and the padded list is a multiple of four long. |
| Modifications.Modified | construct.go:63-79 | What `runModifications` returns: the list is padded to whole groups of four, then each group's prepend, append and replace-all is applied to the previous group's output. |
| Modifications.RunModifications | construct.go:63-79 | The loop over groups of four returns `Modified(original, mods)`. That is: pad, then per group prepend, append and replace every occurrence, each group applied to the previous group's output. The later revision does the same at config.go:68-84. |
| Modifications.ApplyGroupsAppend | construct.go:67-76 | Running two runs of whole groups one after the other is running them together. |
| Modifications.EmptyGroupIsNoOp | config.go:70-80 | A group of four empty strings changes nothing. |
| Modifications.EmptyListIsIdentity | config.go:70-80 | With no instructions the value is returned unchanged. |
| Modifications.ModifiedConcat | construct.go:67-76 | A list of whole groups followed by more instructions equals running the first list, then the rest. |
| Modifications.SingleGroup | config.go:72-81 | One group computes `ReplaceAll(select, replacement, prepend + value + append)`. |
| Modifications.PrependGroup | construct.go:67-76 | A group that only prepends puts its text in front of the value. |
| Modifications.TwoPrepends | construct.go:67-76 | Two prepend groups run in list order, so the second group's text ends up first. |
| Modifications.GroupsDoNotCommute | construct.go:67-76 | For every value, the prepend groups `a` and `b` give different results in the two orders, so groups do not commute. |
| Urls.ValidateURL | interpolations.go:16-19 | A URL is accepted exactly when it starts with `http://www.` or `https://www.`. The check is case-sensitive and allows any suffix. |
| Urls.RejectedURLs | main.go:15-21 | `ftp://example.com`, `HTTP://www.x` and `https://example.com` are rejected. |
| Urls.AcceptedURLs | main.go:15-21 | A `https://www.` URL with a path, and the bare prefix `http://www.`, are accepted. |
| Configuration.TomlConfig.constructor | construct.go:11-17 | The configuration starts as decoded, with no pattern compiled. |
| Configuration.TomlConfig.Initialize | construct.go:44-52 | Afterwards every `Shards[k].Name == k`. The key set and every other shard field are unchanged, and the interpolations and delimiter lists are untouched. Both patterns are compiled from the first two delimiters. The later revision does the same at config.go:49-57. |
| Shards.GrabShardOverrideURL | shards.go:8-16 | A shard URL that fails the URL policy is refused before any fetch. Otherwise the result is the fetch of that URL. |
| Shards.OverrideIgnoresPage | shards.go:34-36 | A non-empty override yields `runModifications(Override, Modifications)`. URL, selector, attribute, the web and the caller's page make no difference. |
| Shards.RefusedShardURLIsEmpty | shards.go:39-44 | With no override, a shard URL that fails the policy, or whose page cannot be fetched, makes the shard's value "". |
| Shards.OwnURLPage | shards.go:38-64 | With no override, a shard URL that passes the policy and is fetched decides the page: the value is the modified extract of that page, and the caller's page makes no difference. |
| Shards.AmbientPage | shards.go:38-64 | With no override and no URL, the value is the modified extract of the caller's page, and nothing is fetched. |
| Shards.ExtractAttribute | shards.go:48-54 | With `Attr` set, the value is the attribute, or "" when it is absent, and the selector's text plays no part. |
| Shards.ExtractText | shards.go:55-57 | With no `Attr`, the value is the selector's text, and no attribute is read. |
| Shards.EmptyExtractStillModified | shards.go:59-64 | An empty extracted value still runs through the modifications, so a prepend makes it non-empty. |
| Shards.Extract | shards.go:47-57 | With `Attr` set, the selector's attribute, "" when it is absent. Otherwise the selector's text. |
| Shards.PopulateShard | shards.go:33-65 | A set override is run through the modifications. Otherwise the page is the shard's own URL's page when it has a URL, or the caller's page. A URL that is refused or cannot be fetched gives "" with no modifications. The extracted text, even "", is run through the modifications. |
| Shards.LookupShard | shards.go:19-29 | The lookup finds nothing exactly when no map holds the scoped or the bare key. A shard it finds has instructions the pipeline covers. |
| Shards.LookupFindsFirst | shards.go:19-29 | The first map holding either key decides, and within that map the scoped key `BeginsWith + name` wins over `name`. |
| Shards.EarlierBareBeatsLaterScoped | shards.go:19-29 | An earlier map's bare-name entry beats a later map's scoped entry. |
| Shards.ShardReplacement | construct.go:159-172 | What `findShard` returns for a token: the token when no map has the scoped or bare name. Otherwise the first hit's populated value, or the token when that value is "". |
| Shards.FindShard | construct.go:159-172 | The loop with early return computes `ShardReplacement`: the token when no map has the name, otherwise the first hit's value guarded against emptiness. `findShard` in shards.go:18-31 is the same loop. |
| Shards.UnknownShardKeepsToken | shards.go:30 | A token whose name no map holds is returned unchanged. |
| Shards.EmptyShardKeepsToken | shards.go:25-28 | A found shard whose value is "" leaves the original token in place. |
| Shards.ConfiguredShadowsTransient | construct.go:192 | Configured shards are searched before transient ones, so a configured shard shadows a transient one of the same name. |
| Shards.ShardPass | construct.go:194-203 | `ShardRegex.ReplaceAllFunc(body, replaceShards)` over the scan: kept characters as they are, each token replaced by `ShardReplacement` under the interpolation's prefix, the given maps and the fetched page, concatenated in order. |
| Shards.UnknownShardsKeepText | construct.go:202-203 | A shard pass in which no token names a shard reproduces the text. |
| Shards.ShardPassAppend | construct.go:202-203 | The shard pass works piece by piece over the scan. |
| Shards.OneTokenShardPass | construct.go:202-203 | In plain text, one token, plain text, the shard pass replaces just the token. |
| Shards.OverrideReplacesToken | shards.go:25-28 | A token whose shard is a bare non-empty override becomes that override. |
| Interpolations.InheritFromInterp | interpolations.go:10-14 | The parent's `BeginsWith` is taken only when the child's is "". Modifications, URL substrings and template are untouched. |
| Interpolations.InheritIdempotent | construct.go:81-85 | Inheriting twice equals inheriting once, and a prefix once set is never replaced. |
| Interpolations.LookupInterpolation | interpolations.go:22-29 | `package SimpleScraper` tries `BeginsWith + name`, then `name`. `package main` tries `name` only. A miss is none, and a hit is a stored interpolation. |
| Interpolations.EmptyPrefixRevisionsAgree | construct.go:175 | With an empty prefix the two revisions look names up alike. |
| Interpolations.RevisionsDiffer | interpolations.go:22-25 | With a prefix and both keys present, the later revision picks the scoped entry and the earlier one the bare entry. |
| Interpolations.ConstructInterpolation | construct.go:184-208 | "" when the page cannot be fetched. Otherwise the shard pass over the template with the maps `[configured, transient]`, then the interpolation pass over its scan, then the interpolation's modifications. The later revision does the same at interpolations.go:59-83. |
| Interpolations.InterpolationPass | construct.go:198-205 | `InterpRegex.ReplaceAllFunc(body, replaceInterp)` over the scan: kept characters as they are, each token replaced by `FindInterpolation`, concatenated in order. |
| Interpolations.FindInterpolation | construct.go:174-182 | The token when the revision's lookup finds no interpolation, or when the nesting budget is spent. Otherwise the found interpolation, with the parent's prefix inherited, is expanded, and an empty expansion keeps the token. The later revision's scoped-then-bare lookup is at interpolations.go:21-34. |
| Interpolations.FetchFailureIsEmpty | interpolations.go:60-64 | A page that cannot be fetched expands to "". |
| Interpolations.InterpolationMissKeepsToken | interpolations.go:22-29 | A token no interpolation answers to is returned unchanged. |
| Interpolations.NestedExpansionGuarded | interpolations.go:31-33 | A found interpolation is expanded with the inherited prefix. An empty expansion leaves the token in place, and any other expansion replaces it. |
| Interpolations.FuelExhaustedKeepsToken | construct.go:174-182 | When the nesting budget is spent, a token is left as it is. |
| Interpolations.UnknownInterpolationsKeepText | interpolations.go:79-80 | An interpolation pass in which no token names an interpolation reproduces the text. |
| Interpolations.UnresolvedTemplateIsModifiedOnly | construct.go:184-208 | When no shard token and no interpolation token resolves, the expansion is `runModifications(template, mods)`. |
| Interpolations.TokenFreeTemplate | interpolations.go:77-82 | A template with no token of either kind expands to `runModifications(template, mods)`. |
| Interpolations.NoNestedTokens | interpolations.go:79-82 | When the shard pass leaves no interpolation begin character, the expansion is that text run through the modifications. |
| Interpolations.OneOverrideTemplate | interpolations.go:59-83 | A template of plain text, one override shard token, plain text expands to the text with the override in the token's place. |
| Dispatch.Hits | construct.go:134-135 | The count of URL substrings the URL contains is 0 exactly when it contains none of them. |
| Dispatch.NameFragments | construct.go:134-138 | A name contributes its expansion once per matching URL substring, or not at all when it lacks the filter. |
| Dispatch.Fragments | construct.go:133-141 | The appended expansions of a visiting order: for each name in turn, its expansion once per matching URL substring when the name contains the filter. |
| Dispatch.ConcatAppend | construct.go:137 | Appending fragments in two runs is appending them in one. |
| Dispatch.NameFragmentsEmpty | construct.go:134-138 | A name's fragments are all "" exactly when it is silent: it lacks the filter, matches no URL substring, or expands to "". |
| Dispatch.FragmentsEmpty | construct.go:133-141 | All fragments of a visiting order are "" exactly when every visited name is silent. |
| Dispatch.ConcatEmpty | construct.go:142-145 | A concatenation is "" exactly when every fragment is. |
| Dispatch.FragmentsAppend | construct.go:133 | Visiting two runs of names appends their fragments one after the other. |
| Dispatch.FragmentsOrderIndependent | construct.go:133 | Any two visiting orders of the same names give the same fragments, counted with repetition, so map iteration order changes at most their order. |
| Dispatch.OutputEmptyIff | construct.go:142-146 | The output is "" exactly when every name lacks the filter, matches no URL substring, or expands to "". |
| Dispatch.FilterExcludesAll | construct.go:136 | A filter that no name contains yields "". |
| Dispatch.DuplicateSubstringTwice | construct.go:134-138 | A matching URL substring listed twice appends the expansion twice. |
| Dispatch.FragmentsRemove | construct.go:133 | Taking one name out of a visiting order takes exactly its fragments out, counted with repetition. |
| Dispatch.AppendMatches | construct.go:134-140 | The inner loop over URL substrings appends the expansion once per substring the URL contains, when the name contains the filter, and nothing otherwise. The later revision does the same at interpolations.go:44-50. |
| Dispatch.ConstructFromURL | construct.go:131-147 | The nested loops visit every interpolation exactly once, in a map-chosen order, and return the concatenation of `Fragments` for that order. Whatever the order, the result is "" exactly when every configured interpolation is silent. The later revision does the same at interpolations.go:42-56. |
| Dispatch.ConstructFromURLChecked | interpolations.go:37-56 | An invalid URL stops the process before any lookup. Otherwise every configured interpolation is visited exactly once and the output is the dispatch over the package configuration, which is only read. The output is "" exactly when every interpolation is silent. |
| Dispatch.RequestedURLShards | main.go:35 | Exactly one transient shard is built, keyed `REQUESTED_URL`, with `Override = url` and `Name = "REQUESTED_URL"`. |
| Dispatch.MainDispatch | main.go:34-39 | A valid URL is dispatched with URL and filter unchanged and the `REQUESTED_URL` shard: every configured interpolation is visited exactly once, and the output is "" exactly when every interpolation is silent. An invalid one is fatal, and nothing is dispatched. |
| Dispatch.RequestedURLResolves | main.go:35 | Unless a configured shard answers to the name, a `REQUESTED_URL` token becomes the requested URL. |
| Dispatch.ConfiguredRequestedURLWins | construct.go:192 | A configured shard named `REQUESTED_URL` wins over the transient one. |
| Dispatch.SingleInterpolation | construct.go:133-141 | With a single name, the output is its expansion repeated once per matching substring. |
| Scenarios.BracketsCompiled | construct.go:54-61 | The delimiter lists `\[` and `\]` are supported and compile to the bracket pattern the example uses. |
| Scenarios.GreetExpansion | interpolations.go:59-83 | With delimiters `\[` and `\]`, `greet` with body `Hello, [name]!` and override `World` expands to `Hello, World!`. |
| Scenarios.GreetEndToEnd | interpolations.go:37-56 | Dispatching `https://www.example.com/page` with an empty filter gives `Hello, World!`. |

## Left out

- TOML decoding (`mustConstructConfig`, `MustConstructConfig`) and `initialize.go`: file input. The configuration is a given value.
- Fetching and DOM queries (`goquery.NewDocument`, `Find`, `Text`, `Attr`): network and a foreign library. They are the three function fields of `Web`.
  - The model assumes one URL fetches the same document every time, while the source fetches again on every expansion.
  - An absent attribute is `None`, read as "".
- Logging, `logs.go`, flag parsing and the final `print` in `main`: diagnostics and command-line plumbing. `Outcome.Fatal` stands for `log.Fatalf`.
- The general RE2 engine behind select patterns. `Modifications.PlainGroups` requires every select pattern to be free of RE2 metacharacters and every replacement to be free of `$`. For those patterns `ReplaceAll` is the literal left-to-right replacement that `Strings.ReplaceAll` models.
  - An uncompilable pattern is logged and then used as a nil regex, and calling `ReplaceAll` on it panics (construct.go:70-75, config.go:80). That pattern is excluded by the precondition, so the panic is not modelled.
- Delimiters: `Tokens.SupportedPair` admits a single ASCII character other than `]`, `\`, `^` and `-`, or a backslash before any ASCII character that is not a letter or digit. The pair `[` `:` is excluded because RE2 reads it as a class name.
  - Other delimiter strings compile to other patterns, or fail to compile, which is fatal in the source. They are not modelled, except the bare `]` end delimiter under Findings.
- Configuration.TomlConfig.Initialize: requires both delimiter lists to hold at least two entries. On a shorter list the source panics with an index error (construct.go:50-51, config.go:55-56); that panic is not modelled.
- Interpolations.FindInterpolation: nesting is bounded by `fuel`. When the budget is spent, the token is left in place. The source recurses without a bound, fetching the page again at each level, so on a cyclic configuration it recurses until the stack is exhausted. That failure is not modelled.
- Dispatch.ConstructFromURL: Go's map iteration order is unspecified. The loop picks any remaining key, and the ghost `order` records the choice. The proved facts independent of order are `FragmentsOrderIndependent` and `OutputEmptyIff`.
- Interpolations.InheritFromInterp: the source writes through a `*interpolation` reference into a local copy of a map entry. The model returns the updated copy, which is the same value.
- Tokens.StripTokenDelimiters: non-ASCII delimiters are not modelled. The source strips one byte per side of the `[]byte` match (construct.go:149, config.go:86), so for a multi-byte delimiter such as `«` the name keeps part of the delimiter and the shard or interpolation lookup always misses. `SupportedDelimiter` admits only one-byte delimiters, for which one byte is one character.
- Byte slices: the source converts between `string` and `[]byte`. The model works on `seq<char>`, one element per character, so no encoding is modelled.

## Findings

| source | as written | input that shows it | evidently intended | confidence | as-written member | corrected member |
|---|---|---|---|---|---|---|
| construct.go:55 | The end delimiter is pasted into `[^...]` unescaped. A bare `]` closes the negated class early, so the pattern becomes begin char, one other char, two or more `]`. | Delimiters written `[` and `]`, and the template `Hello, [name]!`: no match anywhere, so `[name]` is never replaced. | A token is `[`, one or more characters other than `[` and `]`, then `]`, as the delimiter escaped to `\]` gives. | not executed; medium, because a configuration that writes `\]` is unaffected | Tokens.BareCloseMissesTokens | Tokens.EscapedCloseMatchesName |
