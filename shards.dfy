/** Shard resolution: `findShard` searches the shard maps for a token's
    name, `populateShard` turns the shard it finds into text, and the shard
    pass of `constructInterpolation` substitutes every shard token. */
module Shards {
  import opened Types
  import opened Tokens
  import opened Modifications
  import opened Urls
  import opened Configuration

  /** `grabShardOverrideURL`: a shard URL that fails the URL policy is an
      error before anything is fetched; otherwise the page is fetched. */
  function GrabShardOverrideURL(web: Web, shard: Shard): (doc: Option<Document>)
    ensures !ValidateURL(shard.url) ==> doc == None
    ensures ValidateURL(shard.url) ==> doc == web.fetch(shard.url)
  {
    if !ValidateURL(shard.url) then None else web.fetch(shard.url)
  }

  /** The text a shard extracts from a document: the selector's attribute
      when `Attr` is set (empty when the attribute is absent), otherwise the
      selector's text. */
  function Extract(web: Web, shard: Shard, doc: Document): string {
    if shard.attr != "" then
      match web.selectAttr(doc, shard.selector, shard.attr)
      case Some(v) => v
      case None => ""
    else web.selectText(doc, shard.selector)
  }

  /** `populateShard`: the override if there is one; otherwise the shard's
      own page if it has a URL (empty text if that URL is refused or cannot
      be fetched), otherwise the caller's page; the extracted text then goes
      through the shard's modifications, even when it is empty. */
  function PopulateShard(web: Web, shard: Shard, doc: Document): string
    requires PlainGroups(shard.modifications)
  {
    if shard.override != "" then Modified(shard.override, shard.modifications)
    else
      var source := if shard.url != "" then GrabShardOverrideURL(web, shard) else Some(doc);
      match source
      case None => ""
      case Some(page) => Modified(Extract(web, shard, page), shard.modifications)
  }

  /** A set override decides the value alone: URL, selector, attribute, the
      caller's page and the network are not consulted. */
  lemma OverrideIgnoresPage(web: Web, web': Web, shard: Shard, doc: Document, doc': Document,
                            url: string, selector: string, attr: string)
    requires shard.override != "" && PlainGroups(shard.modifications)
    ensures PopulateShard(web, shard, doc) == Modified(shard.override, shard.modifications)
    ensures PopulateShard(web', shard.(url := url, selector := selector, attr := attr), doc')
         == PopulateShard(web, shard, doc)
  {
  }

  /** Without an override, a shard URL that fails the policy, or whose page
      cannot be fetched, yields empty text, without modifications. */
  lemma RefusedShardURLIsEmpty(web: Web, shard: Shard, doc: Document)
    requires shard.override == "" && shard.url != ""
    requires !ValidateURL(shard.url) || web.fetch(shard.url) == None
    requires PlainGroups(shard.modifications)
    ensures PopulateShard(web, shard, doc) == ""
  {
  }

  /** Without an override, a shard with a URL of its own that passes the
      policy is read from that page: the caller's page plays no part. */
  lemma OwnURLPage(web: Web, shard: Shard, doc: Document, doc': Document, page: Document)
    requires shard.override == "" && shard.url != "" && ValidateURL(shard.url)
    requires web.fetch(shard.url) == Some(page)
    requires PlainGroups(shard.modifications)
    ensures PopulateShard(web, shard, doc) == Modified(Extract(web, shard, page), shard.modifications)
    ensures PopulateShard(web, shard, doc') == PopulateShard(web, shard, doc)
  {
  }

  /** Without an override or a URL, the shard is read from the caller's
      page, and the network is not consulted. */
  lemma AmbientPage(web: Web, web': Web, shard: Shard, doc: Document)
    requires shard.override == "" && shard.url == ""
    requires web'.selectText == web.selectText && web'.selectAttr == web.selectAttr
    requires PlainGroups(shard.modifications)
    ensures PopulateShard(web, shard, doc) == Modified(Extract(web, shard, doc), shard.modifications)
    ensures PopulateShard(web', shard, doc) == PopulateShard(web, shard, doc)
  {
  }

  /** With `Attr` set the attribute alone decides, and an absent attribute
      reads as ""; the selector's text is not consulted. */
  lemma ExtractAttribute(web: Web, shard: Shard, doc: Document, text: (Document, string) -> string)
    requires shard.attr != ""
    ensures web.selectAttr(doc, shard.selector, shard.attr) == None ==> Extract(web, shard, doc) == ""
    ensures web.selectAttr(doc, shard.selector, shard.attr) == Some(Extract(web, shard, doc))
         || web.selectAttr(doc, shard.selector, shard.attr) == None
    ensures Extract(web.(selectText := text), shard, doc) == Extract(web, shard, doc)
  {
  }

  /** With no `Attr` the selector's text is the value, and no attribute is
      read. */
  lemma ExtractText(web: Web, shard: Shard, doc: Document, attr: (Document, string, string) -> Option<string>)
    requires shard.attr == ""
    ensures Extract(web, shard, doc) == web.selectText(doc, shard.selector)
    ensures Extract(web.(selectAttr := attr), shard, doc) == Extract(web, shard, doc)
  {
  }

  /** Without an override or URL the caller's page is queried, and an empty
      result is not a short cut: the modifications still run on "" (here a
      prepend makes the value non-empty). */
  lemma EmptyExtractStillModified(web: Web, shard: Shard, doc: Document, prefix: string)
    requires shard.override == "" && shard.url == ""
    requires Extract(web, shard, doc) == ""
    requires shard.modifications == [prefix]
    ensures PlainGroups(shard.modifications)
    ensures PopulateShard(web, shard, doc) == prefix
  {
    var padded := [prefix] + Padding([prefix]);
    assert padded == [prefix, "", "", ""];
    assert prefix + "" + "" == prefix;
    Strings.ReplaceEmptyByEmpty(prefix);
    assert ApplyGroups("", padded) == ApplyGroups(prefix, padded[4..]);
  }

  /** The map holds the token's scoped key or its bare key. */
  predicate HasShard(m: map<string, Shard>, prefix: string, name: string) {
    prefix + name in m || name in m
  }

  /** Within one map the scoped key `BeginsWith + name` wins over `name`. */
  function PickShard(m: map<string, Shard>, prefix: string, name: string): Shard
    requires HasShard(m, prefix, name)
  {
    if prefix + name in m then m[prefix + name] else m[name]
  }

  /** Map `i` is the first map holding either key. */
  predicate FirstWith(maps: seq<map<string, Shard>>, prefix: string, name: string, i: nat) {
    && i < |maps|
    && HasShard(maps[i], prefix, name)
    && forall j :: 0 <= j < i ==> !HasShard(maps[j], prefix, name)
  }

  predicate MapsPlain(maps: seq<map<string, Shard>>) {
    forall i :: 0 <= i < |maps| ==> ShardsPlain(maps[i])
  }

  /** The shard `findShard` settles on: none exactly when no map has either
      key; otherwise a shard stored in one of the maps. */
  function LookupShard(maps: seq<map<string, Shard>>, prefix: string, name: string): (r: Option<Shard>)
    ensures r.None? <==> forall i :: 0 <= i < |maps| ==> !HasShard(maps[i], prefix, name)
    ensures r.Some? && MapsPlain(maps) ==> PlainGroups(r.value.modifications)
    decreases |maps|
  {
    if maps == [] then None
    else if HasShard(maps[0], prefix, name) then Some(PickShard(maps[0], prefix, name))
    else
      var r := LookupShard(maps[1..], prefix, name);
      assert forall i :: 1 <= i < |maps| ==> maps[i] == maps[1..][i - 1];
      r
  }

  /** The first map with either key decides, whatever later maps hold. */
  lemma {:induction false} LookupFindsFirst(maps: seq<map<string, Shard>>, prefix: string, name: string, i: nat)
    requires FirstWith(maps, prefix, name, i)
    ensures LookupShard(maps, prefix, name) == Some(PickShard(maps[i], prefix, name))
    decreases i
  {
    if i > 0 {
      assert !HasShard(maps[0], prefix, name);
      assert forall j :: 0 <= j < i - 1 ==> maps[1..][j] == maps[j + 1];
      LookupFindsFirst(maps[1..], prefix, name, i - 1);
    }
  }

  /** An earlier map's bare key beats a later map's scoped key. */
  lemma EarlierBareBeatsLaterScoped(first: map<string, Shard>, second: map<string, Shard>, prefix: string, name: string)
    requires name in first && prefix + name !in first && prefix + name in second
    ensures LookupShard([first, second], prefix, name) == Some(first[name])
  {
    LookupFindsFirst([first, second], prefix, name, 0);
  }

  /** What `findShard` returns: the token itself when no map has the name,
      else the found shard's value, unless that value is empty. */
  function ShardReplacement(web: Web, token: string, prefix: string,
                            maps: seq<map<string, Shard>>, doc: Document): string
    requires |token| >= 2 && MapsPlain(maps)
  {
    match LookupShard(maps, prefix, StripTokenDelimiters(token))
    case None => token
    case Some(shard) => ValidateTokenReplacement(token, PopulateShard(web, shard, doc))
  }

  /** `findShard`: visits the maps in order; in each it tries the scoped key,
      then the bare key, and returns at the first hit. */
  method FindShard(web: Web, potentialShard: string, interp: Interpolation,
                   shardMaps: seq<map<string, Shard>>, siteBody: Document) returns (r: string)
    requires |potentialShard| >= 2 && MapsPlain(shardMaps)
    ensures r == ShardReplacement(web, potentialShard, interp.beginsWith, shardMaps, siteBody)
  {
    var i := 0;
    while i < |shardMaps|
      invariant 0 <= i <= |shardMaps|
      invariant forall j :: 0 <= j < i ==> !HasShard(shardMaps[j], interp.beginsWith, StripTokenDelimiters(potentialShard))
    {
      var shardMap := shardMaps[i];
      var shardName := StripTokenDelimiters(potentialShard);
      var ok := interp.beginsWith + shardName in shardMap;
      var resultantShard := if ok then shardMap[interp.beginsWith + shardName] else Shard("", [], "", "", "", "");
      if !ok {
        ok := shardName in shardMap;
        if ok {
          resultantShard := shardMap[shardName];
        }
      }
      if ok {
        assert FirstWith(shardMaps, interp.beginsWith, shardName, i);
        LookupFindsFirst(shardMaps, interp.beginsWith, shardName, i);
        var replacement := PopulateShard(web, resultantShard, siteBody);
        return ValidateTokenReplacement(potentialShard, replacement);
      }
      i := i + 1;
    }
    return potentialShard;
  }

  /** A token whose name no map holds comes back byte for byte. */
  lemma UnknownShardKeepsToken(web: Web, token: string, prefix: string,
                               maps: seq<map<string, Shard>>, doc: Document)
    requires |token| >= 2 && MapsPlain(maps)
    requires forall i :: 0 <= i < |maps| ==> !HasShard(maps[i], prefix, StripTokenDelimiters(token))
    ensures ShardReplacement(web, token, prefix, maps, doc) == token
  {
  }

  /** A shard that resolves to empty text leaves its token in place. */
  lemma EmptyShardKeepsToken(web: Web, token: string, prefix: string,
                             maps: seq<map<string, Shard>>, doc: Document, i: nat)
    requires |token| >= 2 && MapsPlain(maps)
    requires FirstWith(maps, prefix, StripTokenDelimiters(token), i)
    requires PopulateShard(web, PickShard(maps[i], prefix, StripTokenDelimiters(token)), doc) == ""
    ensures ShardReplacement(web, token, prefix, maps, doc) == token
  {
    LookupFindsFirst(maps, prefix, StripTokenDelimiters(token), i);
  }

  /** `constructInterpolation` passes `config.Shards` before the transient
      shards, so a configured shard shadows a transient one of the same name
      (`REQUESTED_URL` included). */
  lemma ConfiguredShadowsTransient(configured: map<string, Shard>, transient: map<string, Shard>,
                                   prefix: string, name: string)
    requires HasShard(configured, prefix, name)
    ensures LookupShard([configured, transient], prefix, name) == Some(PickShard(configured, prefix, name))
  {
    LookupFindsFirst([configured, transient], prefix, name, 0);
  }

  /** What `findShard` makes of one piece of the scanned text: a kept
      character stays, a token becomes its replacement. Every token of a
      scan has at least three characters; a shorter one would be kept. */
  function ShardValue(web: Web, prefix: string, maps: seq<map<string, Shard>>, doc: Document): Piece -> string
    requires MapsPlain(maps)
  {
    (x: Piece) => match x
      case Lit(c) => [c]
      case Tok(t) => if |t| >= 2 then ShardReplacement(web, t, prefix, maps, doc) else t
  }

  /** `ReplaceAllFunc(body, findShard)`: every shard token of the scanned
      text replaced by what `findShard` returns for it; the replacements are
      not scanned again. */
  function ShardPass(web: Web, ps: seq<Piece>, prefix: string,
                     maps: seq<map<string, Shard>>, doc: Document): string
    requires MapsPlain(maps)
  {
    MapJoin(ShardValue(web, prefix, maps, doc), ps)
  }

  /** No token of the scanned text names a shard in any of the maps. */
  predicate ShardsUnknown(ps: seq<Piece>, prefix: string, maps: seq<map<string, Shard>>)
    requires Strippable(ps)
  {
    forall i :: 0 <= i < |ps| && ps[i].Tok? ==>
      LookupShard(maps, prefix, StripTokenDelimiters(ps[i].text)).None?
  }

  /** A scanned text all of whose shard tokens are unknown comes through the
      shard pass unchanged. */
  lemma {:induction false} UnknownShardsKeepText(web: Web, ps: seq<Piece>, prefix: string,
                                                 maps: seq<map<string, Shard>>, doc: Document)
    requires Strippable(ps) && MapsPlain(maps)
    requires ShardsUnknown(ps, prefix, maps)
    ensures ShardPass(web, ps, prefix, maps, doc) == Join(ps)
    decreases |ps|
  {
    if ps != [] {
      assert forall i :: 1 <= i < |ps| ==> ps[1..][i - 1] == ps[i];
      UnknownShardsKeepText(web, ps[1..], prefix, maps, doc);
    }
  }

  /** The shard pass works piece by piece: passing two scans one after the
      other is passing their concatenation. */
  lemma ShardPassAppend(web: Web, xs: seq<Piece>, ys: seq<Piece>, prefix: string,
                        maps: seq<map<string, Shard>>, doc: Document)
    requires MapsPlain(maps)
    ensures ShardPass(web, xs + ys, prefix, maps, doc)
         == ShardPass(web, xs, prefix, maps, doc) + ShardPass(web, ys, prefix, maps, doc)
  {
    MapJoinAppend(ShardValue(web, prefix, maps, doc), xs, ys);
  }

  /** A text holding one token between two stretches without a begin
      character: the shard pass replaces that token and keeps the rest. */
  lemma OneTokenShardPass(web: Web, a: string, t: string, c: string, p: TokenPattern, prefix: string,
                          maps: seq<map<string, Shard>>, doc: Document)
    requires forall i :: 0 <= i < |a| ==> a[i] != p.begin
    requires forall i :: 0 <= i < |c| ==> c[i] != p.begin
    requires IsToken(t, p) && MapsPlain(maps)
    ensures ShardPass(web, Scan(a + t + c, p), prefix, maps, doc)
         == a + ShardPass(web, [Tok(t)], prefix, maps, doc) + c
  {
    OneTokenScan(a, t, c, p);
    var sa, sc, tok := Scan(a, p), Scan(c, p), [Tok(t)];
    UnknownShardsKeepText(web, sa, prefix, maps, doc);
    UnknownShardsKeepText(web, sc, prefix, maps, doc);
    ShardPassAppend(web, tok, sc, prefix, maps, doc);
    ShardPassAppend(web, sa, tok + sc, prefix, maps, doc);
  }

  /** A token whose shard is a bare override is replaced by the override. */
  lemma OverrideReplacesToken(web: Web, t: string, prefix: string, maps: seq<map<string, Shard>>,
                              doc: Document, v: string)
    requires |t| >= 2 && MapsPlain(maps)
    requires var s := LookupShard(maps, prefix, StripTokenDelimiters(t));
      s.Some? && s.value.override == v && s.value.modifications == [] && v != ""
    ensures ShardPass(web, [Tok(t)], prefix, maps, doc) == v
  {
    EmptyListIsIdentity(v);
    var f := ShardValue(web, prefix, maps, doc);
    assert [Tok(t)][1..] == [];
    assert f(Tok(t)) == ShardReplacement(web, t, prefix, maps, doc);
    assert MapJoin(f, [Tok(t)]) == f(Tok(t)) + MapJoin(f, []);
  }
}
