/** Interpolation resolution: `constructInterpolation` expands a template
    (shard pass, then interpolation pass, then modifications) and
    `findInterpolation` expands a nested interpolation token by calling it
    again. The nesting depth is bounded by `fuel`. */
module Interpolations {
  import opened Types
  import opened Tokens
  import opened Modifications
  import opened Configuration
  import opened Shards

  /** `inheritFromInterp`: the nested interpolation takes its parent's
      `BeginsWith` only when it has none of its own; nothing else changes.
      The source writes through a `*interpolation` reference into a local copy of the map
      entry, so the updated copy is the result here. */
  function InheritFromInterp(target: Interpolation, parent: Interpolation): (r: Interpolation)
    ensures r.modifications == target.modifications && r.urlContains == target.urlContains
    ensures r.template == target.template
    ensures r.beginsWith == (if target.beginsWith == "" then parent.beginsWith else target.beginsWith)
  {
    if target.beginsWith == "" then target.(beginsWith := parent.beginsWith) else target
  }

  /** Inheriting twice from the same parent is inheriting once, and a
      prefix once set is never replaced by a later parent. */
  lemma InheritIdempotent(target: Interpolation, parent: Interpolation, other: Interpolation)
    ensures InheritFromInterp(InheritFromInterp(target, parent), parent) == InheritFromInterp(target, parent)
    ensures target.beginsWith != "" ==> InheritFromInterp(target, other) == target
    ensures InheritFromInterp(target, parent).beginsWith == "" <==> target.beginsWith == "" && parent.beginsWith == ""
  {
  }

  /** The interpolation a token names. `package SimpleScraper` tries the
      key `BeginsWith + name` and then `name`; `package main` tries `name`
      only. */
  function LookupInterpolation(rev: Revision, m: map<string, Interpolation>, prefix: string, name: string): (r: Option<Interpolation>)
    ensures r.Some? ==> r.value in m.Values
    ensures rev == CommandLine ==> (r.Some? <==> name in m) && (name in m ==> r.value == m[name])
    ensures rev == Library ==> (r.Some? <==> prefix + name in m || name in m)
    ensures rev == Library && prefix + name in m ==> r.value == m[prefix + name]
    ensures rev == Library && prefix + name !in m && name in m ==> r.value == m[name]
  {
    if rev == Library && prefix + name in m then Some(m[prefix + name])
    else if name in m then Some(m[name])
    else None
  }

  /** With no prefix in force the two revisions resolve every name alike. */
  lemma EmptyPrefixRevisionsAgree(m: map<string, Interpolation>, name: string)
    ensures LookupInterpolation(Library, m, "", name) == LookupInterpolation(CommandLine, m, "", name)
  {
    assert "" + name == name;
  }

  /** The revisions differ once a prefix is in force and both keys exist. */
  lemma RevisionsDiffer(scoped: Interpolation, bare: Interpolation)
    requires scoped != bare
    ensures LookupInterpolation(Library, map["p.x" := scoped, "x" := bare], "p.", "x") == Some(scoped)
    ensures LookupInterpolation(CommandLine, map["p.x" := scoped, "x" := bare], "p.", "x") == Some(bare)
  {
    assert "p." + "x" == "p.x";
  }

  /** Every configured shard list and interpolation list is one the
      pipeline covers, and so is the current interpolation's. */
  predicate Resolvable(cfg: Config, interp: Interpolation, temp: map<string, Shard>) {
    PlainConfig(cfg) && ShardsPlain(temp) && PlainGroups(interp.modifications)
  }

  /** A scan's tokens are all long enough to name something. */
  lemma ScanStrippable(s: string, p: TokenPattern)
    ensures Strippable(Scan(s, p))
  {
    var ps := Scan(s, p);
    ScanTokens(s, p);
    forall i | 0 <= i < |ps| && ps[i].Tok? ensures |ps[i].text| >= 2 {
      assert IsToken(ps[i].text, p);
    }
  }

  /** `constructInterpolation`: "" when the page cannot be fetched;
      otherwise every shard token of the template is replaced (configured
      shards before the transient ones), then every interpolation token of
      the result, and the interpolation's modifications run last. */
  function ConstructInterpolation(rev: Revision, cfg: Config, web: Web, url: string,
                                  interp: Interpolation, temp: map<string, Shard>, fuel: nat): string
    requires Resolvable(cfg, interp, temp)
    decreases fuel, 2, 0
  {
    match web.fetch(url)
    case None => ""
    case Some(siteBody) =>
      var afterShards := ShardPass(web, Scan(interp.template, cfg.shardPattern), interp.beginsWith,
                                   [cfg.shards, temp], siteBody);
      ScanStrippable(afterShards, cfg.interpPattern);
      var afterInterps := InterpolationPass(rev, cfg, web, url, interp, temp,
                                            Scan(afterShards, cfg.interpPattern), fuel);
      Modified(afterInterps, interp.modifications)
  }

  /** `ReplaceAllFunc(body, findInterpolation)` over a scanned text. */
  function InterpolationPass(rev: Revision, cfg: Config, web: Web, url: string, parent: Interpolation,
                             temp: map<string, Shard>, ps: seq<Piece>, fuel: nat): string
    requires PlainConfig(cfg) && ShardsPlain(temp) && Strippable(ps)
    decreases fuel, 1, |ps|
  {
    if ps == [] then []
    else
      var head := match ps[0]
        case Lit(c) => [c]
        case Tok(t) => FindInterpolation(rev, cfg, web, url, parent, t, temp, fuel);
      head + InterpolationPass(rev, cfg, web, url, parent, temp, ps[1..], fuel)
  }

  /** `findInterpolation`: the token itself when no interpolation has its
      name, or when the nesting budget is spent; otherwise the named
      interpolation, with the parent's prefix inherited, expanded, unless
      that expansion is empty. */
  function FindInterpolation(rev: Revision, cfg: Config, web: Web, url: string, interp: Interpolation,
                             potentialInterp: string, temp: map<string, Shard>, fuel: nat): string
    requires PlainConfig(cfg) && ShardsPlain(temp) && |potentialInterp| >= 2
    decreases fuel, 0, 0
  {
    match LookupInterpolation(rev, cfg.interpolations, interp.beginsWith, StripTokenDelimiters(potentialInterp))
    case None => potentialInterp
    case Some(targetInterp) =>
      if fuel == 0 then potentialInterp
      else
        var target := InheritFromInterp(targetInterp, interp);
        var replacement := ConstructInterpolation(rev, cfg, web, url, target, temp, fuel - 1);
        ValidateTokenReplacement(potentialInterp, replacement)
  }

  /** A page that cannot be fetched expands to "", whatever the template. */
  lemma FetchFailureIsEmpty(rev: Revision, cfg: Config, web: Web, url: string,
                            interp: Interpolation, temp: map<string, Shard>, fuel: nat)
    requires Resolvable(cfg, interp, temp) && web.fetch(url) == None
    ensures ConstructInterpolation(rev, cfg, web, url, interp, temp, fuel) == ""
  {
  }

  /** A token no interpolation answers to comes back byte for byte. */
  lemma InterpolationMissKeepsToken(rev: Revision, cfg: Config, web: Web, url: string, interp: Interpolation,
                                    token: string, temp: map<string, Shard>, fuel: nat)
    requires PlainConfig(cfg) && ShardsPlain(temp) && |token| >= 2
    requires StripTokenDelimiters(token) !in cfg.interpolations
    requires rev == Library ==> interp.beginsWith + StripTokenDelimiters(token) !in cfg.interpolations
    ensures FindInterpolation(rev, cfg, web, url, interp, token, temp, fuel) == token
  {
  }

  /** A nested interpolation whose expansion is empty leaves its token in
      place; a non-empty one replaces it. */
  lemma NestedExpansionGuarded(rev: Revision, cfg: Config, web: Web, url: string, interp: Interpolation,
                               token: string, temp: map<string, Shard>, fuel: nat, target: Interpolation)
    requires PlainConfig(cfg) && ShardsPlain(temp) && |token| >= 2 && fuel > 0
    requires LookupInterpolation(rev, cfg.interpolations, interp.beginsWith, StripTokenDelimiters(token)) == Some(target)
    ensures Resolvable(cfg, InheritFromInterp(target, interp), temp)
    ensures var e := ConstructInterpolation(rev, cfg, web, url, InheritFromInterp(target, interp), temp, fuel - 1);
      FindInterpolation(rev, cfg, web, url, interp, token, temp, fuel) == if e == "" then token else e
  {
  }

  /** With the nesting budget spent, a known interpolation token is left as
      it is instead of being expanded. */
  lemma FuelExhaustedKeepsToken(rev: Revision, cfg: Config, web: Web, url: string, interp: Interpolation,
                                token: string, temp: map<string, Shard>)
    requires PlainConfig(cfg) && ShardsPlain(temp) && |token| >= 2
    ensures FindInterpolation(rev, cfg, web, url, interp, token, temp, 0) == token
  {
  }

  /** No token of the scanned text names an interpolation. */
  predicate InterpolationsUnknown(rev: Revision, cfg: Config, prefix: string, ps: seq<Piece>)
    requires Strippable(ps)
  {
    forall i :: 0 <= i < |ps| && ps[i].Tok? ==>
      LookupInterpolation(rev, cfg.interpolations, prefix, StripTokenDelimiters(ps[i].text)).None?
  }

  /** An interpolation pass in which no token names an interpolation
      reproduces the scanned text. */
  lemma {:induction false} UnknownInterpolationsKeepText(rev: Revision, cfg: Config, web: Web, url: string,
                                                         parent: Interpolation, temp: map<string, Shard>,
                                                         ps: seq<Piece>, fuel: nat)
    requires PlainConfig(cfg) && ShardsPlain(temp) && Strippable(ps)
    requires InterpolationsUnknown(rev, cfg, parent.beginsWith, ps)
    ensures InterpolationPass(rev, cfg, web, url, parent, temp, ps, fuel) == Join(ps)
    decreases |ps|
  {
    if ps != [] {
      assert forall i :: 1 <= i < |ps| ==> ps[1..][i - 1] == ps[i];
      UnknownInterpolationsKeepText(rev, cfg, web, url, parent, temp, ps[1..], fuel);
    }
  }

  /** When no shard token and no interpolation token of the template
      resolves, the expansion is the template run through the modifications
      alone: each pass reproduces its input. */
  lemma UnresolvedTemplateIsModifiedOnly(rev: Revision, cfg: Config, web: Web, url: string,
                                         interp: Interpolation, temp: map<string, Shard>, fuel: nat)
    requires Resolvable(cfg, interp, temp) && web.fetch(url).Some?
    requires Strippable(Scan(interp.template, cfg.shardPattern))
    requires ShardsUnknown(Scan(interp.template, cfg.shardPattern), interp.beginsWith, [cfg.shards, temp])
    requires Strippable(Scan(interp.template, cfg.interpPattern))
    requires InterpolationsUnknown(rev, cfg, interp.beginsWith, Scan(interp.template, cfg.interpPattern))
    ensures ConstructInterpolation(rev, cfg, web, url, interp, temp, fuel)
         == Modified(interp.template, interp.modifications)
  {
    var doc := web.fetch(url).value;
    var maps := [cfg.shards, temp];
    assert MapsPlain(maps);
    var shardPieces := Scan(interp.template, cfg.shardPattern);
    UnknownShardsKeepText(web, shardPieces, interp.beginsWith, maps, doc);
    ScanJoin(interp.template, cfg.shardPattern);
    var afterShards := ShardPass(web, shardPieces, interp.beginsWith, maps, doc);
    assert afterShards == interp.template;
    var interpPieces := Scan(afterShards, cfg.interpPattern);
    UnknownInterpolationsKeepText(rev, cfg, web, url, interp, temp, interpPieces, fuel);
    ScanJoin(afterShards, cfg.interpPattern);
  }

  /** A template in which neither pattern matches anywhere expands to
      `runModifications(template, mods)`. */
  lemma TokenFreeTemplate(rev: Revision, cfg: Config, web: Web, url: string,
                          interp: Interpolation, temp: map<string, Shard>, fuel: nat)
    requires Resolvable(cfg, interp, temp) && web.fetch(url).Some?
    requires forall i :: 0 <= i < |interp.template| ==> TokenLen(interp.template[i..], cfg.shardPattern) == 0
    requires forall i :: 0 <= i < |interp.template| ==> TokenLen(interp.template[i..], cfg.interpPattern) == 0
    ensures ConstructInterpolation(rev, cfg, web, url, interp, temp, fuel)
         == Modified(interp.template, interp.modifications)
  {
    ScanWithoutTokens(interp.template, cfg.shardPattern);
    ScanWithoutTokens(interp.template, cfg.interpPattern);
    ScanStrippable(interp.template, cfg.shardPattern);
    ScanStrippable(interp.template, cfg.interpPattern);
    UnresolvedTemplateIsModifiedOnly(rev, cfg, web, url, interp, temp, fuel);
  }

  /** When the shard pass leaves no interpolation begin character, the
      interpolation pass has nothing to do and the expansion is the shard
      pass's output run through the modifications. */
  lemma NoNestedTokens(rev: Revision, cfg: Config, web: Web, url: string,
                       interp: Interpolation, temp: map<string, Shard>, fuel: nat, afterShards: string)
    requires Resolvable(cfg, interp, temp) && web.fetch(url).Some?
    requires Strippable(Scan(interp.template, cfg.shardPattern))
    requires afterShards == ShardPass(web, Scan(interp.template, cfg.shardPattern), interp.beginsWith,
                                      [cfg.shards, temp], web.fetch(url).value)
    requires forall i :: 0 <= i < |afterShards| ==> afterShards[i] != cfg.interpPattern.begin
    ensures ConstructInterpolation(rev, cfg, web, url, interp, temp, fuel)
         == Modified(afterShards, interp.modifications)
  {
    ScanNoBegin(afterShards, cfg.interpPattern);
    ScanStrippable(afterShards, cfg.interpPattern);
    ScanJoin(afterShards, cfg.interpPattern);
    UnknownInterpolationsKeepText(rev, cfg, web, url, interp, temp, Scan(afterShards, cfg.interpPattern), fuel);
  }

  /** A template with one shard token between plain text, whose shard is
      an override without modifications, expands to the override in place
      of the token when neither the result nor the interpolation's own
      modifications bring anything else in. */
  lemma OneOverrideTemplate(rev: Revision, cfg: Config, web: Web, url: string, interp: Interpolation,
                            temp: map<string, Shard>, fuel: nat, a: string, t: string, c: string, v: string)
    requires Resolvable(cfg, interp, temp) && web.fetch(url).Some?
    requires interp.template == a + t + c && interp.modifications == []
    requires forall i :: 0 <= i < |a| ==> a[i] != cfg.shardPattern.begin
    requires forall i :: 0 <= i < |c| ==> c[i] != cfg.shardPattern.begin
    requires IsToken(t, cfg.shardPattern)
    requires var s := LookupShard([cfg.shards, temp], interp.beginsWith, StripTokenDelimiters(t));
      s.Some? && s.value.override == v && s.value.modifications == [] && v != ""
    requires forall i :: 0 <= i < |a + v + c| ==> (a + v + c)[i] != cfg.interpPattern.begin
    ensures ConstructInterpolation(rev, cfg, web, url, interp, temp, fuel) == a + v + c
  {
    var doc := web.fetch(url).value;
    var maps := [cfg.shards, temp];
    assert MapsPlain(maps);
    ScanStrippable(interp.template, cfg.shardPattern);
    OneTokenShardPass(web, a, t, c, cfg.shardPattern, interp.beginsWith, maps, doc);
    OverrideReplacesToken(web, t, interp.beginsWith, maps, doc, v);
    NoNestedTokens(rev, cfg, web, url, interp, temp, fuel, a + v + c);
    EmptyListIsIdentity(a + v + c);
  }
}
