/** An example configuration: interpolation `greet`
    with body `Hello, [name]!`, selected by URLs containing `example.com`,
    and shard `name` overridden to `World`. */
module Scenarios {
  import opened Types
  import opened Strings
  import opened Tokens
  import opened Modifications
  import opened Configuration
  import opened Shards
  import opened Interpolations
  import opened Dispatch

  /** `[` and `]`, written `\[` and `\]` in the delimiter lists. */
  const Brackets: TokenPattern := TokenPattern('[', ']')

  const NameShard: Shard := Shard("name", [], "World", "", "", "")

  const Greet: Interpolation := Interpolation([], ["example.com"], "Hello, [name]!", "")

  const GreetConfig: Config := Config(map["name" := NameShard], map["greet" := Greet], Brackets, Brackets)

  const PageURL: string := "https://www.example.com/page"

  /** The delimiter lists `\[` and `\]` compile to the bracket pattern. */
  lemma BracketsCompiled()
    ensures SupportedPair("\\[", "\\]")
    ensures ConstructTokenRegex("\\[", "\\]") == Brackets
  {
  }

  lemma GreetConfigPlain()
    ensures PlainConfig(GreetConfig)
  {
    assert PlainGroups([]);
  }

  /** The page URL contains `example.com`, at index 12. */
  lemma PageMentionsExample()
    ensures Contains(PageURL, "example.com")
  {
    assert PageURL[12..23] == "example.com";
    assert OccursAt(PageURL, "example.com", 12);
  }

  /** `greet` expands to `Hello, World!` whatever the transient shards and
      the revision, once the page can be fetched. */
  lemma GreetExpansion(rev: Revision, cfg: Config, greet: Interpolation, web: Web, url: string,
                       temp: map<string, Shard>, fuel: nat)
    requires cfg == GreetConfig && greet == Greet && url == PageURL
    requires ShardsPlain(temp) && web.fetch(url).Some?
    ensures Resolvable(cfg, greet, temp)
    ensures ConstructInterpolation(rev, cfg, web, url, greet, temp, fuel) == "Hello, World!"
  {
    GreetConfigPlain();
    GreetPieces();
    var a, t, c, v := "Hello, ", "[name]", "!", "World";
    assert "" + "name" == "name";
    ConfiguredShadowsTransient(cfg.shards, temp, "", "name");
    OneOverrideTemplate(rev, cfg, web, url, greet, temp, fuel, a, t, c, v);
  }

  /** The template splits into `Hello, `, the token `[name]` and `!`; no
      `[` occurs outside the token, nor in the expanded text. */
  lemma GreetPieces()
    ensures Greet.template == "Hello, " + "[name]" + "!"
    ensures forall i :: 0 <= i < |"Hello, "| ==> "Hello, "[i] != '['
    ensures forall i :: 0 <= i < |"!"| ==> "!"[i] != '['
    ensures IsToken("[name]", Brackets) && StripTokenDelimiters("[name]") == "name"
    ensures "Hello, " + "World" + "!" == "Hello, World!"
    ensures forall i :: 0 <= i < |"Hello, World!"| ==> "Hello, World!"[i] != '['
  {
  }

  /** Dispatching the page with an empty filter gives `Hello, World!`: the
      URL contains `example.com` once, every name contains "", and `greet`
      is the only interpolation, so the only visiting order. */
  lemma GreetEndToEnd(job: Job, order: seq<string>)
    requires job.cfg == GreetConfig && job.url == PageURL && job.filter == ""
    requires ShardsPlain(job.temp) && job.web.fetch(job.url).Some?
    requires |order| == |job.cfg.interpolations| && "greet" in order
    ensures JobOk(job) && KnownNames(job, order)
    ensures Concat(Fragments(job, order)) == "Hello, World!"
  {
    GreetConfigPlain();
    assert order == ["greet"];
    var greet := job.cfg.interpolations["greet"];
    GreetExpansion(job.rev, job.cfg, greet, job.web, job.url, job.temp, job.fuel);
    assert Times(job, "greet") == 1 by {
      PageMentionsExample();
      EmptyIsContained("greet");
      assert ["example.com"][..0] == [];
    }
    SingleInterpolation(job, "greet");
    assert Repeat("Hello, World!", 1) == "" + "Hello, World!";
  }
}
