/** URL dispatch: `constructFromURL` / `ConstructFromURL` concatenate the
    expansions of every interpolation selected by the URL and the name
    filter, and `main` builds the `REQUESTED_URL` shard before calling it. */
module Dispatch {
  import opened Types
  import opened Strings
  import opened Urls
  import opened Configuration
  import opened Shards
  import opened Interpolations
  import opened Modifications

  /** The fixed inputs of one dispatch: revision, configuration, web, the
      requested URL, the transient shards, the name filter and the nesting
      budget. */
  datatype Job = Job(rev: Revision, cfg: Config, web: Web, url: string,
                     temp: map<string, Shard>, filter: string, fuel: nat)

  predicate JobOk(job: Job) {
    PlainConfig(job.cfg) && ShardsPlain(job.temp)
  }

  /** How many of the URL substrings the URL contains, counted with
      repetition. */
  function Hits(url: string, subs: seq<string>): (n: nat)
    ensures n <= |subs|
    ensures n == 0 <==> forall i :: 0 <= i < |subs| ==> !Contains(url, subs[i])
    decreases |subs|
  {
    if subs == [] then 0
    else
      var init := subs[..|subs| - 1];
      assert forall i :: 0 <= i < |init| ==> init[i] == subs[i];
      Hits(url, init) + (if Contains(url, subs[|subs| - 1]) then 1 else 0)
  }

  /** The expansion of the interpolation stored under `name`. */
  function Expansion(job: Job, name: string): string
    requires JobOk(job) && name in job.cfg.interpolations
  {
    var interp := job.cfg.interpolations[name];
    assert interp in job.cfg.interpolations.Values;
    ConstructInterpolation(job.rev, job.cfg, job.web, job.url, interp, job.temp, job.fuel)
  }

  /** How many times the interpolation under `name` is appended: once per
      URL substring the URL contains, and never when the name lacks the
      filter. */
  function Times(job: Job, name: string): nat
    requires name in job.cfg.interpolations
  {
    if Contains(name, job.filter) then Hits(job.url, job.cfg.interpolations[name].urlContains) else 0
  }

  /** What visiting `name` appends: its expansion, `Times` times over. */
  function NameFragments(job: Job, name: string): (fs: seq<string>)
    requires JobOk(job) && name in job.cfg.interpolations
    ensures |fs| == Times(job, name)
    ensures forall i :: 0 <= i < |fs| ==> fs[i] == Expansion(job, name)
  {
    seq(Times(job, name), _ => Expansion(job, name))
  }

  predicate KnownNames(job: Job, order: seq<string>) {
    forall name :: name in order ==> name in job.cfg.interpolations
  }

  /** The appended expansions, name after name, in the order visited. */
  function Fragments(job: Job, order: seq<string>): seq<string>
    requires JobOk(job) && KnownNames(job, order)
    decreases |order|
  {
    if order == [] then []
    else Fragments(job, order[..|order| - 1]) + NameFragments(job, order[|order| - 1])
  }

  /** The strings of a list, concatenated. */
  function Concat(fs: seq<string>): string
    decreases |fs|
  {
    if fs == [] then "" else Concat(fs[..|fs| - 1]) + fs[|fs| - 1]
  }

  lemma {:induction false} ConcatAppend(xs: seq<string>, ys: seq<string>)
    ensures Concat(xs + ys) == Concat(xs) + Concat(ys)
    decreases |ys|
  {
    if ys == [] {
      assert xs + ys == xs;
    } else {
      var init := ys[..|ys| - 1];
      assert (xs + ys)[..|xs + ys| - 1] == xs + init;
      ConcatAppend(xs, init);
    }
  }

  /** A concatenation is empty exactly when every part is. */
  lemma {:induction false} ConcatEmpty(fs: seq<string>)
    ensures Concat(fs) == "" <==> forall i :: 0 <= i < |fs| ==> fs[i] == ""
    decreases |fs|
  {
    if fs != [] {
      var init := fs[..|fs| - 1];
      ConcatEmpty(init);
      assert forall i :: 0 <= i < |init| ==> init[i] == fs[i];
    }
  }

  /** Visiting names one list after another appends their fragments one
      after another. */
  lemma {:induction false} FragmentsAppend(job: Job, xs: seq<string>, ys: seq<string>)
    requires JobOk(job) && KnownNames(job, xs) && KnownNames(job, ys)
    ensures KnownNames(job, xs + ys)
    ensures Fragments(job, xs + ys) == Fragments(job, xs) + Fragments(job, ys)
    decreases |ys|
  {
    if ys == [] {
      assert xs + ys == xs;
    } else {
      var init := ys[..|ys| - 1];
      assert (xs + ys)[..|xs + ys| - 1] == xs + init;
      assert (xs + ys)[|xs + ys| - 1] == ys[|ys| - 1];
      FragmentsAppend(job, xs, init);
    }
  }

  /** Taking one name out of a visiting order takes its fragments out of
      the result. */
  lemma FragmentsRemove(job: Job, before: seq<string>, name: string, after: seq<string>)
    requires JobOk(job) && KnownNames(job, before) && KnownNames(job, after)
    requires name in job.cfg.interpolations
    ensures KnownNames(job, before + [name] + after) && KnownNames(job, before + after)
    ensures multiset(Fragments(job, before + [name] + after))
         == multiset(Fragments(job, before + after)) + multiset(NameFragments(job, name))
  {
    assert [name][..0] == [];
    assert Fragments(job, [name]) == NameFragments(job, name);
    FragmentsAppend(job, before, [name]);
    FragmentsAppend(job, before + [name], after);
    FragmentsAppend(job, before, after);
  }

  /** The fragments do not depend on the order the map is visited in: any
      two orders that visit the same names give the same fragments, counted
      with repetition. */
  lemma {:induction false} FragmentsOrderIndependent(job: Job, order: seq<string>, order': seq<string>)
    requires JobOk(job) && KnownNames(job, order) && multiset(order) == multiset(order')
    ensures KnownNames(job, order')
    ensures multiset(Fragments(job, order)) == multiset(Fragments(job, order'))
    decreases |order|
  {
    SameNamesKnown(job, order, order');
    if order == [] {
      assert |multiset(order')| == 0;
      assert order' == [];
    } else {
      var last := order[|order| - 1];
      var init := order[..|order| - 1];
      assert order == init + [last];
      assert last in multiset(order');
      var before, after := SplitAround(order', last);
      CancelOne(init, last, before, after);
      SameNamesKnown(job, order, init);
      SameNamesKnown(job, order', before);
      SameNamesKnown(job, order', after);
      FragmentsOrderIndependent(job, init, before + after);
      FragmentsRemove(job, before, last, after);
      FragmentsRemove(job, init, last, []);
      assert init + [last] + [] == order && init + [] == init;
    }
  }

  /** A list holding `x` is the part before one occurrence of it, `x`,
      and the part after. */
  lemma SplitAround(xs: seq<string>, x: string) returns (before: seq<string>, after: seq<string>)
    requires x in multiset(xs)
    ensures xs == before + [x] + after
  {
    var j :| 0 <= j < |xs| && xs[j] == x;
    before, after := xs[..j], xs[j + 1..];
    assert xs == before + [x] + after;
  }

  /** Names drawn from a known visiting order are known. */
  lemma SameNamesKnown(job: Job, order: seq<string>, names: seq<string>)
    requires KnownNames(job, order) && multiset(names) <= multiset(order)
    ensures KnownNames(job, names)
  {
    forall name | name in names ensures name in job.cfg.interpolations {
      assert name in multiset(names);
    }
  }

  /** Removing the same element from two equal multisets leaves equal
      multisets. */
  lemma CancelOne(init: seq<string>, x: string, before: seq<string>, after: seq<string>)
    requires multiset(init + [x]) == multiset(before + [x] + after)
    ensures multiset(init) == multiset(before + after)
    ensures multiset(init) <= multiset(init + [x])
    ensures multiset(before) <= multiset(before + [x] + after) && multiset(after) <= multiset(before + [x] + after)
  {
    assert multiset(init + [x]) == multiset(init) + multiset{x};
    assert multiset(before + [x] + after) == multiset(before) + multiset{x} + multiset(after);
    assert multiset(before + after) == multiset(before) + multiset(after);
    forall y ensures multiset(init)[y] == multiset(before + after)[y] {
      assert (multiset(init) + multiset{x})[y] == multiset(init)[y] + multiset{x}[y];
      assert (multiset(before) + multiset{x} + multiset(after))[y]
          == multiset(before)[y] + multiset{x}[y] + multiset(after)[y];
    }
  }

  /** Visiting `name` adds nothing to the output: it lacks the filter, the
      URL contains none of its substrings, or it expands to "". */
  predicate Silent(job: Job, name: string)
    requires JobOk(job) && name in job.cfg.interpolations
  {
    Times(job, name) == 0 || Expansion(job, name) == ""
  }

  lemma NameFragmentsEmpty(job: Job, name: string)
    requires JobOk(job) && name in job.cfg.interpolations
    ensures AllEmpty(NameFragments(job, name)) <==> Silent(job, name)
  {
    if Times(job, name) > 0 {
      assert NameFragments(job, name)[0] == Expansion(job, name);
    }
  }

  /** Every fragment is empty exactly when every visited name is silent. */
  lemma {:induction false} FragmentsEmpty(job: Job, order: seq<string>)
    requires JobOk(job) && KnownNames(job, order)
    ensures AllEmpty(Fragments(job, order)) <==> AllSilent(job, order)
    decreases |order|
  {
    if order != [] {
      var init := order[..|order| - 1];
      var last := order[|order| - 1];
      assert order == init + [last];
      SilentSnoc(job, init, last);
      FragmentsEmpty(job, init);
      NameFragmentsEmpty(job, last);
      AllEmptyAppend(Fragments(job, init), NameFragments(job, last));
    }
  }

  predicate AllEmpty(fs: seq<string>) {
    forall i :: 0 <= i < |fs| ==> fs[i] == ""
  }

  predicate AllSilent(job: Job, order: seq<string>)
    requires JobOk(job) && KnownNames(job, order)
  {
    forall name :: name in order ==> Silent(job, name)
  }

  lemma AllEmptyAppend(a: seq<string>, b: seq<string>)
    ensures AllEmpty(a + b) <==> AllEmpty(a) && AllEmpty(b)
  {
    assert forall i :: 0 <= i < |a| ==> (a + b)[i] == a[i];
    assert forall i :: 0 <= i < |b| ==> (a + b)[|a| + i] == b[i];
  }

  lemma SilentSnoc(job: Job, init: seq<string>, last: string)
    requires JobOk(job) && KnownNames(job, init + [last])
    ensures KnownNames(job, init)
    ensures AllSilent(job, init + [last]) <==> AllSilent(job, init) && Silent(job, last)
  {
    assert forall name :: name in init + [last] <==> name in init || name == last;
  }

  /** The output is empty exactly when every visited name is silent; the
      source then returns "" after logging that nothing matched. */
  lemma OutputEmptyIff(job: Job, order: seq<string>)
    requires JobOk(job) && KnownNames(job, order)
    ensures Concat(Fragments(job, order)) == "" <==> forall name :: name in order ==> Silent(job, name)
  {
    ConcatEmpty(Fragments(job, order));
    FragmentsEmpty(job, order);
  }

  /** A filter no name contains selects nothing, whatever the URL. */
  lemma FilterExcludesAll(job: Job, order: seq<string>)
    requires JobOk(job) && KnownNames(job, order)
    requires forall name :: name in order ==> !Contains(name, job.filter)
    ensures Concat(Fragments(job, order)) == ""
  {
    OutputEmptyIff(job, order);
  }

  /** A URL substring listed twice appends the expansion twice. */
  lemma DuplicateSubstringTwice(url: string, sub: string)
    requires Contains(url, sub)
    ensures Hits(url, [sub, sub]) == 2
  {
    assert [sub, sub][..1] == [sub];
    assert [sub][..0] == [];
  }

  /** `e` written `n` times. */
  function Repeat(e: string, n: nat): string {
    if n == 0 then "" else Repeat(e, n - 1) + e
  }

  lemma {:induction false} ConcatCopies(e: string, n: nat)
    ensures Concat(seq(n, _ => e)) == Repeat(e, n)
  {
    if n > 0 {
      assert seq(n, _ => e)[..n - 1] == seq(n - 1, _ => e);
      ConcatCopies(e, n - 1);
    }
  }

  lemma AppendCopy(before: string, e: string, n: nat)
    ensures before + Repeat(e, n) + e == before + Repeat(e, n + 1)
  {
  }

  lemma HitsStep(url: string, subs: seq<string>, j: nat)
    requires j < |subs|
    ensures Hits(url, subs[..j + 1]) == Hits(url, subs[..j]) + (if Contains(url, subs[j]) then 1 else 0)
  {
    assert subs[..j + 1][..j] == subs[..j];
  }

  /** One pass of the inner loop: the expansion is appended once more
      exactly when the name is selected and the URL contains the
      substring. */
  lemma InnerStep(before: string, e: string, selected: bool, url: string, subs: seq<string>, j: nat,
                  current: string, next: string)
    requires j < |subs|
    requires current == before + Repeat(e, if selected then Hits(url, subs[..j]) else 0)
    requires next == if selected && Contains(url, subs[j]) then current + e else current
    ensures next == before + Repeat(e, if selected then Hits(url, subs[..j + 1]) else 0)
  {
    var h := Hits(url, subs[..j]);
    HitsStep(url, subs, j);
    if selected && Contains(url, subs[j]) {
      AppendCopy(before, e, h);
      assert next == before + Repeat(e, h + 1);
    } else if selected {
      assert Hits(url, subs[..j + 1]) == h;
    }
  }

  lemma FragmentsSnoc(job: Job, order: seq<string>, name: string)
    requires JobOk(job) && KnownNames(job, order) && name in job.cfg.interpolations
    ensures KnownNames(job, order + [name])
    ensures Concat(Fragments(job, order + [name]))
         == Concat(Fragments(job, order)) + Repeat(Expansion(job, name), Times(job, name))
  {
    assert (order + [name])[..|order|] == order;
    ConcatAppend(Fragments(job, order), NameFragments(job, name));
    ConcatCopies(Expansion(job, name), Times(job, name));
  }

  /** With a single interpolation the output is its expansion, once per
      URL substring the URL contains. */
  lemma SingleInterpolation(job: Job, name: string)
    requires JobOk(job) && name in job.cfg.interpolations
    ensures KnownNames(job, [name])
    ensures Concat(Fragments(job, [name])) == Repeat(Expansion(job, name), Times(job, name))
  {
    FragmentsSnoc(job, [], name);
    assert [] + [name] == [name];
  }

  /** The inner loop of `constructFromURL` for one interpolation: for each
      URL substring the URL contains, appends the expansion if the name
      contains the filter. */
  method AppendMatches(job: Job, interpName: string, soFar: string) returns (allInterpolations: string)
    requires JobOk(job) && interpName in job.cfg.interpolations
    ensures allInterpolations == soFar + Repeat(Expansion(job, interpName), Times(job, interpName))
  {
    var interp := job.cfg.interpolations[interpName];
    ghost var expansion := Expansion(job, interpName);
    ghost var selected := Contains(interpName, job.filter);
    allInterpolations := soFar;
    var j := 0;
    while j < |interp.urlContains|
      invariant j <= |interp.urlContains|
      invariant allInterpolations == soFar + Repeat(expansion, if selected then Hits(job.url, interp.urlContains[..j]) else 0)
    {
      var urlSubstring := interp.urlContains[j];
      ghost var current := allInterpolations;
      if Contains(job.url, urlSubstring) {
        if Contains(interpName, job.filter) {
          assert interp in job.cfg.interpolations.Values;
          var fragment := ConstructInterpolation(job.rev, job.cfg, job.web, job.url, interp, job.temp, job.fuel);
          assert fragment == expansion;
          allInterpolations := allInterpolations + fragment;
        }
      }
      InnerStep(soFar, expansion, selected, job.url, interp.urlContains, j, current, allInterpolations);
      j := j + 1;
    }
    assert interp.urlContains[..j] == interp.urlContains;
  }

  /** `constructFromURL`: visits every interpolation once, in an order the
      map chooses, and for each URL substring the URL contains appends the
      interpolation's expansion if its name contains the filter. Returns ""
      when nothing was appended. `order` is the visiting order. */
  method ConstructFromURL(job: Job) returns (allInterpolations: string, ghost order: seq<string>)
    requires JobOk(job)
    ensures KnownNames(job, order)
    ensures |order| == |job.cfg.interpolations| && forall k :: k in job.cfg.interpolations ==> k in order
    ensures allInterpolations == Concat(Fragments(job, order))
    ensures allInterpolations == "" <==> forall name :: name in job.cfg.interpolations ==> Silent(job, name)
  {
    var interpolations := job.cfg.interpolations;
    allInterpolations := "";
    order := [];
    var todo := interpolations.Keys;
    while todo != {}
      invariant todo <= interpolations.Keys && KnownNames(job, order)
      invariant forall k :: k in interpolations ==> (k in todo <==> k !in order)
      invariant |order| + |todo| == |interpolations|
      invariant allInterpolations == Concat(Fragments(job, order))
      decreases todo
    {
      var interpName :| interpName in todo;
      allInterpolations := AppendMatches(job, interpName, allInterpolations);
      FragmentsSnoc(job, order, interpName);
      order := order + [interpName];
      todo := todo - {interpName};
    }
    OutputEmptyIff(job, order);
    if allInterpolations == "" {
      return "", order;
    }
  }

  /** What the process does with a request: print text, or stop fatally
      before anything is looked up. */
  datatype Outcome = Output(text: string) | Fatal

  /** `ConstructFromURL` of `package SimpleScraper`: a URL that fails the
      policy stops the process; otherwise dispatch runs on the package's
      configuration, which the lookup only reads. */
  method ConstructFromURLChecked(config: TomlConfig, web: Web, url: string, tempShards: map<string, Shard>,
                                 interpContains: string, fuel: nat) returns (out: Outcome, ghost order: seq<string>)
    requires config.Initialized() && PlainConfig(config.Snapshot()) && ShardsPlain(tempShards)
    ensures !ValidateURL(url) ==> out == Fatal
    ensures ValidateURL(url) ==>
      var job := Job(Library, config.Snapshot(), web, url, tempShards, interpContains, fuel);
      && KnownNames(job, order) && out == Output(Concat(Fragments(job, order)))
      && |order| == |job.cfg.interpolations| && (forall k :: k in job.cfg.interpolations ==> k in order)
      && (out.text == "" <==> forall name :: name in job.cfg.interpolations ==> Silent(job, name))
  {
    if !ValidateURL(url) {
      return Fatal, [];
    }
    var job := Job(Library, config.Snapshot(), web, url, tempShards, interpContains, fuel);
    var text;
    text, order := ConstructFromURL(job);
    out := Output(text);
  }

  /** The transient shard map `main` passes: `REQUESTED_URL` alone, whose
      override is the requested URL. */
  function RequestedURLShards(url: string): (m: map<string, Shard>)
    ensures m.Keys == {"REQUESTED_URL"}
    ensures m["REQUESTED_URL"] == Shard("REQUESTED_URL", [], url, "", "", "")
  {
    map["REQUESTED_URL" := Shard("REQUESTED_URL", [], url, "", "", "")]
  }

  /** The lines of `main` after initialisation: a valid URL is dispatched
      unchanged, with the filter unchanged and the `REQUESTED_URL` shard;
      an invalid one stops the process before any dispatch. */
  method MainDispatch(cfg: Config, web: Web, url: string, interpContains: string, fuel: nat)
    returns (out: Outcome, ghost order: seq<string>)
    requires PlainConfig(cfg)
    ensures !ValidateURL(url) ==> out == Fatal
    ensures ValidateURL(url) ==>
      var job := Job(CommandLine, cfg, web, url, RequestedURLShards(url), interpContains, fuel);
      && KnownNames(job, order) && out == Output(Concat(Fragments(job, order)))
      && |order| == |job.cfg.interpolations| && (forall k :: k in job.cfg.interpolations ==> k in order)
      && (out.text == "" <==> forall name :: name in job.cfg.interpolations ==> Silent(job, name))
  {
    if ValidateURL(url) {
      var providedShard := RequestedURLShards(url);
      var text;
      text, order := ConstructFromURL(Job(CommandLine, cfg, web, url, providedShard, interpContains, fuel));
      out := Output(text);
    } else {
      out := Fatal;
      order := [];
    }
  }

  /** A `REQUESTED_URL` token resolves to the requested URL unless a
      configured shard answers to the name first. */
  lemma RequestedURLResolves(cfg: Config, web: Web, url: string, prefix: string, token: string, doc: Document)
    requires ShardsPlain(cfg.shards) && ValidateURL(url)
    requires |token| >= 2 && token[1..|token| - 1] == "REQUESTED_URL"
    requires !HasShard(cfg.shards, prefix, "REQUESTED_URL")
    ensures MapsPlain([cfg.shards, RequestedURLShards(url)])
    ensures ShardReplacement(web, token, prefix, [cfg.shards, RequestedURLShards(url)], doc) == url
  {
    var maps := [cfg.shards, RequestedURLShards(url)];
    assert PlainGroups([]);
    assert MapsPlain(maps);
    assert FirstWith(maps, prefix, "REQUESTED_URL", 1);
    LookupFindsFirst(maps, prefix, "REQUESTED_URL", 1);
    EmptyListIsIdentity(url);
    assert "http" <= url;
  }

  /** The configured shard of that name wins instead. */
  lemma ConfiguredRequestedURLWins(cfg: Config, url: string, prefix: string)
    requires HasShard(cfg.shards, prefix, "REQUESTED_URL")
    ensures LookupShard([cfg.shards, RequestedURLShards(url)], prefix, "REQUESTED_URL")
         == Some(PickShard(cfg.shards, prefix, "REQUESTED_URL"))
  {
    ConfiguredShadowsTransient(cfg.shards, RequestedURLShards(url), prefix, "REQUESTED_URL");
  }
}
