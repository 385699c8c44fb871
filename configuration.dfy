/** `tomlConfig` and its `initialize` step, which fills in every shard's
    name from its key and compiles the two token patterns. */
module Configuration {
  import opened Types
  import opened Tokens
  import opened Modifications

  /** Every shard's instruction list is one the model's pipeline covers. */
  predicate ShardsPlain(m: map<string, Shard>) {
    forall k :: k in m ==> PlainGroups(m[k].modifications)
  }

  predicate InterpolationsPlain(m: map<string, Interpolation>) {
    forall k :: k in m ==> PlainGroups(m[k].modifications)
  }

  predicate PlainConfig(cfg: Config) {
    ShardsPlain(cfg.shards) && InterpolationsPlain(cfg.interpolations)
  }

  /** Each shard's `Name` is the key it is stored under. */
  predicate NamesMatchKeys(m: map<string, Shard>) {
    forall k :: k in m ==> m[k].name == k
  }

  class TomlConfig {
    var shards: map<string, Shard>
    var interpolations: map<string, Interpolation>
    var delimitShard: seq<string>
    var delimitInterp: seq<string>
    var shardRegex: Option<TokenPattern>
    var interpRegex: Option<TokenPattern>

    /** The configuration as the TOML decoder leaves it: no pattern
        compiled yet. */
    constructor (shards: map<string, Shard>, interpolations: map<string, Interpolation>,
                 delimitShard: seq<string>, delimitInterp: seq<string>)
      ensures this.shards == shards && this.interpolations == interpolations
      ensures this.delimitShard == delimitShard && this.delimitInterp == delimitInterp
      ensures shardRegex == None && interpRegex == None
    {
      this.shards := shards;
      this.interpolations := interpolations;
      this.delimitShard := delimitShard;
      this.delimitInterp := delimitInterp;
      shardRegex := None;
      interpRegex := None;
    }

    predicate Initialized()
      reads this
    {
      shardRegex.Some? && interpRegex.Some?
    }

    /** `initialize`: rewrites every entry of `Shards` with its own key as
        `Name`, in whatever order the map is visited, then compiles the shard
        and interpolation token patterns from the first two entries of the
        delimiter lists (indexing a shorter list panics in the source). */
    method Initialize()
      requires |delimitShard| >= 2 && |delimitInterp| >= 2
      requires SupportedPair(delimitShard[0], delimitShard[1])
      requires SupportedPair(delimitInterp[0], delimitInterp[1])
      modifies this
      ensures shards.Keys == old(shards.Keys)
      ensures forall k :: k in shards ==> shards[k] == old(shards[k]).(name := k)
      ensures NamesMatchKeys(shards)
      ensures interpolations == old(interpolations)
      ensures delimitShard == old(delimitShard) && delimitInterp == old(delimitInterp)
      ensures shardRegex == Some(ConstructTokenRegex(delimitShard[0], delimitShard[1]))
      ensures interpRegex == Some(ConstructTokenRegex(delimitInterp[0], delimitInterp[1]))
      ensures Initialized()
    {
      var todo := shards.Keys;
      while todo != {}
        invariant todo <= shards.Keys == old(shards.Keys)
        invariant interpolations == old(interpolations)
        invariant delimitShard == old(delimitShard) && delimitInterp == old(delimitInterp)
        invariant forall k :: k in shards ==>
          shards[k] == if k in todo then old(shards[k]) else old(shards[k]).(name := k)
        decreases todo
      {
        var shardName :| shardName in todo;
        var tmpShard := shards[shardName];
        tmpShard := tmpShard.(name := shardName);
        shards := shards[shardName := tmpShard];
        todo := todo - {shardName};
      }
      shardRegex := Some(ConstructTokenRegex(delimitShard[0], delimitShard[1]));
      interpRegex := Some(ConstructTokenRegex(delimitInterp[0], delimitInterp[1]));
    }

    /** The value copy of the configuration that resolution works on. */
    function Snapshot(): Config
      reads this
      requires Initialized()
    {
      Config(shards, interpolations, shardRegex.value, interpRegex.value)
    }
  }
}
