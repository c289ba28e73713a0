/** What `len` of the sharded cache counts (`src/cache_x.rs`). */
module CacheCount {
  import opened Bytes
  import opened Cache
  import opened CacheShards

  /** The insertion meets a shard that is at its limit and not empty. */
  ghost predicate Crowded(c: Config, flat: Shard, op: Op) {
    && op.InsertOp?
    && var shard := ShardView(flat, op.key, Shards(c));
    && |shard| >= c.maxPerShard && |shard| > 0
  }

  /** No insertion since the last flush, among the first `i` operations, met a crowded shard. */
  ghost predicate Roomy(c: Config, ops: seq<Op>, flats: seq<Shard>, i: nat)
    requires i <= |ops| && |flats| == |ops| + 1
  {
    i == 0 || ops[i - 1].FlushOp? || (!Crowded(c, flats[i - 1], ops[i - 1]) && Roomy(c, ops, flats, i - 1))
  }

  /** Eviction takes something exactly from a crowded shard. */
  lemma CrowdedEvicts(c: Config, flat: Shard, op: Op, dropped: set<Key>, gen: nat, lost: nat, reply: Reply,
                      flat': Shard)
    requires FlatStep(c, flat, op, dropped, gen, lost, reply, flat')
    ensures |dropped| == 0 <==> !Crowded(c, flat, op)
  {
    hide ShardView, NewEntry, IsSnapshot, LookupIn;
    if op.InsertOp? {
      var shard := ShardView(flat, op.key, Shards(c));
      if |shard| >= c.maxPerShard && |shard| > 0 {
        EvictedShrinks(shard, shard - dropped, op.now, c.maxPerShard / 16 + 1);
        NoneDropped(shard, dropped);
      }
      if |shard| == 0 {
        assert |shard.Keys| == 0;
      }
    }
  }

  lemma NoneDropped(shard: Shard, dropped: set<Key>)
    ensures dropped == {} ==> shard - dropped == shard
    ensures |dropped| == 0 <==> dropped == {}
  {}

  lemma {:induction false} LostIff(c: Config, ops: seq<Op>, replies: seq<Reply>, flats: seq<Shard>,
                                   dropped: seq<set<Key>>, i: nat)
    requires Trace(c, ops, replies, flats, dropped) && i <= |ops|
    ensures Lost(ops[..i], dropped[..i]) == 0 <==> Roomy(c, ops, flats, i)
  {
    hide FlatStep, Bounded, GenAfter, Crowded;
    if i > 0 {
      LostIff(c, ops, replies, flats, dropped, i - 1);
      assert TraceStep(c, ops, replies, flats, dropped, i - 1);
      CrowdedEvicts(c, flats[i - 1], ops[i - 1], dropped[i - 1], GenAfter(ops[..i - 1]),
                    Lost(ops[..i - 1], dropped[..i - 1]), replies[i - 1], flats[i]);
      assert ops[..i][..i - 1] == ops[..i - 1] && dropped[..i][..i - 1] == dropped[..i - 1];
    }
  }

  /** `len` is the number of entries exactly when no insertion since the last flush met a shard that
      was at its limit and not empty. */
  lemma LenExact(c: Config, ops: seq<Op>, replies: seq<Reply>, flats: seq<Shard>, dropped: seq<set<Key>>, i: nat)
    requires Trace(c, ops, replies, flats, dropped) && i < |ops| && ops[i].LenOp?
    ensures replies[i] == Counted(|flats[i]|) <==> Roomy(c, ops, flats, i)
  {
    hide Bounded, GenAfter, Lost, Roomy;
    LostIff(c, ops, replies, flats, dropped, i);
    assert TraceStep(c, ops, replies, flats, dropped, i);
  }

  /** Two insertions of one owner and class in a cache of one entry per shard: the first entry is
      evicted and still counted. */
  lemma LenOvercounts(a: Op, b: Op, replies: seq<Reply>, flats: seq<Shard>, dropped: seq<set<Key>>)
    requires a.InsertOp? && b.InsertOp? && a.key.owner == b.key.owner && a.key.qclass == b.key.qclass
    requires a.key.qtype == 1 && b.key.qtype == 28
    requires Trace(Config(1, 1, 0), [a, b, LenOp], replies, flats, dropped)
    ensures replies[2] == Counted(2) && |flats[2]| == 1
  {
    hide Bounded, GenAfter, NewEntry, MadeRoom, Shards, ShardView, IsSnapshot, LookupIn, Lost;
    var c: Config, ops := Config(1, 1, 0), [a, b, LenOp];
    assert TraceStep(c, ops, replies, flats, dropped, 0);
    assert TraceStep(c, ops, replies, flats, dropped, 1);
    assert TraceStep(c, ops, replies, flats, dropped, 2);
    NothingToDrop(c, a, dropped[0]);
    assert flats[1].Keys == {a.key};
    FirstDropped(c, a, b, dropped[1], flats[1]);
    assert flats[2].Keys == {b.key} && |flats[2]| == |flats[2].Keys|;
    LostSteps(ops, dropped);
  }

  lemma NothingToDrop(c: Config, a: Op, dropped: set<Key>)
    requires a.InsertOp? && MadeRoom(ShardView(map[], a.key, Shards(c)), dropped, a.now, c.maxPerShard)
    ensures dropped == {}
  {
    hide ShardIndex, Evicted;
    assert ShardView(map[], a.key, Shards(c)) == map[];
  }

  lemma FirstDropped(c: Config, a: Op, b: Op, dropped: set<Key>, flat: Shard)
    requires a.InsertOp? && b.InsertOp? && a.key.owner == b.key.owner && a.key.qclass == b.key.qclass
    requires flat.Keys == {a.key} && c.maxPerShard == 1
    requires MadeRoom(ShardView(flat, b.key, Shards(c)), dropped, b.now, c.maxPerShard)
    ensures dropped == {a.key}
  {
    hide ShardIndex;
    TypesShareShard(a.key, b.key, Shards(c));
    var shard := ShardView(flat, b.key, Shards(c));
    assert shard == flat && |shard| == |shard.Keys| == 1;
    assert |shard - dropped| == 0;
    assert (shard - dropped).Keys == {a.key} - dropped && |(shard - dropped).Keys| == 0;
  }

  lemma LostSteps(ops: seq<Op>, dropped: seq<set<Key>>)
    requires |ops| == |dropped| == 3 && ops[0].InsertOp? && ops[1].InsertOp?
    requires dropped[0] == {} && |dropped[1]| == 1
    ensures Lost(ops[..2], dropped[..2]) == 1
  {
    assert ops[..2][..1] == ops[..1] && dropped[..2][..1] == dropped[..1];
    assert ops[..1][..0] == [] && dropped[..1][..0] == [];
    assert Lost(ops[..1], dropped[..1]) == 0;
    assert Lost(ops[..2], dropped[..2]) == Lost(ops[..1], dropped[..1]) + |dropped[1]|;
  }
}
