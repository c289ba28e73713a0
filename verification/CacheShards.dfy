/** The sharded cache as one flat map (`src/cache_x.rs`). */
module CacheShards {
  import opened Bytes
  import opened NameHash
  import opened Cache
  import Order

  const MAX_SHARDS := 4096

  /** `shard_idx`, for a number of shards that is a power of two. */
  function ShardIndex(key: Key, n: nat): (i: nat)
    requires 0 < n <= MAX_SHARDS
    ensures i < n
  {
    Place(HashFrom(key.owner, 0, OFFSET), key, n)
  }

  /** The low twelve bits of the mixed hash; no mask has more. */
  function Mixed(hash: bv64, qtype: bv64, qclass: bv64): bv12 {
    ((hash ^ (qtype << 16) ^ qclass) & 0xFFF) as bv12
  }

  /** Masking with 2^b - 1 is the remainder by the number 2^b of shards. */
  function Place(hash: bv64, key: Key, n: nat): (i: nat)
    requires 0 < n <= MAX_SHARDS
    ensures i < n
  {
    MixedKey(hash, key) % n
  }

  function MixedKey(hash: bv64, key: Key): nat {
    Mixed(hash, Bits(key.qtype), Bits(key.qclass)) as nat
  }

  function Bits(n: U16): bv64 {
    n as bv64
  }

  lemma TypeShiftedOut(hash: bv64, t: bv64, t': bv64, qclass: bv64)
    ensures Mixed(hash, t, qclass) == Mixed(hash, t', qclass)
  {}

  /** The type is shifted out of every mask: all types of one owner and class share a shard. */
  lemma TypesShareShard(a: Key, b: Key, n: nat)
    requires 0 < n <= MAX_SHARDS && a.owner == b.owner && a.qclass == b.qclass
    ensures ShardIndex(a, n) == ShardIndex(b, n)
  {
    hide HashFrom, MixedKey;
    TypeUnused(HashFrom(a.owner, 0, OFFSET), a, b);
  }

  lemma TypeUnused(hash: bv64, a: Key, b: Key)
    requires a.qclass == b.qclass
    ensures MixedKey(hash, a) == MixedKey(hash, b)
  {
    hide Mixed, Bits;
    TypeShiftedOut(hash, Bits(a.qtype), Bits(b.qtype), Bits(a.qclass));
  }

  /** Every key lies in the shard its hash names. */
  ghost predicate Placed(shards: seq<Shard>) {
    0 < |shards| <= MAX_SHARDS && forall i, k :: 0 <= i < |shards| && k in shards[i] ==> ShardIndex(k, |shards|) == i
  }

  ghost function KeysIn(shards: seq<Shard>): set<Key> {
    set i, k | 0 <= i < |shards| && k in shards[i] :: k
  }

  /** The map the shards make up together. */
  ghost function Flat(shards: seq<Shard>): Shard
    requires Placed(shards)
  {
    map k | k in KeysIn(shards) :: shards[ShardIndex(k, |shards|)][k]
  }

  lemma FlatAt(shards: seq<Shard>, k: Key)
    requires Placed(shards)
    ensures k in Flat(shards) <==> k in shards[ShardIndex(k, |shards|)]
    ensures k in Flat(shards) ==> Flat(shards)[k] == shards[ShardIndex(k, |shards|)][k]
  {
    hide ShardIndex;
  }

  /** Changing one shard, adding at most one key that belongs there, changes the flat map alike. */
  lemma FlatInsert(shards: seq<Shard>, left: Shard, key: Key, entry: Entry)
    requires Placed(shards) && Submap(left, shards[ShardIndex(key, |shards|)])
    ensures var i := ShardIndex(key, |shards|);
            var shards' := shards[i := left[key := entry]];
            Placed(shards') && Flat(shards') == (Flat(shards) - (shards[i].Keys - left.Keys))[key := entry]
  {
    hide ShardIndex, Flat;
    var i := ShardIndex(key, |shards|);
    var shards' := shards[i := left[key := entry]];
    var flat' := (Flat(shards) - (shards[i].Keys - left.Keys))[key := entry];
    assert Placed(shards');
    forall k ensures k in Flat(shards') <==> k in flat' {
      FlatAt(shards, k);
      FlatAt(shards', k);
    }
    forall k | k in flat' ensures Flat(shards')[k] == flat'[k] {
      FlatAt(shards, k);
      FlatAt(shards', k);
    }
    assert Flat(shards') == flat';
  }

  /** The sort order of `snapshot`. */
  predicate SnapLeq(a: (Key, Entry), b: (Key, Entry)) {
    if a.0.owner != b.0.owner then Order.LexLeq(a.0.owner, b.0.owner, ByteLeq)
    else if a.0.qclass != b.0.qclass then a.0.qclass < b.0.qclass
    else if a.0.qtype != b.0.qtype then a.0.qtype < b.0.qtype
    else a.1.gen <= b.1.gen
  }

  lemma SnapLeqTransitive(a: (Key, Entry), b: (Key, Entry), c: (Key, Entry))
    requires SnapLeq(a, b) && SnapLeq(b, c)
    ensures SnapLeq(a, c)
  {
    if a.0.owner != b.0.owner && b.0.owner != c.0.owner {
      Order.LexTransitive(a.0.owner, b.0.owner, c.0.owner, ByteLeq);
      if a.0.owner == c.0.owner {
        Order.LexAntisymmetric(a.0.owner, b.0.owner, ByteLeq);
      }
    }
  }

  lemma SnapLeqPreorder()
    ensures Order.TotalPreorder(SnapLeq)
  {
    forall a, b ensures SnapLeq(a, b) || SnapLeq(b, a) {
      Order.LexTotal(a.0.owner, b.0.owner, ByteLeq);
    }
    forall a, b, c | SnapLeq(a, b) && SnapLeq(b, c) ensures SnapLeq(a, c) {
      SnapLeqTransitive(a, b, c);
    }
  }

  ghost function LiveItems(flat: Shard, now: Time): set<(Key, Entry)> {
    set k | k in flat && flat[k].Servable(now) :: (k, flat[k])
  }

  /** The servable entries of a flat map, each once, in order. */
  ghost predicate IsSnapshot(flat: Shard, now: Time, s: seq<(Key, Entry)>) {
    Order.Sorted(s, SnapLeq) && multiset(s) == multiset(LiveItems(flat, now))
  }

  lemma SnapshotSeparates(flat: Shard, now: Time, s: seq<(Key, Entry)>)
    requires IsSnapshot(flat, now, s)
    ensures Order.Separates(s, SnapLeq)
  {
    forall a, b | a in s && b in s && SnapLeq(a, b) && SnapLeq(b, a) ensures a == b {
      assert a in multiset(s) && b in multiset(s);
      assert a in LiveItems(flat, now) && b in LiveItems(flat, now);
      if a.0.owner != b.0.owner {
        Order.LexAntisymmetric(a.0.owner, b.0.owner, ByteLeq);
      }
    }
  }

  /** A snapshot depends on nothing but the flat map: neither on the number of shards nor on any
      iteration order. */
  lemma SnapshotUnique(flat: Shard, now: Time, s: seq<(Key, Entry)>, t: seq<(Key, Entry)>)
    requires IsSnapshot(flat, now, s) && IsSnapshot(flat, now, t)
    ensures s == t
  {
    SnapLeqPreorder();
    SnapshotSeparates(flat, now, s);
    Order.SortedUnique(s, t, SnapLeq);
  }

  /** The servable entries of one shard, in whatever order the map is iterated. */
  method LiveOf(m: Shard, now: Time) returns (items: seq<(Key, Entry)>)
    ensures multiset(items) == multiset(LiveItems(m, now))
  {
    items := [];
    var todo := m.Keys;
    ghost var done: set<(Key, Entry)> := {};
    while todo != {}
      invariant todo <= m.Keys
      invariant done == (set k | k in m.Keys - todo && m[k].Servable(now) :: (k, m[k]))
      invariant multiset(items) == multiset(done)
      decreases todo
    {
      var k :| k in todo;
      todo := todo - {k};
      if m[k].Servable(now) {
        assert (k, m[k]) !in done;
        items := items + [(k, m[k])];
        done := done + {(k, m[k])};
      }
    }
    assert done == LiveItems(m, now);
  }

  function Max(a: nat, b: nat): nat { if a < b then b else a }

  function Sum(live: seq<nat>): nat {
    if live == [] then 0 else Sum(live[..|live| - 1]) + live[|live| - 1]
  }

  /** The first `n` shards hold no more entries than the counters say. */
  lemma {:induction false} CountersCover(shards: seq<Shard>, live: seq<nat>, n: nat)
    requires |live| == |shards| && n <= |shards|
    requires forall i :: 0 <= i < |shards| ==> |shards[i]| <= live[i]
    ensures |KeysIn(shards[..n])| <= Sum(live[..n])
  {
    if n > 0 {
      CountersCover(shards, live, n - 1);
      assert live[..n][..n - 1] == live[..n - 1];
      assert shards[..n] == shards[..n - 1] + [shards[n - 1]];
      assert KeysIn(shards[..n]) == KeysIn(shards[..n - 1]) + shards[n - 1].Keys by {
        forall k ensures k in KeysIn(shards[..n]) <==> k in KeysIn(shards[..n - 1]) + shards[n - 1].Keys {
          if k in KeysIn(shards[..n - 1]) {
            var i :| 0 <= i < n - 1 && k in shards[..n - 1][i];
            assert k in shards[..n][i];
          }
          if k in shards[n - 1] {
            assert k in shards[..n][n - 1];
          }
        }
      }
    } else {
      assert KeysIn(shards[..0]) == {};
    }
  }

  lemma {:induction false} SumUpdate(live: seq<nat>, i: nat, n: nat)
    requires i < |live|
    ensures Sum(live[i := n]) == Sum(live) - live[i] + n
  {
    var last := |live| - 1;
    if i == last {
      assert live[i := n][..last] == live[..last];
    } else {
      assert live[i := n][..last] == live[..last][i := n];
      SumUpdate(live[..last], i, n);
    }
  }

  lemma {:induction false} SumZero(live: seq<nat>)
    requires forall i :: 0 <= i < |live| ==> live[i] == 0
    ensures Sum(live) == 0
  {
    if live != [] {
      SumZero(live[..|live| - 1]);
    }
  }

  /** Eviction and one insertion, counted. */
  lemma MapSizes(flat: Shard, dropped: set<Key>, key: Key, entry: Entry)
    requires dropped <= flat.Keys
    ensures |(flat - dropped)[key := entry]| == |flat| - |dropped| + (if key in flat - dropped then 0 else 1)
  {
    var kept := flat - dropped;
    assert kept.Keys == flat.Keys - dropped;
    assert |kept| == |kept.Keys| && |flat| == |flat.Keys|;
    assert kept[key := entry].Keys == kept.Keys + {key};
    assert |kept[key := entry]| == |kept[key := entry].Keys|;
  }

  /** The entries of a flat map that share a shard with `key`. */
  ghost function ShardView(flat: Shard, key: Key, n: nat): Shard
    requires 0 < n <= MAX_SHARDS
  {
    map k | k in flat && ShardIndex(k, n) == ShardIndex(key, n) :: flat[k]
  }

  lemma ShardViewed(shards: seq<Shard>, key: Key)
    requires Placed(shards)
    ensures shards[ShardIndex(key, |shards|)] == ShardView(Flat(shards), key, |shards|)
    ensures shards[ShardIndex(key, |shards|)].Keys <= Flat(shards).Keys
  {
    hide ShardIndex, Flat;
    var m := shards[ShardIndex(key, |shards|)];
    var view := ShardView(Flat(shards), key, |shards|);
    forall k ensures k in m <==> k in view {
      FlatAt(shards, k);
    }
    forall k | k in m ensures m[k] == view[k] && k in Flat(shards) {
      FlatAt(shards, k);
    }
  }

  /** The counters and the entries drift apart by exactly what eviction takes. */
  lemma InsertAccounts(shards: seq<Shard>, live: seq<nat>, left: Shard, dropped: set<Key>, key: Key, entry: Entry)
    requires Placed(shards) && |live| == |shards| && Submap(left, shards[ShardIndex(key, |shards|)])
    requires dropped == shards[ShardIndex(key, |shards|)].Keys - left.Keys
    ensures var i := ShardIndex(key, |shards|);
            && shards[i] == ShardView(Flat(shards), key, |shards|)
            && Sum(live[i := if key in left then live[i] else live[i] + 1]) ==
               Sum(live) + |(Flat(shards) - dropped)[key := entry]| - |Flat(shards)| + |dropped|
  {
    hide ShardIndex, Flat, Sum, ShardView;
    var i := ShardIndex(key, |shards|);
    ShardViewed(shards, key);
    MapSizes(Flat(shards), dropped, key, entry);
    FlatAt(shards, key);
    SumUpdate(live, i, if key in left then live[i] else live[i] + 1);
  }

  /** What the cache keeps after every operation. */
  ghost predicate Sound(shards: seq<Shard>, live: seq<nat>, gen: nat, maxPerShard: nat) {
    && Placed(shards)
    && |live| == |shards|
    && (forall i :: 0 <= i < |shards| ==> |shards[i]| <= Max(1, maxPerShard) && |shards[i]| <= live[i])
    && DistinctGens(Flat(shards))
    && (forall k :: k in Flat(shards) ==> Flat(shards)[k].gen < gen)
  }

  lemma ShardGens(shards: seq<Shard>, i: nat)
    requires Placed(shards) && i < |shards| && DistinctGens(Flat(shards))
    ensures DistinctGens(shards[i])
  {
    hide ShardIndex, Flat;
    forall a, b | a in shards[i] && b in shards[i] && shards[i][a].gen == shards[i][b].gen ensures a == b {
      FlatAt(shards, a);
      FlatAt(shards, b);
    }
  }

  /** Putting an entry of a new generation into what eviction left keeps the cache sound. */
  lemma InsertSound(shards: seq<Shard>, live: seq<nat>, gen: nat, max: nat, left: Shard, key: Key, entry: Entry)
    requires Sound(shards, live, gen, max) && entry.gen == gen
    requires var m := shards[ShardIndex(key, |shards|)];
             Submap(left, m) && (|m| >= max ==> |m| > 0 ==> |left| < |m|)
    ensures var i := ShardIndex(key, |shards|);
            var live' := live[i := if key in left then live[i] else live[i] + 1];
            Sound(shards[i := left[key := entry]], live', gen + 1, max)
  {
    hide ShardIndex, Flat, KeysIn, DistinctGens, Submap;
    var i := ShardIndex(key, |shards|);
    FlatInsert(shards, left, key, entry);
    GensKept(Flat(shards), shards[i].Keys - left.Keys, key, entry, gen);
    InsertedSize(shards[i], left, key, entry);
  }

  lemma InsertedSize(m: Shard, left: Shard, key: Key, entry: Entry)
    requires Submap(left, m)
    ensures |left| <= |m| && |left[key := entry]| == if key in left then |left| else |left| + 1
  {
    var m' := left[key := entry];
    SubsetSize(left.Keys, m.Keys);
    assert |left| == |left.Keys| && |m| == |m.Keys| && |m'| == |m'.Keys|;
    assert m'.Keys == left.Keys + {key};
  }

  lemma GensKept(flat: Shard, dropped: set<Key>, key: Key, entry: Entry, gen: nat)
    requires DistinctGens(flat) && (forall k :: k in flat ==> flat[k].gen < gen) && entry.gen == gen
    ensures var flat' := (flat - dropped)[key := entry];
            DistinctGens(flat') && forall k :: k in flat' ==> flat'[k].gen < gen + 1
  {}

  lemma SoundParts(shards: seq<Shard>, live: seq<nat>, gen: nat, max: nat)
    requires Sound(shards, live, gen, max)
    ensures 0 < |shards| <= MAX_SHARDS && Placed(shards) && |live| == |shards| && DistinctGens(Flat(shards))
  {}

  lemma EvictedShrinks(m: Shard, left: Shard, now: Time, budget: nat)
    requires Evicted(m, left, now, budget) && budget > 0
    ensures Submap(left, m) && (|m| > 0 ==> |left| < |m|)
  {}

  lemma NewEntryGen(rcode: Byte, answer: seq<Byte>, ttl: nat, secure: bool, now: Time, staleWindow: nat, gen: nat)
    ensures NewEntry(rcode, answer, ttl, secure, now, staleWindow, gen).gen == gen
  {}

  /** What goes before an insertion: nothing below the limit, else what `Evicted` allows. */
  ghost predicate MadeRoom(m: Shard, dropped: set<Key>, now: Time, max: nat) {
    && dropped <= m.Keys
    && (|m| < max ==> dropped == {})
    && (|m| >= max ==> Evicted(m, m - dropped, now, max / 16 + 1))
  }

  /** The first half of `insert`. */
  method MakeRoom(m: Shard, now: Time, max: nat) returns (left: Shard, ghost dropped: set<Key>)
    requires DistinctGens(m)
    ensures MadeRoom(m, dropped, now, max) && left == m - dropped
    ensures left.Keys == m.Keys - dropped && m.Keys - left.Keys == dropped
    ensures Submap(left, m) && (|m| >= max ==> |m| > 0 ==> |left| < |m|)
  {
    hide Evicted, Submap, DistinctGens;
    left := m;
    SubmapSelf(m);
    if |m| >= max {
      left := Evict(m, now, max / 16 + 1);
      EvictedShrinks(m, left, now, max / 16 + 1);
    }
    dropped := m.Keys - left.Keys;
    SubmapIsDifference(m, left);
  }

  lemma SubmapSelf(m: Shard)
    ensures Submap(m, m)
  {}

  lemma SubmapIsDifference(m: Shard, left: Shard)
    requires Submap(left, m)
    ensures left == m - (m.Keys - left.Keys) && left.Keys == m.Keys - (m.Keys - left.Keys)
  {}

  /** `1 << shard_bits`. */
  function ShardCount(bits: nat): (n: nat)
    ensures n > 0
  {
    if bits == 0 then 1 else 2 * ShardCount(bits - 1)
  }

  lemma {:induction false} MoreBits(a: nat, b: nat)
    requires a <= b
    ensures ShardCount(a) <= ShardCount(b)
  {
    if a < b {
      MoreBits(a, b - 1);
    }
  }

  lemma AtMostMax(bits: nat)
    requires bits <= 12
    ensures ShardCount(bits) <= MAX_SHARDS
  {
    MoreBits(bits, 12);
    assert ShardCount(12) == MAX_SHARDS;
  }

  /** `GlobalCache`. */
  class GlobalCache {
    var shards: seq<Shard>
    var live: seq<nat>
    const maxPerShard: nat
    const staleWindow: nat
    var gen: nat
    var hits: nat
    var misses: nat
    var staleHits: nat

    ghost predicate Valid()
      reads this
    {
      Sound(shards, live, gen, maxPerShard)
    }

    ghost function Contents(): Shard
      requires Valid()
      reads this
    {
      Flat(shards)
    }

    constructor (shardBits: nat, maxPerShard: nat, staleWindow: nat)
      requires 0 < shardBits <= 12
      ensures Valid() && Contents() == map[]
      ensures this.maxPerShard == maxPerShard && this.staleWindow == staleWindow && gen == 1
      ensures Sum(live) == 0 && |shards| == ShardCount(shardBits)
    {
      var n := 2;
      for k := 1 to shardBits
        invariant n == ShardCount(k)
      {
        n := 2 * n;
      }
      shards := seq(n, _ => map[]);
      live := seq(n, _ => 0);
      this.maxPerShard, this.staleWindow := maxPerShard, staleWindow;
      gen, hits, misses, staleHits := 1, 0, 0, 0;
      new;
      AtMostMax(shardBits);
      SumZero(live);
      assert KeysIn(shards) == {};
    }

    method ShardOf(key: Key) returns (i: nat)
      requires 0 < |shards| <= MAX_SHARDS
      ensures i == ShardIndex(key, |shards|)
    {
      hide Place, HashFrom;
      var h := DnsNameHash(key.owner);
      i := Place(h, key, |shards|);
    }

    method Find(key: Key, now: Time) returns (r: Lookup)
      requires Valid()
      modifies this`hits, this`misses, this`staleHits
      ensures Valid() && Contents() == old(Contents()) && r == LookupIn(Contents(), key, now)
      ensures hits + misses + staleHits == old(hits + misses + staleHits) + 1
    {
      hide ShardIndex, Flat;
      var i := ShardOf(key);
      FlatAt(shards, key);
      if key in shards[i] && shards[i][key].Fresh(now) {
        hits := hits + 1;
        r := FreshHit(shards[i][key]);
      } else if key in shards[i] && shards[i][key].ServableStale(now) {
        staleHits := staleHits + 1;
        r := StaleHit(shards[i][key]);
      } else {
        misses := misses + 1;
        r := Miss;
      }
    }

    /** Inserts an entry; `dropped` are the keys eviction removed from its shard beforehand. */
    method Insert(key: Key, rcode: Byte, answer: seq<Byte>, ttl: nat, secure: bool, now: Time)
      returns (ghost dropped: set<Key>)
      requires Valid()
      modifies this`shards, this`live, this`gen
      ensures Valid() && gen == old(gen) + 1 && |shards| == old(|shards|)
      ensures Contents() == (old(Contents()) - dropped)[key := NewEntry(rcode, answer, ttl, secure, now, staleWindow,
              old(gen))]
      ensures MadeRoom(ShardView(old(Contents()), key, |shards|), dropped, now, maxPerShard)
      ensures Sum(live) - |Contents()| == old(Sum(live) - |Contents()|) + |dropped|
    {
      hide ShardIndex, Flat, Sound, Placed, Evicted, NewEntry, Submap, DistinctGens, Sum, ShardView,
        MadeRoom;
      SoundParts(shards, live, gen, maxPerShard);
      NewEntryGen(rcode, answer, ttl, secure, now, staleWindow, gen);
      var entry := NewEntry(rcode, answer, ttl, secure, now, staleWindow, gen);
      gen := gen + 1;
      var i := ShardOf(key);
      ShardGens(shards, i);
      var left;
      left, dropped := MakeRoom(shards[i], now, maxPerShard);
      InsertSound(shards, live, old(gen), maxPerShard, left, key, entry);
      FlatInsert(shards, left, key, entry);
      InsertAccounts(shards, live, left, dropped, key, entry);
      if key in left {
        assert live[i := live[i]] == live;
      } else {
        live := live[i := live[i] + 1];
      }
      shards := shards[i := left[key := entry]];
    }

    method Flush()
      requires Valid()
      modifies this`shards, this`live
      ensures Valid() && Contents() == map[] && Sum(live) == 0 && |shards| == old(|shards|)
    {
      shards := seq(|shards|, _ => map[]);
      live := seq(|live|, _ => 0);
      SumZero(live);
      assert KeysIn(shards) == {};
    }

    /** `len`: the counters, which never fall behind the entries but may run ahead of them. */
    method Len() returns (n: nat)
      requires Valid()
      ensures n == Sum(live) && |Contents()| <= n
    {
      n := 0;
      for i := 0 to |live|
        invariant n == Sum(live[..i])
      {
        assert live[..i + 1][..i] == live[..i];
        n := n + live[i];
      }
      assert live[..|live|] == live && shards[..|shards|] == shards;
      CountersCover(shards, live, |shards|);
      assert Contents().Keys == KeysIn(shards);
      assert |Contents()| == |Contents().Keys|;
    }

    method Snapshot(now: Time) returns (entries: seq<(Key, Entry)>)
      requires Valid()
      ensures IsSnapshot(Contents(), now, entries)
    {
      hide ShardIndex, Order.Sort, Flat;
      var found: seq<(Key, Entry)> := [];
      for i := 0 to |shards|
        invariant multiset(found) == multiset(ItemsBelow(shards, i, now))
      {
        var items := LiveOf(shards[i], now);
        ItemsStep(shards, i, now);
        found := found + items;
      }
      AllItems(shards, now);
      entries := Order.Sort(found, SnapLeq);
      SnapLeqPreorder();
      Order.SortPermutes(found, SnapLeq);
      Order.SortSorts(found, SnapLeq);
    }

    /** One operation, as `FlatStep` says. */
    method Do(c: Config, op: Op, ghost gen0: nat, ghost lost: nat) returns (reply: Reply, ghost gone: set<Key>)
      requires Valid() && gen == gen0 && staleWindow == c.staleWindow && maxPerShard == c.maxPerShard
      requires |shards| == Shards(c) && Sum(live) == |Contents()| + lost
      modifies this
      ensures Valid() && |shards| == Shards(c)
      ensures gen == gen0 + if op.InsertOp? then 1 else 0
      ensures FlatStep(c, old(Contents()), op, gone, gen0, lost, reply, Contents())
      ensures Sum(live) == |Contents()| + if op.FlushOp? then 0 else lost + |gone|
    {
      hide Sound, IsSnapshot, NewEntry, LookupIn, Flat, MadeRoom, ShardView, Sum, Shards;
      gone := {};
      reply := Done;
      match op
      case InsertOp(key, rcode, answer, ttl, secure, now) =>
        gone := Insert(key, rcode, answer, ttl, secure, now);
      case FindOp(key, now) =>
        var lookup := Find(key, now);
        reply := Found(lookup);
      case SnapshotOp(now) =>
        var entries := Snapshot(now);
        reply := Listed(entries);
      case LenOp =>
        var n := Len();
        reply := Counted(n);
      case FlushOp => Flush();
    }
  }

  function NewEntry(rcode: Byte, answer: seq<Byte>, ttl: nat, secure: bool, now: Time, staleWindow: nat,
                    gen: nat): Entry {
    var clamped := ClampTtl(ttl, rcode);
    Entry(rcode, answer, now, now + clamped, now + clamped + staleWindow, secure, gen)
  }

  ghost function ItemsBelow(shards: seq<Shard>, n: nat, now: Time): set<(Key, Entry)>
    requires n <= |shards|
  {
    set i, k | 0 <= i < n && k in shards[i] && shards[i][k].Servable(now) :: (k, shards[i][k])
  }

  lemma ItemsStep(shards: seq<Shard>, i: nat, now: Time)
    requires Placed(shards) && i < |shards|
    ensures ItemsBelow(shards, i + 1, now) == ItemsBelow(shards, i, now) + LiveItems(shards[i], now)
    ensures ItemsBelow(shards, i, now) !! LiveItems(shards[i], now)
  {
    hide ShardIndex;
    forall x | x in ItemsBelow(shards, i, now) ensures x !in LiveItems(shards[i], now) {
      var j :| 0 <= j < i && x.0 in shards[j];
      assert ShardIndex(x.0, |shards|) == j;
    }
  }

  lemma AllItems(shards: seq<Shard>, now: Time)
    requires Placed(shards)
    ensures ItemsBelow(shards, |shards|, now) == LiveItems(Flat(shards), now)
  {
    hide ShardIndex, Flat;
    forall x ensures x in ItemsBelow(shards, |shards|, now) <==> x in LiveItems(Flat(shards), now) {
      FlatAt(shards, x.0);
    }
  }

  datatype Op =
    | InsertOp(key: Key, rcode: Byte, answer: seq<Byte>, ttl: nat, secure: bool, now: Time)
    | FindOp(key: Key, now: Time)
    | SnapshotOp(now: Time)
    | LenOp
    | FlushOp

  datatype Reply = Done | Found(lookup: Lookup) | Listed(entries: seq<(Key, Entry)>) | Counted(n: nat)

  /** The generation the next insertion gets. */
  function GenAfter(ops: seq<Op>): nat {
    if ops == [] then 1 else GenAfter(ops[..|ops| - 1]) + (if ops[|ops| - 1].InsertOp? then 1 else 0)
  }

  /** How many entries eviction took since the last flush. */
  ghost function Lost(ops: seq<Op>, dropped: seq<set<Key>>): nat
    requires |ops| == |dropped|
  {
    if ops == [] || ops[|ops| - 1].FlushOp? then 0
    else Lost(ops[..|ops| - 1], dropped[..|ops| - 1]) + |dropped[|ops| - 1]|
  }

  datatype Config_ = Config(shardBits: nat, maxPerShard: nat, staleWindow: nat)

  /** The constructor asserts 1 to 12 shard bits. */
  type Config = c: Config_ | 0 < c.shardBits <= 12 witness Config(1, 0, 0)

  function Shards(c: Config): (n: nat)
    ensures 0 < n <= MAX_SHARDS
  {
    AtMostMax(c.shardBits);
    ShardCount(c.shardBits)
  }

  /** One operation on one flat map; `dropped` is what eviction takes before an insertion, from
      the entries that share a shard with the new one. */
  ghost predicate FlatStep(c: Config, flat: Shard, op: Op, dropped: set<Key>, gen: nat, lost: nat, reply: Reply,
                           flat': Shard) {
    match op
    case InsertOp(key, rcode, answer, ttl, secure, now) =>
      && MadeRoom(ShardView(flat, key, Shards(c)), dropped, now, c.maxPerShard)
      && flat' == (flat - dropped)[key := NewEntry(rcode, answer, ttl, secure, now, c.staleWindow, gen)] && reply ==
          Done
    case LenOp => flat' == flat && dropped == {} && reply == Counted(|flat| + lost)
    case FindOp(key, now) => flat' == flat && dropped == {} && reply == Found(LookupIn(flat, key, now))
    case SnapshotOp(now) => flat' == flat && dropped == {} && reply.Listed? && IsSnapshot(flat, now, reply.entries)
    case FlushOp => flat' == map[] && dropped == {} && reply == Done
  }

  /** No shard's part of a flat map outgrows the limit. */
  ghost predicate Bounded(c: Config, flat: Shard) {
    forall key: Key :: |ShardView(flat, key, Shards(c))| <= Max(1, c.maxPerShard)
  }

  lemma SoundBounded(c: Config, shards: seq<Shard>, live: seq<nat>, gen: nat)
    requires Sound(shards, live, gen, c.maxPerShard) && |shards| == Shards(c)
    ensures Bounded(c, Flat(shards))
  {
    hide ShardIndex, Flat, ShardView, DistinctGens, Shards;
    forall key: Key ensures |ShardView(Flat(shards), key, Shards(c))| <= Max(1, c.maxPerShard) {
      ShardViewed(shards, key);
    }
  }

  /** A run as one flat map sees it: the replies, the map before and after each operation, and
      what eviction took. */
  ghost predicate Trace(c: Config, ops: seq<Op>, replies: seq<Reply>, flats: seq<Shard>, dropped: seq<set<Key>>) {
    && |replies| == |dropped| == |ops| && |flats| == |ops| + 1 && flats[0] == map[]
    && (forall i :: 0 <= i <= |ops| ==> Bounded(c, flats[i]))
    && (forall i :: 0 <= i < |ops| ==> TraceStep(c, ops, replies, flats, dropped, i))
  }

  ghost predicate TraceStep(c: Config, ops: seq<Op>, replies: seq<Reply>, flats: seq<Shard>, dropped: seq<set<Key>>,
                            i: nat)
    requires i < |ops| && |replies| == |dropped| == |ops| && |flats| == |ops| + 1
  {
    FlatStep(c, flats[i], ops[i], dropped[i], GenAfter(ops[..i]), Lost(ops[..i], dropped[..i]), replies[i],
        flats[i + 1])
  }

  /** Any run of the sharded cache gives the replies of one flat map under the same evictions.
      `len` counts what is there and what eviction took since the last flush. */
  method Run(c: Config, ops: seq<Op>)
    returns (replies: seq<Reply>, ghost flats: seq<Shard>, ghost dropped: seq<set<Key>>)
    ensures Trace(c, ops, replies, flats, dropped)
  {
    hide Sound, Flat, FlatStep, GenAfter, Lost, Shards, MadeRoom, Bounded;
    var cache := new GlobalCache(c.shardBits, c.maxPerShard, c.staleWindow);
    replies, flats, dropped := [], [cache.Contents()], [];
    NoneYet();
    ConfiguredShards(c);
    SoundBounded(c, cache.shards, cache.live, cache.gen);
    for i := 0 to |ops|
      invariant cache.Valid() && cache.staleWindow == c.staleWindow && cache.maxPerShard == c.maxPerShard
      invariant |cache.shards| == Shards(c) && cache.gen == GenAfter(ops[..i])
      invariant |replies| == |dropped| == i && |flats| == i + 1
      invariant flats[0] == map[] && flats[i] == cache.Contents()
      invariant forall j :: 0 <= j <= i ==> Bounded(c, flats[j])
      invariant Sum(cache.live) == |cache.Contents()| + Lost(ops[..i], dropped[..i])
      invariant forall j :: 0 <= j < i ==>
                  FlatStep(c, flats[j], ops[j], dropped[j], GenAfter(ops[..j]), Lost(ops[..j], dropped[..j]),
                      replies[j],
                           flats[j + 1])
    {
      ghost var lost := Lost(ops[..i], dropped[..i]);
      ghost var before := flats[i];
      var reply;
      ghost var gone;
      reply, gone := cache.Do(c, ops[i], GenAfter(ops[..i]), lost);
      assert FlatStep(c, before, ops[i], gone, GenAfter(ops[..i]), lost, reply, cache.Contents());
      OneMore(ops, i, dropped, gone);
      SoundBounded(c, cache.shards, cache.live, cache.gen);
      replies, flats, dropped := replies + [reply], flats + [cache.Contents()], dropped + [gone];
    }
  }

  lemma ConfiguredShards(c: Config)
    ensures Shards(c) == ShardCount(c.shardBits)
  {}

  lemma NoneYet()
    ensures GenAfter([]) == 1 && Lost([], []) == 0
  {}

  lemma OneMore(ops: seq<Op>, i: nat, dropped: seq<set<Key>>, gone: set<Key>)
    requires i < |ops| && |dropped| == i
    ensures GenAfter(ops[..i + 1]) == GenAfter(ops[..i]) + if ops[i].InsertOp? then 1 else 0
    ensures Lost(ops[..i + 1], (dropped + [gone])[..i + 1]) ==
            if ops[i].FlushOp? then 0 else Lost(ops[..i], dropped[..i]) + |gone|
    ensures forall j :: 0 <= j <= i ==> (dropped + [gone])[..j] == dropped[..j]
  {
    assert ops[..i + 1][..i] == ops[..i];
    assert (dropped + [gone])[..i + 1][..i] == dropped[..i];
  }
}
