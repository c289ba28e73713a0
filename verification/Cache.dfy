/** The sharded cache with its eviction policy (`src/cache_x.rs`). */
module Cache {
  import opened Bytes
  import Order

  type Time = int

  datatype Key = Key(owner: seq<Byte>, qtype: U16, qclass: U16)

  datatype Entry = Entry(rcode: Byte, answer: seq<Byte>, inserted: Time, expiresAt: Time, staleUntil: Time,
      secure: bool, gen: nat) {
    predicate Fresh(now: Time) { now < expiresAt }
    predicate ServableStale(now: Time) { expiresAt <= now < staleUntil }
    predicate Servable(now: Time) { Fresh(now) || ServableStale(now) }
  }

  type Shard = map<Key, Entry>

  datatype Lookup = FreshHit(entry: Entry) | StaleHit(entry: Entry) | Miss

  /** What one flat map answers. */
  function LookupIn(flat: Shard, key: Key, now: Time): Lookup {
    if key in flat && flat[key].Fresh(now) then FreshHit(flat[key])
    else if key in flat && flat[key].ServableStale(now) then StaleHit(flat[key])
    else Miss
  }

  /** `clamp_ttl`, in seconds. */
  function ClampTtl(ttl: nat, rcode: Byte): nat {
    var max := if rcode == 3 then 1800 else if rcode == 0 then 3600 else 86400;
    if ttl < 1 then 1 else if ttl > max then max else ttl
  }

  ghost predicate DistinctGens(m: Shard) {
    forall a, b :: a in m && b in m && m[a].gen == m[b].gen ==> a == b
  }

  ghost predicate Submap(m': Shard, m: Shard) {
    m'.Keys <= m.Keys && forall k :: k in m' ==> m'[k] == m[k]
  }

  function Min(a: nat, b: nat): nat { if a < b then a else b }

  /** What evicting `budget` entries may leave: exactly that many fewer; a servable entry goes
      only when no dead one is left, and then the oldest generations go. */
  ghost predicate Evicted(m: Shard, m': Shard, now: Time, budget: nat) {
    && Submap(m', m)
    && |m'| == |m| - Min(budget, |m|)
    && ((exists d :: d in m && d !in m' && m[d].Servable(now)) ==>
          forall k :: k in m' ==> m[k].Servable(now))
    && (forall d, k :: d in m && d !in m' && m[d].Servable(now) && k in m' ==> m[d].gen < m[k].gen)
  }

  predicate GenLeq(a: (nat, Key), b: (nat, Key)) { a.0 <= b.0 }

  lemma DropOne(m: Shard, k: Key)
    requires k in m
    ensures |m - {k}| == |m| - 1
  {
    assert (m - {k}).Keys == m.Keys - {k};
    assert |m| == |m.Keys|;
  }

  /** `retain`: drops up to `budget` dead entries, in whatever order the map is iterated. */
  method DropDead(m: Shard, now: Time, budget: nat) returns (left: Shard, removed: nat)
    ensures Submap(left, m) && removed <= budget && |left| == |m| - removed
    ensures forall d :: d in m && d !in left ==> !m[d].Servable(now)
    ensures removed < budget ==> forall k :: k in left ==> m[k].Servable(now)
  {
    left, removed := m, 0;
    var todo := m.Keys;
    while todo != {}
      invariant todo <= left.Keys && Submap(left, m) && removed <= budget && |left| == |m| - removed
      invariant forall d :: d in m && d !in left ==> !m[d].Servable(now)
      invariant removed < budget ==> forall k :: k in left && k !in todo ==> m[k].Servable(now)
      decreases todo
    {
      var k :| k in todo;
      todo := todo - {k};
      if removed < budget && !m[k].Servable(now) {
        DropOne(left, k);
        left := left - {k};
        removed := removed + 1;
      }
    }
  }

  /** The generations of a map's entries, in whatever order the map is iterated. */
  method Generations(m: Shard) returns (gens: seq<(nat, Key)>)
    ensures |gens| == |m|
    ensures forall i :: 0 <= i < |gens| ==> gens[i].1 in m && gens[i].0 == m[gens[i].1].gen
    ensures forall i, j :: 0 <= i < j < |gens| ==> gens[i].1 != gens[j].1
    ensures forall k :: k in m ==> (m[k].gen, k) in gens
  {
    gens := [];
    var todo := m.Keys;
    while todo != {}
      invariant todo <= m.Keys && |gens| == |m| - |todo|
      invariant forall i :: 0 <= i < |gens| ==> gens[i].1 in m && gens[i].1 !in todo && gens[i].0 == m[gens[i].1].gen
      invariant forall i, j :: 0 <= i < j < |gens| ==> gens[i].1 != gens[j].1
      invariant forall k :: k in m && k !in todo ==> (m[k].gen, k) in gens
      decreases todo
    {
      var k :| k in todo;
      todo := todo - {k};
      gens := gens + [(m[k].gen, k)];
    }
  }

  ghost function KeysOf(gens: seq<(nat, Key)>): set<Key> {
    set i | 0 <= i < |gens| :: gens[i].1
  }

  /** `gens` lists each entry of `m` once. */
  ghost predicate Lists(gens: seq<(nat, Key)>, m: Shard) {
    && |gens| == |m|
    && (forall x :: x in gens ==> x.1 in m && x.0 == m[x.1].gen)
    && (forall k :: k in m ==> (m[k].gen, k) in gens)
  }

  lemma SortedListsToo(gens: seq<(nat, Key)>, m: Shard)
    requires Lists(gens, m)
    ensures Lists(Order.Sort(gens, GenLeq), m)
    ensures forall i, j :: 0 <= i < j < |gens| ==> Order.Sort(gens, GenLeq)[i].0 <= Order.Sort(gens, GenLeq)[j].0
  {
    var s := Order.Sort(gens, GenLeq);
    Order.SortPermutes(gens, GenLeq);
    Order.SortSorts(gens, GenLeq);
    assert |s| == |multiset(s)| == |multiset(gens)| == |gens|;
    forall x ensures x in s <==> x in gens {
      assert x in multiset(s) <==> x in multiset(gens);
    }
  }

  /** A list of a map's entries as long as the map repeats nothing. */
  lemma ListedOnce(gens: seq<(nat, Key)>, m: Shard, n: nat)
    requires Lists(gens, m) && n <= |gens|
    ensures |KeysOf(gens[..n])| == n && KeysOf(gens[..n]) <= m.Keys
    ensures forall i, j :: 0 <= i < n <= j < |gens| ==> gens[i].1 != gens[j].1
  {
    var front, back := KeysOf(gens[..n]), KeysOf(gens[n..]);
    KeysAtMost(gens[..n]);
    KeysAtMost(gens[n..]);
    assert front <= m.Keys && back <= m.Keys by {
      assert forall i :: 0 <= i < n ==> gens[..n][i] in gens;
      assert forall i :: 0 <= i < |gens[n..]| ==> gens[n..][i] in gens;
    }
    forall k | k in m.Keys ensures k in front + back {
      var i :| 0 <= i < |gens| && gens[i] == (m[k].gen, k);
      if i < n {
        assert gens[..n][i].1 == k;
      } else {
        assert gens[n..][i - n].1 == k;
      }
    }
    assert m.Keys == front + back;
    assert |front + back| == |front| + |back| - |front * back|;
    assert |front * back| == 0;
    assert front * back == {};
    forall i, j | 0 <= i < n <= j < |gens| ensures gens[i].1 != gens[j].1 {
      assert gens[..n][i].1 in front && gens[n..][j - n].1 in back;
      assert gens[i].1 !in front * back;
    }
  }

  lemma {:induction false} KeysAtMost(gens: seq<(nat, Key)>)
    ensures |KeysOf(gens)| <= |gens|
  {
    if gens != [] {
      var n := |gens| - 1;
      KeysAtMost(gens[..n]);
      assert KeysOf(gens) == KeysOf(gens[..n]) + {gens[n].1};
    }
  }

  lemma DropMany(m: Shard, ks: set<Key>)
    requires ks <= m.Keys
    ensures |m - ks| == |m| - |ks|
  {
    assert (m - ks).Keys == m.Keys - ks;
    assert |m| == |m.Keys|;
  }

  /** Dropping the first `n` of the sorted generations leaves only newer ones. */
  lemma OldestDropped(m: Shard, gens: seq<(nat, Key)>, n: nat)
    requires Lists(gens, m) && n <= |gens| && DistinctGens(m)
    requires forall i, j :: 0 <= i < j < |gens| ==> gens[i].0 <= gens[j].0
    ensures KeysOf(gens[..n]) <= m.Keys && |m - KeysOf(gens[..n])| == |m| - n
    ensures forall d, k :: d in KeysOf(gens[..n]) && k in m - KeysOf(gens[..n]) ==> m[d].gen < m[k].gen
  {
    var gone := KeysOf(gens[..n]);
    ListedOnce(gens, m, n);
    DropMany(m, gone);
    forall t | 0 <= t < n ensures gens[t].1 in gone {
      assert gens[..n][t] == gens[t];
    }
    forall d, k | d in gone && k in m - gone ensures m[d].gen < m[k].gen {
      var i :| 0 <= i < n && gens[..n][i].1 == d;
      var j :| 0 <= j < |gens| && gens[j] == (m[k].gen, k);
      assert gens[i] in gens && n <= j;
    }
  }

  /** Dead entries first, then the oldest of the rest. */
  lemma TwoPhases(m: Shard, alive: Shard, gone: set<Key>, now: Time, budget: nat, removed: nat)
    requires Submap(alive, m) && removed < budget && |alive| == |m| - removed
    requires forall d :: d in m && d !in alive ==> !m[d].Servable(now)
    requires forall k :: k in alive ==> m[k].Servable(now)
    requires gone <= alive.Keys && |alive - gone| == |alive| - Min(budget - removed, |alive|)
    requires forall d, k :: d in gone && k in alive - gone ==> alive[d].gen < alive[k].gen
    ensures Evicted(m, alive - gone, now, budget)
  {
    var left := alive - gone;
    forall d, k | d in m && d !in left && m[d].Servable(now) && k in left ensures m[d].gen < m[k].gen {
      assert d in gone;
    }
  }

  /** `evict_expired_or_oldest`. */
  method Evict(m: Shard, now: Time, budget: nat) returns (left: Shard)
    requires DistinctGens(m)
    ensures Evicted(m, left, now, budget)
  {
    hide Order.Sort, Lists;
    var alive, removed := DropDead(m, now, budget);
    if removed >= budget || |alive| == 0 {
      return alive;
    }
    var gens := Generations(alive);
    var sorted := Order.Sort(gens, GenLeq);
    var n := Min(budget - removed, |alive|);
    ghost var gone := OldestOf(alive, gens, sorted, n);
    TwoPhases(m, alive, gone, now, budget, removed);
    left := DropFirst(alive, sorted, n);
  }

  lemma OldestOf(m: Shard, gens: seq<(nat, Key)>, sorted: seq<(nat, Key)>, n: nat) returns (gone: set<Key>)
    requires DistinctGens(m) && n <= |m| == |gens| && sorted == Order.Sort(gens, GenLeq)
    requires forall i :: 0 <= i < |gens| ==> gens[i].1 in m && gens[i].0 == m[gens[i].1].gen
    requires forall k :: k in m ==> (m[k].gen, k) in gens
    ensures n <= |sorted| && gone == KeysOf(sorted[..n]) && gone <= m.Keys && |m - gone| == |m| - n
    ensures forall d, k :: d in gone && k in m - gone ==> m[d].gen < m[k].gen
  {
    hide Order.Sort, DistinctGens, KeysOf;
    SortedListsToo(gens, m);
    OldestDropped(m, sorted, n);
    gone := KeysOf(sorted[..n]);
  }

  method DropFirst(m: Shard, sorted: seq<(nat, Key)>, n: nat) returns (left: Shard)
    requires n <= |sorted|
    ensures left == m - KeysOf(sorted[..n])
  {
    left := m;
    for i := 0 to n
      invariant left == m - KeysOf(sorted[..i])
    {
      assert KeysOf(sorted[..i + 1]) == KeysOf(sorted[..i]) + {sorted[i].1} by {
        assert sorted[..i + 1] == sorted[..i] + [sorted[i]];
      }
      left := left - {sorted[i].1};
    }
  }
}
