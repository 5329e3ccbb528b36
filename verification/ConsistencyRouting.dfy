/** Which shards are expected to hold a collection, from the routing metadata. */
module ConsistencyRouting {
  import opened Sorting
  import opened ConsistencyExactness
  import opened ConsistencyVerdict
  import CanonicalIndex

  /** A field of the collection's routing document; `isTrue` when its value is the Boolean true. */
  datatype Field = Field(key: string, isTrue: bool)

  /** What a chunk says about its shard. */
  datatype Chunk = OnShard(shard: string) | NoShard

  datatype Snapshot = Failed | Snapshot(sharded: bool, expected: seq<string>)

  ghost predicate Dropped(metadata: seq<Field>) {
    exists i :: 0 <= i < |metadata| && metadata[i].key == "dropped" && metadata[i].isTrue
  }

  ghost predicate Usable(c: Chunk) { c.OnShard? && !CanonicalIndex.Blank(c.shard) }

  ghost function ShardsOf(chunks: seq<Chunk>): set<string> {
    set i | 0 <= i < |chunks| && chunks[i].OnShard? :: chunks[i].shard
  }

  /** `indexRoutingSnapshot`. The expected shards are those that own a chunk, each once and in order,
      which is what the comparison of shards relies on. */
  method RoutingSnapshot(metadata: seq<Field>, chunks: seq<Chunk>) returns (r: Snapshot)
    ensures metadata == [] || Dropped(metadata) ==> r == Snapshot(false, [])
    ensures metadata != [] && !Dropped(metadata) ==>
              (r == Failed <==> exists i :: 0 <= i < |chunks| && !Usable(chunks[i]))
    ensures metadata != [] && !Dropped(metadata) && r != Failed ==> r == Snapshot(true, SortedKeys(ShardsOf(chunks)))
    ensures r.Snapshot? ==> NoDuplicates(r.expected) && "" !in r.expected
  {
    hide CanonicalIndex.Blank, SortedKeys;
    if |metadata| == 0 { return Snapshot(false, []); }
    for i := 0 to |metadata|
      invariant !Dropped(metadata[..i])
    {
      if metadata[i].key == "dropped" && metadata[i].isTrue { return Snapshot(false, []); }
      assert metadata[..i + 1] == metadata[..i] + [metadata[i]];
    }
    assert metadata[..|metadata|] == metadata;
    var shards: set<string> := {};
    for i := 0 to |chunks|
      invariant shards == ShardsOf(chunks[..i])
      invariant forall k :: 0 <= k < i ==> Usable(chunks[k])
    {
      if chunks[i].NoShard? { return Failed; }
      var blank := CanonicalIndex.IsBlank(chunks[i].shard);
      if blank { return Failed; }
      assert chunks[..i + 1] == chunks[..i] + [chunks[i]];
      assert ShardsOf(chunks[..i + 1]) == ShardsOf(chunks[..i]) + {chunks[i].shard};
      shards := shards + {chunks[i].shard};
    }
    assert chunks[..|chunks|] == chunks;
    var expected := MapKeys(shards);
    forall i, j | 0 <= i < j < |expected|
      ensures expected[i] != expected[j]
    {
      NoRepeats(expected, shards, i, j);
    }
    NoBlankShard(chunks);
    r := Snapshot(true, expected);
  }

  lemma NoBlankShard(chunks: seq<Chunk>)
    requires forall k :: 0 <= k < |chunks| ==> Usable(chunks[k])
    ensures "" !in SortedKeys(ShardsOf(chunks))
  {
    hide SortedKeys;
    SortedKeysMembers(ShardsOf(chunks), "");
    forall i | 0 <= i < |chunks|
      ensures chunks[i].shard != ""
    {
      assert Usable(chunks[i]);
    }
  }
}
