/** What the session hands out is a copy: `cloneClusterInfo`, the cached topology behind
    `clusterTopology`, and `detectCluster`, which writes the shards' addresses into what it got. */
module InventoryCopies {

  datatype Shard = Shard(id: string, host: string)

  /** The parts of a text between slashes. */
  function SplitAtSlash(s: string): (parts: seq<string>)
    ensures parts != []
  {
    if s == [] then [[]]
    else
      var rest := SplitAtSlash(s[1..]);
      if s[0] == '/' then [[]] + rest else [[s[0]] + rest[0]] + rest[1..]
  }

  /** `Shard.GetUri`: the part behind the only slash, or nothing. */
  function GetUri(shard: Shard): string {
    var parts := SplitAtSlash(shard.host);
    if |parts| != 2 then "" else parts[1]
  }

  lemma {:induction false} SplitPlain(s: string)
    requires '/' !in s
    ensures SplitAtSlash(s) == [s]
  {
    if s != [] {
      SplitPlain(s[1..]);
      assert s == [s[0]] + s[1..];
    }
  }

  lemma {:induction false} SplitAt(a: string, b: string)
    requires '/' !in a
    ensures SplitAtSlash(a + "/" + b) == [a] + SplitAtSlash(b)
  {
    var s := a + "/" + b;
    if a == [] {
      assert s[1..] == b;
    } else {
      SplitAt(a[1..], b);
      assert s[1..] == a[1..] + "/" + b;
      assert a == [a[0]] + a[1..];
    }
  }

  lemma {:induction false} JoinedAgain(s: string)
    ensures var parts := SplitAtSlash(s);
      && (|parts| == 1 ==> s == parts[0] && '/' !in s)
      && (|parts| == 2 ==> s == parts[0] + "/" + parts[1] && '/' !in parts[0] && '/' !in parts[1])
  {
    if s != [] {
      JoinedAgain(s[1..]);
      assert s == [s[0]] + s[1..];
    }
  }

  /** A host has an address if and only if it is written as replica set and non-empty address with a
      single slash between them, and then that is the address; any other host has none. */
  lemma UriOfHost(shard: Shard, address: string)
    requires address != ""
    ensures GetUri(shard) == address <==>
      '/' !in address && exists replicaSet :: '/' !in replicaSet && shard.host == replicaSet + "/" + address
  {
    if GetUri(shard) == address { JoinedAgain(shard.host); }
    if replicaSet: string :| '/' !in address && '/' !in replicaSet && shard.host == replicaSet + "/" + address {
      SplitAt(replicaSet, address);
      SplitPlain(address);
    }
  }

  /** A Go map, which copies of a struct share. */
  class ReplMap {
    var entries: map<string, string>
    constructor ()
      ensures entries == map[]
    {
      entries := map[];
    }
  }

  datatype View = View(sharded: bool, maxWireVersion: int, repl: map<string, string>)

  class ClusterInfo {
    var sharded: bool
    var maxWireVersion: int
    var repl: ReplMap

    constructor (sharded: bool, maxWireVersion: int, repl: ReplMap)
      ensures this.sharded == sharded && this.maxWireVersion == maxWireVersion && this.repl == repl
    {
      this.sharded, this.maxWireVersion, this.repl := sharded, maxWireVersion, repl;
    }

    ghost function Seen(): View
      reads this, repl
    {
      View(sharded, maxWireVersion, repl.entries)
    }
  }

  /** A new struct with a new map, filled in the order the range statement picks. */
  method CloneClusterInfo(source: ClusterInfo?) returns (copy: ClusterInfo?)
    ensures source == null <==> copy == null
    ensures copy != null ==> fresh(copy) && fresh(copy.repl) && copy.Seen() == source.Seen()
  {
    if source == null { return null; }
    var entries := new ReplMap();
    var todo := source.repl.entries.Keys;
    while todo != {}
      invariant todo <= source.repl.entries.Keys
      invariant entries.entries == map k | k in source.repl.entries.Keys - todo :: source.repl.entries[k]
      decreases todo
    {
      var name :| name in todo;
      entries.entries := entries.entries[name := source.repl.entries[name]];
      todo := todo - {name};
    }
    copy := new ClusterInfo(source.sharded, source.maxWireVersion, entries);
  }

  /** The addresses of the shards over what was there, a later shard of the same name last. */
  ghost function Overlay(repl: map<string, string>, shards: seq<Shard>): map<string, string>
    decreases |shards|
  {
    if shards == [] then repl else Overlay(repl[shards[0].id := GetUri(shards[0])], shards[1..])
  }

  lemma {:induction false} OverlayAppend(repl: map<string, string>, shards: seq<Shard>, last: Shard)
    ensures Overlay(repl, shards + [last]) == Overlay(repl, shards)[last.id := GetUri(last)]
    decreases |shards|
  {
    if shards == [] {
      assert (shards + [last])[1..] == [];
    } else {
      OverlayAppend(repl[shards[0].id := GetUri(shards[0])], shards[1..], last);
      assert (shards + [last])[1..] == shards[1..] + [last];
    }
  }

  /** An entry is the address of the last shard of that name, and otherwise what it was. */
  lemma {:induction false} OverlayEntries(repl: map<string, string>, shards: seq<Shard>, i: nat)
    requires i < |shards| && forall j :: i < j < |shards| ==> shards[j].id != shards[i].id
    ensures shards[i].id in Overlay(repl, shards) && Overlay(repl, shards)[shards[i].id] == GetUri(shards[i])
    decreases |shards|
  {
    var repl' := repl[shards[0].id := GetUri(shards[0])];
    if i > 0 {
      OverlayEntries(repl', shards[1..], i - 1);
    } else {
      OverlayElsewhere(repl', shards[1..], shards[0].id);
    }
  }

  lemma {:induction false} OverlayElsewhere(repl: map<string, string>, shards: seq<Shard>, name: string)
    requires forall j :: 0 <= j < |shards| ==> shards[j].id != name
    ensures name in Overlay(repl, shards) <==> name in repl
    ensures name in repl ==> Overlay(repl, shards)[name] == repl[name]
    decreases |shards|
  {
    if shards != [] {
      OverlayElsewhere(repl[shards[0].id := GetUri(shards[0])], shards[1..], name);
    }
  }

  /** Different structs with different maps. */
  ghost predicate Separate(infos: seq<ClusterInfo>)
    reads infos
  {
    forall i, j :: 0 <= i < j < |infos| ==> infos[i] != infos[j] && infos[i].repl != infos[j].repl
  }

  class Session {
    var topology: ClusterInfo?

    constructor ()
      ensures topology == null
    {
      topology := null;
    }

    /** The cached topology, or the one that `loaded` shows if there is none yet. */
    ghost function Known(loaded: ClusterInfo): View
      reads this, topology, if topology == null then {} else {topology.repl}, loaded, loaded.repl
    {
      if topology == null then loaded.Seen() else topology.Seen()
    }

    /** The function that singleflight runs: another look at the cache, else `loaded`, the server's
        answer. A copy of it is stored, and another copy is the result that all who wait share. */
    method Load(loaded: ClusterInfo) returns (result: ClusterInfo)
      modifies this
      ensures topology != null && (old(topology) != null ==> topology == old(topology))
      ensures old(topology) == null ==> fresh(topology) && fresh(topology.repl)
      ensures topology.Seen() == old(Known(loaded)) == result.Seen()
      ensures fresh(result) && fresh(result.repl) && result != topology && result.repl != topology.repl
    {
      var cached := CloneClusterInfo(topology);
      if cached != null { return cached; }
      topology := CloneClusterInfo(loaded);
      result := CloneClusterInfo(topology);
    }

    /** `clusterTopology` for callers that join one load: each gets a copy of the shared result. */
    method JoinLoad(loaded: ClusterInfo, callers: nat) returns (copies: seq<ClusterInfo>, ghost shared: ClusterInfo)
      modifies this
      ensures topology != null && (old(topology) != null ==> topology == old(topology))
      ensures old(topology) == null ==> fresh(topology) && fresh(topology.repl)
      ensures topology.Seen() == old(Known(loaded)) == shared.Seen()
      ensures |copies| == callers && Separate([topology, shared] + copies)
      ensures fresh(shared) && fresh(shared.repl)
      ensures forall i :: 0 <= i < callers ==> fresh(copies[i]) && fresh(copies[i].repl) && copies[i].Seen() == old(Known(loaded))
    {
      var result := Load(loaded);
      shared, copies := result, [];
      while |copies| < callers
        invariant |copies| <= callers
        invariant forall i :: 0 <= i < |copies| ==> fresh(copies[i]) && fresh(copies[i].repl) && copies[i].Seen() == old(Known(loaded))
        invariant Separate([topology, shared] + copies)
        modifies {}
      {
        var copy := CloneClusterInfo(result);
        assert [topology, shared] + (copies + [copy]) == ([topology, shared] + copies) + [copy];
        copies := copies + [copy];
      }
    }

    /** `clusterTopology`. `loaded` is used at most if nothing is cached. */
    method ClusterTopology(loaded: ClusterInfo) returns (copy: ClusterInfo)
      modifies this
      ensures topology != null && (old(topology) != null ==> topology == old(topology))
      ensures old(topology) == null ==> fresh(topology) && fresh(topology.repl)
      ensures topology.Seen() == old(Known(loaded)) == copy.Seen()
      ensures fresh(copy) && fresh(copy.repl) && copy != topology && copy.repl != topology.repl
    {
      var cached := CloneClusterInfo(topology);
      if cached != null { return cached; }
      var result := Load(loaded);
      copy := CloneClusterInfo(result);
    }

    /** The addresses go into the copy: what the session keeps is what it was. */
    method DetectCluster(loaded: ClusterInfo, shards: seq<Shard>) returns (info: ClusterInfo?)
      modifies this
      ensures topology != null && (old(topology) != null ==> topology == old(topology))
      ensures topology.Seen() == old(Known(loaded))
      ensures info == null <==> topology.sharded && exists i :: 0 <= i < |shards| && GetUri(shards[i]) == ""
      ensures info != null ==>
                && fresh(info) && fresh(info.repl) && info != topology && info.repl != topology.repl
                && info.Seen() == if topology.sharded then topology.Seen().(repl := Overlay(topology.repl.entries, shards)) else topology.Seen()
    {
      info := ClusterTopology(loaded);
      if !info.sharded { return; }
      ghost var start := info.repl.entries;
      var i := 0;
      while i < |shards|
        invariant 0 <= i <= |shards|
        invariant topology != null && (old(topology) != null ==> topology == old(topology))
        invariant info != null && fresh(info) && fresh(info.repl) && info != topology && info.repl != topology.repl
        invariant topology.Seen() == old(Known(loaded))
        invariant info.sharded && info.maxWireVersion == topology.maxWireVersion
        invariant info.repl.entries == Overlay(start, shards[..i])
        invariant forall j :: 0 <= j < i ==> GetUri(shards[j]) != ""
      {
        var uri := GetUri(shards[i]);
        if uri == "" { return null; }
        OverlayAppend(start, shards[..i], shards[i]);
        assert shards[..i + 1] == shards[..i] + [shards[i]];
        info.repl.entries := info.repl.entries[shards[i].id := uri];
        i := i + 1;
      }
      assert shards[..i] == shards;
    }
  }

  /** Whatever a caller writes into what it was given, the next caller reads the same as it did. */
  method ReadersAreIndependent(session: Session, loaded: ClusterInfo, other: ClusterInfo, shards: seq<Shard>, scribble: map<string, string>)
    returns (first: View, second: View)
    modifies session
    ensures first == second == old(session.Known(loaded))
  {
    var a := session.ClusterTopology(loaded);
    first := View(a.sharded, a.maxWireVersion, a.repl.entries);
    a.repl.entries := scribble;
    a.sharded := !a.sharded;
    var b := session.DetectCluster(other, shards);
    if b != null { b.repl.entries := scribble; }
    var c := session.ClusterTopology(other);
    second := View(c.sharded, c.maxWireVersion, c.repl.entries);
  }

  /** Callers that share one load do not share what they get: what one of them writes is seen neither
      by the others nor by those who come later. */
  method WaitersAreIndependent(session: Session, loaded: ClusterInfo, callers: nat, writer: nat, scribble: map<string, string>)
    returns (copies: seq<ClusterInfo>, later: View)
    requires writer < callers
    modifies session
    ensures |copies| == callers && copies[writer].repl.entries == scribble
    ensures forall i :: 0 <= i < callers && i != writer ==> copies[i].Seen() == old(session.Known(loaded))
    ensures later == old(session.Known(loaded))
  {
    ghost var shared;
    copies, shared := session.JoinLoad(loaded, callers);
    ghost var all := [session.topology, shared] + copies;
    assert forall i :: 0 <= i < callers ==> all[i + 2] == copies[i];
    assert all[0] == session.topology;
    copies[writer].repl.entries := scribble;
    copies[writer].sharded := !copies[writer].sharded;
    var c := session.ClusterTopology(loaded);
    later := View(c.sharded, c.maxWireVersion, c.repl.entries);
  }
}
