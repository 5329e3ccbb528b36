/** Where a slow query was seen: the session's index, filled from every summary, against the search
    through a summary that it replaces. */
module SlowlogIndex {

  datatype Item = Item(queryHash: string)
  datatype Database = Database(database: string, items: seq<Item>)
  datatype Host = Host(address: string, databases: seq<Database>)
  datatype ReplicaSet = ReplicaSet(hosts: seq<Host>)
  datatype Summary = Summary(replicaSets: seq<ReplicaSet>)

  /** One occurrence of a query. */
  datatype Row = Row(database: string, queryHash: string, address: string)

  // ----- the occurrences of a summary, in order -----

  ghost function ItemRows(database: string, address: string, items: seq<Item>): (r: seq<Row>) {
    seq(|items|, i requires 0 <= i < |items| => Row(database, items[i].queryHash, address))
  }

  ghost function DatabaseRows(address: string, databases: seq<Database>): seq<Row> {
    if databases == [] then []
    else ItemRows(databases[0].database, address, databases[0].items) + DatabaseRows(address, databases[1..])
  }

  ghost function HostRows(hosts: seq<Host>): seq<Row> {
    if hosts == [] then [] else DatabaseRows(hosts[0].address, hosts[0].databases) + HostRows(hosts[1..])
  }

  ghost function Rows(sets: seq<ReplicaSet>): seq<Row> {
    if sets == [] then [] else HostRows(sets[0].hosts) + Rows(sets[1..])
  }

  lemma {:induction false} RowsConcat(a: seq<ReplicaSet>, b: seq<ReplicaSet>)
    ensures Rows(a + b) == Rows(a) + Rows(b)
  {
    hide HostRows;
    if a == [] {
      assert a + b == b;
    } else {
      RowsConcat(a[1..], b);
      assert (a + b)[1..] == a[1..] + b && (a + b)[0] == a[0];
      assert Rows(a + b) == HostRows(a[0].hosts) + (Rows(a[1..]) + Rows(b));
    }
  }

  // ----- searching -----

  ghost predicate Matches(row: Row, database: string, queryHash: string) {
    row.database == database && row.queryHash == queryHash
  }

  /** The address of the first occurrence, or nothing. */
  ghost function FirstMatch(rows: seq<Row>, database: string, queryHash: string): string {
    if rows == [] then ""
    else if Matches(rows[0], database, queryHash) then rows[0].address
    else FirstMatch(rows[1..], database, queryHash)
  }

  ghost predicate HasMatch(rows: seq<Row>, database: string, queryHash: string) {
    exists i :: 0 <= i < |rows| && Matches(rows[i], database, queryHash)
  }

  lemma {:induction false} FirstMatchConcat(a: seq<Row>, b: seq<Row>, database: string, queryHash: string)
    ensures FirstMatch(a + b, database, queryHash) ==
      if HasMatch(a, database, queryHash) then FirstMatch(a, database, queryHash) else FirstMatch(b, database, queryHash)
  {
    if a == [] {
      assert a + b == b;
    } else {
      FirstMatchConcat(a[1..], b, database, queryHash);
      assert (a + b)[1..] == a[1..] + b;
      assert HasMatch(a, database, queryHash) <==> Matches(a[0], database, queryHash) || HasMatch(a[1..], database, queryHash) by {
        assert forall i :: 0 < i < |a| ==> a[i] == a[1..][i - 1];
      }
    }
  }

  lemma HasMatchConcat(a: seq<Row>, b: seq<Row>, database: string, queryHash: string)
    ensures HasMatch(a + b, database, queryHash) <==> HasMatch(a, database, queryHash) || HasMatch(b, database, queryHash)
  {
    var s := a + b;
    assert forall i :: 0 <= i < |a| ==> s[i] == a[i];
    assert forall i :: 0 <= i < |b| ==> s[|a| + i] == b[i];
  }

  /** What is known after a search: whether there was an occurrence, and the address of the first. */
  ghost predicate Found(rows: seq<Row>, database: string, queryHash: string, found: bool, address: string) {
    && (found <==> HasMatch(rows, database, queryHash))
    && (found ==> address == FirstMatch(rows, database, queryHash))
  }

  /** The two inner loops. */
  method FindInHost(host: Host, database: string, queryHash: string) returns (found: bool, address: string)
    ensures Found(DatabaseRows(host.address, host.databases), database, queryHash, found, address)
  {
    hide FirstMatch;
    var databases := host.databases;
    var k := 0;
    while k < |databases|
      invariant k <= |databases|
      invariant forall f, x :: Found(DatabaseRows(host.address, databases[k..]), database, queryHash, f, x) ==>
                  Found(DatabaseRows(host.address, databases), database, queryHash, f, x)
    {
      ghost var rows := ItemRows(databases[k].database, host.address, databases[k].items);
      ghost var rest := DatabaseRows(host.address, databases[k + 1..]);
      assert DatabaseRows(host.address, databases[k..]) == rows + rest;
      FirstMatchConcat(rows, rest, database, queryHash);
      HasMatchConcat(rows, rest, database, queryHash);
      if databases[k].database == database {
        var items := databases[k].items;
        var n := 0;
        while n < |items|
          invariant n <= |items| && forall m :: 0 <= m < n ==> items[m].queryHash != queryHash
        {
          if items[n].queryHash == queryHash {
            FirstMatchAt(rows, n, database, queryHash);
            assert Matches(rows[n], database, queryHash);
            return true, host.address;
          }
          n := n + 1;
        }
      }
      assert !HasMatch(rows, database, queryHash);
      k := k + 1;
    }
    assert databases[k..] == [];
    return false, "";
  }

  lemma {:induction false} FirstMatchAt(rows: seq<Row>, i: nat, database: string, queryHash: string)
    requires i < |rows| && Matches(rows[i], database, queryHash)
    requires forall j :: 0 <= j < i ==> !Matches(rows[j], database, queryHash)
    ensures FirstMatch(rows, database, queryHash) == rows[i].address
  {
    if i > 0 {
      FirstMatchAt(rows[1..], i - 1, database, queryHash);
    }
  }

  /** `findSlowlogAddress`. */
  method FindSlowlogAddress(summary: Summary, database: string, queryHash: string) returns (address: string)
    ensures address == FirstMatch(Rows(summary.replicaSets), database, queryHash)
  {
    hide FirstMatch, HasMatch, DatabaseRows;
    var sets := summary.replicaSets;
    ghost var wanted := FirstMatch(Rows(sets), database, queryHash);
    var i := 0;
    while i < |sets|
      invariant i <= |sets| && wanted == FirstMatch(Rows(sets[i..]), database, queryHash)
    {
      var hosts := sets[i].hosts;
      ghost var rest := Rows(sets[i + 1..]);
      assert Rows(sets[i..]) == HostRows(hosts) + rest;
      var j := 0;
      while j < |hosts|
        invariant j <= |hosts| && wanted == FirstMatch(HostRows(hosts[j..]) + rest, database, queryHash)
      {
        ghost var rows, more := DatabaseRows(hosts[j].address, hosts[j].databases), HostRows(hosts[j + 1..]) + rest;
        assert HostRows(hosts[j..]) == rows + HostRows(hosts[j + 1..]);
        assert HostRows(hosts[j..]) + rest == rows + more;
        FirstMatchConcat(rows, more, database, queryHash);
        var found, located := FindInHost(hosts[j], database, queryHash);
        if found { return located; }
        j := j + 1;
      }
      assert HostRows(hosts[j..]) + rest == rest;
      i := i + 1;
    }
    assert sets[i..] == [];
    NothingFound(database, queryHash);
    return "";
  }

  lemma NothingFound(database: string, queryHash: string)
    ensures FirstMatch([], database, queryHash) == ""
  {
  }

  // ----- the index -----

  datatype Key = Key(database: string, queryHash: string)

  /** Go's map access: a missing key reads as the empty text. */
  ghost function Lookup(locations: map<Key, string>, key: Key): string {
    if key in locations then locations[key] else ""
  }

  ghost function RecordRow(locations: map<Key, string>, row: Row): map<Key, string> {
    var key := Key(row.database, row.queryHash);
    if key.database == "" || key.queryHash == "" || Lookup(locations, key) != "" then locations
    else locations[key := row.address]
  }

  ghost function Recorded(locations: map<Key, string>, rows: seq<Row>): map<Key, string>
    decreases |rows|
  {
    if rows == [] then locations else Recorded(RecordRow(locations, rows[0]), rows[1..])
  }

  lemma {:induction false} RecordedConcat(locations: map<Key, string>, a: seq<Row>, b: seq<Row>)
    ensures Recorded(locations, a + b) == Recorded(Recorded(locations, a), b)
    decreases |a|
  {
    if a == [] {
      assert a + b == b;
    } else {
      RecordedConcat(RecordRow(locations, a[0]), a[1..], b);
      assert (a + b)[1..] == a[1..] + b;
    }
  }

  lemma NothingRecorded(locations: map<Key, string>)
    ensures Recorded(locations, []) == locations
  {
  }

  lemma OneRow(locations: map<Key, string>, key: Key, address: string)
    ensures RecordRow(locations, Row(key.database, key.queryHash, address)) ==
      if key.database == "" || key.queryHash == "" || Lookup(locations, key) != "" then locations else locations[key := address]
  {
  }

  /** The address of the first occurrence that has one. */
  ghost function FirstKnown(rows: seq<Row>, database: string, queryHash: string): string {
    if rows == [] then ""
    else if Matches(rows[0], database, queryHash) && rows[0].address != "" then rows[0].address
    else FirstKnown(rows[1..], database, queryHash)
  }

  lemma {:induction false} RecordedFinds(locations: map<Key, string>, rows: seq<Row>, database: string, queryHash: string)
    requires database != "" && queryHash != ""
    ensures var known := Lookup(locations, Key(database, queryHash));
      Lookup(Recorded(locations, rows), Key(database, queryHash)) == if known != "" then known else FirstKnown(rows, database, queryHash)
    decreases |rows|
  {
    if rows != [] {
      RecordedFinds(RecordRow(locations, rows[0]), rows[1..], database, queryHash);
    }
  }

  lemma {:induction false} EmptyKeysAreNotRecorded(locations: map<Key, string>, rows: seq<Row>, key: Key)
    requires key.database == "" || key.queryHash == ""
    ensures Lookup(Recorded(locations, rows), key) == Lookup(locations, key)
    decreases |rows|
  {
    if rows != [] {
      EmptyKeysAreNotRecorded(RecordRow(locations, rows[0]), rows[1..], key);
    }
  }

  /** The summaries as one. */
  ghost function Together(summaries: seq<Summary>): seq<ReplicaSet> {
    if summaries == [] then [] else summaries[0].replicaSets + Together(summaries[1..])
  }

  lemma {:induction false} TogetherAppend(summaries: seq<Summary>, last: Summary)
    ensures Together(summaries + [last]) == Together(summaries) + last.replicaSets
  {
    if summaries == [] {
      assert summaries + [last] == [last] && [last][1..] == [];
    } else {
      TogetherAppend(summaries[1..], last);
      assert (summaries + [last])[1..] == summaries[1..] + [last];
    }
  }

  /** The part of the session that remembers where slow queries were seen. */
  class Locations {
    var locations: map<Key, string>
    ghost var summaries: seq<Summary>   // what was recorded so far

    /** The index is what the summaries make of an empty one. */
    ghost predicate Valid()
      reads this
    {
      locations == Recorded(map[], Rows(Together(summaries)))
    }

    constructor ()
      ensures Valid() && summaries == []
    {
      locations, summaries := map[], [];
    }

    /** `recordSlowlogLocations`. */
    method Record(summary: Summary)
      requires Valid()
      modifies this
      ensures Valid() && summaries == old(summaries) + [summary]
      ensures locations == Recorded(old(locations), Rows(summary.replicaSets))
    {
      hide Recorded, RecordRow, DatabaseRows;
      var sets := summary.replicaSets;
      ghost var wanted := Recorded(locations, Rows(sets));
      var i := 0;
      while i < |sets|
        invariant i <= |sets| && wanted == Recorded(locations, Rows(sets[i..])) && summaries == old(summaries)
      {
        var hosts := sets[i].hosts;
        ghost var rest := Rows(sets[i + 1..]);
        assert Rows(sets[i..]) == HostRows(hosts) + rest;
        var j := 0;
        while j < |hosts|
          invariant j <= |hosts| && wanted == Recorded(locations, HostRows(hosts[j..]) + rest) && summaries == old(summaries)
        {
          ghost var rows, more := DatabaseRows(hosts[j].address, hosts[j].databases), HostRows(hosts[j + 1..]) + rest;
          assert HostRows(hosts[j..]) == rows + HostRows(hosts[j + 1..]);
          assert HostRows(hosts[j..]) + rest == rows + more;
          RecordedConcat(locations, rows, more);
          RecordHost(hosts[j]);
          j := j + 1;
        }
        assert HostRows(hosts[j..]) + rest == rest;
        i := i + 1;
      }
      assert sets[i..] == [];
      NothingRecorded(locations);
      TogetherAppend(summaries, summary);
      RowsConcat(Together(summaries), sets);
      RecordedConcat(map[], Rows(Together(summaries)), Rows(sets));
      summaries := summaries + [summary];
    }

    /** The two inner loops. */
    method RecordHost(host: Host)
      modifies this`locations
      ensures locations == Recorded(old(locations), DatabaseRows(host.address, host.databases))
    {
      hide RecordRow;
      var databases := host.databases;
      ghost var wanted := Recorded(locations, DatabaseRows(host.address, databases));
      var k := 0;
      while k < |databases|
        invariant k <= |databases| && wanted == Recorded(locations, DatabaseRows(host.address, databases[k..]))
      {
        var database := databases[k];
        ghost var rows, rest := ItemRows(database.database, host.address, database.items), DatabaseRows(host.address, databases[k + 1..]);
        assert DatabaseRows(host.address, databases[k..]) == rows + rest;
        RecordedConcat(locations, rows, rest);
        ghost var before := locations;
        var n := 0;
        while n < |database.items|
          invariant n <= |database.items| && Recorded(locations, rows[n..]) == Recorded(before, rows)
        {
          var key := Key(database.database, database.items[n].queryHash);
          assert rows[n..][1..] == rows[n + 1..] && rows[n..][0] == Row(key.database, key.queryHash, host.address);
          assert Recorded(locations, rows[n..]) == Recorded(RecordRow(locations, rows[n]), rows[n + 1..]);
          n := n + 1;
          OneRow(locations, key, host.address);
          if key.database == "" || key.queryHash == "" || (key in locations && locations[key] != "") {
            continue;
          }
          locations := locations[key := host.address];
        }
        assert rows[n..] == [];
        k := k + 1;
      }
      assert databases[k..] == [];
    }

    /** `slowlogAddress`: where the query was first seen at an address, over all summaries recorded. */
    method SlowlogAddress(database: string, queryHash: string) returns (address: string)
      requires Valid()
      ensures database == "" || queryHash == "" ==> address == ""
      ensures database != "" && queryHash != "" ==> address == FirstKnown(Rows(Together(summaries)), database, queryHash)
    {
      hide Recorded, FirstKnown, Rows, Together;
      if database == "" || queryHash == "" {
        EmptyKeysAreNotRecorded(map[], Rows(Together(summaries)), Key(database, queryHash));
      } else {
        RecordedFinds(map[], Rows(Together(summaries)), database, queryHash);
      }
      address := if Key(database, queryHash) in locations then locations[Key(database, queryHash)] else "";
    }
  }

  // ----- the index against the search -----

  /** Whether an occurrence of the query has an address. */
  ghost predicate SomeAddress(rows: seq<Row>, database: string, queryHash: string) {
    exists i :: 0 <= i < |rows| && Matches(rows[i], database, queryHash) && rows[i].address != ""
  }

  lemma {:induction false} FirstKnownIsFirst(rows: seq<Row>, database: string, queryHash: string)
    ensures FirstKnown(rows, database, queryHash) != "" <==> SomeAddress(rows, database, queryHash)
    ensures FirstMatch(rows, database, queryHash) != "" ==> FirstKnown(rows, database, queryHash) == FirstMatch(rows, database, queryHash)
  {
    if rows != [] {
      var rest := rows[1..];
      FirstKnownIsFirst(rest, database, queryHash);
      assert forall i :: 0 <= i < |rest| ==> rest[i] == rows[i + 1];
      if SomeAddress(rows, database, queryHash) && !SomeAddress(rest, database, queryHash) {
        var i :| 0 <= i < |rows| && Matches(rows[i], database, queryHash) && rows[i].address != "";
      }
    }
  }

  /** The session's index after any summaries, in the order they came. */
  ghost function RecordedAll(locations: map<Key, string>, summaries: seq<Summary>): map<Key, string>
    decreases |summaries|
  {
    if summaries == [] then locations
    else RecordedAll(Recorded(locations, Rows(summaries[0].replicaSets)), summaries[1..])
  }

  lemma {:induction false} RecordedAllTogether(locations: map<Key, string>, summaries: seq<Summary>)
    ensures RecordedAll(locations, summaries) == Recorded(locations, Rows(Together(summaries)))
    decreases |summaries|
  {
    if summaries != [] {
      RecordedAllTogether(Recorded(locations, Rows(summaries[0].replicaSets)), summaries[1..]);
      RecordedConcat(locations, Rows(summaries[0].replicaSets), Rows(Together(summaries[1..])));
      RowsConcat(summaries[0].replicaSets, Together(summaries[1..]));
    }
  }

  /** The index answers as the search through all summaries would, exactly when: for a query with
      both names, the first occurrence has an address or none has; for one with an empty name, which
      the index never records, the search finds no address either. */
  lemma IndexAgreesExactly(summaries: seq<Summary>, database: string, queryHash: string)
    ensures var rows := Rows(Together(summaries));
      Lookup(RecordedAll(map[], summaries), Key(database, queryHash)) == FirstMatch(rows, database, queryHash)
      <==> if database == "" || queryHash == "" then FirstMatch(rows, database, queryHash) == ""
           else FirstMatch(rows, database, queryHash) != "" || !SomeAddress(rows, database, queryHash)
  {
    var rows := Rows(Together(summaries));
    RecordedAllTogether(map[], summaries);
    FirstKnownIsFirst(rows, database, queryHash);
    if database != "" && queryHash != "" {
      RecordedFinds(map[], rows, database, queryHash);
    } else {
      EmptyKeysAreNotRecorded(map[], rows, Key(database, queryHash));
    }
  }

  /** In particular when every host has an address, as hosts of a replica set do. */
  lemma IndexAgrees(summaries: seq<Summary>, database: string, queryHash: string)
    requires database != "" && queryHash != ""
    requires var rows := Rows(Together(summaries)); forall i :: 0 <= i < |rows| ==> rows[i].address != ""
    ensures Lookup(RecordedAll(map[], summaries), Key(database, queryHash)) == FirstMatch(Rows(Together(summaries)), database, queryHash)
  {
    var rows := Rows(Together(summaries));
    IndexAgreesExactly(summaries, database, queryHash);
    if FirstMatch(rows, database, queryHash) == "" {
      NoAddressNoMatch(rows, database, queryHash);
    }
  }

  lemma {:induction false} NoAddressNoMatch(rows: seq<Row>, database: string, queryHash: string)
    requires forall i :: 0 <= i < |rows| ==> rows[i].address != ""
    requires FirstMatch(rows, database, queryHash) == ""
    ensures !SomeAddress(rows, database, queryHash)
  {
    if rows != [] {
      NoAddressNoMatch(rows[1..], database, queryHash);
      assert forall i :: 0 < i < |rows| ==> rows[i] == rows[1..][i - 1];
    }
  }
}
