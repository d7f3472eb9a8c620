/** Ranking the catalog by distance from the client (`pick_closest_servers`).
    The great-circle distance is floating point and is not modelled: the
    caller supplies it as `roundedKm`, the distance already rounded to whole
    kilometres and converted to an unsigned integer, which is all the ranking
    looks at. */
module ServerSelection {
  import opened Base
  import opened Config
  import opened OrderedMap

  /** At most this many servers are picked. */
  const MaxServers: nat := 5

  /** `geo::calc_distance_in_km(a, b).round() as u64` */
  type RoundedDistance = (Location, Location) -> nat

  /** The key a server is filed under: its rounded distance from the client. */
  function DistanceKey(clientLocation: Location, s: TestServer, roundedKm: RoundedDistance): nat {
    roundedKm(clientLocation, Location(s.latitude, s.longitude))
  }

  /** The (key, server) pairs inserted into the distance map, in catalog order. */
  function DistanceEntries(clientLocation: Location, servers: seq<TestServer>, roundedKm: RoundedDistance)
    : (e: seq<(nat, TestServer)>)
    ensures |e| == |servers|
    ensures forall i :: 0 <= i < |servers| ==> e[i] == (DistanceKey(clientLocation, servers[i], roundedKm), servers[i])
  {
    seq(|servers|, i requires 0 <= i < |servers| => (DistanceKey(clientLocation, servers[i], roundedKm), servers[i]))
  }

  /** The distance map after the first loop of `pick_closest_servers`. */
  function DistanceMap(clientLocation: Location, servers: seq<TestServer>, roundedKm: RoundedDistance)
    : Entries<TestServer>
  {
    InsertAll(DistanceEntries(clientLocation, servers, roundedKm))
  }


  /** The servers stored in the first `n` entries of a map, in key order. */
  function FirstValues(m: Entries<TestServer>, n: nat): (vs: seq<TestServer>)
    requires n <= |m|
    ensures |vs| == n
    ensures forall i :: 0 <= i < n ==> vs[i] == m[i].1
  {
    seq(n, i requires 0 <= i < n => m[i].1)
  }

  /** The servers appended by `pick_closest_servers`: the values of the
      distance map in ascending key order, at most `MaxServers` of them. */
  function ClosestServers(clientLocation: Location, servers: seq<TestServer>, roundedKm: RoundedDistance)
    : seq<TestServer>
  {
    var m := DistanceMap(clientLocation, servers, roundedKm);
    FirstValues(m, Min(MaxServers, |m|))
  }

  /** `pick_closest_servers`: file every server under its rounded distance (a
      later server replaces an earlier one with the same key), then walk the
      map in ascending key order appending a field-by-field copy of each
      server, stopping after five. The source appends to the caller's vector;
      here the extended vector is returned. */
  method PickClosestServers(clientLocation: Location, allTestServers: seq<TestServer>,
                            result: seq<TestServer>, roundedKm: RoundedDistance)
    returns (extended: seq<TestServer>)
    ensures extended == result + ClosestServers(clientLocation, allTestServers, roundedKm)
  {
    ghost var entries := DistanceEntries(clientLocation, allTestServers, roundedKm);
    var distanceMap: Entries<TestServer> := [];
    for i := 0 to |allTestServers|
      invariant distanceMap == InsertAll(entries[..i])
    {
      var server := allTestServers[i];
      var dist := roundedKm(clientLocation, Location(server.latitude, server.longitude));
      assert entries[..i + 1][..i] == entries[..i];
      distanceMap := Insert(distanceMap, dist, server);
    }
    assert entries[..|allTestServers|] == entries;

    var count := 0;
    extended := result;
    for i := 0 to |distanceMap|
      invariant count == i < MaxServers
      invariant extended == result + FirstValues(distanceMap, i)
    {
      var v := distanceMap[i].1;
      count := count + 1;
      extended := extended + [TestServer(v.url, v.latitude, v.longitude, v.name, v.country,
                                         v.countryCode, v.id, v.url2, v.host)];
      if count >= MaxServers {
        break;
      }
    }
  }

  /** The distinct rounded distances of the catalog. */
  function DistinctKeys(clientLocation: Location, servers: seq<TestServer>, roundedKm: RoundedDistance): set<nat> {
    set i | 0 <= i < |servers| :: DistanceKey(clientLocation, servers[i], roundedKm)
  }

  /** No later catalog server has the same rounded distance as server `idx`. */
  predicate LastAtItsDistance(clientLocation: Location, servers: seq<TestServer>, roundedKm: RoundedDistance, idx: nat) {
    idx < |servers| &&
    forall j :: idx < j < |servers| ==>
      DistanceKey(clientLocation, servers[j], roundedKm) != DistanceKey(clientLocation, servers[idx], roundedKm)
  }

  /** `s` is a catalog server with no later catalog server at its rounded
      distance. */
  ghost predicate IsLastAtItsDistance(clientLocation: Location, servers: seq<TestServer>, roundedKm: RoundedDistance, s: TestServer) {
    exists idx: nat :: LastAtItsDistance(clientLocation, servers, roundedKm, idx) && servers[idx] == s
  }

  /** Each entry of the distance map holds, under key `k`, the last catalog
      server whose rounded distance is `k`. */
  lemma MapEntryIsLastServerWithKey(clientLocation: Location, servers: seq<TestServer>, roundedKm: RoundedDistance, p: nat)
    returns (idx: nat)
    requires p < |DistanceMap(clientLocation, servers, roundedKm)|
    ensures idx < |servers|
    ensures servers[idx] == DistanceMap(clientLocation, servers, roundedKm)[p].1
    ensures DistanceKey(clientLocation, servers[idx], roundedKm) == DistanceMap(clientLocation, servers, roundedKm)[p].0
    ensures forall j :: idx < j < |servers| ==> DistanceKey(clientLocation, servers[j], roundedKm) != DistanceMap(clientLocation, servers, roundedKm)[p].0
  {
    idx := EntryOrigin(DistanceEntries(clientLocation, servers, roundedKm), p);
  }

  /** The map holds one entry per distinct rounded distance. */
  lemma DistanceMapSize(clientLocation: Location, servers: seq<TestServer>, roundedKm: RoundedDistance)
    ensures |DistanceMap(clientLocation, servers, roundedKm)| == |DistinctKeys(clientLocation, servers, roundedKm)|
    ensures KeySet(DistanceMap(clientLocation, servers, roundedKm)) == DistinctKeys(clientLocation, servers, roundedKm)
  {
    var entries := DistanceEntries(clientLocation, servers, roundedKm);
    var m := InsertAll(entries);
    SortedSize(m);
    forall k | k in KeySet(m) ensures k in DistinctKeys(clientLocation, servers, roundedKm) {
      var p :| 0 <= p < |m| && m[p].0 == k;
      var i := EntryOrigin(entries, p);
      assert DistanceKey(clientLocation, servers[i], roundedKm) == k;
    }
    forall k | k in DistinctKeys(clientLocation, servers, roundedKm) ensures k in KeySet(m) {
      var i :| 0 <= i < |servers| && DistanceKey(clientLocation, servers[i], roundedKm) == k;
      var p := KeyInsertedIsInMap(entries, i);
      assert m[p].0 == k;
    }
    assert KeySet(m) == DistinctKeys(clientLocation, servers, roundedKm);
  }

  /** At most five servers are picked, and fewer only when the catalog has
      fewer distinct rounded distances. */
  lemma ClosestServersCount(clientLocation: Location, servers: seq<TestServer>, roundedKm: RoundedDistance)
    ensures |ClosestServers(clientLocation, servers, roundedKm)|
            == Min(MaxServers, |DistinctKeys(clientLocation, servers, roundedKm)|)
  {
    DistanceMapSize(clientLocation, servers, roundedKm);
  }

  /** The picked servers come from the catalog, in strictly increasing order
      of rounded distance, and each is the LAST catalog server at its rounded
      distance: on a tie the later server replaces the earlier one. */
  lemma ClosestServersOrderedAndLastWins(clientLocation: Location, servers: seq<TestServer>, roundedKm: RoundedDistance)
    ensures var r := ClosestServers(clientLocation, servers, roundedKm);
            forall i, j :: 0 <= i < j < |r| ==>
              DistanceKey(clientLocation, r[i], roundedKm) < DistanceKey(clientLocation, r[j], roundedKm)
    ensures var r := ClosestServers(clientLocation, servers, roundedKm);
            forall i :: 0 <= i < |r| ==> IsLastAtItsDistance(clientLocation, servers, roundedKm, r[i])
  {
    var m := DistanceMap(clientLocation, servers, roundedKm);
    var r := ClosestServers(clientLocation, servers, roundedKm);
    forall i | 0 <= i < |r|
      ensures DistanceKey(clientLocation, r[i], roundedKm) == m[i].0
      ensures IsLastAtItsDistance(clientLocation, servers, roundedKm, r[i])
    {
      var idx := MapEntryIsLastServerWithKey(clientLocation, servers, roundedKm, i);
      assert r[i] == m[i].1;
      assert LastAtItsDistance(clientLocation, servers, roundedKm, idx) && servers[idx] == r[i];
    }
    forall i, j | 0 <= i < j < |r|
      ensures DistanceKey(clientLocation, r[i], roundedKm) < DistanceKey(clientLocation, r[j], roundedKm)
    {
      assert m[i].0 < m[j].0;
    }
  }

  /** The picked servers are the nearest: every catalog server either shares
      its rounded distance with a picked one, or five were picked and all of
      them are strictly nearer. */
  lemma ClosestServersAreNearest(clientLocation: Location, servers: seq<TestServer>, roundedKm: RoundedDistance, j: nat)
    requires j < |servers|
    ensures var r := ClosestServers(clientLocation, servers, roundedKm);
            var k := DistanceKey(clientLocation, servers[j], roundedKm);
            (exists i :: 0 <= i < |r| && DistanceKey(clientLocation, r[i], roundedKm) == k)
            || (|r| == MaxServers && forall i :: 0 <= i < |r| ==> DistanceKey(clientLocation, r[i], roundedKm) < k)
  {
    var m := DistanceMap(clientLocation, servers, roundedKm);
    var r := ClosestServers(clientLocation, servers, roundedKm);
    var k := DistanceKey(clientLocation, servers[j], roundedKm);
    DistanceMapSize(clientLocation, servers, roundedKm);
    assert k in KeySet(m);
    var p :| 0 <= p < |m| && m[p].0 == k;
    ClosestServersOrderedAndLastWins(clientLocation, servers, roundedKm);
    forall i | 0 <= i < |r| ensures DistanceKey(clientLocation, r[i], roundedKm) == m[i].0 {
      var idx := MapEntryIsLastServerWithKey(clientLocation, servers, roundedKm, i);
    }
    if p >= |r| {
      assert |r| == MaxServers;
    }
  }

  /** Three servers at 10, 10 and 50 km: the second of the two tied servers
      replaces the first, so two servers are picked, nearest first. */
  lemma TiedServersKeepTheLater()
    ensures var near1 := TestServer("a", Float32(1), Float32Zero, "A", "", "", 1, "", "");
            var near2 := TestServer("b", Float32(1), Float32Zero, "B", "", "", 2, "", "");
            var far := TestServer("c", Float32(2), Float32Zero, "C", "", "", 3, "", "");
            var km: RoundedDistance := (a: Location, b: Location) => if b.lat == Float32(1) then 10 else 50;
            ClosestServers(Location(Float32Zero, Float32Zero), [near1, near2, far], km) == [near2, far]
  {
    var near1 := TestServer("a", Float32(1), Float32Zero, "A", "", "", 1, "", "");
    var near2 := TestServer("b", Float32(1), Float32Zero, "B", "", "", 2, "", "");
    var far := TestServer("c", Float32(2), Float32Zero, "C", "", "", 3, "", "");
    var km: RoundedDistance := (a: Location, b: Location) => if b.lat == Float32(1) then 10 else 50;
    var client := Location(Float32Zero, Float32Zero);
    var e := DistanceEntries(client, [near1, near2, far], km);
    assert e == [(10, near1), (10, near2), (50, far)];
    assert e[..2][..1] == [(10, near1)];
    assert e[..1][..0] == e[..0];
    assert InsertAll(e[..1]) == [(10, near1)];
    assert InsertAll(e[..2]) == [(10, near2)];
    assert e[..|e| - 1] == e[..2];
    var two: Entries<TestServer> := [(10, near2)];
    assert Insert(two, 50, far) == [two[0]] + Insert(two[1..], 50, far);
    assert InsertAll(e) == [(10, near2), (50, far)];
  }
}
