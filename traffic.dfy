/** The Traffic page's connector list: the per-connector statistics of the
    proxy, flattened to named entries and ordered by total bytes, busiest first. */
module Traffic {
  import opened Wrappers

  /** Statistics of one connector. `bytesIn` and `bytesOut` are the `in` and
      `out` byte counts; `details` holds the remaining numeric fields, which
      the page copies without reading. */
  datatype ConnectorTraffic = ConnectorTraffic(bytesIn: nat, bytesOut: nat, details: map<string, int>)

  /** `{ name, ...connector[name] }`. */
  datatype NamedTraffic = NamedTraffic(name: string, traffic: ConnectorTraffic)

  /** The polled statistics, as far as this list uses them. */
  datatype TrafficData = TrafficData(connector: map<string, ConnectorTraffic>)

  /** The sort key: `in + out`. */
  function Total(e: NamedTraffic): nat
  {
    e.traffic.bytesIn + e.traffic.bytesOut
  }

  /** The entries for the given connector names. */
  function EntriesOf(connector: map<string, ConnectorTraffic>, names: set<string>): set<NamedTraffic>
  {
    set name | name in names && name in connector :: NamedTraffic(name, connector[name])
  }

  /** Totals never increase from first to last. */
  predicate BusiestFirst(s: seq<NamedTraffic>)
  {
    forall p, q :: 0 <= p < q < |s| ==> Total(s[p]) >= Total(s[q])
  }

  /** Exchanges `a[k - 1]` and `a[k]`. */
  method SwapDown(a: array<NamedTraffic>, k: nat)
    requires 0 < k < a.Length
    modifies a
    ensures a[..] == old(a[..])[k - 1 := old(a[k])][k := old(a[k - 1])]
    ensures multiset(a[..]) == old(multiset(a[..]))
  {
    a[k - 1], a[k] := a[k], a[k - 1];
  }

  /** While `s[j]` moves left within `s[..i + 1]`: the other entries of that
      prefix are busiest first, and `s[j]` is busier than every entry after it. */
  ghost predicate Inserting(s: seq<NamedTraffic>, i: nat, j: nat)
  {
    j <= i < |s| &&
    (forall p, q :: 0 <= p < q <= i && p != j && q != j ==> Total(s[p]) >= Total(s[q])) &&
    (forall q :: j < q <= i ==> Total(s[j]) > Total(s[q]))
  }

  /** Exchanging `s[j]` with a less busy left neighbour keeps the insertion going. */
  lemma SwapKeepsInserting(s: seq<NamedTraffic>, i: nat, j: nat)
    requires Inserting(s, i, j) && 0 < j && Total(s[j - 1]) < Total(s[j])
    ensures Inserting(s[j - 1 := s[j]][j := s[j - 1]], i, j - 1)
  {
  }

  /** Once `s[j]` is no busier than its left neighbour, the prefix is sorted. */
  lemma InsertingDone(s: seq<NamedTraffic>, i: nat, j: nat)
    requires Inserting(s, i, j) && (j == 0 || Total(s[j - 1]) >= Total(s[j]))
    ensures BusiestFirst(s[..i + 1])
  {
    forall p, q | 0 <= p < q <= i ensures Total(s[p]) >= Total(s[q]) {
      if q == j && p < j - 1 {
        assert Total(s[p]) >= Total(s[j - 1]);
      }
    }
  }

  /** Moves `a[i]` left past every entry with a smaller total, so that the
      busiest-first prefix grows by one. */
  method InsertLeft(a: array<NamedTraffic>, i: nat)
    requires i < a.Length
    requires BusiestFirst(a[..i])
    modifies a
    ensures BusiestFirst(a[..i + 1])
    ensures a[i + 1..] == old(a[i + 1..])
    ensures multiset(a[..]) == old(multiset(a[..]))
  {
    var j: nat := i;
    while j > 0 && Total(a[j - 1]) < Total(a[j])
      invariant Inserting(a[..], i, j)
      invariant a[i + 1..] == old(a[i + 1..])
      invariant multiset(a[..]) == old(multiset(a[..]))
    {
      SwapKeepsInserting(a[..], i, j);
      SwapDown(a, j);
      j := j - 1;
    }
    InsertingDone(a[..], i, j);
  }

  /** `result.sort((a, b) => b.in + b.out - (a.in + a.out))`, in place. */
  method SortBusiestFirst(a: array<NamedTraffic>)
    modifies a
    ensures BusiestFirst(a[..])
    ensures multiset(a[..]) == old(multiset(a[..]))
  {
    var i := 0;
    while i < a.Length
      invariant 0 <= i <= a.Length
      invariant BusiestFirst(a[..i])
      invariant multiset(a[..]) == old(multiset(a[..]))
    {
      InsertLeft(a, i);
      i := i + 1;
    }
    assert a[..a.Length] == a[..];
  }

  /** `getSortedTraffic(connector)`: nothing before any statistics have
      arrived; otherwise one entry per connector, busiest first. */
  method GetSortedTraffic(traffic: Option<TrafficData>, connector: map<string, ConnectorTraffic>)
    returns (result: seq<NamedTraffic>)
    ensures traffic.None? ==> result == []
    ensures traffic.Some? ==> multiset(result) == multiset(EntriesOf(connector, connector.Keys))
    ensures traffic.Some? ==> |result| == |connector|
    ensures traffic.Some? ==> forall e :: e in result ==> e.name in connector && e.traffic == connector[e.name]
    ensures forall i, j :: 0 <= i < j < |result| ==> result[i].name != result[j].name
    ensures BusiestFirst(result)
  {
    if traffic.None? {
      return [];
    }
    // Object.keys(connector).forEach(name => result.push(...)); the key order
    // is left open here.
    var pushed: seq<NamedTraffic> := [];
    var remaining := connector.Keys;
    while remaining != {}
      invariant remaining <= connector.Keys
      invariant multiset(pushed) == multiset(EntriesOf(connector, connector.Keys - remaining))
      invariant |pushed| + |remaining| == |connector|
      decreases |remaining|
    {
      var name :| name in remaining;
      var entry := NamedTraffic(name, connector[name]);
      ghost var done := connector.Keys - remaining;
      assert entry !in EntriesOf(connector, done);
      assert EntriesOf(connector, done + {name}) == EntriesOf(connector, done) + {entry};
      pushed := pushed + [entry];
      remaining := remaining - {name};
      assert connector.Keys - remaining == done + {name};
    }
    assert connector.Keys - remaining == connector.Keys;
    var a := new NamedTraffic[|pushed|](i requires 0 <= i < |pushed| => pushed[i]);
    assert a[..] == pushed;
    SortBusiestFirst(a);
    result := a[..];
    EntriesPermutation(connector, result);
  }

  /** A sequence with the entries' multiset holds each connector exactly once,
      under its own name and with its own statistics. */
  lemma EntriesPermutation(connector: map<string, ConnectorTraffic>, result: seq<NamedTraffic>)
    requires multiset(result) == multiset(EntriesOf(connector, connector.Keys))
    ensures forall e :: e in result ==> e.name in connector && e.traffic == connector[e.name]
    ensures forall name :: name in connector ==> multiset(result)[NamedTraffic(name, connector[name])] == 1
    ensures forall i, j :: 0 <= i < j < |result| ==> result[i].name != result[j].name
  {
    forall e | e in result ensures e.name in connector && e.traffic == connector[e.name] {
      assert e in multiset(result);
    }
    forall i, j | 0 <= i < j < |result| ensures result[i].name != result[j].name {
      if result[i].name == result[j].name {
        assert result[i] == result[j] by {
          assert result[i] in result && result[j] in result;
        }
        MultisetAtLeastTwo(result, i, j);
      }
    }
  }

  /** An element found at two positions counts at least twice. */
  lemma {:induction false} MultisetAtLeastTwo(s: seq<NamedTraffic>, i: nat, j: nat)
    requires i < j < |s| && s[i] == s[j]
    ensures multiset(s)[s[i]] >= 2
  {
    assert s == s[..j] + [s[j]] + s[j + 1..];
    assert s[i] in s[..j];
    assert multiset(s) == multiset(s[..j]) + multiset{s[j]} + multiset(s[j + 1..]);
  }
}
