/**
 Per-connection statistics in user space: the map is a fold of the TCP events recorded since the
 last clear. What each row means, what the rows add up to, and which rows `print_top` shows.
 */
module StatsReporters {
  import opened Words

  datatype ConnectionKey = ConnectionKey(srcIp: nat, dstIp: nat, srcPort: nat, dstPort: nat, pid: nat)

  /** `comm` is the raw 16-byte field, NUL-padded. */
  datatype TcpEvent = TcpEvent(
    key: ConnectionKey, uid: nat, comm: string, timestampNs: U64,
    action: nat, bytesTx: U64, bytesRx: U64)

  const TCP_ACTION_CONNECT: nat := 0
  const TCP_ACTION_CLOSE: nat := 1

  datatype ConnectionStats = ConnectionStats(
    comm: string, uid: nat, bytesTx: U64, bytesRx: U64, connects: U64, timestamp: U64)

  const Blank := ConnectionStats("", 0, 0, 0, 0, 0)

  /** `std::string(raw, strnlen(raw, n))`: the longest prefix of at most `n` characters without a NUL. */
  function CString(raw: string, n: nat): (name: string)
    ensures name <= raw && |name| <= n && '\0' !in name
    ensures |name| < n && |name| < |raw| ==> raw[|name|] == '\0'
  {
    if n == 0 || raw == "" || raw[0] == '\0' then "" else [raw[0]] + CString(raw[1..], n - 1)
  }

  function Update(s: ConnectionStats, ev: TcpEvent): ConnectionStats {
    var s1 := s.(comm := CString(ev.comm, 16), uid := ev.uid, timestamp := ev.timestampNs);
    if ev.action == TCP_ACTION_CONNECT then s1.(connects := Add64(s.connects, 1))
    else s1.(bytesTx := Add64(s.bytesTx, ev.bytesTx), bytesRx := Add64(s.bytesRx, ev.bytesRx))
  }

  type Rows = map<ConnectionKey, ConnectionStats>

  function Row(m: Rows, key: ConnectionKey): ConnectionStats {
    if key in m then m[key] else Blank
  }

  function Recorded(m: Rows, ev: TcpEvent): Rows {
    m[ev.key := Update(Row(m, ev.key), ev)]
  }

  ghost function Fold(log: seq<TcpEvent>): Rows {
    if log == [] then map[] else Recorded(Fold(log[..|log| - 1]), log[|log| - 1])
  }

  // ---------- What the rows mean ----------

  /** What one event adds: a connect, or the bytes of a close. */
  datatype Amount = Connects | BytesTx | BytesRx

  function AmountOf(a: Amount, ev: TcpEvent): U64 {
    match a
    case Connects => if ev.action == TCP_ACTION_CONNECT then 1 else 0
    case BytesTx => if ev.action == TCP_ACTION_CONNECT then 0 else ev.bytesTx
    case BytesRx => if ev.action == TCP_ACTION_CONNECT then 0 else ev.bytesRx
  }

  function Field(a: Amount, s: ConnectionStats): U64 {
    match a
    case Connects => s.connects
    case BytesTx => s.bytesTx
    case BytesRx => s.bytesRx
  }

  /** The amount added up over the events whose key is in `keys`. */
  ghost function Total(log: seq<TcpEvent>, a: Amount, keys: set<ConnectionKey>): nat {
    if log == [] then 0
    else
      var ev := log[|log| - 1];
      Total(log[..|log| - 1], a, keys) + if ev.key in keys then AmountOf(a, ev) else 0
  }

  /** Over all events. */
  ghost function GrandTotal(log: seq<TcpEvent>, a: Amount): nat {
    if log == [] then 0 else GrandTotal(log[..|log| - 1], a) + AmountOf(a, log[|log| - 1])
  }

  /** The last event for a key. */
  ghost predicate IsLast(log: seq<TcpEvent>, i: nat, key: ConnectionKey) {
    i < |log| && log[i].key == key && forall j :: i < j < |log| ==> log[j].key != key
  }

  /** A row's counters are the log's totals for its key, modulo 2^64. */
  lemma {:induction false} RowTotals(log: seq<TcpEvent>, a: Amount, key: ConnectionKey)
    ensures Field(a, Row(Fold(log), key)) == Wrap(Total(log, a, {key}))
  {
    if log != [] {
      var before, ev := log[..|log| - 1], log[|log| - 1];
      RowTotals(before, a, key);
      WrapSum(Total(before, a, {key}), AmountOf(a, ev));
    }
  }

  /** A row exists when its key has an event, and shows the name, user and time of the last one. */
  lemma {:induction false} RowShowsLast(log: seq<TcpEvent>, key: ConnectionKey)
    ensures key in Fold(log) ==> exists i: nat :: IsLast(log, i, key)
    ensures key !in Fold(log) ==> forall i :: 0 <= i < |log| ==> log[i].key != key
    ensures forall i: nat :: IsLast(log, i, key) ==>
              && key in Fold(log)
              && Fold(log)[key].comm == CString(log[i].comm, 16)
              && Fold(log)[key].uid == log[i].uid && Fold(log)[key].timestamp == log[i].timestampNs
  {
    if log != [] {
      var n := |log| - 1;
      var before := log[..n];
      RowShowsLast(before, key);
      if log[n].key == key {
        assert IsLast(log, n, key);
      } else {
        assert forall i: nat :: IsLast(log, i, key) <==> IsLast(before, i, key);
      }
    }
  }

  // ---------- What the rows add up to ----------

  lemma {:induction false} OneMoreKey(log: seq<TcpEvent>, a: Amount, keys: set<ConnectionKey>, key: ConnectionKey)
    requires key !in keys
    ensures Total(log, a, keys + {key}) == Total(log, a, keys) + Total(log, a, {key})
  {
    if log != [] { OneMoreKey(log[..|log| - 1], a, keys, key); }
  }

  lemma {:induction false} NoKeys(log: seq<TcpEvent>, a: Amount)
    ensures Total(log, a, {}) == 0
  {
    if log != [] { NoKeys(log[..|log| - 1], a); }
  }

  lemma {:induction false} AllKeys(log: seq<TcpEvent>, a: Amount, keys: set<ConnectionKey>)
    requires forall i :: 0 <= i < |log| ==> log[i].key in keys
    ensures Total(log, a, keys) == GrandTotal(log, a)
  {
    if log != [] { AllKeys(log[..|log| - 1], a, keys); }
  }

  lemma KeysCoverLog(log: seq<TcpEvent>)
    ensures forall i :: 0 <= i < |log| ==> log[i].key in Fold(log)
  {
    forall i | 0 <= i < |log|
      ensures log[i].key in Fold(log)
    {
      RowShowsLast(log, log[i].key);
    }
  }

  // ---------- The rows `print_top` shows ----------

  type Item = (ConnectionKey, ConnectionStats)

  /** The sort key: bytes both ways, as a 64-bit sum. */
  function Traffic(item: Item): U64 {
    Add64(item.1.bytesTx, item.1.bytesRx)
  }

  lemma TrafficIsSum(item: Item)
    ensures Traffic(item) == (item.1.bytesTx + item.1.bytesRx) % 0x1_0000_0000_0000_0000
  {
    WrapIsRemainder(item.1.bytesTx + item.1.bytesRx);
  }

  /** The same, off the log: the bytes of all events for a key, both ways. */
  ghost function LoggedTraffic(log: seq<TcpEvent>, key: ConnectionKey): nat {
    (Total(log, BytesTx, {key}) + Total(log, BytesRx, {key})) % 0x1_0000_0000_0000_0000
  }

  lemma TrafficIsLogged(log: seq<TcpEvent>, key: ConnectionKey)
    requires key in Fold(log)
    ensures Traffic((key, Fold(log)[key])) == LoggedTraffic(log, key)
  {
    RowTotals(log, BytesTx, key);
    RowTotals(log, BytesRx, key);
    WrapAdds(Total(log, BytesTx, {key}), Total(log, BytesRx, {key}));
    WrapIsRemainder(Total(log, BytesTx, {key}) + Total(log, BytesRx, {key}));
  }

  /** Busiest first, by what the log says. */
  ghost predicate BusiestFirst(items: seq<Item>, log: seq<TcpEvent>) {
    forall i, j :: 0 <= i < j < |items| ==> LoggedTraffic(log, items[i].0) >= LoggedTraffic(log, items[j].0)
  }

  /** No connection in the log that is left out is busier than one that is shown. */
  ghost predicate NoneBusierHidden(shown: seq<Item>, log: seq<TcpEvent>) {
    forall i, j :: 0 <= i < |shown| && 0 <= j < |log| && (forall k :: 0 <= k < |shown| ==> shown[k].0 != log[j].key) ==>
      LoggedTraffic(log, shown[i].0) >= LoggedTraffic(log, log[j].key)
  }

  lemma DescendingIsBusiestFirst(items: seq<Item>, log: seq<TcpEvent>)
    requires Descending(items)
    requires forall i :: 0 <= i < |items| ==> items[i].0 in Fold(log) && Fold(log)[items[i].0] == items[i].1
    ensures BusiestFirst(items, log)
  {
    forall i, j | 0 <= i < j < |items|
      ensures LoggedTraffic(log, items[i].0) >= LoggedTraffic(log, items[j].0)
    {
      TrafficIsLogged(log, items[i].0);
      TrafficIsLogged(log, items[j].0);
    }
  }

  lemma TopIsBusiest(shown: seq<Item>, log: seq<TcpEvent>, n: int)
    requires IsTop(shown, Fold(log), n)
    ensures BusiestFirst(shown, log) && NoneBusierHidden(shown, log)
  {
    DescendingIsBusiestFirst(shown, log);
    KeysCoverLog(log);
    forall i, j | 0 <= i < |shown| && 0 <= j < |log| && (forall k :: 0 <= k < |shown| ==> shown[k].0 != log[j].key)
      ensures LoggedTraffic(log, shown[i].0) >= LoggedTraffic(log, log[j].key)
    {
      TrafficIsLogged(log, shown[i].0);
      TrafficIsLogged(log, log[j].key);
    }
  }

  ghost predicate Descending(items: seq<Item>) {
    forall i, j :: 0 <= i < j < |items| ==> Traffic(items[i]) >= Traffic(items[j])
  }

  /** All rows of the map, each once, in some order. */
  ghost predicate Lists(items: seq<Item>, m: Rows) {
    && |items| == |m|
    && (forall i :: 0 <= i < |items| ==> items[i].0 in m && m[items[i].0] == items[i].1)
    && (forall i, j :: 0 <= i < j < |items| ==> items[i].0 != items[j].0)
  }

  /** The rows shown: distinct, the right number, in order of traffic, and nothing hidden above them. */
  ghost predicate IsTop(shown: seq<Item>, m: Rows, n: int) {
    && |shown| == Min(if n < 0 then 0 else n, |m|)
    && (forall i :: 0 <= i < |shown| ==> shown[i].0 in m && m[shown[i].0] == shown[i].1)
    && (forall i, j :: 0 <= i < j < |shown| ==> shown[i].0 != shown[j].0)
    && Descending(shown) && NothingAbove(shown, m)
  }

  /** No row left out has more traffic than one shown. */
  ghost predicate NothingAbove(shown: seq<Item>, m: Rows) {
    forall key | key in m && (forall i :: 0 <= i < |shown| ==> shown[i].0 != key) ::
      forall i :: 0 <= i < |shown| ==> Traffic(shown[i]) >= Traffic((key, m[key]))
  }

  ghost function KeySet(items: seq<Item>): set<ConnectionKey> {
    if items == [] then {} else KeySet(items[..|items| - 1]) + {items[|items| - 1].0}
  }

  lemma {:induction false} DistinctKeys(items: seq<Item>)
    requires forall i, j :: 0 <= i < j < |items| ==> items[i].0 != items[j].0
    ensures |KeySet(items)| == |items|
    ensures forall key :: key in KeySet(items) <==> exists i :: 0 <= i < |items| && items[i].0 == key
  {
    if items != [] {
      var n := |items| - 1;
      var before := items[..n];
      assert items == before + [items[n]];
      DistinctKeys(before);
      forall key
        ensures key in KeySet(items) <==> exists i :: 0 <= i < |items| && items[i].0 == key
      {
        if i :| 0 <= i < |before| && before[i].0 == key { assert items[i].0 == key; }
        if i :| 0 <= i < |items| && items[i].0 == key && i < n { assert before[i].0 == key; }
      }
    }
  }

  /** Listing all rows leaves none out. */
  lemma ListsEveryRow(items: seq<Item>, m: Rows, key: ConnectionKey) returns (k: nat)
    requires Lists(items, m) && key in m
    ensures k < |items| && items[k] == (key, m[key])
  {
    DistinctKeys(items);
    SubsetOfSameSize(KeySet(items), m.Keys);
    k :| 0 <= k < |items| && items[k].0 == key;
  }

  lemma SubsetOfSameSize<T>(a: set<T>, b: set<T>)
    requires a <= b && |a| == |b|
    ensures a == b
  {
    if x :| x in b && x !in a {
      assert |b| == |(b - {x})| + 1 && a <= b - {x};
      SmallerSubset(a, b - {x});
    }
  }

  lemma {:induction false} SmallerSubset<T>(a: set<T>, b: set<T>)
    requires a <= b
    ensures |a| <= |b|
    decreases |a|
  {
    if x :| x in a {
      SmallerSubset(a - {x}, b - {x});
    }
  }

  lemma PrefixHidesLess(items: seq<Item>, m: Rows, shown: seq<Item>)
    requires Lists(items, m) && Descending(items) && shown <= items
    ensures NothingAbove(shown, m)
  {
    forall key | key in m && (forall i :: 0 <= i < |shown| ==> shown[i].0 != key)
      ensures forall i :: 0 <= i < |shown| ==> Traffic(shown[i]) >= Traffic((key, m[key]))
    {
      var k := ListsEveryRow(items, m, key);
      assert k >= |shown|;
    }
  }

  lemma PrefixDescends(items: seq<Item>, shown: seq<Item>)
    requires Descending(items) && shown <= items
    ensures Descending(shown)
  {
    forall i, j | 0 <= i < j < |shown|
      ensures Traffic(shown[i]) >= Traffic(shown[j])
    {
      assert shown[i] == items[i] && shown[j] == items[j];
    }
  }

  /** Any order with descending traffic will do: the first rows of it are the top ones. */
  lemma PrefixIsTop(items: seq<Item>, m: Rows, n: int, shown: seq<Item>)
    requires Lists(items, m) && Descending(items)
    requires shown <= items && |shown| == Min(if n < 0 then 0 else n, |items|)
    ensures IsTop(shown, m, n)
  {
    PrefixHidesLess(items, m, shown);
    PrefixDescends(items, shown);
  }

  /** Where `std::sort` would put one more item. */
  function Insert(items: seq<Item>, x: Item): seq<Item> {
    if items == [] || Traffic(items[0]) < Traffic(x) then [x] + items
    else [items[0]] + Insert(items[1..], x)
  }

  /** The item goes in at one place and nothing else moves. */
  lemma {:induction false} InsertPlace(items: seq<Item>, x: Item) returns (p: nat)
    ensures p <= |items| && Insert(items, x) == items[..p] + [x] + items[p..]
    ensures forall i :: 0 <= i < p ==> Traffic(items[i]) >= Traffic(x)
    ensures p < |items| ==> Traffic(items[p]) < Traffic(x)
  {
    if items == [] || Traffic(items[0]) < Traffic(x) {
      p := 0;
    } else {
      p := InsertPlace(items[1..], x);
      assert [items[0]] + (items[1..][..p] + [x] + items[1..][p..]) == items[..p + 1] + [x] + items[p + 1..];
      p := p + 1;
    }
  }

  lemma InsertLists(items: seq<Item>, x: Item, m: Rows)
    requires Lists(items, m) && x.0 !in m
    ensures Lists(Insert(items, x), m[x.0 := x.1])
  {
    var p := InsertPlace(items, x);
    var items', m' := Insert(items, x), m[x.0 := x.1];
    assert m'.Keys == m.Keys + {x.0};
    forall i | 0 <= i < |items'|
      ensures items'[i] == (if i < p then items[i] else if i == p then x else items[i - 1])
      ensures items'[i].0 in m' && m'[items'[i].0] == items'[i].1
    {
    }
  }

  lemma InsertSorts(items: seq<Item>, x: Item)
    requires Descending(items)
    ensures Descending(Insert(items, x))
  {
    var p := InsertPlace(items, x);
  }

  class StatsReporter {
    var stats: Rows
    /** The events recorded since the last clear, in lock order. */
    ghost var log: seq<TcpEvent>

    ghost predicate Valid()
      reads this
    {
      stats == Fold(log)
    }

    constructor ()
      ensures Valid() && log == []
    {
      stats, log := map[], [];
    }

    method Record(ev: TcpEvent)
      requires Valid()
      modifies this
      ensures Valid() && log == old(log) + [ev]
    {
      assert (log + [ev])[..|log|] == log;
      stats := Recorded(stats, ev);
      log := log + [ev];
    }

    method Clear()
      modifies this
      ensures Valid() && log == []
    {
      stats, log := map[], [];
    }

    /** `for_each` with a callback that adds up one counter over all rows. */
    method SumRows(a: Amount) returns (n: U64)
      requires Valid()
      ensures n == Wrap(GrandTotal(log, a))
    {
      n := 0;
      var left := stats.Keys;
      NoKeys(log, a);
      assert stats.Keys - left == {};
      while left != {}
        invariant left <= stats.Keys
        invariant n == Wrap(Total(log, a, stats.Keys - left))
        decreases |left|
      {
        var key :| key in left;
        RowTotals(log, a, key);
        OneMoreKey(log, a, stats.Keys - left, key);
        assert stats.Keys - (left - {key}) == (stats.Keys - left) + {key};
        WrapAdds(Total(log, a, stats.Keys - left), Total(log, a, {key}));
        n := Add64(n, Field(a, stats[key]));
        left := left - {key};
      }
      KeysCoverLog(log);
      AllKeys(log, a, stats.Keys);
      assert stats.Keys - left == stats.Keys;
    }

    /** The rows copied out of the map and sorted; ties may come in any order. */
    method SortedRows() returns (items: seq<Item>)
      requires Valid()
      ensures Lists(items, stats) && Descending(items)
      ensures BusiestFirst(items, log)
    {
      items := [];
      var left := stats.Keys;
      ghost var done: Rows := map[];
      while left != {}
        invariant left <= stats.Keys && done == map key | key in stats && key !in left :: stats[key]
        invariant Lists(items, done) && Descending(items)
        decreases |left|
      {
        var key :| key in left;
        InsertLists(items, (key, stats[key]), done);
        InsertSorts(items, (key, stats[key]));
        items := Insert(items, (key, stats[key]));
        done := done[key := stats[key]];
        left := left - {key};
      }
      assert done == stats;
      DescendingIsBusiestFirst(items, log);
    }

    /** The rows `print_top(n)` prints. */
    method PrintTop(n: int) returns (printed: seq<Item>)
      requires Valid()
      ensures IsTop(printed, stats, n)
      ensures BusiestFirst(printed, log) && NoneBusierHidden(printed, log)
    {
      var items := SortedRows();
      printed := [];
      var shown, i := 0, 0;
      while i < |items|
        invariant 0 <= i <= |items| && shown == i && printed == items[..i]
        invariant i <= if n < 0 then 0 else n
      {
        if shown >= n { break; }
        shown := shown + 1;
        printed := printed + [items[i]];
        i := i + 1;
      }
      PrefixIsTop(items, stats, n, printed);
      TopIsBusiest(printed, log, n);
    }
  }
}
