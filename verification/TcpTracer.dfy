/**
 The connect and close probes: a bounded map of half-done connections keyed by process id alone,
 and a stream of events on which a reservation may fail. When the map's entry is the right one
 for a close, and what then reaches the reporter.
 */
module TcpTracers {
  import opened Words
  import opened StatsReporters

  datatype Tuple = Tuple(srcIp: nat, dstIp: nat, srcPort: nat, dstPort: nat)

  /** A socket; its addresses and ports do not change between connect and close. */
  datatype Sock = Sock(id: nat, tuple: Tuple)

  /** `filters[0]` and `filters[1]`; zero lets everything through. */
  datatype Filters = Filters(pid: nat, port: nat)

  /** The size of pending_connects. */
  const MAX_PENDING: nat := 4096

  /** One firing of a probe: what it reads, and whether the event stream has room. */
  datatype Probe = Probe(
    closing: bool, pid: nat, sock: Sock, uid: nat, comm: string, now: U64,
    bytesSent: U64, bytesReceived: U64, reserved: bool)

  /** The filter port is cut to 16 bits, after the test for zero. */
  predicate ShouldFilter(f: Filters, pid: nat, dport: nat) {
    || (f.pid != 0 && f.pid != pid)
    || (f.port != 0 && f.port % 0x1_0000 != dport)
  }

  function KeyOf(p: Probe): ConnectionKey {
    ConnectionKey(p.sock.tuple.srcIp, p.sock.tuple.dstIp, p.sock.tuple.srcPort, p.sock.tuple.dstPort, p.pid)
  }

  function ConnectEvent(p: Probe): TcpEvent {
    TcpEvent(KeyOf(p), p.uid, p.comm, p.now, TCP_ACTION_CONNECT, 0, 0)
  }

  /** The event of a close: from the pending entry of the process, or else from the socket. */
  function CloseEvent(pending: map<nat, TcpEvent>, p: Probe): TcpEvent {
    var ev := if p.pid in pending then pending[p.pid] else TcpEvent(KeyOf(p), p.uid, p.comm, 0, 0, 0, 0);
    ev.(timestampNs := p.now, action := TCP_ACTION_CLOSE, bytesTx := p.bytesSent, bytesRx := p.bytesReceived)
  }

  /** The event has the addresses and ports of the probe's socket, and its process. */
  ghost predicate HasTuple(ev: TcpEvent, p: Probe) {
    && ev.key.srcIp == p.sock.tuple.srcIp && ev.key.dstIp == p.sock.tuple.dstIp
    && ev.key.srcPort == p.sock.tuple.srcPort && ev.key.dstPort == p.sock.tuple.dstPort
    && ev.key.pid == p.pid
  }

  /** The event announces the probe's connect. */
  ghost predicate Announces(ev: TcpEvent, p: Probe) {
    && HasTuple(ev, p) && ev.uid == p.uid && ev.comm == p.comm
    && ev.timestampNs == p.now && ev.action == 0 && ev.bytesTx == ev.bytesRx == 0
  }

  /** The event reports the probe's close, on the connection, user and name that `origin` read. */
  ghost predicate Reports(ev: TcpEvent, p: Probe, origin: Probe) {
    && HasTuple(ev, origin) && ev.uid == origin.uid && ev.comm == origin.comm
    && ev.timestampNs == p.now && ev.action == 1
    && ev.bytesTx == p.bytesSent && ev.bytesRx == p.bytesReceived
  }

  datatype State = State(pending: map<nat, TcpEvent>, events: seq<TcpEvent>)

  /** `bpf_map_update_elem` with BPF_ANY: a new key does not fit into a full map. */
  function Stored(pending: map<nat, TcpEvent>, pid: nat, ev: TcpEvent): map<nat, TcpEvent> {
    if pid in pending || |pending| < MAX_PENDING then pending[pid := ev] else pending
  }

  predicate Admitted(f: Filters, p: Probe) {
    !p.closing && !ShouldFilter(f, p.pid, p.sock.tuple.dstPort)
  }

  function Fire(f: Filters, s: State, p: Probe): State {
    if p.closing then
      if !p.reserved then s
      else State(s.pending - {p.pid}, s.events + [CloseEvent(s.pending, p)])
    else if !Admitted(f, p) then s
    else
      State(Stored(s.pending, p.pid, ConnectEvent(p)),
            if p.reserved then s.events + [ConnectEvent(p)] else s.events)
  }

  ghost function Run(f: Filters, probes: seq<Probe>): State {
    if probes == [] then State(map[], []) else Fire(f, Run(f, probes[..|probes| - 1]), probes[|probes| - 1])
  }

  lemma RunThen(f: Filters, probes: seq<Probe>, p: Probe)
    ensures Run(f, probes + [p]) == Fire(f, Run(f, probes), p)
  {
    assert (probes + [p])[..|probes|] == probes;
  }

  /** Neither filter is set to another process or port. */
  ghost predicate Wanted(f: Filters, p: Probe) {
    (f.pid == 0 || f.pid == p.pid) && (f.port == 0 || f.port % 65536 == p.sock.tuple.dstPort)
  }

  /** The probes in place, as the kernel runs them. */
  class Tracer {
    const filters: Filters
    var pending: map<nat, TcpEvent>
    var events: seq<TcpEvent>
    ghost var history: seq<Probe>

    ghost predicate Valid()
      reads this
    {
      State(pending, events) == Run(filters, history)
    }

    constructor (filters: Filters)
      ensures Valid() && history == [] && this.filters == filters
    {
      this.filters := filters;
      pending, events, history := map[], [], [];
    }

    method TraceConnect(p: Probe)
      requires Valid() && !p.closing
      modifies this
      ensures Valid() && history == old(history) + [p]
      ensures !Wanted(filters, p) ==> pending == old(pending) && events == old(events)
      ensures Wanted(filters, p) ==>
                exists ev: TcpEvent ::
                  && Announces(ev, p)
                  && events == old(events) + (if p.reserved then [ev] else [])
                  && pending == if p.pid in old(pending) || |old(pending)| < 4096 then old(pending)[p.pid := ev] else old(pending)
    {
      RunThen(filters, history, p);
      history := history + [p];
      if ShouldFilter(filters, p.pid, p.sock.tuple.dstPort) { return; }
      var ev := ConnectEvent(p);
      assert Announces(ev, p);
      if p.pid in pending || |pending| < MAX_PENDING {
        pending := pending[p.pid := ev];
      }
      if p.reserved {
        events := events + [ev];
      }
    }

    method TraceClose(p: Probe)
      requires Valid() && p.closing
      modifies this
      ensures Valid() && history == old(history) + [p]
      ensures !p.reserved ==> pending == old(pending) && events == old(events)
      ensures p.reserved ==>
                && pending == old(pending) - {p.pid}
                && |events| == |old(events)| + 1 && old(events) <= events
                && var ev := events[|old(events)|];
                   && ev.timestampNs == p.now && ev.action == 1
                   && ev.bytesTx == p.bytesSent && ev.bytesRx == p.bytesReceived
                   && (if p.pid in old(pending)
                       then var was := old(pending)[p.pid]; ev.key == was.key && ev.uid == was.uid && ev.comm == was.comm
                       else HasTuple(ev, p) && ev.uid == p.uid && ev.comm == p.comm)
    {
      RunThen(filters, history, p);
      history := history + [p];
      if !p.reserved { return; }
      var ev := CloseEvent(pending, p);
      if p.pid in pending {
        pending := pending - {p.pid};
      }
      events := events + [ev];
    }
  }

  // ---------- What the pending map holds ----------

  /** The probe can change the entry of process `pid`. */
  ghost predicate Touches(f: Filters, p: Probe, pid: nat) {
    p.pid == pid && (Admitted(f, p) || (p.closing && p.reserved))
  }

  /** Probe `i` is the latest admitted connect of `pid`, and no close has consumed it. */
  ghost predicate IsOpen(f: Filters, probes: seq<Probe>, pid: nat, i: nat) {
    && i < |probes| && probes[i].pid == pid && Admitted(f, probes[i])
    && forall m :: i < m < |probes| ==> !Touches(f, probes[m], pid)
  }

  ghost predicate HasOpen(f: Filters, probes: seq<Probe>, pid: nat) {
    exists i: nat :: IsOpen(f, probes, pid, i)
  }

  /** When probe `i` fired, the map held an entry of its process already or had room for one. */
  ghost predicate HadRoom(f: Filters, probes: seq<Probe>, i: nat)
    requires i < |probes|
  {
    var pending := Run(f, probes[..i]).pending;
    probes[i].pid in pending || |pending| < MAX_PENDING
  }

  /** The entry of a process, when there is one, is its latest admitted connect not yet consumed by a close. */
  lemma {:induction false} PendingIsLatest(f: Filters, probes: seq<Probe>, pid: nat) returns (i: nat)
    requires pid in Run(f, probes).pending
    ensures IsOpen(f, probes, pid, i) && HadRoom(f, probes, i)
    ensures Run(f, probes).pending[pid] == ConnectEvent(probes[i])
  {
    var n := |probes| - 1;
    var before, p := probes[..n], probes[n];
    if p.pid == pid && Admitted(f, p) {
      i := n;
    } else {
      i := PendingIsLatest(f, before, pid);
      assert before[..i] == probes[..i];
    }
  }

  lemma {:induction false} OpenIsKept(f: Filters, probes: seq<Probe>, pid: nat, i: nat)
    requires IsOpen(f, probes, pid, i) && HadRoom(f, probes, i)
    ensures pid in Run(f, probes).pending
  {
    var n := |probes| - 1;
    var before := probes[..n];
    if i < n {
      assert before[..i] == probes[..i];
      assert !Touches(f, probes[n], pid);
      OpenIsKept(f, before, pid, i);
    }
  }

  ghost function Pids(probes: seq<Probe>): set<nat> {
    if probes == [] then {} else Pids(probes[..|probes| - 1]) + {probes[|probes| - 1].pid}
  }

  lemma {:induction false} PendingPids(f: Filters, probes: seq<Probe>)
    ensures Run(f, probes).pending.Keys <= Pids(probes)
  {
    if probes != [] { PendingPids(f, probes[..|probes| - 1]); }
  }

  lemma {:induction false} PidsGrow(probes: seq<Probe>, i: nat)
    requires i < |probes|
    ensures Pids(probes[..i]) + {probes[i].pid} <= Pids(probes)
  {
    var n := |probes| - 1;
    if i < n {
      PidsGrow(probes[..n], i);
      assert probes[..n][..i] == probes[..i];
    }
  }

  lemma RoomForAll(f: Filters, probes: seq<Probe>, i: nat)
    requires |Pids(probes)| <= MAX_PENDING && i < |probes|
    ensures HadRoom(f, probes, i)
  {
    var keys, pid := Run(f, probes[..i]).pending.Keys, probes[i].pid;
    PendingPids(f, probes[..i]);
    PidsGrow(probes, i);
    SmallerSubset(keys + {pid}, Pids(probes));
    assert pid !in keys ==> |keys + {pid}| == |keys| + 1;
  }

  /** With no more processes than the map has room for, no admitted connect is forgotten either. */
  lemma NothingForgotten(f: Filters, probes: seq<Probe>, pid: nat)
    requires |Pids(probes)| <= MAX_PENDING
    ensures HasOpen(f, probes, pid) <==> pid in Run(f, probes).pending
  {
    if pid in Run(f, probes).pending {
      var i := PendingIsLatest(f, probes, pid);
    }
    if i: nat :| IsOpen(f, probes, pid, i) {
      RoomForAll(f, probes, i);
      OpenIsKept(f, probes, pid, i);
    }
  }

  // ---------- Whose tuple a close carries ----------

  /** The event that probe `j`, a close, would send. */
  ghost function CloseSentBy(f: Filters, probes: seq<Probe>, j: nat): TcpEvent
    requires j < |probes|
  {
    CloseEvent(Run(f, probes[..j]).pending, probes[j])
  }

  /**
   A close carries its own socket's tuple exactly when the process has no open connect at that
   point, or the open one found the map full, or it is for the same addresses and ports.
   */
  lemma CloseIsRightExactlyWhen(f: Filters, probes: seq<Probe>, j: nat)
    requires j < |probes| && probes[j].closing
    ensures CloseSentBy(f, probes, j).key == KeyOf(probes[j])
       <==> forall i: nat :: IsOpen(f, probes[..j], probes[j].pid, i) && HadRoom(f, probes[..j], i) ==>
              KeyOf(probes[i]) == KeyOf(probes[j])
  {
    var before, pid := probes[..j], probes[j].pid;
    if pid in Run(f, before).pending {
      var k := PendingIsLatest(f, before, pid);
      forall i: nat | IsOpen(f, before, pid, i)
        ensures i == k
      {
        OpenIsUnique(f, before, pid, i, k);
      }
    } else {
      forall i: nat | IsOpen(f, before, pid, i)
        ensures !HadRoom(f, before, i)
      {
        if HadRoom(f, before, i) {
          OpenIsKept(f, before, pid, i);
        }
      }
    }
  }

  lemma OpenIsUnique(f: Filters, probes: seq<Probe>, pid: nat, i: nat, k: nat)
    requires IsOpen(f, probes, pid, i) && IsOpen(f, probes, pid, k)
    ensures i == k
  {
    assert Touches(f, probes[i], pid) && Touches(f, probes[k], pid);
  }

  /**
   A close that reaches the stream reports the connection, user and name of the process's open
   connect, when the map took it, and otherwise its own; the time and the bytes are its own always.
   */
  lemma CloseReports(f: Filters, probes: seq<Probe>, p: Probe)
    requires p.closing && p.reserved
    ensures var sent, now := Run(f, probes).events, Run(f, probes + [p]).events;
            && |now| == |sent| + 1 && sent <= now
            && (forall i: nat :: IsOpen(f, probes, p.pid, i) && HadRoom(f, probes, i) ==>
                  Reports(now[|sent|], p, probes[i]))
            && ((forall i: nat :: IsOpen(f, probes, p.pid, i) ==> !HadRoom(f, probes, i)) ==>
                  Reports(now[|sent|], p, p))
  {
    assert (probes + [p])[..|probes|] == probes;
    if p.pid in Run(f, probes).pending {
      var k := PendingIsLatest(f, probes, p.pid);
      forall i: nat | IsOpen(f, probes, p.pid, i)
        ensures i == k
      {
        OpenIsUnique(f, probes, p.pid, i, k);
      }
    } else {
      forall i: nat | IsOpen(f, probes, p.pid, i)
        ensures !HadRoom(f, probes, i)
      {
        if HadRoom(f, probes, i) {
          OpenIsKept(f, probes, p.pid, i);
        }
      }
    }
  }

  /** A connect reaches the stream exactly when it has room there and neither filter rejects it. */
  lemma ConnectIsSentExactlyWhen(f: Filters, probes: seq<Probe>, p: Probe)
    requires !p.closing
    ensures var sent, now := Run(f, probes).events, Run(f, probes + [p]).events;
            if p.reserved && Wanted(f, p)
            then |now| == |sent| + 1 && sent <= now && Announces(now[|sent|], p)
            else now == sent
  {
    assert (probes + [p])[..|probes|] == probes;
  }

  /** Probe `j` is the first of `i`'s process after `i` that is an admitted connect or any close. */
  ghost predicate NextOf(f: Filters, probes: seq<Probe>, i: nat, j: nat) {
    && i < j < |probes| && Relevant(f, probes[j], probes[i].pid)
    && forall m :: i < m < j ==> !Relevant(f, probes[m], probes[i].pid)
  }

  ghost predicate Relevant(f: Filters, p: Probe, pid: nat) {
    p.pid == pid && (Admitted(f, p) || p.closing)
  }

  /**
   The discipline: after an admitted connect, the next admitted connect or close of that process
   is the close of that very socket; and no close finds the event stream full.
   */
  ghost predicate Disciplined(f: Filters, probes: seq<Probe>) {
    && (forall j :: 0 <= j < |probes| && probes[j].closing ==> probes[j].reserved)
    && (forall i: nat, j: nat :: NextOf(f, probes, i, j) && Admitted(f, probes[i]) ==>
          probes[j].closing && probes[j].sock == probes[i].sock)
  }

  /** Under the discipline every close carries its own socket's tuple, full map or not. */
  lemma DisciplinedCloseIsRight(f: Filters, probes: seq<Probe>, j: nat)
    requires Disciplined(f, probes) && j < |probes| && probes[j].closing
    ensures CloseSentBy(f, probes, j).key == KeyOf(probes[j])
  {
    var pid := probes[j].pid;
    if pid in Run(f, probes[..j]).pending {
      var i := PendingIsLatest(f, probes[..j], pid);
      forall m | i < m < j
        ensures !Relevant(f, probes[m], pid)
      {
        assert probes[..j][m] == probes[m] && !Touches(f, probes[..j][m], pid);
      }
      assert NextOf(f, probes, i, j);
    }
  }

  /** Two connects of one process and then the close of the first: the close is booked on the second. */
  lemma TwoConnectsMisattribute() returns (f: Filters, probes: seq<Probe>)
    ensures |probes| == 3 && probes[2].closing && probes[2].sock == probes[0].sock
    ensures CloseSentBy(f, probes, 2).key == KeyOf(probes[1]) != KeyOf(probes[2])
  {
    f := Filters(0, 0);
    var a, b := Sock(1, Tuple(1, 2, 1000, 80)), Sock(2, Tuple(1, 2, 1001, 80));
    var connectA := Probe(false, 7, a, 0, "", 0, 0, 0, true);
    var connectB := connectA.(sock := b);
    var closeA := connectA.(closing := true);
    probes := [connectA, connectB, closeA];
    assert probes[..2] == [connectA, connectB] && [connectA, connectB][..1] == [connectA];
    assert Run(f, [connectA]) == Fire(f, State(map[], []), connectA);
    assert Run(f, [connectA, connectB]) == Fire(f, Run(f, [connectA]), connectB);
  }

  // ---------- From the probes to the reporter's rows ----------

  /** What a probe should add to the row of its own socket and process. */
  ghost function OwnAmount(a: Amount, f: Filters, p: Probe): nat {
    match a
    case Connects => if Admitted(f, p) && p.reserved then 1 else 0
    case BytesTx => if p.closing then p.bytesSent else 0
    case BytesRx => if p.closing then p.bytesReceived else 0
  }

  ghost function OwnTotal(a: Amount, f: Filters, probes: seq<Probe>, key: ConnectionKey): nat {
    if probes == [] then 0
    else
      var p := probes[|probes| - 1];
      OwnTotal(a, f, probes[..|probes| - 1], key) + if KeyOf(p) == key then OwnAmount(a, f, p) else 0
  }

  lemma DisciplinedPrefix(f: Filters, probes: seq<Probe>)
    requires Disciplined(f, probes) && probes != []
    ensures Disciplined(f, probes[..|probes| - 1])
  {
    var before := probes[..|probes| - 1];
    forall i: nat, j: nat | NextOf(f, before, i, j) && Admitted(f, before[i])
      ensures before[j].closing && before[j].sock == before[i].sock
    {
      assert NextOf(f, probes, i, j) by {
        forall m | i < m < j
          ensures !Relevant(f, probes[m], probes[i].pid)
        {
          assert before[m] == probes[m];
        }
      }
    }
  }

  lemma OneMoreEvent(sent: seq<TcpEvent>, ev: TcpEvent, a: Amount, key: ConnectionKey)
    ensures Total(sent + [ev], a, {key}) == Total(sent, a, {key}) + if ev.key == key then AmountOf(a, ev) else 0
  {
    assert (sent + [ev])[..|sent|] == sent;
  }

  /** A step adds to the totals of a key what it should: its own amount, if the key is its own. */
  lemma StepTotals(a: Amount, f: Filters, probes: seq<Probe>, key: ConnectionKey)
    requires Disciplined(f, probes) && probes != []
    ensures var n := |probes| - 1;
            var before, after := Run(f, probes[..n]).events, Run(f, probes).events;
            Total(after, a, {key}) == Total(before, a, {key}) + if KeyOf(probes[n]) == key then OwnAmount(a, f, probes[n]) else 0
  {
    var n := |probes| - 1;
    var s, p := Run(f, probes[..n]), probes[n];
    if p.closing {
      DisciplinedCloseIsRight(f, probes, n);
      OneMoreEvent(s.events, CloseEvent(s.pending, p), a, key);
    } else if Admitted(f, p) && p.reserved {
      OneMoreEvent(s.events, ConnectEvent(p), a, key);
    }
  }

  lemma {:induction false} EventTotals(a: Amount, f: Filters, probes: seq<Probe>, key: ConnectionKey)
    requires Disciplined(f, probes)
    ensures Total(Run(f, probes).events, a, {key}) == OwnTotal(a, f, probes, key)
  {
    if probes != [] {
      DisciplinedPrefix(f, probes);
      EventTotals(a, f, probes[..|probes| - 1], key);
      StepTotals(a, f, probes, key);
    }
  }

  /**
   End to end: under the discipline, when the reporter has recorded the stream, the row of a
   socket and process holds exactly that socket's connects and bytes, modulo 2^64.
   */
  lemma RowsBelongToSockets(a: Amount, f: Filters, probes: seq<Probe>, key: ConnectionKey)
    requires Disciplined(f, probes)
    ensures Field(a, Row(Fold(Run(f, probes).events), key)) == Wrap(OwnTotal(a, f, probes, key))
  {
    RowTotals(Run(f, probes).events, a, key);
    EventTotals(a, f, probes, key);
  }
}
