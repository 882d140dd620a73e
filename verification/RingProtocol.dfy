/**
 One producer thread and one consumer thread on the same ring, interleaved step by step.

 Every call is cut into its atomic steps: load the own index, load the other side's index,
 copy one slot, publish the own index. A load of the other side's index may return any value
 that side has stored, as long as the thread never goes back in that index's modification
 order; the newest value is one choice among them.

 The protocol is written once and read at two widths: `Unbounded` counters that never wrap
 with slots taken by remainder, and `Bits64` words with wrapping arithmetic and masks, as in
 the code. RingWrap.dfy shows that the two have the same runs.
 */
module RingProtocol {
  import opened Options
  import opened Words
  import opened RingSpec

  datatype Width = Unbounded | Bits64

  ghost function Plus(w: Width, a: nat, b: nat): nat {
    if w.Bits64? && a + b >= W64 then a + b - W64 else a + b
  }

  ghost function Minus(w: Width, a: nat, b: nat): int {
    if w.Bits64? && a < b then a - b + W64 else a - b
  }

  /** The array position of an index: `index & MASK` in the code. */
  ghost function Position(w: Width, cap: nat, index: nat): nat {
    if w.Bits64? then MaskedSlot(cap, index)
    else if cap == 0 then 0
    else Slot(cap, index)
  }

  // ---------- State ----------

  /** `enqueue(item)` or `enqueue_burst(items, n)`. */
  datatype Call<T> = One(item: T) | Burst(items: seq<T>)

  /** `dequeue(item)` or `dequeue_burst(items, n)`. */
  datatype Want = Next | UpTo(n: nat)

  ghost function Offered<T>(call: Call<T>): seq<T> {
    match call
    case One(x) => [x]
    case Burst(xs) => xs
  }

  /** Where the producer is in its call: `h`, `cnt` and `i` are the locals of the code. */
  datatype Producer<T> =
    | PIdle
    | PLoaded(call: Call<T>, h: nat)
    | PCopying(call: Call<T>, h: nat, cnt: int, i: nat)

  /** Where the consumer is in its call: `out` holds the items copied so far. */
  datatype Consumer<T> =
    | CIdle
    | CLoaded(want: Want, t: nat)
    | CCopying(t: nat, cnt: int, out: seq<T>)

  /**
   `heads` and `tails` are all the values ever stored in `head_` and `tail_`, oldest first.
   `seenTail` is the place in `tails` of the newest value the producer has loaded, `seenHead`
   the place in `heads` of the newest value the consumer has loaded.
   */
  datatype State<T> = State(
    data: seq<T>,
    heads: seq<nat>, tails: seq<nat>,
    seenTail: nat, seenHead: nat,
    prod: Producer<T>, cons: Consumer<T>)

  /** A ring nobody has used yet. */
  ghost function Fresh<T>(data: seq<T>): State<T> {
    State(data, [0], [0], 0, 0, PIdle, CIdle)
  }

  ghost function Newest(xs: seq<nat>): nat
    requires xs != []
  {
    xs[|xs| - 1]
  }

  // ---------- Steps ----------

  /** The atomic steps. `m` is the place in the modification order that a load reads from. */
  datatype Event<T> =
    | PStart(call: Call<T>)          // call entered, own index loaded
    | PLoad(m: nat)                  // other index loaded, room found or burst cut to fit
    | PFull(m: nat)                  // other index loaded, `enqueue` returns false
    | PCopy                          // one slot written
    | PPublish(accepted: seq<T>)     // own index stored, call returns
    | PSize(m: nat)                  // `size()` called on the producer thread
    | CStart(want: Want)
    | CLoad(m: nat)
    | CEmpty(m: nat)                 // `dequeue` returns false
    | CCopy                          // one slot read
    | CPublish(taken: seq<T>)
    | CSize(m: nat)

  /** How many items the producer may copy once it has loaded `t`. */
  ghost function Room<T>(w: Width, cap: nat, call: Call<T>, h: nat, t: nat): int {
    match call
    case One(_) => if Minus(w, h, t) >= cap then 0 else 1
    case Burst(xs) =>
      var occupied := Minus(w, h, t);
      var free := if w.Bits64? && cap < occupied then cap - occupied + W64 else cap - occupied;
      if |xs| < free then |xs| else free
  }

  /** How many items the consumer may copy once it has loaded `h`. */
  ghost function Available(w: Width, want: Want, h: nat, t: nat): int {
    match want
    case Next => if t == h then 0 else 1
    case UpTo(n) => if n < Minus(w, h, t) then n else Minus(w, h, t)
  }

  ghost predicate Enabled<T>(w: Width, s: State<T>, e: Event<T>)
    requires s.heads != [] && s.tails != []
  {
    match e
    case PStart(call) => s.prod.PIdle? && |Offered(call)| < W64
    case PLoad(m) =>
      && s.prod.PLoaded? && s.seenTail <= m < |s.tails|
      && (s.prod.call.One? ==> Room(w, |s.data|, s.prod.call, s.prod.h, s.tails[m]) == 1)
    case PFull(m) =>
      && s.prod.PLoaded? && s.seenTail <= m < |s.tails|
      && s.prod.call.One? && Room(w, |s.data|, s.prod.call, s.prod.h, s.tails[m]) == 0
    case PCopy =>
      && s.prod.PCopying? && s.prod.i < s.prod.cnt && s.prod.i < |Offered(s.prod.call)|
      && Position(w, |s.data|, Plus(w, s.prod.h, s.prod.i)) < |s.data|
    case PPublish(accepted) =>
      && s.prod.PCopying? && s.prod.i == s.prod.cnt
      && s.prod.i <= |Offered(s.prod.call)| && accepted == Offered(s.prod.call)[..s.prod.i]
    case PSize(m) => s.prod.PIdle? && s.seenTail <= m < |s.tails|
    case CStart(want) => s.cons.CIdle? && (want.UpTo? ==> want.n < W64)
    case CLoad(m) =>
      && s.cons.CLoaded? && s.seenHead <= m < |s.heads|
      && (s.cons.want.Next? ==> Available(w, s.cons.want, s.heads[m], s.cons.t) == 1)
    case CEmpty(m) =>
      && s.cons.CLoaded? && s.seenHead <= m < |s.heads|
      && s.cons.want.Next? && Available(w, s.cons.want, s.heads[m], s.cons.t) == 0
    case CCopy =>
      && s.cons.CCopying? && |s.cons.out| < s.cons.cnt
      && Position(w, |s.data|, Plus(w, s.cons.t, |s.cons.out|)) < |s.data|
    case CPublish(taken) =>
      s.cons.CCopying? && |s.cons.out| == s.cons.cnt && taken == s.cons.out
    case CSize(m) => s.cons.CIdle? && s.seenHead <= m < |s.heads|
  }

  ghost function Apply<T>(w: Width, s: State<T>, e: Event<T>): (s': State<T>)
    requires s.heads != [] && s.tails != []
    requires Enabled(w, s, e)
    ensures s'.heads != [] && s'.tails != []
  {
    match e
    case PStart(call) => s.(prod := PLoaded(call, Newest(s.heads)))
    case PLoad(m) =>
      var cnt := Room(w, |s.data|, s.prod.call, s.prod.h, s.tails[m]);
      s.(seenTail := m, prod := PCopying(s.prod.call, s.prod.h, cnt, 0))
    case PFull(m) => s.(seenTail := m, prod := PIdle)
    case PCopy =>
      var at := Position(w, |s.data|, Plus(w, s.prod.h, s.prod.i));
      s.(data := s.data[at := Offered(s.prod.call)[s.prod.i]], prod := s.prod.(i := s.prod.i + 1))
    case PPublish(_) => s.(heads := s.heads + [Plus(w, s.prod.h, s.prod.i)], prod := PIdle)
    case PSize(m) => s.(seenTail := m)
    case CStart(want) => s.(cons := CLoaded(want, Newest(s.tails)))
    case CLoad(m) =>
      var cnt := Available(w, s.cons.want, s.heads[m], s.cons.t);
      s.(seenHead := m, cons := CCopying(s.cons.t, cnt, []))
    case CEmpty(m) => s.(seenHead := m, cons := CIdle)
    case CCopy =>
      var at := Position(w, |s.data|, Plus(w, s.cons.t, |s.cons.out|));
      s.(cons := s.cons.(out := s.cons.out + [s.data[at]]))
    case CPublish(_) => s.(tails := s.tails + [Plus(w, s.cons.t, |s.cons.out|)], cons := CIdle)
    case CSize(m) => s.(seenHead := m)
  }

  /** The state after a run, or nothing when some step of it was not possible. */
  ghost function Exec<T>(w: Width, s: State<T>, es: seq<Event<T>>): (r: Option<State<T>>)
    requires s.heads != [] && s.tails != []
    ensures r.Some? ==> r.value.heads != [] && r.value.tails != []
  {
    if es == [] then Some(s)
    else
      match Exec(w, s, es[..|es| - 1])
      case None => None
      case Some(s1) =>
        if Enabled(w, s1, es[|es| - 1]) then Some(Apply(w, s1, es[|es| - 1])) else None
  }

  /** The items accepted by the calls of a run, in order. */
  ghost function Enqueued<T>(es: seq<Event<T>>): seq<T> {
    if es == [] then []
    else
      var e := es[|es| - 1];
      Enqueued(es[..|es| - 1]) + if e.PPublish? then e.accepted else []
  }

  /** The items handed out by the calls of a run, in order. */
  ghost function Dequeued<T>(es: seq<Event<T>>): seq<T> {
    if es == [] then []
    else
      var e := es[|es| - 1];
      Dequeued(es[..|es| - 1]) + if e.CPublish? then e.taken else []
  }

  // ---------- The invariant, for counters that do not wrap ----------

  ghost predicate Rising(xs: seq<nat>) {
    forall i, j :: 0 <= i <= j < |xs| ==> xs[i] <= xs[j]
  }

  ghost predicate Indexed<T>(s: State<T>) {
    && s.heads != [] && s.tails != [] && Rising(s.heads) && Rising(s.tails)
    && s.seenTail < |s.tails| && s.seenHead < |s.heads|
    && Newest(s.tails) <= s.heads[s.seenHead]
    && Newest(s.heads) <= s.tails[s.seenTail] + |s.data|
  }

  /** The published, unread items, oldest first. */
  ghost function Contents<T>(s: State<T>): seq<T>
    requires Indexed(s)
  {
    Window(s.data, Newest(s.tails), Newest(s.heads) - Newest(s.tails))
  }

  /** What the producer has copied so far is in the free slots it claimed. */
  ghost predicate ProducerInv<T>(s: State<T>)
    requires Indexed(s)
  {
    match s.prod
    case PIdle => true
    case PLoaded(_, h) => h == Newest(s.heads)
    case PCopying(call, h, cnt, i) =>
      && h == Newest(s.heads)
      && i <= cnt <= |Offered(call)|
      && h + cnt <= s.tails[s.seenTail] + |s.data|
      && Window(s.data, h, i) == Offered(call)[..i]
  }

  /** What the consumer has copied so far is the front of the contents. */
  ghost predicate ConsumerInv<T>(s: State<T>)
    requires Indexed(s)
  {
    match s.cons
    case CIdle => true
    case CLoaded(_, t) => t == Newest(s.tails)
    case CCopying(t, cnt, out) =>
      && t == Newest(s.tails)
      && |out| <= cnt && t + cnt <= s.heads[s.seenHead]
      && out == Contents(s)[..|out|]
  }

  ghost predicate Inv<T>(s: State<T>) {
    Indexed(s) && ProducerInv(s) && ConsumerInv(s)
  }

  lemma FreshInv<T>(data: seq<T>)
    ensures Inv(Fresh(data)) && Contents(Fresh(data)) == []
  {
  }

  /** The contents change at the two publishing steps and nowhere else. */
  ghost predicate QueueStep<T>(before: seq<T>, e: Event<T>, after: seq<T>) {
    match e
    case PPublish(accepted) => after == before + accepted
    case CPublish(taken) => before == taken + after
    case _ => after == before
  }

  lemma Appended(xs: seq<nat>, x: nat)
    requires xs != [] && Rising(xs) && Newest(xs) <= x
    ensures Rising(xs + [x]) && Newest(xs + [x]) == x
  {
  }

  lemma CopyInStep<T>(s: State<T>)
    requires Inv(s) && Enabled(Unbounded, s, PCopy)
    ensures var s' := Apply(Unbounded, s, PCopy); Inv(s') && Contents(s') == Contents(s)
  {
    var s' := Apply(Unbounded, s, PCopy);
    var call, h, i := s.prod.call, s.prod.h, s.prod.i;
    var x, t := Offered(call)[i], Newest(s.tails);
    WindowGrows(s.data, h, i, x);
    WindowKept(s.data, t, h - t, h + i - t, x);
    assert Offered(call)[..i + 1] == Offered(call)[..i] + [x];
  }

  lemma PublishInStep<T>(s: State<T>, accepted: seq<T>)
    requires Inv(s) && Enabled(Unbounded, s, PPublish(accepted))
    ensures var s' := Apply(Unbounded, s, PPublish(accepted));
            Inv(s') && Contents(s') == Contents(s) + accepted
  {
    var h, i, t := s.prod.h, s.prod.i, Newest(s.tails);
    Appended(s.heads, h + i);
    WindowSplit(s.data, t, h - t, i);
  }

  lemma CopyOutStep<T>(s: State<T>)
    requires Inv(s) && Enabled(Unbounded, s, CCopy)
    ensures var s' := Apply(Unbounded, s, CCopy); Inv(s') && Contents(s') == Contents(s)
  {
    var n := |s.cons.out|;
    assert Contents(s)[..n + 1] == Contents(s)[..n] + [Contents(s)[n]];
  }

  lemma PublishOutStep<T>(s: State<T>, taken: seq<T>)
    requires Inv(s) && Enabled(Unbounded, s, CPublish(taken))
    ensures var s' := Apply(Unbounded, s, CPublish(taken));
            Inv(s') && Contents(s) == taken + Contents(s')
  {
    var n, t := |s.cons.out|, Newest(s.tails);
    Appended(s.tails, t + n);
    WindowSplit(s.data, t, n, Newest(s.heads) - t - n);
  }

  lemma ProducerLoadStep<T>(s: State<T>, e: Event<T>)
    requires Inv(s) && Enabled(Unbounded, s, e) && (e.PStart? || e.PLoad? || e.PFull? || e.PSize?)
    ensures Inv(Apply(Unbounded, s, e)) && Contents(Apply(Unbounded, s, e)) == Contents(s)
  {
  }

  lemma ConsumerLoadStep<T>(s: State<T>, e: Event<T>)
    requires Inv(s) && Enabled(Unbounded, s, e) && (e.CStart? || e.CLoad? || e.CEmpty? || e.CSize?)
    ensures Inv(Apply(Unbounded, s, e)) && Contents(Apply(Unbounded, s, e)) == Contents(s)
  {
  }

  lemma StepKeepsInv<T>(s: State<T>, e: Event<T>)
    requires Inv(s) && Enabled(Unbounded, s, e)
    ensures var s' := Apply(Unbounded, s, e);
            Inv(s') && QueueStep(Contents(s), e, Contents(s'))
  {
    match e
    case PCopy => CopyInStep(s);
    case PPublish(accepted) => PublishInStep(s, accepted);
    case CCopy => CopyOutStep(s);
    case CPublish(taken) => PublishOutStep(s, taken);
    case _ =>
      if e.PStart? || e.PLoad? || e.PFull? || e.PSize? {
        ProducerLoadStep(s, e);
      } else {
        ConsumerLoadStep(s, e);
      }
  }

  lemma QueueHistory<T>(taken: seq<T>, now: seq<T>, start: seq<T>, given: seq<T>, e: Event<T>, after: seq<T>)
    requires taken + now == start + given
    requires QueueStep(now, e, after)
    ensures (taken + if e.CPublish? then e.taken else []) + after
         == start + (given + if e.PPublish? then e.accepted else [])
  {
    match e
    case PPublish(accepted) =>
      assert taken + (now + accepted) == (taken + now) + accepted;
      assert (start + given) + accepted == start + (given + accepted);
      assert taken + [] == taken;
    case CPublish(out) =>
      assert (taken + out) + after == taken + (out + after);
      assert given + [] == given;
    case _ =>
      assert taken + [] == taken && given + [] == given;
  }

  /** Every run keeps the invariant, and the ring is a queue over its whole history. */
  lemma {:induction false} RunKeepsInv<T>(s0: State<T>, es: seq<Event<T>>, s: State<T>)
    requires Inv(s0) && Exec(Unbounded, s0, es) == Some(s)
    ensures Inv(s)
    ensures Dequeued(es) + Contents(s) == Contents(s0) + Enqueued(es)
    decreases |es|
  {
    if es != [] {
      var before := es[..|es| - 1];
      var s1 := Exec(Unbounded, s0, before).value;
      RunKeepsInv(s0, before, s1);
      StepKeepsInv(s1, es[|es| - 1]);
      QueueHistory(Dequeued(before), Contents(s1), Contents(s0), Enqueued(before), es[|es| - 1], Contents(s));
    }
  }

  /** Along a run the two index histories only grow, a thread never un-sees a value, and items are counted by the indices. */
  lemma {:induction false} HistoryGrows<T>(s0: State<T>, es: seq<Event<T>>, s: State<T>)
    requires Inv(s0) && Exec(Unbounded, s0, es) == Some(s)
    ensures Inv(s) && |s.data| == |s0.data|
    ensures s0.heads <= s.heads && s0.tails <= s.tails
    ensures s0.seenHead <= s.seenHead && s0.seenTail <= s.seenTail
    ensures Newest(s.heads) == Newest(s0.heads) + |Enqueued(es)|
    ensures Newest(s.tails) == Newest(s0.tails) + |Dequeued(es)|
    decreases |es|
  {
    if es != [] {
      var before := es[..|es| - 1];
      var s1 := Exec(Unbounded, s0, before).value;
      HistoryGrows(s0, before, s1);
      StepKeepsInv(s1, es[|es| - 1]);
    }
  }

  /** The slots the producer has claimed and not yet written, against every published unread slot. */
  lemma ClaimedSlotsAreFree<T>(s: State<T>, j: nat, k: nat)
    requires Inv(s) && s.prod.PCopying? && s.prod.i <= j < s.prod.cnt
    requires k < |Contents(s)|
    ensures Slot(|s.data|, s.prod.h + j) != Slot(|s.data|, Newest(s.tails) + k)
  {
    SlotsDistinct(|s.data|, Newest(s.tails) + k, s.prod.h + j);
  }
}
