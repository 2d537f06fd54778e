/** Packet conservation, per-queue order and priority over every interleaving, whatever the
    environment does (expired waits included). */
module CoexQueues {
  import opened Basics
  import opened TxAssets
  import opened CoexProtocol
  import opened CoexSafety
  import opened CoexTrace

  /** Packets put on queue `q`, in order. */
  function Arrivals(log: seq<Event>, q: Queue): seq<Packet> {
    if log == [] then [] else
      var e := log[|log| - 1];
      Arrivals(log[..|log| - 1], q) + if e.Enqueued? && e.q == q then [e.pkt] else []
  }

  /** Packets from queue `q` handed to the write operation, in order. */
  function Written(log: seq<Event>, q: Queue): seq<Packet> {
    if log == [] then [] else
      var e := log[|log| - 1];
      Written(log[..|log| - 1], q) + if e.Sent? && e.q == q then [e.pkt] else []
  }

  /** Packets from queue `q` refused and thrown away, in order. */
  function Discarded(log: seq<Event>, q: Queue): seq<Packet> {
    if log == [] then [] else
      var e := log[|log| - 1];
      Discarded(log[..|log| - 1], q) + if e.Dropped? && e.q == q then [e.pkt] else []
  }

  /** Packets written or thrown away, in order. */
  function Handled(log: seq<Event>, q: Queue): seq<Packet> {
    if log == [] then [] else
      var e := log[|log| - 1];
      Handled(log[..|log| - 1], q) + if (e.Sent? || e.Dropped?) && e.q == q then [e.pkt] else []
  }

  /** Packets whose buffer was given back, in order. */
  function Freed(log: seq<Event>, q: Queue): seq<Packet> {
    if log == [] then [] else
      var e := log[|log| - 1];
      Freed(log[..|log| - 1], q) + if e.Released? && e.q == q then [e.pkt] else []
  }

  function InHand(s: State, q: Queue): seq<Packet> {
    if s.coex.Holding? && s.coex.q == q then [s.coex.pkt] else []
  }

  /** The packet that is done with but not given back. */
  function Unreleased(s: State, q: Queue): seq<Packet> {
    if s.coex.Releasing? && s.coex.q == q then [s.coex.pkt] else []
  }

  lemma Snoc(log: seq<Event>, e: Event, q: Queue)
    ensures Arrivals(log + [e], q) == Arrivals(log, q) + if e.Enqueued? && e.q == q then [e.pkt] else []
    ensures Written(log + [e], q) == Written(log, q) + if e.Sent? && e.q == q then [e.pkt] else []
    ensures Discarded(log + [e], q) == Discarded(log, q) + if e.Dropped? && e.q == q then [e.pkt] else []
    ensures Handled(log + [e], q) == Handled(log, q) + if (e.Sent? || e.Dropped?) && e.q == q then [e.pkt] else []
    ensures Freed(log + [e], q) == Freed(log, q) + if e.Released? && e.q == q then [e.pkt] else []
  {
    assert (log + [e])[..|log|] == log;
  }

  /** First in, first out, nothing lost, nothing duplicated, and every buffer given back once. */
  predicate Flow(s: State, q: Queue) {
    && Arrivals(s.log, q) == Handled(s.log, q) + InHand(s, q) + s.queues[q]
    && Handled(s.log, q) == Freed(s.log, q) + Unreleased(s, q)
  }

  /** No packet of `q` comes, goes or is given back. */
  predicate SameBooks(a: seq<Event>, b: seq<Event>, q: Queue) {
    Arrivals(a, q) == Arrivals(b, q) && Handled(a, q) == Handled(b, q) && Freed(a, q) == Freed(b, q)
  }

  /** The thread never reaches for a packet that is not there. */
  predicate QueueInv(s: State) {
    && CoexSane(s.coex)
    && (s.coex.Taking? ==> s.queues[s.coex.q] != [])
    && (s.coex.Intending? || s.coex.Checking? || s.coex.Waiting? ==> s.queues[QueueOf(s.coex.p)] != [])
  }

  // ---- steps that move no packet ----

  predicate NoPacketMoves(s: State, n: State) {
    && n.queues == s.queues && !s.coex.Holding? && !n.coex.Holding?
    && !s.coex.Releasing? && !n.coex.Releasing?
  }

  lemma UpdateLogs(s: State, p: Proto, allocOk: bool, q: Queue)
    ensures SameBooks(CallUpdate(s, p, allocOk).log, s.log, q)
  {
    Snoc(s.log, Acked(s.token), q);
  }

  lemma LookMovesNothing(s: State, i: nat)
    requires s.coex.Selecting? || s.coex.Looking?
    ensures NoPacketMoves(s, Look(s, i)) && (QueueInv(s) ==> QueueInv(Look(s, i)))
  {
    var d := BeginDrain(s, BT_ID, DrainNext);
    var b := BeginTransmit(s, BT_ID);
    var z := BeginTransmit(s, ZB_ID);
    assert NoPacketMoves(s, d) && NoPacketMoves(s, b) && NoPacketMoves(s, z);
  }

  lemma DrainMovesNothing(s: State)
    requires s.coex.DrainNext?
    ensures NoPacketMoves(s, CoexNext(s, true)) && (QueueInv(s) ==> QueueInv(CoexNext(s, true)))
  {
    var n := BeginDrain(s, ZB_ID, Selecting);
  }

  lemma TakeFlow(s: State, q: Queue)
    requires Flow(s, q) && QueueInv(s) && s.coex.Taking?
    ensures Flow(Take(s, s.coex.q), q) && QueueInv(Take(s, s.coex.q))
  {
    var r := s.coex.q;
    var n := Take(s, r);
    assert s.queues[r] == [s.queues[r][0]] + s.queues[r][1..];
    if q == r {
      assert InHand(n, q) + n.queues[q] == s.queues[q];
      assert Handled(s.log, q) + [] + s.queues[q] == Handled(s.log, q) + InHand(n, q) + n.queues[q];
    }
  }

  lemma DisposeFlow(s: State, q: Queue)
    requires Flow(s, q) && QueueInv(s) && s.coex.Holding?
    ensures var n := Dispose(s, s.coex.q, s.coex.pkt); Flow(n, q) && QueueInv(n)
  {
    var n := Dispose(s, s.coex.q, s.coex.pkt);
    Snoc(s.log, n.log[|s.log|], q);
  }

  lemma ReleaseFlow(s: State, allocOk: bool, q: Queue)
    requires Flow(s, q) && QueueInv(s) && s.coex.Releasing?
    ensures Flow(CoexNext(s, allocOk), q) && QueueInv(CoexNext(s, allocOk))
  {
    Snoc(s.log, Released(s.coex.q, s.coex.pkt), q);
  }

  lemma ReportFlow(s: State, allocOk: bool, q: Queue)
    requires Flow(s, q) && QueueInv(s) && (s.coex.Intending? || s.coex.Reporting?)
    ensures Flow(CoexNext(s, allocOk), q) && QueueInv(CoexNext(s, allocOk))
  {
    UpdateLogs(s, s.coex.p, allocOk, q);
  }

  lemma CoexFlow(s: State, allocOk: bool, q: Queue)
    requires Flow(s, q) && QueueInv(s)
    ensures Flow(CoexNext(s, allocOk), q) && QueueInv(CoexNext(s, allocOk))
  {
    match s.coex
    case Selecting => LookMovesNothing(s, 0); CoexSilent(s, allocOk);
    case Looking(i) => LookMovesNothing(s, i); CoexSilent(s, allocOk);
    case DrainNext => DrainMovesNothing(s); CoexSilent(s, allocOk);
    case Intending(_) => ReportFlow(s, allocOk, q);
    case Reporting(_) => ReportFlow(s, allocOk, q);
    case Holding(_, _) => DisposeFlow(s, q);
    case Releasing(_, _) => ReleaseFlow(s, allocOk, q);
    case Taking(_) => TakeFlow(s, q);
    case _ =>
  }

  /** The WLAN thread touches neither the queues nor the coex thread. */
  lemma WlanFrame(s: State, allocOk: bool)
    ensures var n := WlanNext(s, allocOk); n.queues == s.queues && n.coex == s.coex
  {
  }

  lemma WlanLogs(s: State, allocOk: bool, q: Queue)
    ensures SameBooks(WlanNext(s, allocOk).log, s.log, q)
  {
    if s.wlan.WlanIntending? || s.wlan.WlanReporting? {
      UpdateLogs(s, WLAN_ID, allocOk, q);
    } else if s.wlan.WlanWriting? {
      Snoc(s.log, WlanSent(s.wlan.pkt), q);
    } else {
      WlanSilent(s, allocOk);
    }
  }

  lemma WlanFlow(s: State, allocOk: bool, q: Queue)
    requires Flow(s, q) && QueueInv(s)
    ensures Flow(WlanNext(s, allocOk), q) && QueueInv(WlanNext(s, allocOk))
  {
    WlanFrame(s, allocOk);
    WlanLogs(s, allocOk, q);
    FlowFrame(s, WlanNext(s, allocOk), q);
  }

  /** The receive path touches neither the queues nor the coex thread. */
  lemma RxFrame(s: State, allocOk: bool)
    requires !s.rx.Idle?
    ensures var n := RxNext(s, allocOk);
      n.queues == s.queues && n.coex == s.coex && (n.log == s.log || n.log == s.log + [Acked(s.token)])
  {
  }

  lemma RxLogs(s: State, allocOk: bool, q: Queue)
    requires !s.rx.Idle?
    ensures SameBooks(RxNext(s, allocOk).log, s.log, q)
  {
    RxFrame(s, allocOk);
    Snoc(s.log, Acked(s.token), q);
  }

  lemma RxFlow(s: State, allocOk: bool, q: Queue)
    requires Flow(s, q) && QueueInv(s) && !s.rx.Idle?
    ensures Flow(RxNext(s, allocOk), q) && QueueInv(RxNext(s, allocOk))
  {
    RxFrame(s, allocOk);
    RxLogs(s, allocOk, q);
    FlowFrame(s, RxNext(s, allocOk), q);
  }

  lemma Regroup(a: seq<Packet>, b: seq<Packet>, c: seq<Packet>, d: seq<Packet>)
    ensures a + b + c + d == a + b + (c + d)
  {
  }

  /** A queue only grows at its end, so a packet someone counts on stays. */
  lemma EnqueueKeepsInv(s: State, r: Queue, pkt: Packet, n: State)
    requires QueueInv(s) && n.coex == s.coex && n.queues == s.queues[r := s.queues[r] + [pkt]]
    ensures QueueInv(n)
  {
  }

  lemma EnqueueFlow(s: State, r: Queue, pkt: Packet, n: State, q: Queue)
    requires Flow(s, q) && QueueInv(s)
    requires n.coex == s.coex && n.log == s.log + [Enqueued(r, pkt)] && n.queues == s.queues[r := s.queues[r] + [pkt]]
    ensures Flow(n, q) && QueueInv(n)
  {
    EnqueueKeepsInv(s, r, pkt, n);
    Snoc(s.log, Enqueued(r, pkt), q);
    var handled := Handled(s.log, q);
    assert Handled(n.log, q) == handled && Freed(n.log, q) == Freed(s.log, q);
    assert InHand(n, q) == InHand(s, q) && Unreleased(n, q) == Unreleased(s, q);
    if r == q { Regroup(handled, InHand(s, q), s.queues[q], [pkt]); }
  }

  /** Same queues, same packet in hand, same packet history: the books still balance. */
  lemma FlowFrame(s: State, n: State, q: Queue)
    requires Flow(s, q) && QueueInv(s)
    requires n.queues == s.queues && SameBooks(n.log, s.log, q)
    requires n.coex == s.coex || (n.coex.Selecting? && !s.coex.Holding? && !s.coex.Releasing?)
    ensures Flow(n, q) && QueueInv(n)
  {
  }

  lemma StepFlow(cfg: Config, s: State, a: Action, q: Queue)
    requires Flow(s, q) && QueueInv(s) && Enabled(cfg, s, a)
    ensures Flow(Next(s, a), q) && QueueInv(Next(s, a))
  {
    if a.Enqueue? { EnqueueFlow(s, a.q, a.pkt, Next(s, a), q); }
    else if a.RxStep? { RxFlow(s, a.allocOk, q); }
    else if a.CoexStep? { CoexFlow(s, a.allocOk, q); }
    else if a.WlanStep? { WlanFlow(s, a.allocOk, q); }
    else if a.Notify? {
      Snoc(s.log, Notified(a.entry, a.token), q);
      FlowFrame(s, Next(s, a), q);
    } else {
      FlowFrame(s, Next(s, a), q);
    }
  }

  lemma {:induction false} RunFlow(cfg: Config, s: State, acts: seq<Action>, q: Queue)
    requires Flow(s, q) && QueueInv(s) && Runs(cfg, s, acts)
    ensures Flow(After(cfg, s, acts), q) && QueueInv(After(cfg, s, acts))
    decreases |acts|
  {
    if acts != [] {
      StepFlow(cfg, s, acts[0], q);
      RunFlow(cfg, Next(s, acts[0]), acts[1..], q);
    }
  }

  lemma {:induction false} HandledIsWrittenOrDropped(log: seq<Event>, q: Queue)
    ensures multiset(Handled(log, q)) == multiset(Written(log, q)) + multiset(Discarded(log, q))
    decreases |log|
  {
    if log != [] {
      HandledIsWrittenOrDropped(log[..|log| - 1], q);
    }
  }

  /** Every packet ever queued is, exactly as often as it was queued, waiting, in hand, written or
      thrown away; a queue is served in order; the thread never finds its chosen queue empty. */
  lemma PacketsAreConserved(cfg: Config, s: State, q: Queue)
    requires Reachable(cfg, s)
    ensures Arrivals(s.log, q) == Handled(s.log, q) + InHand(s, q) + s.queues[q]
    ensures multiset(Arrivals(s.log, q)) ==
      multiset(Written(s.log, q)) + multiset(Discarded(s.log, q)) + multiset(InHand(s, q)) + multiset(s.queues[q])
    ensures s.coex.Taking? ==> s.queues[s.coex.q] != []
  {
    var init, acts :| Initial(init) && Runs(cfg, init, acts) && After(cfg, init, acts) == s;
    RunFlow(cfg, init, acts, q);
    HandledIsWrittenOrDropped(s.log, q);
  }

  /** Buffers are given back in the order the packets were done with, each exactly once: at any time
      all of them but the one the thread is about to give back. */
  lemma FreedOnce(cfg: Config, s: State, q: Queue)
    requires Reachable(cfg, s)
    ensures Handled(s.log, q) == Freed(s.log, q) + Unreleased(s, q)
    ensures multiset(Freed(s.log, q)) + multiset(Unreleased(s, q)) ==
      multiset(Written(s.log, q)) + multiset(Discarded(s.log, q))
  {
    var init, acts :| Initial(init) && Runs(cfg, init, acts) && After(cfg, init, acts) == s;
    RunFlow(cfg, init, acts, q);
    HandledIsWrittenOrDropped(s.log, q);
  }
}
