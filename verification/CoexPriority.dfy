/** Priority over whole runs.  The coex thread looks at the queues one after the other, without a lock.
    What every run keeps, and what it keeps exactly when nothing is queued between two looks. */
module CoexPriority {
  import opened Basics
  import opened TxAssets
  import opened CoexProtocol
  import opened CoexSafety
  import opened CoexLimits
  import opened CoexTrace
  import opened CoexQueues

  predicate IsHandled(e: Event) { e.Sent? || e.Dropped? }

  /** VIP, COEX, BT, ZIGB, WLAN. */
  function Place(q: Queue): (i: nat)
    ensures i < 5 && PRIORITY[i] == q
  {
    if q == VIP_Q then 0 else if q == COEX_Q then 1 else if q == BT_Q then 2 else if q == ZIGB_Q then 3 else 4
  }

  lemma PlaceOf(i: nat)
    requires i < 5
    ensures Place(PRIORITY[i]) == i
  {
    assert PRIORITY[0] == VIP_Q && PRIORITY[1] == COEX_Q && PRIORITY[2] == BT_Q;
    assert PRIORITY[3] == ZIGB_Q && PRIORITY[4] == WLAN_Q;
  }

  // ---- what the history says ----

  /** After the first `k` events queue `r` held nothing. */
  predicate EmptyAt(log: seq<Event>, k: nat, r: Queue)
    requires k <= |log|
  {
    Arrivals(log[..k], r) == Handled(log[..k], r)
  }

  /** No packet is dealt with from event `k` up to event `n`. */
  predicate NoneHandled(log: seq<Event>, k: nat, n: nat)
    requires n <= |log|
  {
    forall j :: k <= j < n ==> !IsHandled(log[j])
  }

  /** Queue `r` was empty at some moment since the last packet was dealt with. */
  ghost predicate Cleared(log: seq<Event>, n: nat, r: Queue)
    requires n <= |log|
  {
    exists k :: 0 <= k <= n && EmptyAt(log, k, r) && NoneHandled(log, k, n)
  }

  /** After the first `k` events it was the turn of queue `q`. */
  predicate TurnAt(log: seq<Event>, k: nat, q: Queue)
    requires k <= |log|
  {
    !EmptyAt(log, k, q) && forall r: Queue :: Place(r) < Place(q) ==> EmptyAt(log, k, r)
  }

  /** At one moment since the last packet was dealt with it was the turn of queue `q`. */
  ghost predicate Turn(log: seq<Event>, n: nat, q: Queue)
    requires n <= |log|
  {
    exists k :: 0 <= k <= n && TurnAt(log, k, q) && NoneHandled(log, k, n)
  }

  /** Before every packet dealt with, each queue before its own was empty at some moment. */
  ghost predicate ServedAfterLooking(log: seq<Event>) {
    forall i :: 0 <= i < |log| && IsHandled(log[i]) ==> AfterLooking(log, i, log[i].q)
  }

  ghost predicate AfterLooking(log: seq<Event>, n: nat, q: Queue)
    requires n <= |log|
  {
    !EmptyAt(log, n, q) && forall r: Queue :: Place(r) < Place(q) ==> Cleared(log, n, r)
  }

  /** ... all of them at the same moment, when its own was not. */
  ghost predicate ServedInTurn(log: seq<Event>) {
    forall i :: 0 <= i < |log| && IsHandled(log[i]) ==> Turn(log, i, log[i].q)
  }

  lemma EmptyAtSnoc(log: seq<Event>, e: Event, k: nat, r: Queue)
    requires k <= |log|
    ensures EmptyAt(log + [e], k, r) == EmptyAt(log, k, r)
  {
    assert (log + [e])[..k] == log[..k];
  }

  lemma NoneHandledSnoc(log: seq<Event>, e: Event, k: nat, n: nat)
    requires n <= |log| && NoneHandled(log, k, n)
    ensures NoneHandled(log + [e], k, n)
    ensures n == |log| && !IsHandled(e) ==> NoneHandled(log + [e], k, n + 1)
  {
  }

  lemma ClearedSnoc(log: seq<Event>, e: Event, n: nat, r: Queue)
    requires n <= |log| && Cleared(log, n, r)
    ensures Cleared(log + [e], n, r)
    ensures n == |log| && !IsHandled(e) ==> Cleared(log + [e], n + 1, r)
  {
    var k :| 0 <= k <= n && EmptyAt(log, k, r) && NoneHandled(log, k, n);
    EmptyAtSnoc(log, e, k, r);
    NoneHandledSnoc(log, e, k, n);
  }

  lemma TurnSnoc(log: seq<Event>, e: Event, n: nat, q: Queue)
    requires n <= |log| && Turn(log, n, q)
    ensures Turn(log + [e], n, q)
    ensures n == |log| && !IsHandled(e) ==> Turn(log + [e], n + 1, q)
  {
    var k :| 0 <= k <= n && TurnAt(log, k, q) && NoneHandled(log, k, n);
    forall r: Queue ensures EmptyAt(log + [e], k, r) == EmptyAt(log, k, r) { EmptyAtSnoc(log, e, k, r); }
    assert TurnAt(log + [e], k, q);
    NoneHandledSnoc(log, e, k, n);
  }

  lemma AfterLookingSnoc(log: seq<Event>, e: Event, n: nat, q: Queue)
    requires n <= |log| && AfterLooking(log, n, q)
    ensures AfterLooking(log + [e], n, q)
  {
    EmptyAtSnoc(log, e, n, q);
    forall r: Queue | Place(r) < Place(q) ensures Cleared(log + [e], n, r) { ClearedSnoc(log, e, n, r); }
  }

  lemma LookingSnoc(log: seq<Event>, e: Event)
    requires ServedAfterLooking(log) && (IsHandled(e) ==> AfterLooking(log, |log|, e.q))
    ensures ServedAfterLooking(log + [e])
  {
    var l := log + [e];
    forall i | 0 <= i < |l| && IsHandled(l[i]) ensures AfterLooking(l, i, l[i].q) {
      if i < |log| { AfterLookingSnoc(log, e, i, log[i].q); } else { AfterLookingSnoc(log, e, i, e.q); }
    }
  }

  lemma ServedSnoc(log: seq<Event>, e: Event)
    requires ServedInTurn(log) && (IsHandled(e) ==> Turn(log, |log|, e.q))
    ensures ServedInTurn(log + [e])
  {
    var l := log + [e];
    forall i | 0 <= i < |l| && IsHandled(l[i]) ensures Turn(l, i, l[i].q) {
      if i < |log| { TurnSnoc(log, e, i, log[i].q); } else { TurnSnoc(log, e, i, e.q); }
    }
  }

  // ---- the state and the history ----

  /** The queue the thread is busy with, from choosing it until its packet is dealt with. */
  function Serving(pc: CoexPc): Option<Queue> {
    match pc
    case Intending(p) => Some(QueueOf(p))
    case Checking(p) => Some(QueueOf(p))
    case Waiting(p) => Some(QueueOf(p))
    case Taking(q) => Some(q)
    case Holding(q, _) => Some(q)
    case _ => None
  }

  /** How many queues the thread has behind it: those before its own, or those it has seen empty. */
  function Seen(pc: CoexPc): nat {
    if Serving(pc).Some? then Place(Serving(pc).value) else if pc.Looking? then pc.i else 0
  }

  ghost predicate LookInv(s: State) {
    && ServedAfterLooking(s.log) && (s.coex.Looking? ==> s.coex.i <= 5)
    && forall r: Queue :: Place(r) < Seen(s.coex) ==> Cleared(s.log, |s.log|, r)
  }

  /** The books of all queues balance. */
  predicate Books(s: State) { QueueInv(s) && forall r: Queue :: Flow(s, r) }

  /** What the history says about a queue while no packet is in hand. */
  lemma EmptyNow(s: State, r: Queue)
    requires Flow(s, r)
    ensures EmptyAt(s.log, |s.log|, r) <==> InHand(s, r) == [] && s.queues[r] == []
  {
    assert s.log[..|s.log|] == s.log;
    var h, i, q := Handled(s.log, r), InHand(s, r), s.queues[r];
    if i == [] && q == [] { assert h + i + q == h; } else { assert |h + i + q| > |h|; }
  }

  lemma ClearedNow(s: State, r: Queue)
    requires Flow(s, r) && InHand(s, r) == [] && s.queues[r] == []
    ensures Cleared(s.log, |s.log|, r)
  {
    EmptyNow(s, r);
    assert NoneHandled(s.log, |s.log|, |s.log|);
  }

  /** The log grows by at most one event, and that is not a packet dealt with. */
  predicate Quietly(s: State, n: State) {
    n.log == s.log || (|n.log| > 0 && n.log == s.log + [n.log[|n.log| - 1]] && !IsHandled(n.log[|n.log| - 1]))
  }

  lemma LookFrame(s: State, n: State)
    requires LookInv(s) && Quietly(s, n) && Seen(n.coex) <= Seen(s.coex) && (n.coex.Looking? ==> n.coex == s.coex)
    ensures LookInv(n)
  {
    if n.log != s.log {
      var e := n.log[|n.log| - 1];
      LookingSnoc(s.log, e);
      forall r: Queue | Place(r) < Seen(n.coex) ensures Cleared(n.log, |n.log|, r) {
        ClearedSnoc(s.log, e, |s.log|, r);
      }
    }
  }

  /** One look: the next queue is seen empty, or chosen, or all were empty. */
  lemma LookStep(s: State, i: nat)
    requires LookInv(s) && Books(s) && i <= 5 && (if i == 0 then s.coex.Selecting? else s.coex == Looking(i))
    ensures LookInv(Look(s, i))
  {
    LookSilent(s, i);
    var n := Look(s, i);
    if i < 5 {
      PlaceOf(i);
      forall r: Queue | Place(r) < Seen(n.coex) ensures Cleared(n.log, |n.log|, r) {
        if Place(r) == i {
          assert Flow(s, r) && InHand(s, r) == [];
          ClearedNow(s, r);
        } else {
          assert Place(r) < Seen(s.coex);
        }
      }
    }
  }

  lemma DisposeLooked(s: State)
    requires LookInv(s) && Books(s) && s.coex.Holding?
    ensures LookInv(Dispose(s, s.coex.q, s.coex.pkt))
  {
    var n, q := Dispose(s, s.coex.q, s.coex.pkt), s.coex.q;
    assert Flow(s, q) && InHand(s, q) != [];
    EmptyNow(s, q);
    LookingSnoc(s.log, n.log[|s.log|]);
  }

  lemma CoexQuietly(s: State, allocOk: bool)
    requires !s.coex.Holding? && !s.coex.Selecting? && !s.coex.Looking?
    ensures Quietly(s, CoexNext(s, allocOk)) && !CoexNext(s, allocOk).coex.Looking?
    ensures var pc := CoexNext(s, allocOk).coex; Serving(pc) == Serving(s.coex) || Serving(pc) == None
  {
    if !s.coex.Intending? && !s.coex.Reporting? && !s.coex.Releasing? { CoexSilent(s, allocOk); }
  }

  lemma CoexLooks(s: State, allocOk: bool)
    requires LookInv(s) && Books(s)
    ensures LookInv(CoexNext(s, allocOk))
  {
    if s.coex.Selecting? { LookStep(s, 0); }
    else if s.coex.Looking? { LookAgain(s); }
    else if s.coex.Holding? { DisposeLooked(s); }
    else {
      CoexQuietly(s, allocOk);
      LookFrame(s, CoexNext(s, allocOk));
    }
  }

  lemma LookAgain(s: State)
    requires LookInv(s) && Books(s) && s.coex.Looking?
    ensures LookInv(Look(s, s.coex.i))
  {
    if s.coex.i > 0 {
      LookStep(s, s.coex.i);
    } else {
      var t := s.(coex := Selecting);
      forall r: Queue ensures Flow(t, r) { assert Flow(s, r); }
      LookStep(t, 0);
      LookSilent(s, 0);
      LookSilent(t, 0);
      assert Look(t, 0).coex == Look(s, 0).coex && Look(t, 0).log == Look(s, 0).log;
    }
  }

  /** The other threads and the environment leave the coex thread alone and deal with no packet. */
  lemma OtherQuietly(cfg: Config, s: State, a: Action)
    requires Enabled(cfg, s, a) && !a.CoexStep?
    ensures Quietly(s, Next(s, a)) && (Next(s, a).coex == s.coex || Next(s, a).coex.Selecting?)
    ensures !a.Enqueue? ==> Next(s, a).queues == s.queues
  {
    if a.RxStep? { RxFrame(s, a.allocOk); }
    if a.WlanStep? { WlanFrame(s, a.allocOk); WlanAddsNoHandled(s, a.allocOk); }
  }

  lemma WlanAddsNoHandled(s: State, allocOk: bool)
    ensures Quietly(s, WlanNext(s, allocOk))
  {
    if !s.wlan.WlanIntending? && !s.wlan.WlanReporting? && !s.wlan.WlanWriting? { WlanSilent(s, allocOk); }
  }

  lemma BooksStep(cfg: Config, s: State, a: Action)
    requires Books(s) && Enabled(cfg, s, a)
    ensures Books(Next(s, a))
  {
    var n := Next(s, a);
    assert Flow(s, VIP_Q);
    StepFlow(cfg, s, a, VIP_Q);
    forall r: Queue ensures Flow(n, r) {
      assert Flow(s, r);
      StepFlow(cfg, s, a, r);
    }
  }

  lemma LookInvStep(cfg: Config, s: State, a: Action)
    requires LookInv(s) && Books(s) && Enabled(cfg, s, a)
    ensures LookInv(Next(s, a))
  {
    if a.CoexStep? {
      CoexLooks(s, a.allocOk);
    } else {
      OtherQuietly(cfg, s, a);
      LookFrame(s, Next(s, a));
    }
  }

  lemma {:induction false} RunLooks(cfg: Config, s: State, acts: seq<Action>)
    requires LookInv(s) && Books(s) && Runs(cfg, s, acts)
    ensures LookInv(After(cfg, s, acts))
    decreases |acts|
  {
    if acts != [] {
      BooksStep(cfg, s, acts[0]);
      LookInvStep(cfg, s, acts[0]);
      RunLooks(cfg, Next(s, acts[0]), acts[1..]);
    }
  }

  /** In every run, whatever the environment: before each packet written or thrown away, every queue
      before its own in the order VIP, COEX, BT, ZIGB, WLAN was empty at some moment since the packet
      dealt with before it. */
  lemma ServiceFollowsLooks(cfg: Config, s: State)
    requires Reachable(cfg, s)
    ensures ServedAfterLooking(s.log)
  {
    var init, acts :| Initial(init) && Runs(cfg, init, acts) && After(cfg, init, acts) == s;
    assert Books(init);
    RunLooks(cfg, init, acts);
  }

  // ---- when nothing is queued between two looks ----

  ghost predicate TurnInv(s: State) {
    && ServedInTurn(s.log) && (s.coex.Looking? ==> s.coex.i <= 5)
    && (s.coex.Looking? ==> forall r: Queue :: Place(r) < s.coex.i ==> s.queues[r] == [])
    && (Serving(s.coex).Some? ==> Turn(s.log, |s.log|, Serving(s.coex).value))
  }

  lemma TurnFrame(s: State, n: State)
    requires TurnInv(s) && Quietly(s, n) && (Serving(n.coex) == Serving(s.coex) || Serving(n.coex) == None)
    requires n.coex.Looking? ==> n.coex == s.coex && n.queues == s.queues
    ensures TurnInv(n)
  {
    if n.log != s.log {
      var e := n.log[|n.log| - 1];
      ServedSnoc(s.log, e);
      if Serving(n.coex).Some? { TurnSnoc(s.log, e, |s.log|, Serving(s.coex).value); }
    }
  }

  lemma TurnNow(s: State, q: Queue)
    requires Books(s) && (s.coex.Selecting? || s.coex.Looking?) && s.queues[q] != []
    requires forall r: Queue :: Place(r) < Place(q) ==> s.queues[r] == []
    ensures Turn(s.log, |s.log|, q)
  {
    forall r: Queue ensures EmptyAt(s.log, |s.log|, r) <==> s.queues[r] == [] {
      assert Flow(s, r) && InHand(s, r) == [];
      EmptyNow(s, r);
    }
    assert TurnAt(s.log, |s.log|, q) && NoneHandled(s.log, |s.log|, |s.log|);
  }

  lemma LookTurn(s: State, i: nat)
    requires TurnInv(s) && Books(s) && i <= 5 && ((s.coex.Selecting? && i == 0) || s.coex == Looking(i))
    ensures TurnInv(Look(s, i))
  {
    LookSilent(s, i);
    LookMovesNothing(s, i);
    if i < 5 {
      PlaceOf(i);
      if s.queues[PRIORITY[i]] != [] {
        TurnNow(s, PRIORITY[i]);
      } else {
        forall r: Queue | Place(r) < i + 1 ensures s.queues[r] == [] { assert PRIORITY[Place(r)] == r; }
      }
    }
  }

  lemma CoexTurn(s: State, allocOk: bool)
    requires TurnInv(s) && Books(s)
    ensures TurnInv(CoexNext(s, allocOk))
  {
    var n := CoexNext(s, allocOk);
    if s.coex.Selecting? { LookTurn(s, 0); }
    else if s.coex.Looking? { LookTurn(s, s.coex.i); }
    else if s.coex.Holding? { ServedSnoc(s.log, n.log[|s.log|]); }
    else {
      CoexQuietly(s, allocOk);
      TurnFrame(s, n);
    }
  }

  lemma TurnInvStep(cfg: Config, s: State, a: Action)
    requires cfg.selectsAtomic && TurnInv(s) && Books(s) && Enabled(cfg, s, a)
    ensures TurnInv(Next(s, a))
  {
    if a.CoexStep? {
      CoexTurn(s, a.allocOk);
    } else {
      OtherQuietly(cfg, s, a);
      TurnFrame(s, Next(s, a));
    }
  }

  lemma {:induction false} RunTurns(cfg: Config, s: State, acts: seq<Action>)
    requires cfg.selectsAtomic && TurnInv(s) && Books(s) && Runs(cfg, s, acts)
    ensures TurnInv(After(cfg, s, acts))
    decreases |acts|
  {
    if acts != [] {
      BooksStep(cfg, s, acts[0]);
      TurnInvStep(cfg, s, acts[0]);
      RunTurns(cfg, Next(s, acts[0]), acts[1..]);
    }
  }

  // ---- when something is ----

  const LATE := Packet(8, BT_TX_Q)

  /** COEX was seen empty; then a frame is queued there, and after it one for Bluetooth. */
  lemma QueuedBetweenLooks(cfg: Config) returns (n: State)
    requires !cfg.selectsAtomic
    ensures Reachable(cfg, n) && n.log == [Enqueued(COEX_Q, LATE), Enqueued(BT_Q, PKT)]
    ensures n.coex == Looking(2) && n.queues == [[LATE], [PKT], [], [], []] && n.rx == Idle && n.gated
    ensures n.fwActive == map[BT_ID as nat := true]
    ensures n.assets == Assets([IDLE_TECH, Bt(false, false, false), QUIET_ZB], true, false, false)
  {
    n := Start(cfg);
    n := LooksAtBt(cfg, n, Bt(false, false, false), true, false, false, Idle, []);
    n := Go(cfg, n, Enqueue(COEX_Q, LATE));
    n := Go(cfg, n, Enqueue(BT_Q, PKT));
    assert n.queues[COEX_Q] == [LATE] && n.queues[BT_Q] == [PKT];
  }

  /** The thread goes on to the Bluetooth queue and is let through. */
  lemma ServesBt(cfg: Config) returns (n: State)
    requires !cfg.selectsAtomic
    ensures Reachable(cfg, n) && n.log == [Enqueued(COEX_Q, LATE), Enqueued(BT_Q, PKT)]
    ensures n.coex == Taking(BT_Q) && n.queues[BT_Q] == [PKT] && n.rx == Idle && n.gated
    ensures n.fwActive == map[BT_ID as nat := true]
  {
    n := QueuedBetweenLooks(cfg);
    n := Go(cfg, n, CoexStep(true));
    n := Go(cfg, n, CoexStep(true));
    n := Go(cfg, n, CoexStep(true));
  }

  /** The Bluetooth packet is sent, although at no moment it was there and the COEX queue empty. */
  lemma OvertakenFrame(cfg: Config) returns (n: State)
    requires !cfg.selectsAtomic
    ensures Reachable(cfg, n) && n.log == [Enqueued(COEX_Q, LATE), Enqueued(BT_Q, PKT), Sent(BT_Q, PKT)]
  {
    n := ServesBt(cfg);
    n := Go(cfg, n, CoexStep(true));
    n := Go(cfg, n, CoexStep(true));
  }

  lemma OutOfTurn(log: seq<Event>)
    requires log == [Enqueued(COEX_Q, LATE), Enqueued(BT_Q, PKT), Sent(BT_Q, PKT)]
    ensures !ServedInTurn(log)
  {
    var l0, l1, l2 := log[..0], log[..1], log[..2];
    assert l1 == l0 + [log[0]] && l2 == l1 + [log[1]];
    Snoc(l0, log[0], BT_Q);
    Snoc(l0, log[0], COEX_Q);
    Snoc(l1, log[1], BT_Q);
    Snoc(l1, log[1], COEX_Q);
    assert EmptyAt(log, 0, BT_Q) && EmptyAt(log, 1, BT_Q) && !EmptyAt(log, 2, COEX_Q);
    assert Place(COEX_Q) < Place(BT_Q);
    assert !TurnAt(log, 0, BT_Q) && !TurnAt(log, 1, BT_Q) && !TurnAt(log, 2, BT_Q);
    assert !Turn(log, 2, BT_Q);
    assert IsHandled(log[2]);
  }

  /** Every packet dealt with was chosen at a moment when all queues before its own were empty and its
      own was not, in all runs, if and only if nothing is queued between two looks. */
  lemma PriorityExactlyWhen(cfg: Config)
    ensures (forall s :: Reachable(cfg, s) ==> ServedInTurn(s.log)) <==> cfg.selectsAtomic
  {
    if cfg.selectsAtomic {
      forall s | Reachable(cfg, s) ensures ServedInTurn(s.log) {
        var init, acts :| Initial(init) && Runs(cfg, init, acts) && After(cfg, init, acts) == s;
        assert Books(init);
        RunTurns(cfg, init, acts);
      }
    } else {
      var n := OvertakenFrame(cfg);
      OutOfTurn(n.log);
    }
  }

  // ---- one selection, undisturbed ----

  /** The looks from number `k` on, with nothing queued in between. */
  function LookOn(s: State, k: nat): State
    decreases 5 - k
  {
    if k < 5 && s.queues[PRIORITY[k]] == [] then LookOn(Look(s, k), k + 1) else Look(s, k)
  }

  lemma {:induction false} LookOnFinds(s: State, k: nat, i: nat)
    requires k <= 5 && i < 5
    ensures Serving(LookOn(s, k).coex) == Some(PRIORITY[i]) <==>
      k <= i && s.queues[PRIORITY[i]] != [] && forall j :: k <= j < i ==> s.queues[PRIORITY[j]] == []
    decreases 5 - k
  {
    PlaceOf(i);
    if k < 5 {
      PlaceOf(k);
      if s.queues[PRIORITY[k]] == [] { LookOnFinds(Look(s, k), k + 1, i); }
    }
  }

  /** coex_get_queue_num, undisturbed: a queue is chosen if and only if it is the first in the order
      that has a packet. */
  lemma SelectionFollowsPriority(s: State, i: nat)
    requires s.coex.Selecting? && i < 5
    ensures Serving(LookOn(s, 0).coex) == Some(PRIORITY[i]) <==>
      s.queues[PRIORITY[i]] != [] && forall j :: 0 <= j < i ==> s.queues[PRIORITY[j]] == []
    ensures Serving(LookOn(s, 0).coex) == None <==> forall j :: 0 <= j < 5 ==> s.queues[PRIORITY[j]] == []
  {
    LookOnFinds(s, 0, i);
    forall j | 0 <= j < 5
      ensures Serving(LookOn(s, 0).coex) == Some(PRIORITY[j]) <==>
        s.queues[PRIORITY[j]] != [] && forall k :: 0 <= k < j ==> s.queues[PRIORITY[k]] == []
    {
      LookOnFinds(s, 0, j);
    }
    SomeFirst(s, 5);
    if Serving(LookOn(s, 0).coex).Some? {
      var q := Serving(LookOn(s, 0).coex).value;
      assert PRIORITY[Place(q)] == q;
    }
  }

  lemma {:induction false} SomeFirst(s: State, n: nat)
    requires n <= 5
    ensures (forall j :: 0 <= j < n ==> s.queues[PRIORITY[j]] == []) || exists j ::
      0 <= j < n && s.queues[PRIORITY[j]] != [] && forall k :: 0 <= k < j ==> s.queues[PRIORITY[k]] == []
  {
    if n > 0 { SomeFirst(s, n - 1); }
  }
}
