/** The environments in which the handshake breaks, as concrete runs, and the exact condition. */
module CoexLimits {
  import opened TxAssets
  import opened CoexProtocol
  import opened CoexSafety

  const QUIET_ZB := Tech(Active, false, false, false, false)
  const PKT := Packet(7, BT_TX_Q)

  /** Data following an ack with no notification in between. */
  const STALE_SEND := [Notified(true, 1), Acked(1), Enqueued(BT_Q, PKT), Sent(BT_Q, PKT)]

  /** WiFi mode with only Bluetooth in play; everything the run depends on is spelled out. */
  predicate Shape(s: State, bt: Tech, common: bool, sleep: bool, ack: bool, rx: RxPc, coex: CoexPc, btq: seq<Packet>) {
    && s.assets == Assets([IDLE_TECH, bt, QUIET_ZB], common, sleep, ack)
    && s.queues == [[], btq, [], [], []]
    && s.rx == rx && s.coex == coex && s.wlan == WlanIdle
    && s.gated && s.fwActive == map[BT_ID as nat := true]
  }

  function Bt(intention: bool, access: bool, waiting: bool): Tech {
    Tech(Active, intention, access, waiting, true)
  }

  lemma RunsSnoc(cfg: Config, s: State, acts: seq<Action>, a: Action)
    requires Runs(cfg, s, acts) && Enabled(cfg, After(cfg, s, acts), a)
    ensures Runs(cfg, s, acts + [a]) && After(cfg, s, acts + [a]) == Next(After(cfg, s, acts), a)
    decreases |acts|
  {
    if acts == [] {
      assert acts + [a] == [a];
    } else {
      RunsSnoc(cfg, Next(s, acts[0]), acts[1..], a);
      assert (acts + [a])[1..] == acts[1..] + [a];
    }
  }

  lemma Go(cfg: Config, s: State, a: Action) returns (n: State)
    requires Reachable(cfg, s) && Enabled(cfg, s, a)
    ensures Reachable(cfg, n) && n == Next(s, a)
  {
    var init, acts :| Initial(init) && Runs(cfg, init, acts) && After(cfg, init, acts) == s;
    RunsSnoc(cfg, init, acts, a);
    n := Next(s, a);
  }

  lemma Start(cfg: Config) returns (s: State)
    ensures Reachable(cfg, s)
    ensures Shape(s, Bt(false, false, false), true, false, false, Idle, Selecting, []) && s.log == []
  {
    s := State(Assets([IDLE_TECH, Bt(false, false, false), QUIET_ZB], true, false, false), 0,
      [[], [], [], [], []], map[BT_ID as nat := true], true, Idle, Selecting, WlanIdle, []);
    assert Runs(cfg, s, []) && After(cfg, s, []) == s;
  }

  /** The first two queues are empty: the thread is about to look at the Bluetooth queue. */
  lemma LooksAtBt(cfg: Config, s: State, bt: Tech, c: bool, sl: bool, ack: bool, rx: RxPc, btq: seq<Packet>)
    returns (n: State)
    requires Reachable(cfg, s) && OthersRun(cfg, rx) && Shape(s, bt, c, sl, ack, rx, Selecting, btq)
    ensures Reachable(cfg, n) && Shape(n, bt, c, sl, ack, rx, Looking(2), btq) && n.log == s.log
  {
    n := Go(cfg, s, CoexStep(true));
    n := Go(cfg, n, CoexStep(true));
  }

  /** All queues are empty: the thread is about to drain. */
  lemma LooksPastAll(cfg: Config, s: State, bt: Tech, c: bool, sl: bool, ack: bool, rx: RxPc) returns (n: State)
    requires Reachable(cfg, s) && OthersRun(cfg, rx) && Shape(s, bt, c, sl, ack, rx, Selecting, [])
    ensures Reachable(cfg, n) && Shape(n, bt, c, sl, ack, rx, Looking(5), []) && n.log == s.log
  {
    n := LooksAtBt(cfg, s, bt, c, sl, ack, rx, []);
    n := Go(cfg, n, CoexStep(true));
    n := Go(cfg, n, CoexStep(true));
    n := Go(cfg, n, CoexStep(true));
  }

  /** A sleep request arriving while nobody intends to transmit is acked at once. */
  lemma SleepIn(cfg: Config, s: State, bt: Tech, common: bool, coex: CoexPc) returns (n: State)
    requires Reachable(cfg, s) && !bt.intention
    requires exists sl, ack :: Shape(s, bt, common, sl, ack, Idle, coex, [])
    ensures Reachable(cfg, n) && Shape(n, bt, false, true, true, Idle, coex, [])
    ensures n.log == s.log + [Notified(true, 1), Acked(1)]
  {
    n := Go(cfg, s, Notify(true, 1));
    n := Go(cfg, n, RxStep(true));
    assert s.log + [Notified(true, 1)] + [Acked(1)] == s.log + [Notified(true, 1), Acked(1)];
  }

  /** A sleep exit up to the point where the wake-up loop looks at Bluetooth. */
  lemma ExitBegins(cfg: Config, s: State, bt: Tech, coex: CoexPc, btq: seq<Packet>) returns (n: State)
    requires Reachable(cfg, s)
    requires exists c, sl, ack :: Shape(s, bt, c, sl, ack, Idle, coex, btq)
    ensures Reachable(cfg, n) && Shape(n, bt, true, false, false, Granting(false, 1), coex, btq)
  {
    n := Go(cfg, s, Notify(false, 1));
    n := Go(cfg, n, RxStep(true));
    n := Go(cfg, n, RxStep(true));
  }

  lemma ExitEnds(cfg: Config, s: State, bt: Tech, coex: CoexPc, btq: seq<Packet>) returns (n: State)
    requires Reachable(cfg, s) && Shape(s, bt, true, false, false, Granting(false, 2), coex, btq)
    ensures Reachable(cfg, n) && Shape(n, bt, true, false, false, Idle, coex, btq)
    ensures n.log == s.log
  {
    n := Go(cfg, s, RxStep(true));
    n := Go(cfg, n, RxStep(true));
  }

  /** A sleep exit, run undisturbed, wakes whoever waits. */
  lemma WakeUp(cfg: Config, s: State, bt: Tech, coex: CoexPc, btq: seq<Packet>) returns (n: State)
    requires Reachable(cfg, s) && bt.drv.Active?
    requires exists c, sl, ack :: Shape(s, bt, c, sl, ack, Idle, coex, btq)
    ensures Reachable(cfg, n) && Shape(n, Woken(bt), true, false, false, Idle, coex, btq)
  {
    n := ExitBegins(cfg, s, bt, coex, btq);
    n := Go(cfg, n, RxStep(true));
    if bt.waiting { n := Go(cfg, n, RxStep(true)); }
    n := ExitEnds(cfg, n, Woken(bt), coex, btq);
  }

  lemma Enqueued1(cfg: Config, s: State, bt: Tech, c: bool, sl: bool, ack: bool) returns (n: State)
    requires Reachable(cfg, s) && Shape(s, bt, c, sl, ack, Idle, Selecting, [])
    ensures Reachable(cfg, n) && Shape(n, bt, c, sl, ack, Idle, Selecting, [PKT])
    ensures n.log == s.log + [Enqueued(BT_Q, PKT)]
  {
    n := Go(cfg, s, Enqueue(BT_Q, PKT));
    assert s.queues[BT_Q] + [PKT] == [PKT];
    assert n.queues == [[], [PKT], [], [], []];
  }

  /** A Bluetooth packet arrives while the device sleeps: the thread is refused access. */
  lemma RefusedPacket(cfg: Config, s: State) returns (n: State)
    requires Reachable(cfg, s) && Shape(s, Bt(false, false, false), false, true, true, Idle, Selecting, [])
    ensures Reachable(cfg, n) && Shape(n, Bt(true, false, false), false, true, true, Idle, Checking(BT_ID), [PKT])
  {
    n := Enqueued1(cfg, s, Bt(false, false, false), false, true, true);
    n := LooksAtBt(cfg, n, Bt(false, false, false), false, true, true, Idle, [PKT]);
    n := Go(cfg, n, CoexStep(true));
    n := Go(cfg, n, CoexStep(true));
  }

  lemma SendTaken(cfg: Config, s: State, bt: Tech, c: bool, sl: bool, ack: bool, rx: RxPc) returns (n: State)
    requires Reachable(cfg, s) && OthersRun(cfg, rx)
    requires Shape(s, bt, c, sl, ack, rx, Taking(BT_Q), [PKT])
    ensures Reachable(cfg, n) && Shape(n, bt, c, sl, ack, rx, Releasing(BT_Q, PKT), [])
    ensures n.log == s.log + [Sent(BT_Q, PKT)]
  {
    n := Go(cfg, s, CoexStep(true));
    n := Go(cfg, n, CoexStep(true));
    assert s.queues[BT_Q][1..] == [];
    assert n.queues == [[], [], [], [], []];
  }

  lemma Withdraw(cfg: Config, s: State, sl: bool, rx: RxPc, access: bool, waiting: bool) returns (n: State)
    requires Reachable(cfg, s) && OthersRun(cfg, rx)
    requires Shape(s, Bt(true, access, waiting), true, sl, false, rx, Selecting, [])
    ensures Reachable(cfg, n) && Shape(n, Bt(false, false, waiting), true, sl, false, rx, Reporting(BT_ID), [])
  {
    n := LooksPastAll(cfg, s, Bt(true, access, waiting), true, sl, false, rx);
    n := Go(cfg, n, CoexStep(true));
    n := Go(cfg, n, CoexStep(true));
  }

  /** With the packet in hand, send it and drain. */
  lemma SendAndDrain(cfg: Config, s: State, rx: RxPc, access: bool, waiting: bool) returns (n: State)
    requires Reachable(cfg, s) && OthersRun(cfg, rx) && !Locked(rx)
    requires Shape(s, Bt(true, access, waiting), true, false, false, rx, Taking(BT_Q), [PKT])
    ensures Reachable(cfg, n) && Shape(n, Bt(false, false, waiting), true, false, false, rx, Selecting, [])
  {
    n := SendTaken(cfg, s, Bt(true, access, waiting), true, false, false, rx);
    n := Go(cfg, n, CoexStep(true));
    n := Withdraw(cfg, n, false, rx, access, waiting);
    n := Go(cfg, n, CoexStep(true));
    n := Go(cfg, n, CoexStep(true));
  }

  lemma StaleAccessTakes(cfg: Config, s: State) returns (n: State)
    requires Reachable(cfg, s) && Shape(s, Bt(false, true, false), true, false, false, Idle, Selecting, [])
    ensures Reachable(cfg, n) && Shape(n, Bt(false, true, false), false, true, true, Idle, Taking(BT_Q), [PKT])
    ensures n.log == s.log + [Notified(true, 1), Acked(1)] + [Enqueued(BT_Q, PKT)]
  {
    n := SleepIn(cfg, s, Bt(false, true, false), true, Selecting);
    n := Enqueued1(cfg, n, Bt(false, true, false), false, true, true);
    n := LooksAtBt(cfg, n, Bt(false, true, false), false, true, true, Idle, [PKT]);
    n := Go(cfg, n, CoexStep(true));
  }

  /** With access left over from a stale grant, the next packet goes out although the ack is out. */
  lemma StaleAccessSends(cfg: Config, s: State) returns (bad: State, sent: State)
    requires Reachable(cfg, s) && Shape(s, Bt(false, true, false), true, false, false, Idle, Selecting, [])
    ensures Reachable(cfg, bad) && !Safe(bad)
    ensures Reachable(cfg, sent) && sent.log == s.log + STALE_SEND
  {
    bad := StaleAccessTakes(cfg, s);
    assert AboutToSend(bad, BT_ID) && bad.assets.ackSent;
    sent := SendTaken(cfg, bad, Bt(false, true, false), false, true, true, Idle);
    assert sent.log == s.log + [Notified(true, 1), Acked(1)] + [Enqueued(BT_Q, PKT)] + [Sent(BT_Q, PKT)];
  }

  /** The sleep exit slips in before the waiting flag is up, and the wait then expires. */
  lemma ExpiredFlag(cfg: Config) returns (n: State)
    requires cfg.waitsMayExpire
    ensures Reachable(cfg, n) && Shape(n, Bt(true, false, true), true, false, false, Idle, Selecting, [PKT])
  {
    n := Start(cfg);
    n := SleepIn(cfg, n, Bt(false, false, false), true, Selecting);
    n := RefusedPacket(cfg, n);
    n := WakeUp(cfg, n, Bt(true, false, false), Checking(BT_ID), [PKT]);
    n := Go(cfg, n, CoexStep(true));
    n := Go(cfg, n, CoexExpire);
  }

  /** Idle Bluetooth: the thread has found a packet and announces its intention. */
  lemma Announces(cfg: Config, s: State, bt: Tech, sl: bool) returns (n: State)
    requires Reachable(cfg, s) && Shape(s, bt, true, sl, false, Idle, Selecting, [PKT])
    requires bt.drv.Active? && !bt.access && bt.psEnabled
    ensures Reachable(cfg, n) && Shape(n, Bt(true, false, bt.waiting), true, sl, false, Idle, Intending(BT_ID), [PKT])
    ensures n.log == s.log
  {
    n := LooksAtBt(cfg, s, bt, true, sl, false, Idle, [PKT]);
    n := Go(cfg, n, CoexStep(true));
  }

  /** Common access held: it gets access (again) and takes the packet. */
  lemma Acquire(cfg: Config, s: State, bt: Tech, sl: bool) returns (n: State)
    requires Reachable(cfg, s) && Shape(s, bt, true, sl, false, Idle, Selecting, [PKT])
    requires bt.drv.Active? && !bt.access && bt.psEnabled
    ensures Reachable(cfg, n) && Shape(n, Bt(true, true, bt.waiting), true, sl, false, Idle, Taking(BT_Q), [PKT])
    ensures n.log == s.log
  {
    n := Announces(cfg, s, bt, sl);
    n := Go(cfg, n, CoexStep(true));
    n := Go(cfg, n, CoexStep(true));
  }

  lemma LeftoverFlagBecomesAccess(cfg: Config, s: State) returns (n: State)
    requires Reachable(cfg, s) && Shape(s, Bt(true, false, true), true, false, false, Idle, Selecting, [PKT])
    ensures Reachable(cfg, n) && Shape(n, Bt(false, true, false), true, false, false, Idle, Selecting, [])
  {
    n := Acquire(cfg, s, Bt(true, false, true), false);
    n := SendAndDrain(cfg, n, Idle, true, true);
    n := SleepIn(cfg, n, Bt(false, false, true), true, Selecting);
    n := WakeUp(cfg, n, Bt(false, false, true), Selecting, []);
  }

  /** An expired wait leaves its flag behind; a later sleep exit then grants access nobody asked for. */
  lemma ExpiredWaitBreaks(cfg: Config) returns (bad: State, sent: State)
    requires cfg.waitsMayExpire
    ensures Reachable(cfg, bad) && !Safe(bad)
    ensures Reachable(cfg, sent) && exists l :: sent.log == l + STALE_SEND
  {
    var n := ExpiredFlag(cfg);
    n := LeftoverFlagBecomesAccess(cfg, n);
    bad, sent := StaleAccessSends(cfg, n);
  }

  lemma ParkedWaiter(cfg: Config) returns (n: State)
    ensures Reachable(cfg, n)
    ensures Shape(n, Bt(true, false, true), false, true, true, Idle, CoexPc.Waiting(BT_ID), [PKT])
  {
    n := Start(cfg);
    n := SleepIn(cfg, n, Bt(false, false, false), true, Selecting);
    n := RefusedPacket(cfg, n);
    n := Go(cfg, n, CoexStep(true));
  }

  lemma InterruptedGrant(cfg: Config) returns (n: State)
    requires !cfg.grantsAtomic
    ensures Reachable(cfg, n)
    ensures Shape(n, Bt(true, false, false), true, false, false, HalfGranted(false, BT_ID), Taking(BT_Q), [PKT])
  {
    n := ParkedWaiter(cfg);
    n := ExitBegins(cfg, n, Bt(true, false, true), CoexPc.Waiting(BT_ID), [PKT]);
    n := Go(cfg, n, RxStep(true));
    n := Go(cfg, n, CoexStep(true));
  }

  /** If the waiter runs between the two stores that release it, the second store is stale. */
  lemma SplitGrantBreaks(cfg: Config) returns (bad: State, sent: State)
    requires !cfg.grantsAtomic
    ensures Reachable(cfg, bad) && !Safe(bad)
    ensures Reachable(cfg, sent) && exists l :: sent.log == l + STALE_SEND
  {
    var n := InterruptedGrant(cfg);
    n := SendAndDrain(cfg, n, HalfGranted(false, BT_ID), false, false);
    n := Go(cfg, n, RxStep(true));
    n := Go(cfg, n, RxStep(true));
    n := Go(cfg, n, RxStep(true));
    bad, sent := StaleAccessSends(cfg, n);
  }

  /** A sleep request that finds Bluetooth transmitting is postponed. */
  lemma PostponedRequest(cfg: Config) returns (n: State)
    ensures Reachable(cfg, n)
    ensures Shape(n, Bt(true, true, false), true, true, false, Idle, Taking(BT_Q), [PKT])
  {
    n := Start(cfg);
    n := Enqueued1(cfg, n, Bt(false, false, false), true, false, false);
    n := Acquire(cfg, n, Bt(false, false, false), false);
    n := RequestBegins(cfg, n);
    n := RequestEnds(cfg, n);
  }

  lemma RequestBegins(cfg: Config, s: State) returns (n: State)
    requires Reachable(cfg, s)
    requires Shape(s, Bt(true, true, false), true, false, false, Idle, Taking(BT_Q), [PKT])
    ensures Reachable(cfg, n)
    ensures Shape(n, Bt(true, true, false), true, true, false, Granting(true, 0), Taking(BT_Q), [PKT])
  {
    assert s.assets.techs[BT_ID].intention;
    n := Go(cfg, s, Notify(true, 1));
    n := Go(cfg, n, RxStep(true));
  }

  lemma RequestEnds(cfg: Config, s: State) returns (n: State)
    requires Reachable(cfg, s)
    requires Shape(s, Bt(true, true, false), true, true, false, Granting(true, 0), Taking(BT_Q), [PKT])
    ensures Reachable(cfg, n)
    ensures Shape(n, Bt(true, true, false), true, true, false, Idle, Taking(BT_Q), [PKT])
  {
    n := Go(cfg, s, RxStep(true));
    n := Go(cfg, n, RxStep(true));
    n := Go(cfg, n, RxStep(true));
    n := Go(cfg, n, RxStep(true));
  }

  /** If the postponed ack goes out between the sleep exit's token store and its lock, it carries
      the sentinel. */
  lemma SentinelAck(cfg: Config) returns (n: State)
    requires !cfg.noticesAtomic
    ensures Reachable(cfg, n)
    ensures Shape(n, Bt(false, false, false), false, true, true, Stored(false), DrainNext, [])
    ensures n.log != [] && n.log[|n.log| - 1] == Acked(NO_TOKEN)
  {
    n := PostponedRequest(cfg);
    n := SendTaken(cfg, n, Bt(true, true, false), true, true, false, Idle);
    n := Go(cfg, n, CoexStep(true));
    n := Withdraw(cfg, n, true, Idle, true, false);
    n := AckInWindow(cfg, n);
  }

  lemma AckInWindow(cfg: Config, s: State) returns (n: State)
    requires Reachable(cfg, s) && !cfg.noticesAtomic
    requires Shape(s, Bt(false, false, false), true, true, false, Idle, Reporting(BT_ID), [])
    ensures Reachable(cfg, n)
    ensures Shape(n, Bt(false, false, false), false, true, true, Stored(false), DrainNext, [])
    ensures n.log != [] && n.log[|n.log| - 1] == Acked(NO_TOKEN)
  {
    n := Go(cfg, s, Notify(false, 1));
    n := Go(cfg, n, CoexStep(true));
  }

  lemma ExitResumes(cfg: Config, s: State) returns (n: State)
    requires Reachable(cfg, s)
    requires Shape(s, Bt(false, false, false), false, true, true, Stored(false), Selecting, [])
    ensures Reachable(cfg, n)
    ensures Shape(n, Bt(false, false, false), true, false, false, Granting(false, 2), Selecting, [])
    ensures n.log == s.log
  {
    n := Go(cfg, s, RxStep(true));
    n := Go(cfg, n, RxStep(true));
    n := Go(cfg, n, RxStep(true));
  }

  lemma ExitAfterSentinel(cfg: Config, s: State) returns (n: State)
    requires Reachable(cfg, s) && !cfg.noticesAtomic
    requires Shape(s, Bt(false, false, false), false, true, true, Stored(false), DrainNext, [])
    ensures Reachable(cfg, n) && Shape(n, Bt(false, false, false), true, false, false, Idle, Selecting, [])
    ensures n.log == s.log
  {
    n := Go(cfg, s, CoexStep(true));
    n := ExitResumes(cfg, n);
    n := ExitEnds(cfg, n, Bt(false, false, false), Selecting, []);
  }

  /** ... and the exit then lets data follow that ack with no notification in between. */
  lemma InterruptedNoticeBreaks(cfg: Config) returns (acked: State, sent: State)
    requires !cfg.noticesAtomic
    ensures Reachable(cfg, acked) && acked.log != [] && acked.log[|acked.log| - 1] == Acked(NO_TOKEN)
    ensures Reachable(cfg, sent) && sent.log == acked.log + [Enqueued(BT_Q, PKT), Sent(BT_Q, PKT)]
  {
    acked := SentinelAck(cfg);
    sent := ExitAfterSentinel(cfg, acked);
    sent := Enqueued1(cfg, sent, Bt(false, false, false), true, false, false);
    sent := Acquire(cfg, sent, Bt(false, false, false), false);
    sent := SendTaken(cfg, sent, Bt(true, true, false), true, false, false, Idle);
    assert acked.log + [Enqueued(BT_Q, PKT)] + [Sent(BT_Q, PKT)] == acked.log + [Enqueued(BT_Q, PKT), Sent(BT_Q, PKT)];
  }

  /** Exactly when the handshake is safe: no wait expires and grants are not interrupted. */
  lemma SafeExactlyWhen(cfg: Config)
    ensures (forall s :: Reachable(cfg, s) ==> Safe(s)) <==> !cfg.waitsMayExpire && cfg.grantsAtomic
  {
    if Disciplined(cfg) {
      forall s | Reachable(cfg, s) ensures Safe(s) {
        ReachableInv(cfg, s);
        InvIsSafe(s);
      }
    } else if cfg.waitsMayExpire {
      var bad, _ := ExpiredWaitBreaks(cfg);
    } else {
      var bad, _ := SplitGrantBreaks(cfg);
    }
  }
}
