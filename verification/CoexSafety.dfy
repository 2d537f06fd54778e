/** Safety of the sleep handshake over every interleaving, and exactly which environments it needs. */
module CoexSafety {
  import opened TxAssets
  import opened CoexProtocol

  // ---- what is claimed ----

  /** A Bluetooth, Zigbee or WLAN packet is about to be handed to the write operation. */
  predicate AboutToSend(s: State, p: Proto) {
    if p == WLAN_ID then s.wlan.WlanWriting?
    else (s.coex.Taking? || s.coex.Holding?) && s.coex.q == QueueOf(p)
  }

  /** The coex or WLAN thread sits between withdrawing its intention and dropping its access. */
  predicate MidClear(s: State, p: Proto) {
    if p == WLAN_ID then s.wlan.WlanClearing? else s.coex == Clearing(p)
  }

  /** While an ack is outstanding the device has asked to sleep, nobody holds common access, no
      protocol holds access it could use, and no data packet is on its way. */
  predicate Safe(s: State) {
    s.assets.ackSent ==>
      && s.assets.sleepEntry
      && !s.assets.commonAccess
      && (forall p: Proto :: s.assets.techs[p].access ==> MidClear(s, p))
      && (forall p: Proto :: !AboutToSend(s, p))
  }

  // ---- the inductive invariant ----

  predicate Engaged(s: State, p: Proto) {
    if p == WLAN_ID then s.wlan.WlanIntending? || s.wlan.WlanChecking? || s.wlan.WlanWaiting?
    else s.coex == Intending(p) || s.coex == Checking(p) || s.coex == CoexPc.Waiting(p)
  }

  predicate Parked(s: State, p: Proto) {
    if p == WLAN_ID then s.wlan.WlanWaiting? else s.coex == CoexPc.Waiting(p)
  }

  predicate Sending(s: State, p: Proto) {
    if p == WLAN_ID then s.wlan.WlanWriting? || s.wlan.WlanSending? else AboutToSend(s, p)
  }

  predicate Withdrawn(s: State, p: Proto) {
    if p == WLAN_ID then s.wlan.WlanReporting? else s.coex == Reporting(p)
  }

  predicate RxInv(s: State) {
    && (s.rx.Granting? || s.rx.HalfGranted? ==>
      s.assets.commonAccess && !s.assets.ackSent && (!s.rx.locked ==> !s.assets.sleepEntry))
    && (s.assets.ackSent ==> s.assets.sleepEntry && !s.assets.commonAccess)
  }

  predicate CoexSane(pc: CoexPc) {
    && (pc.Intending? || pc.Checking? || pc.Waiting? || pc.Clearing? || pc.Reporting? ==> pc.p != WLAN_ID)
  }

  predicate TechInv(s: State, p: Proto) {
    var t := s.assets.techs[p];
    && t.drv.Active?
    && (t.waiting ==> Parked(s, p))
    && (Engaged(s, p) ==> t.intention)
    && (Sending(s, p) ==> t.intention && t.access)
    && (MidClear(s, p) ==> !t.intention)
    && (Withdrawn(s, p) ==> !t.intention && !t.access)
    && (t.access ==> t.intention || MidClear(s, p))
    && (t.access && t.intention ==> !s.assets.ackSent)
    && (s.rx.HalfGranted? && s.rx.tech == p ==> Parked(s, p))
    && (Parked(s, p) && !t.waiting && !(s.rx.HalfGranted? && s.rx.tech == p) ==> t.access)
  }

  predicate Inv(s: State) {
    && RxInv(s)
    && CoexSane(s.coex)
    && (forall p: Proto :: TechInv(s, p))
  }

  predicate Disciplined(cfg: Config) { !cfg.waitsMayExpire && cfg.grantsAtomic }

  lemma IntentionSeen(s: State, p: Proto)
    requires TechInv(s, p) && s.assets.techs[p].intention
    ensures AnyIntention(s.assets.techs)
  {
  }

  /** An ack goes out only when nobody intends to transmit. */
  lemma AckMeansNoIntention(s: State)
    requires Inv(s) && !AnyIntention(s.assets.techs)
    ensures forall p: Proto :: !s.assets.techs[p].intention
  {
    forall p: Proto ensures !s.assets.techs[p].intention {
      assert TechInv(s, p);
      if s.assets.techs[p].intention { IntentionSeen(s, p); }
    }
  }

  lemma RxStoredKeeps(s: State, allocOk: bool)
    requires Inv(s) && s.rx.Stored?
    ensures Inv(RxNext(s, allocOk))
  {
    var n := RxNext(s, allocOk);
    if !AnyIntention(s.assets.techs) { AckMeansNoIntention(s); }
    forall p: Proto ensures TechInv(n, p) { assert TechInv(s, p); }
  }

  lemma RxGrantKeeps(s: State, allocOk: bool)
    requires Inv(s) && (s.rx.Granting? || s.rx.HalfGranted?)
    ensures Inv(RxNext(s, allocOk))
  {
    var n := RxNext(s, allocOk);
    forall p: Proto ensures TechInv(n, p) { assert TechInv(s, p); }
  }

  lemma UpdateKeeps(s: State, p: Proto, allocOk: bool)
    requires Inv(s) && !Locked(s.rx)
    ensures var a := Update(s.assets, p, allocOk);
      && (a.ackSent ==> a.sleepEntry && !a.commonAccess)
      && (a.ackSent && !s.assets.ackSent ==> forall q: Proto :: !s.assets.techs[q].intention)
      && (s.rx.Granting? || s.rx.HalfGranted? ==> a.commonAccess && !a.ackSent && !a.sleepEntry)
  {
    if ReportsSleep(s.assets, p) { AckMeansNoIntention(s); }
  }

  lemma CoexUpdateKeeps(s: State, allocOk: bool)
    requires Inv(s) && CoexReady(s) && !s.rx.HalfGranted?
    requires s.coex.Intending? || s.coex.Reporting?
    ensures Inv(CoexNext(s, allocOk))
  {
    var n := CoexNext(s, allocOk);
    UpdateKeeps(s, s.coex.p, allocOk);
    forall p: Proto ensures TechInv(n, p) { assert TechInv(s, p); }
  }

  lemma BeginTransmitKeeps(s: State, p: Proto)
    requires Inv(s) && !s.rx.HalfGranted? && (s.coex.Selecting? || s.coex.Looking?) && p != WLAN_ID
    ensures Inv(BeginTransmit(s, p))
  {
    var n := BeginTransmit(s, p);
    forall q: Proto ensures TechInv(n, q) { assert TechInv(s, q); }
  }

  lemma BeginDrainKeeps(s: State, p: Proto, skip: CoexPc)
    requires Inv(s) && !s.rx.HalfGranted? && p != WLAN_ID
    requires s.coex.Selecting? || s.coex.Looking? || s.coex.DrainNext?
    requires skip.Selecting? || skip.DrainNext?
    ensures Inv(BeginDrain(s, p, skip))
  {
    var n := BeginDrain(s, p, skip);
    forall q: Proto ensures TechInv(n, q) { assert TechInv(s, q); }
  }

  lemma LookKeeps(s: State, i: nat)
    requires Inv(s) && !s.rx.HalfGranted? && (s.coex.Selecting? || s.coex.Looking?)
    ensures Inv(Look(s, i))
  {
    if i >= 5 {
      BeginDrainKeeps(s, BT_ID, DrainNext);
    } else if s.queues[PRIORITY[i]] != [] && PRIORITY[i] == BT_Q {
      BeginTransmitKeeps(s, BT_ID);
    } else if s.queues[PRIORITY[i]] != [] && PRIORITY[i] == ZIGB_Q {
      BeginTransmitKeeps(s, ZB_ID);
    } else {
      forall p: Proto ensures TechInv(Look(s, i), p) { assert TechInv(s, p); }
    }
  }

  lemma CoexSelectKeeps(s: State, allocOk: bool)
    requires Inv(s) && !s.rx.HalfGranted?
    requires s.coex.Selecting? || s.coex.Looking? || s.coex.DrainNext?
    ensures Inv(CoexNext(s, allocOk))
  {
    if s.coex.DrainNext? { BeginDrainKeeps(s, ZB_ID, Selecting); }
    else { LookKeeps(s, if s.coex.Selecting? then 0 else s.coex.i); }
  }

  lemma CoexAccessKeeps(s: State, allocOk: bool)
    requires Inv(s) && CoexReady(s) && !s.rx.HalfGranted?
    requires s.coex.Checking? || s.coex.Waiting? || s.coex.Clearing?
    ensures Inv(CoexNext(s, allocOk))
  {
    var n := CoexNext(s, allocOk);
    forall p: Proto ensures TechInv(n, p) { assert TechInv(s, p); }
  }

  lemma CoexPacketKeeps(s: State, allocOk: bool)
    requires Inv(s) && !s.rx.HalfGranted?
    requires s.coex.Taking? || s.coex.Holding? || s.coex.Releasing?
    ensures Inv(CoexNext(s, allocOk))
  {
    var n := CoexNext(s, allocOk);
    forall p: Proto ensures TechInv(n, p) { assert TechInv(s, p); }
  }

  lemma WlanUpdateKeeps(s: State, allocOk: bool)
    requires Inv(s) && WlanReady(s) && !s.rx.HalfGranted?
    requires s.wlan.WlanIntending? || s.wlan.WlanReporting?
    ensures Inv(WlanNext(s, allocOk))
  {
    var n := WlanNext(s, allocOk);
    UpdateKeeps(s, WLAN_ID, allocOk);
    forall p: Proto ensures TechInv(n, p) { assert TechInv(s, p); }
  }

  lemma WlanAsksKeeps(s: State, allocOk: bool)
    requires Inv(s) && !s.rx.HalfGranted? && (s.wlan.WlanIdle? || s.wlan.WlanChecking?)
    ensures Inv(WlanNext(s, allocOk))
  {
    var n := WlanNext(s, allocOk);
    forall p: Proto ensures TechInv(n, p) { assert TechInv(s, p); }
  }

  lemma WlanOtherKeeps(s: State, allocOk: bool)
    requires Inv(s) && WlanReady(s) && !s.rx.HalfGranted?
    requires s.wlan.WlanWaiting? || s.wlan.WlanWriting? || s.wlan.WlanClearing?
    ensures Inv(WlanNext(s, allocOk))
  {
    var n := WlanNext(s, allocOk);
    forall p: Proto ensures TechInv(n, p) { assert TechInv(s, p); }
  }

  lemma CoexKeeps(s: State, allocOk: bool)
    requires Inv(s) && CoexReady(s) && !s.rx.HalfGranted?
    ensures Inv(CoexNext(s, allocOk))
  {
    match s.coex
    case Intending(_) => CoexUpdateKeeps(s, allocOk);
    case Reporting(_) => CoexUpdateKeeps(s, allocOk);
    case Selecting => CoexSelectKeeps(s, allocOk);
    case Looking(_) => CoexSelectKeeps(s, allocOk);
    case DrainNext => CoexSelectKeeps(s, allocOk);
    case Taking(_) => CoexPacketKeeps(s, allocOk);
    case Holding(_, _) => CoexPacketKeeps(s, allocOk);
    case Releasing(_, _) => CoexPacketKeeps(s, allocOk);
    case _ => CoexAccessKeeps(s, allocOk);
  }

  lemma OtherKeeps(cfg: Config, s: State, a: Action)
    requires Disciplined(cfg) && Inv(s) && Enabled(cfg, s, a)
    requires !a.RxStep? && !a.CoexStep? && !a.WlanStep?
    ensures Inv(Next(s, a))
  {
    var n := Next(s, a);
    forall p: Proto ensures TechInv(n, p) { assert TechInv(s, p); }
  }

  lemma StepKeeps(cfg: Config, s: State, a: Action)
    requires Disciplined(cfg) && Inv(s) && Enabled(cfg, s, a)
    ensures Inv(Next(s, a))
  {
    if a.RxStep? {
      if s.rx.Stored? { RxStoredKeeps(s, a.allocOk); } else { RxGrantKeeps(s, a.allocOk); }
    } else if a.CoexStep? {
      CoexKeeps(s, a.allocOk);
    } else if a.WlanStep? {
      if s.wlan.WlanIntending? || s.wlan.WlanReporting? { WlanUpdateKeeps(s, a.allocOk); }
      else if s.wlan.WlanIdle? || s.wlan.WlanChecking? { WlanAsksKeeps(s, a.allocOk); }
      else { WlanOtherKeeps(s, a.allocOk); }
    } else {
      OtherKeeps(cfg, s, a);
    }
  }

  lemma {:induction false} RunKeeps(cfg: Config, s: State, acts: seq<Action>)
    requires Disciplined(cfg) && Inv(s) && Runs(cfg, s, acts)
    ensures Inv(After(cfg, s, acts))
    decreases |acts|
  {
    if acts != [] {
      StepKeeps(cfg, s, acts[0]);
      RunKeeps(cfg, Next(s, acts[0]), acts[1..]);
    }
  }

  lemma InvIsSafe(s: State)
    requires Inv(s)
    ensures Safe(s)
  {
    forall p: Proto ensures s.assets.ackSent ==>
        (s.assets.techs[p].access ==> MidClear(s, p)) && !AboutToSend(s, p)
    {
      assert TechInv(s, p);
    }
  }

  lemma UpdateRise(s: State, p: Proto, allocOk: bool, q: Proto)
    requires !s.assets.techs[q].access && CallUpdate(s, p, allocOk).assets.techs[q].access
    ensures s.assets.commonAccess
  {
  }

  lemma SelectingRaisesNothing(s: State, i: nat, q: Proto)
    requires !s.assets.techs[q].access
    ensures !Look(s, i).assets.techs[q].access && !BeginDrain(s, ZB_ID, Selecting).assets.techs[q].access
  {
    assert !BeginDrain(s, BT_ID, DrainNext).assets.techs[q].access;
    assert !BeginTransmit(s, BT_ID).assets.techs[q].access;
    assert !BeginTransmit(s, ZB_ID).assets.techs[q].access;
  }

  lemma CoexRise(s: State, allocOk: bool, q: Proto)
    requires !s.assets.techs[q].access && CoexNext(s, allocOk).assets.techs[q].access
    ensures s.assets.commonAccess
  {
    match s.coex
    case Intending(p) => UpdateRise(s, p, allocOk, q);
    case Reporting(p) => UpdateRise(s, p, allocOk, q);
    case Selecting => SelectingRaisesNothing(s, 0, q);
    case Looking(i) => SelectingRaisesNothing(s, i, q);
    case DrainNext => SelectingRaisesNothing(s, 0, q);
    case Checking(p) =>
    case Clearing(p) =>
    case _ =>
  }

  lemma WlanRise(s: State, allocOk: bool, q: Proto)
    requires !s.assets.techs[q].access && WlanNext(s, allocOk).assets.techs[q].access
    ensures s.assets.commonAccess
  {
    match s.wlan
    case WlanIntending => UpdateRise(s, WLAN_ID, allocOk, q);
    case WlanReporting => UpdateRise(s, WLAN_ID, allocOk, q);
    case _ =>
  }

  lemma RxRise(s: State, allocOk: bool, p: Proto)
    requires Inv(s) && !s.rx.Idle?
    requires !s.assets.techs[p].access && RxNext(s, allocOk).assets.techs[p].access
    ensures s.assets.commonAccess
  {
  }

  /** Access rises only while common access is held, so never against an outstanding ack. */
  lemma AccessRisesUnderCommon(cfg: Config, s: State, a: Action, p: Proto)
    requires Disciplined(cfg) && Reachable(cfg, s) && Enabled(cfg, s, a)
    requires !s.assets.techs[p].access && Next(s, a).assets.techs[p].access
    ensures s.assets.commonAccess && !s.assets.ackSent
  {
    ReachableInv(cfg, s);
    if a.RxStep? { RxRise(s, a.allocOk, p); }
    else if a.CoexStep? { CoexRise(s, a.allocOk, p); }
    else if a.WlanStep? { WlanRise(s, a.allocOk, p); }
  }

  lemma ReachableInv(cfg: Config, s: State)
    requires Disciplined(cfg) && Reachable(cfg, s)
    ensures Inv(s)
  {
    var init, acts :| Initial(init) && Runs(cfg, init, acts) && After(cfg, init, acts) == s;
    RunKeeps(cfg, init, acts);
  }
}
