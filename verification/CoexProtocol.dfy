/** The sleep handshake, the transmit-access arbitration and the coex queues as one concurrent
    system.  Every unlocked store is a step of its own; a section under `tx_access_lock` is one
    step, except that the wake-up loop releases one waiter at a time, each in two stores. */
module CoexProtocol {
  import opened Basics
  import opened TxAssets

  type Queue = q: nat | q < 5

  const COEX_Q: Queue := 0
  const BT_Q: Queue := 1
  const WLAN_Q: Queue := 2
  const VIP_Q: Queue := 3
  const ZIGB_Q: Queue := 4

  const ZIGB_TX_Q: nat := 1
  const BT_TX_Q: nat := 2
  const WLAN_TX_M_Q: nat := 4
  const WLAN_TX_D_Q: nat := 5

  datatype Packet = Packet(id: nat, txType: nat)

  type Queues = s: seq<seq<Packet>> | |s| == 5 witness [[], [], [], [], []]

  /** What the device and the upper layers can observe, in order. */
  datatype Event =
    | Enqueued(q: Queue, pkt: Packet)
    | Sent(q: Queue, pkt: Packet)
    | Dropped(q: Queue, pkt: Packet)
    | Released(q: Queue, pkt: Packet)           // its buffer was given back
    | WlanSent(pkt: Packet)
    | Notified(entry: bool, token: nat)
    | Acked(token: nat)

  /** The receive path handling one sleep notification. */
  datatype RxPc =
    | Idle
    | Stored(entry: bool)                       // token written, lock not yet taken
    | Granting(locked: bool, next: nat)         // wake-up loop about to look at tech `next`
    | HalfGranted(locked: bool, tech: Proto)    // waiting flag cleared, access not yet given

  /** The coex transmit thread inside `coex_pkt_processor`. */
  datatype CoexPc =
    | Selecting                                 // about to look at the first queue
    | Looking(i: nat)                           // the first `i` queues were seen empty, one at a time
    | Intending(p: Proto)                       // intention stored, update_tx_status to come
    | Checking(p: Proto)                        // back from update_tx_status
    | Waiting(p: Proto)
    | Taking(q: Queue)
    | Holding(q: Queue, pkt: Packet)
    | Releasing(q: Queue, pkt: Packet)          // written or refused, buffer still to be freed
    | Clearing(p: Proto)                        // intention withdrawn, access still set
    | Reporting(p: Proto)                       // access dropped, update_tx_status to come
    | DrainNext                                 // Bluetooth drained, Zigbee to come

  /** The WLAN transmit thread inside `core_qos_processor`. */
  datatype WlanPc =
    | WlanIdle
    | WlanIntending
    | WlanChecking
    | WlanWaiting
    | WlanSending
    | WlanWriting(pkt: Packet)                  // both access checks passed
    | WlanClearing
    | WlanReporting

  datatype State = State(
    assets: Assets,
    token: nat,
    queues: Queues,
    fwActive: map<nat, bool>,
    gated: bool,                                // WIFI mode and not flashing
    rx: RxPc,
    coex: CoexPc,
    wlan: WlanPc,
    log: seq<Event>)

  /** What the environment may do. `waitsMayExpire`: the 3 s waits can time out.
      `grantsAtomic`: no other thread runs between the two stores that release a waiter.
      `noticesAtomic`: no other thread runs between storing the token and taking the lock.
      `selectsAtomic`: nothing is queued while the coex thread looks at one queue after the other. */
  datatype Config = Config(waitsMayExpire: bool, grantsAtomic: bool, noticesAtomic: bool, selectsAtomic: bool)

  datatype Action =
    | Enqueue(q: Queue, pkt: Packet)
    | SetFirmware(p: Proto, on: bool)
    | SetGate(on: bool)
    | Notify(entry: bool, token: nat)
    | RxStep(allocOk: bool)
    | CoexStep(allocOk: bool)
    | CoexExpire
    | WlanStep(allocOk: bool)
    | WlanSend(pkt: Packet)
    | WlanFinish(withdraw: bool)
    | WlanExpire

  predicate Initial(s: State) {
    && (forall i :: 0 <= i < 3 ==>
      && s.assets.techs[i].drv.Active? && !s.assets.techs[i].intention
      && !s.assets.techs[i].access && !s.assets.techs[i].waiting)
    && s.assets.commonAccess && !s.assets.sleepEntry && !s.assets.ackSent
    && s.queues == [[], [], [], [], []]
    && s.rx == Idle && s.coex == Selecting && s.wlan == WlanIdle && s.log == []
  }

  // ---- small accessors ----

  predicate Locked(rx: RxPc) { (rx.Granting? || rx.HalfGranted?) && rx.locked }

  /** The configuration lets a thread other than the receive path run now. */
  predicate OthersRun(cfg: Config, rx: RxPc) {
    && !(rx.Stored? && cfg.noticesAtomic)
    && !(rx.HalfGranted? && cfg.grantsAtomic)
  }

  function QueueOf(p: Proto): Queue { if p == BT_ID then BT_Q else if p == ZB_ID then ZIGB_Q else WLAN_Q }

  /** proto_id_to_pkttype */
  function TechOf(txType: nat): Option<Proto> {
    if txType == ZIGB_TX_Q then Some(ZB_ID)
    else if txType == BT_TX_Q then Some(BT_ID)
    else if txType == WLAN_TX_M_Q || txType == WLAN_TX_D_Q then Some(WLAN_ID)
    else None
  }

  predicate FirmwareUp(s: State, t: Option<Proto>) {
    t.Some? && t.value in s.fwActive && s.fwActive[t.value]
  }

  /** The order in which coex_get_queue_num looks at the queues. */
  const PRIORITY: seq<Queue> := [VIP_Q, COEX_Q, BT_Q, ZIGB_Q, WLAN_Q]

  function WithTech(s: State, p: Proto, t: Tech): State {
    s.(assets := s.assets.(techs := s.assets.techs[p := t]))
  }

  function Intend(s: State, p: Proto, on: bool): State {
    WithTech(s, p, s.assets.techs[p].(intention := on))
  }

  function DropAccess(s: State, p: Proto): State {
    WithTech(s, p, s.assets.techs[p].(access := false))
  }

  function Await(s: State, p: Proto): State {
    WithTech(s, p, s.assets.techs[p].(waiting := true))
  }

  function Logged(s: State, e: Event): State { s.(log := s.log + [e]) }

  /** update_tx_status, with the ack it may put on the wire. */
  function CallUpdate(s: State, p: Proto, allocOk: bool): State {
    var t := s.(assets := Update(s.assets, p, allocOk));
    if ReportsSleep(s.assets, p) && allocOk then Logged(t, Acked(s.token)) else t
  }

  // ---- the receive path ----

  function StoreToken(s: State, entry: bool, token: nat): State {
    Logged(s.(token := if entry then token else NO_TOKEN, rx := Stored(entry)), Notified(entry, token))
  }

  function RxNext(s: State, allocOk: bool): State
    requires !s.rx.Idle?
  {
    match s.rx
    case Stored(true) =>
      var t := s.(assets := EnterSleep(s.assets, allocOk));
      if AnyIntention(s.assets.techs) then t.(rx := Granting(true, 0))
      else if allocOk then Logged(t.(rx := Idle), Acked(s.token))
      else t.(rx := Idle)
    case Stored(false) => s.(assets := LeaveSleep(s.assets), rx := Granting(false, 0))
    case Granting(locked, k) =>
      if k >= 3 then s.(rx := Idle)
      else if Wakes(s.assets.techs[k])
      then WithTech(s, k, s.assets.techs[k].(waiting := false)).(rx := HalfGranted(locked, k))
      else s.(rx := Granting(locked, k + 1))
    case HalfGranted(locked, k) =>
      WithTech(s, k, s.assets.techs[k].(access := true)).(rx := Granting(locked, k + 1))
  }

  // ---- the coex transmit thread ----

  function BeginDrain(s: State, p: Proto, skip: CoexPc): State {
    if s.assets.techs[p].psEnabled then Intend(s, p, false).(coex := Clearing(p)) else s.(coex := skip)
  }

  function BeginTransmit(s: State, p: Proto): State {
    if s.assets.techs[p].access then s.(coex := Taking(QueueOf(p)))
    else Intend(s, p, true).(coex := Intending(p))
  }

  /** The queue chosen by coex_get_queue_num is served. */
  function Choose(s: State, q: Queue): State {
    if q == BT_Q then BeginTransmit(s, BT_ID)
    else if q == ZIGB_Q then BeginTransmit(s, ZB_ID)
    else s.(coex := Taking(q))
  }

  /** One look of coex_get_queue_num, at queue number `i` in the order; after the last one without a
      packet the thread drains. */
  function Look(s: State, i: nat): State {
    if i >= 5 then BeginDrain(s, BT_ID, DrainNext)
    else if s.queues[PRIORITY[i]] != [] then Choose(s, PRIORITY[i])
    else s.(coex := Looking(i + 1))
  }

  function Take(s: State, q: Queue): State {
    if s.queues[q] == [] then s.(coex := Selecting)
    else s.(queues := s.queues[q := s.queues[q][1..]], coex := Holding(q, s.queues[q][0]))
  }

  function Dispose(s: State, q: Queue, pkt: Packet): State {
    var e := if s.gated && !FirmwareUp(s, TechOf(pkt.txType)) then Dropped(q, pkt) else Sent(q, pkt);
    Logged(s.(coex := Releasing(q, pkt)), e)
  }

  predicate CoexReady(s: State) {
    match s.coex
    case Intending(_) => !Locked(s.rx)
    case Reporting(_) => !Locked(s.rx)
    case Waiting(p) => !s.assets.techs[p].waiting
    case _ => true
  }

  function CoexNext(s: State, allocOk: bool): State {
    match s.coex
    case Selecting => Look(s, 0)
    case Looking(i) => Look(s, i)
    case Intending(p) => CallUpdate(s, p, allocOk).(coex := Checking(p))
    case Checking(p) =>
      if s.assets.techs[p].access then s.(coex := Taking(QueueOf(p)))
      else Await(s, p).(coex := Waiting(p))
    case Waiting(p) => s.(coex := Taking(QueueOf(p)))
    case Taking(q) => Take(s, q)
    case Holding(q, pkt) => Dispose(s, q, pkt)
    case Releasing(q, pkt) => Logged(s.(coex := Selecting), Released(q, pkt))
    case Clearing(p) => DropAccess(s, p).(coex := Reporting(p))
    case Reporting(p) => CallUpdate(s, p, allocOk).(coex := if p == BT_ID then DrainNext else Selecting)
    case DrainNext => BeginDrain(s, ZB_ID, Selecting)
  }

  // ---- the WLAN transmit thread ----

  predicate WlanReady(s: State) {
    match s.wlan
    case WlanIntending => !Locked(s.rx)
    case WlanReporting => !Locked(s.rx)
    case WlanWaiting => !s.assets.techs[WLAN_ID].waiting
    case WlanSending => false
    case _ => true
  }

  function WlanNext(s: State, allocOk: bool): State {
    match s.wlan
    case WlanIdle =>
      if s.assets.techs[WLAN_ID].access then s.(wlan := WlanSending)
      else Intend(s, WLAN_ID, true).(wlan := WlanIntending)
    case WlanIntending => CallUpdate(s, WLAN_ID, allocOk).(wlan := WlanChecking)
    case WlanChecking =>
      if s.assets.techs[WLAN_ID].access then s.(wlan := WlanSending)
      else Await(s, WLAN_ID).(wlan := WlanWaiting)
    case WlanWaiting => s.(wlan := if s.assets.techs[WLAN_ID].access then WlanSending else WlanIdle)
    case WlanSending => s
    case WlanWriting(pkt) => Logged(s.(wlan := WlanSending), WlanSent(pkt))
    case WlanClearing => DropAccess(s, WLAN_ID).(wlan := WlanReporting)
    case WlanReporting => CallUpdate(s, WLAN_ID, allocOk).(wlan := WlanIdle)
  }

  /** send_pkt_to_coex for the WLAN queue: the packet goes out only with both accesses. */
  function WlanTry(s: State, pkt: Packet): State {
    if s.gated && !(FirmwareUp(s, TechOf(pkt.txType)) &&
        s.assets.techs[TechOf(pkt.txType).value].access && s.assets.commonAccess)
    then s
    else s.(wlan := WlanWriting(pkt))
  }

  // ---- the whole system ----

  predicate Enabled(cfg: Config, s: State, a: Action) {
    match a
    case Enqueue(_, _) => !(s.coex.Looking? && cfg.selectsAtomic)
    case SetFirmware(_, _) => true
    case SetGate(_) => true
    case Notify(_, token) => s.rx.Idle? && token < 0x1000
    case RxStep(_) => !s.rx.Idle?
    case CoexStep(_) => OthersRun(cfg, s.rx) && CoexReady(s)
    case CoexExpire => OthersRun(cfg, s.rx) && cfg.waitsMayExpire && s.coex.Waiting? && s.assets.techs[s.coex.p].waiting
    case WlanStep(_) => OthersRun(cfg, s.rx) && WlanReady(s)
    case WlanSend(_) => OthersRun(cfg, s.rx) && s.wlan.WlanSending?
    case WlanFinish(_) => OthersRun(cfg, s.rx) && s.wlan.WlanSending?
    case WlanExpire =>
      OthersRun(cfg, s.rx) && cfg.waitsMayExpire && s.wlan.WlanWaiting? && s.assets.techs[WLAN_ID].waiting
  }

  function Next(s: State, a: Action): State
    requires a.RxStep? ==> !s.rx.Idle?
  {
    match a
    case Enqueue(q, pkt) => Logged(s.(queues := s.queues[q := s.queues[q] + [pkt]]), Enqueued(q, pkt))
    case SetFirmware(p, on) => s.(fwActive := s.fwActive[p := on])
    case SetGate(on) => s.(gated := on)
    case Notify(entry, token) => StoreToken(s, entry, token)
    case RxStep(allocOk) => RxNext(s, allocOk)
    case CoexStep(allocOk) => CoexNext(s, allocOk)
    case CoexExpire => s.(coex := Selecting)
    case WlanStep(allocOk) => WlanNext(s, allocOk)
    case WlanSend(pkt) => WlanTry(s, pkt)
    case WlanFinish(withdraw) =>
      if withdraw then Intend(s, WLAN_ID, false).(wlan := WlanClearing) else s.(wlan := WlanIdle)
    case WlanExpire => s.(wlan := WlanIdle)
  }

  predicate Runs(cfg: Config, s: State, acts: seq<Action>)
    decreases |acts|
  {
    acts == [] || (Enabled(cfg, s, acts[0]) && Runs(cfg, Next(s, acts[0]), acts[1..]))
  }

  function After(cfg: Config, s: State, acts: seq<Action>): State
    requires Runs(cfg, s, acts)
    decreases |acts|
  {
    if acts == [] then s else After(cfg, Next(s, acts[0]), acts[1..])
  }

  /** Reached from some initial state by some interleaving. */
  ghost predicate Reachable(cfg: Config, s: State) {
    exists init, acts :: Initial(init) && Runs(cfg, init, acts) && After(cfg, init, acts) == s
  }
}
