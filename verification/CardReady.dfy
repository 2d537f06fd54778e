/** The start of the common layer: it waits for the card-ready indication of every firmware the coex
    mode needs, then configures the card once and opens transmission.  Until then, and while a
    protocol's firmware or module is missing, its packets are dropped. */
module CardReady {
  import opened Basics
  import opened TxAssets

  datatype CoexMode = WifiAlone | WifiBtClassic | WifiZigbee | WifiBtLe

  /** The module parameter; anything unknown means WLAN alone. */
  function Selected(coexMode: int): CoexMode {
    if coexMode == 2 then WifiBtClassic else if coexMode == 3 then WifiZigbee
    else if coexMode == 4 then WifiBtLe else WifiAlone
  }

  predicate Needs(mode: CoexMode, p: Proto) {
    || p == WLAN_ID
    || (p == BT_ID && (mode == WifiBtClassic || mode == WifiBtLe))
    || (p == ZB_ID && mode == WifiZigbee)
  }

  datatype Fsm = WaitForCardReady | SendConfigParams | TxAccess

  type Flags = f: seq<bool> | |f| == 3 witness [false, false, false]

  /** `fw`: whose firmware is active.  `handler`: whose module has registered a receive function.
      `configs`: how often the common parameters were sent. */
  datatype Host = Host(fsm: Fsm, fw: Flags, handler: Flags, assets: Assets, configs: nat, detached: bool)

  datatype Packet =
    | Coex(entry: bool, allocOk: bool)          // a sleep notification
    | Radio(p: Proto, ready: bool)              // `ready`: it has the card-ready indication
    | Unknown

  datatype Fate = Delivered(p: Proto) | Freed | Leaked

  predicate AllReady(mode: CoexMode, fw: Flags) { forall p: Proto :: Needs(mode, p) ==> fw[p] }

  /** onebox_update_common_hal_tx_access */
  function UpdateAccess(mode: CoexMode, h: Host): Host {
    if h.fsm == TxAccess || (h.fsm == WaitForCardReady && !AllReady(mode, h.fw)) then h
    else h.(fsm := TxAccess, configs := h.configs + 1,
            assets := h.assets.(commonAccess := true, techs := WakeAll(h.assets.techs)))
  }

  /** inaugurate_assets: `loads` says whether the module's own start succeeds. */
  function Inaugurate(h: Host, p: Proto, loads: bool): Host {
    if h.assets.techs[p].drv == Inserted && loads
    then h.(assets := h.assets.(techs := h.assets.techs[p := h.assets.techs[p].(drv := Active)])) else h
  }

  /** deploy_packet_to_assets */
  function Deploy(mode: CoexMode, h: Host, pkt: Packet, loads: bool): (Host, Fate) {
    if h.detached then (h, Freed)
    else match pkt
      case Coex(entry, allocOk) =>
        (h.(assets := if entry then SleepEntryReceived(h.assets, allocOk) else SleepExitReceived(h.assets)), Freed)
      case Radio(p, ready) =>
        if !h.fw[p] then
          if ready then (Inaugurate(UpdateAccess(mode, h.(fw := h.fw[p := true])), p, loads), Freed) else (h, Freed)
        else if h.assets.techs[p].drv.Active? then (h, if h.handler[p] then Delivered(p) else Leaked)
        else (h, Freed)
      case Unknown => (h, Leaked)
  }

  // ---- the in-place form ----

  class CommonLayer {
    const mode: CoexMode
    const assets: DriverAssets
    var fsm: Fsm
    var fw: Flags
    var handler: Flags
    var configs: nat
    var detached: bool

    constructor (coexMode: int)
      ensures mode == Selected(coexMode) && assets.Valid() && fresh(assets) && fresh(assets.techs)
      ensures fsm == WaitForCardReady && fw == [false, false, false] && configs == 0 && !detached
    {
      mode := Selected(coexMode);
      assets := new DriverAssets();
      fsm, fw, handler, configs, detached := WaitForCardReady, [false, false, false], [false, false, false], 0, false;
    }

    ghost function View(): Host
      requires assets.Valid()
      reads this, assets, assets.techs
    {
      Host(fsm, fw, handler, assets.View(), configs, detached)
    }

    /** The switch that falls through from waiting to configuring. */
    method UpdateCommonHalTxAccess()
      requires assets.Valid()
      modifies this`fsm, this`configs, assets, assets.techs
      ensures assets.Valid() && View() == UpdateAccess(mode, old(View()))
    {
      if fsm == WaitForCardReady {
        if mode == WifiAlone {
          if fw[WLAN_ID] { fsm := SendConfigParams; }
        } else if mode == WifiBtClassic || mode == WifiBtLe {
          if fw[WLAN_ID] && fw[BT_ID] { fsm := SendConfigParams; }
        } else {
          if fw[WLAN_ID] && fw[ZB_ID] { fsm := SendConfigParams; }
        }
        if fsm != SendConfigParams { return; }
      }
      if fsm == SendConfigParams {
        configs := configs + 1;
        fsm := TxAccess;
        assets.commonAccess := true;
        assets.WakeWaiters();
      }
    }

    method InaugurateAssets(p: Proto, loads: bool)
      requires assets.Valid()
      modifies assets.techs
      ensures assets.Valid() && View() == Inaugurate(old(View()), p, loads)
    {
      if assets.techs[p].drv == Inserted && loads {
        assets.techs[p] := assets.techs[p].(drv := Active);
      }
    }

    method DeployPacket(pkt: Packet, loads: bool) returns (fate: Fate)
      requires assets.Valid()
      modifies this, assets, assets.techs
      ensures assets.Valid() && (View(), fate) == Deploy(mode, old(View()), pkt, loads)
    {
      if detached { return Freed; }
      match pkt {
        case Coex(entry, allocOk) =>
          if entry { assets.SleepEntryRecvd(allocOk); } else { assets.SleepExitRecvd(); }
          return Freed;
        case Radio(p, ready) =>
          if !fw[p] {
            if ready {
              fw := fw[p := true];
              UpdateCommonHalTxAccess();
              InaugurateAssets(p, loads);
            }
            return Freed;
          }
          if !assets.techs[p].drv.Active? { return Freed; }
          return if handler[p] then Delivered(p) else Leaked;
        case Unknown => return Leaked;
      }
    }
  }

  // ---- runs ----

  datatype Event =
    | Arrives(pkt: Packet, loads: bool)
    | Insert(p: Proto, active: bool, listens: bool)     // a protocol module comes up
    | Remove(p: Proto)                          // ... or goes, and takes its firmware state along
    | Waits(p: Proto)                           // a protocol starts waiting for access
    | Updates(p: Proto, intends: bool, allocOk: bool)   // it announces or withdraws its intention
    | Detach                                    // a panic, or the card is gone

  function SetTech(h: Host, p: Proto, t: Tech): Host { h.(assets := h.assets.(techs := h.assets.techs[p := t])) }

  /** The stores before the call of update_tx_status: withdrawing gives up the access as well. */
  function Declared(a: Assets, p: Proto, intends: bool): Assets {
    a.(techs := a.techs[p := a.techs[p].(intention := intends, access := intends && a.techs[p].access)])
  }

  function Step(mode: CoexMode, h: Host, e: Event): Host {
    match e
    case Arrives(pkt, loads) => Deploy(mode, h, pkt, loads).0
    case Insert(p, active, listens) =>
      SetTech(h, p, h.assets.techs[p].(drv := if active then Active else Inserted)).(handler := h.handler[p := listens])
    case Remove(p) =>
      SetTech(h, p, h.assets.techs[p].(drv := Removed)).(handler := h.handler[p := false], fw := h.fw[p := false])
    case Updates(p, intends, allocOk) => h.(assets := UpdateStatus(Declared(h.assets, p, intends), p, allocOk))
    case Waits(p) => SetTech(h, p, h.assets.techs[p].(waiting := true))
    case Detach => h.(detached := true, fw := [false, false, false])
  }

  /** The state after the first `n` events. */
  function After(mode: CoexMode, h: Host, es: seq<Event>, n: nat): Host
    requires n <= |es|
  {
    if n == 0 then h else Step(mode, After(mode, h, es, n - 1), es[n - 1])
  }

  /** Nobody may transmit. */
  predicate Closed(h: Host) {
    !h.assets.commonAccess && forall p: Proto {:trigger h.assets.techs[p]} :: !h.assets.techs[p].access
  }

  predicate Initial(h: Host) {
    && h.fsm == WaitForCardReady && h.fw == [false, false, false] && h.configs == 0 && !h.detached
    && Closed(h) && !h.assets.sleepEntry && !h.assets.ackSent
  }

  // ---- what the events alone say ----

  predicate Gone(es: seq<Event>, n: nat)
    requires n <= |es|
  {
    exists k :: 0 <= k < n && es[k] == Detach
  }

  /** The latest word on the firmware of `p` among the first `n` events is that it is ready. */
  predicate Up(es: seq<Event>, n: nat, p: Proto)
    requires n <= |es|
  {
    n > 0 && match es[n - 1]
      case Detach => false
      case Remove(q) => q != p && Up(es, n - 1, p)
      case Arrives(Radio(q, true), _) => if q == p then !Gone(es, n - 1) else Up(es, n - 1, p)
      case _ => Up(es, n - 1, p)
  }

  predicate AllUp(mode: CoexMode, es: seq<Event>, n: nat)
    requires n <= |es|
  {
    forall p: Proto :: Needs(mode, p) ==> Up(es, n, p)
  }

  /** What one event does to a protocol's firmware state. */
  lemma FirmwareStep(mode: CoexMode, h: Host, e: Event, p: Proto)
    ensures Step(mode, h, e).detached == (h.detached || e == Detach)
    ensures Step(mode, h, e).fw[p] == match e
      case Detach => false
      case Remove(q) => q != p && h.fw[p]
      case Arrives(Radio(q, true), _) => h.fw[p] || (q == p && !h.detached)
      case _ => h.fw[p]
  {
  }

  lemma GoneStep(es: seq<Event>, n: nat)
    requires 0 < n <= |es|
    ensures Gone(es, n) == (Gone(es, n - 1) || es[n - 1] == Detach)
  {
  }

  lemma {:induction false} FirmwareIsUp(mode: CoexMode, h: Host, es: seq<Event>, n: nat, p: Proto)
    requires Initial(h) && n <= |es|
    ensures After(mode, h, es, n).fw[p] == Up(es, n, p)
    ensures After(mode, h, es, n).detached == Gone(es, n)
    decreases n
  {
    if n > 0 {
      FirmwareIsUp(mode, h, es, n - 1, p);
      GoneStep(es, n);
      FirmwareStep(mode, After(mode, h, es, n - 1), es[n - 1], p);
      if Gone(es, n - 1) { GoneIsDown(es, n - 1, p); }
    }
  }

  lemma {:induction false} GoneIsDown(es: seq<Event>, n: nat, p: Proto)
    requires n <= |es| && Gone(es, n)
    ensures !Up(es, n, p)
    decreases n
  {
    if es[n - 1] != Detach {
      assert Gone(es, n - 1);
      GoneIsDown(es, n - 1, p);
    }
  }

  lemma StateIsUp(mode: CoexMode, h: Host, es: seq<Event>, n: nat)
    requires Initial(h) && n <= |es|
    ensures AllReady(mode, After(mode, h, es, n).fw) <==> AllUp(mode, es, n)
    ensures After(mode, h, es, n).detached == Gone(es, n)
  {
    forall p: Proto ensures After(mode, h, es, n).fw[p] == Up(es, n, p) { FirmwareIsUp(mode, h, es, n, p); }
    FirmwareIsUp(mode, h, es, n, WLAN_ID);
  }

  /** One step opens transmission exactly when it completes the set of firmwares. */
  lemma StepOpens(mode: CoexMode, h: Host, e: Event)
    requires h.fsm != SendConfigParams && (h.fsm == WaitForCardReady ==> !AllReady(mode, h.fw))
    ensures var n := Step(mode, h, e);
      && n.fsm != SendConfigParams
      && (n.fsm == TxAccess <==> h.fsm == TxAccess || AllReady(mode, n.fw))
      && n.configs == h.configs + (if n.fsm != h.fsm then 1 else 0)
  {
  }

  /** At some point of the first `n` events all needed firmwares were up together. */
  predicate OnceAllUp(mode: CoexMode, es: seq<Event>, n: nat)
    requires n <= |es|
  {
    exists k :: 0 <= k <= n && AllUp(mode, es, k)
  }

  lemma OnceAllUpStep(mode: CoexMode, es: seq<Event>, n: nat)
    requires 0 < n <= |es|
    ensures OnceAllUp(mode, es, n) <==> OnceAllUp(mode, es, n - 1) || AllUp(mode, es, n)
  {
    if OnceAllUp(mode, es, n) {
      var k :| 0 <= k <= n && AllUp(mode, es, k);
      assert k == n || k <= n - 1;
    }
  }

  /** Over every run: the card was configured at most once, and transmission is open exactly when at
      some point all needed firmwares were up together, in whatever order they reported. */
  lemma {:induction false} OpenExactlyWhen(mode: CoexMode, h: Host, es: seq<Event>, n: nat)
    requires Initial(h) && n <= |es|
    ensures var s := After(mode, h, es, n);
      && (s.fsm == TxAccess <==> OnceAllUp(mode, es, n))
      && (s.fsm == WaitForCardReady <==> s.fsm != TxAccess)
      && s.configs == if s.fsm == TxAccess then 1 else 0
    decreases n
  {
    StateIsUp(mode, h, es, n);
    if n > 0 {
      OpenExactlyWhen(mode, h, es, n - 1);
      var s := After(mode, h, es, n - 1);
      StateIsUp(mode, h, es, n - 1);
      assert AllUp(mode, es, n - 1) ==> OnceAllUp(mode, es, n - 1);
      OnceAllUpStep(mode, es, n);
      StepOpens(mode, s, es[n - 1]);
    } else {
      assert !Up(es, 0, WLAN_ID) && Needs(mode, WLAN_ID);
    }
  }

  /** What the start waits for, by the number of the module parameter: WLAN always, Bluetooth with 2 and
      4, Zigbee with 3. */
  predicate AllHere(coexMode: int, es: seq<Event>, k: nat)
    requires k <= |es|
  {
    && Up(es, k, WLAN_ID) && (coexMode == 2 || coexMode == 4 ==> Up(es, k, BT_ID))
    && (coexMode == 3 ==> Up(es, k, ZB_ID))
  }

  lemma OpenByParameter(coexMode: int, h: Host, es: seq<Event>, n: nat)
    requires Initial(h) && n <= |es|
    ensures After(Selected(coexMode), h, es, n).fsm == TxAccess <==> exists k :: 0 <= k <= n && AllHere(coexMode, es, k)
  {
    var mode := Selected(coexMode);
    OpenExactlyWhen(mode, h, es, n);
    forall k | 0 <= k <= n ensures AllHere(coexMode, es, k) <==> AllUp(mode, es, k) {
      assert Needs(mode, WLAN_ID);
      if AllUp(mode, es, k) {
        assert Needs(mode, BT_ID) ==> Up(es, k, BT_ID);
        assert Needs(mode, ZB_ID) ==> Up(es, k, ZB_ID);
      }
    }
  }

  // ---- who may transmit, over every run ----

  /** The latest sleep notification handled among the first `n` events asked to sleep. */
  predicate AskedToSleep(es: seq<Event>, n: nat)
    requires n <= |es|
  {
    n > 0 && match es[n - 1]
      case Arrives(Coex(entry, _), _) => if Gone(es, n - 1) then AskedToSleep(es, n - 1) else entry
      case _ => AskedToSleep(es, n - 1)
  }

  /** A sleep notification that gives common access: an exit, or an entry somebody objects to. */
  predicate Rouses(s: Host, e: Event) {
    e.Arrives? && e.pkt.Coex? && !s.detached && (e.pkt.entry ==> AnyIntention(s.assets.techs))
  }

  /** The start finishes with this event. */
  predicate Starts(mode: CoexMode, s: Host, e: Event) {
    s.fsm == WaitForCardReady && Step(mode, s, e).fsm == TxAccess
  }

  predicate Opens(mode: CoexMode, s: Host, e: Event) { Rouses(s, e) || Starts(mode, s, e) }

  /** An entry nobody objects to, or the last intention withdrawn while the card waits for its ack. */
  predicate Shuts(s: Host, e: Event) {
    || (e.Arrives? && e.pkt.Coex? && !s.detached && e.pkt.entry && !AnyIntention(s.assets.techs))
    || (e.Updates? && !e.intends && s.assets.sleepEntry && !s.assets.ackSent && !s.assets.techs[e.p].drv.Removed?
      && !AnyIntention(Declared(s.assets, e.p, false).techs))
  }

  /** There is a buffer for the ack. */
  predicate Allocates(e: Event) {
    (e.Updates? && e.allocOk) || (e.Arrives? && e.pkt.Coex? && e.pkt.allocOk)
  }

  /** What a step does to the common flags. */
  lemma CommonStep(mode: CoexMode, s: Host, e: Event)
    requires s.fsm != SendConfigParams
    ensures var n := Step(mode, s, e);
      && (n.assets.commonAccess <==> Opens(mode, s, e) || (s.assets.commonAccess && !Shuts(s, e)))
      && (n.assets.ackSent <==> !Rouses(s, e) && (s.assets.ackSent || (Shuts(s, e) && Allocates(e))))
      && n.assets.sleepEntry == if e.Arrives? && e.pkt.Coex? && !s.detached then e.pkt.entry else s.assets.sleepEntry
  {
    match e
    case Arrives(Coex(_, _), _) =>
    case Arrives(_, _) => RadioCommon(mode, s, e);
    case Updates(_, _, _) =>
    case _ =>
  }

  lemma RadioCommon(mode: CoexMode, s: Host, e: Event)
    requires e.Arrives? && !e.pkt.Coex? && s.fsm != SendConfigParams
    ensures var n := Step(mode, s, e);
      && n.assets.commonAccess == (s.assets.commonAccess || Starts(mode, s, e))
      && n.assets.ackSent == s.assets.ackSent && n.assets.sleepEntry == s.assets.sleepEntry
  {
  }

  /** Something was switched on, and not off again after that. */
  predicate Since(on: seq<bool>, off: seq<bool>, n: nat)
    requires n <= |on| && n <= |off|
  {
    exists k :: 0 <= k < n && on[k] && forall j :: k < j < n ==> !off[j]
  }

  lemma SinceStep(on: seq<bool>, off: seq<bool>, n: nat)
    requires 0 < n <= |on| && n <= |off|
    ensures Since(on, off, n) <==> on[n - 1] || (Since(on, off, n - 1) && !off[n - 1])
  {
    if Since(on, off, n) && !on[n - 1] {
      var k :| 0 <= k < n && on[k] && forall j :: k < j < n ==> !off[j];
      assert k < n - 1;
    }
  }

  /** One step of a recorded run. */
  ghost predicate Linked(mode: CoexMode, ss: seq<Host>, es: seq<Event>, k: nat)
    requires k < |es| && |ss| == |es| + 1
  {
    ss[k + 1] == Step(mode, ss[k], es[k])
  }

  /** A run with all its states. */
  ghost predicate Recorded(mode: CoexMode, ss: seq<Host>, es: seq<Event>) {
    && |ss| == |es| + 1 && Initial(ss[0])
    && forall k {:trigger Linked(mode, ss, es, k)} :: 0 <= k < |es| ==> Linked(mode, ss, es, k)
  }

  /** Every event sequence has one. */
  lemma {:induction false} RunIsRecorded(mode: CoexMode, h: Host, es: seq<Event>) returns (ss: seq<Host>)
    requires Initial(h)
    ensures Recorded(mode, ss, es) && forall k :: 0 <= k <= |es| ==> ss[k] == After(mode, h, es, k)
  {
    ss := seq(|es| + 1, k requires 0 <= k <= |es| => After(mode, h, es, k));
    forall k | 0 <= k < |es| ensures Linked(mode, ss, es, k) {
      assert After(mode, h, es, k + 1) == Step(mode, After(mode, h, es, k), es[k]);
    }
  }

  lemma {:induction false} RecordIsRun(mode: CoexMode, ss: seq<Host>, es: seq<Event>, n: nat)
    requires Recorded(mode, ss, es) && n <= |es|
    ensures ss[n] == After(mode, ss[0], es, n)
    decreases n
  {
    if n > 0 {
      RecordIsRun(mode, ss, es, n - 1);
      assert Linked(mode, ss, es, n - 1);
    }
  }

  /** What the events say about a recorded state. */
  lemma RecordedFacts(mode: CoexMode, ss: seq<Host>, es: seq<Event>, n: nat)
    requires Recorded(mode, ss, es) && n <= |es|
    ensures ss[n].detached == Gone(es, n) && ss[n].fsm != SendConfigParams
    ensures ss[n].fsm == TxAccess <==> OnceAllUp(mode, es, n)
  {
    RecordIsRun(mode, ss, es, n);
    StateIsUp(mode, ss[0], es, n);
    OpenExactlyWhen(mode, ss[0], es, n);
  }

  /** Which events open, and which shut. */
  function Openings(mode: CoexMode, ss: seq<Host>, es: seq<Event>): (r: seq<bool>)
    requires |ss| == |es| + 1
    ensures |r| == |es| && forall k :: 0 <= k < |r| ==> r[k] == Opens(mode, ss[k], es[k])
  {
    seq(|es|, k requires 0 <= k < |es| => Opens(mode, ss[k], es[k]))
  }

  function Shuttings(ss: seq<Host>, es: seq<Event>): (r: seq<bool>)
    requires |ss| == |es| + 1
    ensures |r| == |es| && forall k :: 0 <= k < |r| ==> r[k] == Shuts(ss[k], es[k])
  {
    seq(|es|, k requires 0 <= k < |es| => Shuts(ss[k], es[k]))
  }

  /** At any time there is common access exactly when something has given it - the end of the start, a
      sleep exit, or an entry met by an intention - and nothing has taken it back since. */
  lemma {:induction false} CommonAccessExactlyWhen(mode: CoexMode, ss: seq<Host>, es: seq<Event>, n: nat)
    requires Recorded(mode, ss, es) && n <= |es|
    ensures ss[n].assets.commonAccess <==> Since(Openings(mode, ss, es), Shuttings(ss, es), n)
    decreases n
  {
    if n > 0 {
      assert Linked(mode, ss, es, n - 1);
      CommonAccessExactlyWhen(mode, ss, es, n - 1);
      RecordedFacts(mode, ss, es, n - 1);
      CommonStep(mode, ss[n - 1], es[n - 1]);
      SinceStep(Openings(mode, ss, es), Shuttings(ss, es), n);
    }
  }

  /** A protocol is let through: woken by an event that opens, or asking while it is open. */
  predicate Grants(mode: CoexMode, s: Host, e: Event, p: Proto) {
    || (Opens(mode, s, e) && s.assets.techs[p].waiting && s.assets.techs[p].drv.Active?)
    || (e.Updates? && e.p == p && e.intends && s.assets.commonAccess && !s.assets.techs[p].drv.Removed?)
  }

  predicate Withdraws(e: Event, p: Proto) { e.Updates? && e.p == p && !e.intends }

  predicate StillWaits(mode: CoexMode, s: Host, e: Event, p: Proto) {
    e == Waits(p) || (s.assets.techs[p].waiting && !(Opens(mode, s, e) && s.assets.techs[p].drv.Active?))
  }

  lemma RadioTech(mode: CoexMode, s: Host, e: Event, p: Proto)
    requires e.Arrives? && s.fsm != SendConfigParams && !e.pkt.Coex?
    ensures var t, u := s.assets.techs[p], Step(mode, s, e).assets.techs[p];
      && (u.access <==> t.access || (Starts(mode, s, e) && Wakes(t)))
      && (u.waiting <==> t.waiting && !(Starts(mode, s, e) && Wakes(t)))
  {
  }

  lemma NoticeTech(mode: CoexMode, s: Host, e: Event, p: Proto)
    requires e.Arrives? && e.pkt.Coex?
    ensures var t, u := s.assets.techs[p], Step(mode, s, e).assets.techs[p];
      && (u.access <==> t.access || (Rouses(s, e) && Wakes(t)))
      && (u.waiting <==> t.waiting && !(Rouses(s, e) && Wakes(t)))
      && Step(mode, s, e).fsm == s.fsm
  {
  }

  lemma UpdateTech(mode: CoexMode, s: Host, e: Event, p: Proto)
    requires e.Updates?
    ensures var t, u := s.assets.techs[p], Step(mode, s, e).assets.techs[p];
      && (u.access <==> Grants(mode, s, e, p) || (t.access && !Withdraws(e, p)))
      && u.waiting == t.waiting && Step(mode, s, e).fsm == s.fsm
  {
  }

  /** What a step does to one protocol's access and waiting. */
  lemma AccessStep(mode: CoexMode, s: Host, e: Event, p: Proto)
    requires s.fsm != SendConfigParams
    ensures var t, u := s.assets.techs[p], Step(mode, s, e).assets.techs[p];
      && (u.access <==> Grants(mode, s, e, p) || (t.access && !Withdraws(e, p)))
      && (u.waiting <==> StillWaits(mode, s, e, p))
  {
    match e
    case Arrives(Coex(_, _), _) => NoticeTech(mode, s, e, p);
    case Arrives(_, _) => RadioTech(mode, s, e, p);
    case Updates(_, _, _) => UpdateTech(mode, s, e, p);
    case _ =>
  }

  function Grantings(mode: CoexMode, ss: seq<Host>, es: seq<Event>, p: Proto): (r: seq<bool>)
    requires |ss| == |es| + 1
    ensures |r| == |es| && forall k :: 0 <= k < |r| ==> r[k] == Grants(mode, ss[k], es[k], p)
  {
    seq(|es|, k requires 0 <= k < |es| => Grants(mode, ss[k], es[k], p))
  }

  function Withdrawals(es: seq<Event>, p: Proto): (r: seq<bool>)
    ensures |r| == |es| && forall k :: 0 <= k < |r| ==> r[k] == Withdraws(es[k], p)
  {
    seq(|es|, k requires 0 <= k < |es| => Withdraws(es[k], p))
  }

  /** The same for one protocol: at any time it has access exactly when it was let through and has not
      withdrawn since. */
  lemma {:induction false} AccessExactlyWhen(mode: CoexMode, ss: seq<Host>, es: seq<Event>, n: nat, p: Proto)
    requires Recorded(mode, ss, es) && n <= |es|
    ensures ss[n].assets.techs[p].access <==> Since(Grantings(mode, ss, es, p), Withdrawals(es, p), n)
    decreases n
  {
    if n > 0 {
      assert Linked(mode, ss, es, n - 1);
      AccessExactlyWhen(mode, ss, es, n - 1, p);
      RecordedFacts(mode, ss, es, n - 1);
      AccessStep(mode, ss[n - 1], es[n - 1], p);
      SinceStep(Grantings(mode, ss, es, p), Withdrawals(es, p), n);
    }
  }

  predicate NoSleepNotice(es: seq<Event>, n: nat)
    requires n <= |es|
  {
    forall k :: 0 <= k < n ==> !(es[k].Arrives? && es[k].pkt.Coex?)
  }

  lemma QuietStep(mode: CoexMode, s: Host, e: Event, p: Proto)
    requires s.fsm != SendConfigParams && !s.assets.sleepEntry && !(e.Arrives? && e.pkt.Coex?)
    requires s.assets.commonAccess == (s.fsm == TxAccess) && (s.assets.techs[p].access ==> s.fsm == TxAccess)
    ensures var n := Step(mode, s, e);
      && !n.assets.sleepEntry && n.assets.commonAccess == (n.fsm == TxAccess)
      && (n.assets.techs[p].access ==> n.fsm == TxAccess)
  {
    CommonStep(mode, s, e);
    AccessStep(mode, s, e, p);
    OpenStays(mode, s, e);
  }

  lemma OpenStays(mode: CoexMode, s: Host, e: Event)
    ensures s.fsm == TxAccess ==> Step(mode, s, e).fsm == TxAccess
  {
  }

  /** As long as the card does not talk of sleep, access comes from this start only: before it nobody
      has any, after it the common access stays. */
  lemma {:induction false} AccessComesFromStart(mode: CoexMode, ss: seq<Host>, es: seq<Event>, n: nat, p: Proto)
    requires Recorded(mode, ss, es) && n <= |es| && NoSleepNotice(es, n)
    ensures ss[n].assets.commonAccess <==> ss[n].fsm == TxAccess
    ensures ss[n].assets.techs[p].access ==> ss[n].fsm == TxAccess
    ensures !ss[n].assets.sleepEntry
    decreases n
  {
    if n > 0 {
      assert Linked(mode, ss, es, n - 1);
      AccessComesFromStart(mode, ss, es, n - 1, p);
      RecordedFacts(mode, ss, es, n - 1);
      QuietStep(mode, ss[n - 1], es[n - 1], p);
    }
  }

  // ---- the same, from the events alone ----

  /** The state of a protocol's module after the first `n` events. */
  function ModuleAt(h: Host, es: seq<Event>, n: nat, p: Proto): DrvState
    requires n <= |es|
  {
    if n == 0 then h.assets.techs[p].drv
    else
      var d := ModuleAt(h, es, n - 1, p);
      match es[n - 1]
      case Insert(q, active, _) => if q != p then d else if active then Active else Inserted
      case Remove(q) => if q == p then Removed else d
      case Arrives(Radio(q, true), loads) =>
        if q == p && d == Inserted && loads && !Up(es, n - 1, p) && !Gone(es, n - 1) then Active else d
      case _ => d
  }

  /** The intention a protocol declared last. */
  predicate IntendsAt(h: Host, es: seq<Event>, n: nat, p: Proto)
    requires n <= |es|
  {
    if n == 0 then h.assets.techs[p].intention
    else match es[n - 1]
      case Updates(q, intends, _) => if q == p then intends else IntendsAt(h, es, n - 1, p)
      case _ => IntendsAt(h, es, n - 1, p)
  }

  predicate SomeoneIntends(h: Host, es: seq<Event>, n: nat, but: Option<Proto>)
    requires n <= |es|
  {
    exists p: Proto :: Some(p) != but && ModuleAt(h, es, n, p) == Active && IntendsAt(h, es, n, p)
  }

  predicate RousesAt(h: Host, es: seq<Event>, k: nat)
    requires k < |es|
  {
    && es[k].Arrives? && es[k].pkt.Coex? && !Gone(es, k)
    && (es[k].pkt.entry ==> SomeoneIntends(h, es, k, None))
  }

  /** With this event all needed firmwares are up together for the first time. */
  predicate StartsAt(mode: CoexMode, es: seq<Event>, k: nat)
    requires k < |es|
  {
    AllUp(mode, es, k + 1) && !OnceAllUp(mode, es, k)
  }

  predicate OpensAt(mode: CoexMode, h: Host, es: seq<Event>, k: nat)
    requires k < |es|
  {
    RousesAt(h, es, k) || StartsAt(mode, es, k)
  }

  predicate ShutsAt(h: Host, es: seq<Event>, k: nat)
    requires k < |es|
    decreases k, 1
  {
    var e := es[k];
    || (e.Arrives? && e.pkt.Coex? && !Gone(es, k) && e.pkt.entry && !SomeoneIntends(h, es, k, None))
    || (e.Updates? && !e.intends && AskedToSleep(es, k) && !AckedAt(h, es, k) && ModuleAt(h, es, k, e.p) != Removed
      && !SomeoneIntends(h, es, k, Some(e.p)))
  }

  /** The card has its ack: something has shut with a buffer at hand, and nothing has roused since. */
  predicate AckedAt(h: Host, es: seq<Event>, n: nat)
    requires n <= |es|
    decreases n, 0
  {
    && n > 0 && !RousesAt(h, es, n - 1)
    && (AckedAt(h, es, n - 1) || (ShutsAt(h, es, n - 1) && Allocates(es[n - 1])))
  }

  /** What a step does to a module and to an intention. */
  lemma TechStep(mode: CoexMode, s: Host, e: Event, p: Proto)
    ensures Step(mode, s, e).assets.techs[p].intention ==
      if e.Updates? && e.p == p then e.intends else s.assets.techs[p].intention
    ensures Step(mode, s, e).assets.techs[p].drv == (
      var d := s.assets.techs[p].drv;
      match e
      case Insert(q, active, _) => if q != p then d else if active then Active else Inserted
      case Remove(q) => if q == p then Removed else d
      case Arrives(Radio(q, true), loads) =>
        if q == p && d == Inserted && loads && !s.fw[p] && !s.detached then Active else d
      case _ => d)
  {
    match e
    case Arrives(pkt, loads) => DeployTech(mode, s, pkt, loads, p);
    case _ =>
  }

  predicate SameModule(a: Tech, b: Tech) { a.drv == b.drv && a.intention == b.intention }

  lemma StartKeepsModules(mode: CoexMode, h: Host, p: Proto)
    ensures SameModule(UpdateAccess(mode, h).assets.techs[p], h.assets.techs[p])
  {
  }

  lemma SleepKeepsModules(a: Assets, allocOk: bool, p: Proto)
    ensures SameModule(SleepEntryReceived(a, allocOk).techs[p], a.techs[p])
    ensures SameModule(SleepExitReceived(a).techs[p], a.techs[p])
  {
  }

  lemma DeployTech(mode: CoexMode, s: Host, pkt: Packet, loads: bool, p: Proto)
    ensures var t, d := Deploy(mode, s, pkt, loads).0.assets.techs[p], s.assets.techs[p].drv;
      && t.intention == s.assets.techs[p].intention
      && t.drv == if pkt == Radio(p, true) && d == Inserted && loads && !s.fw[p] && !s.detached then Active else d
  {
    match pkt
    case Coex(_, allocOk) => SleepKeepsModules(s.assets, allocOk, p);
    case Radio(q, _) =>
      var up := s.(fw := s.fw[q := true]);
      StartKeepsModules(mode, up, p);
      InaugurateTech(UpdateAccess(mode, up), q, loads, p);
    case Unknown =>
  }

  lemma InaugurateTech(h: Host, q: Proto, loads: bool, p: Proto)
    ensures var t, d := Inaugurate(h, q, loads).assets.techs[p], h.assets.techs[p].drv;
      t.intention == h.assets.techs[p].intention && t.drv == if q == p && d == Inserted && loads then Active else d
  {
  }

  /** The recorded states agree with what the events say. */
  lemma {:induction false} TechFromEvents(mode: CoexMode, ss: seq<Host>, es: seq<Event>, n: nat, p: Proto)
    requires Recorded(mode, ss, es) && n <= |es|
    ensures ss[n].assets.techs[p].drv == ModuleAt(ss[0], es, n, p)
    ensures ss[n].assets.techs[p].intention == IntendsAt(ss[0], es, n, p)
    ensures ss[n].fw[p] == Up(es, n, p)
    decreases n
  {
    RecordIsRun(mode, ss, es, n);
    FirmwareIsUp(mode, ss[0], es, n, p);
    if n > 0 {
      assert Linked(mode, ss, es, n - 1);
      TechFromEvents(mode, ss, es, n - 1, p);
      RecordedFacts(mode, ss, es, n - 1);
      TechStep(mode, ss[n - 1], es[n - 1], p);
    }
  }

  /** The module inserted last listens, and has not gone since. */
  predicate ListensAt(h: Host, es: seq<Event>, n: nat, p: Proto)
    requires n <= |es|
  {
    if n == 0 then h.handler[p]
    else match es[n - 1]
      case Insert(q, _, listens) => if q == p then listens else ListensAt(h, es, n - 1, p)
      case Remove(q) => q != p && ListensAt(h, es, n - 1, p)
      case _ => ListensAt(h, es, n - 1, p)
  }

  lemma {:induction false} HandlerFromEvents(mode: CoexMode, h: Host, es: seq<Event>, n: nat, p: Proto)
    requires n <= |es|
    ensures After(mode, h, es, n).handler[p] == ListensAt(h, es, n, p)
    decreases n
  {
    if n > 0 {
      HandlerFromEvents(mode, h, es, n - 1, p);
      HandlerStep(mode, After(mode, h, es, n - 1), es[n - 1], p);
    }
  }

  lemma HandlerStep(mode: CoexMode, s: Host, e: Event, p: Proto)
    ensures Step(mode, s, e).handler[p] == match e
      case Insert(q, _, listens) => if q == p then listens else s.handler[p]
      case Remove(q) => q != p && s.handler[p]
      case _ => s.handler[p]
  {
  }

  /** What becomes of a packet, told from the events: it reaches a protocol exactly when it is for that
      protocol, the card is there, the firmware has reported ready before and the module is active and
      listening; without a listener, or for nobody, it leaks; in all other cases its buffer is freed. */
  lemma FateExactlyWhen(mode: CoexMode, h: Host, es: seq<Event>, n: nat, p: Proto)
    requires Initial(h) && n < |es| && es[n].Arrives?
    ensures var fate := Deploy(mode, After(mode, h, es, n), es[n].pkt, es[n].loads).1; var pkt := es[n].pkt;
      && (fate == Delivered(p) <==>
        && pkt.Radio? && pkt.p == p && !Gone(es, n) && Up(es, n, p)
        && ModuleAt(h, es, n, p) == Active && ListensAt(h, es, n, p))
      && (pkt.Radio? && pkt.p == p ==> (fate == Leaked <==>
        !Gone(es, n) && Up(es, n, p) && ModuleAt(h, es, n, p) == Active && !ListensAt(h, es, n, p)))
      && (pkt.Unknown? ==> (fate == Leaked <==> !Gone(es, n))) && (pkt.Coex? ==> fate == Freed)
  {
    var ss := RunIsRecorded(mode, h, es);
    assert ss[0] == After(mode, h, es, 0) == h && ss[n] == After(mode, h, es, n);
    TechFromEvents(mode, ss, es, n, p);
    RecordedFacts(mode, ss, es, n);
    HandlerFromEvents(mode, h, es, n, p);
  }

  lemma IntentionFromEvents(mode: CoexMode, ss: seq<Host>, es: seq<Event>, n: nat)
    requires Recorded(mode, ss, es) && n <= |es|
    ensures AnyIntention(ss[n].assets.techs) <==> SomeoneIntends(ss[0], es, n, None)
  {
    var ts := ss[n].assets.techs;
    forall p: Proto
      ensures (ts[p].drv.Active? && ts[p].intention) <==>
        (ModuleAt(ss[0], es, n, p) == Active && IntendsAt(ss[0], es, n, p))
    {
      TechFromEvents(mode, ss, es, n, p);
    }
    if AnyIntention(ts) {
      var i :| 0 <= i < |ts| && ts[i].drv.Active? && ts[i].intention;
      var p: Proto := i;
      assert ModuleAt(ss[0], es, n, p) == Active;
    }
  }

  lemma OthersFromEvents(mode: CoexMode, ss: seq<Host>, es: seq<Event>, n: nat, q: Proto)
    requires Recorded(mode, ss, es) && n <= |es|
    ensures AnyIntention(Declared(ss[n].assets, q, false).techs) <==> SomeoneIntends(ss[0], es, n, Some(q))
  {
    var ts, us := ss[n].assets.techs, Declared(ss[n].assets, q, false).techs;
    forall p: Proto
      ensures (us[p].drv.Active? && us[p].intention) <==>
        (p != q && ModuleAt(ss[0], es, n, p) == Active && IntendsAt(ss[0], es, n, p))
    {
      TechFromEvents(mode, ss, es, n, p);
    }
    if AnyIntention(us) {
      var i :| 0 <= i < |us| && us[i].drv.Active? && us[i].intention;
      var p: Proto := i;
      assert Some(p) != Some(q) && ModuleAt(ss[0], es, n, p) == Active;
    }
    if SomeoneIntends(ss[0], es, n, Some(q)) {
      var p: Proto :| Some(p) != Some(q) && ModuleAt(ss[0], es, n, p) == Active && IntendsAt(ss[0], es, n, p);
      assert us[p].drv.Active? && us[p].intention;
    }
  }

  /** Which events rouse and which finish the start can be told from the events. */
  lemma OpensFromEvents(mode: CoexMode, ss: seq<Host>, es: seq<Event>, k: nat)
    requires Recorded(mode, ss, es) && k < |es|
    ensures Rouses(ss[k], es[k]) <==> RousesAt(ss[0], es, k)
    ensures Starts(mode, ss[k], es[k]) <==> StartsAt(mode, es, k)
  {
    IntentionFromEvents(mode, ss, es, k);
    assert Linked(mode, ss, es, k);
    RecordedFacts(mode, ss, es, k);
    RecordedFacts(mode, ss, es, k + 1);
    OnceAllUpStep(mode, es, k + 1);
  }

  /** ... and so can which ones shut, the request to sleep and the ack. */
  lemma {:induction false} ShutsFromEvents(mode: CoexMode, ss: seq<Host>, es: seq<Event>, n: nat)
    requires Recorded(mode, ss, es) && n <= |es|
    ensures ss[n].assets.sleepEntry == AskedToSleep(es, n) && ss[n].assets.ackSent == AckedAt(ss[0], es, n)
    ensures n < |es| ==> (Shuts(ss[n], es[n]) <==> ShutsAt(ss[0], es, n))
    decreases n
  {
    if n > 0 {
      assert Linked(mode, ss, es, n - 1);
      ShutsFromEvents(mode, ss, es, n - 1);
      OpensFromEvents(mode, ss, es, n - 1);
      RecordedFacts(mode, ss, es, n - 1);
      CommonStep(mode, ss[n - 1], es[n - 1]);
    }
    RecordedFacts(mode, ss, es, n);
    if n < |es| {
      IntentionFromEvents(mode, ss, es, n);
      if es[n].Updates? {
        OthersFromEvents(mode, ss, es, n, es[n].p);
        TechFromEvents(mode, ss, es, n, es[n].p);
      }
    }
  }

  /** Some event opened, and no later one has shut. */
  predicate OpenedBy(mode: CoexMode, h: Host, es: seq<Event>, n: nat)
    requires n <= |es|
  {
    exists k :: 0 <= k < n && OpensAt(mode, h, es, k) && forall j :: k < j < n ==> !ShutsAt(h, es, j)
  }

  lemma OpenFromEvents(mode: CoexMode, ss: seq<Host>, es: seq<Event>, n: nat)
    requires Recorded(mode, ss, es) && n <= |es|
    ensures ss[n].assets.commonAccess <==> OpenedBy(mode, ss[0], es, n)
  {
    CommonAccessExactlyWhen(mode, ss, es, n);
    var on, off := Openings(mode, ss, es), Shuttings(ss, es);
    forall k | 0 <= k < |es| ensures on[k] == OpensAt(mode, ss[0], es, k) && off[k] == ShutsAt(ss[0], es, k) {
      OpensFromEvents(mode, ss, es, k);
      ShutsFromEvents(mode, ss, es, k);
    }
  }

  /** Common access at any time, told from the initial state and the events alone. */
  lemma CommonAccessFromEvents(mode: CoexMode, h: Host, es: seq<Event>, n: nat)
    requires Initial(h) && n <= |es|
    ensures After(mode, h, es, n).assets.commonAccess <==> OpenedBy(mode, h, es, n)
  {
    var ss := RunIsRecorded(mode, h, es);
    assert ss[0] == After(mode, h, es, 0) == h && ss[n] == After(mode, h, es, n);
    OpenFromEvents(mode, ss, es, n);
  }

  /** A protocol has begun to wait, and nothing has woken it since. */
  predicate WaitingAt(mode: CoexMode, h: Host, es: seq<Event>, n: nat, p: Proto)
    requires n <= |es|
  {
    if n == 0 then h.assets.techs[p].waiting
    else if es[n - 1] == Waits(p) then true
    else WaitingAt(mode, h, es, n - 1, p) && !(OpensAt(mode, h, es, n - 1) && ModuleAt(h, es, n - 1, p) == Active)
  }

  predicate GrantsAt(mode: CoexMode, h: Host, es: seq<Event>, k: nat, p: Proto)
    requires k < |es|
  {
    || (OpensAt(mode, h, es, k) && WaitingAt(mode, h, es, k, p) && ModuleAt(h, es, k, p) == Active)
    || (es[k].Updates? && es[k].p == p && es[k].intends && OpenedBy(mode, h, es, k) && ModuleAt(h, es, k, p) != Removed)
  }

  lemma {:induction false} WaitingFromEvents(mode: CoexMode, ss: seq<Host>, es: seq<Event>, n: nat, p: Proto)
    requires Recorded(mode, ss, es) && n <= |es|
    ensures ss[n].assets.techs[p].waiting == WaitingAt(mode, ss[0], es, n, p)
    decreases n
  {
    if n > 0 {
      assert Linked(mode, ss, es, n - 1);
      WaitingFromEvents(mode, ss, es, n - 1, p);
      RecordedFacts(mode, ss, es, n - 1);
      AccessStep(mode, ss[n - 1], es[n - 1], p);
      OpensFromEvents(mode, ss, es, n - 1);
      TechFromEvents(mode, ss, es, n - 1, p);
    }
  }

  lemma GrantsFromEvents(mode: CoexMode, ss: seq<Host>, es: seq<Event>, k: nat, p: Proto)
    requires Recorded(mode, ss, es) && k < |es|
    ensures Grants(mode, ss[k], es[k], p) <==> GrantsAt(mode, ss[0], es, k, p)
  {
    OpensFromEvents(mode, ss, es, k);
    WaitingFromEvents(mode, ss, es, k, p);
    TechFromEvents(mode, ss, es, k, p);
    OpenFromEvents(mode, ss, es, k);
  }

  /** Some event let the protocol through, and it has not withdrawn since. */
  predicate GrantedBy(mode: CoexMode, h: Host, es: seq<Event>, n: nat, p: Proto)
    requires n <= |es|
  {
    exists k :: 0 <= k < n && GrantsAt(mode, h, es, k, p) && forall j :: k < j < n ==> !Withdraws(es[j], p)
  }

  /** A protocol's access and waiting at any time, told from initial state and events alone. */
  lemma AccessFromEvents(mode: CoexMode, h: Host, es: seq<Event>, n: nat, p: Proto)
    requires Initial(h) && n <= |es|
    ensures After(mode, h, es, n).assets.techs[p].access <==> GrantedBy(mode, h, es, n, p)
    ensures After(mode, h, es, n).assets.techs[p].waiting <==> WaitingAt(mode, h, es, n, p)
  {
    var ss := RunIsRecorded(mode, h, es);
    assert ss[0] == After(mode, h, es, 0) == h && ss[n] == After(mode, h, es, n);
    AccessExactlyWhen(mode, ss, es, n, p);
    WaitingFromEvents(mode, ss, es, n, p);
    var on, off := Grantings(mode, ss, es, p), Withdrawals(es, p);
    forall k | 0 <= k < n ensures on[k] == GrantsAt(mode, h, es, k, p) { GrantsFromEvents(mode, ss, es, k, p); }
  }

  // ---- the step that finishes the start ----

  /** When the start finishes, exactly those have access who had it or were waiting with an active module;
      these wait no longer, and everybody else's waiting stays as it was. */
  lemma StartWakesWaiters(mode: CoexMode, ss: seq<Host>, es: seq<Event>, k: nat, p: Proto)
    requires Recorded(mode, ss, es) && k < |es|
    requires ss[k].fsm == WaitForCardReady && ss[k + 1].fsm == TxAccess
    ensures var woken := WaitingAt(mode, ss[0], es, k, p) && ModuleAt(ss[0], es, k, p) == Active;
      && ss[k + 1].assets.commonAccess
      && (ss[k + 1].assets.techs[p].access <==> ss[k].assets.techs[p].access || woken)
      && (ss[k + 1].assets.techs[p].waiting <==> WaitingAt(mode, ss[0], es, k, p) && !woken)
  {
    assert Linked(mode, ss, es, k);
    WaitingFromEvents(mode, ss, es, k, p);
    TechFromEvents(mode, ss, es, k, p);
    CommonStep(mode, ss[k], es[k]);
    AccessStep(mode, ss[k], es[k], p);
    StartIsArrival(mode, ss[k], es[k]);
  }

  lemma StartIsArrival(mode: CoexMode, s: Host, e: Event)
    requires Starts(mode, s, e)
    ensures e.Arrives? && e.pkt.Radio? && e.pkt.ready
  {
  }

  /** The start finished after the card had its ack, and no sleep notification was handled since. */
  predicate StartedOverAck(mode: CoexMode, h: Host, es: seq<Event>, n: nat)
    requires n <= |es|
  {
    exists k :: 0 <= k < n && StartsAt(mode, es, k) && AckedAt(h, es, k) && NoticesIgnored(es, k, n)
  }

  predicate NoticesIgnored(es: seq<Event>, k: nat, n: nat)
    requires n <= |es|
  {
    forall j :: k < j < n ==> !(es[j].Arrives? && es[j].pkt.Coex? && !Gone(es, j))
  }

  lemma OverAckStep(mode: CoexMode, h: Host, es: seq<Event>, n: nat)
    requires 0 < n <= |es|
    ensures StartedOverAck(mode, h, es, n) <==>
      || (StartsAt(mode, es, n - 1) && AckedAt(h, es, n - 1))
      || (StartedOverAck(mode, h, es, n - 1) && !(es[n - 1].Arrives? && es[n - 1].pkt.Coex? && !Gone(es, n - 1)))
  {
    if StartedOverAck(mode, h, es, n - 1) && !(es[n - 1].Arrives? && es[n - 1].pkt.Coex? && !Gone(es, n - 1)) {
      var k :| 0 <= k < n - 1 && StartsAt(mode, es, k) && AckedAt(h, es, k) && NoticesIgnored(es, k, n - 1);
      assert NoticesIgnored(es, k, n);
    }
    if StartsAt(mode, es, n - 1) && AckedAt(h, es, n - 1) { assert NoticesIgnored(es, n - 1, n); }
    if StartedOverAck(mode, h, es, n) {
      var k :| 0 <= k < n && StartsAt(mode, es, k) && AckedAt(h, es, k) && NoticesIgnored(es, k, n);
      if k < n - 1 { assert NoticesIgnored(es, k, n - 1); }
    }
  }

  /** At any time transmission is open although the card has its ack and may sleep, exactly when the start
      has finished over an ack and no sleep notification was handled since. */
  lemma {:induction false} OpenOverAckExactlyWhen(mode: CoexMode, ss: seq<Host>, es: seq<Event>, n: nat)
    requires Recorded(mode, ss, es) && n <= |es|
    ensures ss[n].assets.commonAccess && ss[n].assets.ackSent <==> StartedOverAck(mode, ss[0], es, n)
    decreases n
  {
    if n > 0 {
      assert Linked(mode, ss, es, n - 1);
      OpenOverAckExactlyWhen(mode, ss, es, n - 1);
      RecordedFacts(mode, ss, es, n - 1);
      OpensFromEvents(mode, ss, es, n - 1);
      ShutsFromEvents(mode, ss, es, n - 1);
      CommonStep(mode, ss[n - 1], es[n - 1]);
      OverAckStep(mode, ss[0], es, n);
      if Starts(mode, ss[n - 1], es[n - 1]) { StartIsArrival(mode, ss[n - 1], es[n - 1]); }
    }
  }

  /** Such a run: a sleep request is acked, then WLAN, alone on the card, reports ready. */
  lemma AckedThenOpened(h: Host) returns (es: seq<Event>)
    requires Initial(h) && !AnyIntention(h.assets.techs)
    ensures var s := After(WifiAlone, h, es, |es|);
      s.fsm == TxAccess && s.assets.commonAccess && s.assets.ackSent && s.assets.sleepEntry
  {
    es := [Arrives(Coex(true, true), false), Arrives(Radio(WLAN_ID, true), false)];
    assert After(WifiAlone, h, es, 0) == h;
    var s := Step(WifiAlone, h, es[0]);
    assert After(WifiAlone, h, es, 1) == s && s.assets.ackSent && s.fsm == WaitForCardReady && !s.fw[WLAN_ID];
    assert After(WifiAlone, h, es, 2) == Step(WifiAlone, s, es[1]);
  }

  /** A run in which a sleep exit opens before any card is ready. */
  lemma SleepExitOpensEarly(mode: CoexMode, h: Host) returns (es: seq<Event>)
    requires Initial(h)
    ensures After(mode, h, es, |es|).assets.commonAccess && After(mode, h, es, |es|).fsm == WaitForCardReady
  {
    es := [Arrives(Coex(false, true), false)];
    assert After(mode, h, es, 0) == h;
  }
}
