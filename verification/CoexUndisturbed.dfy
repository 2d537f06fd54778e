/** The steps of the concurrent model put together again: what a notification, a round of the WLAN thread
    and the end of a round of the coex thread do in one piece when nobody interrupts them. */
module CoexUndisturbed {
  import opened TxAssets
  import opened CoexProtocol

  /** How many steps the receive path still has to go. */
  function Left(rx: RxPc): nat {
    match rx
    case Idle => 0
    case Stored(_) => 9
    case Granting(_, k) => if k >= 3 then 1 else 8 - 2 * k
    case HalfGranted(_, k) => 7 - 2 * k
  }

  /** The receive path runs to the end of its notification, and nobody else runs. */
  function Finish(s: State, allocOk: bool): State
    decreases Left(s.rx)
  {
    if s.rx.Idle? then s else Finish(RxNext(s, allocOk), allocOk)
  }

  /** Waiters from `k` on are released, the others left alone. */
  function WokenFrom(techs: Techs, k: nat): Techs {
    [if k <= 0 then Woken(techs[0]) else techs[0],
     if k <= 1 then Woken(techs[1]) else techs[1],
     if k <= 2 then Woken(techs[2]) else techs[2]]
  }

  /** Two steps, or one, deal with one protocol. */
  lemma OneWaiter(s: State, allocOk: bool, locked: bool, k: nat)
    requires s.rx == Granting(locked, k) && k < 3
    ensures var n := WithTech(s, k, Woken(s.assets.techs[k])).(rx := Granting(locked, k + 1));
      Finish(s, allocOk) == Finish(n, allocOk)
  {
    var n := WithTech(s, k, Woken(s.assets.techs[k])).(rx := Granting(locked, k + 1));
    var h := RxNext(s, allocOk);
    if Wakes(s.assets.techs[k]) {
      assert RxNext(h, allocOk).assets.techs == n.assets.techs;
      assert RxNext(h, allocOk) == n;
    } else {
      assert s.assets.techs[k := s.assets.techs[k]] == s.assets.techs;
      assert h == n;
    }
  }

  lemma {:induction false} WakingFinishes(s: State, allocOk: bool, locked: bool, k: nat)
    requires s.rx == Granting(locked, k) && k <= 3
    ensures Finish(s, allocOk) == s.(assets := s.assets.(techs := WokenFrom(s.assets.techs, k)), rx := Idle)
    decreases 3 - k
  {
    if k == 3 {
      assert WokenFrom(s.assets.techs, k) == s.assets.techs;
      assert RxNext(s, allocOk).rx.Idle?;
    } else {
      var n := WithTech(s, k, Woken(s.assets.techs[k])).(rx := Granting(locked, k + 1));
      OneWaiter(s, allocOk, locked, k);
      WakingFinishes(n, allocOk, locked, k + 1);
      assert WokenFrom(n.assets.techs, k + 1) == WokenFrom(s.assets.techs, k);
    }
  }

  /** Uninterrupted, the steps of a notification are sleep_entry_recvd or sleep_exit_recvd; an ack is
      logged exactly when the whole function would have sent one. */
  lemma UndisturbedIsAtomic(s: State, entry: bool, allocOk: bool)
    requires s.rx == Stored(entry)
    ensures var n := Finish(s, allocOk);
      && n.assets == (if entry then SleepEntryReceived(s.assets, allocOk) else SleepExitReceived(s.assets))
      && n.log == s.log + (if entry && !AnyIntention(s.assets.techs) && allocOk then [Acked(s.token)] else [])
      && n == s.(assets := n.assets, log := n.log, rx := Idle)
  {
    var t := RxNext(s, allocOk);
    if t.rx.Granting? {
      WakingFinishes(t, allocOk, t.rx.locked, 0);
      assert WokenFrom(t.assets.techs, 0) == WakeAll(t.assets.techs);
      assert s.log + [] == s.log;
    } else {
      assert Finish(t, allocOk) == t;
      assert s.log + [] == s.log;
    }
  }

  // ---- the WLAN thread ----

  /** A protocol gives up intention and access; if it was the last to object, the postponed ack goes out. */
  function GivenUp(s: State, p: Proto, allocOk: bool): State {
    var t := WithTech(s, p, s.assets.techs[p].(intention := false, access := false));
    if s.assets.sleepEntry && !s.assets.ackSent && !AnyIntention(t.assets.techs) then
      var u := t.(assets := t.assets.(commonAccess := false));
      if allocOk then Logged(u.(assets := u.assets.(ackSent := true)), Acked(s.token)) else u
    else t
  }

  /** Asking: access is kept, given at once under common access, or waited for. */
  lemma WlanAsks(s: State, allocOk: bool)
    requires s.wlan == WlanIdle
    ensures var t := s.assets.techs[WLAN_ID];
      var n := WlanNext(WlanNext(WlanNext(s, allocOk), allocOk), allocOk);
      if t.access then WlanNext(s, allocOk) == s.(wlan := WlanSending)
      else if s.assets.commonAccess
      then n == WithTech(s, WLAN_ID, t.(intention := true, access := true)).(wlan := WlanSending)
      else n == WithTech(s, WLAN_ID, t.(intention := true, waiting := true)).(wlan := WlanWaiting) && !WlanReady(n)
  {
    var t := s.assets.techs[WLAN_ID];
    if !t.access {
      var a := WlanNext(s, allocOk);
      var b := WlanNext(a, allocOk);
      var n := WlanNext(b, allocOk);
      assert a.assets.techs[WLAN_ID] == t.(intention := true);
      assert n.assets.techs == s.assets.techs[WLAN_ID := n.assets.techs[WLAN_ID]];
    }
  }

  /** Leaving: everything is given up, or with power save off nothing is. */
  lemma WlanLeaves(s: State, allocOk: bool)
    requires s.wlan == WlanSending
    ensures WlanNext(WlanNext(Next(s, WlanFinish(true)), allocOk), allocOk) ==
      GivenUp(s, WLAN_ID, allocOk).(wlan := WlanIdle)
    ensures Next(s, WlanFinish(false)) == s.(wlan := WlanIdle)
  {
    var a := Next(s, WlanFinish(true));
    var b := WlanNext(a, allocOk);
    var t := WithTech(s, WLAN_ID, s.assets.techs[WLAN_ID].(intention := false, access := false));
    assert b.assets.techs == t.assets.techs;
    assert b == t.(wlan := WlanReporting);
  }

  /** A wait ends well exactly when it was ended by a grant; an expired one leaves its flag behind. */
  lemma WlanWaits(s: State, allocOk: bool)
    requires s.wlan == WlanWaiting
    ensures WlanReady(s) <==> !s.assets.techs[WLAN_ID].waiting
    ensures WlanNext(s, allocOk) == s.(wlan := if s.assets.techs[WLAN_ID].access then WlanSending else WlanIdle)
    ensures Next(s, WlanExpire) == s.(wlan := WlanIdle)
  {
  }

  lemma {:induction false} RunsConcat(cfg: Config, s: State, a: seq<Action>, b: seq<Action>)
    requires Runs(cfg, s, a) && Runs(cfg, After(cfg, s, a), b)
    ensures Runs(cfg, s, a + b) && After(cfg, s, a + b) == After(cfg, After(cfg, s, a), b)
    decreases |a|
  {
    if a == [] {
      assert a + b == b;
    } else {
      RunsConcat(cfg, Next(s, a[0]), a[1..], b);
      assert (a + b)[1..] == a[1..] + b;
    }
  }

  lemma TwoSteps(cfg: Config, s: State, a: Action, b: Action)
    requires Enabled(cfg, s, a) && Enabled(cfg, Next(s, a), b)
    ensures Runs(cfg, s, [a, b]) && After(cfg, s, [a, b]) == Next(Next(s, a), b)
  {
    assert [a, b][1..] == [b] && [b][1..] == [];
    assert Runs(cfg, Next(s, a), [b]);
    assert After(cfg, Next(s, a), [b]) == Next(Next(s, a), b);
  }

  lemma ThreeSteps(cfg: Config, s: State, a: Action, b: Action, c: Action)
    requires Enabled(cfg, s, a) && Enabled(cfg, Next(s, a), b) && Enabled(cfg, Next(Next(s, a), b), c)
    ensures Runs(cfg, s, [a, b, c]) && After(cfg, s, [a, b, c]) == Next(Next(Next(s, a), b), c)
  {
    assert [a, b, c][1..] == [b, c];
    TwoSteps(cfg, Next(s, a), b, c);
  }

  const ASK: seq<Action> := [WlanStep(true), WlanStep(true), WlanStep(true)]

  lemma Asks(cfg: Config, s: State)
    requires s.rx == Idle && s.wlan == WlanIdle && !s.assets.techs[WLAN_ID].access
    ensures var t := s.assets.techs[WLAN_ID];
      && Runs(cfg, s, ASK)
      && After(cfg, s, ASK) ==
        if s.assets.commonAccess
        then WithTech(s, WLAN_ID, t.(intention := true, access := true)).(wlan := WlanSending)
        else WithTech(s, WLAN_ID, t.(intention := true, waiting := true)).(wlan := WlanWaiting)
  {
    WlanAsks(s, true);
    ThreeSteps(cfg, s, WlanStep(true), WlanStep(true), WlanStep(true));
  }

  lemma Sends(cfg: Config, s: State, pkt: Packet)
    requires s.rx == Idle && s.wlan == WlanSending && Next(s, WlanSend(pkt)).wlan == WlanWriting(pkt)
    ensures Runs(cfg, s, [WlanSend(pkt), WlanStep(true)])
    ensures After(cfg, s, [WlanSend(pkt), WlanStep(true)]) == Logged(s, WlanSent(pkt))
  {
    TwoSteps(cfg, s, WlanSend(pkt), WlanStep(true));
  }

  lemma Leaves(cfg: Config, s: State)
    requires s.rx == Idle && s.wlan == WlanSending
    ensures var acts := [WlanFinish(true), WlanStep(true), WlanStep(true)];
      Runs(cfg, s, acts) && After(cfg, s, acts) == GivenUp(s, WLAN_ID, true).(wlan := WlanIdle)
  {
    WlanLeaves(s, true);
    ThreeSteps(cfg, s, WlanFinish(true), WlanStep(true), WlanStep(true));
  }

  /** A whole undisturbed round of the WLAN thread, in every configuration: under common access it asks,
      writes its packet and leaves, and nothing remains but the packet written and, if the device was
      waiting for it, the ack. */
  lemma WlanRound(cfg: Config, s: State, pkt: Packet) returns (acts: seq<Action>)
    requires s.rx == Idle && s.wlan == WlanIdle && !s.assets.techs[WLAN_ID].access && s.assets.commonAccess
    requires s.gated ==> (pkt.txType == 4 || pkt.txType == 5) && WLAN_ID in s.fwActive && s.fwActive[WLAN_ID]
    ensures Runs(cfg, s, acts)
    ensures After(cfg, s, acts) == GivenUp(Logged(s, WlanSent(pkt)), WLAN_ID, true)
  {
    var t := s.assets.techs[WLAN_ID];
    var a := WithTech(s, WLAN_ID, t.(intention := true, access := true)).(wlan := WlanSending);
    var b := Logged(a, WlanSent(pkt));
    var send, leave := [WlanSend(pkt), WlanStep(true)], [WlanFinish(true), WlanStep(true), WlanStep(true)];
    Asks(cfg, s);
    Sends(cfg, a, pkt);
    Leaves(cfg, b);
    RunsConcat(cfg, a, send, leave);
    RunsConcat(cfg, s, ASK, send + leave);
    acts := ASK + (send + leave);
    assert WithTech(b, WLAN_ID, b.assets.techs[WLAN_ID].(intention := false, access := false)).assets.techs ==
      WithTech(s, WLAN_ID, t.(intention := false, access := false)).assets.techs;
  }

  /** Without common access it parks, and an undisturbed sleep exit lets it through. */
  lemma WlanParksAndWakes(cfg: Config, s: State, token: nat)
    requires s.rx == Idle && s.wlan == WlanIdle && !s.assets.techs[WLAN_ID].access && !s.assets.commonAccess
    requires s.assets.techs[WLAN_ID].drv.Active? && token < 0x1000
    ensures Runs(cfg, s, ASK)
    ensures var parked := After(cfg, s, ASK); var woken := Finish(StoreToken(parked, false, token), true);
      && parked.wlan == WlanWaiting && !WlanReady(parked)
      && woken.rx == Idle && WlanReady(woken) && WlanNext(woken, true).wlan == WlanSending
  {
    Asks(cfg, s);
    var parked := After(cfg, s, ASK);
    UndisturbedIsAtomic(StoreToken(parked, false, token), false, true);
  }

  // ---- the end of a round of the coex thread ----

  predicate Draining(pc: CoexPc) {
    pc == Looking(5) || pc == DrainNext || ((pc.Clearing? || pc.Reporting?) && (pc.p == BT_ID || pc.p == ZB_ID))
  }

  function DrainsLeft(pc: CoexPc): nat {
    match pc
    case Looking(_) => 6
    case Clearing(p) => if p == BT_ID then 5 else 2
    case Reporting(p) => if p == BT_ID then 4 else 1
    case DrainNext => 3
    case _ => 0
  }

  /** The coex thread goes on until it is about to look at its queues again, and nobody else runs. */
  function DrainOn(s: State, allocOk: bool): State
    requires Draining(s.coex) || s.coex == Selecting
    decreases DrainsLeft(s.coex)
  {
    if s.coex == Selecting then s else DrainOn(CoexNext(s, allocOk), allocOk)
  }

  function Drained(s: State, p: Proto, allocOk: bool): State {
    if s.assets.techs[p].psEnabled then GivenUp(s, p, allocOk) else s
  }

  lemma DrainsZigbee(s: State, allocOk: bool)
    requires s.coex == DrainNext
    ensures DrainOn(s, allocOk) == Drained(s, ZB_ID, allocOk).(coex := Selecting)
  {
    var a := CoexNext(s, allocOk);
    if s.assets.techs[ZB_ID].psEnabled {
      var b := CoexNext(a, allocOk);
      LeavesInTwo(s, a, b, ZB_ID);
      var c := CoexNext(b, allocOk);
      assert c == GivenUp(s, ZB_ID, allocOk).(coex := Selecting);
      assert DrainOn(a, allocOk) == DrainOn(b, allocOk) == DrainOn(c, allocOk);
    }
  }

  /** Withdrawing and dropping the access, in two steps or in one. */
  lemma LeavesInTwo(s: State, a: State, b: State, p: Proto)
    requires a == Intend(s, p, false).(coex := Clearing(p)) && b == DropAccess(a, p).(coex := Reporting(p))
    ensures b == WithTech(s, p, s.assets.techs[p].(intention := false, access := false)).(coex := Reporting(p))
  {
    assert b.assets.techs == s.assets.techs[p := s.assets.techs[p].(intention := false, access := false)];
  }

  lemma DrainsBluetooth(s: State, allocOk: bool)
    requires s.coex == Looking(5)
    ensures DrainOn(s, allocOk) == DrainOn(Drained(s, BT_ID, allocOk).(coex := DrainNext), allocOk)
  {
    var a := CoexNext(s, allocOk);
    if s.assets.techs[BT_ID].psEnabled {
      var b := CoexNext(a, allocOk);
      LeavesInTwo(s, a, b, BT_ID);
      var c := CoexNext(b, allocOk);
      assert c == GivenUp(s, BT_ID, allocOk).(coex := DrainNext);
      assert DrainOn(a, allocOk) == DrainOn(b, allocOk) == DrainOn(c, allocOk);
    }
  }

  lemma DrainedAnywhere(s: State, p: Proto, allocOk: bool, pc: CoexPc)
    ensures Drained(s.(coex := pc), p, allocOk) == Drained(s, p, allocOk).(coex := pc)
  {
  }

  /** With all queues empty, Bluetooth and then Zigbee give up intention and access, each only with power
      save on; the last one to object sends the postponed ack; then the thread looks again. */
  lemma DrainIsAtomic(s: State, allocOk: bool)
    requires s.coex == Looking(5)
    ensures DrainOn(s, allocOk) ==
      Drained(Drained(s, BT_ID, allocOk), ZB_ID, allocOk).(coex := Selecting)
  {
    DrainsBluetooth(s, allocOk);
    var b := Drained(s, BT_ID, allocOk).(coex := DrainNext);
    DrainsZigbee(b, allocOk);
    DrainedAnywhere(Drained(s, BT_ID, allocOk), ZB_ID, allocOk, DrainNext);
  }
}
