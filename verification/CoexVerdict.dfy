/** Which packets are written and which are refused, told from what the environment has done so far. */
module CoexVerdict {
  import opened TxAssets
  import opened CoexProtocol
  import opened CoexTrace
  import opened CoexQueues
  import opened CoexPriority

  // ---- what the actions of a run say ----

  /** WiFi mode without flashing, by the latest word on it. */
  predicate GatedBy(init: State, acts: seq<Action>)
    decreases |acts|
  {
    if acts == [] then init.gated
    else
      var a := acts[|acts| - 1];
      if a.SetGate? then a.on else GatedBy(init, acts[..|acts| - 1])
  }

  /** The latest word on the firmware of radio `p` is that it is active. */
  predicate SwitchedOn(init: State, acts: seq<Action>, p: nat)
    decreases |acts|
  {
    if acts == [] then p in init.fwActive && init.fwActive[p]
    else
      var a := acts[|acts| - 1];
      if a.SetFirmware? && a.p == p then a.on else SwitchedOn(init, acts[..|acts| - 1], p)
  }

  /** Type 1 is Zigbee, radio 2; type 2 Bluetooth, radio 1; types 4 and 5 WLAN, radio 0; no other number
      belongs to a radio. */
  predicate OfRadio(pkt: Packet, p: nat) {
    || (p == 2 && pkt.txType == 1)
    || (p == 1 && pkt.txType == 2)
    || (p == 0 && (pkt.txType == 4 || pkt.txType == 5))
  }

  ghost predicate RadioIsOn(init: State, acts: seq<Action>, pkt: Packet) {
    exists p :: OfRadio(pkt, p) && SwitchedOn(init, acts, p)
  }

  /** ... and it has access, as has the common layer. */
  ghost predicate RadioMaySend(init: State, acts: seq<Action>, pkt: Packet, a: Assets) {
    a.commonAccess && exists p: Proto :: OfRadio(pkt, p) && SwitchedOn(init, acts, p) && a.techs[p].access
  }

  // ---- the state agrees ----

  predicate SameSwitches(s: State, n: State) { n.gated == s.gated && n.fwActive == s.fwActive }

  lemma RxSwitches(s: State, allocOk: bool)
    requires !s.rx.Idle?
    ensures SameSwitches(s, RxNext(s, allocOk))
  {
  }

  lemma LookSwitches(s: State, i: nat)
    ensures SameSwitches(s, Look(s, i))
  {
    assert SameSwitches(s, BeginDrain(s, BT_ID, DrainNext));
    assert SameSwitches(s, BeginTransmit(s, BT_ID)) && SameSwitches(s, BeginTransmit(s, ZB_ID));
  }

  lemma CoexSwitches(s: State, allocOk: bool)
    ensures SameSwitches(s, CoexNext(s, allocOk))
  {
    match s.coex
    case Selecting => LookSwitches(s, 0);
    case Looking(i) => LookSwitches(s, i);
    case DrainNext => assert SameSwitches(s, BeginDrain(s, ZB_ID, Selecting));
    case _ =>
  }

  lemma WlanSwitches(s: State, allocOk: bool)
    ensures SameSwitches(s, WlanNext(s, allocOk))
  {
  }

  /** Only the environment moves the switches. */
  lemma StepSwitches(cfg: Config, s: State, a: Action)
    requires Enabled(cfg, s, a)
    ensures Next(s, a).gated == if a.SetGate? then a.on else s.gated
    ensures Next(s, a).fwActive == if a.SetFirmware? then s.fwActive[a.p := a.on] else s.fwActive
  {
    if a.RxStep? { RxSwitches(s, a.allocOk); }
    if a.CoexStep? { CoexSwitches(s, a.allocOk); }
    if a.WlanStep? { WlanSwitches(s, a.allocOk); }
  }

  lemma {:induction false} LastStep(cfg: Config, s: State, acts: seq<Action>)
    requires Runs(cfg, s, acts) && acts != []
    ensures var before, a := acts[..|acts| - 1], acts[|acts| - 1];
      && Runs(cfg, s, before) && Enabled(cfg, After(cfg, s, before), a)
      && After(cfg, s, acts) == Next(After(cfg, s, before), a)
    decreases |acts|
  {
    var before, rest := acts[..|acts| - 1], acts[1..];
    if |acts| > 1 {
      LastStep(cfg, Next(s, acts[0]), rest);
      assert rest[..|rest| - 1] == before[1..];
    }
  }

  lemma {:induction false} SwitchesFollow(cfg: Config, init: State, acts: seq<Action>, p: nat)
    requires Runs(cfg, init, acts)
    ensures var s := After(cfg, init, acts);
      s.gated == GatedBy(init, acts) && (p in s.fwActive && s.fwActive[p] <==> SwitchedOn(init, acts, p))
    decreases |acts|
  {
    if acts != [] {
      var before := acts[..|acts| - 1];
      LastStep(cfg, init, acts);
      SwitchesFollow(cfg, init, before, p);
      StepSwitches(cfg, After(cfg, init, before), acts[|acts| - 1]);
    }
  }

  lemma UpExactlyWhen(cfg: Config, init: State, acts: seq<Action>, pkt: Packet)
    requires Runs(cfg, init, acts)
    ensures var s := After(cfg, init, acts); var t := TechOf(pkt.txType);
      && s.gated == GatedBy(init, acts)
      && (FirmwareUp(s, t) <==> RadioIsOn(init, acts, pkt))
      && (FirmwareUp(s, t) && s.assets.techs[t.value].access && s.assets.commonAccess <==>
        RadioMaySend(init, acts, pkt, s.assets))
  {
    var s := After(cfg, init, acts);
    forall p: Proto ensures p in s.fwActive && s.fwActive[p] <==> SwitchedOn(init, acts, p) {
      SwitchesFollow(cfg, init, acts, p);
    }
    SwitchesFollow(cfg, init, acts, WLAN_ID);
    var t := TechOf(pkt.txType);
    if t.Some? { assert OfRadio(pkt, t.value); }
    assert forall p :: OfRadio(pkt, p) ==> p < 3 && t.Some? && p == t.value;
  }

  // ---- the coex thread ----

  predicate Adds(s: State, n: State, e: Event) { n.log == s.log + [e] }

  lemma QuietAddsNothing(s: State, n: State, e: Event)
    requires Quietly(s, n) && IsHandled(e)
    ensures !Adds(s, n, e)
  {
    var l := s.log + [e];
    assert l[|l| - 1] == e;
  }

  /** No other step writes or refuses a packet. */
  lemma OnlyHolders(cfg: Config, s: State, a: Action, e: Event)
    requires Enabled(cfg, s, a) && IsHandled(e) && !(a.CoexStep? && s.coex.Holding?)
    ensures !Adds(s, Next(s, a), e)
  {
    if a.CoexStep? {
      if s.coex.Selecting? { LookSilent(s, 0); }
      else if s.coex.Looking? { LookSilent(s, s.coex.i); }
      else { CoexQuietly(s, a.allocOk); }
    } else {
      OtherQuietly(cfg, s, a);
    }
    QuietAddsNothing(s, Next(s, a), e);
  }

  /** After any actions, the next one writes packet `pkt` of queue `q` exactly when the coex thread had it
      in hand and either the driver was not in WiFi mode, or was flashing, or the latest word on the
      firmware of the packet's radio was that it is active; in the other case it throws it away. */
  lemma WrittenExactlyWhen(cfg: Config, init: State, acts: seq<Action>, a: Action, q: Queue, pkt: Packet)
    requires Runs(cfg, init, acts) && Enabled(cfg, After(cfg, init, acts), a)
    ensures var s := After(cfg, init, acts); var n := Next(s, a);
      var lets := !GatedBy(init, acts) || RadioIsOn(init, acts, pkt);
      && (Adds(s, n, Sent(q, pkt)) <==> a.CoexStep? && s.coex == Holding(q, pkt) && lets)
      && (Adds(s, n, Dropped(q, pkt)) <==> a.CoexStep? && s.coex == Holding(q, pkt) && !lets)
  {
    var s := After(cfg, init, acts);
    UpExactlyWhen(cfg, init, acts, pkt);
    if a.CoexStep? && s.coex.Holding? {
      HolderDecides(s, a.allocOk, q, pkt);
    } else {
      OnlyHolders(cfg, s, a, Sent(q, pkt));
      OnlyHolders(cfg, s, a, Dropped(q, pkt));
    }
  }

  lemma HolderDecides(s: State, allocOk: bool, q: Queue, pkt: Packet)
    requires s.coex.Holding?
    ensures var n := CoexNext(s, allocOk); var lets := !s.gated || FirmwareUp(s, TechOf(pkt.txType));
      && (Adds(s, n, Sent(q, pkt)) <==> s.coex == Holding(q, pkt) && lets)
      && (Adds(s, n, Dropped(q, pkt)) <==> s.coex == Holding(q, pkt) && !lets)
  {
    var n := CoexNext(s, allocOk);
    assert Adds(s, n, Sent(q, pkt)) ==> n.log[|s.log|] == Sent(q, pkt);
    assert Adds(s, n, Dropped(q, pkt)) ==> n.log[|s.log|] == Dropped(q, pkt);
  }

  // ---- the WLAN thread ----

  lemma CoexLogsNoWlan(s: State, allocOk: bool, pkt: Packet)
    ensures !Adds(s, CoexNext(s, allocOk), WlanSent(pkt))
  {
    var n := CoexNext(s, allocOk);
    if Adds(s, n, WlanSent(pkt)) {
      assert n.log[|s.log|] == WlanSent(pkt);
      if !s.coex.Intending? && !s.coex.Reporting? && !s.coex.Holding? && !s.coex.Releasing? {
        CoexSilent(s, allocOk);
      }
    }
  }

  /** A WLAN packet goes out only from where both accesses were found. */
  lemma WlanSentExactlyWhen(cfg: Config, s: State, a: Action, pkt: Packet)
    requires Enabled(cfg, s, a)
    ensures Adds(s, Next(s, a), WlanSent(pkt)) <==> a.WlanStep? && s.wlan == WlanWriting(pkt)
  {
    var n := Next(s, a);
    assert Adds(s, n, WlanSent(pkt)) ==> n.log[|s.log|] == WlanSent(pkt);
    if a.RxStep? { RxFrame(s, a.allocOk); }
    if a.CoexStep? { CoexLogsNoWlan(s, a.allocOk, pkt); }
    if a.WlanStep? && !s.wlan.WlanIntending? && !s.wlan.WlanReporting? && !s.wlan.WlanWriting? {
      WlanSilent(s, a.allocOk);
    }
  }

  /** After any actions, a WLAN packet handed over is let through to the write exactly when the driver was
      not in WiFi mode, or was flashing, or the firmware of the packet's radio was active and radio and
      common layer both had access; if not, nothing happens to the state. */
  lemma WlanPassesExactlyWhen(cfg: Config, init: State, acts: seq<Action>, pkt: Packet)
    requires Runs(cfg, init, acts) && Enabled(cfg, After(cfg, init, acts), WlanSend(pkt))
    ensures var s := After(cfg, init, acts); var n := Next(s, WlanSend(pkt));
      if !GatedBy(init, acts) || RadioMaySend(init, acts, pkt, s.assets)
      then n == s.(wlan := WlanWriting(pkt)) && Adds(n, WlanNext(n, true), WlanSent(pkt))
      else n == s && !n.wlan.WlanWriting?
  {
    UpExactlyWhen(cfg, init, acts, pkt);
  }
}
