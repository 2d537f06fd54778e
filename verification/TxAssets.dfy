/** The shared transmit-arbitration record of the driver (`struct driver_assets`) and what each
    function of the power manager does to it in one piece.  The protocol module runs these pieces
    interleaved; the class `DriverAssets` below is the in-place form, proved against them. */
module TxAssets {
  type Proto = p: nat | p < 3

  const WLAN_ID: Proto := 0
  const BT_ID: Proto := 1
  const ZB_ID: Proto := 2
  const MAX_IDS: nat := 3

  /** The value `ulp_sleep_token` takes on a sleep exit; never a real (12-bit) token. */
  const NO_TOKEN: nat := 0xABCD

  datatype DrvState = Removed | Inserted | Active

  datatype Tech = Tech(drv: DrvState, intention: bool, access: bool, waiting: bool, psEnabled: bool)

  const IDLE_TECH := Tech(Active, false, false, false, true)

  type Techs = t: seq<Tech> | |t| == 3 witness [IDLE_TECH, IDLE_TECH, IDLE_TECH]

  datatype Assets = Assets(techs: Techs, commonAccess: bool, sleepEntry: bool, ackSent: bool)

  /** Some active protocol intends to transmit. */
  predicate AnyIntention(techs: seq<Tech>) {
    exists i :: 0 <= i < |techs| && techs[i].drv.Active? && techs[i].intention
  }

  function SendAck(a: Assets, allocOk: bool): Assets {
    if allocOk then a.(ackSent := true) else a
  }

  /** The part of `sleep_entry_recvd` that decides between the ack and waking the waiters. */
  function EnterSleep(a: Assets, allocOk: bool): Assets {
    var b := a.(sleepEntry := true);
    if AnyIntention(a.techs)
    then b.(commonAccess := true, ackSent := false)
    else SendAck(b.(commonAccess := false), allocOk)
  }

  /** The locked part of `sleep_exit_recvd`. */
  function LeaveSleep(a: Assets): Assets {
    a.(sleepEntry := false, commonAccess := true, ackSent := false)
  }

  predicate Wakes(t: Tech) { t.waiting && t.drv.Active? }

  function Woken(t: Tech): Tech {
    if Wakes(t) then t.(waiting := false, access := true) else t
  }

  function WakeAll(techs: Techs): (r: Techs)
    ensures forall i :: 0 <= i < |techs| ==> r[i] == Woken(techs[i])
  {
    [Woken(techs[0]), Woken(techs[1]), Woken(techs[2])]
  }

  /** Whether `update_tx_status`, called with the intention withdrawn, sends the postponed ack. */
  predicate ReportsSleep(a: Assets, p: Proto) {
    !a.techs[p].intention && a.sleepEntry && !a.ackSent && !AnyIntention(a.techs)
  }

  /** `update_tx_status` for a protocol whose module is present (packet-handshake build). */
  function Update(a: Assets, p: Proto, allocOk: bool): Assets {
    if a.techs[p].intention then
      if a.commonAccess then a.(techs := a.techs[p := a.techs[p].(access := true)]) else a
    else if ReportsSleep(a, p) then SendAck(a.(commonAccess := false), allocOk)
    else a
  }

  /** `update_tx_status` with its two early returns. */
  function UpdateStatus(a: Assets, p: nat, allocOk: bool): Assets {
    if p > 2 || a.techs[p].drv.Removed? then a else Update(a, p, allocOk)
  }

  function SleepEntryReceived(a: Assets, allocOk: bool): Assets {
    var b := EnterSleep(a, allocOk);
    if AnyIntention(a.techs) then b.(techs := WakeAll(b.techs)) else b
  }

  function SleepExitReceived(a: Assets): Assets {
    var b := LeaveSleep(a);
    b.(techs := WakeAll(b.techs))
  }

  /** The in-place form: each method runs undisturbed (it holds, or does not need, the lock). */
  class DriverAssets {
    const techs: array<Tech>
    var commonAccess: bool
    var sleepEntry: bool
    var ackSent: bool

    ghost predicate Valid()
      reads this
    {
      techs.Length == MAX_IDS
    }

    ghost function View(): Assets
      requires Valid()
      reads this, techs
    {
      Assets(techs[..], commonAccess, sleepEntry, ackSent)
    }

    constructor ()
      ensures Valid() && fresh(techs)
      ensures View() == Assets([IDLE_TECH, IDLE_TECH, IDLE_TECH], false, false, false)
    {
      techs := new Tech[MAX_IDS](_ => IDLE_TECH);
      commonAccess, sleepEntry, ackSent := false, false, false;
    }

    /** protocol_tx_access */
    method ProtocolTxAccess() returns (some: bool)
      requires Valid()
      ensures some <==> AnyIntention(techs[..])
    {
      var ii := 0;
      while ii < MAX_IDS
        invariant 0 <= ii <= MAX_IDS
        invariant forall k :: 0 <= k < ii ==> !(techs[k].drv.Active? && techs[k].intention)
      {
        if techs[ii].drv.Active? && techs[ii].intention {
          assert techs[..][ii].intention;
          return true;
        }
        ii := ii + 1;
      }
      return false;
    }

    /** The wake-up loop shared by sleep entry, sleep exit and the end of startup. */
    method WakeWaiters()
      requires Valid()
      modifies techs
      ensures techs[..] == WakeAll(old(techs[..]))
    {
      var id := 0;
      while id < MAX_IDS
        invariant 0 <= id <= MAX_IDS
        invariant forall k :: 0 <= k < id ==> techs[k] == Woken(old(techs[k]))
        invariant forall k :: id <= k < MAX_IDS ==> techs[k] == old(techs[k])
      {
        if techs[id].waiting && techs[id].drv.Active? {
          techs[id] := techs[id].(waiting := false);
          techs[id] := techs[id].(access := true);
        }
        id := id + 1;
      }
    }

    method SleepEntryRecvd(allocOk: bool)
      requires Valid()
      modifies this, techs
      ensures Valid() && View() == SleepEntryReceived(old(View()), allocOk)
    {
      sleepEntry := true;
      var intended := ProtocolTxAccess();
      if !intended {
        commonAccess := false;
        if allocOk { ackSent := true; }
      } else {
        commonAccess := true;
        ackSent := false;
        WakeWaiters();
      }
    }

    method SleepExitRecvd()
      requires Valid()
      modifies this, techs
      ensures Valid() && View() == SleepExitReceived(old(View()))
    {
      sleepEntry, commonAccess, ackSent := false, true, false;
      WakeWaiters();
    }

    method UpdateTxStatus(protoId: nat, allocOk: bool)
      requires Valid()
      modifies this, techs
      ensures Valid() && View() == UpdateStatus(old(View()), protoId, allocOk)
    {
      if protoId > 2 { return; }
      if techs[protoId].drv.Removed? { return; }
      if techs[protoId].intention {
        if commonAccess {
          techs[protoId] := techs[protoId].(access := true);
        }
        return;
      }
      if sleepEntry && !ackSent {
        var intended := ProtocolTxAccess();
        if !intended {
          commonAccess := false;
          if allocOk { ackSent := true; }
        }
      }
    }
  }
}
