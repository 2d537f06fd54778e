/** What the device sees over whole runs: the order of notifications, acks and data packets. */
module CoexTrace {
  import opened TxAssets
  import opened CoexProtocol
  import opened CoexSafety
  import opened CoexLimits

  // ---- acks ----

  /** The ack at `i` answers the latest notification, which was a sleep request carrying the same
      token, and is the only ack since. */
  ghost predicate AnswersLatest(log: seq<Event>, i: nat)
    requires i < |log| && log[i].Acked?
  {
    && log[i].token != NO_TOKEN
    && exists n ::
      && 0 <= n < i && log[n] == Notified(true, log[i].token)
      && forall k :: n < k < i ==> !log[k].Notified? && !log[k].Acked?
  }

  ghost predicate AckDiscipline(log: seq<Event>) {
    forall i :: 0 <= i < |log| && log[i].Acked? ==> AnswersLatest(log, i)
  }

  predicate IsData(e: Event) {
    e.WlanSent? || (e.Sent? && (e.q == BT_Q || e.q == ZIGB_Q))
  }

  /** After an ack no data packet reaches the device before its next notification. */
  ghost predicate QuietAfterAck(log: seq<Event>) {
    forall i, j :: 0 <= i < j < |log| && log[i].Acked? && IsData(log[j]) ==>
      exists k :: i < k < j && log[k].Notified?
  }

  /** Index of the latest notification, or -1. */
  function LastNotice(log: seq<Event>): (n: int)
    ensures -1 <= n < |log|
    ensures n >= 0 ==> log[n].Notified?
    ensures forall k :: n < k < |log| ==> !log[k].Notified?
  {
    if log == [] then -1
    else if log[|log| - 1].Notified? then |log| - 1
    else LastNotice(log[..|log| - 1])
  }

  predicate Answered(log: seq<Event>) {
    exists k :: LastNotice(log) < k < |log| && log[k].Acked?
  }

  lemma LastNoticeSnoc(log: seq<Event>, e: Event)
    ensures LastNotice(log + [e]) == if e.Notified? then |log| else LastNotice(log)
  {
    assert (log + [e])[..|log|] == log;
  }

  lemma AnsweredSnoc(log: seq<Event>, e: Event)
    ensures Answered(log + [e]) <==> (!e.Notified? && (e.Acked? || Answered(log)))
  {
    LastNoticeSnoc(log, e);
    var l := log + [e];
    if e.Acked? { assert l[|log|].Acked?; }
    if Answered(log) && !e.Notified? {
      var k :| LastNotice(log) < k < |log| && log[k].Acked?;
      assert l[k].Acked?;
    }
  }

  lemma DisciplineSnoc(log: seq<Event>, e: Event)
    requires AckDiscipline(log)
    requires e.Acked? ==> e.token != NO_TOKEN && !Answered(log)
    requires e.Acked? ==> LastNotice(log) >= 0 && log[LastNotice(log)] == Notified(true, e.token)
    ensures AckDiscipline(log + [e])
  {
    var l := log + [e];
    forall i | 0 <= i < |l| && l[i].Acked? ensures AnswersLatest(l, i) {
      if i < |log| {
        assert log[i].Acked? && AnswersLatest(log, i);
        var n :| 0 <= n < i && log[n] == Notified(true, log[i].token) &&
          forall k :: n < k < i ==> !log[k].Notified? && !log[k].Acked?;
        assert l[n] == Notified(true, l[i].token);
      } else {
        assert l[LastNotice(log)] == Notified(true, l[i].token);
      }
    }
  }

  lemma QuietSnoc(log: seq<Event>, e: Event)
    requires QuietAfterAck(log)
    requires IsData(e) ==> !Answered(log)
    ensures QuietAfterAck(log + [e])
  {
    var l := log + [e];
    forall i, j | 0 <= i < j < |l| && l[i].Acked? && IsData(l[j])
      ensures exists k :: i < k < j && l[k].Notified?
    {
      if j < |log| {
        assert log[i].Acked? && IsData(log[j]);
        var k :| i < k < j && log[k].Notified?;
        assert l[k].Notified?;
      } else {
        assert log[i].Acked?;
        assert l[LastNotice(log)].Notified?;
      }
    }
  }

  /** What ties the flags to the log when notifications are not interrupted. */
  ghost predicate NoticeInv(s: State) {
    && AckDiscipline(s.log)
    && (Answered(s.log) ==> s.assets.ackSent)
    && (s.rx.Stored? ==> !Answered(s.log))
    && (s.rx.Stored? ==> LastNotice(s.log) >= 0 && s.log[LastNotice(s.log)].entry == s.rx.entry)
    && ((if s.rx.Stored? then s.rx.entry else s.assets.sleepEntry) ==>
      LastNotice(s.log) >= 0 && s.log[LastNotice(s.log)] == Notified(true, s.token) && s.token < 0x1000)
  }

  /** One step adds at most one event, and an ack only in the two places that send one. */
  lemma NoticeInvSnoc(s: State, n: State, e: Event)
    requires NoticeInv(s) && n.log == s.log + [e] && !e.Notified?
    requires !n.rx.Stored? && n.token == s.token
    requires e.Acked? ==>
      && n.assets.ackSent && !Answered(s.log) && e.token == s.token
      && (if s.rx.Stored? then s.rx.entry else s.assets.sleepEntry)
    requires !e.Acked? ==> !s.rx.Stored? && (s.assets.ackSent ==> n.assets.ackSent)
    requires n.assets.sleepEntry == if s.rx.Stored? then s.rx.entry else s.assets.sleepEntry
    ensures NoticeInv(n)
  {
    DisciplineSnoc(s.log, e);
    AnsweredSnoc(s.log, e);
    LastNoticeSnoc(s.log, e);
  }

  lemma NoticeUpdate(s: State, p: Proto, allocOk: bool, n: State)
    requires NoticeInv(s) && !s.rx.Stored?
    requires n.log == CallUpdate(s, p, allocOk).log && n.assets == CallUpdate(s, p, allocOk).assets
    requires n.rx == s.rx && n.token == s.token
    ensures NoticeInv(n)
  {
    if ReportsSleep(s.assets, p) && allocOk {
      NoticeInvSnoc(s, n, Acked(s.token));
    }
  }

  lemma NoticeKeepsLog(s: State, n: State)
    requires NoticeInv(s) && !s.rx.Stored? && !n.rx.Stored? && n.token == s.token && n.log == s.log
    requires n.assets.sleepEntry == s.assets.sleepEntry && n.assets.ackSent == s.assets.ackSent
    ensures NoticeInv(n)
  {
  }

  lemma NoticeRx(s: State, allocOk: bool)
    requires NoticeInv(s) && !s.rx.Idle?
    ensures NoticeInv(RxNext(s, allocOk))
  {
    var n := RxNext(s, allocOk);
    if s.rx == Stored(true) && !AnyIntention(s.assets.techs) && allocOk {
      NoticeInvSnoc(s, n, Acked(s.token));
    } else if !s.rx.Stored? {
      NoticeKeepsLog(s, n);
    }
  }

  predicate SameFlags(s: State, n: State) {
    && n.log == s.log && n.token == s.token && n.rx == s.rx
    && n.assets.commonAccess == s.assets.commonAccess
    && n.assets.sleepEntry == s.assets.sleepEntry && n.assets.ackSent == s.assets.ackSent
  }

  lemma BeginSilent(s: State, p: Proto, skip: CoexPc)
    ensures SameFlags(s, BeginDrain(s, p, skip)) && SameFlags(s, BeginTransmit(s, p))
  {
  }

  lemma LookSilent(s: State, i: nat)
    ensures SameFlags(s, Look(s, i))
  {
    BeginSilent(s, BT_ID, DrainNext);
    BeginSilent(s, ZB_ID, DrainNext);
  }

  lemma CoexSilent(s: State, allocOk: bool)
    requires !s.coex.Intending? && !s.coex.Reporting? && !s.coex.Holding? && !s.coex.Releasing?
    ensures SameFlags(s, CoexNext(s, allocOk))
  {
    if s.coex.Selecting? { LookSilent(s, 0); }
    else if s.coex.Looking? { LookSilent(s, s.coex.i); }
    else if s.coex.DrainNext? { BeginSilent(s, ZB_ID, Selecting); }
  }

  lemma NoticeCoex(s: State, allocOk: bool)
    requires NoticeInv(s) && !s.rx.Stored?
    ensures NoticeInv(CoexNext(s, allocOk))
  {
    var n := CoexNext(s, allocOk);
    if s.coex.Intending? || s.coex.Reporting? {
      NoticeUpdate(s, s.coex.p, allocOk, n);
    } else if s.coex.Holding? || s.coex.Releasing? {
      NoticeInvSnoc(s, n, n.log[|s.log|]);
    } else {
      CoexSilent(s, allocOk);
      NoticeKeepsLog(s, n);
    }
  }

  lemma WlanSilent(s: State, allocOk: bool)
    requires !s.wlan.WlanIntending? && !s.wlan.WlanReporting? && !s.wlan.WlanWriting?
    ensures SameFlags(s, WlanNext(s, allocOk))
  {
  }

  lemma NoticeWlan(s: State, allocOk: bool)
    requires NoticeInv(s) && !s.rx.Stored?
    ensures NoticeInv(WlanNext(s, allocOk))
  {
    var n := WlanNext(s, allocOk);
    if s.wlan.WlanIntending? || s.wlan.WlanReporting? {
      NoticeUpdate(s, WLAN_ID, allocOk, n);
    } else if s.wlan.WlanWriting? {
      NoticeInvSnoc(s, n, WlanSent(s.wlan.pkt));
    } else {
      WlanSilent(s, allocOk);
      NoticeKeepsLog(s, n);
    }
  }

  lemma NoticeArrives(s: State, entry: bool, token: nat)
    requires NoticeInv(s) && s.rx.Idle? && token < 0x1000
    ensures NoticeInv(StoreToken(s, entry, token))
  {
    var e := Notified(entry, token);
    DisciplineSnoc(s.log, e);
    AnsweredSnoc(s.log, e);
    LastNoticeSnoc(s.log, e);
  }

  /** Enqueuing is the one event the environment may log at any moment. */
  lemma NoticeEnqueue(s: State, q: Queue, pkt: Packet)
    requires NoticeInv(s)
    ensures NoticeInv(Next(s, Enqueue(q, pkt)))
  {
    var e := Enqueued(q, pkt);
    DisciplineSnoc(s.log, e);
    AnsweredSnoc(s.log, e);
    LastNoticeSnoc(s.log, e);
  }

  lemma NoticeStep(cfg: Config, s: State, a: Action)
    requires cfg.noticesAtomic && NoticeInv(s) && Enabled(cfg, s, a)
    ensures NoticeInv(Next(s, a))
  {
    match a
    case Enqueue(q, pkt) => NoticeEnqueue(s, q, pkt);
    case Notify(entry, token) => NoticeArrives(s, entry, token);
    case RxStep(allocOk) => NoticeRx(s, allocOk);
    case CoexStep(allocOk) => NoticeCoex(s, allocOk);
    case WlanStep(allocOk) => NoticeWlan(s, allocOk);
    case _ =>
  }

  lemma {:induction false} NoticeRun(cfg: Config, s: State, acts: seq<Action>)
    requires cfg.noticesAtomic && NoticeInv(s) && Runs(cfg, s, acts)
    ensures NoticeInv(After(cfg, s, acts))
    decreases |acts|
  {
    if acts != [] {
      NoticeStep(cfg, s, acts[0]);
      NoticeRun(cfg, Next(s, acts[0]), acts[1..]);
    }
  }

  /** The ack answers exactly the latest sleep request, once, with its token - in every run, if and
      only if a notification cannot be interrupted between its token store and its lock. */
  lemma AcksExactlyWhen(cfg: Config)
    ensures (forall s :: Reachable(cfg, s) ==> AckDiscipline(s.log)) <==> cfg.noticesAtomic
  {
    if cfg.noticesAtomic {
      forall s | Reachable(cfg, s) ensures AckDiscipline(s.log) {
        ReachableNotice(cfg, s);
      }
    } else {
      var acked, _ := InterruptedNoticeBreaks(cfg);
      assert !AnswersLatest(acked.log, |acked.log| - 1);
    }
  }

  lemma ReachableNotice(cfg: Config, s: State)
    requires cfg.noticesAtomic && Reachable(cfg, s)
    ensures NoticeInv(s)
  {
    var init, acts :| Initial(init) && Runs(cfg, init, acts) && After(cfg, init, acts) == s;
    NoticeRun(cfg, init, acts);
  }

  // ---- data ----

  /** A step logs at most one event, and a data packet only when one was about to be sent. */
  lemma StepLogs(cfg: Config, s: State, a: Action)
    requires Enabled(cfg, s, a)
    ensures var l := Next(s, a).log;
      l == s.log || (|l| == |s.log| + 1 && l == s.log + [l[|s.log|]] &&
        (IsData(l[|s.log|]) ==> exists p: Proto :: AboutToSend(s, p)))
  {
    if a.CoexStep? {
      if s.coex.Holding? {
        if s.coex.q == BT_Q { assert AboutToSend(s, BT_ID); }
        if s.coex.q == ZIGB_Q { assert AboutToSend(s, ZB_ID); }
      } else if !s.coex.Intending? && !s.coex.Reporting? && !s.coex.Releasing? {
        CoexSilent(s, a.allocOk);
      }
    } else if a.WlanStep? {
      if s.wlan.WlanWriting? { assert AboutToSend(s, WLAN_ID); }
      else if !s.wlan.WlanIntending? && !s.wlan.WlanReporting? { WlanSilent(s, a.allocOk); }
    }
  }

  lemma QuietStep(cfg: Config, s: State, a: Action)
    requires Inv(s) && NoticeInv(s) && QuietAfterAck(s.log) && Enabled(cfg, s, a)
    ensures QuietAfterAck(Next(s, a).log)
  {
    StepLogs(cfg, s, a);
    var l := Next(s, a).log;
    if l != s.log {
      InvIsSafe(s);
      QuietSnoc(s.log, l[|s.log|]);
    }
  }

  lemma {:induction false} QuietRun(cfg: Config, s: State, acts: seq<Action>)
    requires Disciplined(cfg) && cfg.noticesAtomic && Runs(cfg, s, acts)
    requires Inv(s) && NoticeInv(s) && QuietAfterAck(s.log)
    ensures QuietAfterAck(After(cfg, s, acts).log)
    decreases |acts|
  {
    if acts != [] {
      StepKeeps(cfg, s, acts[0]);
      NoticeStep(cfg, s, acts[0]);
      QuietStep(cfg, s, acts[0]);
      QuietRun(cfg, Next(s, acts[0]), acts[1..]);
    }
  }

  lemma NoisyTail(log: seq<Event>, i: nat)
    requires i + 2 < |log| && log[i].Acked? && !log[i + 1].Notified? && IsData(log[i + 2])
    ensures !QuietAfterAck(log)
  {
  }

  /** As the device sees it: after an ack, silence until the next notification. */
  lemma QuietExactlyWhen(cfg: Config)
    ensures (forall s :: Reachable(cfg, s) ==> QuietAfterAck(s.log)) <==>
      !cfg.waitsMayExpire && cfg.grantsAtomic && cfg.noticesAtomic
  {
    if Disciplined(cfg) && cfg.noticesAtomic {
      forall s | Reachable(cfg, s) ensures QuietAfterAck(s.log) {
        var init, acts :| Initial(init) && Runs(cfg, init, acts) && After(cfg, init, acts) == s;
        QuietRun(cfg, init, acts);
      }
    } else if !cfg.noticesAtomic {
      var acked, sent := InterruptedNoticeBreaks(cfg);
      NoisyTail(sent.log, |acked.log| - 1);
    } else if cfg.waitsMayExpire {
      var _, sent := ExpiredWaitBreaks(cfg);
      NoisyTail(sent.log, |sent.log| - 3);
    } else {
      var _, sent := SplitGrantBreaks(cfg);
      NoisyTail(sent.log, |sent.log| - 3);
    }
  }
}
