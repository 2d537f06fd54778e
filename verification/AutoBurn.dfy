/** The pipelined burn: the writer hands 4 KB chunks to the card and keeps up to one of them ahead of
    the confirms, which the receive thread counts in an 8-bit counter.  The two threads and the card
    take steps in any order. */
module AutoBurn {
  /** `chunks`: how many the file has.  `start`: what an earlier burn left in the counter, which is
      never reset.  `atomic`: the receive thread counts a confirm and signals it in one step. */
  datatype Config = Config(chunks: nat, start: nat, atomic: bool)

  const MAX_CHUNKS: nat := 100

  predicate Possible(cfg: Config) { cfg.chunks <= MAX_CHUNKS && cfg.start < 256 }

  /** Where the writer is: in the chunk loop or in the loop that waits for the rest. */
  datatype Pc = Send | Reset | Check | Wait | LastCheck | LastReset | LastWait | Done | Failed

  datatype State = State(
    pc: Pc,
    sent: nat,          // chunks the card was handed
    confirmed: nat,     // chunks the card has confirmed
    count: nat,         // the 8-bit counter
    pending: bool,      // a confirm was counted and is yet to be signalled
    event: bool)

  datatype Action = Writer | GiveUp | Confirm | Signal

  function Outstanding(s: State): int { s.sent - s.confirmed }

  /** The test before waiting, on unsigned 32-bit numbers. */
  predicate MustWait(s: State) { s.sent < s.count || s.sent - s.count >= 2 }

  predicate Initial(cfg: Config, s: State) {
    s.pc == Send && s.sent == 0 && s.confirmed == 0 && s.count == cfg.start && !s.pending
  }

  predicate Enabled(cfg: Config, s: State, a: Action) {
    match a
    case Writer => !s.pc.Done? && !s.pc.Failed? && (s.pc.Wait? || s.pc.LastWait? ==> s.event)
    case GiveUp => s.pc.Send? || s.pc.Wait? || s.pc.LastWait?     // a failed write, an expired wait
    case Confirm => !s.pending && s.confirmed < s.sent
    case Signal => s.pending
  }

  function WriterNext(cfg: Config, s: State): State {
    match s.pc
    case Send => if s.sent < cfg.chunks then s.(sent := s.sent + 1, pc := Reset) else s.(pc := LastCheck)
    case Reset => s.(event := false, pc := Check)
    case Check => s.(pc := if MustWait(s) then Wait else Send)
    case Wait => s.(pc := Send)
    case LastCheck => s.(pc := if s.sent == s.count then Done else LastReset)
    case LastReset => s.(event := false, pc := LastWait)
    case LastWait => s.(pc := LastCheck)
    case _ => s
  }

  function Next(cfg: Config, s: State, a: Action): State {
    match a
    case Writer => WriterNext(cfg, s)
    case GiveUp => s.(pc := Failed)
    case Confirm =>
      var n := s.(confirmed := s.confirmed + 1, count := (s.count + 1) % 256);
      if cfg.atomic then n.(event := true) else n.(pending := true)
    case Signal => s.(event := true, pending := false)
  }

  predicate Runs(cfg: Config, s: State, acts: seq<Action>)
    decreases |acts|
  {
    acts == [] || (Enabled(cfg, s, acts[0]) && Runs(cfg, Next(cfg, s, acts[0]), acts[1..]))
  }

  function After(cfg: Config, s: State, acts: seq<Action>): State
    requires Runs(cfg, s, acts)
    decreases |acts|
  {
    if acts == [] then s else After(cfg, Next(cfg, s, acts[0]), acts[1..])
  }

  ghost predicate Reachable(cfg: Config, s: State) {
    exists init, acts :: Initial(cfg, init) && Runs(cfg, init, acts) && After(cfg, init, acts) == s
  }

  // ---- the invariant ----

  predicate Last(pc: Pc) { pc.LastCheck? || pc.LastReset? || pc.LastWait? || pc.Done? }

  predicate Counts(cfg: Config, s: State) {
    && s.confirmed <= s.sent <= cfg.chunks
    && s.count == (cfg.start + s.confirmed) % 256
    && (cfg.atomic ==> !s.pending)
    && (Last(s.pc) ==> s.sent == cfg.chunks)
    && (s.pc.Reset? || s.pc.Check? || s.pc.Wait? ==> s.sent > 0)
  }

  /** How many chunks may be unconfirmed when the writer goes on without waiting. */
  function Ahead(cfg: Config): nat { if cfg.start == 0 then 1 else 0 }

  /** A confirm that is counted but not signalled can let the writer through once too often. */
  predicate Loose(cfg: Config, s: State) {
    var n := Outstanding(s) - Ahead(cfg);
    match s.pc
    case Send => n <= 0 || (n == 1 && !s.pending)
    case Reset => n <= 1 || (n == 2 && !s.pending)
    case Check | Wait => n <= 2 && (s.event || s.pending ==> n <= 1) && (s.event && s.pending ==> n <= 0)
    case Failed => n <= 2
    case _ => n <= 1
  }

  /** Signalled as it is counted, it cannot. */
  predicate Tight(cfg: Config, s: State) {
    var n := Outstanding(s) - Ahead(cfg);
    match s.pc
    case Send => n <= 0
    case Reset => n <= 1
    case Check | Wait => n <= 1 && (s.event ==> n <= 0)
    case Failed => n <= 1
    case _ => n <= 0
  }

  /** A counter that is ahead by 2 to 254 makes the writer wait after every chunk. */
  predicate Lockstep(s: State) {
    match s.pc
    case Reset => Outstanding(s) <= 1 && (s.pending ==> Outstanding(s) == 0)
    case Check | Wait =>
      Outstanding(s) <= 1 && (s.event || s.pending ==> Outstanding(s) == 0) && !(s.event && s.pending)
    case Failed => Outstanding(s) <= 1
    case _ => Outstanding(s) == 0 && !s.pending
  }

  predicate Inv(cfg: Config, s: State) {
    && Counts(cfg, s)
    && (cfg.start == 0 || cfg.start == 255 ==> Loose(cfg, s))
    && (cfg.start == 0 && cfg.atomic ==> Tight(cfg, s))
    && (2 <= cfg.start <= 254 ==> Lockstep(s))
    && (s.pc.Done? && cfg.start != 1 ==> cfg.start == 0 && Outstanding(s) == 0)
    && (cfg.start == 0 || cfg.start == 255 ==> Woken(s))
  }

  /** In the chunk loop, a writer that waits for an event still has a confirm to come. */
  predicate Woken(s: State) { s.pc.Wait? && !s.event && !s.pending ==> Outstanding(s) > 0 }

  lemma Wrapped(a: nat)
    requires a < 512
    ensures a % 256 == if a < 256 then a else a - 256
  {
  }

  lemma CountsStep(cfg: Config, s: State, a: Action)
    requires Possible(cfg) && Counts(cfg, s) && Enabled(cfg, s, a)
    ensures Counts(cfg, Next(cfg, s, a))
  {
    if a.Confirm? {
      Wrapped(cfg.start + s.confirmed);
      Wrapped(s.count + 1);
      Wrapped(cfg.start + s.confirmed + 1);
    }
  }

  lemma NotWaiting(cfg: Config, s: State)
    requires Possible(cfg) && Counts(cfg, s) && !MustWait(s)
    ensures cfg.start == 0 || cfg.start == 255 ==> Outstanding(s) <= Ahead(cfg)
    ensures 2 <= cfg.start <= 254 ==> Outstanding(s) >= 2
  {
    Wrapped(cfg.start + s.confirmed);
  }

  /** With all chunks confirmed these counters do not make the writer wait. */
  lemma ConfirmedGoesOn(cfg: Config, s: State)
    requires Possible(cfg) && Counts(cfg, s) && (cfg.start == 0 || cfg.start == 255)
    requires Outstanding(s) == 0 && s.sent > 0
    ensures !MustWait(s)
  {
    Wrapped(cfg.start + s.confirmed);
  }

  lemma WokenStep(cfg: Config, s: State, a: Action)
    requires Possible(cfg) && Counts(cfg, s) && Woken(s) && Enabled(cfg, s, a) && (cfg.start == 0 || cfg.start == 255)
    requires s.pc.Check? ==> s.sent > 0
    ensures Woken(Next(cfg, s, a))
  {
    if s.pc.Check? && a.Writer? && Outstanding(s) == 0 { ConfirmedGoesOn(cfg, s); }
  }

  lemma Finishing(cfg: Config, s: State)
    requires Possible(cfg) && Inv(cfg, s) && s.pc.LastCheck? && s.sent == s.count && cfg.start != 1
    ensures cfg.start == 0 && Outstanding(s) == 0
  {
    Wrapped(cfg.start + s.confirmed);
  }

  lemma LooseStep(cfg: Config, s: State, a: Action)
    requires Counts(cfg, s) && Loose(cfg, s) && Enabled(cfg, s, a)
    requires !MustWait(s) ==> Outstanding(s) <= Ahead(cfg)
    ensures Loose(cfg, Next(cfg, s, a))
  {
  }

  lemma TightStep(cfg: Config, s: State, a: Action)
    requires Counts(cfg, s) && cfg.atomic && Tight(cfg, s) && Enabled(cfg, s, a)
    requires !MustWait(s) ==> Outstanding(s) <= Ahead(cfg)
    ensures Tight(cfg, Next(cfg, s, a))
  {
  }

  lemma LockstepStep(cfg: Config, s: State, a: Action)
    requires Counts(cfg, s) && Lockstep(s) && Enabled(cfg, s, a)
    requires !MustWait(s) ==> Outstanding(s) >= 2
    ensures Lockstep(Next(cfg, s, a))
  {
  }

  lemma StepKeeps(cfg: Config, s: State, a: Action)
    requires Possible(cfg) && Inv(cfg, s) && Enabled(cfg, s, a)
    ensures Inv(cfg, Next(cfg, s, a))
  {
    CountsStep(cfg, s, a);
    if !MustWait(s) { NotWaiting(cfg, s); }
    if cfg.start == 0 || cfg.start == 255 { LooseStep(cfg, s, a); WokenStep(cfg, s, a); }
    if cfg.start == 0 && cfg.atomic { TightStep(cfg, s, a); }
    if 2 <= cfg.start <= 254 { LockstepStep(cfg, s, a); }
    if s.pc.LastCheck? && a.Writer? && s.sent == s.count && cfg.start != 1 { Finishing(cfg, s); }
  }

  lemma {:induction false} RunKeeps(cfg: Config, s: State, acts: seq<Action>)
    requires Possible(cfg) && Inv(cfg, s) && Runs(cfg, s, acts)
    ensures Inv(cfg, After(cfg, s, acts))
    decreases |acts|
  {
    if acts != [] {
      StepKeeps(cfg, s, acts[0]);
      RunKeeps(cfg, Next(cfg, s, acts[0]), acts[1..]);
    }
  }

  lemma ReachableInv(cfg: Config, s: State)
    requires Possible(cfg) && Reachable(cfg, s)
    ensures Inv(cfg, s)
  {
    var init, acts :| Initial(cfg, init) && Runs(cfg, init, acts) && After(cfg, init, acts) == s;
    RunKeeps(cfg, init, acts);
  }

  // ---- runs ----

  lemma {:induction false} RunsSnoc(cfg: Config, s: State, acts: seq<Action>, a: Action)
    requires Runs(cfg, s, acts) && Enabled(cfg, After(cfg, s, acts), a)
    ensures Runs(cfg, s, acts + [a]) && After(cfg, s, acts + [a]) == Next(cfg, After(cfg, s, acts), a)
    decreases |acts|
  {
    if acts == [] {
      assert acts + [a] == [a];
    } else {
      RunsSnoc(cfg, Next(cfg, s, acts[0]), acts[1..], a);
      assert (acts + [a])[1..] == acts[1..] + [a];
    }
  }

  lemma Go(cfg: Config, s: State, a: Action) returns (n: State)
    requires Reachable(cfg, s) && Enabled(cfg, s, a)
    ensures Reachable(cfg, n) && n == Next(cfg, s, a)
  {
    var init, acts :| Initial(cfg, init) && Runs(cfg, init, acts) && After(cfg, init, acts) == s;
    RunsSnoc(cfg, init, acts, a);
    n := Next(cfg, s, a);
  }

  lemma Begin(cfg: Config) returns (n: State)
    ensures Reachable(cfg, n) && n == State(Send, 0, 0, cfg.start, false, false)
  {
    n := State(Send, 0, 0, cfg.start, false, false);
    assert Runs(cfg, n, []) && After(cfg, n, []) == n;
  }

  /** The writer's part of one chunk, up to and with the test. */
  lemma OneChunk(cfg: Config, s: State) returns (n: State)
    requires Reachable(cfg, s) && s.pc.Send? && s.sent < cfg.chunks
    ensures Reachable(cfg, n) && n.sent == s.sent + 1 && !n.event
    ensures n == State(if MustWait(n) then Wait else Send, n.sent, s.confirmed, s.count, s.pending, false)
  {
    n := Go(cfg, s, Writer);
    n := Go(cfg, n, Writer);
    n := Go(cfg, n, Writer);
  }

  /** Four chunks, with a confirm signalled after the next reset. */
  lemma LateSignalBreaks() returns (cfg: Config, n: State)
    ensures cfg == Config(4, 0, false) && Reachable(cfg, n) && Outstanding(n) == 3
  {
    cfg := Config(4, 0, false);
    n := Begin(cfg);
    n := OneChunk(cfg, n);
    n := Go(cfg, n, Writer);
    n := Go(cfg, n, Confirm);
    n := Go(cfg, n, Writer);
    n := Go(cfg, n, Writer);
    n := Go(cfg, n, Writer);
    n := Go(cfg, n, Writer);
    n := Go(cfg, n, Signal);
    n := Go(cfg, n, Writer);
    n := Go(cfg, n, Writer);
    n := Go(cfg, n, Writer);
  }

  /** A counter that starts at 1 hides one chunk from the test. */
  lemma CounterAheadBreaks(atomic: bool) returns (cfg: Config, n: State)
    ensures cfg == Config(3, 1, atomic) && Reachable(cfg, n) && Outstanding(n) == 3
  {
    cfg := Config(3, 1, atomic);
    n := Begin(cfg);
    n := OneChunk(cfg, n);
    n := OneChunk(cfg, n);
    n := Go(cfg, n, Writer);
  }

  /** ... and lets a single-chunk burn succeed without any confirm. */
  lemma UnconfirmedSuccess(atomic: bool) returns (cfg: Config, n: State)
    ensures cfg == Config(1, 1, atomic) && Reachable(cfg, n) && n.pc == Done && n.confirmed == 0 && n.sent == 1
  {
    cfg := Config(1, 1, atomic);
    n := Begin(cfg);
    n := OneChunk(cfg, n);
    n := Go(cfg, n, Writer);
    n := Go(cfg, n, Writer);
  }

  // ---- what holds, and when ----

  /** Whatever the threads do, at most three chunks are unconfirmed, unless the counter starts at 1. */
  lemma NeverMoreThanThree(cfg: Config, s: State)
    requires Possible(cfg) && cfg.start != 1 && Reachable(cfg, s)
    ensures Outstanding(s) <= 3
  {
    ReachableInv(cfg, s);
  }

  /** A state of some burn with this counter and signalling. */
  ghost predicate InBurn(chunks: nat, start: nat, atomic: bool, s: State) {
    chunks <= MAX_CHUNKS && Reachable(Config(chunks, start, atomic), s)
  }

  /** The promise of the pipeline, one frame ahead of the one in progress, and its exact condition. */
  lemma AtMostTwoExactlyWhen(start: nat, atomic: bool)
    requires start < 256
    ensures (forall chunks: nat, s :: InBurn(chunks, start, atomic, s) ==> Outstanding(s) <= 2)
      <==> start >= 2 || (start == 0 && atomic)
  {
    if start >= 2 || (start == 0 && atomic) {
      forall chunks: nat, s | InBurn(chunks, start, atomic, s) ensures Outstanding(s) <= 2 {
        ReachableInv(Config(chunks, start, atomic), s);
      }
    } else if start == 1 {
      var cfg, n := CounterAheadBreaks(atomic);
      assert InBurn(3, start, atomic, n);
    } else {
      var cfg, n := LateSignalBreaks();
      assert InBurn(4, start, atomic, n);
    }
  }

  /** A burn that succeeds had every chunk confirmed, exactly when the counter did not start at 1. */
  lemma SuccessIsConfirmedExactlyWhen(start: nat, atomic: bool)
    requires start < 256
    ensures (forall chunks: nat, s :: InBurn(chunks, start, atomic, s) && s.pc == Done ==> s.confirmed == chunks)
      <==> start != 1
  {
    if start != 1 {
      forall chunks: nat, s | InBurn(chunks, start, atomic, s) && s.pc == Done ensures s.confirmed == chunks {
        ReachableInv(Config(chunks, start, atomic), s);
      }
    } else {
      var cfg, n := UnconfirmedSuccess(atomic);
      assert InBurn(1, start, atomic, n);
    }
  }

  /** All chunks up to `k`, each confirmed right after it was sent. */
  lemma {:induction false} SmoothRun(cfg: Config, k: nat) returns (n: State)
    requires cfg.start <= 1 && cfg.start <= k <= cfg.chunks <= MAX_CHUNKS
    ensures Reachable(cfg, n) && n.pc == Send && n.sent == n.count == k && n.confirmed == k - cfg.start && !n.pending
    decreases k
  {
    if k == cfg.start {
      n := Begin(cfg);
      if k == 1 { n := OneChunk(cfg, n); }
    } else {
      n := SmoothRun(cfg, k - 1);
      n := Go(cfg, n, Writer);
      n := Go(cfg, n, Confirm);
      if !cfg.atomic { n := Go(cfg, n, Signal); }
      n := Go(cfg, n, Writer);
      n := Go(cfg, n, Writer);
    }
  }

  /** A burn can succeed only with a counter that starts at 0 or 1: after two confirms have been
      counted, every later burn of the same session fails, whatever its length. */
  lemma CanSucceedExactlyWhen(cfg: Config)
    requires Possible(cfg) && cfg.chunks > 0
    ensures (exists s :: Reachable(cfg, s) && s.pc == Done) <==> cfg.start <= 1
  {
    if cfg.start <= 1 {
      var n := SmoothRun(cfg, cfg.chunks);
      n := Go(cfg, n, Writer);
      n := Go(cfg, n, Writer);
      assert Reachable(cfg, n) && n.pc == Done;
    } else {
      forall s | Reachable(cfg, s) ensures s.pc != Done {
        ReachableInv(cfg, s);
      }
    }
  }

  // ---- lost wake-ups ----

  /** Everything sent is confirmed and signalled, and the writer can only let its wait expire. */
  predicate Stalled(cfg: Config, s: State) {
    && s.confirmed == s.sent && Enabled(cfg, s, GiveUp)
    && forall a :: Enabled(cfg, s, a) ==> a == GiveUp && Next(cfg, s, a).pc == Failed
  }

  /** What stalls is a wait whose event was reset after the last confirm. */
  lemma StalledExactlyWhen(cfg: Config, s: State)
    ensures Stalled(cfg, s) <==>
      s.confirmed == s.sent && (s.pc.Wait? || s.pc.LastWait?) && !s.event && !s.pending
  {
    if Stalled(cfg, s) {
      assert !Enabled(cfg, s, Writer) && !Enabled(cfg, s, Signal);
    }
  }

  lemma ConfirmNow(cfg: Config, s: State) returns (n: State)
    requires Reachable(cfg, s) && !s.pending && s.confirmed < s.sent
    ensures Reachable(cfg, n)
    ensures n == s.(confirmed := s.confirmed + 1, count := (s.count + 1) % 256, event := true)
  {
    n := Go(cfg, s, Confirm);
    if !cfg.atomic { n := Go(cfg, n, Signal); }
  }

  /** One chunk, confirmed between the reset and the test. */
  lemma ConfirmedChunk(cfg: Config, s: State) returns (n: State)
    requires Reachable(cfg, s) && s.pc == Send && s.sent == s.confirmed < cfg.chunks && !s.pending
    ensures Reachable(cfg, n) && n.pc == Send && n.sent == n.confirmed == s.sent + 1 && !n.pending
    ensures n.count == (s.count + 1) % 256
  {
    n := Go(cfg, s, Writer);
    n := Go(cfg, n, Writer);
    n := ConfirmNow(cfg, n);
    n := Go(cfg, n, Writer);
    if n.pc == Wait { n := Go(cfg, n, Writer); }
  }

  lemma {:induction false} OneByOne(cfg: Config, k: nat) returns (n: State)
    requires Possible(cfg) && k <= cfg.chunks
    ensures Reachable(cfg, n) && n.pc == Send && n.sent == n.confirmed == k && !n.pending
    ensures n.count == (cfg.start + k) % 256
    decreases k
  {
    if k == 0 {
      n := Begin(cfg);
    } else {
      n := OneByOne(cfg, k - 1);
      Wrapped(cfg.start + k - 1);
      Wrapped(cfg.start + k);
      Wrapped(n.count + 1);
      n := ConfirmedChunk(cfg, n);
    }
  }

  /** From the end of the chunk loop with everything confirmed and the counter off, to the stall. */
  lemma StallAtEnd(cfg: Config, s: State) returns (n: State)
    requires Reachable(cfg, s) && s.pc == LastReset && s.confirmed == s.sent == cfg.chunks && !s.pending
    ensures Reachable(cfg, n) && n.pc == LastWait && n.sent == cfg.chunks && Stalled(cfg, n)
  {
    n := Go(cfg, s, Writer);
    StalledExactlyWhen(cfg, n);
  }

  /** With a counter that starts at 0 the last confirm must fall between the test and the reset. */
  lemma LateConfirmStalls(cfg: Config) returns (n: State)
    requires Possible(cfg) && cfg.chunks > 0 && cfg.start == 0
    ensures Reachable(cfg, n) && n.pc == LastReset && n.confirmed == n.sent == cfg.chunks && !n.pending
  {
    n := OneByOne(cfg, cfg.chunks - 1);
    n := OneChunk(cfg, n);
    n := Go(cfg, n, Writer);
    n := Go(cfg, n, Writer);
    n := ConfirmNow(cfg, n);
  }

  /** Every burn of at least one chunk, whatever the counter and however confirms are signalled, can
      end up waiting for a confirm that has come already. */
  lemma EveryBurnCanStall(cfg: Config) returns (n: State)
    requires Possible(cfg) && cfg.chunks > 0
    ensures Reachable(cfg, n) && n.pc == LastWait && n.sent == cfg.chunks && Stalled(cfg, n)
  {
    if cfg.start == 0 {
      n := LateConfirmStalls(cfg);
    } else {
      n := OneByOne(cfg, cfg.chunks);
      Wrapped(cfg.start + cfg.chunks);
      n := Go(cfg, n, Writer);
      n := Go(cfg, n, Writer);
    }
    n := StallAtEnd(cfg, n);
  }

  /** A confirm between the write and the reset, under a counter that makes the writer wait anyway. */
  lemma EarlyConfirmStalls(start: nat, atomic: bool) returns (cfg: Config, n: State)
    requires 1 <= start <= 254
    ensures cfg == Config(1, start, atomic) && Reachable(cfg, n) && n.pc == Wait && Stalled(cfg, n)
  {
    cfg := Config(1, start, atomic);
    n := Begin(cfg);
    n := Go(cfg, n, Writer);
    n := ConfirmNow(cfg, n);
    n := Go(cfg, n, Writer);
    n := Go(cfg, n, Writer);
    StalledExactlyWhen(cfg, n);
  }

  ghost predicate LoopStall(cfg: Config, s: State) { Reachable(cfg, s) && s.pc == Wait && Stalled(cfg, s) }

  /** In the chunk loop itself a wake-up is lost exactly with counters that start at 1 to 254. */
  lemma LoopStallsExactlyWhen(start: nat, atomic: bool)
    requires start < 256
    ensures (exists chunks: nat, s :: chunks <= MAX_CHUNKS && LoopStall(Config(chunks, start, atomic), s))
      <==> 1 <= start <= 254
  {
    if 1 <= start <= 254 {
      var cfg, n := EarlyConfirmStalls(start, atomic);
      assert LoopStall(Config(1, start, atomic), n);
    } else {
      forall chunks: nat, s | chunks <= MAX_CHUNKS ensures !LoopStall(Config(chunks, start, atomic), s) {
        var cfg := Config(chunks, start, atomic);
        StalledExactlyWhen(cfg, s);
        if Reachable(cfg, s) { ReachableInv(cfg, s); }
      }
    }
  }

  // ---- when all is not lost ----

  /** Failed, or past the last confirm with the event reset or about to be. */
  predicate Doomed(s: State) {
    s.pc.Failed? || (s.confirmed == s.sent && !s.pending && (s.pc.LastReset? || (s.pc.LastWait? && !s.event)))
  }

  lemma DoomedStays(cfg: Config, s: State, a: Action)
    requires Doomed(s) && Enabled(cfg, s, a)
    ensures Doomed(Next(cfg, s, a))
  {
  }

  lemma {:induction false} DoomedRun(cfg: Config, s: State, acts: seq<Action>)
    requires Doomed(s) && Runs(cfg, s, acts)
    ensures Doomed(After(cfg, s, acts))
    decreases |acts|
  {
    if acts != [] {
      DoomedStays(cfg, s, acts[0]);
      DoomedRun(cfg, Next(cfg, s, acts[0]), acts[1..]);
    }
  }

  /** The writer goes on as long as it can; only when it cannot does a signal or a confirm come. */
  function Patient(s: State): Action {
    if (s.pc.Wait? || s.pc.LastWait?) && !s.event then if s.pending then Signal else Confirm else Writer
  }

  function Stage(s: State): nat {
    match s.pc
    case Reset => 8 case Check => 7 case Wait => 6 case Send => 5
    case LastWait => if s.event then 4 else 1
    case LastCheck => 3 case LastReset => 2
    case _ => 0
  }

  function ToCome(s: State): int { 2 * Outstanding(s) + if s.pending then 1 else 0 }

  /** Patience leads on, and not into a stall. */
  lemma PatientStep(cfg: Config, s: State)
    requires Possible(cfg) && cfg.start == 0 && Inv(cfg, s) && !Doomed(s) && s.pc != Done
    ensures var a := Patient(s); var n := Next(cfg, s, a);
      && Enabled(cfg, s, a) && !Doomed(n)
      && (n.sent > s.sent || (n.sent == s.sent &&
        (ToCome(n) < ToCome(s) || (ToCome(n) == ToCome(s) && Stage(n) < Stage(s)))))
  {
    Wrapped(cfg.start + s.confirmed);
  }

  lemma {:induction false} Finishes(cfg: Config, s: State) returns (acts: seq<Action>)
    requires Possible(cfg) && cfg.start == 0 && Inv(cfg, s) && !Doomed(s)
    ensures Runs(cfg, s, acts) && After(cfg, s, acts).pc == Done
    decreases cfg.chunks - s.sent, ToCome(s), Stage(s)
  {
    acts := [];
    if s.pc != Done {
      var a := Patient(s);
      PatientStep(cfg, s);
      StepKeeps(cfg, s, a);
      var rest := Finishes(cfg, Next(cfg, s, a));
      acts := [a] + rest;
      assert acts[1..] == rest;
    }
  }

  /** With a counter that starts at 0, a burn can still succeed at any point of any run, however late
      confirms and signals have been so far, unless it has failed or its last wake-up is lost. */
  lemma CanStillSucceedExactlyWhen(cfg: Config, s: State)
    requires Possible(cfg) && cfg.start == 0 && Reachable(cfg, s)
    ensures (exists acts :: Runs(cfg, s, acts) && After(cfg, s, acts).pc == Done) <==> !Doomed(s)
  {
    ReachableInv(cfg, s);
    if Doomed(s) {
      forall acts | Runs(cfg, s, acts) ensures After(cfg, s, acts).pc != Done { DoomedRun(cfg, s, acts); }
    } else {
      var acts := Finishes(cfg, s);
    }
  }

  // ---- what a burn leaves behind ----

  /** No confirm and no signal is still to come, so the event is free for the next user. */
  predicate Settled(s: State) { s.confirmed == s.sent && !s.pending }

  /** A burn whose last confirm is counted, and enough to succeed, before it is signalled. */
  lemma UnsignalledSuccess() returns (cfg: Config, n: State)
    ensures cfg == Config(1, 0, false) && Reachable(cfg, n) && n.pc == Done && n.confirmed == 1 && n.pending
  {
    cfg := Config(1, 0, false);
    n := Begin(cfg);
    n := OneChunk(cfg, n);
    n := Go(cfg, n, Confirm);
    n := Go(cfg, n, Writer);
    n := Go(cfg, n, Writer);
  }

  /** A burn that succeeds leaves nothing outstanding, exactly when its counter starts at 0 and
      confirms are signalled as they are counted - or it cannot succeed at all. */
  lemma SuccessIsSettledExactlyWhen(start: nat, atomic: bool)
    requires start < 256
    ensures (forall chunks: nat, s :: InBurn(chunks, start, atomic, s) && s.pc == Done ==> Settled(s))
      <==> start >= 2 || (start == 0 && atomic)
  {
    if start >= 2 || (start == 0 && atomic) {
      forall chunks: nat, s | InBurn(chunks, start, atomic, s) && s.pc == Done ensures Settled(s) {
        ReachableInv(Config(chunks, start, atomic), s);
      }
    } else if start == 1 {
      var cfg, n := UnconfirmedSuccess(atomic);
      assert InBurn(1, start, atomic, n) && n.sent == 1;
    } else {
      var cfg, n := UnsignalledSuccess();
      assert InBurn(1, start, atomic, n);
    }
  }
}
