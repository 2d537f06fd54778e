/** The two-register mailbox between the driver and the boot loader, run as two parties that take
    turns in any order.  REGIN carries commands, REGOUT answers; each side polls for the other. */
module Mailbox {
  import opened Bytes

  type word = w: int | 0 <= w < 0x1_0000

  const LOAD_HOSTED_FW: byte := 0x41
  const JUMP_TO_ZERO_PC: byte := 0x4A

  predicate InValid(w: word) { w / 0x1000 == 0xA }
  predicate OutValid(w: word) { w / 0x100 == 0xAB }

  /** What the driver writes: (cmd | REGIN_INPUT << 8), with the coex mode in the low nibble. */
  function InWord(cmd: byte, coexMode: nat): (w: word)
    requires coexMode < 16
    ensures InValid(w) && w % 256 == cmd && w / 0x100 % 0x10 == coexMode
  {
    cmd + 0x100 * (0xA0 + coexMode)
  }

  /** (cmd | REGOUT_INVALID << 8) in 16 bits. */
  function SpentWord(cmd: byte): (w: word)
    ensures !OutValid(w) && w % 256 == cmd && w / 0x100 == 0x54
  {
    cmd + 0x5400
  }

  function AnswerWord(resp: byte): (w: word)
    ensures OutValid(w) && w % 256 == resp
  {
    resp + 0xAB00
  }

  /** Commands the driver sends without waiting for an answer. */
  predicate FireAndForget(cmd: byte) { cmd == LOAD_HOSTED_FW || cmd == JUMP_TO_ZERO_PC }

  datatype DriverPc =
    | Booting                               // device_init polls REGOUT for the boot announcement
    | Announced                             // announcement seen, about to be invalidated
    | Ready
    | PollIn(cmd: byte)                     // waiting for REGIN to be free
    | WriteIn(cmd: byte)                    // REGIN seen free
    | PollOut(cmd: byte)                    // waiting for the answer
    | Consume(cmd: byte, resp: byte)        // answer seen, about to be invalidated

  datatype Loader = Starting | Waiting | Working(serial: nat, cmd: byte)

  /** Serial numbers are bookkeeping: they say which command a register's contents belong to. */
  datatype Event =
    | Issued(serial: nat, cmd: byte, overwritten: bool)
    | Consumed(waitedFor: nat, answerTo: nat, resp: byte)

  datatype State = State(
    regin: word, inSerial: nat,
    regout: word, outSerial: nat,
    driver: DriverPc, loader: Loader,
    issued: nat,                            // commands written so far; the latest has this serial
    forgot: bool,                           // a fire-and-forget command has been written
    log: seq<Event>)

  /** `mayAbort`: a wait can time out or a register access can fail.  `goesOn`: commands may follow a
      fire-and-forget command.  `answersAll`: the loader answers fire-and-forget commands as well. */
  datatype Config = Config(mayAbort: bool, goesOn: bool, answersAll: bool)

  datatype Action =
    | Begin(cmd: byte)
    | DriverStep(coexMode: nat)
    | Abort
    | Announce(resp: byte)                  // the loader is up
    | Take(cleared: word)
    | Answer(resp: byte)
    | Finish                                // the loader ends a command without an answer

  predicate Initial(s: State) {
    && !InValid(s.regin) && !OutValid(s.regout) && s.outSerial == 0
    && s.driver == Booting && s.loader == Starting && s.issued == 0 && !s.forgot && s.log == []
  }

  predicate Enabled(cfg: Config, s: State, a: Action) {
    match a
    case Begin(_) => s.driver == Ready && (s.forgot ==> cfg.goesOn)
    case DriverStep(coexMode) => s.driver != Ready && coexMode < 16
    case Abort => cfg.mayAbort && !s.driver.Booting? && !s.driver.Announced? && !s.driver.Ready?
    case Announce(_) => s.loader == Starting
    case Take(cleared) => s.loader == Waiting && InValid(s.regin) && !InValid(cleared)
    case Answer(_) => s.loader.Working? && (FireAndForget(s.loader.cmd) ==> cfg.answersAll)
    case Finish => s.loader.Working? && FireAndForget(s.loader.cmd) && !cfg.answersAll
  }

  function DriverNext(s: State, coexMode: nat): State
    requires coexMode < 16
  {
    match s.driver
    case Booting => if OutValid(s.regout) then s.(driver := Announced) else s
    case Announced => s.(regout := SpentWord(0x54), driver := Ready)
    case Ready => s
    case PollIn(cmd) => if InValid(s.regin) then s else s.(driver := WriteIn(cmd))
    case WriteIn(cmd) =>
      var n := s.issued + 1;
      s.(regin := InWord(cmd, coexMode), inSerial := n, issued := n,
         forgot := s.forgot || FireAndForget(cmd),
         driver := if FireAndForget(cmd) then Ready else PollOut(cmd),
         log := s.log + [Issued(n, cmd, InValid(s.regin))])
    case PollOut(cmd) => if OutValid(s.regout) then s.(driver := Consume(cmd, s.regout % 256)) else s
    case Consume(cmd, resp) =>
      s.(regout := SpentWord(cmd), driver := Ready, log := s.log + [Consumed(s.issued, s.outSerial, resp)])
  }

  function Next(s: State, a: Action): State
    requires a.DriverStep? ==> a.coexMode < 16
    requires a.Answer? || a.Finish? ==> s.loader.Working?
  {
    match a
    case Begin(cmd) => s.(driver := PollIn(cmd))
    case DriverStep(coexMode) => DriverNext(s, coexMode)
    case Abort => s.(driver := Ready)
    case Announce(resp) => s.(regout := AnswerWord(resp), loader := Waiting)
    case Take(cleared) => s.(regin := cleared, loader := Working(s.inSerial, s.regin % 256))
    case Answer(resp) => s.(regout := AnswerWord(resp), outSerial := s.loader.serial, loader := Waiting)
    case Finish => s.(loader := Waiting)
  }

  predicate Runs(cfg: Config, s: State, acts: seq<Action>)
    decreases |acts|
  {
    acts == [] || (Enabled(cfg, s, acts[0]) && Runs(cfg, Next(s, acts[0]), acts[1..]))
  }

  function After(cfg: Config, s: State, acts: seq<Action>): State
    requires Runs(cfg, s, acts)
    decreases |acts|
  {
    if acts == [] then s else After(cfg, Next(s, acts[0]), acts[1..])
  }

  ghost predicate Reachable(cfg: Config, s: State) {
    exists init, acts :: Initial(init) && Runs(cfg, init, acts) && After(cfg, init, acts) == s
  }

  // ---- claims ----

  /** No command is written over one the loader has not taken. */
  predicate NothingOverwritten(log: seq<Event>) {
    forall i :: 0 <= i < |log| && log[i].Issued? ==> !log[i].overwritten
  }

  /** Every answer the driver accepts is the answer to the command it is waiting for. */
  predicate AnswersMatch(log: seq<Event>) {
    forall i :: 0 <= i < |log| && log[i].Consumed? ==> log[i].waitedFor == log[i].answerTo
  }

  /** Free once seen free: only the driver fills REGIN. */
  predicate InInv(s: State) {
    NothingOverwritten(s.log) && (s.driver.WriteIn? ==> !InValid(s.regin))
  }

  lemma {:induction false} NeverOverwrites(cfg: Config, s: State, acts: seq<Action>)
    requires InInv(s) && Runs(cfg, s, acts)
    ensures InInv(After(cfg, s, acts))
    decreases |acts|
  {
    if acts != [] { NeverOverwrites(cfg, Next(s, acts[0]), acts[1..]); }
  }

  /** ... and that holds in every environment, aborted waits included. */
  lemma CommandsAreNeverLost(cfg: Config, s: State)
    requires Reachable(cfg, s)
    ensures NothingOverwritten(s.log)
  {
    var init, acts :| Initial(init) && Runs(cfg, init, acts) && After(cfg, init, acts) == s;
    NeverOverwrites(cfg, init, acts);
  }

  /** Nothing is under way that could still be answered. */
  predicate Quiet(cfg: Config, s: State) {
    && !OutValid(s.regout) && !s.loader.Starting?
    && (InValid(s.regin) ==> FireAndForget(s.regin % 256) && !cfg.answersAll)
    && (s.loader.Working? ==> FireAndForget(s.loader.cmd) && !cfg.answersAll)
  }

  /** The command `cmd`, the latest issued, is in exactly one place on its way to its answer. */
  predicate UnderWay(cfg: Config, s: State, cmd: byte) {
    || (InValid(s.regin) && s.regin % 256 == cmd && s.inSerial == s.issued && !OutValid(s.regout)
      && !s.loader.Starting? && (s.loader.Working? ==> FireAndForget(s.loader.cmd) && !cfg.answersAll))
    || (!InValid(s.regin) && s.loader == Working(s.issued, cmd) && !OutValid(s.regout))
    || (!InValid(s.regin) && s.loader == Waiting && OutValid(s.regout) && s.outSerial == s.issued)
  }

  predicate MatchInv(cfg: Config, s: State) {
    && AnswersMatch(s.log)
    && (s.forgot && cfg.answersAll ==> s.driver == Ready)
    && match s.driver
       case Booting =>
         !InValid(s.regin) && !s.forgot && if OutValid(s.regout) then s.loader == Waiting else s.loader == Starting
       case Announced => !InValid(s.regin) && s.loader == Waiting && !s.forgot
       case PollOut(cmd) => !FireAndForget(cmd) && UnderWay(cfg, s, cmd)
       case Consume(cmd, _) => OutValid(s.regout) && s.outSerial == s.issued && !InValid(s.regin) && s.loader == Waiting
       case _ => (s.forgot && cfg.answersAll) || Quiet(cfg, s)
  }

  predicate Orderly(cfg: Config) { !cfg.mayAbort && !(cfg.goesOn && cfg.answersAll) }

  lemma MatchStep(cfg: Config, s: State, a: Action)
    requires Orderly(cfg) && InInv(s) && MatchInv(cfg, s) && Enabled(cfg, s, a)
    ensures MatchInv(cfg, Next(s, a))
  {
  }

  lemma {:induction false} MatchRun(cfg: Config, s: State, acts: seq<Action>)
    requires Orderly(cfg) && InInv(s) && MatchInv(cfg, s) && Runs(cfg, s, acts)
    ensures MatchInv(cfg, After(cfg, s, acts))
    decreases |acts|
  {
    if acts != [] {
      MatchStep(cfg, s, acts[0]);
      MatchRun(cfg, Next(s, acts[0]), acts[1..]);
    }
  }

  // ---- where it breaks ----

  lemma {:induction false} RunsSnoc(cfg: Config, s: State, acts: seq<Action>, a: Action)
    requires Runs(cfg, s, acts) && Enabled(cfg, After(cfg, s, acts), a)
    ensures Runs(cfg, s, acts + [a]) && After(cfg, s, acts + [a]) == Next(After(cfg, s, acts), a)
    decreases |acts|
  {
    if acts == [] {
      assert acts + [a] == [a];
    } else {
      RunsSnoc(cfg, Next(s, acts[0]), acts[1..], a);
      assert (acts + [a])[1..] == acts[1..] + [a];
    }
  }

  lemma Go(cfg: Config, s: State, a: Action) returns (n: State)
    requires Reachable(cfg, s) && Enabled(cfg, s, a)
    ensures Reachable(cfg, n) && n == Next(s, a)
  {
    var init, acts :| Initial(init) && Runs(cfg, init, acts) && After(cfg, init, acts) == s;
    RunsSnoc(cfg, init, acts, a);
    n := Next(s, a);
  }

  lemma Booted(cfg: Config) returns (n: State)
    ensures Reachable(cfg, n) && n.driver == Ready && n.loader == Waiting && !InValid(n.regin)
    ensures !n.forgot && n.issued == 0
  {
    n := State(0, 0, 0, 0, Booting, Starting, 0, false, []);
    assert Runs(cfg, n, []) && After(cfg, n, []) == n;
    n := Go(cfg, n, Announce(1));
    n := Go(cfg, n, DriverStep(1));
    n := Go(cfg, n, DriverStep(1));
  }

  /** Write a command and let the loader take it. */
  lemma IssuedAndTaken(cfg: Config, s: State, cmd: byte) returns (n: State)
    requires Reachable(cfg, s) && s.driver == Ready && s.loader == Waiting && !InValid(s.regin) && !s.forgot
    ensures Reachable(cfg, n) && n.loader == Working(s.issued + 1, cmd) && !InValid(n.regin) && n.issued == s.issued + 1
    ensures n.driver == (if FireAndForget(cmd) then Ready else PollOut(cmd)) && n.forgot == FireAndForget(cmd)
  {
    n := Go(cfg, s, Begin(cmd));
    n := Go(cfg, n, DriverStep(1));
    n := Go(cfg, n, DriverStep(1));
    n := Go(cfg, n, Take(0));
  }

  /** With an old answer in REGOUT, the next command takes it for its own. */
  lemma StaleAnswerTaken(cfg: Config, s: State) returns (n: State)
    requires Reachable(cfg, s) && s.driver == Ready && !InValid(s.regin) && (s.forgot ==> cfg.goesOn)
    requires OutValid(s.regout) && s.outSerial <= s.issued
    ensures Reachable(cfg, n) && !AnswersMatch(n.log)
  {
    n := Go(cfg, s, Begin(0x50));
    n := Go(cfg, n, DriverStep(1));
    n := Go(cfg, n, DriverStep(1));
    n := Go(cfg, n, DriverStep(1));
    n := Go(cfg, n, DriverStep(1));
    assert n.log[|n.log| - 1] == Consumed(s.issued + 1, s.outSerial, s.regout % 256);
  }

  /** Every accepted answer belongs to the command it was waited for, in every run, if and only if no
      wait is given up and nothing follows a fire-and-forget command the loader might answer. */
  lemma AnswersMatchExactlyWhen(cfg: Config)
    ensures (forall s :: Reachable(cfg, s) ==> AnswersMatch(s.log)) <==>
      !cfg.mayAbort && !(cfg.goesOn && cfg.answersAll)
  {
    if Orderly(cfg) {
      forall s | Reachable(cfg, s) ensures AnswersMatch(s.log) {
        var init, acts :| Initial(init) && Runs(cfg, init, acts) && After(cfg, init, acts) == s;
        MatchRun(cfg, init, acts);
      }
    } else {
      var n := Booted(cfg);
      if cfg.mayAbort {
        n := IssuedAndTaken(cfg, n, 0x4B);
        n := Go(cfg, n, Abort);
      } else {
        n := IssuedAndTaken(cfg, n, LOAD_HOSTED_FW);
      }
      n := Go(cfg, n, Answer(0xAA));
      n := StaleAnswerTaken(cfg, n);
    }
  }
}
