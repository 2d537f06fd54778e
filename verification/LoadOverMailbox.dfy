/** The load and the mailbox put together: over a mailbox where nothing is aborted, every command of a
    successful load consumes its own answer, although the mailbox alone does not promise that. */
module LoadOverMailbox {
  import opened Bytes
  import opened Mailbox
  import Load = FirmwareRun

  /** The command bytes. */
  function CmdByte(cmd: Load.Cmd): byte {
    match cmd
    case AutoRead => 0x52
    case CheckCrc => 0x4B
    case Polling => 0x50
    case LoadHosted => 0x41
    case JumpToZero => 0x4A
    case BurnHosted => 0x42
    case BurnLoader => 0x23
    case PingValid => 0x49
    case PongValid => 0x4F
    case EofReached => 0x45
  }

  lemma SameFireAndForget(cmd: Load.Cmd)
    ensures FireAndForget(CmdByte(cmd)) <==> Load.NeedsNoAnswer(cmd)
  {
  }

  /** The commands written so far. */
  function IssuedCmds(log: seq<Event>): seq<byte> {
    if log == [] then []
    else
      var e := log[|log| - 1];
      IssuedCmds(log[..|log| - 1]) + if e.Issued? then [e.cmd] else []
  }

  lemma IssuedSnoc(log: seq<Event>, e: Event)
    ensures IssuedCmds(log + [e]) == IssuedCmds(log) + if e.Issued? then [e.cmd] else []
  {
    assert (log + [e])[..|log|] == log;
  }

  /** Nothing follows a fire-and-forget command. */
  predicate ForgetsLast(cmds: seq<byte>) { forall i :: 0 <= i < |cmds| - 1 ==> !FireAndForget(cmds[i]) }

  predicate Forgotten(cmds: seq<byte>) { exists i :: 0 <= i < |cmds| && FireAndForget(cmds[i]) }

  /** Nothing is aborted; otherwise the driver may go on and the loader may answer as they like. */
  function Lenient(answersAll: bool): Config { Config(false, true, answersAll) }

  function Strict(answersAll: bool): Config { Config(false, false, answersAll) }

  /** As long as nothing follows a fire-and-forget command the strict invariant holds; after one, the
      driver has not written anything yet. */
  predicate Inv(answersAll: bool, s: State) {
    && InInv(s)
    && (s.forgot <==> Forgotten(IssuedCmds(s.log)))
    && (ForgetsLast(IssuedCmds(s.log)) ==>
      && AnswersMatch(s.log)
      && if s.forgot then s.driver == Ready || s.driver.PollIn? || s.driver.WriteIn?
         else MatchInv(Strict(answersAll), s))
  }

  lemma ForgetsLastSnoc(cmds: seq<byte>, b: byte)
    ensures ForgetsLast(cmds + [b]) ==> ForgetsLast(cmds) && !Forgotten(cmds)
    ensures Forgotten(cmds + [b]) <==> Forgotten(cmds) || FireAndForget(b)
  {
    var all := cmds + [b];
    assert all[|cmds|] == b && forall i :: 0 <= i < |cmds| ==> all[i] == cmds[i];
    if Forgotten(cmds) {
      var i :| 0 <= i < |cmds| && FireAndForget(cmds[i]);
      assert FireAndForget(all[i]);
    }
  }

  lemma DriverIssues(s: State, coexMode: nat)
    requires coexMode < 16
    ensures var n := DriverNext(s, coexMode);
      if s.driver.WriteIn? then
        && IssuedCmds(n.log) == IssuedCmds(s.log) + [s.driver.cmd]
        && n.forgot == (s.forgot || FireAndForget(s.driver.cmd))
      else IssuedCmds(n.log) == IssuedCmds(s.log) && n.forgot == s.forgot
  {
    if s.driver.WriteIn? {
      IssuedSnoc(s.log, Issued(s.issued + 1, s.driver.cmd, InValid(s.regin)));
    } else if s.driver.Consume? {
      IssuedSnoc(s.log, Consumed(s.issued, s.outSerial, s.driver.resp));
      assert IssuedCmds(s.log) + [] == IssuedCmds(s.log);
    }
  }

  /** The step that writes a command is the only one that changes what was issued. */
  lemma IssuedStep(s: State, a: Action)
    requires Enabled(Lenient(true), s, a) || Enabled(Lenient(false), s, a)
    ensures var n := Next(s, a);
      if a.DriverStep? && s.driver.WriteIn? then
        && IssuedCmds(n.log) == IssuedCmds(s.log) + [s.driver.cmd]
        && n.forgot == (s.forgot || FireAndForget(s.driver.cmd))
      else IssuedCmds(n.log) == IssuedCmds(s.log) && n.forgot == s.forgot
  {
    if a.DriverStep? { DriverIssues(s, a.coexMode); }
  }

  lemma AfterForgetting(answersAll: bool, s: State, a: Action)
    requires Inv(answersAll, s) && s.forgot && Enabled(Lenient(answersAll), s, a)
    requires ForgetsLast(IssuedCmds(Next(s, a).log)) && ForgetsLast(IssuedCmds(s.log))
    requires !(a.DriverStep? && s.driver.WriteIn?)
    ensures var n := Next(s, a); AnswersMatch(n.log) && (n.driver == Ready || n.driver.PollIn? || n.driver.WriteIn?)
  {
  }

  lemma StepKeeps(answersAll: bool, s: State, a: Action)
    requires Inv(answersAll, s) && Enabled(Lenient(answersAll), s, a)
    ensures Inv(answersAll, Next(s, a))
  {
    var n := Next(s, a);
    NeverOverwrites(Lenient(answersAll), s, [a]);
    IssuedStep(s, a);
    if a.DriverStep? && s.driver.WriteIn? { ForgetsLastSnoc(IssuedCmds(s.log), s.driver.cmd); }
    if ForgetsLast(IssuedCmds(n.log)) {
      if s.forgot { AfterForgetting(answersAll, s, a); } else { MatchStep(Strict(answersAll), s, a); }
    }
  }

  lemma {:induction false} RunKeeps(answersAll: bool, s: State, acts: seq<Action>)
    requires Inv(answersAll, s) && Runs(Lenient(answersAll), s, acts)
    ensures Inv(answersAll, After(Lenient(answersAll), s, acts))
    decreases |acts|
  {
    if acts != [] {
      StepKeeps(answersAll, s, acts[0]);
      RunKeeps(answersAll, Next(s, acts[0]), acts[1..]);
    }
  }

  /** The bytes of a load's commands. */
  function CmdBytes(t: seq<Load.Attempt>): (b: seq<byte>)
    ensures |b| == |t| && forall i :: 0 <= i < |t| ==> b[i] == CmdByte(t[i].cmd)
  {
    seq(|t|, i requires 0 <= i < |t| => CmdByte(t[i].cmd))
  }

  /** In every run of driver and loader without aborts that issues the commands of a successful load,
      or a first part of them, every answer consumed is the answer to the command waited for. */
  lemma LoadConsumesItsOwnAnswers(c: Load.Setup, answersAll: bool, s: State)
    requires Load.Load(c).1 && Reachable(Lenient(answersAll), s) && IssuedCmds(s.log) <= CmdBytes(Load.Load(c).0.t)
    ensures AnswersMatch(s.log)
  {
    var cfg := Lenient(answersAll);
    var init, acts :| Initial(init) && Runs(cfg, init, acts) && After(cfg, init, acts) == s;
    RunKeeps(answersAll, init, acts);
    var cmds := IssuedCmds(s.log);
    forall i | 0 <= i < |cmds| - 1 ensures !FireAndForget(cmds[i]) {
      Load.UnansweredComesLast(c, i);
      SameFireAndForget(Load.Load(c).0.t[i].cmd);
    }
  }
}
