/** The read-back of verify_flash_content as three parties: the driver, the card and the receive thread.
    Reads and writes are announced by one and the same event, so a write confirm that is still to come
    can end the wait for a read.  `strays` counts such confirms when the read-back begins. */
module ReadBack {
  import opened Bytes

  /** What is expected and what the flash holds, cut into the chunks that are read. */
  datatype Setup = Setup(image: seq<seq<byte>>, flash: seq<seq<byte>>)

  predicate WellCut(c: Setup) {
    |c.image| == |c.flash| && forall i :: 0 <= i < |c.image| ==> |c.image[i]| == |c.flash[i]|
  }

  datatype Pc = Send | Reset | Wait | Compare | Passed | Rejected | TimedOut

  datatype State = State(
    pc: Pc,
    idx: nat,             // chunks compared
    asked: nat,           // reads sent
    answered: nat,        // reads the card has answered, in order
    unsignalled: bool,    // an answer was copied and is yet to be signalled
    strays: nat,          // write confirms still to come
    event: bool,
    buffer: seq<byte>)

  datatype Action = Driver | GiveUp | Answer | Signal | Stray

  /** The buffer begins with the chunk. */
  predicate Shows(buffer: seq<byte>, chunk: seq<byte>) { chunk <= buffer }

  /** An answer copied over the beginning of the buffer. */
  function Copied(buffer: seq<byte>, chunk: seq<byte>): (b: seq<byte>)
    ensures Shows(b, chunk) && |b| >= |buffer| && forall i :: |chunk| <= i < |buffer| ==> b[i] == buffer[i]
  {
    chunk + if |chunk| <= |buffer| then buffer[|chunk|..] else []
  }

  predicate Initial(strays: nat, s: State) {
    s.pc == Send && s.idx == 0 && s.asked == 0 && s.answered == 0 && !s.unsignalled && s.strays == strays
  }

  predicate Enabled(c: Setup, s: State, a: Action) {
    match a
    case Driver => s.pc.Send? || s.pc.Reset? || (s.pc.Wait? && s.event) || (s.pc.Compare? && s.idx < |c.image|)
    case GiveUp => s.pc.Wait?
    case Answer => s.answered < s.asked <= |c.image| && !s.unsignalled && |c.flash| == |c.image|
    case Signal => s.unsignalled
    case Stray => s.strays > 0 && !s.unsignalled
  }

  /** An answer of another length than the one asked for last is thrown away without a signal. */
  function Next(c: Setup, s: State, a: Action): State
    requires Enabled(c, s, a)
  {
    match a
    case Driver => (
      match s.pc
      case Send => if s.idx < |c.image| then s.(asked := s.asked + 1, pc := Reset) else s.(pc := Passed)
      case Reset => s.(event := false, pc := Wait)
      case Wait => s.(pc := Compare)
      case Compare => if Shows(s.buffer, c.image[s.idx]) then s.(idx := s.idx + 1, pc := Send) else s.(pc := Rejected)
      case _ => s
    )
    case GiveUp => s.(pc := TimedOut)
    case Answer =>
      var n := s.(answered := s.answered + 1);
      if |c.flash[s.answered]| == |c.image[s.asked - 1]|
      then n.(buffer := Copied(s.buffer, c.flash[s.answered]), unsignalled := true) else n
    case Signal => s.(event := true, unsignalled := false)
    case Stray => s.(strays := s.strays - 1, event := true)
  }

  predicate Runs(c: Setup, s: State, acts: seq<Action>)
    decreases |acts|
  {
    acts == [] || (Enabled(c, s, acts[0]) && Runs(c, Next(c, s, acts[0]), acts[1..]))
  }

  function After(c: Setup, s: State, acts: seq<Action>): State
    requires Runs(c, s, acts)
    decreases |acts|
  {
    if acts == [] then s else After(c, Next(c, s, acts[0]), acts[1..])
  }

  ghost predicate Reachable(c: Setup, strays: nat, s: State) {
    exists init, acts :: Initial(strays, init) && Runs(c, init, acts) && After(c, init, acts) == s
  }

  /** A verdict says what the flash holds. */
  predicate VerdictRight(c: Setup, s: State) {
    && (s.pc.Passed? ==> c.image == c.flash)
    && (s.pc.Rejected? ==> c.image != c.flash)
  }

  // ---- with nothing outstanding ----

  predicate Busy(pc: Pc) { pc.Reset? || pc.Wait? || pc.Compare? }

  predicate Inv(c: Setup, s: State) {
    && WellCut(c) && s.strays == 0 && s.idx <= |c.image|
    && (forall i :: 0 <= i < s.idx ==> c.image[i] == c.flash[i])
    && s.answered <= s.asked
    && match s.pc
       case Send => s.asked == s.answered == s.idx && !s.unsignalled
       case Passed => s.idx == |c.image| && s.asked == s.answered && !s.unsignalled
       case Rejected => c.image != c.flash && s.asked == s.answered && !s.unsignalled
       case TimedOut => s.asked == s.idx + 1 <= |c.image|
       case _ =>
         && s.idx < |c.image| && s.asked == s.idx + 1 && s.idx <= s.answered
         && (s.answered == s.asked ==> Shows(s.buffer, c.flash[s.idx]))
         && (s.unsignalled ==> s.answered == s.asked)
         && (s.pc.Wait? && s.event ==> s.answered == s.asked && !s.unsignalled)
         && (s.pc.Compare? ==> s.answered == s.asked && !s.unsignalled)
  }

  lemma SameLengthShows(buffer: seq<byte>, a: seq<byte>, b: seq<byte>)
    requires Shows(buffer, a) && |a| == |b|
    ensures Shows(buffer, b) <==> a == b
  {
  }

  lemma StepKeeps(c: Setup, s: State, a: Action)
    requires Inv(c, s) && Enabled(c, s, a)
    ensures Inv(c, Next(c, s, a))
  {
    if s.pc.Compare? && a.Driver? { SameLengthShows(s.buffer, c.flash[s.idx], c.image[s.idx]); }
  }

  lemma {:induction false} RunKeeps(c: Setup, s: State, acts: seq<Action>)
    requires Inv(c, s) && Runs(c, s, acts)
    ensures Inv(c, After(c, s, acts))
    decreases |acts|
  {
    if acts != [] {
      StepKeeps(c, s, acts[0]);
      RunKeeps(c, Next(c, s, acts[0]), acts[1..]);
    }
  }

  // ---- with a write confirm outstanding ----

  lemma {:induction false} RunsSnoc(c: Setup, s: State, acts: seq<Action>, a: Action)
    requires Runs(c, s, acts) && Enabled(c, After(c, s, acts), a)
    ensures Runs(c, s, acts + [a]) && After(c, s, acts + [a]) == Next(c, After(c, s, acts), a)
    decreases |acts|
  {
    if acts == [] {
      assert acts + [a] == [a];
    } else {
      RunsSnoc(c, Next(c, s, acts[0]), acts[1..], a);
      assert (acts + [a])[1..] == acts[1..] + [a];
    }
  }

  lemma Go(c: Setup, strays: nat, s: State, a: Action) returns (n: State)
    requires Reachable(c, strays, s) && Enabled(c, s, a)
    ensures Reachable(c, strays, n) && n == Next(c, s, a)
  {
    var init, acts :| Initial(strays, init) && Runs(c, init, acts) && After(c, init, acts) == s;
    RunsSnoc(c, init, acts, a);
    n := Next(c, s, a);
  }

  lemma Begin(c: Setup, strays: nat, buffer: seq<byte>) returns (n: State)
    ensures Reachable(c, strays, n) && n == State(Send, 0, 0, 0, false, strays, false, buffer)
  {
    n := State(Send, 0, 0, 0, false, strays, false, buffer);
    assert Runs(c, n, []) && After(c, n, []) == n;
  }

  /** The first read, ended by a write confirm before the card has answered. */
  lemma StrayRead(c: Setup, strays: nat, buffer: seq<byte>) returns (n: State)
    requires WellCut(c) && strays > 0 && |c.image| > 0
    ensures Reachable(c, strays, n) && n == State(Compare, 0, 1, 0, false, strays - 1, true, buffer)
  {
    n := Begin(c, strays, buffer);
    n := Go(c, strays, n, Driver);
    n := Go(c, strays, n, Driver);
    n := Go(c, strays, n, Stray);
    n := Go(c, strays, n, Driver);
  }

  /** The flash is right, but the first chunk is compared with what the buffer held before. */
  lemma RightFlashRejected(strays: nat) returns (c: Setup, n: State)
    requires strays > 0
    ensures WellCut(c) && c.image == c.flash && Reachable(c, strays, n) && n.pc == Rejected
  {
    c := Setup([[1]], [[1]]);
    n := StrayRead(c, strays, [0]);
    assert n.buffer[0] != c.image[0][0];
    n := Go(c, strays, n, Driver);
  }

  /** The last chunk is wrong in the flash and never compared: each chunk is compared with the answer
      to the read before, and the chunks of the image are alike. */
  lemma WrongFlashPassed(strays: nat) returns (c: Setup, n: State)
    requires strays > 0
    ensures WellCut(c) && c.image != c.flash && Reachable(c, strays, n) && n.pc == Passed
  {
    c := Setup([[1], [1]], [[1], [2]]);
    assert c.image[1] != c.flash[1];
    n := StrayRead(c, strays, [1]);
    n := Go(c, strays, n, Driver);
    n := Go(c, strays, n, Driver);
    n := Go(c, strays, n, Driver);
    n := Go(c, strays, n, Answer);
    n := Go(c, strays, n, Signal);
    n := Go(c, strays, n, Driver);
    n := Go(c, strays, n, Driver);
    n := Go(c, strays, n, Driver);
  }

  /** The answer to a read that was taken for finished comes during the next one; of another length than
      that one asks for, it leaves no trace, and the wait goes on. */
  lemma OtherLengthIgnored(c: Setup, strays: nat, buffer: seq<byte>) returns (n: State)
    requires WellCut(c) && strays > 0 && |c.image| > 1 && |c.image[0]| != |c.image[1]| && Shows(buffer, c.image[0])
    ensures Reachable(c, strays, n) && n == State(Wait, 1, 2, 1, false, strays - 1, false, buffer)
  {
    n := StrayRead(c, strays, buffer);
    n := Go(c, strays, n, Driver);
    n := Go(c, strays, n, Driver);
    n := Go(c, strays, n, Driver);
    n := Go(c, strays, n, Answer);
  }

  /** The verdict of the read-back is right on every flash, for every image and in every run, if and
      only if no write confirm is outstanding when it begins. */
  lemma VerdictRightExactlyWhen(strays: nat)
    ensures (forall c, s :: WellCut(c) && Reachable(c, strays, s) ==> VerdictRight(c, s)) <==> strays == 0
  {
    if strays == 0 {
      forall c, s | WellCut(c) && Reachable(c, strays, s) ensures VerdictRight(c, s) {
        var init, acts :| Initial(strays, init) && Runs(c, init, acts) && After(c, init, acts) == s;
        RunKeeps(c, init, acts);
      }
    } else {
      var c, n := WrongFlashPassed(strays);
      assert !VerdictRight(c, n);
    }
  }

  /** ... and otherwise both kinds of wrong verdict occur. */
  lemma BothWrongVerdictsOccur(strays: nat)
    requires strays > 0
    ensures exists c, s :: WellCut(c) && Reachable(c, strays, s) && s.pc == Passed && c.image != c.flash
    ensures exists c, s :: WellCut(c) && Reachable(c, strays, s) && s.pc == Rejected && c.image == c.flash
  {
    var c, n := WrongFlashPassed(strays);
    var d, m := RightFlashRejected(strays);
  }
}
