/** Loading firmware through the secondary boot loader as a function of what happens to each command
    and to the work between them: when it succeeds, and what it has sent by then. */
module FirmwareRun {
  import opened Basics
  import opened Bytes
  import opened FlashImage

  const CHUNK: nat := 4096
  const FW_IMAGE_MIN_ADDRESS: nat := 68 * 1024

  const CMD_PASS: byte := 0xAA
  const CMD_FAIL: byte := 0xCC
  const SEND_RPS_FILE: byte := 0x32
  const FW_LOADING_SUCCESSFUL: byte := 0x53
  const LOADING_INITIATED: byte := 0x31
  const PING_AVAIL: byte := 0x49
  const PONG_AVAIL: byte := 0x4F

  // ---- commands and their outcomes ----

  datatype Cmd =
    | AutoRead        // 'R'
    | CheckCrc        // 'K'
    | Polling         // 'P'
    | LoadHosted      // 'A'
    | JumpToZero      // 'J'
    | BurnHosted      // 'B'
    | BurnLoader      // '#'
    | PingValid       // 'I'
    | PongValid       // 'O'
    | EofReached      // 'E'

  /** What became of a command: REGIN was never written, no answer was read, or an answer was read
      and REGOUT was then invalidated or not. */
  datatype Outcome = NotWritten | Unanswered | Answered(resp: byte, cleared: bool)

  datatype Attempt = Attempt(cmd: Cmd, out: Outcome)

  predicate NeedsNoAnswer(cmd: Cmd) { cmd == LoadHosted || cmd == JumpToZero }

  /** bl_write_cmd returns success. */
  predicate Passed(a: Attempt, exp: byte) {
    a.out != NotWritten && (NeedsNoAnswer(a.cmd) || a.out == Answered(exp, true))
  }

  /** The low byte of the answer is CMD_FAIL, whether or not REGOUT could be invalidated. */
  predicate SawFail(out: Outcome) { out.Answered? && out.resp == CMD_FAIL }

  function Cmds(t: seq<Attempt>): (c: seq<Cmd>)
    ensures |c| == |t| && forall i :: 0 <= i < |t| ==> c[i] == t[i].cmd
  {
    seq(|t|, i requires 0 <= i < |t| => t[i].cmd)
  }

  // ---- the two buffers ----

  datatype Buffer = Ping | Pong

  function Other(b: Buffer): Buffer { if b == Ping then Pong else Ping }

  function ValidCmd(b: Buffer): Cmd { if b == Ping then PingValid else PongValid }

  /** The answer ping_pong_write expects after handing over a buffer. */
  function AwaitedAnswer(b: Buffer): byte { if b == Ping then PONG_AVAIL else PING_AVAIL }

  /** The buffer an answer announces as free. */
  function FreeBuffer(resp: byte): (r: Option<Buffer>)
    ensures r == None <==> resp != 0x49 && resp != 0x4F
  {
    if resp == PING_AVAIL then Some(Ping) else if resp == PONG_AVAIL then Some(Pong) else None
  }

  /** One chunk handed over: the buffer it lay in, its bytes, and the answer to its command. */
  datatype Delivery = Delivery(buffer: Buffer, bytes: seq<byte>, answer: byte)

  /** The buffer of chunk `k`: the first goes to PONG, then they alternate. */
  function BufferOf(k: nat): Buffer { if k % 2 == 1 then Ping else Pong }

  /** (O I)*[O]: the hand-over commands of `n` chunks. */
  function Handover(n: nat): (c: seq<Cmd>)
    ensures |c| == n
  {
    if n == 0 then [] else Handover(n - 1) + [ValidCmd(BufferOf(n - 1))]
  }

  function Joined(d: seq<Delivery>): seq<byte> {
    if d == [] then [] else Joined(d[..|d| - 1]) + d[|d| - 1].bytes
  }

  /** Chunks of at most 4096 bytes, alternating between the buffers, each after the first in the
      buffer the answer before it announced free; together they are the image. */
  predicate Delivers(d: seq<Delivery>, image: seq<byte>) {
    && Joined(d) == image
    && (forall i :: 0 <= i < |d| ==> 0 < |d[i].bytes| <= CHUNK && d[i].buffer == BufferOf(i))
    && (forall i :: 0 < i < |d| ==> FreeBuffer(d[i - 1].answer) == Some(d[i].buffer))
  }

  // ---- the environment ----

  /** `outs`: the outcomes of the commands in the order they are tried.  `ramOk`: which chunks can be
      placed in RAM.  `wild`: what lies where a short image's start address is read.  `before` and
      `after`: the flash when the load begins and when it is read back.  The flags are the outcomes of
      the work between the commands. */
  datatype World = World(
    outs: seq<Outcome>, ramOk: seq<bool>, capacity: Capacity, wild: Address, before: seq<byte>, after: seq<byte>,
    headerOk: bool, pmemOk: bool, calibOk: bool, loaderFile: bool, readsOk: bool)

  function Out(w: World, n: nat): Outcome { if n < |w.outs| then w.outs[n] else NotWritten }

  predicate RamOk(w: World, k: nat) { k < |w.ramOk| && w.ramOk[k] }

  datatype LoadMode = FullFlash | FullRam | FlashRam | NoLoader

  predicate FlashMode(mode: LoadMode) { mode == FullFlash || mode == FlashRam }

  /** `loader`: QSPI_FLASHING driver mode with SWBL_FLASHING_SBL, which burns the boot loader. */
  datatype Setup = Setup(mode: LoadMode, loader: bool, image: seq<byte>, w: World)

  datatype Run = Run(t: seq<Attempt>, d: seq<Delivery>)

  // ---- the upgrade ----

  function Sent(w: World, r: Run, cmd: Cmd): Run { r.(t := r.t + [Attempt(cmd, Out(w, |r.t|))]) }

  /** The command just tried was a success. */
  predicate Ok(r: Run, exp: byte) { r.t != [] && Passed(r.t[|r.t| - 1], exp) }

  /** ping_pong_write for the next chunk. */
  function Chunk(w: World, r: Run, bytes: seq<byte>): (Run, bool) {
    var b := BufferOf(|r.d|);
    var q := Sent(w, r, ValidCmd(b));
    if !RamOk(w, |r.d|) then (r, false)
    else if !Ok(q, AwaitedAnswer(b)) then (q, false)
    else (q.(d := q.d + [Delivery(b, bytes, q.t[|r.t|].out.resp)]), true)
  }

  /** The chunk loop of auto_fw_upgrade over what is left of the image. */
  function Chunks(w: World, r: Run, rest: seq<byte>): (Run, bool)
    decreases |rest|
  {
    if rest == [] then (r, true)
    else
      var n := Min(CHUNK, |rest|);
      var (q, ok) := Chunk(w, r, rest[..n]);
      if ok then Chunks(w, q, rest[n..]) else (q, false)
  }

  /** The tests of auto_fw_upgrade; the sum is a 32-bit one. */
  predicate StartAllowed(start: nat, size: nat, loader: bool, capacity: nat) {
    && start >= (if loader then SECTOR else FW_IMAGE_MIN_ADDRESS)
    && start % SECTOR == 0
    && (start + size) % WRAP32 <= capacity
  }

  predicate UpgradeAdmitted(c: Setup) {
    && |c.image| <= MAX_FILE
    && StartAllowed(StartOr(c.image, c.w.wild), |c.image|, c.loader, c.w.capacity)
  }

  /** auto_fw_upgrade */
  function Upgraded(c: Setup, r: Run): (Run, bool) {
    if !UpgradeAdmitted(c) then (r, false)
    else
      var (q, ok) := Chunks(c.w, r, c.image);
      if !ok then (q, false) else (Sent(c.w, q, EofReached), Ok(Sent(c.w, q, EofReached), FW_LOADING_SUCCESSFUL))
  }

  /** What the loader's read-back compares: the calibration data read before, and the loader behind it. */
  predicate ReadsBack(c: Setup) {
    c.w.readsOk && CalibKept(c.w) && |c.image| >= BL_HEADER && Holds(c.w.after, CALIB_SIZE, c.image[BL_HEADER..])
  }

  predicate CalibKept(w: World) {
    |w.before| >= CALIB_SIZE && |w.after| >= CALIB_SIZE && w.after[..CALIB_SIZE] == w.before[..CALIB_SIZE]
  }

  /** The first 4 KB of the flash are as they were, and behind them lies the loader without its header. */
  predicate LoaderInPlace(c: Setup) {
    var before, after, n := c.w.before, c.w.after, |c.image|;
    && n >= 32 && |before| >= 4096 && |after| >= 4096 + n - 32
    && (forall i :: 0 <= i < 4096 ==> after[i] == before[i])
    && forall i :: 32 <= i < n ==> after[4096 - 32 + i] == c.image[i]
  }

  lemma ReadsBackExactlyWhen(c: Setup)
    ensures ReadsBack(c) <==> c.w.readsOk && LoaderInPlace(c)
  {
    var before, after, n := c.w.before, c.w.after, |c.image|;
    if n >= 32 && |before| >= 4096 && |after| >= 4096 + n - 32 {
      SameHeads(after, before, 4096);
      HoldsAt(after, 4096, c.image, 32);
    }
  }

  lemma SameHeads(a: seq<byte>, b: seq<byte>, n: nat)
    requires n <= |a| && n <= |b|
    ensures a[..n] == b[..n] <==> forall i :: 0 <= i < n ==> a[i] == b[i]
  {
    if a[..n] == b[..n] {
      forall i | 0 <= i < n ensures a[i] == b[i] { assert a[..n][i] == b[..n][i]; }
    }
  }

  lemma HoldsAt(mem: seq<byte>, at: nat, data: seq<byte>, skip: nat)
    requires skip <= |data| && skip <= at && at + |data| - skip <= |mem|
    ensures Holds(mem, at, data[skip..]) <==> forall i :: skip <= i < |data| ==> mem[at - skip + i] == data[i]
  {
    var d := data[skip..];
    if Holds(mem, at, d) {
      forall i | skip <= i < |data| ensures mem[at - skip + i] == data[i] {
        assert mem[at..at + |d|][i - skip] == d[i - skip];
      }
    }
    if forall i :: skip <= i < |data| ==> mem[at - skip + i] == data[i] {
      forall k | 0 <= k < |d| ensures mem[at..at + |d|][k] == d[k] {
        assert mem[at - skip + (k + skip)] == data[k + skip];
      }
    }
  }

  // ---- the goto machine ----

  datatype Label = Start | RpsHeader | Crc | LoadImage | PollingMode | LoadPmem | Jump | Upgrade | BurnBl
                 | AutoReadMode | Done | Failed

  /** Every goto goes to a label of lower rank, so the machine stops. */
  function Rank(l: Label): nat {
    match l
    case Start => 9
    case BurnBl => 8 case RpsHeader => 8
    case Crc => 7
    case Upgrade => 6 case PollingMode => 6
    case LoadPmem => 5 case AutoReadMode => 5
    case LoadImage => 4 case Jump => 4
    case Done => 0 case Failed => 0
  }

  function When(ok: bool, l: Label): Label { if ok then l else Failed }

  function Entry(c: Setup): Label {
    if c.w.capacity == 0 then Failed else if c.loader then BurnBl
    else match c.mode
      case FullFlash => RpsHeader
      case FlashRam => RpsHeader
      case FullRam => PollingMode
      case NoLoader => Failed
  }

  /** The code between two labels. */
  function Step(c: Setup, l: Label, r: Run): (n: (Label, Run))
    requires l != Done && l != Failed
    ensures Rank(n.0) < Rank(l)
  {
    match l
    case Start => var q := Sent(c.w, r, AutoRead); (When(Ok(q, CMD_PASS), Entry(c)), q)
    case RpsHeader => (When(c.w.headerOk, Crc), r)
    case Crc => var q := Sent(c.w, r, CheckCrc); (if SawFail(Out(c.w, |r.t|)) then Upgrade else PollingMode, q)
    case PollingMode =>
      var q := Sent(c.w, r, Polling);
      (When(Ok(q, CMD_PASS), if c.mode == FullFlash then LoadImage else LoadPmem), q)
    case LoadPmem => (When(c.w.pmemOk, Jump), r)
    case LoadImage => var q := Sent(c.w, r, LoadHosted); (When(Ok(q, LOADING_INITIATED), Done), q)
    case Jump => var q := Sent(c.w, r, JumpToZero); (When(Ok(q, CMD_PASS), Done), q)
    case Upgrade =>
      var q := Sent(c.w, r, BurnHosted);
      if !Ok(q, SEND_RPS_FILE) then (Failed, q)
      else var (u, ok) := Upgraded(c, q); (if ok then LoadImage else AutoReadMode, u)
    case BurnBl =>
      var q := Sent(c.w, r, BurnLoader);
      if !c.w.calibOk then (Failed, r) else if !Ok(q, SEND_RPS_FILE) || !c.w.loaderFile then (Failed, q)
      else var (u, ok) := Upgraded(c, q); (When(ok, AutoReadMode), u)
    case AutoReadMode =>
      var q := Sent(c.w, r, AutoRead); (When(Ok(q, CMD_PASS) && c.loader && ReadsBack(c), Done), q)
  }

  function Finish(c: Setup, l: Label, r: Run): (Run, bool)
    decreases Rank(l)
  {
    if l == Done || l == Failed then (r, l == Done) else var (n, q) := Step(c, l, r); Finish(c, n, q)
  }

  /** load_fw_thru_sbl */
  function Load(c: Setup): (Run, bool) { Finish(c, Start, Run([], [])) }

  // ---- which images are let through ----

  /** At most 400 KB, for a sector boundary, not in the first 4 KB (the loader) or 68 KB (firmware), and
      inside the flash, or beyond 4 GB and inside it again after wrapping. */
  predicate MayBurn(c: Setup) {
    var start := StartOr(c.image, c.w.wild);
    var end := start + |c.image|;
    && |c.image| <= 400 * 1024
    && start % 4096 == 0 && start >= (if c.loader then 4096 else 68 * 1024)
    && (end <= c.w.capacity || 0x1_0000_0000 <= end <= 0x1_0000_0000 + c.w.capacity)
  }

  lemma AdmittedExactlyWhen(c: Setup)
    ensures UpgradeAdmitted(c) <==> MayBurn(c)
  {
    var n := |c.image|;
    if n <= MAX_FILE {
      var end := StartOr(c.image, c.w.wild) + n;
      assert end % WRAP32 == if end < WRAP32 then end else end - WRAP32;
    }
  }

  /** An image that fails any one of the tests is refused before a command is sent. */
  lemma RefusedUntouched(c: Setup, r: Run)
    requires !MayBurn(c)
    ensures Upgraded(c, r) == (r, false)
  {
    AdmittedExactlyWhen(c);
  }

  lemma {:induction false} DeliversOnlyAllowed(c: Setup, l: Label, r: Run)
    ensures Finish(c, l, r).0.d == r.d || MayBurn(c)
    decreases Rank(l)
  {
    if l != Done && l != Failed {
      AdmittedExactlyWhen(c);
      var (n, q) := Step(c, l, r);
      DeliversOnlyAllowed(c, n, q);
    }
  }

  /** Every load that hands over a chunk, whether or not it succeeds, has an image that passes them. */
  lemma BurnIsAllowed(c: Setup)
    ensures Load(c).0.d != [] ==> MayBurn(c)
  {
    DeliversOnlyAllowed(c, Start, Run([], []));
  }

  // ---- when the upgrade succeeds ----

  function Count(size: nat): nat { if size == 0 then 0 else 1 + Count(size - Min(CHUNK, size)) }

  /** Chunk `i` is placed, and its command, after `base` others and the chunks before, is answered as
      awaited. */
  predicate Taken(w: World, base: nat, i: nat) {
    i < |w.ramOk| && w.ramOk[i] && Out(w, base + i) == Answered(AwaitedAnswer(BufferOf(i)), true)
  }

  predicate AllTaken(w: World, base: nat, k: nat, n: nat) { forall i :: k <= i < k + n ==> Taken(w, base, i) }

  lemma AllTakenStep(w: World, base: nat, k: nat, n: nat)
    requires n > 0
    ensures AllTaken(w, base, k, n) <==> Taken(w, base, k) && AllTaken(w, base, k + 1, n - 1)
  {
  }

  /** One chunk: when it goes through, and what it adds. */
  lemma ChunkExactlyWhen(w: World, r: Run, bytes: seq<byte>)
    ensures var (q, ok) := Chunk(w, r, bytes); var b := BufferOf(|r.d|); var a := AwaitedAnswer(b);
      && (ok <==> RamOk(w, |r.d|) && Out(w, |r.t|) == Answered(a, true))
      && (ok ==> q == Run(r.t + [Attempt(ValidCmd(b), Answered(a, true))], r.d + [Delivery(b, bytes, a)]))
  {
  }

  /** The chunk loop succeeds exactly when every chunk is placed and answered as awaited. */
  lemma {:induction false} ChunksExactlyWhen(w: World, r: Run, rest: seq<byte>, base: nat)
    requires |r.t| == base + |r.d|
    ensures var (q, ok) := Chunks(w, r, rest);
      && (ok <==> AllTaken(w, base, |r.d|, Count(|rest|)))
      && (ok ==> |q.t| == |r.t| + Count(|rest|))
    decreases |rest|
  {
    if rest != [] {
      var n := Min(CHUNK, |rest|);
      var (q, ok) := Chunk(w, r, rest[..n]);
      ChunkExactlyWhen(w, r, rest[..n]);
      AllTakenStep(w, base, |r.d|, Count(|rest|));
      if ok { ChunksExactlyWhen(w, q, rest[n..], base); }
    }
  }

  // ---- what the upgrade has done ----

  lemma JoinedSnoc(d: seq<Delivery>, e: Delivery)
    ensures Joined(d + [e]) == Joined(d) + e.bytes
  {
    assert (d + [e])[..|d|] == d;
  }

  /** Chunks handed over so far, with the awaited answers. */
  predicate Alternates(d: seq<Delivery>) {
    forall i :: 0 <= i < |d| ==>
      0 < |d[i].bytes| <= CHUNK && d[i].buffer == BufferOf(i) && d[i].answer == AwaitedAnswer(d[i].buffer)
  }

  /** The pairing of commands and answers in ping_pong_write: the awaited answer announces the buffer
      whose turn it is next. */
  lemma AwaitedIsNext(k: nat)
    ensures FreeBuffer(AwaitedAnswer(BufferOf(k))) == Some(BufferOf(k + 1))
  {
  }

  lemma AlternatesDelivers(d: seq<Delivery>)
    requires Alternates(d)
    ensures Delivers(d, Joined(d))
  {
    forall i | 0 < i < |d| ensures FreeBuffer(d[i - 1].answer) == Some(d[i].buffer) { AwaitedIsNext(i - 1); }
  }

  lemma AlternatesSnoc(d: seq<Delivery>, e: Delivery)
    requires Alternates(d) && 0 < |e.bytes| <= CHUNK && e.buffer == BufferOf(|d|) && e.answer == AwaitedAnswer(e.buffer)
    ensures Alternates(d + [e])
  {
  }

  lemma CmdsSnoc(t: seq<Attempt>, a: Attempt)
    ensures Cmds(t + [a]) == Cmds(t) + [a.cmd]
  {
  }

  /** All commands but CHECK_CRC were answered as expected. */
  predicate AllPassed(t: seq<Attempt>) {
    forall i :: 0 <= i < |t| ==> t[i].cmd == CheckCrc || Passed(t[i], Expected(t[i].cmd))
  }

  function Expected(cmd: Cmd): byte {
    match cmd
    case PingValid => PONG_AVAIL
    case PongValid => PING_AVAIL
    case EofReached => FW_LOADING_SUCCESSFUL
    case LoadHosted => LOADING_INITIATED
    case BurnHosted => SEND_RPS_FILE
    case BurnLoader => SEND_RPS_FILE
    case _ => CMD_PASS
  }

  /** All but `rest` delivered, and nothing but hand-over commands sent for it after `head`. */
  predicate Carried(r: Run, image: seq<byte>, rest: seq<byte>, head: seq<Cmd>) {
    Joined(r.d) + rest == image && Alternates(r.d) && AllPassed(r.t) && Cmds(r.t) == head + Handover(|r.d|)
  }

  lemma CarriedStep(r: Run, image: seq<byte>, rest: seq<byte>, n: nat, head: seq<Cmd>, q: Run)
    requires Carried(r, image, rest, head) && 0 < n <= CHUNK && n <= |rest|
    requires var b := BufferOf(|r.d|); var a := AwaitedAnswer(b);
      q == Run(r.t + [Attempt(ValidCmd(b), Answered(a, true))], r.d + [Delivery(b, rest[..n], a)])
    ensures Carried(q, image, rest[n..], head)
  {
    var k, e := |r.d|, q.d[|r.d|];
    JoinedSnoc(r.d, e);
    AlternatesSnoc(r.d, e);
    assert Joined(r.d) + rest[..n] + rest[n..] == Joined(r.d) + rest;
    CmdsSnoc(r.t, q.t[|r.t|]);
    assert head + Handover(k) + [ValidCmd(BufferOf(k))] == head + Handover(k + 1);
  }

  /** What the chunk loop has done by its end: whole image delivered, hand-over commands sent. */
  lemma {:induction false} ChunksDeliver(w: World, r: Run, image: seq<byte>, rest: seq<byte>, head: seq<Cmd>)
    requires Carried(r, image, rest, head) && Chunks(w, r, rest).1
    ensures Carried(Chunks(w, r, rest).0, image, [], head)
    decreases |rest|
  {
    if rest != [] {
      var n := Min(CHUNK, |rest|);
      var q := Chunk(w, r, rest[..n]).0;
      ChunkExactlyWhen(w, r, rest[..n]);
      CarriedStep(r, image, rest, n, head, q);
      ChunksDeliver(w, q, image, rest[n..], head);
    }
  }

  /** A command that went through after the whole image was carried over. */
  lemma CarriedEnds(r: Run, image: seq<byte>, head: seq<Cmd>, a: Attempt)
    requires Carried(r, image, [], head) && Passed(a, Expected(a.cmd))
    ensures var t := r.t + [a];
      Delivers(r.d, image) && AllPassed(t) && Cmds(t) == head + Handover(|r.d|) + [a.cmd]
  {
    assert Joined(r.d) + [] == Joined(r.d);
    AlternatesDelivers(r.d);
    CmdsSnoc(r.t, a);
  }

  lemma UpgradeDelivers(c: Setup, r: Run, head: seq<Cmd>)
    requires AllPassed(r.t) && Cmds(r.t) == head && r.d == [] && Upgraded(c, r).1
    ensures var q := Upgraded(c, r).0;
      Delivers(q.d, c.image) && AllPassed(q.t) && Cmds(q.t) == head + Handover(|q.d|) + [EofReached]
  {
    assert Joined(r.d) + c.image == c.image && head + Handover(|r.d|) == head;
    ChunksDeliver(c.w, r, c.image, c.image, head);
    var q := Chunks(c.w, r, c.image).0;
    CarriedEnds(q, c.image, head, Attempt(EofReached, Out(c.w, |q.t|)));
  }

  // ---- when the load succeeds ----

  /** The upgrade after `base` commands goes through. */
  predicate UpgradeTaken(c: Setup, base: nat) {
    var n := Count(|c.image|);
    UpgradeAdmitted(c) && AllTaken(c.w, base, 0, n) && Out(c.w, base + n) == Answered(FW_LOADING_SUCCESSFUL, true)
  }

  lemma UpgradeExactlyWhen(c: Setup, r: Run)
    requires r.d == []
    ensures var (q, ok) := Upgraded(c, r);
      (ok <==> UpgradeTaken(c, |r.t|)) && (ok ==> |q.t| == |r.t| + Count(|c.image|) + 1)
  {
    ChunksExactlyWhen(c.w, r, c.image, |r.t|);
  }

  /** The condition on the environment alone.  CHECK_CRC, the second command of the flash modes, has
      only one outcome that matters: an answer CMD_FAIL. */
  predicate Succeeds(c: Setup) {
    var n, pass := Count(|c.image|), Answered(CMD_PASS, true);
    && Out(c.w, 0) == pass && c.w.capacity > 0
    && if c.loader then
         && c.w.calibOk && Out(c.w, 1) == Answered(SEND_RPS_FILE, true) && c.w.loaderFile && UpgradeTaken(c, 2)
         && Out(c.w, 3 + n) == pass && ReadsBack(c)
       else match c.mode
         case NoLoader => false
         case FullRam => Out(c.w, 1) == pass && c.w.pmemOk && Out(c.w, 2) != NotWritten
         case _ =>
           && c.w.headerOk
           && if SawFail(Out(c.w, 1)) then
                Out(c.w, 2) == Answered(SEND_RPS_FILE, true) && UpgradeTaken(c, 3) && Out(c.w, 4 + n) != NotWritten
              else
                Out(c.w, 2) == pass && (c.mode == FlashRam ==> c.w.pmemOk) && Out(c.w, 3) != NotWritten
  }

  /** What a successful load has done: the five command sequences, and which one.  In the flash modes
      the image is burned exactly when CHECK_CRC was answered with CMD_FAIL. */
  predicate Accomplished(c: Setup, r: Run) {
    && AllPassed(r.t)
    && if c.loader then
         && Cmds(r.t) == [AutoRead, BurnLoader] + Handover(|r.d|) + [EofReached, AutoRead]
         && MayBurn(c) && Delivers(r.d, c.image) && LoaderInPlace(c)
       else match c.mode
         case NoLoader => false
         case FullRam => Cmds(r.t) == [AutoRead, Polling, JumpToZero] && r.d == []
         case _ =>
           && |r.t| >= 4
           && if SawFail(r.t[1].out) then
                && Cmds(r.t) == [AutoRead, CheckCrc, BurnHosted] + Handover(|r.d|) + [EofReached, LoadHosted]
                && MayBurn(c) && Delivers(r.d, c.image)
              else
                && Cmds(r.t) == [AutoRead, CheckCrc, Polling, if c.mode == FullFlash then LoadHosted else JumpToZero]
                && r.d == []
  }

  // The ends of the machine, last label first.

  lemma LastCommand(c: Setup, l: Label, r: Run)
    requires l == LoadImage || l == Jump
    ensures Finish(c, l, r) ==
      (Sent(c.w, r, if l == LoadImage then LoadHosted else JumpToZero), Out(c.w, |r.t|) != NotWritten)
  {
  }

  lemma FromPmem(c: Setup, r: Run)
    ensures Finish(c, LoadPmem, r).1 <==> c.w.pmemOk && Out(c.w, |r.t|) != NotWritten
    ensures c.w.pmemOk ==> Finish(c, LoadPmem, r).0 == Sent(c.w, r, JumpToZero)
  {
    LastCommand(c, Jump, r);
  }

  lemma FromPolling(c: Setup, r: Run)
    ensures var q := Sent(c.w, r, Polling); var flash := c.mode == FullFlash;
      && (Finish(c, PollingMode, r).1 <==>
        Out(c.w, |r.t|) == Answered(CMD_PASS, true) && (flash || c.w.pmemOk) && Out(c.w, |r.t| + 1) != NotWritten)
      && (Finish(c, PollingMode, r).1 ==>
        Finish(c, PollingMode, r).0 == Sent(c.w, q, if flash then LoadHosted else JumpToZero))
  {
    var q := Sent(c.w, r, Polling);
    if c.mode == FullFlash { LastCommand(c, LoadImage, q); } else { FromPmem(c, q); }
  }

  lemma FromAutoRead(c: Setup, r: Run)
    ensures Finish(c, AutoReadMode, r) ==
      (Sent(c.w, r, AutoRead), Out(c.w, |r.t|) == Answered(CMD_PASS, true) && c.loader && ReadsBack(c))
  {
  }

  lemma FromUpgrade(c: Setup, r: Run)
    requires !c.loader && r.d == []
    ensures var q := Sent(c.w, r, BurnHosted); var n := |r.t| + 1;
      && (Finish(c, Upgrade, r).1 <==>
        && Out(c.w, |r.t|) == Answered(SEND_RPS_FILE, true) && UpgradeTaken(c, n)
        && Out(c.w, n + Count(|c.image|) + 1) != NotWritten)
      && (Finish(c, Upgrade, r).1 ==>
        Upgraded(c, q).1 && Finish(c, Upgrade, r).0 == Sent(c.w, Upgraded(c, q).0, LoadHosted))
  {
    var q := Sent(c.w, r, BurnHosted);
    UpgradeExactlyWhen(c, q);
    var u := Upgraded(c, q).0;
    LastCommand(c, LoadImage, u);
    FromAutoRead(c, u);
  }

  lemma BurnLoaderStep(c: Setup, r: Run)
    ensures var q := Sent(c.w, r, BurnLoader);
      if c.w.calibOk && Out(c.w, |r.t|) == Answered(SEND_RPS_FILE, true) && c.w.loaderFile
      then Finish(c, BurnBl, r) == Finish(c, When(Upgraded(c, q).1, AutoReadMode), Upgraded(c, q).0)
      else !Finish(c, BurnBl, r).1
  {
  }

  lemma FromBurnLoader(c: Setup, r: Run)
    requires c.loader && r.d == []
    ensures var q := Sent(c.w, r, BurnLoader); var n := |r.t| + 1;
      && (Finish(c, BurnBl, r).1 <==>
        && c.w.calibOk && Out(c.w, |r.t|) == Answered(SEND_RPS_FILE, true) && c.w.loaderFile && UpgradeTaken(c, n)
        && Out(c.w, n + Count(|c.image|) + 1) == Answered(CMD_PASS, true) && ReadsBack(c))
      && (Finish(c, BurnBl, r).1 ==>
        Upgraded(c, q).1 && Finish(c, BurnBl, r).0 == Sent(c.w, Upgraded(c, q).0, AutoRead))
  {
    var q := Sent(c.w, r, BurnLoader);
    BurnLoaderStep(c, r);
    UpgradeExactlyWhen(c, q);
    FromAutoRead(c, Upgraded(c, q).0);
  }

  lemma FromCrc(c: Setup, r: Run)
    ensures Finish(c, RpsHeader, r).1 ==> c.w.headerOk
    ensures var next := if SawFail(Out(c.w, |r.t|)) then Upgrade else PollingMode;
      c.w.headerOk ==> Finish(c, RpsHeader, r) == Finish(c, next, Sent(c.w, r, CheckCrc))
  {
    assert Finish(c, Crc, r) ==
      Finish(c, if SawFail(Out(c.w, |r.t|)) then Upgrade else PollingMode, Sent(c.w, r, CheckCrc));
  }

  function First(c: Setup): Run { Sent(c.w, Run([], []), AutoRead) }

  lemma FromStart(c: Setup)
    ensures Load(c).1 ==> Out(c.w, 0) == Answered(CMD_PASS, true) && c.w.capacity > 0
    ensures Out(c.w, 0) == Answered(CMD_PASS, true) ==> Load(c) == Finish(c, Entry(c), First(c))
  {
  }

  lemma LoaderSucceedsExactlyWhen(c: Setup)
    requires c.loader
    ensures Load(c).1 <==> Succeeds(c)
  {
    FromStart(c);
    FromBurnLoader(c, First(c));
  }

  lemma RamSucceedsExactlyWhen(c: Setup)
    requires !c.loader && !FlashMode(c.mode)
    ensures Load(c).1 <==> Succeeds(c)
  {
    FromStart(c);
    FromPolling(c, First(c));
  }

  lemma FlashSucceedsExactlyWhen(c: Setup)
    requires !c.loader && FlashMode(c.mode)
    ensures Load(c).1 <==> Succeeds(c)
  {
    FromStart(c);
    var r := First(c);
    FromCrc(c, r);
    var k := Sent(c.w, r, CheckCrc);
    if SawFail(Out(c.w, 1)) { FromUpgrade(c, k); } else { FromPolling(c, k); }
  }

  /** The whole machine succeeds exactly in these environments. */
  lemma LoadSucceedsExactlyWhen(c: Setup)
    ensures Load(c).1 <==> Succeeds(c)
  {
    if c.loader {
      LoaderSucceedsExactlyWhen(c);
    } else if FlashMode(c.mode) {
      FlashSucceedsExactlyWhen(c);
    } else {
      RamSucceedsExactlyWhen(c);
    }
  }

  /** A first part that went well. */
  lemma Opening(t: seq<Attempt>, a: Attempt)
    requires AllPassed(t) && (a.cmd == CheckCrc || Passed(a, Expected(a.cmd)))
    ensures AllPassed(t + [a]) && Cmds(t + [a]) == Cmds(t) + [a.cmd]
  {
  }

  lemma BurnAccomplishes(c: Setup, r: Run, q: Run, last: Cmd, head: seq<Cmd>)
    requires AllPassed(r.t) && Cmds(r.t) == head && r.d == [] && Upgraded(c, r).1
    requires q == Sent(c.w, Upgraded(c, r).0, last) && Ok(q, Expected(last))
    ensures AllPassed(q.t) && Cmds(q.t) == head + Handover(|q.d|) + [EofReached, last] && Delivers(q.d, c.image)
    ensures q.t[..|r.t|] == r.t
  {
    UpgradeDelivers(c, r, head);
    UpgradeExtends(c, r);
    var u := Upgraded(c, r).0;
    Opening(u.t, q.t[|u.t|]);
    assert head + Handover(|q.d|) + [EofReached] + [last] == head + Handover(|q.d|) + [EofReached, last];
    assert q.t[..|r.t|] == u.t[..|r.t|];
  }

  lemma {:induction false} ChunksExtend(w: World, r: Run, rest: seq<byte>)
    ensures var q := Chunks(w, r, rest).0; |r.t| <= |q.t| && q.t[..|r.t|] == r.t
    decreases |rest|
  {
    if rest != [] {
      var n := Min(CHUNK, |rest|);
      var (q, ok) := Chunk(w, r, rest[..n]);
      if ok {
        ChunksExtend(w, q, rest[n..]);
        var s := Chunks(w, q, rest[n..]).0;
        assert s.t[..|r.t|] == s.t[..|q.t|][..|r.t|] == r.t;
      }
    }
  }

  lemma UpgradeExtends(c: Setup, r: Run)
    ensures var q := Upgraded(c, r).0; |r.t| <= |q.t| && q.t[..|r.t|] == r.t
  {
    ChunksExtend(c.w, r, c.image);
  }

  lemma TwoSent(w: World, r: Run, a: Cmd, b: Cmd)
    requires AllPassed(r.t) && (a == CheckCrc || Passed(Attempt(a, Out(w, |r.t|)), Expected(a)))
    requires Passed(Attempt(b, Out(w, |r.t| + 1)), Expected(b))
    ensures var q := Sent(w, Sent(w, r, a), b);
      AllPassed(q.t) && Cmds(q.t) == Cmds(r.t) + [a, b] && q.d == r.d && q.t[..|r.t|] == r.t
  {
    var q := Sent(w, r, a);
    Opening(r.t, q.t[|r.t|]);
    Opening(q.t, Sent(w, q, b).t[|q.t|]);
    assert Cmds(r.t) + [a] + [b] == Cmds(r.t) + [a, b];
  }

  lemma FirstPassed(c: Setup)
    requires Out(c.w, 0) == Answered(CMD_PASS, true)
    ensures AllPassed(First(c).t) && Cmds(First(c).t) == [AutoRead] && First(c).d == []
  {
    Opening([], Attempt(AutoRead, Out(c.w, 0)));
    assert [] + [Attempt(AutoRead, Out(c.w, 0))] == First(c).t && Cmds([]) + [AutoRead] == [AutoRead];
  }

  lemma LoaderAccomplishes(c: Setup)
    requires c.loader && Load(c).1
    ensures Accomplished(c, Load(c).0)
  {
    FromStart(c);
    FirstPassed(c);
    var r := First(c);
    FromBurnLoader(c, r);
    AdmittedExactlyWhen(c);
    ReadsBackExactlyWhen(c);
    var q := Sent(c.w, r, BurnLoader);
    Opening(r.t, q.t[|r.t|]);
    assert [AutoRead] + [BurnLoader] == [AutoRead, BurnLoader];
    BurnAccomplishes(c, q, Load(c).0, AutoRead, [AutoRead, BurnLoader]);
  }

  /** After CHECK_CRC, with a failure read. */
  lemma UpgradeAccomplishes(c: Setup, k: Run)
    requires !c.loader && AllPassed(k.t) && Cmds(k.t) == [AutoRead, CheckCrc] && k.d == [] && Finish(c, Upgrade, k).1
    ensures var r := Finish(c, Upgrade, k).0;
      && AllPassed(r.t) && Cmds(r.t) == [AutoRead, CheckCrc, BurnHosted] + Handover(|r.d|) + [EofReached, LoadHosted]
      && MayBurn(c) && Delivers(r.d, c.image) && r.t[1] == k.t[1]
  {
    FromUpgrade(c, k);
    AdmittedExactlyWhen(c);
    var q, r := Sent(c.w, k, BurnHosted), Finish(c, Upgrade, k).0;
    Opening(k.t, q.t[|k.t|]);
    assert [AutoRead, CheckCrc] + [BurnHosted] == [AutoRead, CheckCrc, BurnHosted];
    BurnAccomplishes(c, q, r, LoadHosted, [AutoRead, CheckCrc, BurnHosted]);
    assert r.t[1] == r.t[..|q.t|][1];
  }

  /** After CHECK_CRC, with anything else. */
  lemma PollingAccomplishes(c: Setup, k: Run)
    requires FlashMode(c.mode) && AllPassed(k.t) && Cmds(k.t) == [AutoRead, CheckCrc] && k.d == []
    requires Finish(c, PollingMode, k).1
    ensures var r := Finish(c, PollingMode, k).0;
      && AllPassed(r.t) && r.d == [] && r.t[1] == k.t[1]
      && Cmds(r.t) == [AutoRead, CheckCrc, Polling, if c.mode == FullFlash then LoadHosted else JumpToZero]
  {
    FromPolling(c, k);
    TwoSent(c.w, k, Polling, if c.mode == FullFlash then LoadHosted else JumpToZero);
  }

  lemma FlashAccomplishes(c: Setup)
    requires !c.loader && FlashMode(c.mode) && Load(c).1
    ensures Accomplished(c, Load(c).0)
  {
    FromStart(c);
    FirstPassed(c);
    var r := First(c);
    FromCrc(c, r);
    var k := Sent(c.w, r, CheckCrc);
    Opening(r.t, k.t[|r.t|]);
    assert [AutoRead] + [CheckCrc] == [AutoRead, CheckCrc];
    if SawFail(Out(c.w, 1)) { UpgradeAccomplishes(c, k); } else { PollingAccomplishes(c, k); }
  }

  /** Every successful load, in every environment, went through one of the five command sequences with
      every command but CHECK_CRC answered as expected. */
  lemma LoadAccomplishes(c: Setup)
    requires Load(c).1
    ensures Accomplished(c, Load(c).0)
  {
    if c.loader {
      LoaderAccomplishes(c);
    } else if FlashMode(c.mode) {
      FlashAccomplishes(c);
    } else {
      FromStart(c);
      FirstPassed(c);
      FromPolling(c, First(c));
      TwoSent(c.w, First(c), Polling, JumpToZero);
    }
  }

  // ---- what follows ----

  predicate Tried(t: seq<Attempt>, cmd: Cmd) { exists i :: 0 <= i < |t| && t[i].cmd == cmd }

  /** An answer CMD_FAIL to CHECK_CRC was read. */
  predicate CrcFailed(t: seq<Attempt>) { exists i :: 0 <= i < |t| && t[i].cmd == CheckCrc && SawFail(t[i].out) }

  lemma {:induction false} HandoverAt(n: nat, i: nat)
    requires i < n
    ensures Handover(n)[i] == ValidCmd(BufferOf(i))
  {
    if i < n - 1 { HandoverAt(n - 1, i); }
  }

  /** The commands before the chunks, the hand-over commands, and the two commands after them. */
  lemma BurnTraceAt(t: seq<Attempt>, head: seq<Cmd>, n: nat, last: Cmd, i: nat)
    requires Cmds(t) == head + Handover(n) + [EofReached, last] && i < |t|
    ensures if i < |head| then t[i].cmd == head[i]
      else if i < |head| + n then t[i].cmd == PingValid || t[i].cmd == PongValid
      else if i == |head| + n then t[i].cmd == EofReached else t[i].cmd == last
  {
    assert t[i].cmd == Cmds(t)[i];
    if |head| <= i < |head| + n { HandoverAt(n, i - |head|); }
  }

  /** A successful load of hosted firmware burns the image exactly when it has read an answer CMD_FAIL
      to CHECK_CRC; then it has delivered all of it. */
  lemma BurnsExactlyWhen(c: Setup)
    requires Load(c).1 && !c.loader
    ensures Tried(Load(c).0.t, BurnHosted) <==> CrcFailed(Load(c).0.t)
    ensures CrcFailed(Load(c).0.t) ==> Delivers(Load(c).0.d, c.image)
  {
    LoadAccomplishes(c);
    var r := Load(c).0;
    if FlashMode(c.mode) {
      CrcIsSecond(c);
      SecondOutcome(c);
      if SawFail(r.t[1].out) {
        assert Cmds(r.t)[2] == BurnHosted;
        assert Tried(r.t, BurnHosted);
      } else {
        NotTried(r.t, BurnHosted);
      }
    } else {
      NotTried(r.t, BurnHosted);
      NotTried(r.t, CheckCrc);
    }
  }

  lemma NotTried(t: seq<Attempt>, cmd: Cmd)
    requires cmd !in Cmds(t)
    ensures !Tried(t, cmd)
  {
    forall i | 0 <= i < |t| ensures t[i].cmd != cmd { assert Cmds(t)[i] in Cmds(t); }
  }

  /** In a successful load the unanswered commands come last. */
  lemma UnansweredComesLast(c: Setup, i: nat)
    requires Load(c).1 && i < |Load(c).0.t| - 1
    ensures !NeedsNoAnswer(Load(c).0.t[i].cmd)
  {
    LoadAccomplishes(c);
    var r := Load(c).0;
    assert r.t[i].cmd == Cmds(r.t)[i];
    if c.loader {
      BurnTraceAt(r.t, [AutoRead, BurnLoader], |r.d|, AutoRead, i);
    } else if FlashMode(c.mode) && SawFail(r.t[1].out) {
      BurnTraceAt(r.t, [AutoRead, CheckCrc, BurnHosted], |r.d|, LoadHosted, i);
    }
  }

  function WithCrcOutcome(c: Setup, o: Outcome): Setup
    requires |c.w.outs| >= 2
  {
    c.(w := c.w.(outs := c.w.outs[1 := o]))
  }

  /** Whatever else becomes of CHECK_CRC - not written, not answered, any other answer, REGOUT not
      cleared - makes no difference to whether the load succeeds. */
  lemma CrcOutcomeIsIgnored(c: Setup, o: Outcome)
    requires !c.loader && FlashMode(c.mode) && |c.w.outs| >= 2 && !SawFail(c.w.outs[1]) && !SawFail(o)
    ensures Load(WithCrcOutcome(c, o)).1 == Load(c).1
  {
    LoadSucceedsExactlyWhen(c);
    LoadSucceedsExactlyWhen(WithCrcOutcome(c, o));
  }

  // ---- every one of the five sequences occurs ----

  function Pass(resp: byte): Outcome { Answered(resp, true) }

  /** The answers to the hand-over commands of `n` chunks. */
  function HandoverAnswers(n: nat): seq<Outcome> { seq(n, i requires 0 <= i < n => Pass(AwaitedAnswer(BufferOf(i)))) }

  /** An image that some flash has room for. */
  predicate Burnable(image: seq<byte>, loader: bool) {
    && |image| <= MAX_FILE && (loader ==> |image| >= BL_HEADER)
    && (|image| >= START_AT + 4 ==>
      && StartOf(image) % SECTOR == 0 && StartOf(image) + |image| <= CAPACITY
      && StartOf(image) >= if loader then SECTOR else FW_IMAGE_MIN_ADDRESS)
  }

  function Blank(n: nat): (b: seq<byte>)
    ensures |b| == n
  {
    seq(n, _ => 0)
  }

  /** A card with the largest flash there is that lets everything through. */
  function Willing(outs: seq<Outcome>, image: seq<byte>): World {
    var behind := if |image| >= BL_HEADER then image[BL_HEADER..] else [];
    World(outs, seq(Count(|image|), _ => true), CAPACITY, SECTOR * 100, Blank(CALIB_SIZE), Blank(CALIB_SIZE) + behind,
          true, true, true, true, true)
  }

  lemma WillingReadsBack(c: Setup, outs: seq<Outcome>)
    requires |c.image| >= BL_HEADER && c.w == Willing(outs, c.image)
    ensures ReadsBack(c)
  {
    assert c.w.after[CALIB_SIZE..CALIB_SIZE + |c.image[BL_HEADER..]|] == c.image[BL_HEADER..];
    assert c.w.after[..CALIB_SIZE] == c.w.before[..CALIB_SIZE];
  }

  /** The outcomes of a burn: before the chunks, for the chunks, after them. */
  function BurnOuts(head: seq<Outcome>, n: nat, tail: seq<Outcome>): seq<Outcome> {
    head + HandoverAnswers(n) + tail
  }

  lemma BurnOutsAt(w: World, head: seq<Outcome>, n: nat, tail: seq<Outcome>)
    requires w.outs == BurnOuts(head, n, tail) && |w.ramOk| == n && forall i :: 0 <= i < n ==> w.ramOk[i]
    ensures AllTaken(w, |head|, 0, n)
    ensures forall i :: 0 <= i < |head| ==> Out(w, i) == head[i]
    ensures forall i :: 0 <= i < |tail| ==> Out(w, |head| + n + i) == tail[i]
  {
    forall i | 0 <= i < n ensures Taken(w, |head|, i) {
      assert w.outs[|head| + i] == HandoverAnswers(n)[i];
    }
  }

  lemma WillingAdmits(c: Setup, outs: seq<Outcome>)
    requires Burnable(c.image, c.loader) && c.w == Willing(outs, c.image)
    ensures UpgradeAdmitted(c)
  {
    var start := StartOr(c.image, c.w.wild);
    assert (start + |c.image|) % WRAP32 == start + |c.image|;
  }

  /** A loader burn that succeeds. */
  lemma LoaderOccurs(mode: LoadMode, image: seq<byte>) returns (c: Setup)
    requires Burnable(image, true)
    ensures c.mode == mode && c.loader && c.image == image && Load(c).1
  {
    var head, tail := [Pass(CMD_PASS), Pass(SEND_RPS_FILE)], [Pass(FW_LOADING_SUCCESSFUL), Pass(CMD_PASS)];
    var n := Count(|image|);
    c := Setup(mode, true, image, Willing(BurnOuts(head, n, tail), image));
    BurnOutsAt(c.w, head, n, tail);
    WillingAdmits(c, c.w.outs);
    WillingReadsBack(c, c.w.outs);
    assert Out(c.w, 0) == head[0] && Out(c.w, 1) == head[1];
    assert Out(c.w, 2 + n + 0) == tail[0] && Out(c.w, 2 + n + 1) == tail[1];
    LoaderSucceedsExactlyWhen(c);
  }

  /** A load after a CRC failure that succeeds. */
  lemma UpgradeOccurs(mode: LoadMode, image: seq<byte>) returns (c: Setup)
    requires FlashMode(mode) && Burnable(image, false)
    ensures c.mode == mode && !c.loader && c.image == image && Load(c).1 && CrcFailed(Load(c).0.t)
  {
    var head := [Pass(CMD_PASS), Pass(CMD_FAIL), Pass(SEND_RPS_FILE)];
    var tail := [Pass(FW_LOADING_SUCCESSFUL), Unanswered];
    var n := Count(|image|);
    c := Setup(mode, false, image, Willing(BurnOuts(head, n, tail), image));
    BurnOutsAt(c.w, head, n, tail);
    WillingAdmits(c, c.w.outs);
    assert Out(c.w, 0) == head[0] && Out(c.w, 1) == head[1] && Out(c.w, 2) == head[2];
    assert Out(c.w, 3 + n + 0) == tail[0] && Out(c.w, 3 + n + 1) == tail[1];
    FlashSucceedsExactlyWhen(c);
    CrcIsSecond(c);
  }

  /** Loads without a burn that succeed. */
  lemma PlainLoadOccurs(mode: LoadMode, image: seq<byte>) returns (c: Setup)
    requires mode != NoLoader
    ensures c.mode == mode && !c.loader && c.image == image && Load(c).1 && !CrcFailed(Load(c).0.t)
  {
    var outs := if mode == FullRam then [Pass(CMD_PASS), Pass(CMD_PASS), Unanswered]
      else [Pass(CMD_PASS), Pass(CMD_PASS), Pass(CMD_PASS), Unanswered];
    c := Setup(mode, false, image, Willing(outs, image));
    LoadSucceedsExactlyWhen(c);
    if FlashMode(mode) { CrcIsSecond(c); } else { RamNeverChecks(c); }
  }

  lemma RamNeverChecks(c: Setup)
    requires Load(c).1 && !c.loader && c.mode == FullRam
    ensures !CrcFailed(Load(c).0.t)
  {
    LoadAccomplishes(c);
    NotTried(Load(c).0.t, CheckCrc);
  }

  /** An environment in which a load with the given setup succeeds; in the flash modes `fails` chooses
      whether by way of a burn. */
  lemma EachSequenceOccurs(mode: LoadMode, loader: bool, image: seq<byte>, fails: bool) returns (w: World)
    requires (mode != NoLoader || loader) && Burnable(image, loader)
    ensures Load(Setup(mode, loader, image, w)).1
    ensures !loader && FlashMode(mode) ==> CrcFailed(Load(Setup(mode, loader, image, w)).0.t) == fails
  {
    var c;
    if loader {
      c := LoaderOccurs(mode, image);
    } else if FlashMode(mode) && fails {
      c := UpgradeOccurs(mode, image);
    } else {
      c := PlainLoadOccurs(mode, image);
    }
    w := c.w;
    assert c == Setup(mode, loader, image, w);
  }

  lemma CrcIsSecond(c: Setup)
    requires Load(c).1 && !c.loader && FlashMode(c.mode)
    ensures |Load(c).0.t| >= 4 && (CrcFailed(Load(c).0.t) <==> SawFail(Out(c.w, 1)))
  {
    SecondOutcome(c);
    LoadAccomplishes(c);
    var r := Load(c).0;
    assert Cmds(r.t)[1] == CheckCrc;
    forall i | 0 <= i < |r.t| && r.t[i].cmd == CheckCrc ensures i == 1 {
      assert r.t[i].cmd == Cmds(r.t)[i];
      if SawFail(r.t[1].out) {
        BurnTraceAt(r.t, [AutoRead, CheckCrc, BurnHosted], |r.d|, LoadHosted, i);
      }
    }
  }

  lemma SecondOutcome(c: Setup)
    requires Load(c).1 && !c.loader && FlashMode(c.mode)
    ensures |Load(c).0.t| >= 2 && Load(c).0.t[1].out == Out(c.w, 1)
  {
    FromStart(c);
    var r := First(c);
    FromCrc(c, r);
    var k := Sent(c.w, r, CheckCrc);
    if SawFail(Out(c.w, 1)) {
      FromUpgrade(c, k);
      var q := Sent(c.w, k, BurnHosted);
      UpgradeExtends(c, q);
      assert Load(c).0.t[1] == Upgraded(c, q).0.t[..|q.t|][1];
    } else {
      FromPolling(c, k);
    }
  }

  /** A load that succeeds although CHECK_CRC never reached the boot loader. */
  lemma UncheckedLoad(image: seq<byte>) returns (c: Setup)
    ensures c.mode == FullFlash && !c.loader && c.image == image && Load(c).1
    ensures var t := Load(c).0.t;
      Cmds(t) == [AutoRead, CheckCrc, Polling, LoadHosted] && t[1].out == NotWritten
  {
    var outs := [Pass(CMD_PASS), NotWritten, Pass(CMD_PASS), Unanswered];
    c := Setup(FullFlash, false, image, Willing(outs, image));
    LoadSucceedsExactlyWhen(c);
    LoadAccomplishes(c);
    SecondOutcome(c);
  }
}
