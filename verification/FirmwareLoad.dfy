/** The loader code itself: the goto machine of load_fw_thru_sbl and the double-buffered upgrade it may
    fall into, proved against the functions of `FirmwareRun`. */
module FirmwareLoad {
  import opened Basics
  import opened Bytes
  import opened FirmwareRun
  import opened FlashImage
  import opened MasterWrite

  const PING_BUFFER_ADDRESS: nat := 0x19000
  const PONG_BUFFER_ADDRESS: nat := 0x1a000

  function BufferAddress(b: Buffer): nat { if b == Ping then PING_BUFFER_ADDRESS else PONG_BUFFER_ADDRESS }

  /** Writing one buffer leaves the other alone. */
  lemma NoSpill(ram: seq<byte>, b: Buffer, data: seq<byte>)
    requires |ram| >= PONG_BUFFER_ADDRESS + CHUNK && |data| <= CHUNK
    ensures var o := BufferAddress(Other(b));
      Overlay(ram, BufferAddress(b), data)[o..o + CHUNK] == ram[o..o + CHUNK]
  {
  }

  lemma NotThere(mem: seq<byte>, from: nat, data: seq<byte>, cur: nat, n: nat)
    requires cur + n <= |data| && 0 < n
    requires from + cur + n > |mem| || mem[from + cur..from + cur + n] != data[cur..cur + n]
    ensures !Holds(mem, from, data)
  {
    if from + |data| <= |mem| { SliceOfSlice(mem, from, from + |data|, cur, cur + n); }
  }

  /** The driver and what it has done in the current load.  `w` decides what fails: the card behind
      `device` takes what is written to it, and a chunk that `w` does not let through is cut short. */
  class Host {
    const mode: LoadMode
    const loader: bool
    const w: World
    const device: Device
    var flashCapacity: nat
    var trace: seq<Attempt>
    var deliveries: seq<Delivery>

    constructor (mode: LoadMode, loader: bool, w: World, device: Device)
      ensures this.mode == mode && this.loader == loader && this.w == w && this.device == device
    {
      this.mode, this.loader, this.w, this.device := mode, loader, w, device;
      flashCapacity, trace, deliveries := 0, [], [];
    }

    ghost predicate Valid()
      reads device
    {
      device.reliable && PONG_BUFFER_ADDRESS + CHUNK <= |device.ram| <= 0xFFFF_FFFF
    }

    function View(): Run
      reads this
    {
      Run(trace, deliveries)
    }

    /** bl_write_cmd, with the answer it leaves in `cmd_resp`. */
    method Send(cmd: Cmd, exp: byte) returns (ok: bool, answer: Option<byte>)
      modifies this`trace
      ensures View() == Sent(w, old(View()), cmd)
      ensures ok <==> Ok(View(), exp)
      ensures answer == (var out := Out(w, old(|trace|));
        if !NeedsNoAnswer(cmd) && out.Answered? then Some(out.resp) else None)
    {
      var out := Out(w, |trace|);
      trace := trace + [Attempt(cmd, out)];
      if out == NotWritten { return false, None; }
      if cmd == LoadHosted || cmd == JumpToZero { return true, None; }
      if out == Unanswered { return false, None; }
      answer := Some(out.resp);
      if !out.cleared { return false, answer; }
      ok := out.resp == exp;
    }

    /** ping_pong_write: place a chunk in a buffer, then announce it. */
    method PingPongWrite(b: Buffer, chunk: seq<byte>) returns (ok: bool)
      requires Valid() && 0 < |chunk| <= CHUNK && b == BufferOf(|deliveries|)
      modifies this`trace, this`deliveries, device
      ensures Valid() && |device.ram| == old(|device.ram|)
      ensures (View(), ok) == Chunk(w, old(View()), chunk)
      ensures ok ==> device.ram == Overlay(old(device.ram), BufferAddress(b), chunk)
    {
      var cmdAddr, cmdResp, cmdReq := PONG_BUFFER_ADDRESS, PING_AVAIL, PongValid;
      if b == Ping {
        cmdAddr, cmdResp, cmdReq := PING_BUFFER_ADDRESS, PONG_AVAIL, PingValid;
      }
      if !RamOk(w, |deliveries|) {
        var part: nat := *;
        var _ := device.Load(cmdAddr, chunk[..Min(part, |chunk|)]);
        return false;
      }
      var _ := device.Load(cmdAddr, chunk);
      var answer;
      ok, answer := Send(cmdReq, cmdResp);
      if !ok { return; }
      deliveries := deliveries + [Delivery(b, chunk, answer.value)];
    }

    /** The checks of auto_fw_upgrade on size and flash start address. */
    method UpgradeAllowed(image: seq<byte>) returns (ok: bool)
      requires flashCapacity == w.capacity
      ensures ok <==> UpgradeAdmitted(Setup(mode, loader, image, w))
      ensures ok <==> MayBurn(Setup(mode, loader, image, w))
    {
      AdmittedExactlyWhen(Setup(mode, loader, image, w));
      if |image| > MAX_FILE { return false; }
      var start := StartOr(image, w.wild);
      ok := CheckStart(start, |image|);
    }

    method CheckStart(start: nat, size: nat) returns (ok: bool)
      ensures ok <==> StartAllowed(start, size, loader, flashCapacity)
    {
      if loader {
        if start < SECTOR { return false; }
      } else if start < FW_IMAGE_MIN_ADDRESS {
        return false;
      }
      if start % SECTOR != 0 { return false; }
      return (start + size) % WRAP32 <= flashCapacity;
    }

    /** The chunk loop: whole chunks, then what is left over. */
    method SendChunks(image: seq<byte>) returns (ok: bool)
      requires Valid() && deliveries == []
      modifies this`trace, this`deliveries, device
      ensures Valid() && |device.ram| == old(|device.ram|)
      ensures (View(), ok) == Chunks(w, old(View()), image)
    {
      var off, kk, chunks := 0, 0, |image| / CHUNK;
      ghost var goal := Chunks(w, View(), image);
      assert image[0..] == image && |image| == chunks * CHUNK + |image| % CHUNK;
      while kk <= chunks
        invariant 0 <= kk <= chunks + 1 && off == if kk <= chunks then kk * CHUNK else |image|
        invariant Valid() && |device.ram| == old(|device.ram|) && (kk <= chunks ==> |deliveries| == kk)
        invariant off <= |image| && Chunks(w, View(), image[off..]) == goal
      {
        var size := if kk != chunks then CHUNK else |image| % CHUNK;
        if size == 0 { break; }
        assert size == Min(CHUNK, |image| - off) && off < |image|;
        ok := SendChunk(image, off, size, kk, goal);
        if !ok { return; }
        off, kk := off + size, kk + 1;
      }
      ok := true;
      assert image[off..] == [];
    }

    /** The body of the chunk loop. */
    method SendChunk(image: seq<byte>, off: nat, size: nat, kk: nat, ghost goal: (Run, bool)) returns (ok: bool)
      requires Valid() && off < |image| && size == Min(CHUNK, |image| - off) && |deliveries| == kk
      requires Chunks(w, View(), image[off..]) == goal
      modifies this`trace, this`deliveries, device
      ensures Valid() && |device.ram| == old(|device.ram|)
      ensures ok ==> Chunks(w, View(), image[off + size..]) == goal && |deliveries| == kk + 1
      ensures !ok ==> (View(), false) == goal
    {
      ghost var rest := image[off..];
      assert rest[..size] == image[off..off + size] && rest[size..] == image[off + size..];
      ok := PingPongWrite(if kk % 2 == 1 then Ping else Pong, image[off..off + size]);
    }

    /** auto_fw_upgrade */
    method AutoFwUpgrade(image: seq<byte>) returns (ok: bool)
      requires Valid() && deliveries == [] && flashCapacity == w.capacity
      modifies this`trace, this`deliveries, device
      ensures Valid() && |device.ram| == old(|device.ram|)
      ensures (View(), ok) == Upgraded(Setup(mode, loader, image, w), old(View()))
    {
      ok := UpgradeAllowed(image);
      if !ok { return; }
      ok := SendChunks(image);
      if !ok { return; }
      var answer;
      ok, answer := Send(EofReached, FW_LOADING_SUCCESSFUL);
    }

    /** Burning: the command, then the upgrade. */
    method Burn(cmd: Cmd, image: seq<byte>) returns (sent: bool, ok: bool)
      requires Valid() && deliveries == [] && flashCapacity == w.capacity && !NeedsNoAnswer(cmd)
      modifies this`trace, this`deliveries, device
      ensures Valid() && |device.ram| == old(|device.ram|)
      ensures var q := Sent(w, old(View()), cmd);
        && (sent <==> Ok(q, SEND_RPS_FILE) && (cmd == BurnLoader ==> w.loaderFile)) && (!sent ==> View() == q)
        && (sent ==> (View(), ok) == Upgraded(Setup(mode, loader, image, w), q))
    {
      var answer;
      sent, answer := Send(cmd, SEND_RPS_FILE);
      ok := false;
      if cmd == BurnLoader && !w.loaderFile { sent := false; }
      if sent { ok := AutoFwUpgrade(image); }
    }

    /** verify_flash_content in master read mode: chunk by chunk. */
    method SameAs(data: seq<byte>, from: nat) returns (ok: bool)
      requires w.readsOk
      ensures ok <==> Holds(w.after, from, data) || data == []
    {
      var cur := 0;
      while cur < |data|
        invariant 0 <= cur <= |data| && (cur > 0 ==> Holds(w.after, from, data[..cur]))
      {
        var n := Min(READ_CHUNK, |data| - cur);
        if from + cur + n > |w.after| || w.after[from + cur..from + cur + n] != data[cur..cur + n] {
          NotThere(w.after, from, data, cur, n);
          return false;
        }
        assert w.after[from..from + cur + n] == w.after[from..from + cur] + data[cur..cur + n] == data[..cur + n];
        cur := cur + n;
      }
      ok := true;
      assert data[..cur] == data;
    }

    /** After burning the loader: the calibration data as it was, and the loader file behind it. */
    method VerifyLoader(image: seq<byte>) returns (ok: bool)
      ensures ok <==> ReadsBack(Setup(mode, loader, image, w))
      ensures ok <==> w.readsOk && LoaderInPlace(Setup(mode, loader, image, w))
    {
      ReadsBackExactlyWhen(Setup(mode, loader, image, w));
      if !w.readsOk || |image| < BL_HEADER || |w.before| < CALIB_SIZE { return false; }
      ok := SameAs(w.before[..CALIB_SIZE], 0);
      assert |w.after| >= CALIB_SIZE ==> w.after[0..CALIB_SIZE] == w.after[..CALIB_SIZE];
      if !ok { return; }
      ok := SameAs(image[BL_HEADER..], CALIB_SIZE);
    }

    /** The code from one label to the next. */
    method GoOn(l: Label, image: seq<byte>) returns (next: Label)
      requires Valid() && l != Done && l != Failed && (Rank(l) >= 6 ==> deliveries == [])
      requires l != Start ==> flashCapacity == w.capacity
      modifies this, device
      ensures Valid() && |device.ram| == old(|device.ram|)
      ensures (next, View()) == Step(Setup(mode, loader, image, w), l, old(View()))
      ensures Rank(next) >= 6 ==> deliveries == []
      ensures next != Failed ==> flashCapacity == w.capacity
    {
      var ok, answer;
      match l {
        case Start => next := Dispatch(image);
        case RpsHeader => next := if w.headerOk then Crc else Failed;
        case Crc =>
          ok, answer := Send(CheckCrc, CMD_PASS);
          if !ok && answer == Some(CMD_FAIL) { return Upgrade; }
          next := PollingMode;
        case PollingMode =>
          ok, answer := Send(Polling, CMD_PASS);
          next := if !ok then Failed else if mode == FullFlash then LoadImage else LoadPmem;
        case LoadPmem => next := if w.pmemOk then Jump else Failed;
        case LoadImage =>
          ok, answer := Send(LoadHosted, LOADING_INITIATED);
          next := if ok then Done else Failed;
        case Jump =>
          ok, answer := Send(JumpToZero, CMD_PASS);
          next := if ok then Done else Failed;
        case Upgrade =>
          var sent;
          sent, ok := Burn(BurnHosted, image);
          next := if !sent then Failed else if ok then LoadImage else AutoReadMode;
        case BurnBl =>
          if !w.calibOk { return Failed; }
          var sent;
          sent, ok := Burn(BurnLoader, image);
          next := if sent && ok then AutoReadMode else Failed;
        case AutoReadMode =>
          ok, answer := Send(AutoRead, CMD_PASS);
          if !ok || !loader { return Failed; }
          ok := VerifyLoader(image);
          next := if ok then Done else Failed;
      }
    }

    /** The top of load_fw_thru_sbl. */
    method Dispatch(image: seq<byte>) returns (next: Label)
      modifies this`trace, this`flashCapacity
      ensures (next, View()) == Step(Setup(mode, loader, image, w), Start, old(View()))
      ensures next != Failed ==> flashCapacity == w.capacity
    {
      var ok, answer := Send(AutoRead, CMD_PASS);
      if !ok { return Failed; }
      flashCapacity := w.capacity;
      if flashCapacity == 0 { return Failed; }
      if loader { return BurnBl; }
      if mode == FullFlash || mode == FlashRam { return RpsHeader; }
      if mode == FullRam { return PollingMode; }
      next := Failed;
    }

    /** load_fw_thru_sbl */
    method LoadThroughLoader(image: seq<byte>) returns (ok: bool)
      requires Valid()
      modifies this, device
      ensures (View(), ok) == Load(Setup(mode, loader, image, w))
      ensures ok <==> Succeeds(Setup(mode, loader, image, w))
      ensures ok ==> Accomplished(Setup(mode, loader, image, w), View())
    {
      ghost var c := Setup(mode, loader, image, w);
      trace, deliveries := [], [];
      var l := Start;
      while l != Done && l != Failed
        invariant Valid() && (Rank(l) >= 6 ==> deliveries == [])
        invariant l != Start && l != Failed ==> flashCapacity == w.capacity
        invariant Finish(c, l, View()) == Load(c)
        decreases Rank(l)
      {
        l := GoOn(l, image);
      }
      ok := l == Done;
      LoadSucceedsExactlyWhen(c);
      if ok { LoadAccomplishes(c); }
    }
  }
}
