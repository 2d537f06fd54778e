/** Burning an image into the flash through a RAM staging area, replacing its calibration data, and
    reading it back: the manual flashing path. */
module FlashBurn {
  import opened Basics
  import opened Bytes
  import opened Checksum
  import opened FlashImage
  import opened MasterWrite
  import AutoBurn

  const FLASH_BLOCK: nat := 32 * 1024
  const STAGING: nat := 0x10000
  const CALIB_START: nat := 16
  const CRC_OFFSET: nat := 4092
  const MAGIC: byte := 0x5A
  const MAGIC_1: nat := 40
  const MAGIC_2: nat := 424
  const VERSION_AT: nat := 77
  const VERSION_6: byte := 6
  const MAX_ADDRESS: nat := 4 * 1024 * 1024

  // ---- flash as an array of sectors ----

  function Erased(n: nat): (s: seq<byte>)
    ensures |s| == n && forall i :: 0 <= i < n ==> s[i] == 0xFF
  {
    seq(n, _ => 0xFF)
  }

  /** What is left of the last sector after `n` bytes. */
  function Tail(n: nat): nat { (SECTOR - n % SECTOR) % SECTOR }

  predicate Room(flash: seq<byte>, at: nat, n: nat) { at % SECTOR == 0 && at + n + Tail(n) <= |flash| }

  /** Flash after `data` was burned at a sector boundary: the data, its last sector's rest erased,
      everything else as before. */
  function Burned(flash: seq<byte>, at: nat, data: seq<byte>): (r: seq<byte>)
    requires Room(flash, at, |data|)
    ensures |r| == |flash|
  {
    Overlay(flash, at, data + Erased(Tail(|data|)))
  }

  lemma TailShift(whole: nat, n: nat)
    requires whole % SECTOR == 0
    ensures Tail(whole + n) == Tail(n) && Tail(whole) == 0
  {
  }

  /** Burning whole sectors and then the rest is burning it all. */
  lemma BurnedTwice(flash: seq<byte>, at: nat, a: seq<byte>, b: seq<byte>)
    requires |a| % SECTOR == 0 && at % SECTOR == 0 && Room(flash, at + |a|, |b|)
    ensures Room(flash, at, |a|) && Room(flash, at, |a + b|)
    ensures Burned(Burned(flash, at, a), at + |a|, b) == Burned(flash, at, a + b)
  {
    var e := Erased(Tail(|b|));
    TailShift(|a|, |b|);
    assert |a + b| == |a| + |b|;
    assert a + Erased(0) == a;
    OverlayTwice(flash, at, a, b + e);
    assert a + (b + e) == (a + b) + e;
  }

  /** What a burn leaves where. */
  lemma BurnedReads(flash: seq<byte>, at: nat, data: seq<byte>)
    requires Room(flash, at, |data|)
    ensures var r := Burned(flash, at, data);
      && r[at..at + |data|] == data
      && r[..at] == flash[..at]
      && r[at + |data|..at + |data| + Tail(|data|)] == Erased(Tail(|data|))
      && r[at + |data| + Tail(|data|)..] == flash[at + |data| + Tail(|data|)..]
  {
  }

  // ---- calibration ----

  /** The tests read_calib_data applies: magic bytes, and from version 6 on the checksum. */
  predicate CalibValid(t: seq<byte>)
    requires |t| >= CALIB_SIZE
  {
    && t[MAGIC_1] == MAGIC && t[MAGIC_2] == MAGIC
    && (t[VERSION_AT] >= VERSION_6 ==>
      Complemented(Total(t[CALIB_START..CRC_OFFSET])) == Word(t, CRC_OFFSET / 4))
  }

  /** The image with its bytes 16 to 4095, as far as it has them, taken from the calibration data. */
  function Calibrated(image: seq<byte>, t: seq<byte>): (r: seq<byte>)
    requires |t| >= CALIB_SIZE
    ensures |r| == |image|
  {
    var n := Min(|image|, CALIB_SIZE);
    if n <= CALIB_START then image else Overlay(image, CALIB_START, t[CALIB_START..n])
  }

  lemma CalibratedAt(image: seq<byte>, t: seq<byte>, i: nat)
    requires |t| >= CALIB_SIZE && i < |image|
    ensures Calibrated(image, t)[i] == if 16 <= i < 4096 then t[i] else image[i]
  {
  }

  /** The flash begins with the file behind its first `skip` bytes, except that bytes 16 to 4095 come
      from `t`. */
  predicate Merged(flash: seq<byte>, file: seq<byte>, skip: nat, t: seq<byte>) {
    && |t| >= 4096 && skip <= |file| <= skip + |flash|
    && forall i :: 0 <= i < |file| - skip ==> flash[i] == if 16 <= i < 4096 then t[i] else file[i + skip]
  }

  lemma CalibratedMerges(flash: seq<byte>, file: seq<byte>, skip: nat, t: seq<byte>)
    requires |t| >= CALIB_SIZE && skip <= |file| && Holds(flash, 0, Calibrated(file[skip..], t))
    ensures Merged(flash, file, skip, t)
  {
    var image := file[skip..];
    forall i | 0 <= i < |image| ensures flash[i] == if 16 <= i < 4096 then t[i] else file[i + skip] {
      assert flash[i] == flash[0..|image|][i];
      CalibratedAt(image, t, i);
    }
  }

  lemma UpdateMerges(was: seq<byte>, flash: seq<byte>, file: seq<byte>, image: seq<byte>)
    requires |was| >= CALIB_SIZE && image == Calibrated(file, was) && Holds(flash, 0, image)
    ensures Merged(flash, file, 0, was)
  {
    assert file[0..] == file;
    CalibratedMerges(flash, file, 0, was);
  }

  // ---- what the firmware mode admits and checks ----

  /** Updating replaces the header field too: the address comes from the old flash, not from the file. */
  lemma UpdateStartsWhereFlashSays(file: seq<byte>, t: seq<byte>)
    requires |file| >= START_AT + 4 && |t| >= CALIB_SIZE
    ensures StartOf(Calibrated(file, t)) == StartOf(t)
  {
    var r := Calibrated(file, t);
    assert forall i :: START_AT <= i < START_AT + 4 ==> r[i] == t[i];
  }

  /** The tests on the start address; the sum is a 32-bit one. */
  predicate Admitted(start: nat, size: nat, capacity: nat) {
    && start > SECTOR && start % SECTOR == 0 && capacity > 0
    && (start + size) % WRAP32 <= capacity
  }

  /** Behind the first 4 KB, for a sector boundary, and inside a flash of known size, or beyond 4 GB and
      inside it again after wrapping. */
  lemma AdmittedExactlyWhen(start: nat, size: nat, capacity: nat)
    requires start < 0x1_0000_0000 && size <= 400 * 1024
    ensures Admitted(start, size, capacity) <==>
      && start > 4096 && start % 4096 == 0 && capacity > 0
      && (start + size <= capacity || 0x1_0000_0000 <= start + size <= 0x1_0000_0000 + capacity)
  {
    var end := start + size;
    assert end % WRAP32 == if end < WRAP32 then end else end - WRAP32;
  }

  /** The tests keep the file inside the flash exactly when the 32-bit sum does not wrap. */
  lemma AdmittedFitsExactlyWhen(start: nat, size: nat, capacity: nat)
    requires start < WRAP32 && size <= MAX_FILE && capacity <= CAPACITY
    requires Admitted(start, size, capacity)
    ensures start + size <= capacity <==> start + size < WRAP32
  {
    assert start + size < WRAP32 ==> (start + size) % WRAP32 == start + size;
  }

  /** A file that passes the tests and lies outside the flash altogether. */
  lemma WrappedStartIsAdmitted()
    ensures Admitted(0xFFFF_F000, SECTOR, CAPACITY) && !(0xFFFF_F000 + SECTOR <= CAPACITY)
  {
    var start, size := 0xFFFF_F000, SECTOR;
    assert start % SECTOR == 0 && (start + size) % WRAP32 == 0;
  }

  lemma BurnedAt(flash: seq<byte>, start: nat, file: seq<byte>, i: nat)
    requires Room(flash, start, |file|) && i < |file|
    ensures Burned(flash, start, file)[i] == if i < start then flash[i] else file[i - start]
  {
  }

  /** The firmware mode burns at `start` and verifies from 0: a faithful burn passes exactly when the
      file's first `start` bytes were already in place and the rest of it repeats with period `start`. */
  lemma FaithfulBurnPassesExactlyWhen(flash: seq<byte>, start: nat, file: seq<byte>)
    requires Room(flash, start, |file|)
    ensures Burned(flash, start, file)[..|file|] == file <==>
      && (forall i :: 0 <= i < |file| && i < start ==> flash[i] == file[i])
      && (forall i :: start <= i < |file| ==> file[i] == file[i - start])
  {
    var r := Burned(flash, start, file);
    forall i | 0 <= i < |file| ensures r[..|file|][i] == if i < start then flash[i] else file[i - start] {
      BurnedAt(flash, start, file, i);
    }
    if r[..|file|] == file {
      forall i | start <= i < |file| ensures file[i] == file[i - start] { assert r[..|file|][i] == file[i]; }
      forall i | 0 <= i < |file| && i < start ensures flash[i] == file[i] { assert r[..|file|][i] == file[i]; }
    }
  }

  /** `cur` bytes of `data` are burned into what was `f0`. */
  ghost predicate Progress(f0: seq<byte>, f: seq<byte>, at: nat, data: seq<byte>, cur: nat) {
    && cur <= |data| && |f| == |f0|
    && (if cur == 0 then f == f0 else Room(f0, at, cur) && f == Burned(f0, at, data[..cur]))
  }

  lemma RoomInside(flash: seq<byte>, at: nat, size: nat, cur: nat, n: nat)
    requires Room(flash, at, size) && cur % SECTOR == 0 && cur + n <= size
    requires n % SECTOR == 0 || cur + n == size
    ensures Room(flash, at + cur, n)
  {
    TailShift(cur, n);
    assert n % SECTOR == 0 ==> Tail(n) == 0;
  }

  lemma RoomUpTo(flash: seq<byte>, at: nat, n: nat)
    requires |flash| % SECTOR == 0 && at % SECTOR == 0 && at + n <= |flash|
    ensures Room(flash, at, n)
  {
  }

  lemma NothingBurned(flash: seq<byte>, at: nat)
    requires at % SECTOR == 0 && at <= |flash|
    ensures Room(flash, at, 0) && Burned(flash, at, []) == flash
  {
    assert [] + Erased(0) == [];
  }

  /** One more piece burned after whole sectors. */
  lemma BurnStep(f0: seq<byte>, f: seq<byte>, at: nat, data: seq<byte>, cur: nat, n: nat, piece: seq<byte>)
    requires 0 < n && cur + n <= |data| && cur % SECTOR == 0 && piece == data[cur..cur + n]
    requires Progress(f0, f, at, data, cur) && Room(f, at + cur, n)
    ensures Progress(f0, Burned(f, at + cur, piece), at, data, cur + n)
  {
    if cur == 0 {
      assert piece == data[..cur + n];
    } else {
      BurnedTwice(f0, at, data[..cur], piece);
      assert data[..cur] + piece == data[..cur + n];
    }
  }

  /** The acceptance tests of read_calib_data. */
  method CheckCalib(t: seq<byte>) returns (ok: bool)
    requires |t| >= CALIB_SIZE
    ensures ok <==> CalibValid(t)
  {
    if t[MAGIC_1] != MAGIC || t[MAGIC_2] != MAGIC { return false; }
    if t[VERSION_AT] >= VERSION_6 {
      var body := t[CALIB_START..CRC_OFFSET];
      var crc := Checksum32([Scatter(body, |body|)]);
      OneScatter(body);
      return crc == Word(t, CRC_OFFSET / 4);
    }
    return true;
  }

  lemma OneScatter(body: seq<byte>)
    requires |body| % 4 == 0
    ensures ScatterTotal([Scatter(body, |body|)]) == Total(body)
  {
    var ss := [Scatter(body, |body|)];
    assert ss[..0] == [] && body[..|body|] == body;
  }

  lemma OverlayReads(ram: seq<byte>, at: nat, data: seq<byte>)
    requires at + |data| <= |ram|
    ensures Overlay(ram, at, data)[at..at + |data|] == data
  {
  }

  /** A small file for address 8192 and an erased flash: the burn is right and the verdict is not. */
  lemma FaithfulBurnRejected()
    ensures var file, flash := SmallFile(), Erased(MAX_FILE);
      && Admitted(StartOf(file), |file|, |flash|) && Room(flash, StartOf(file), |file|)
      && Burned(flash, StartOf(file), file)[..|file|] != file
  {
    var file, flash := SmallFile(), Erased(MAX_FILE);
    assert StartOf(file) == 2 * SECTOR && |file| == 20;
    FaithfulBurnPassesExactlyWhen(flash, StartOf(file), file);
    assert flash[0] != file[0];
  }

  function SmallFile(): (f: seq<byte>)
    ensures |f| == 20
  {
    [0, 0, 0, 0, 0, 0, 0, 0, 0, 0, 0, 0, 0, 0, 0, 0, 0, 0x20, 0, 0]
  }

  // ---- the board ----

  datatype Mode = Firmware | FirmwareUpdate | BootloaderKeepingCalib | BootloaderCalibFile

  predicate Bootloader(mode: Mode) { mode == BootloaderKeepingCalib || mode == BootloaderCalibFile }

  function CalibSource(mode: Mode, flash: seq<byte>, calibFile: Option<seq<byte>>): Option<seq<byte>>
    requires |flash| >= CALIB_SIZE
  {
    if mode == BootloaderKeepingCalib then Some(flash[..CALIB_SIZE])
    else if calibFile.Some? && |calibFile.value| >= CALIB_SIZE then calibFile else None
  }

  /** The boot loader file behind its header, with the old flash's calibration data or the file's. */
  predicate LoaderMerged(mode: Mode, was: seq<byte>, calibFile: Option<seq<byte>>, flash: seq<byte>, file: seq<byte>) {
    if mode == BootloaderKeepingCalib then Merged(flash, file, 32, was)
    else calibFile.Some? && Merged(flash, file, 32, calibFile.value)
  }

  lemma SourceMerges(mode: Mode, was: seq<byte>, calibFile: Option<seq<byte>>, flash: seq<byte>, file: seq<byte>)
    requires |was| >= CALIB_SIZE && |file| >= BL_HEADER && CalibSource(mode, was, calibFile).Some?
    requires Holds(flash, 0, Calibrated(file[BL_HEADER..], CalibSource(mode, was, calibFile).value))
    ensures LoaderMerged(mode, was, calibFile, flash, file)
  {
    CalibratedMerges(flash, file, BL_HEADER, CalibSource(mode, was, calibFile).value);
  }

  predicate CalibOk(t: Option<seq<byte>>) {
    t.Some? && |t.value| >= CALIB_SIZE && CalibValid(t.value)
  }

  /** Words 4 to 1023 add up to all ones, and the checksum, the last of them, is itself all ones only if
      all the others are zero. */
  predicate Seals(t: seq<byte>)
    requires |t| >= 4096
  {
    Rep(Total(t[16..4096])) == 0xFFFF_FFFF && (Word(t, 1023) == 0xFFFF_FFFF ==> Total(t[16..4092]) == 0)
  }

  predicate Acceptable(t: seq<byte>) {
    |t| >= 4096 && t[40] == t[424] == 0x5A && (t[77] >= 6 ==> Seals(t))
  }

  lemma {:induction false} OnesExactlyWhen(n: nat, w: u32)
    ensures Complemented(n) == w <==> Rep(n + w) == ONES && (w == ONES ==> n == 0)
    decreases n
  {
    if n > ONES {
      OnesExactlyWhen(n - ONES, w);
      assert Rep(n + w) == Rep(n - ONES + w);
    }
  }

  lemma SealedExactlyWhen(t: seq<byte>)
    requires |t| >= CALIB_SIZE
    ensures Complemented(Total(t[CALIB_START..CRC_OFFSET])) == Word(t, CRC_OFFSET / 4) <==> Seals(t)
  {
    var body, crc := t[CALIB_START..CRC_OFFSET], t[CRC_OFFSET..CALIB_SIZE];
    assert t[16..4096] == body + crc;
    TotalSplit(body, crc);
    assert Word(crc, 0) == Word(t, CRC_OFFSET / 4);
    assert Total(crc) == Sum(crc, 0) + Word(crc, 0);
    OnesExactlyWhen(Total(body), Word(t, CRC_OFFSET / 4));
  }

  lemma ValidExactlyWhen(t: seq<byte>)
    requires |t| >= CALIB_SIZE
    ensures CalibValid(t) <==> Acceptable(t)
  {
    SealedExactlyWhen(t);
  }

  /** Which calibration data is accepted: the old flash's or the file's, with both magic bytes and, from
      version 6 on, words that add up to all ones. */
  lemma AcceptedExactlyWhen(mode: Mode, flash: seq<byte>, calibFile: Option<seq<byte>>)
    requires |flash| >= CALIB_SIZE
    ensures CalibOk(CalibSource(mode, flash, calibFile)) <==>
      if mode == BootloaderKeepingCalib then Acceptable(flash) else calibFile.Some? && Acceptable(calibFile.value)
  {
    if mode == BootloaderKeepingCalib {
      ValidExactlyWhen(flash[..CALIB_SIZE]);
      SameHead(flash);
    } else if calibFile.Some? && |calibFile.value| >= CALIB_SIZE {
      ValidExactlyWhen(calibFile.value);
    }
  }

  lemma SameHead(t: seq<byte>)
    requires |t| >= CALIB_SIZE
    ensures Acceptable(t[..CALIB_SIZE]) <==> Acceptable(t)
  {
    var h := t[..CALIB_SIZE];
    assert h[16..4096] == t[16..4096] && h[16..4092] == t[16..4092];
    assert Word(h, 1023) == Word(t, 1023);
  }

  predicate AutoAdmits(file: Option<seq<byte>>, wild: Address)
  {
    file.Some? && |file.value| <= MAX_FILE && Admitted(StartOr(file.value, wild), |file.value|, MAX_ADDRESS)
  }

  /** The automatic path takes the flash for 4 MB large. */
  lemma AutoAdmitsExactlyWhen(file: seq<byte>, wild: Address)
    ensures var start := StartOr(file, wild); var end := start + |file|;
      AutoAdmits(Some(file), wild) <==>
        && |file| <= 400 * 1024 && start > 4096 && start % 4096 == 0
        && (end <= 4 * 1024 * 1024 || 0x1_0000_0000 <= end <= 0x1_0000_0000 + 4 * 1024 * 1024)
  {
    if |file| <= 400 * 1024 { AdmittedExactlyWhen(StartOr(file, wild), |file|, MAX_ADDRESS); }
  }

  predicate HasRoom(file: seq<byte>, wild: Address, size: nat)
  {
    StartOr(file, wild) + |file| <= size
  }

  /** A file the automatic path takes and the flash has room for. */
  predicate Placeable(file: Option<seq<byte>>, wild: Address, size: nat)
  {
    AutoAdmits(file, wild) && HasRoom(file.value, wild, size)
  }

  function ChunkCount(n: nat): nat { (n + SECTOR - 1) / SECTOR }

  /** How far `k` chunks reach. */
  function Reach(k: nat, n: nat): nat { Min(k * SECTOR, n) }

  /** The write pipeline for a file has come to its end. */
  ghost predicate Ended(file: seq<byte>, counter: nat, atomic: bool, s: AutoBurn.State) {
    AutoBurn.Reachable(AutoBurn.Config(ChunkCount(|file|), counter, atomic), s) && (s.pc.Done? || s.pc.Failed?)
  }

  /** A pipeline that ends well with nothing outstanding has everything confirmed. */
  lemma EndedWell(file: seq<byte>, counter: nat, atomic: bool, s: AutoBurn.State)
    requires |file| <= MAX_FILE && counter < 256 && Ended(file, counter, atomic, s)
    ensures s.confirmed <= s.sent <= ChunkCount(|file|)
    ensures s.pc.Done? && AutoBurn.Settled(s) ==> s.confirmed == ChunkCount(|file|)
  {
    AutoBurn.ReachableInv(AutoBurn.Config(ChunkCount(|file|), counter, atomic), s);
  }

  /** All chunks burned is the file burned, and it reads back. */
  lemma AllBurned(f0: seq<byte>, f: seq<byte>, start: nat, image: seq<byte>)
    requires Room(f0, start, |image|) && Progress(f0, f, start, image, Reach(ChunkCount(|image|), |image|))
    ensures f == Burned(f0, start, image) && f[start..start + |image|] == image
  {
    assert Reach(ChunkCount(|image|), |image|) == |image|;
    assert image[..|image|] == image;
    if image == [] { NothingBurned(f0, start); }
    BurnedReads(f0, start, image);
  }

  method AnyBytes(n: nat) returns (b: seq<byte>)
    ensures |b| == n
  {
    b := *;
    if |b| != n { b := seq(n, _ => 0); }
  }

  /** The card as the flashing code sees it: RAM behind the bus and a flash behind the firmware.
      `settled`: no write confirm and no read answer is outstanding.  Only then is every read ended by
      its own answer; otherwise, as `ReadBack` shows, it may be any bytes that are looked at. */
  class Board {
    const dev: Device
    var flash: seq<byte>
    var settled: bool

    constructor (dev: Device, flash: seq<byte>)
      ensures this.dev == dev && this.flash == flash && settled
    {
      this.dev, this.flash, settled := dev, flash, true;
    }

    ghost predicate Valid()
      reads this, dev
    {
      && |flash| % SECTOR == 0 && MAX_FILE <= |flash| <= CAPACITY
      && STAGING + FLASH_BLOCK <= |dev.ram| <= 0xFFFF_FFFF
    }

    /** A write frame: the card erases the sector and programs it, or it does not finish and anything
        may be there. */
    method Program(at: nat, data: seq<byte>) returns (sent: bool)
      requires 0 < |data| <= SECTOR
      modifies this`flash
      ensures |flash| == old(|flash|) && (!sent ==> flash == old(flash))
      ensures dev.reliable ==> sent
      ensures dev.reliable && Room(flash, at, |data|) ==> flash == Burned(old(flash), at, data)
    {
      sent := dev.BusOk();
      if !sent { return; }
      var finished := dev.BusOk();
      var junk: seq<byte> := *;
      if finished && at % SECTOR == 0 && at + |data| + Tail(|data|) <= |flash| {
        flash := Burned(flash, at, data);
      } else if |junk| == |flash| {
        flash := junk;
      }
    }

    /** The wait for its confirm, whose timeout is ignored: the confirm may then still come. */
    method AwaitConfirm()
      modifies this`settled
      ensures settled ==> old(settled)
      ensures dev.reliable ==> settled == old(settled)
    {
      var inTime := dev.BusOk();
      settled := settled && inTime;
    }

    /** trigger_manual_flash_burn: the staged block, sector by sector.  A confirm that does not come
        in time is ignored. */
    method BurnBlock(size: nat, at: nat) returns (ok: bool)
      requires 0 < size <= FLASH_BLOCK && STAGING + size <= |dev.ram|
      modifies this`flash, this`settled
      ensures |flash| == old(|flash|) && (settled ==> old(settled))
      ensures dev.reliable ==> settled == old(settled)
      ensures dev.reliable ==> ok
      ensures dev.reliable && Room(flash, at, size) ==>
        flash == Burned(old(flash), at, dev.ram[STAGING..STAGING + size])
    {
      ghost var f0, data := flash, dev.ram[STAGING..STAGING + size];
      var cur := 0;
      while cur < size
        invariant 0 <= cur <= size && (cur % SECTOR == 0 || cur == size) && |flash| == |f0|
        invariant (settled ==> old(settled)) && (dev.reliable ==> settled == old(settled))
        invariant dev.reliable && Room(f0, at, size) ==> Progress(f0, flash, at, data, cur)
      {
        var chunk := if size - cur < SECTOR then size - cur else SECTOR;
        SliceOfSlice(dev.ram, STAGING, STAGING + size, cur, cur + chunk);
        ok := ProgramNext(dev.ram[STAGING + cur..STAGING + cur + chunk], at, cur, data, f0);
        if !ok { return; }
        AwaitConfirm();
        cur := cur + chunk;
      }
      ok := true;
      assert data[..cur] == data;
    }

    /** The body of both sector loops: `piece` is what comes at `cur` in `data`. */
    method ProgramNext(piece: seq<byte>, at: nat, cur: nat, ghost data: seq<byte>, ghost f0: seq<byte>)
      returns (ok: bool)
      requires 0 < |piece| <= SECTOR && cur % SECTOR == 0 && cur + |piece| <= |data|
      requires |piece| == SECTOR || cur + |piece| == |data|
      requires piece == data[cur..cur + |piece|]
      requires dev.reliable && Room(f0, at, |data|) ==> Progress(f0, flash, at, data, cur)
      modifies this`flash
      ensures |flash| == old(|flash|)
      ensures dev.reliable ==> ok
      ensures dev.reliable && Room(f0, at, |data|) ==> Progress(f0, flash, at, data, cur + |piece|)
    {
      ghost var was := flash;
      ok := Program(at + cur, piece);
      if dev.reliable && Room(f0, at, |data|) {
        RoomInside(f0, at, |data|, cur, |piece|);
        BurnStep(f0, was, at, data, cur, |piece|, piece);
      }
    }

    /** The block loop of manual_load_flash_content: stage up to 32 KB in RAM, burn it, go on.  The
        outcome of the burn itself is not looked at. */
    method BurnImage(image: seq<byte>, start: nat) returns (ok: bool)
      requires Valid()
      modifies this`flash, this`settled, dev
      ensures Valid() && |flash| == old(|flash|) && (settled ==> old(settled))
      ensures dev.reliable ==> ok && settled == old(settled)
      ensures dev.reliable && Room(flash, start, |image|) ==> flash == Burned(old(flash), start, image)
    {
      ghost var f0 := flash;
      var cur := 0;
      while cur < |image|
        invariant 0 <= cur <= |image| && (cur % SECTOR == 0 || cur == |image|)
        invariant Valid() && |flash| == |f0|
        invariant (settled ==> old(settled)) && (dev.reliable ==> settled == old(settled))
        invariant dev.reliable && Room(f0, start, |image|) ==> Progress(f0, flash, start, image, cur)
      {
        var n := if |image| - cur < FLASH_BLOCK then |image| - cur else FLASH_BLOCK;
        ok := BurnNextBlock(image, start, cur, n, f0);
        if !ok { return; }
        cur := cur + n;
      }
      ok := true;
      assert image[..cur] == image;
      if Room(f0, start, |image|) { NothingBurned(f0, start); }
    }

    /** The body of the block loop. */
    method BurnNextBlock(image: seq<byte>, start: nat, cur: nat, n: nat, ghost f0: seq<byte>) returns (ok: bool)
      requires Valid() && 0 < n <= FLASH_BLOCK && cur % SECTOR == 0 && cur + n <= |image|
      requires n == FLASH_BLOCK || cur + n == |image|
      requires dev.reliable && Room(f0, start, |image|) ==> Progress(f0, flash, start, image, cur)
      modifies this`flash, this`settled, dev
      ensures Valid() && |flash| == old(|flash|) && (settled ==> old(settled))
      ensures dev.reliable ==> ok && settled == old(settled)
      ensures dev.reliable && Room(f0, start, |image|) ==> Progress(f0, flash, start, image, cur + n)
    {
      ghost var was := flash;
      var piece := image[cur..cur + n];
      ok := StageAndBurn(piece, start + cur);
      if dev.reliable && Room(f0, start, |image|) {
        RoomInside(f0, start, |image|, cur, n);
        BurnStep(f0, was, start, image, cur, n, piece);
      }
    }

    /** One block: into RAM over the bus, then from RAM into the flash.  Only the bus can fail it. */
    method StageAndBurn(piece: seq<byte>, at: nat) returns (ok: bool)
      requires Valid() && 0 < |piece| <= FLASH_BLOCK
      modifies this`flash, this`settled, dev
      ensures Valid() && |flash| == old(|flash|) && (settled ==> old(settled))
      ensures dev.reliable ==> ok && settled == old(settled)
      ensures dev.reliable && Room(flash, at, |piece|) ==> flash == Burned(old(flash), at, piece)
    {
      ghost var ram := dev.ram;
      ok := dev.Load(STAGING, piece);
      if !ok { return; }
      OverlayReads(ram, STAGING, piece);
      var _ := BurnBlock(|piece|, at);
    }

    /** flash_read and the wait for its answer; here a timeout is a failure, and the answer may still
        come.  Outside the flash the card may return anything. */
    method FlashRead(at: nat, n: nat) returns (ok: bool, data: seq<byte>)
      modifies this`settled
      ensures settled ==> old(settled)
      ensures dev.reliable && old(settled) ==> ok && settled
      ensures |data| == n && (ok && settled && at + n <= |flash| ==> data == flash[at..at + n])
    {
      data := AnyBytes(n);
      ok := dev.BusOk();
      if !ok {
        settled := false;
      } else if settled && at + n <= |flash| {
        data := flash[at..at + n];
      }
    }

    /** verify_flash_content: chunk by chunk. */
    method Verify(image: seq<byte>, from: nat) returns (ok: bool)
      modifies this`settled
      ensures settled ==> old(settled)
      ensures dev.reliable && old(settled) ==> settled
      ensures ok && settled && from + |image| <= |flash| ==> flash[from..from + |image|] == image
      ensures dev.reliable && old(settled) && from + |image| <= |flash| && flash[from..from + |image|] == image ==> ok
    {
      ghost var n, inside := |image|, from + |image| <= |flash|;
      var cur := 0;
      while cur < |image|
        invariant 0 <= cur <= |image|
        invariant (settled ==> old(settled)) && (dev.reliable && old(settled) ==> settled)
        invariant inside && settled ==> flash[from..from + cur] == image[..cur]
      {
        var chunk := if |image| - cur < READ_CHUNK then |image| - cur else READ_CHUNK;
        var got, data := FlashRead(from + cur, chunk);
        if inside { SliceOfSlice(flash, from, from + n, cur, cur + chunk); }
        if !got || data != image[cur..cur + chunk] { return false; }
        assert inside && settled ==> flash[from..from + cur + chunk] == flash[from..from + cur] + data;
        assert image[..cur + chunk] == image[..cur] + data;
        cur := cur + chunk;
      }
      ok := true;
      assert image[..cur] == image;
    }

    /** Reading the first 4 KB of the flash, chunk by chunk. */
    method ReadCalibFromFlash() returns (ok: bool, t: seq<byte>)
      requires CALIB_SIZE <= |flash|
      modifies this`settled
      ensures settled ==> old(settled)
      ensures dev.reliable && old(settled) ==> ok && settled
      ensures ok && settled ==> t == flash[..CALIB_SIZE]
      ensures ok ==> |t| >= CALIB_SIZE
    {
      var cur := 0;
      t := [];
      while cur < CALIB_SIZE
        invariant 0 <= cur <= CALIB_SIZE && |t| == cur
        invariant (settled ==> old(settled)) && (dev.reliable && old(settled) ==> settled)
        invariant settled ==> t == flash[..cur]
      {
        var chunk := if CALIB_SIZE - cur < READ_CHUNK then CALIB_SIZE - cur else READ_CHUNK;
        var got, data := FlashRead(cur, chunk);
        if !got { return false, t; }
        assert settled ==> flash[..cur + chunk] == flash[..cur] + data;
        t, cur := t + data, cur + chunk;
      }
      ok := true;
    }

    /** read_calib_data up to the copy: the data it takes, if it accepts any. */
    method ReadCalib(mode: Mode, calibFile: Option<seq<byte>>) returns (ok: bool, t: seq<byte>)
      requires CALIB_SIZE <= |flash|
      modifies this`settled
      ensures settled ==> old(settled)
      ensures dev.reliable && old(settled) ==> settled
      ensures ok ==> CalibOk(Some(t))
      ensures ok && settled ==> CalibSource(mode, flash, calibFile) == Some(t)
      ensures dev.reliable && old(settled) && CalibOk(CalibSource(mode, flash, calibFile)) ==> ok
    {
      ok, t := true, [];
      if mode == BootloaderKeepingCalib {
        ok, t := ReadCalibFromFlash();
        if !ok { return; }
      } else {
        if calibFile == None || |calibFile.value| < CALIB_SIZE { return false, t; }
        t := calibFile.value;
      }
      ok := CheckCalib(t);
    }

    /** What both modes end with: burn at `start`, then verify from 0. */
    method BurnAndVerify(image: seq<byte>, start: nat) returns (ok: bool)
      requires Valid() && |image| <= MAX_FILE
      modifies this`flash, this`settled, dev
      ensures Valid() && |flash| == old(|flash|) && (settled ==> old(settled))
      ensures ok && settled ==> flash[..|image|] == image
      ensures dev.reliable && old(settled) ==> settled
      ensures dev.reliable && Room(flash, start, |image|) ==> flash == Burned(old(flash), start, image)
      ensures dev.reliable && old(settled) && Room(flash, start, |image|) && flash[..|image|] == image ==> ok
    {
      ok := BurnImage(image, start);
      if !ok { return; }
      ok := Verify(image, 0);
      assert flash[0..|image|] == flash[..|image|];
    }

    /** The boot loader modes: skip the header, put the accepted calibration data in, burn at 0 and
        read back.  On a reliable card this succeeds exactly when the calibration data is accepted. */
    method FlashBootloader(file: seq<byte>, mode: Mode, calibFile: Option<seq<byte>>)
      returns (ok: bool, image: seq<byte>)
      requires Valid() && BL_HEADER <= |file| <= MAX_FILE
      modifies this`flash, this`settled, dev
      ensures Valid() && |flash| == old(|flash|) && (settled ==> old(settled))
      ensures ok && settled ==> CalibOk(CalibSource(mode, old(flash), calibFile)) && Holds(flash, 0, image)
      ensures ok && settled ==> LoaderMerged(mode, old(flash), calibFile, flash, file)
      ensures settled && !CalibOk(CalibSource(mode, old(flash), calibFile)) ==> !ok && flash == old(flash)
      ensures settled && CalibOk(CalibSource(mode, old(flash), calibFile)) && (ok || dev.reliable) ==>
        image == Calibrated(file[BL_HEADER..], CalibSource(mode, old(flash), calibFile).value)
      ensures dev.reliable && old(settled) ==> settled
      ensures dev.reliable && old(settled) && CalibOk(CalibSource(mode, old(flash), calibFile)) ==>
        ok && Room(flash, 0, |image|) && flash == Burned(old(flash), 0, image)
    {
      var t;
      ok, t := ReadCalib(mode, calibFile);
      image := file[BL_HEADER..];
      if !ok { return; }
      image := Calibrated(image, t);
      RoomUpTo(flash, 0, |image|);
      ghost var f0 := flash;
      ok := BurnAndVerify(image, 0);
      assert ok ==> flash[0..|image|] == flash[..|image|];
      BurnedReads(f0, 0, image);
      if ok && settled { SourceMerges(mode, f0, calibFile, flash, file); }
    }

    /** The firmware modes: the file names its own start address. */
    method FlashFirmware(file: seq<byte>, wild: Address, capacity: Capacity) returns (ok: bool)
      requires Valid() && |file| <= MAX_FILE
      modifies this`flash, this`settled, dev
      ensures Valid() && |flash| == old(|flash|) && (settled ==> old(settled))
      ensures !Admitted(StartOr(file, wild), |file|, capacity) ==> !ok && flash == old(flash)
      ensures ok && settled ==> flash[..|file|] == file
      ensures dev.reliable && old(settled) ==> settled
      ensures var start := StartOr(file, wild);
        dev.reliable && Admitted(start, |file|, capacity) && Room(flash, start, |file|) ==>
          flash == Burned(old(flash), start, file) && (old(settled) && flash[..|file|] == file ==> ok)
    {
      var start := StartOr(file, wild);
      if start <= SECTOR || start % SECTOR != 0 || capacity == 0 || (start + |file|) % WRAP32 > capacity {
        return false;
      }
      ok := BurnAndVerify(file, start);
    }

    /** The read that QSPI_UPDATE puts before: calibration data from the flash, into the file.  A failure
        is ignored and may leave anything in those bytes. */
    method TakeOldCalib(file: seq<byte>) returns (image: seq<byte>)
      requires CALIB_SIZE <= |flash|
      ensures |image| == |file|
      ensures dev.reliable ==> image == Calibrated(file, flash)
    {
      var read := dev.BusOk();
      var junk: seq<byte> := *;
      image := if read || |junk| < CALIB_SIZE then Calibrated(file, flash) else Calibrated(file, junk);
    }

    /** manual_load_flash_content; `image` is what it burned in the firmware modes. */
    method ManualLoad(file: Option<seq<byte>>, mode: Mode, calibFile: Option<seq<byte>>, wild: Address,
                      capacity: Capacity)
      returns (ok: bool, image: seq<byte>)
      requires Valid()
      requires file.Some? && Bootloader(mode) ==> |file.value| >= BL_HEADER
      modifies this`flash, this`settled, dev
      ensures Valid() && |flash| == old(|flash|) && (settled ==> old(settled))
      ensures dev.reliable && old(settled) ==> settled
      ensures file == None || |file.value| > MAX_FILE ==> !ok && flash == old(flash)
      ensures ok && settled ==> Holds(flash, 0, image)
      ensures ok && mode == Firmware ==> image == file.value
      ensures ok && mode == FirmwareUpdate && dev.reliable ==> image == Calibrated(file.value, old(flash))
      ensures ok && !Bootloader(mode) ==> Admitted(StartOr(image, wild), |image|, capacity)
      ensures ok && settled && Bootloader(mode) ==>
        && CalibOk(CalibSource(mode, old(flash), calibFile))
        && image == Calibrated(file.value[BL_HEADER..], CalibSource(mode, old(flash), calibFile).value)
      ensures ok && settled && Bootloader(mode) ==> LoaderMerged(mode, old(flash), calibFile, flash, file.value)
      ensures ok && settled && mode == FirmwareUpdate && dev.reliable ==> Merged(flash, file.value, 0, old(flash))
      ensures dev.reliable && old(settled) && Bootloader(mode) && file.Some? && |file.value| <= MAX_FILE ==>
        (ok <==> CalibOk(CalibSource(mode, old(flash), calibFile)))
    {
      image := [];
      if file == None || |file.value| > MAX_FILE { return false, image; }
      image := file.value;
      if Bootloader(mode) {
        ok, image := FlashBootloader(file.value, mode, calibFile);
      } else {
        ghost var f0 := flash;
        if mode == FirmwareUpdate { image := TakeOldCalib(image); }
        ok := FlashFirmware(image, wild, capacity);
        assert ok ==> flash[0..|image|] == flash[..|image|];
        if ok && settled && mode == FirmwareUpdate && dev.reliable { UpdateMerges(f0, flash, file.value, image); }
      }
    }

    /** What the card makes of the frames of trigger_auto_flash_burn, taken in order, when it has worked
        through `n` of them: every chunk is a sector of its own and erases it. */
    method BurnChunks(image: seq<byte>, start: nat, n: nat)
      requires n <= ChunkCount(|image|)
      modifies this`flash
      ensures |flash| == old(|flash|)
      ensures dev.reliable && Room(flash, start, |image|) ==>
        Progress(old(flash), flash, start, image, Reach(n, |image|))
    {
      ghost var f0 := flash;
      var idx := 0;
      while idx < n
        invariant 0 <= idx <= n && |flash| == |f0|
        invariant dev.reliable && Room(f0, start, |image|) ==> Progress(f0, flash, start, image, Reach(idx, |image|))
      {
        var cur := idx * SECTOR;
        var size := if |image| - cur < SECTOR then |image| - cur else SECTOR;
        var _ := ProgramNext(image[cur..cur + size], start, cur, image, f0);
        idx := idx + 1;
      }
    }

    /** auto_load_flash_content, with the write pipeline's end given: it verifies where it burned, unlike
        the manual path, and it can only succeed when the pipeline has.  What the pipeline leaves
        outstanding disturbs the read-back. */
    method AutoLoad(file: Option<seq<byte>>, wild: Address, counter: nat, atomic: bool, outcome: AutoBurn.State)
      returns (ok: bool)
      requires Valid() && counter < 256
      requires AutoAdmits(file, wild) ==> Ended(file.value, counter, atomic, outcome)
      modifies this`flash, this`settled
      ensures |flash| == old(|flash|) && (settled ==> old(settled))
      ensures !AutoAdmits(file, wild) ==> !ok && flash == old(flash)
      ensures ok ==> outcome.pc.Done?
      ensures AutoAdmits(file, wild) && settled ==> AutoBurn.Settled(outcome)
      ensures ok && settled && HasRoom(file.value, wild, |flash|) ==>
        Holds(flash, StartOr(file.value, wild), file.value)
      ensures dev.reliable && old(settled) && Placeable(file, wild, |flash|) && AutoBurn.Settled(outcome) ==>
        && settled && Room(flash, StartOr(file.value, wild), |file.value|) && (ok <==> outcome.pc.Done?)
        && (ok ==> flash == Burned(old(flash), StartOr(file.value, wild), file.value))
    {
      if file == None || |file.value| > MAX_FILE { return false; }
      var image := file.value;
      var start := StartOr(image, wild);
      if start <= SECTOR || start % SECTOR != 0 || (start + |image|) % WRAP32 > MAX_ADDRESS { return false; }
      EndedWell(image, counter, atomic, outcome);
      var done: nat := *;
      done := if outcome.confirmed <= done <= outcome.sent then done else outcome.confirmed;
      ghost var f0 := flash;
      BurnChunks(image, start, done);
      settled := settled && AutoBurn.Settled(outcome);
      if start + |image| <= |flash| {
        RoomUpTo(flash, start, |image|);
        if dev.reliable && done == ChunkCount(|image|) { AllBurned(f0, flash, start, image); }
      }
      if !outcome.pc.Done? { return false; }
      ok := Verify(image, start);
    }
  }
}
