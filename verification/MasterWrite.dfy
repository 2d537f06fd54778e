/** load_data_master_write: copying an image into device memory block by block.  On USB every write
    carries its full address; on SDIO it carries 16 bits and a register supplies the rest. */
module MasterWrite {
  import opened Basics
  import opened Bytes

  const WINDOW: nat := 0x1_0000

  /** Memory with `data` laid over it from `at` on. */
  function Overlay(ram: seq<byte>, at: nat, data: seq<byte>): (r: seq<byte>)
    requires at + |data| <= |ram|
    ensures |r| == |ram|
  {
    ram[..at] + data + ram[at + |data|..]
  }

  /** Where byte `i` of a burst at address `a` goes: the offset counter wraps inside the window. */
  function Wrapped(a: nat, i: nat): (w: nat)
    requires i < WINDOW
    ensures w <= a + i
  {
    if a % WINDOW + i < WINDOW then a + i else a + i - WINDOW
  }

  /** One SDIO burst. */
  function Burst(ram: seq<byte>, a: nat, data: seq<byte>): (r: seq<byte>)
    requires a + |data| <= |ram| && |data| <= WINDOW
    ensures |r| == |ram|
    decreases |data|
  {
    if data == [] then ram
    else
      var n := |data| - 1;
      Burst(ram, a, data[..n])[Wrapped(a, n) := data[n]]
  }

  /** A burst that stays in its window is a plain copy. */
  lemma {:induction false} BurstIsOverlay(ram: seq<byte>, a: nat, data: seq<byte>)
    requires a + |data| <= |ram| && a % WINDOW + |data| <= WINDOW
    ensures Burst(ram, a, data) == Overlay(ram, a, data)
    decreases |data|
  {
    if data == [] {
      assert Overlay(ram, a, data) == ram;
    } else {
      var n := |data| - 1;
      BurstIsOverlay(ram, a, data[..n]);
      assert Wrapped(a, n) == a + n;
      assert Overlay(ram, a, data[..n])[a + n := data[n]] == Overlay(ram, a, data);
    }
  }

  /** What the SDIO driver makes of memory from image offset `cur` on, block by block. */
  function Windowed(ram: seq<byte>, base: nat, image: seq<byte>, cur: nat, size: nat, block: nat): (r: seq<byte>)
    requires cur <= size <= |image| && base + size <= |ram| && 0 < block <= WINDOW
    ensures |r| == |ram|
    decreases size - cur
  {
    if cur == size then ram
    else
      var k := Min(block, size - cur);
      Windowed(Burst(ram, base + cur, image[cur..cur + k]), base, image, cur + k, size, block)
  }

  /** What the USB driver makes of memory from image offset `cur` on, block by block. */
  function Flat(ram: seq<byte>, base: nat, image: seq<byte>, cur: nat, size: nat, block: nat): (r: seq<byte>)
    requires cur <= size <= |image| && base + size <= |ram| && block > 0
    ensures |r| == |ram|
    decreases size - cur
  {
    if cur == size then ram
    else
      var k := Min(block, size - cur);
      Flat(Overlay(ram, base + cur, image[cur..cur + k]), base, image, cur + k, size, block)
  }

  /** No block of the transfer crosses a 64 KB boundary. */
  predicate Fits(base: nat, size: nat, block: nat)
    requires block > 0
    decreases size
  {
    size == 0 ||
    (var k := Min(block, size);
    base % WINDOW + k <= WINDOW && Fits(base + k, size - k, block))
  }

  lemma OverlayTwice(ram: seq<byte>, at: nat, a: seq<byte>, b: seq<byte>)
    requires at + |a| + |b| <= |ram|
    ensures Overlay(Overlay(ram, at, a), at + |a|, b) == Overlay(ram, at, a + b)
  {
  }

  /** The flat version is one memory copy, whatever the block size. */
  lemma {:induction false} FlatIsOneCopy(ram: seq<byte>, base: nat, image: seq<byte>, cur: nat, size: nat, block: nat)
    requires cur <= size <= |image| && base + size <= |ram| && block > 0
    ensures Flat(ram, base, image, cur, size, block) == Overlay(ram, base + cur, image[cur..size])
    decreases size - cur
  {
    if cur == size {
      assert Overlay(ram, base + cur, image[cur..size]) == ram;
    } else {
      var k := Min(block, size - cur);
      var a, b := image[cur..cur + k], image[cur + k..size];
      FlatIsOneCopy(Overlay(ram, base + cur, a), base, image, cur + k, size, block);
      OverlayTwice(ram, base + cur, a, b);
      assert a + b == image[cur..size];
    }
  }

  lemma {:induction false} WindowedIsFlat(ram: seq<byte>, base: nat, image: seq<byte>, cur: nat, size: nat, block: nat)
    requires cur <= size <= |image| && base + size <= |ram| && 0 < block <= WINDOW
    requires Fits(base + cur, size - cur, block)
    ensures Windowed(ram, base, image, cur, size, block) == Flat(ram, base, image, cur, size, block)
    decreases size - cur
  {
    if cur < size {
      var k := Min(block, size - cur);
      BurstIsOverlay(ram, base + cur, image[cur..cur + k]);
      WindowedIsFlat(Overlay(ram, base + cur, image[cur..cur + k]), base, image, cur + k, size, block);
    }
  }

  // ---- the converse: a block across a boundary shows ----

  function Zeros(n: nat): (z: seq<byte>)
    ensures |z| == n && forall i :: 0 <= i < n ==> z[i] == 0
  {
    seq(n, _ => 0)
  }

  lemma {:induction false} BurstOutside(ram: seq<byte>, a: nat, data: seq<byte>, p: nat)
    requires a + |data| <= |ram| && p < |ram| && |data| <= WINDOW
    requires forall i :: 0 <= i < |data| ==> Wrapped(a, i) != p || data[i] == ram[p]
    ensures Burst(ram, a, data)[p] == ram[p]
    decreases |data|
  {
    if data != [] {
      var n := |data| - 1;
      BurstOutside(ram, a, data[..n], p);
      assert Wrapped(a, n) != p || data[n] == ram[p];
    }
  }

  /** Later blocks never reach back below the window they start in. */
  lemma {:induction false} WindowedBelow(ram: seq<byte>, base: nat, image: seq<byte>, cur: nat, size: nat, block: nat,
                                         p: nat)
    requires cur <= size <= |image| && base + size <= |ram| && 0 < block <= WINDOW && p < (base + cur) / WINDOW * WINDOW
    ensures Windowed(ram, base, image, cur, size, block)[p] == ram[p]
    decreases size - cur
  {
    if cur < size {
      var k := Min(block, size - cur);
      BurstOutside(ram, base + cur, image[cur..cur + k], p);
      assert (base + cur) / WINDOW <= (base + cur + k) / WINDOW;
      WindowedBelow(Burst(ram, base + cur, image[cur..cur + k]), base, image, cur + k, size, block, p);
    }
  }

  lemma FlatBelow(ram: seq<byte>, base: nat, image: seq<byte>, cur: nat, size: nat, block: nat, p: nat)
    requires cur <= size <= |image| && base + size <= |ram| && block > 0 && p < base + cur
    ensures Flat(ram, base, image, cur, size, block)[p] == ram[p]
  {
    FlatIsOneCopy(ram, base, image, cur, size, block);
  }

  lemma StrayByte(ram: seq<byte>, base: nat, image: seq<byte>, cur: nat, size: nat, block: nat, j: nat)
    requires cur < size <= |image| && base + size <= |ram| && 0 < block <= WINDOW
    requires j < Min(block, size - cur) && (base + cur) % WINDOW + j == WINDOW
    ensures Windowed(ram, base, image, cur, size, block)[(base + cur) / WINDOW * WINDOW] == image[cur + j]
  {
    var k, a := Min(block, size - cur), base + cur;
    var first, p := image[cur..cur + k], a / WINDOW * WINDOW;
    WrapsToStart(a, j);
    BurstHits(ram, a, first, j);
    var ram' := Burst(ram, a, first);
    assert ram'[p] == image[cur + j];
    NextWindow(a, k);
    WindowedBelow(ram', base, image, cur + k, size, block, p);
    WindowedStep(ram, base, image, cur, size, block);
  }

  lemma WrapsToStart(a: nat, j: nat)
    requires a % WINDOW + j == WINDOW && j < WINDOW
    ensures Wrapped(a, j) == a / WINDOW * WINDOW
  {
  }

  lemma NextWindow(a: nat, k: nat)
    requires a % WINDOW + k >= WINDOW
    ensures a / WINDOW * WINDOW < (a + k) / WINDOW * WINDOW
  {
  }

  /** A block across the boundary puts a byte at the start of its window. */
  lemma FirstBlockStrays(ram: seq<byte>, base: nat, cur: nat, size: nat, block: nat) returns (image: seq<byte>)
    requires ram == Zeros(|ram|) && cur < size && base + size <= |ram| && 0 < block <= WINDOW
    requires (base + cur) % WINDOW + Min(block, size - cur) > WINDOW
    ensures |image| == size && image[..cur] == Zeros(cur)
    ensures Windowed(ram, base, image, cur, size, block) != Flat(ram, base, image, cur, size, block)
  {
    var a := base + cur;
    var j, p := WINDOW - a % WINDOW, a / WINDOW * WINDOW;
    image := Zeros(size)[cur + j := 1];
    StrayByte(ram, base, image, cur, size, block, j);
    FlatBelow(ram, base, image, cur, size, block, p);
  }

  lemma {:induction false} BurstHits(ram: seq<byte>, a: nat, data: seq<byte>, j: nat)
    requires a + |data| <= |ram| && j < |data| <= WINDOW
    ensures Burst(ram, a, data)[Wrapped(a, j)] == data[j]
    decreases |data|
  {
    var n := |data| - 1;
    if j < n {
      BurstHits(ram, a, data[..n], j);
      WrappedInjective(a, j, n);
    }
  }

  lemma WrappedInjective(a: nat, i: nat, j: nat)
    requires i < j < WINDOW
    ensures Wrapped(a, i) != Wrapped(a, j)
  {
  }

  lemma ZeroBlock(ram: seq<byte>, base: nat, k: nat)
    requires ram == Zeros(|ram|) && base + k <= |ram| && base % WINDOW + k <= WINDOW
    ensures Burst(ram, base, Zeros(k)) == ram && Overlay(ram, base, Zeros(k)) == ram
  {
    BurstIsOverlay(ram, base, Zeros(k));
  }

  lemma StrayBlockShows(ram: seq<byte>, base: nat, cur: nat, size: nat, block: nat) returns (image: seq<byte>)
    requires ram == Zeros(|ram|) && cur <= size && base + size <= |ram| && 0 < block <= WINDOW
    requires !Fits(base + cur, size - cur, block)
    ensures |image| == size && image[..cur] == Zeros(cur)
    ensures Windowed(ram, base, image, cur, size, block) != Flat(ram, base, image, cur, size, block)
    decreases size - cur
  {
    var k := Min(block, size - cur);
    if (base + cur) % WINDOW + k > WINDOW {
      image := FirstBlockStrays(ram, base, cur, size, block);
    } else {
      image := StrayBlockShows(ram, base, cur + k, size, block);
      ZeroBlock(ram, base + cur, k);
      ZeroParts(image, cur, k);
      WindowedStep(ram, base, image, cur, size, block);
    }
  }

  lemma ZeroParts(image: seq<byte>, cur: nat, k: nat)
    requires cur + k <= |image| && image[..cur + k] == Zeros(cur + k)
    ensures image[..cur] == Zeros(cur) && image[cur..cur + k] == Zeros(k)
  {
    assert image[..cur] == image[..cur + k][..cur];
    assert image[cur..cur + k] == image[..cur + k][cur..];
  }

  /** The SDIO version has the effect of the USB version, for every memory and every image, if and
      only if no block crosses a 64 KB boundary.  The "only if" rests on `Wrapped`: that the card's
      offset counter wraps inside the window is an assumption about hardware, not in the driver. */
  lemma SameEffectExactlyWhen(base: nat, size: nat, block: nat)
    requires 0 < block <= WINDOW
    ensures Fits(base, size, block) <==>
      forall ram, image: seq<byte> :: base + size <= |ram| && |image| == size ==>
        Windowed(ram, base, image, 0, size, block) == Flat(ram, base, image, 0, size, block)
  {
    if Fits(base, size, block) {
      forall ram, image: seq<byte> | base + size <= |ram| && |image| == size
        ensures Windowed(ram, base, image, 0, size, block) == Flat(ram, base, image, 0, size, block)
      {
        WindowedIsFlat(ram, base, image, 0, size, block);
      }
    } else {
      var ram := Zeros(base + size);
      var image := StrayBlockShows(ram, base, 0, size, block);
      assert Windowed(ram, base, image, 0, size, block) != Flat(ram, base, image, 0, size, block);
    }
  }

  lemma MulCancelLess(x: int, y: int, n: nat)
    requires n > 0 && x * n < y * n
    ensures x < y
  {
  }

  lemma MulMonotone(x: int, y: int, n: nat)
    requires x <= y
    ensures x * n <= y * n
  {
  }

  /** Block number `b` of a window tiled by `w` blocks ends inside its window. */
  lemma RoomForBlock(b: nat, w: nat, block: nat)
    requires block > 0 && WINDOW == w * block
    ensures (b * block) % WINDOW + block <= WINDOW
  {
    var base := b * block;
    var q, o := base / WINDOW, base % WINDOW;
    var r := b - q * w;
    assert o == r * block by {
      assert q * WINDOW == (q * w) * block;
    }
    MulCancelLess(r, w, block);
    MulMonotone(r + 1, w, block);
    assert (r + 1) * block == o + block;
  }

  lemma {:induction false} TiledBlocksFit(b: nat, w: nat, size: nat, block: nat)
    requires block > 0 && WINDOW == w * block
    ensures Fits(b * block, size, block)
    decreases size
  {
    if size > 0 {
      RoomForBlock(b, w, block);
      if size > block {
        TiledBlocksFit(b + 1, w, size - block, block);
        assert (b + 1) * block == b * block + block;
      }
    }
  }

  /** The blocks the driver really uses: aligned, and of a size that divides a window. */
  lemma AlignedBlocksFit(base: nat, size: nat, block: nat)
    requires block > 0 && WINDOW % block == 0 && base % block == 0
    ensures Fits(base, size, block)
  {
    assert WINDOW == WINDOW / block * block && base == base / block * block;
    TiledBlocksFit(base / block, WINDOW / block, size, block);
  }

  /** Hence one plain memory copy: only the target range changes. */
  lemma SdioIsOneCopy(ram: seq<byte>, base: nat, image: seq<byte>, cur: nat, size: nat, block: nat)
    requires cur <= size <= |image| && base + size <= |ram| && 0 < block <= WINDOW
    requires Fits(base + cur, size - cur, block)
    ensures Windowed(ram, base, image, cur, size, block) == Overlay(ram, base + cur, image[cur..size])
  {
    WindowedIsFlat(ram, base, image, cur, size, block);
    FlatIsOneCopy(ram, base, image, cur, size, block);
  }

  // ---- the drivers themselves ----

  class Device {
    /** No access of this card ever fails, and an answer the driver waits for comes in time, after the
        driver has reset the event it waits on. */
    const reliable: bool
    var ram: seq<byte>
    var msByte0: byte
    var msByte1: byte

    function MsWord(): nat
      reads this
    {
      Half(msByte0, msByte1)
    }

    /** A register or memory access on the bus may fail; then it changes nothing. */
    method BusOk() returns (ok: bool)
      ensures reliable ==> ok
    {
      ok := *;
      ok := ok || reliable;
    }

    /** onebox_sdio_master_access_msword: two byte registers, written one after the other. */
    method SetMsWord(ms: nat) returns (ok: bool)
      requires ms < 0x1_0000
      modifies this`msByte0, this`msByte1
      ensures reliable ==> ok
      ensures ok ==> MsWord() == ms
    {
      ok := BusOk();
      if !ok { return; }
      msByte0 := ms % 256;
      ok := BusOk();
      if !ok { return; }
      msByte1 := ms / 256;
    }

    /** A master write through the selected window. */
    method WriteWindow(lsb: nat, data: seq<byte>, ghost address: nat) returns (ok: bool)
      requires lsb < WINDOW && address == MsWord() * WINDOW + lsb && address + |data| <= |ram| && |data| <= WINDOW
      modifies this`ram
      ensures reliable ==> ok
      ensures |ram| == old(|ram|)
      ensures ok ==> ram == Burst(old(ram), address, data)
    {
      ok := BusOk();
      if !ok { return; }
      ram := Burst(ram, MsWord() * WINDOW + lsb, data);
    }

    /** A master write with a full address. */
    method WriteFlat(address: nat, data: seq<byte>) returns (ok: bool)
      requires address + |data| <= |ram|
      modifies this`ram
      ensures reliable ==> ok
      ensures |ram| == old(|ram|) && (ok ==> ram == Overlay(old(ram), address, data))
    {
      ok := BusOk();
      if !ok { return; }
      ram := Overlay(ram, address, data);
    }

    /** load_data_master_write on USB: whole blocks while one is left, then the remainder. */
    method LoadUsb(base: nat, size: nat, block: nat, image: seq<byte>) returns (ok: bool)
      requires 0 < block <= 256 && size <= |image| && base + size <= |ram|
      modifies this`ram
      ensures reliable ==> ok
      ensures |ram| == old(|ram|)
      ensures ok ==> ram == Flat(old(ram), base, image, 0, size, block)
    {
      ghost var goal := Flat(ram, base, image, 0, size, block);
      var cur := 0;
      while size - cur >= block
        invariant 0 <= cur <= size && |ram| == old(|ram|)
        invariant Flat(ram, base, image, cur, size, block) == goal
      {
        ok := WriteFlat(base + cur, image[cur..cur + block]);
        if !ok { return; }
        cur := cur + block;
      }
      if cur != size {
        ok := WriteFlat(base + cur, image[cur..size]);
        if !ok { return; }
      }
      return true;
    }

    /** load_data_master_write on SDIO: before every write the window register holds the upper half
        of that write's address (the precondition of `SendBlock`). */
    method LoadSdio(base: nat, size: nat, block: nat, image: seq<byte>) returns (ok: bool)
      requires 0 < block <= 256 && size <= |image| && base + size <= |ram| <= 0xFFFF_FFFF
      modifies this
      ensures reliable ==> ok
      ensures |ram| == old(|ram|)
      ensures ok ==> ram == Windowed(old(ram), base, image, 0, size, block)
    {
      var cur;
      ok := SetMsWord(base / WINDOW);
      if !ok { return; }
      ok, cur := LoadWholeBlocks(base, size, block, image);
      if !ok { return; }
      if cur != size {
        ok := SendBlock(base, cur, size - cur, size, block, image);
      }
    }

    /** The SDIO loader as its callers use it: 256-byte blocks at an aligned address. */
    method Load(base: nat, image: seq<byte>) returns (ok: bool)
      requires base % 256 == 0 && base + |image| <= |ram| <= 0xFFFF_FFFF
      modifies this
      ensures reliable ==> ok
      ensures |ram| == old(|ram|)
      ensures ok ==> ram == Overlay(old(ram), base, image)
    {
      ghost var was, n := ram, |image|;
      ok := LoadSdio(base, |image|, 256, image);
      AlignedBlocksFit(base, n, 256);
      ghost var zero := 0;
      SdioIsOneCopy(was, base, image, zero, n, 256);
      assert image[zero..n] == image;
    }

    /** The block loop; it also leaves the window of the remainder selected. */
    method LoadWholeBlocks(base: nat, size: nat, block: nat, image: seq<byte>) returns (ok: bool, cur: nat)
      requires 0 < block <= 256 && size <= |image| && base + size <= |ram| <= 0xFFFF_FFFF
      requires MsWord() == base / WINDOW
      modifies this
      ensures reliable ==> ok
      ensures |ram| == old(|ram|)
      ensures ok ==> cur <= size < cur + block && MsWord() == (base + cur) / WINDOW
      ensures ok ==> Windowed(ram, base, image, cur, size, block) == Windowed(old(ram), base, image, 0, size, block)
    {
      ghost var goal := Windowed(ram, base, image, 0, size, block);
      var msb := base / WINDOW;
      cur := 0;
      while size - cur >= block
        invariant 0 <= cur <= size && |ram| == old(|ram|)
        invariant MsWord() == msb == (base + cur) / WINDOW
        invariant Windowed(ram, base, image, cur, size, block) == goal
      {
        ok, msb := SendWholeBlock(base, cur, size, block, image, msb);
        if !ok { return; }
        cur := cur + block;
      }
      return true, cur;
    }

    /** The body of the block loop: one block, then the window of the address after it. */
    method SendWholeBlock(base: nat, cur: nat, ghost size: nat, block: nat, image: seq<byte>, msb: nat)
      returns (ok: bool, next: nat)
      requires 0 < block <= 256 && cur + block <= size <= |image| && base + size <= |ram| <= 0xFFFF_FFFF
      requires MsWord() == msb == (base + cur) / WINDOW
      modifies this
      ensures |ram| == old(|ram|)
      ensures reliable ==> ok
      ensures ok ==> MsWord() == next == (base + cur + block) / WINDOW
      ensures ok ==>
        Windowed(ram, base, image, cur + block, size, block) == Windowed(old(ram), base, image, cur, size, block)
    {
      next := msb;
      ok := SendBlock(base, cur, block, size, block, image);
      if !ok { return; }
      ok, next := FollowAddress(base + cur + block, block, msb);
    }

    /** After advancing by one block to `address`, select the next window if it was reached. */
    method FollowAddress(address: nat, ghost block: nat, msb: nat) returns (ok: bool, next: nat)
      requires block <= address <= 0xFFFF_FFFF && block <= 256 && MsWord() == msb == (address - block) / WINDOW
      modifies this`msByte0, this`msByte1
      ensures reliable ==> ok
      ensures ok ==> MsWord() == next == address / WINDOW
    {
      WindowAdvances(address - block, block);
      next := msb;
      if address / WINDOW != msb {
        next := msb + 1;
        ok := SetMsWord(next);
      } else {
        ok := true;
      }
    }

    /** Write the `k` image bytes from `cur` on at their address, whose window is selected. */
    method SendBlock(base: nat, cur: nat, k: nat, ghost size: nat, ghost block: nat, image: seq<byte>)
      returns (ok: bool)
      requires 0 < block <= WINDOW && cur < size <= |image| && base + size <= |ram|
      requires k == Min(block, size - cur) && MsWord() == (base + cur) / WINDOW
      modifies this`ram
      ensures reliable ==> ok
      ensures |ram| == old(|ram|)
      ensures ok ==>
        Windowed(ram, base, image, cur + k, size, block) == Windowed(old(ram), base, image, cur, size, block)
    {
      WindowedStep(ram, base, image, cur, size, block);
      ok := WriteWindow((base + cur) % WINDOW, image[cur..cur + k], base + cur);
    }
  }

  lemma WindowAdvances(a: nat, k: nat)
    requires k <= WINDOW
    ensures a / WINDOW <= (a + k) / WINDOW <= a / WINDOW + 1
  {
  }

  lemma WindowedStep(ram: seq<byte>, base: nat, image: seq<byte>, cur: nat, size: nat, block: nat)
    requires 0 < block <= WINDOW && cur < size <= |image| && base + size <= |ram|
    ensures var k := Min(block, size - cur);
      var next := Burst(ram, base + cur, image[cur..cur + k]);
      Windowed(next, base, image, cur + k, size, block) == Windowed(ram, base, image, cur, size, block)
  {
  }
}
