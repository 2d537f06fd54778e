/** Splitting one SDIO transfer into the frames the firmware aggregated in it. */
module Deaggregation {
  import opened Bytes

  const FRAME_DESC_SZ: nat := 16
  const COMMON_PKT_LENGTH: nat := 2304
  const MAX_SNIFFER_MODE_PKT_LEN: nat := 4096

  /** What the checks depend on: the packet type, the driver mode and whether flashing is on. */
  datatype Mode = Mode(wlanPacket: bool, wifiMode: bool, qspiFlashing: bool, flashingOn: bool)

  function Limit(m: Mode): nat {
    if m.wifiMode && !m.flashingOn then COMMON_PKT_LENGTH else MAX_SNIFFER_MODE_PKT_LEN
  }

  // ---- one frame as the code sees it ----

  /** Everything the code may look at while `left` bytes from `at` are to be parsed: the descriptor
      offset is a 16-bit number read before it is checked. */
  predicate Mapped(mem: seq<byte>, at: nat, left: nat) { at + left + 0x1_0010 <= |mem| }

  function Actual(mem: seq<byte>, at: nat): nat
    requires Mapped(mem, at, 0)
  {
    U16(mem, at)
  }

  function Offset(mem: seq<byte>, at: nat): nat
    requires Mapped(mem, at, 0)
  {
    U16(mem, at + 2)
  }

  function Length(mem: seq<byte>, at: nat): nat
    requires Mapped(mem, at, 0)
  {
    U16(mem, at + Offset(mem, at)) % 4096
  }

  function Extended(mem: seq<byte>, at: nat, m: Mode): nat
    requires Mapped(mem, at, 0)
  {
    if m.wlanPacket then mem[at + Offset(mem, at) + 4] else 0
  }

  /** `size` is `n` rounded up to whole 256-byte blocks. */
  predicate IsPadded(n: nat, size: nat) { size % 256 == 0 && n <= size < n + 256 }

  /** The code's rounding: (n + 255) & ~255. */
  function United(n: nat): nat { (n + 255) / 256 * 256 }

  lemma UnitedIsPadded(n: nat, size: nat)
    ensures size == United(n) <==> IsPadded(n, size)
  {
  }

  /** Checks 3, 2 and 4: minimum sizes, what is left of the transfer, and the padded length. */
  predicate Consistent(mem: seq<byte>, at: nat, left: nat)
    requires Mapped(mem, at, left)
  {
    && Actual(mem, at) >= 4 + FRAME_DESC_SZ && Offset(mem, at) >= 4
    && (Actual(mem, at) == left || Actual(mem, at) + 4 + FRAME_DESC_SZ <= left)
    && IsPadded(Offset(mem, at) + Length(mem, at) + FRAME_DESC_SZ, Actual(mem, at))
  }

  /** Check 5 and the size limit. */
  predicate Acceptable(mem: seq<byte>, at: nat, m: Mode)
    requires Mapped(mem, at, 0)
  {
    Extended(mem, at, m) <= Length(mem, at) <= Limit(m)
  }

  /** What is copied out of a frame. */
  function Body(mem: seq<byte>, at: nat, left: nat): seq<byte>
    requires Mapped(mem, at, left) && Consistent(mem, at, left)
  {
    mem[at + Offset(mem, at)..at + Offset(mem, at) + Length(mem, at) + FRAME_DESC_SZ]
  }

  /** What the checks make of the bytes at some position. */
  datatype View = Bad | Good(size: nat, body: seq<byte>)

  function Recognize(mem: seq<byte>, end: nat, m: Mode, at: nat): View
    requires Mapped(mem, 0, end)
  {
    if at <= end && Consistent(mem, at, end - at) && Acceptable(mem, at, m)
    then Good(Actual(mem, at), Body(mem, at, end - at)) else Bad
  }

  datatype Status = Ok | Panicked | NoMemory
  datatype Outcome = Outcome(status: Status, frames: seq<seq<byte>>)

  /** The aggregation loop over whatever `look` recognises, from `at` to `end`; `alloc(n)` tells
      whether the n-th buffer allocation succeeds. */
  function Split(look: nat -> View, at: nat, end: nat, alloc: nat -> bool, n: nat): Outcome
    requires at <= end
    decreases end - at
  {
    match look(at)
    case Bad => Outcome(Panicked, [])
    case Good(size, body) =>
      if !alloc(n) then Outcome(NoMemory, [])
      else if at + size == end then Outcome(Ok, [body])
      else if 0 < size < end - at then
        var rest := Split(look, at + size, end, alloc, n + 1);
        Outcome(rest.status, [body] + rest.frames)
      else Outcome(Panicked, [])
  }

  /** process_unaggregated_pkt on SDIO: one frame, and in QSPI flashing mode no size checks. */
  function Single(mem: seq<byte>, total: nat, m: Mode): Outcome
    requires Mapped(mem, 0, total)
  {
    if Consistent(mem, 0, total) && (m.qspiFlashing || Acceptable(mem, 0, m))
    then Outcome(Ok, [Body(mem, 0, total)]) else Outcome(Panicked, [])
  }

  /** `look` is the driver's recogniser for this transfer. (`Ask` only steers the prover.) */
  predicate Ask(at: nat) { true }

  ghost predicate Looks(look: nat -> View, mem: seq<byte>, end: nat, m: Mode) {
    Mapped(mem, 0, end) && forall at {:trigger Ask(at)} :: Ask(at) ==> look(at) == Recognize(mem, end, m, at)
  }

  /** The copied slice lies inside its own frame, and the frame inside the transfer. */
  lemma CopyStaysInFrame(mem: seq<byte>, at: nat, left: nat)
    requires Mapped(mem, at, left) && Consistent(mem, at, left)
    ensures 4 <= Offset(mem, at) && Offset(mem, at) + |Body(mem, at, left)| <= Actual(mem, at) <= left
    ensures Actual(mem, at) - (Offset(mem, at) + |Body(mem, at, left)|) < 256
  {
  }

  // ---- the wire format, written independently ----

  /** A frame on the wire: its length and descriptor offset, any bytes up to the descriptor, the
      descriptor with payload, and padding to a whole number of blocks. */
  datatype Frame = Frame(gap: seq<byte>, body: seq<byte>, pad: seq<byte>)

  function Size(f: Frame): nat { 4 + |f.gap| + |f.body| + |f.pad| }

  function Encode(f: Frame): (s: seq<byte>)
    requires Size(f) < 0x1_0000
    ensures |s| == Size(f)
  {
    Bytes16(Size(f)) + (Bytes16(4 + |f.gap|) + (f.gap + (f.body + f.pad)))
  }

  /** Whole blocks, less than one of them padding, and a descriptor of 16 bytes whose low 12 bits count
      what follows it. */
  predicate Shaped(f: Frame) {
    && Size(f) < 0x1_0000 && Size(f) % 256 == 0 && |f.pad| < 256
    && |f.body| >= 16 && Half(f.body[0], f.body[1]) % 4096 == |f.body| - 16
  }

  /** In WiFi mode outside flashing at most 2304 bytes, and in WLAN frames room for the extended
      descriptor. */
  predicate WellFormed(f: Frame, m: Mode) {
    && Shaped(f)
    && (m.wifiMode && !m.flashingOn ==> |f.body| <= 16 + 2304)
    && (m.wlanPacket ==> f.body[4] <= |f.body| - 16)
  }

  predicate AllWellFormed(fs: seq<Frame>, m: Mode) { forall i :: 0 <= i < |fs| ==> WellFormed(fs[i], m) }

  function EncodeAll(fs: seq<Frame>, m: Mode): seq<byte>
    requires AllWellFormed(fs, m)
  {
    if fs == [] then [] else Encode(fs[0]) + EncodeAll(fs[1..], m)
  }

  function Bodies(fs: seq<Frame>): seq<seq<byte>> {
    if fs == [] then [] else [fs[0].body] + Bodies(fs[1..])
  }

  lemma HoldsParts(mem: seq<byte>, at: nat, a: seq<byte>, b: seq<byte>, c: seq<byte>)
    ensures Holds(mem, at, a + (b + c)) <==>
      Holds(mem, at, a) && Holds(mem, at + |a|, b) && Holds(mem, at + |a| + |b|, c)
  {
    HoldsConcat(mem, at, a, b + c);
    HoldsConcat(mem, at + |a|, b, c);
  }

  lemma HoldsHeader(mem: seq<byte>, at: nat, size: nat, offset: nat, rest: seq<byte>)
    requires size < 0x1_0000 && offset < 0x1_0000 && at + 4 <= |mem|
    ensures Holds(mem, at, Bytes16(size) + (Bytes16(offset) + rest)) <==>
      U16(mem, at) == size && U16(mem, at + 2) == offset && Holds(mem, at + 4, rest)
  {
    HoldsParts(mem, at, Bytes16(size), Bytes16(offset), rest);
    HoldsBytes16(mem, at, size);
    HoldsBytes16(mem, at + 2, offset);
  }

  /** A frame lies in memory exactly when its header fields and its three parts do. */
  lemma HoldsEncode(mem: seq<byte>, at: nat, f: Frame)
    requires Size(f) < 0x1_0000 && Mapped(mem, at, Size(f))
    ensures Holds(mem, at, Encode(f)) <==>
      && Actual(mem, at) == Size(f) && Offset(mem, at) == 4 + |f.gap|
      && Holds(mem, at + 4, f.gap) && Holds(mem, at + 4 + |f.gap|, f.body)
      && Holds(mem, at + 4 + |f.gap| + |f.body|, f.pad)
  {
    HoldsHeader(mem, at, Size(f), 4 + |f.gap|, f.gap + (f.body + f.pad));
    HoldsParts(mem, at + 4, f.gap, f.body, f.pad);
  }

  lemma DescriptorFields(mem: seq<byte>, d: nat, body: seq<byte>)
    requires |body| >= FRAME_DESC_SZ && Holds(mem, d, body)
    ensures U16(mem, d) == Half(body[0], body[1]) && mem[d + 4] == body[4]
  {
    var s := mem[d..d + |body|];
    assert s[0] == mem[d] && s[1] == mem[d + 1] && s[4] == mem[d + 4];
  }

  lemma EncodedFields(mem: seq<byte>, at: nat, f: Frame, m: Mode)
    requires Mapped(mem, at, Size(f)) && Shaped(f) && Holds(mem, at, Encode(f))
    ensures Actual(mem, at) == Size(f) && Offset(mem, at) == 4 + |f.gap|
    ensures Length(mem, at) == |f.body| - FRAME_DESC_SZ && (Acceptable(mem, at, m) <==> WellFormed(f, m))
    ensures Holds(mem, at + Offset(mem, at), f.body)
  {
    HoldsEncode(mem, at, f);
    DescriptorFields(mem, at + Offset(mem, at), f.body);
  }

  /** The code's reading of an encoded frame. */
  lemma EncodedFrame(mem: seq<byte>, at: nat, left: nat, f: Frame, m: Mode)
    requires Mapped(mem, at, left) && Shaped(f) && Holds(mem, at, Encode(f))
    requires Size(f) == left || Size(f) + 4 + FRAME_DESC_SZ <= left
    ensures Actual(mem, at) == Size(f) && Consistent(mem, at, left) && (Acceptable(mem, at, m) <==> WellFormed(f, m))
    ensures Body(mem, at, left) == f.body
  {
    EncodedFields(mem, at, f, m);
  }

  lemma PackedHead(mem: seq<byte>, at: nat, fs: seq<Frame>, m: Mode)
    requires fs != [] && AllWellFormed(fs, m) && Holds(mem, at, EncodeAll(fs, m))
    ensures Holds(mem, at, Encode(fs[0])) && Holds(mem, at + Size(fs[0]), EncodeAll(fs[1..], m))
    ensures |EncodeAll(fs, m)| == Size(fs[0]) + |EncodeAll(fs[1..], m)|
    ensures if |fs| == 1 then EncodeAll(fs[1..], m) == [] && Bodies(fs) == [fs[0].body]
      else |EncodeAll(fs[1..], m)| >= 4 + FRAME_DESC_SZ && Bodies(fs) == [fs[0].body] + Bodies(fs[1..])
  {
    HoldsConcat(mem, at, Encode(fs[0]), EncodeAll(fs[1..], m));
  }

  lemma SplitOne(look: nat -> View, at: nat, end: nat, alloc: nat -> bool, n: nat, size: nat, body: seq<byte>)
    requires look(at) == Good(size, body) && alloc(n) && 0 < size && at + size <= end
    ensures at + size == end ==> Split(look, at, end, alloc, n) == Outcome(Ok, [body])
    ensures at + size < end ==>
      var rest := Split(look, at + size, end, alloc, n + 1);
      Split(look, at, end, alloc, n) == Outcome(rest.status, [body] + rest.frames)
  {
  }

  /** `goal` is what the loop will have delivered if `queued` came before position `at`. */
  ghost predicate OnCourse(goal: Outcome, queued: seq<seq<byte>>, look: nat -> View, at: nat, end: nat,
                           alloc: nat -> bool, n: nat)
    requires at <= end
  {
    var rest := Split(look, at, end, alloc, n);
    goal == Outcome(rest.status, queued + rest.frames)
  }

  lemma StayOnCourse(goal: Outcome, queued: seq<seq<byte>>, look: nat -> View, at: nat, end: nat,
                     alloc: nat -> bool, n: nat, size: nat, body: seq<byte>)
    requires look(at) == Good(size, body) && alloc(n) && 0 < size && at + size <= end
    requires OnCourse(goal, queued, look, at, end, alloc, n)
    ensures at + size == end ==> goal == Outcome(Ok, queued + [body])
    ensures at + size < end ==> OnCourse(goal, queued + [body], look, at + size, end, alloc, n + 1)
  {
    SplitOne(look, at, end, alloc, n, size, body);
    if at + size < end {
      var rest := Split(look, at + size, end, alloc, n + 1);
      assert queued + ([body] + rest.frames) == (queued + [body]) + rest.frames;
    }
  }

  ghost predicate AllocOk(alloc: nat -> bool) { forall n: nat :: alloc(n) }

  lemma LookAtEncoded(look: nat -> View, mem: seq<byte>, end: nat, m: Mode, at: nat, f: Frame)
    requires Looks(look, mem, end, m) && WellFormed(f, m) && Holds(mem, at, Encode(f))
    requires at + Size(f) == end || at + Size(f) + 4 + FRAME_DESC_SZ <= end
    ensures look(at) == Good(Size(f), f.body)
  {
    assert Ask(at);
    EncodedFrame(mem, at, end - at, f, m);
  }

  /** Parsing what was packed returns the packed frames, in order. */
  lemma {:induction false} SplitOfPacked(look: nat -> View, mem: seq<byte>, at: nat, end: nat, fs: seq<Frame>,
                                         m: Mode, alloc: nat -> bool, n: nat)
    requires Looks(look, mem, end, m) && AllocOk(alloc)
    requires fs != [] && AllWellFormed(fs, m) && at + |EncodeAll(fs, m)| == end && Holds(mem, at, EncodeAll(fs, m))
    ensures Split(look, at, end, alloc, n) == Outcome(Ok, Bodies(fs))
    decreases |fs|
  {
    PackedHead(mem, at, fs, m);
    var f, rest := fs[0], fs[1..];
    LookAtEncoded(look, mem, end, m, at, f);
    SplitOne(look, at, end, alloc, n, Size(f), f.body);
    if rest != [] {
      SplitOfPacked(look, mem, at + Size(f), end, rest, m, alloc, n + 1);
    }
  }

  // ---- and back: whatever is accepted is such a packing ----

  /** The frame read at `at`. */
  function Decode(mem: seq<byte>, at: nat, left: nat): Frame
    requires Mapped(mem, at, left) && Consistent(mem, at, left)
  {
    var o, e := Offset(mem, at), Offset(mem, at) + Length(mem, at) + FRAME_DESC_SZ;
    Frame(mem[at + 4..at + o], Body(mem, at, left), mem[at + e..at + Actual(mem, at)])
  }

  lemma DecodedIsWellFormed(mem: seq<byte>, at: nat, left: nat, m: Mode)
    requires Mapped(mem, at, left) && Consistent(mem, at, left)
    ensures var f := Decode(mem, at, left);
      Shaped(f) && (Acceptable(mem, at, m) ==> WellFormed(f, m)) && Size(f) == Actual(mem, at)
  {
    DescriptorFields(mem, at + Offset(mem, at), Decode(mem, at, left).body);
  }

  lemma EncodeOfDecoded(mem: seq<byte>, at: nat, left: nat)
    requires Mapped(mem, at, left) && Consistent(mem, at, left)
    requires Size(Decode(mem, at, left)) == Actual(mem, at)
    ensures Holds(mem, at, Encode(Decode(mem, at, left)))
  {
    var f := Decode(mem, at, left);
    var o, e := Offset(mem, at), Offset(mem, at) + Length(mem, at) + FRAME_DESC_SZ;
    HoldsSlice(mem, at + 4, at + o);
    HoldsSlice(mem, at + o, at + e);
    HoldsSlice(mem, at + e, at + Actual(mem, at));
    HoldsEncode(mem, at, f);
  }

  /** Whatever the recogniser accepts is an encoded frame. */
  lemma FrameAt(look: nat -> View, mem: seq<byte>, end: nat, m: Mode, at: nat) returns (f: Frame)
    requires Looks(look, mem, end, m) && at <= end && look(at).Good?
    ensures WellFormed(f, m) && Holds(mem, at, Encode(f)) && look(at) == Good(Size(f), f.body)
  {
    assert Ask(at);
    f := Decode(mem, at, end - at);
    DecodedIsWellFormed(mem, at, end - at, m);
    EncodeOfDecoded(mem, at, end - at);
  }

  lemma PackOne(mem: seq<byte>, at: nat, f: Frame, rest: seq<Frame>, m: Mode)
    requires WellFormed(f, m) && AllWellFormed(rest, m)
    requires Holds(mem, at, Encode(f)) && Holds(mem, at + Size(f), EncodeAll(rest, m))
    ensures var fs := [f] + rest;
      && AllWellFormed(fs, m) && |EncodeAll(fs, m)| == Size(f) + |EncodeAll(rest, m)|
      && Holds(mem, at, EncodeAll(fs, m)) && Bodies(fs) == [f.body] + Bodies(rest)
  {
    assert ([f] + rest)[1..] == rest;
    HoldsConcat(mem, at, Encode(f), EncodeAll(rest, m));
  }

  lemma AcceptedIsPacked(look: nat -> View, mem: seq<byte>, at: nat, end: nat, m: Mode, alloc: nat -> bool, n: nat)
    returns (fs: seq<Frame>)
    requires Looks(look, mem, end, m) && at <= end && Split(look, at, end, alloc, n).status == Ok
    ensures fs != [] && AllWellFormed(fs, m)
    ensures at + |EncodeAll(fs, m)| == end && Holds(mem, at, EncodeAll(fs, m))
    ensures Split(look, at, end, alloc, n).frames == Bodies(fs)
    decreases end - at
  {
    var f := FrameAt(look, mem, end, m, at);
    var rest := [];
    if at + Size(f) < end {
      rest := AcceptedIsPacked(look, mem, at + Size(f), end, m, alloc, n + 1);
    }
    PackOne(mem, at, f, rest, m);
    fs := [f] + rest;
  }

  /** Given buffers, a transfer is accepted if and only if it is a packing of well-formed frames,
      and then exactly their bodies come out, in order. */
  lemma AcceptedExactlyPackings(look: nat -> View, mem: seq<byte>, total: nat, m: Mode, alloc: nat -> bool,
                                out: seq<seq<byte>>)
    requires Looks(look, mem, total, m) && AllocOk(alloc)
    ensures Split(look, 0, total, alloc, 0) == Outcome(Ok, out) <==>
      exists fs :: fs != [] && AllWellFormed(fs, m) && mem[..total] == EncodeAll(fs, m) && out == Bodies(fs)
  {
    if Split(look, 0, total, alloc, 0) == Outcome(Ok, out) {
      var fs := AcceptedIsPacked(look, mem, 0, total, m, alloc, 0);
      assert mem[..total] == EncodeAll(fs, m);
    }
    forall fs | fs != [] && AllWellFormed(fs, m) && mem[..total] == EncodeAll(fs, m) && out == Bodies(fs)
      ensures Split(look, 0, total, alloc, 0) == Outcome(Ok, out)
    {
      SplitOfPacked(look, mem, 0, total, fs, m, alloc, 0);
    }
  }

  // ---- every outcome, good or bad ----

  /** A well-formed frame lies at `at` and fills the transfer or leaves room for another header. */
  predicate StartsAt(mem: seq<byte>, at: nat, end: nat, m: Mode, f: Frame) {
    && WellFormed(f, m) && (at + Size(f) == end || at + Size(f) + 20 <= end)
    && Holds(mem, at, Encode(f))
  }

  /** Which frames lie where in one transfer. */
  ghost function Starts(mem: seq<byte>, end: nat, m: Mode): (nat, Frame) -> bool {
    (at: nat, f: Frame) => StartsAt(mem, at, end, m, f)
  }

  ghost predicate SomeStarts(starts: (nat, Frame) -> bool, at: nat) { exists f :: starts(at, f) }

  /** The frames `fs` lie one after the other from `at` on, and there was a buffer for each. */
  predicate Taken(starts: (nat, Frame) -> bool, at: nat, alloc: nat -> bool, n: nat, fs: seq<Frame>)
    decreases |fs|
  {
    fs == [] || (starts(at, fs[0]) && alloc(n) && Taken(starts, at + Size(fs[0]), alloc, n + 1, fs[1..]))
  }

  function Span(fs: seq<Frame>): nat { if fs == [] then 0 else Size(fs[0]) + Span(fs[1..]) }

  /** Why the loop goes no further than `at`: the end, no buffer for a good frame, or no good frame. */
  ghost predicate Stops(starts: (nat, Frame) -> bool, at: nat, end: nat, alloc: nat -> bool, n: nat, status: Status) {
    match status
    case Ok => at == end
    case NoMemory => SomeStarts(starts, at) && !alloc(n)
    case Panicked => !SomeStarts(starts, at)
  }

  ghost predicate Explains(starts: (nat, Frame) -> bool, at: nat, end: nat, alloc: nat -> bool, n: nat, fs: seq<Frame>,
                           o: Outcome)
  {
    && Taken(starts, at, alloc, n, fs) && o.frames == Bodies(fs)
    && Stops(starts, at + Span(fs), end, alloc, n + |fs|, o.status)
    && (if fs == [] then o.status != Ok else at + Span(fs) == end ==> o.status == Ok)
  }

  /** The recogniser sees exactly the frames that are there. */
  ghost predicate Sees(look: nat -> View, starts: (nat, Frame) -> bool, end: nat) {
    && (forall at: nat :: at <= end ==> (look(at).Good? <==> SomeStarts(starts, at)))
    && (forall at: nat, f :: starts(at, f) ==>
      0 < Size(f) && at + Size(f) <= end && look(at) == Good(Size(f), f.body))
  }

  lemma LookSees(look: nat -> View, mem: seq<byte>, end: nat, m: Mode)
    requires Looks(look, mem, end, m)
    ensures Sees(look, Starts(mem, end, m), end)
  {
    var starts := Starts(mem, end, m);
    forall at: nat, f | starts(at, f)
      ensures 0 < Size(f) && at + Size(f) <= end && look(at) == Good(Size(f), f.body)
    {
      LookAtEncoded(look, mem, end, m, at, f);
    }
    forall at: nat | at <= end && look(at).Good? ensures SomeStarts(starts, at) {
      var f := FrameAt(look, mem, end, m, at);
      assert Ask(at);
      assert starts(at, f);
    }
  }

  lemma ExplainsCons(starts: (nat, Frame) -> bool, at: nat, end: nat, alloc: nat -> bool, n: nat, f: Frame,
                     rest: seq<Frame>, o: Outcome)
    requires starts(at, f) && alloc(n) && !SomeStarts(starts, end)
    ensures Explains(starts, at, end, alloc, n, [f] + rest, o) <==>
      if at + Size(f) == end then rest == [] && o == Outcome(Ok, [f.body])
      else
        && Explains(starts, at + Size(f), end, alloc, n + 1, rest, Outcome(o.status, Bodies(rest)))
        && o.frames == [f.body] + Bodies(rest)
  {
    assert ([f] + rest)[1..] == rest;
    assert Span([f] + rest) == Size(f) + Span(rest) && Bodies([f] + rest) == [f.body] + Bodies(rest);
    if at + Size(f) == end {
      if rest == [] {
        assert [f.body] + Bodies(rest) == [f.body];
        assert Taken(starts, at, alloc, n, [f] + rest);
        assert o == Outcome(Ok, [f.body]) <==> o.status == Ok && o.frames == [f.body];
      } else {
        assert !starts(end, rest[0]);
        assert !Taken(starts, at + Size(f), alloc, n + 1, rest);
      }
    }
  }

  lemma SplitNone(look: nat -> View, starts: (nat, Frame) -> bool, at: nat, end: nat, alloc: nat -> bool, n: nat,
                  o: Outcome)
    requires Sees(look, starts, end) && at <= end && !(SomeStarts(starts, at) && alloc(n))
    ensures Split(look, at, end, alloc, n) == o <==> Explains(starts, at, end, alloc, n, [], o)
  {
  }

  lemma {:induction false} ExplainedIsSplit(look: nat -> View, starts: (nat, Frame) -> bool, at: nat, end: nat,
                                            alloc: nat -> bool, n: nat, fs: seq<Frame>, o: Outcome)
    requires Sees(look, starts, end) && at <= end && Explains(starts, at, end, alloc, n, fs, o)
    ensures Split(look, at, end, alloc, n) == o
    decreases |fs|
  {
    if fs == [] {
      SplitNone(look, starts, at, end, alloc, n, o);
    } else {
      var f, rest := fs[0], fs[1..];
      assert fs == [f] + rest;
      SplitOne(look, at, end, alloc, n, Size(f), f.body);
      ExplainsCons(starts, at, end, alloc, n, f, rest, o);
      if at + Size(f) < end {
        ExplainedIsSplit(look, starts, at + Size(f), end, alloc, n + 1, rest, Outcome(o.status, Bodies(rest)));
      }
    }
  }

  lemma {:induction false} SplitIsExplained(look: nat -> View, starts: (nat, Frame) -> bool, at: nat, end: nat,
                                            alloc: nat -> bool, n: nat) returns (fs: seq<Frame>)
    requires Sees(look, starts, end) && at <= end
    ensures Explains(starts, at, end, alloc, n, fs, Split(look, at, end, alloc, n))
    decreases end - at
  {
    var o := Split(look, at, end, alloc, n);
    fs := [];
    if SomeStarts(starts, at) && alloc(n) {
      var f: Frame :| starts(at, f);
      SplitOne(look, at, end, alloc, n, Size(f), f.body);
      if at + Size(f) < end { fs := SplitIsExplained(look, starts, at + Size(f), end, alloc, n + 1); }
      ExplainsCons(starts, at, end, alloc, n, f, fs, o);
      fs := [f] + fs;
    } else {
      SplitNone(look, starts, at, end, alloc, n, o);
    }
  }

  /** Every outcome and why: the good frames from the start of the transfer, as far as there were buffers,
      are queued in order, bodies only; the loop ends well at the end of the transfer, without a
      word at a good frame it has no buffer for, and stops the card at anything else. */
  lemma AggregatedExactlyWhen(mem: seq<byte>, total: nat, m: Mode, alloc: nat -> bool, o: Outcome)
    requires Mapped(mem, 0, total)
    ensures Aggregated(mem, total, m, alloc) == o <==>
      exists fs :: Explains(Starts(mem, total, m), 0, total, alloc, 0, fs, o)
  {
    var look, starts := Recogniser(mem, total, m), Starts(mem, total, m);
    LookSees(look, mem, total, m);
    var found := SplitIsExplained(look, starts, 0, total, alloc, 0);
    forall fs | Explains(starts, 0, total, alloc, 0, fs, o) ensures Aggregated(mem, total, m, alloc) == o {
      ExplainedIsSplit(look, starts, 0, total, alloc, 0, fs, o);
    }
  }

  // ---- the unaggregated path ----

  /** The transfer begins with frame `f`, which fills it or leaves room for another header; QSPI flashing
      asks for nothing but the shape. */
  predicate BeginsWith(mem: seq<byte>, total: nat, m: Mode, f: Frame) {
    && Shaped(f) && (m.qspiFlashing || WellFormed(f, m))
    && (Size(f) == total || Size(f) + 20 <= total)
    && Holds(mem, 0, Encode(f))
  }

  lemma SingleOfEncoded(mem: seq<byte>, total: nat, m: Mode, f: Frame)
    requires Mapped(mem, 0, total) && BeginsWith(mem, total, m, f)
    ensures Single(mem, total, m) == Outcome(Ok, [f.body])
  {
    EncodedFrame(mem, 0, total, f, m);
  }

  lemma SingleIsEncoded(mem: seq<byte>, total: nat, m: Mode) returns (f: Frame)
    requires Mapped(mem, 0, total) && Single(mem, total, m) != Outcome(Panicked, [])
    ensures BeginsWith(mem, total, m, f) && Single(mem, total, m) == Outcome(Ok, [f.body])
  {
    f := Decode(mem, 0, total);
    DecodedIsWellFormed(mem, 0, total, m);
    EncodeOfDecoded(mem, 0, total);
  }

  /** In every mode: one frame comes out, without header and padding, if and only if the transfer begins
      with such a frame; in every other case the driver stops and nothing comes out. */
  lemma SingleExactlyWhen(mem: seq<byte>, total: nat, m: Mode, body: seq<byte>)
    requires Mapped(mem, 0, total)
    ensures Single(mem, total, m) == Outcome(Ok, [body]) <==> exists f :: BeginsWith(mem, total, m, f) && f.body == body
    ensures Single(mem, total, m) == Outcome(Panicked, []) <==> !exists f :: BeginsWith(mem, total, m, f)
  {
    forall f | BeginsWith(mem, total, m, f) ensures Single(mem, total, m) == Outcome(Ok, [f.body]) {
      SingleOfEncoded(mem, total, m, f);
    }
    if Single(mem, total, m) != Outcome(Panicked, []) {
      var f := SingleIsEncoded(mem, total, m);
    }
  }

  // ---- what the outcome depends on ----

  lemma OverhangIsBad(mem: seq<byte>, end: nat, m: Mode, at: nat)
    requires Mapped(mem, 0, end)
    requires
      || at + 4 + FRAME_DESC_SZ > end || Actual(mem, at) > end - at
      || Offset(mem, at) + FRAME_DESC_SZ > Actual(mem, at)
    ensures Recognize(mem, end, m, at) == Bad
  {
  }

  lemma SameHeader(m1: seq<byte>, m2: seq<byte>, end: nat, at: nat)
    requires Mapped(m1, 0, end) && Mapped(m2, 0, end) && m1[..end] == m2[..end] && at + 4 + FRAME_DESC_SZ <= end
    ensures Actual(m1, at) == Actual(m2, at) && Offset(m1, at) == Offset(m2, at)
  {
    SameBelow(m1, m2, end, at);
    SameBelow(m1, m2, end, at + 2);
  }

  lemma SameFields(m1: seq<byte>, m2: seq<byte>, end: nat, m: Mode, at: nat)
    requires Mapped(m1, 0, end) && Mapped(m2, 0, end) && m1[..end] == m2[..end] && at <= end
    requires Offset(m1, at) == Offset(m2, at) && at + Offset(m1, at) + FRAME_DESC_SZ <= end
    ensures Length(m1, at) == Length(m2, at) && Extended(m1, at, m) == Extended(m2, at, m)
  {
    SameBelow(m1, m2, end, at + Offset(m1, at));
    SameBelow(m1, m2, end, at + Offset(m1, at) + 4);
  }

  /** The descriptor offset is used before it is checked, yet no byte outside the transfer matters. */
  lemma RecognitionIsLocal(m1: seq<byte>, m2: seq<byte>, end: nat, m: Mode, at: nat)
    requires Mapped(m1, 0, end) && Mapped(m2, 0, end) && m1[..end] == m2[..end]
    ensures Recognize(m1, end, m, at) == Recognize(m2, end, m, at)
  {
    if at + 4 + FRAME_DESC_SZ > end {
      OverhangIsBad(m1, end, m, at);
      OverhangIsBad(m2, end, m, at);
    } else {
      SameHeader(m1, m2, end, at);
      var o, size := Offset(m1, at), Actual(m1, at);
      if o + FRAME_DESC_SZ <= size <= end - at {
        SameFields(m1, m2, end, m, at);
        var e := o + Length(m1, at) + FRAME_DESC_SZ;
        if at + e <= end { SameSlice(m1, m2, end, at + o, at + e); }
      } else {
        OverhangIsBad(m1, end, m, at);
        OverhangIsBad(m2, end, m, at);
      }
    }
  }

  lemma SameBelow(m1: seq<byte>, m2: seq<byte>, end: nat, at: nat)
    requires at + 2 <= end <= |m1| && end <= |m2| && m1[..end] == m2[..end]
    ensures m1[at] == m2[at] && U16(m1, at) == U16(m2, at)
  {
    assert m1[..end][at] == m1[at] && m2[..end][at] == m2[at];
    assert m1[..end][at + 1] == m1[at + 1] && m2[..end][at + 1] == m2[at + 1];
  }

  lemma SameSlice(m1: seq<byte>, m2: seq<byte>, end: nat, a: nat, b: nat)
    requires a <= b <= end <= |m1| && end <= |m2| && m1[..end] == m2[..end]
    ensures m1[a..b] == m2[a..b]
  {
    assert m1[..end][a..b] == m1[a..b] && m2[..end][a..b] == m2[a..b];
  }

  /** The driver's recogniser for one transfer. */
  ghost function Recogniser(mem: seq<byte>, end: nat, m: Mode): (look: nat -> View)
    requires Mapped(mem, 0, end)
    ensures Looks(look, mem, end, m)
  {
    (at: nat) => Recognize(mem, end, m, at)
  }

  /** What becomes of a whole aggregated transfer. */
  ghost function Aggregated(mem: seq<byte>, total: nat, m: Mode, alloc: nat -> bool): Outcome
    requires Mapped(mem, 0, total)
  {
    Split(Recogniser(mem, total, m), 0, total, alloc, 0)
  }

  lemma {:induction false} SplitIsLocal(l1: nat -> View, l2: nat -> View, at: nat, end: nat, alloc: nat -> bool, n: nat)
    requires at <= end && forall i :: at <= i <= end ==> l1(i) == l2(i)
    ensures Split(l1, at, end, alloc, n) == Split(l2, at, end, alloc, n)
    decreases end - at
  {
    var v := l1(at);
    if v.Good? && 0 < v.size < end - at { SplitIsLocal(l1, l2, at + v.size, end, alloc, n + 1); }
  }

  /** Two memories holding the same transfer give the same outcome, accepted or not. */
  lemma OutcomeIsLocal(m1: seq<byte>, m2: seq<byte>, total: nat, m: Mode, alloc: nat -> bool)
    requires Mapped(m1, 0, total) && Mapped(m2, 0, total) && m1[..total] == m2[..total]
    ensures Aggregated(m1, total, m, alloc) == Aggregated(m2, total, m, alloc)
  {
    var l1, l2 := Recogniser(m1, total, m), Recogniser(m2, total, m);
    forall i | 0 <= i <= total ensures l1(i) == l2(i) {
      assert Ask(i);
      RecognitionIsLocal(m1, m2, total, m, i);
    }
    SplitIsLocal(l1, l2, 0, total, alloc, 0);
  }

  lemma SuccessHasFrames(look: nat -> View, at: nat, end: nat, alloc: nat -> bool, n: nat)
    requires at <= end && Split(look, at, end, alloc, n).status == Ok
    ensures Split(look, at, end, alloc, n).frames != []
  {
  }

  /** Outside flashing, the aggregated and the unaggregated path agree - same verdict, same bytes -
      except exactly when a valid first frame leaves part of the transfer over. */
  lemma PathsAgreeExactlyWhen(mem: seq<byte>, total: nat, m: Mode, alloc: nat -> bool)
    requires Mapped(mem, 0, total) && !m.qspiFlashing && AllocOk(alloc)
    ensures Aggregated(mem, total, m, alloc) == Single(mem, total, m) <==>
      !(Consistent(mem, 0, total) && Acceptable(mem, 0, m) && Actual(mem, 0) < total)
  {
    var look := Recogniser(mem, total, m);
    assert Ask(0);
    if look(0).Good? && look(0).size < total {
      var rest := Split(look, look(0).size, total, alloc, 1);
      if rest.status == Ok { SuccessHasFrames(look, look(0).size, total, alloc, 1); }
    }
  }

  // ---- the receive path in place ----

  /** The flags panic_stop_all_activites changes. */
  datatype Card = Card(ready: bool, stopWrite: nat, detached: bool, firmwareUp: seq<bool>)

  const STOPPED := Card(false, 2, true, [false, false, false])

  class RxPath {
    var deferred: seq<seq<byte>>
    var card: Card

    method PanicStop()
      modifies this`card
      ensures card == STOPPED
    {
      card := card.(ready := false);
      card := card.(stopWrite := 2);
      card := card.(detached := true);
      card := card.(firmwareUp := [false, false, false]);
    }

    /** The checks of one frame, in the order of the code. */
    method CheckFrame(mem: seq<byte>, at: nat, left: nat, m: Mode) returns (v: View)
      requires Mapped(mem, at, left)
      ensures v == Recognize(mem, at + left, m, at)
    {
      var actual, offset := U16(mem, at), U16(mem, at + 2);
      if actual < 4 + FRAME_DESC_SZ || offset < 4 { return Bad; }
      if !(actual == left || actual + 4 + FRAME_DESC_SZ <= left) { return Bad; }
      var length := U16(mem, at + offset) % 4096;
      var extended := if m.wlanPacket then mem[at + offset + 4] else 0;
      UnitedIsPadded(offset + length + FRAME_DESC_SZ, actual);
      if actual != United(offset + length + FRAME_DESC_SZ) { return Bad; }
      if extended > length { return Bad; }
      if m.wifiMode && !m.flashingOn {
        if length > COMMON_PKT_LENGTH { return Bad; }
      } else if length > MAX_SNIFFER_MODE_PKT_LEN {
        return Bad;
      }
      return Good(actual, mem[at + offset..at + offset + length + FRAME_DESC_SZ]);
    }

    /** One frame of the aggregation loop, in the loop's own terms. */
    method NextFrame(mem: seq<byte>, at: nat, left: nat, m: Mode, ghost look: nat -> View) returns (v: View)
      requires Looks(look, mem, at + left, m)
      ensures v == look(at) && (v.Good? ==> 0 < v.size <= left)
    {
      assert Ask(at);
      v := CheckFrame(mem, at, left, m);
    }

    /** The loop of process_lmac_aggregated_pkt: the remaining length reaches exactly zero, or the
        loop stops early. */
    method SplitTransfer(mem: seq<byte>, pktLen: nat, m: Mode, alloc: nat -> bool, ghost look: nat -> View)
      returns (status: Status)
      requires Looks(look, mem, pktLen, m)
      modifies this
      ensures Split(look, 0, pktLen, alloc, 0).status == status
      ensures deferred == old(deferred) + Split(look, 0, pktLen, alloc, 0).frames
      ensures card == if status == Panicked then STOPPED else old(card)
    {
      ghost var goal, queued := Split(look, 0, pktLen, alloc, 0), [];
      var index: nat, left: nat, n: nat := 0, pktLen, 0;
      while true
        invariant index + left == pktLen && card == old(card) && deferred == old(deferred) + queued
        invariant OnCourse(goal, queued, look, index, pktLen, alloc, n)
        decreases left
      {
        var v := NextFrame(mem, index, left, m, look);
        if v.Bad? {
          PanicStop();
          return Panicked;
        }
        if !alloc(n) { return NoMemory; }
        StayOnCourse(goal, queued, look, index, pktLen, alloc, n, v.size, v.body);
        deferred := deferred + [v.body];
        queued := queued + [v.body];
        index, left, n := index + v.size, left - v.size, n + 1;
        if left == 0 { break; }
      }
      return Ok;
    }

    /** process_lmac_aggregated_pkt */
    method ProcessAggregated(mem: seq<byte>, pktLen: nat, m: Mode, alloc: nat -> bool) returns (status: Status)
      requires Mapped(mem, 0, pktLen)
      modifies this
      ensures status == Aggregated(mem, pktLen, m, alloc).status
      ensures deferred == old(deferred) + Aggregated(mem, pktLen, m, alloc).frames
      ensures card == if status == Panicked then STOPPED else old(card)
    {
      status := SplitTransfer(mem, pktLen, m, alloc, Recogniser(mem, pktLen, m));
    }

    /** process_unaggregated_pkt: trim the buffer to its one frame and queue it. */
    method ProcessUnaggregated(mem: seq<byte>, total: nat, m: Mode) returns (status: Status)
      requires Mapped(mem, 0, total)
      modifies this
      ensures status == Single(mem, total, m).status
      ensures deferred == old(deferred) + Single(mem, total, m).frames
      ensures card == if status == Panicked then STOPPED else old(card)
    {
      var v := CheckFrame(mem, 0, total, if m.qspiFlashing then UNLIMITED else m);
      if v.Bad? {
        PanicStop();
        return Panicked;
      }
      deferred := deferred + [v.body];
      return Ok;
    }
  }

  /** QSPI flashing skips check 5 and the limits; a 12-bit length never exceeds the wide limit. */
  const UNLIMITED := Mode(false, false, true, true)
}
