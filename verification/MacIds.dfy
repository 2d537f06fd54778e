/** The production tool that hands out hardware addresses: the file that remembers the next free ids,
    its round trip, and which ids two boards of a production run can share. */
module MacIds {
  import opened Basics
  import opened Bytes

  const THREE_BYTES: int := 0x100_0000

  /** A C int. */
  type i32 = n: int | -0x8000_0000 <= n < 0x8000_0000

  function Bits(n: i32): (b: nat)
    ensures b < 0x1_0000_0000
  {
    if n < 0 then n + WRAP32 else n
  }

  function FromBits(b: nat): i32 {
    var w := b % WRAP32;
    if w < 0x8000_0000 then w else w - WRAP32
  }

  datatype Ids = Ids(wlan: i32, zigbee: i32, bt: i32)

  // ---- hexadecimal ----

  function Digit(d: nat): (c: char)
    requires d < 16
    ensures IsHex(c) && HexValue(c) == d
  {
    if d < 10 then '0' + d as char else 'a' + (d - 10) as char
  }

  predicate IsHex(c: char) { '0' <= c <= '9' || 'a' <= c <= 'f' || 'A' <= c <= 'F' }

  function HexValue(c: char): (d: nat)
    requires IsHex(c)
    ensures d < 16
  {
    if c <= '9' then c as int - '0' as int
    else if c <= 'F' then c as int - 'A' as int + 10
    else c as int - 'a' as int + 10
  }

  /** "%x" */
  function Hex(n: nat): (s: string)
    ensures |s| > 0 && forall i :: 0 <= i < |s| ==> IsHex(s[i])
    ensures forall i :: 0 <= i < |s| ==> !IsSpace(s[i])
  {
    if n < 16 then [Digit(n)] else Hex(n / 16) + [Digit(n % 16)]
  }

  /** Reading "%x": the leading hexadecimal digits, after `acc`. */
  function ParseHex(s: string, acc: nat): nat {
    if s != [] && IsHex(s[0]) then ParseHex(s[1..], 16 * acc + HexValue(s[0])) else acc
  }

  lemma {:induction false} ParseSnoc(s: string, c: char, acc: nat)
    requires IsHex(c) && forall i :: 0 <= i < |s| ==> IsHex(s[i])
    ensures ParseHex(s + [c], acc) == 16 * ParseHex(s, acc) + HexValue(c)
    decreases |s|
  {
    if s == [] {
      assert s + [c] == [c];
      assert ParseHex([c][1..], 16 * acc + HexValue(c)) == 16 * acc + HexValue(c);
    } else {
      assert (s + [c])[1..] == s[1..] + [c];
      ParseSnoc(s[1..], c, 16 * acc + HexValue(s[0]));
    }
  }

  lemma {:induction false} HexRoundTrip(n: nat)
    ensures ParseHex(Hex(n), 0) == n
    decreases n
  {
    ghost var zero := 0;
    if n < 16 {
      ParseSnoc([], Digit(n), zero);
      assert [] + [Digit(n)] == Hex(n);
    } else {
      HexRoundTrip(n / 16);
      ParseSnoc(Hex(n / 16), Digit(n % 16), zero);
    }
  }

  /** The same digits in capitals. */
  function Capitals(s: string): (r: string)
    ensures |r| == |s|
  {
    if s == [] then [] else [if 'a' <= s[0] <= 'f' then s[0] - 32 as char else s[0]] + Capitals(s[1..])
  }

  lemma {:induction false} CapitalsParse(s: string, acc: nat)
    requires forall i :: 0 <= i < |s| ==> IsHex(s[i])
    ensures ParseHex(Capitals(s), acc) == ParseHex(s, acc)
    decreases |s|
  {
    if s != [] {
      var c := Capitals(s)[0];
      assert Capitals(s)[1..] == Capitals(s[1..]);
      assert IsHex(c) && HexValue(c) == HexValue(s[0]);
      CapitalsParse(s[1..], 16 * acc + HexValue(s[0]));
    }
  }

  /** ... so a number written in capitals is read as well. */
  lemma CapitalsRoundTrip(n: nat)
    ensures ParseHex(Capitals(Hex(n)), 0) == n
  {
    HexRoundTrip(n);
    CapitalsParse(Hex(n), 0);
  }

  // ---- tokens ----

  /** Space, tab, line feed, vertical tab, form feed and carriage return. */
  predicate IsSpace(c: char): (r: bool)
    ensures r <==> c as int in {32, 9, 10, 11, 12, 13}
  {
    c == ' ' || '\t' <= c <= '\r'
  }

  /** The length of the leading word. */
  function WordLen(s: string): (n: nat)
    ensures n <= |s| && (n < |s| ==> IsSpace(s[n])) && forall i :: 0 <= i < n ==> !IsSpace(s[i])
  {
    if s == [] || IsSpace(s[0]) then 0 else 1 + WordLen(s[1..])
  }

  /** What successive "%s" reads yield. */
  function Tokens(s: string): seq<string>
    decreases |s|
  {
    if s == [] then []
    else if IsSpace(s[0]) then Tokens(s[1..])
    else [s[..WordLen(s)]] + Tokens(s[WordLen(s)..])
  }

  predicate Occurs(t: string, key: string, i: nat) { i + |key| <= |t| && t[i..i + |key|] == key }

  /** strstr from position `i` on. */
  function Find(t: string, key: string, i: nat): (r: Option<nat>)
    requires i <= |t|
    ensures r.Some? ==> i <= r.value && r.value + |key| <= |t|
    decreases |t| - i
  {
    if Occurs(t, key, i) then Some(i) else if i < |t| then Find(t, key, i + 1) else None
  }

  lemma {:induction false} FindsFirst(t: string, key: string, i: nat)
    requires i <= |t|
    ensures var r := Find(t, key, i);
      if r == None then forall j :: i <= j <= |t| ==> !Occurs(t, key, j)
      else Occurs(t, key, r.value) && forall j :: i <= j < r.value ==> !Occurs(t, key, j)
    decreases |t| - i
  {
    if !Occurs(t, key, i) && i < |t| { FindsFirst(t, key, i + 1); }
  }

  predicate Comment(t: string) { |t| >= 2 && t[0] == '/' && t[1] == '/' }

  /** What follows the key and one more character. */
  function ValueIn(t: string, key: string): Option<string> {
    var at := Find(t, key, 0);
    if at == None || Comment(t) then None
    else if at.value + |key| < |t| then Some(t[at.value + |key| + 1..]) else Some("")
  }

  /** The value in the first token that has the key. */
  function Lookup(ts: seq<string>, key: string): Option<string> {
    if ts == [] then None
    else if ValueIn(ts[0], key).Some? then ValueIn(ts[0], key)
    else Lookup(ts[1..], key)
  }

  // ---- what a lookup finds, in terms of the file ----

  /** `s[i..j]` is a word: no white space inside, white space or an end of the file on both sides. */
  predicate IsWord(s: string, i: nat, j: nat) {
    && i < j <= |s| && (forall k :: i <= k < j ==> !IsSpace(s[k]))
    && (i == 0 || IsSpace(s[i - 1])) && (j == |s| || IsSpace(s[j]))
  }

  predicate KeyAt(s: string, key: string, k: nat, j: nat) { k + |key| <= j <= |s| && s[k..k + |key|] == key }

  /** A word with the key at `k` that does not begin with two slashes. */
  predicate Setting(s: string, key: string, i: nat, j: nat, k: nat) {
    IsWord(s, i, j) && !(i + 2 <= j && s[i] == s[i + 1] == '/') && i <= k && KeyAt(s, key, k, j)
  }

  ghost predicate NoSetting(s: string, key: string, from: nat, to: nat) {
    forall i: nat, j: nat, k: nat :: from <= i < to ==> !Setting(s, key, i, j, k)
  }

  /** ... and not before `k`. */
  predicate FirstInWord(s: string, key: string, i: nat, j: nat, k: nat) {
    Setting(s, key, i, j, k) && forall m :: i <= m < k ==> !KeyAt(s, key, m, j)
  }

  /** What follows a key at `k`, and one more character, up to the end of the word. */
  function Behind(s: string, key: string, j: nat, k: nat): string
    requires j <= |s|
  {
    if k + |key| < j then s[k + |key| + 1..j] else ""
  }

  /** `r` is what follows the key in the first such word from `pos` on, or none if there is no such word. */
  ghost predicate FirstValue(s: string, key: string, pos: nat, r: Option<string>) {
    match r
    case None => NoSetting(s, key, pos, |s|)
    case Some(v) => exists i: nat, j: nat, k: nat ::
      pos <= i && FirstInWord(s, key, i, j, k) && NoSetting(s, key, pos, i) && v == Behind(s, key, j, k)
  }

  lemma OccursInside(s: string, key: string, i: nat, j: nat, k: nat)
    requires i <= k <= j <= |s|
    ensures Occurs(s[i..j], key, k - i) <==> KeyAt(s, key, k, j)
  {
    if k + |key| <= j {
      var a, b := s[i..j][k - i..k - i + |key|], s[k..k + |key|];
      assert |a| == |b| && forall m :: 0 <= m < |a| ==> a[m] == s[i..j][k - i + m] == b[m];
    }
  }

  /** The key is where strstr finds it in the word. */
  lemma FindInWord(s: string, key: string, i: nat, j: nat)
    requires i <= j <= |s|
    ensures var at := Find(s[i..j], key, 0);
      if at == None then forall k :: i <= k <= j ==> !KeyAt(s, key, k, j)
      else KeyAt(s, key, i + at.value, j) && forall k :: i <= k < i + at.value ==> !KeyAt(s, key, k, j)
  {
    FindsFirst(s[i..j], key, 0);
    forall k | i <= k <= j ensures Occurs(s[i..j], key, k - i) <==> KeyAt(s, key, k, j) {
      OccursInside(s, key, i, j, k);
    }
  }

  lemma CommentInWord(s: string, i: nat, j: nat)
    requires i <= j <= |s|
    ensures Comment(s[i..j]) <==> i + 2 <= j && s[i] == s[i + 1] == '/'
  {
  }

  lemma ValueInWord(s: string, key: string, i: nat, j: nat) returns (k: nat)
    requires IsWord(s, i, j)
    ensures var v := ValueIn(s[i..j], key);
      if v.Some? then FirstInWord(s, key, i, j, k) && v.value == Behind(s, key, j, k)
      else forall m: nat :: !Setting(s, key, i, j, m)
  {
    var t := s[i..j];
    var at := Find(t, key, 0);
    CommentInWord(s, i, j);
    FindInWord(s, key, i, j);
    k := if at.Some? then i + at.value else 0;
    if at.Some? && k + |key| < j { assert t[k - i + |key| + 1..] == s[k + |key| + 1..j]; }
  }

  lemma FirstValueSkips(s: string, key: string, pos: nat, n: nat, r: Option<string>)
    requires FirstValue(s, key, n, r) && pos <= n && NoSetting(s, key, pos, n)
    ensures FirstValue(s, key, pos, r)
  {
    if r.Some? {
      var i: nat, j: nat, k: nat :|
        n <= i && FirstInWord(s, key, i, j, k) && NoSetting(s, key, n, i) && r.value == Behind(s, key, j, k);
      assert NoSetting(s, key, pos, i);
    }
  }

  /** A word begins at `pos`, and it is the only one that does until it ends. */
  lemma OneWord(s: string, pos: nat, n: nat)
    requires IsWord(s, pos, n)
    ensures forall i: nat, j: nat :: pos <= i < n && IsWord(s, i, j) ==> i == pos && j == n
  {
  }

  lemma FirstOfWord(s: string, key: string, pos: nat, n: nat, later: Option<string>)
    requires IsWord(s, pos, n) && FirstValue(s, key, n, later)
    ensures FirstValue(s, key, pos, if ValueIn(s[pos..n], key).Some? then ValueIn(s[pos..n], key) else later)
  {
    var k := ValueInWord(s, key, pos, n);
    if ValueIn(s[pos..n], key).Some? {
      assert NoSetting(s, key, pos, pos);
    } else {
      OneWord(s, pos, n);
      FirstValueSkips(s, key, pos, n, later);
    }
  }

  lemma SpaceSkipped(s: string, key: string, pos: nat, later: Option<string>)
    requires pos < |s| && IsSpace(s[pos]) && FirstValue(s, key, pos + 1, later)
    ensures Tokens(s[pos..]) == Tokens(s[pos + 1..]) && FirstValue(s, key, pos, later)
  {
    assert s[pos..][1..] == s[pos + 1..];
    assert NoSetting(s, key, pos, pos + 1);
    FirstValueSkips(s, key, pos, pos + 1, later);
  }

  /** The tokens from the start of a word on. */
  lemma TokensFrom(s: string, pos: nat) returns (n: nat)
    requires pos < |s| && !IsSpace(s[pos]) && (pos == 0 || IsSpace(s[pos - 1]))
    ensures IsWord(s, pos, n) && Tokens(s[pos..]) == [s[pos..n]] + Tokens(s[n..])
  {
    var rest := s[pos..];
    n := pos + WordLen(rest);
    assert forall k :: pos <= k < n ==> s[k] == rest[k - pos];
    assert n < |s| ==> s[n] == rest[n - pos];
    assert rest[..WordLen(rest)] == s[pos..n] && rest[WordLen(rest)..] == s[n..];
  }

  lemma {:induction false} LookupIsFirst(s: string, key: string, pos: nat)
    requires pos <= |s| && (pos == 0 || pos == |s| || IsSpace(s[pos - 1]) || IsSpace(s[pos]))
    ensures FirstValue(s, key, pos, Lookup(Tokens(s[pos..]), key))
    decreases |s| - pos
  {
    if pos < |s| {
      if IsSpace(s[pos]) {
        LookupIsFirst(s, key, pos + 1);
        SpaceSkipped(s, key, pos, Lookup(Tokens(s[pos + 1..]), key));
      } else {
        var n := TokensFrom(s, pos);
        LookupIsFirst(s, key, n);
        LookupStep(s[pos..n], Tokens(s[n..]), key);
        FirstOfWord(s, key, pos, n, Lookup(Tokens(s[n..]), key));
      }
    }
  }

  /** rsi_get_token */
  method GetToken(file: string, key: string) returns (r: Option<string>)
    ensures r == Lookup(Tokens(file), key) && FirstValue(file, key, 0, r)
  {
    assert file[0..] == file;
    LookupIsFirst(file, key, 0);
    var rest := file;
    while rest != []
      invariant Lookup(Tokens(rest), key) == Lookup(Tokens(file), key)
      decreases |rest|
    {
      if IsSpace(rest[0]) {
        rest := rest[1..];
      } else {
        var n := WordLen(rest);
        var word := rest[..n];
        assert Tokens(rest) == [word] + Tokens(rest[n..]);
        assert Tokens(rest)[1..] == Tokens(rest[n..]);
        r := ValueIn(word, key);
        if r.Some? { return; }
        rest := rest[n..];
      }
    }
    r := None;
  }

  // ---- the file of last ids ----

  const WLAN_KEY := "RSI_LAST_WLAN_MAC_ID"
  const ZIGBEE_KEY := "RSI_LAST_ZIGBEE_MAC_ID"
  const BT_KEY := "RSI_LAST_BT_MAC_ID"

  function Line(key: string, id: i32): string { key + "=" + Hex(Bits(id)) }

  /** rsi_save_mac */
  function Save(ids: Ids): string {
    Line(WLAN_KEY, ids.wlan) + "\n" + (Line(ZIGBEE_KEY, ids.zigbee) + "\n" + (Line(BT_KEY, ids.bt) + "\n"))
  }

  /** The ids part of rsi_read_config; a value without a digit leaves the zero the program starts with. */
  function Read(file: string): Option<Ids> {
    var w, b, z := Lookup(Tokens(file), WLAN_KEY), Lookup(Tokens(file), BT_KEY), Lookup(Tokens(file), ZIGBEE_KEY);
    if w == None || b == None || z == None then None
    else Some(Ids(FromBits(ParseHex(w.value, 0)), FromBits(ParseHex(z.value, 0)), FromBits(ParseHex(b.value, 0))))
  }

  lemma {:induction false} WordLenOf(w: string, rest: string)
    requires rest != [] && IsSpace(rest[0]) && forall i :: 0 <= i < |w| ==> !IsSpace(w[i])
    ensures WordLen(w + rest) == |w|
    decreases |w|
  {
    if w != [] {
      assert (w + rest)[1..] == w[1..] + rest;
      WordLenOf(w[1..], rest);
    } else {
      assert w + rest == rest;
    }
  }

  lemma TokensOfLine(w: string, rest: string)
    requires w != [] && forall i :: 0 <= i < |w| ==> !IsSpace(w[i])
    ensures Tokens(w + "\n" + rest) == [w] + Tokens(rest)
  {
    var s, tail := w + "\n" + rest, "\n" + rest;
    assert s == w + tail;
    WordLenOf(w, tail);
    assert s[..|w|] == w && s[|w|..] == tail && tail[1..] == rest;
  }

  lemma {:induction false} KeyShapes()
    ensures |WLAN_KEY| == 20 && |ZIGBEE_KEY| == 22 && |BT_KEY| == 18
    ensures WLAN_KEY[9] == 'W' && ZIGBEE_KEY[9] == 'Z' && BT_KEY[9] == 'B'
    ensures Name(WLAN_KEY) && Name(ZIGBEE_KEY) && Name(BT_KEY)
  {
  }

  /** A key: it starts with R, has no other R and no space. */
  predicate Name(key: string) {
    && |key| > 9 && key[0] == 'R'
    && forall i :: 0 <= i < |key| ==> !IsSpace(key[i]) && (i > 0 ==> key[i] != 'R')
  }

  lemma LineShape(key: string, id: i32)
    requires Name(key)
    ensures Name(Line(key, id)) && Line(key, id)[..|key|] == key && Line(key, id)[|key| + 1..] == Hex(Bits(id))
    ensures |Line(key, id)| > |key|
  {
    var t, h := Line(key, id), Hex(Bits(id));
    forall i | 0 <= i < |t| ensures !IsSpace(t[i]) && (i > 0 ==> t[i] != 'R') {
      if i > |key| { assert t[i] == h[i - |key| - 1]; }
    }
  }

  /** A line yields its own value ... */
  lemma OwnValue(key: string, id: i32)
    requires Name(key)
    ensures ValueIn(Line(key, id), key) == Some(Hex(Bits(id)))
  {
    var t := Line(key, id);
    LineShape(key, id);
    assert t[0..0 + |key|] == key;
    assert Occurs(t, key, 0) && Find(t, key, 0) == Some(0);
  }

  /** ... and no other key's. */
  lemma NoOtherValue(key: string, id: i32, other: string)
    requires Name(key) && Name(other) && key[9] != other[9]
    ensures ValueIn(Line(key, id), other) == None
  {
    var t := Line(key, id);
    LineShape(key, id);
    assert t[9] == t[..|key|][9];
    forall j: nat | j <= |t| ensures !Occurs(t, other, j) {
      if j + |other| <= |t| {
        var piece := t[j..j + |other|];
        assert piece[0] == t[j] && piece[9] == t[j + 9];
      }
    }
    FindsFirst(t, other, 0);
  }

  lemma LookupStep(t: string, ts: seq<string>, key: string)
    ensures Lookup([t] + ts, key) == if ValueIn(t, key).Some? then ValueIn(t, key) else Lookup(ts, key)
  {
    assert ([t] + ts)[1..] == ts;
  }

  lemma SavedTokens(ids: Ids)
    ensures Tokens(Save(ids)) ==
      [Line(WLAN_KEY, ids.wlan)] + ([Line(ZIGBEE_KEY, ids.zigbee)] + ([Line(BT_KEY, ids.bt)] + []))
  {
    KeyShapes();
    LineShape(WLAN_KEY, ids.wlan);
    LineShape(ZIGBEE_KEY, ids.zigbee);
    LineShape(BT_KEY, ids.bt);
    var c := Line(BT_KEY, ids.bt) + "\n";
    assert c + [] == c;
    TokensOfLine(Line(BT_KEY, ids.bt), []);
    TokensOfLine(Line(ZIGBEE_KEY, ids.zigbee), c);
    TokensOfLine(Line(WLAN_KEY, ids.wlan), Line(ZIGBEE_KEY, ids.zigbee) + "\n" + c);
  }

  lemma IdRoundTrip(id: i32)
    ensures FromBits(ParseHex(Hex(Bits(id)), 0)) == id
  {
    HexRoundTrip(Bits(id));
  }

  /** Whatever the three ids are, the file read back gives them again. */
  lemma SaveRoundTrip(ids: Ids)
    ensures Read(Save(ids)) == Some(ids)
  {
    var w, z, b := Line(WLAN_KEY, ids.wlan), Line(ZIGBEE_KEY, ids.zigbee), Line(BT_KEY, ids.bt);
    KeyShapes();
    SavedTokens(ids);
    forall key | key in {WLAN_KEY, ZIGBEE_KEY, BT_KEY}
      ensures Lookup([w] + ([z] + ([b] + [])), key) ==
        if ValueIn(w, key).Some? then ValueIn(w, key)
        else if ValueIn(z, key).Some? then ValueIn(z, key) else ValueIn(b, key)
    {
      LookupStep(w, [z] + ([b] + []), key);
      LookupStep(z, [b] + [], key);
      LookupStep(b, [], key);
    }
    OwnValue(WLAN_KEY, ids.wlan);
    OwnValue(ZIGBEE_KEY, ids.zigbee);
    OwnValue(BT_KEY, ids.bt);
    NoOtherValue(WLAN_KEY, ids.wlan, ZIGBEE_KEY);
    NoOtherValue(WLAN_KEY, ids.wlan, BT_KEY);
    NoOtherValue(ZIGBEE_KEY, ids.zigbee, BT_KEY);
    IdRoundTrip(ids.wlan);
    IdRoundTrip(ids.zigbee);
    IdRoundTrip(ids.bt);
  }

  // ---- boards ----

  datatype Ranges = Ranges(wlanFirst: i32, wlanEnd: i32, wlanCount: i32,
                           zigbeeFirst: i32, zigbeeLast: i32, btFirst: i32, btLast: i32)

  predicate InRange(ids: Ids, r: Ranges) {
    && r.wlanFirst <= ids.wlan && ids.wlan + r.wlanCount <= r.wlanEnd && ids.wlan % 4 == 0
    && r.zigbeeFirst <= ids.zigbee <= r.zigbeeLast
    && r.btFirst <= ids.bt <= r.btLast
  }

  /** The last three bytes of each address of a board. */
  datatype Board = Board(wlan: seq<byte>, bt: seq<byte>, zigbee: seq<byte>)

  function ByteOf(n: i32, k: nat): byte
    requires k < 4
  {
    var b := Bits(n);
    (if k == 0 then b else if k == 1 then b / 0x100 else if k == 2 then b / 0x1_0000 else b / 0x100_0000) % 256
  }

  function BigEndian(n: i32): seq<byte> { [ByteOf(n, 2), ByteOf(n, 1), ByteOf(n, 0)] }

  function Value(bs: seq<byte>): int
    requires |bs| == 3
  {
    0x1_0000 * (bs[0] as int) + 0x100 * (bs[1] as int) + bs[2] as int
  }

  /** rsi_copy_mac_info, with its loop that tests after the copy. */
  method CopyMacInfo(n: i32, bytes: nat) returns (mac: seq<byte>)
    requires 0 < bytes <= 4
    ensures |mac| == bytes && forall i :: 0 <= i < bytes ==> mac[i] == ByteOf(n, bytes - 1 - i)
  {
    mac := [];
    var k := bytes;
    while k > 0
      invariant 0 <= k <= bytes && |mac| == bytes - k
      invariant forall i :: 0 <= i < |mac| ==> mac[i] == ByteOf(n, bytes - 1 - i)
    {
      k := k - 1;
      mac := mac + [ByteOf(n, k)];
    }
  }

  /** Three bytes are the whole of an id below 2^24. */
  lemma ThreeBytesSuffice(n: i32)
    requires 0 <= n < THREE_BYTES
    ensures Value(BigEndian(n)) == n
  {
    var b: nat := n;
    assert b % 256 + 0x100 * (b / 0x100 % 256) + 0x1_0000 * (b / 0x1_0000 % 256) == b by {
      var q := b / 0x100;
      assert q / 0x100 == b / 0x1_0000;
      assert b / 0x1_0000 < 256;
    }
  }

  /** All four bytes are the whole of any id. */
  lemma FourBytesAreAll(n: i32)
    ensures Bits(n) == ByteOf(n, 0) as int + 0x100 * ByteOf(n, 1) as int + 0x1_0000 * ByteOf(n, 2) as int
      + 0x100_0000 * ByteOf(n, 3) as int
  {
    var b := Bits(n);
    var q, r, t := b / 0x100, b / 0x1_0000, b / 0x100_0000;
    assert q / 0x100 == r && r / 0x100 == t && t < 256;
    assert b == 0x100 * q + b % 256 && q == 0x100 * r + q % 256 && r == 0x100 * t + r % 256;
  }

  function BoardOf(ids: Ids): Board { Board(BigEndian(ids.wlan), BigEndian(ids.bt), BigEndian(ids.zigbee)) }

  function Plus(n: i32, d: nat): i32
    requires d <= 4
  {
    if n + d < 0x8000_0000 then n + d else n + d - WRAP32
  }

  function Advance(ids: Ids): Ids { Ids(Plus(ids.wlan, 4), Plus(ids.zigbee, 1), Plus(ids.bt, 1)) }

  /** The tool and the file it keeps between its runs. */
  class Station {
    var file: Option<string>
    const ranges: Ranges

    function Stored(): Option<Ids>
      reads this
    {
      if file == None then None else Read(file.value)
    }

    method ReadIds() returns (r: Option<Ids>)
      ensures r == Stored()
    {
      if file == None { return None; }
      var w := GetToken(file.value, WLAN_KEY);
      if w == None { return None; }
      var b := GetToken(file.value, BT_KEY);
      if b == None { return None; }
      var z := GetToken(file.value, ZIGBEE_KEY);
      if z == None { return None; }
      r := Some(Ids(FromBits(ParseHex(w.value, 0)), FromBits(ParseHex(z.value, 0)), FromBits(ParseHex(b.value, 0))));
    }

    /** The run that prepares a board's flash values.  It advances the ids in memory only. */
    method Prepare() returns (r: Option<Board>)
      ensures r.Some? <==> Stored().Some? && InRange(Stored().value, ranges)
      ensures r.Some? ==> r.value == BoardOf(Stored().value)
    {
      var ids := ReadIds();
      if ids == None || !InRange(ids.value, ranges) { return None; }
      var wlan := CopyMacInfo(ids.value.wlan, 3);
      var bt := CopyMacInfo(ids.value.bt, 3);
      var zigbee := CopyMacInfo(ids.value.zigbee, 3);
      assert wlan == BigEndian(ids.value.wlan) && bt == BigEndian(ids.value.bt);
      assert zigbee == BigEndian(ids.value.zigbee);
      r := Some(Board(wlan, bt, zigbee));
    }

    /** The run after a verified burn: the file now holds the next ids, if it can be created. */
    method Commit(creates: bool) returns (ok: bool)
      modifies this`file
      ensures ok <==> creates && old(Stored()).Some?
      ensures ok ==> Stored() == Some(Advance(old(Stored()).value))
      ensures !ok ==> file == old(file)
    {
      var ids := ReadIds();
      if ids == None { return false; }
      if !creates { return false; }
      file := Some(Save(Advance(ids.value)));
      SaveRoundTrip(Advance(ids.value));
      ok := true;
    }

    /** One call of the tool. */
    method Call(op: Op, commits: nat) returns (made: seq<Entry>, next: nat)
      modifies this`file
      ensures old(Stored()) == None ==> Stored() == None && made == []
      ensures old(Stored()).Some? ==>
        Stored().Some? && (Stored().value, made, next) == Called(old(Stored()).value, ranges, op, commits)
    {
      made, next := [], commits;
      if op.Prepared? {
        var r := Prepare();
        if r.Some? { made := [Entry(commits, r.value)]; }
      } else {
        var ok := Commit(op.creates);
        if ok { next := commits + 1; }
      }
    }

    /** Calls of the tool one after the other, its memory the file alone. */
    method CallAll(ops: seq<Op>, before: nat) returns (es: seq<Entry>)
      modifies this`file
      ensures old(Stored()) == None ==> es == []
      ensures old(Stored()).Some? ==> es == Boards(old(Stored()).value, ranges, ops, before)
    {
      es := [];
      var k, commits := 0, before;
      ghost var was, ids := Stored(), Stored();
      ghost var goal := if was.Some? then Boards(was.value, ranges, ops, before) else [];
      assert ops[k..] == ops && es + goal == goal;
      while k < |ops|
        invariant 0 <= k <= |ops| && Stored() == ids && (ids.Some? <==> was.Some?)
        invariant was == None ==> es == []
        invariant was.Some? ==> es + Boards(ids.value, ranges, ops[k..], commits) == goal
      {
        if was.Some? { BoardsStep(es, ids.value, ranges, ops, k, commits); }
        var made;
        made, commits := Call(ops[k], commits);
        es, k, ids := es + made, k + 1, Stored();
      }
      assert es + [] == es;
    }

    /** A production run. */
    method Produce(ops: seq<Op>) returns (es: seq<Entry>)
      modifies this`file
      ensures old(Stored()) == None ==> es == []
      ensures old(Stored()).Some? ==> es == Boards(old(Stored()).value, ranges, ops, 0)
      ensures old(Stored()).Some? && Short(old(Stored()).value, |ops|) ==>
        es == BoardsMade(old(Stored()).value, ranges, ops, |ops|)
      ensures old(Stored()).Some? && Sound(ranges) && Short(old(Stored()).value, |ops|) ==>
        SharingIsByCommit(es, ranges)
    {
      ghost var was := Stored();
      es := CallAll(ops, 0);
      if was.Some? && Short(was.value, |ops|) { BoardsAreMade(was.value, ranges, ops); }
      if was.Some? && Sound(ranges) && Short(was.value, |ops|) { AllShareExactlyWhen(was.value, ranges, ops, es); }
    }
  }

  // ---- production runs ----

  /** A call of the tool; `creates` tells whether a commit can write its file. */
  datatype Op = Prepared | Committed(creates: bool)

  datatype Entry = Entry(commits: nat, board: Board)

  /** What one call makes of ids and commits, and the board it prepares, if any. */
  function Called(ids: Ids, r: Ranges, op: Op, commits: nat): (Ids, seq<Entry>, nat) {
    if op.Prepared? then (ids, if InRange(ids, r) then [Entry(commits, BoardOf(ids))] else [], commits)
    else if op.creates then (Advance(ids), [], commits + 1) else (ids, [], commits)
  }

  /** The boards of a run, each with the number of successful commits before it. */
  function Boards(ids: Ids, r: Ranges, ops: seq<Op>, commits: nat): seq<Entry>
    decreases |ops|
  {
    if ops == [] then []
    else
      var (next, made, n) := Called(ids, r, ops[0], commits);
      made + Boards(next, r, ops[1..], n)
  }

  lemma BoardsStep(es: seq<Entry>, ids: Ids, r: Ranges, ops: seq<Op>, k: nat, commits: nat)
    requires k < |ops|
    ensures var (next, made, n) := Called(ids, r, ops[k], commits);
      es + Boards(ids, r, ops[k..], commits) == es + made + Boards(next, r, ops[k + 1..], n)
  {
    var (next, made, n) := Called(ids, r, ops[k], commits);
    assert ops[k..][0] == ops[k] && ops[k..][1..] == ops[k + 1..];
    assert es + (made + Boards(next, r, ops[k + 1..], n)) == es + made + Boards(next, r, ops[k + 1..], n);
  }

  /** The ranges fit the three bytes that are burned, and no board takes more than four addresses. */
  predicate Sound(r: Ranges) {
    && 0 <= r.wlanFirst && r.wlanEnd < THREE_BYTES && 0 < r.wlanCount <= 4
    && 0 <= r.zigbeeFirst && r.zigbeeLast < THREE_BYTES && 0 <= r.btFirst && r.btLast < THREE_BYTES
  }

  /** The run is too short for an id to overflow. */
  predicate Short(ids: Ids, n: nat) {
    ids.wlan + 4 * n < 0x8000_0000 && ids.zigbee + n < 0x8000_0000 && ids.bt + n < 0x8000_0000
  }

  predicate Shape(e: Entry) { |e.board.wlan| == 3 && |e.board.bt| == 3 && |e.board.zigbee| == 3 }

  /** A board has the ids of its commit count, all of them in range. */
  predicate Placed(e: Entry, ids: Ids, commits: nat, r: Ranges) {
    && Shape(e) && e.commits >= commits
    && var d := e.commits - commits;
    && Value(e.board.wlan) == ids.wlan + 4 * d
    && Value(e.board.zigbee) == ids.zigbee + d && Value(e.board.bt) == ids.bt + d
    && Value(e.board.wlan) % 4 == 0
    && r.wlanFirst <= Value(e.board.wlan) && Value(e.board.wlan) + r.wlanCount <= r.wlanEnd
    && r.zigbeeFirst <= Value(e.board.zigbee) <= r.zigbeeLast && r.btFirst <= Value(e.board.bt) <= r.btLast
  }

  lemma {:induction false} BoardsArePlaced(ids: Ids, r: Ranges, ops: seq<Op>, commits: nat)
    requires Sound(r) && Short(ids, |ops|)
    ensures forall e :: e in Boards(ids, r, ops, commits) ==> Placed(e, ids, commits, r)
    decreases |ops|
  {
    if ops != [] {
      var rest := ops[1..];
      if ops[0] == Committed(true) {
        BoardsArePlaced(Advance(ids), r, rest, commits + 1);
      } else {
        BoardsArePlaced(ids, r, rest, commits);
        if InRange(ids, r) {
          ThreeBytesSuffice(ids.wlan);
          ThreeBytesSuffice(ids.zigbee);
          ThreeBytesSuffice(ids.bt);
        }
      }
    }
  }

  /** How many of the first `k` calls committed. */
  function CommitsBefore(ops: seq<Op>, k: nat): (d: nat)
    requires k <= |ops|
    ensures d <= k
  {
    if k == 0 then 0 else CommitsBefore(ops, k - 1) + if ops[k - 1] == Committed(true) then 1 else 0
  }

  /** After `d` commits all three ids are in their ranges, ends included, and the WLAN id is a multiple of
      four with room for the board's addresses. */
  predicate IdsLeft(ids: Ids, r: Ranges, d: nat) {
    && r.wlanFirst <= ids.wlan + 4 * d && ids.wlan + 4 * d + r.wlanCount <= r.wlanEnd && (ids.wlan + 4 * d) % 4 == 0
    && r.zigbeeFirst <= ids.zigbee + d <= r.zigbeeLast && r.btFirst <= ids.bt + d <= r.btLast
  }

  /** The ids after `d` commits. */
  function IdsAfter(ids: Ids, d: nat): Ids
    requires Short(ids, d)
  {
    Ids(ids.wlan + 4 * d, ids.zigbee + d, ids.bt + d)
  }

  /** The boards of the first `n` calls: one for every call that prepares with ids left. */
  function BoardsMade(ids: Ids, r: Ranges, ops: seq<Op>, n: nat): seq<Entry>
    requires n <= |ops| && Short(ids, |ops|)
  {
    if n == 0 then []
    else
      var d := CommitsBefore(ops, n - 1);
      BoardsMade(ids, r, ops, n - 1) +
        if ops[n - 1] == Prepared && IdsLeft(ids, r, d) then [Entry(d, BoardOf(IdsAfter(ids, d)))] else []
  }

  lemma {:induction false} CommitsShift(ops: seq<Op>, k: nat)
    requires 0 < k <= |ops|
    ensures CommitsBefore(ops, k) == CommitsBefore(ops[1..], k - 1) + if ops[0] == Committed(true) then 1 else 0
    decreases k
  {
    if k > 1 {
      CommitsShift(ops, k - 1);
      assert ops[1..][k - 2] == ops[k - 1];
    } else {
      assert CommitsBefore(ops, 0) == 0;
    }
  }

  lemma {:induction false} CommitsOf(ops: seq<Op>, more: seq<Op>, k: nat)
    requires k <= |ops|
    ensures CommitsBefore(ops + more, k) == CommitsBefore(ops, k)
  {
    if k > 0 { CommitsOf(ops, more, k - 1); }
  }

  // The order of calls and what a call makes of its ids, kept apart.

  type Maker = (Ids, nat, Op) -> seq<Entry>

  function Outputs(make: Maker, ids: Ids, ops: seq<Op>, commits: nat): seq<Entry>
    decreases |ops|
  {
    if ops == [] then []
    else if ops[0] == Committed(true) then
      make(ids, commits, ops[0]) + Outputs(make, Advance(ids), ops[1..], commits + 1)
    else make(ids, commits, ops[0]) + Outputs(make, ids, ops[1..], commits)
  }

  ghost function MakerOf(r: Ranges): Maker { (ids: Ids, commits: nat, op: Op) => Called(ids, r, op, commits).1 }

  lemma {:induction false} BoardsAreOutputs(ids: Ids, r: Ranges, ops: seq<Op>, commits: nat)
    ensures Boards(ids, r, ops, commits) == Outputs(MakerOf(r), ids, ops, commits)
    decreases |ops|
  {
    if ops != [] {
      var (next, _, n) := Called(ids, r, ops[0], commits);
      BoardsAreOutputs(next, r, ops[1..], n);
    }
  }

  lemma AdvancedAfter(ids: Ids, d: nat)
    requires Short(ids, d + 1)
    ensures Short(Advance(ids), d) && IdsAfter(Advance(ids), d) == IdsAfter(ids, d + 1) && IdsAfter(ids, 0) == ids
  {
  }

  /** One more call at the end of a run. */
  lemma {:induction false} OutputsSnoc(make: Maker, ids: Ids, ops: seq<Op>, op: Op, commits: nat)
    requires Short(ids, |ops| + 1)
    ensures var d := CommitsBefore(ops, |ops|);
      Outputs(make, ids, ops + [op], commits) ==
        Outputs(make, ids, ops, commits) + make(IdsAfter(ids, d), commits + d, op)
    decreases |ops|
  {
    var all := ops + [op];
    AdvancedAfter(ids, |ops|);
    if ops == [] {
      assert all[1..] == [];
    } else {
      var rest := ops[1..];
      var d := CommitsBefore(rest, |rest|);
      assert all[0] == ops[0] && all[1..] == rest + [op];
      CommitsShift(ops, |ops|);
      if ops[0] == Committed(true) {
        AdvancedAfter(ids, d);
        OutputsSnoc(make, Advance(ids), rest, op, commits + 1);
      } else {
        OutputsSnoc(make, ids, rest, op, commits);
      }
    }
  }

  lemma MakesWithIdsLeft(ids: Ids, r: Ranges, op: Op, d: nat)
    requires Short(ids, d)
    ensures MakerOf(r)(IdsAfter(ids, d), d, op) ==
      if op == Prepared && IdsLeft(ids, r, d) then [Entry(d, BoardOf(IdsAfter(ids, d)))] else []
  {
    assert InRange(IdsAfter(ids, d), r) <==> IdsLeft(ids, r, d);
  }

  function Closed(make: Maker, ids: Ids, ops: seq<Op>, n: nat): seq<Entry>
    requires n <= |ops| && Short(ids, |ops|)
  {
    if n == 0 then []
    else
      var d := CommitsBefore(ops, n - 1);
      Closed(make, ids, ops, n - 1) + make(IdsAfter(ids, d), d, ops[n - 1])
  }

  lemma {:induction false} OutputsAreClosed(make: Maker, ids: Ids, ops: seq<Op>, n: nat)
    requires n <= |ops| && Short(ids, |ops|)
    ensures Outputs(make, ids, ops[..n], 0) == Closed(make, ids, ops, n)
    decreases n
  {
    if n > 0 {
      var front, op := ops[..n - 1], ops[n - 1];
      assert ops[..n] == front + [op] && front + ops[n - 1..] == ops;
      OutputsAreClosed(make, ids, ops, n - 1);
      OutputsSnoc(make, ids, front, op, 0);
      CommitsOf(front, ops[n - 1..], n - 1);
    }
  }

  lemma {:induction false} ClosedIsMade(ids: Ids, r: Ranges, ops: seq<Op>, n: nat)
    requires n <= |ops| && Short(ids, |ops|)
    ensures Closed(MakerOf(r), ids, ops, n) == BoardsMade(ids, r, ops, n)
    decreases n
  {
    if n > 0 {
      ClosedIsMade(ids, r, ops, n - 1);
      MakesWithIdsLeft(ids, r, ops[n - 1], CommitsBefore(ops, n - 1));
    }
  }

  /** The boards of any run, in closed form: no ids are carried along, each call looks only at how many
      commits came before it. */
  lemma BoardsAreMade(ids: Ids, r: Ranges, ops: seq<Op>)
    requires Short(ids, |ops|)
    ensures Boards(ids, r, ops, 0) == BoardsMade(ids, r, ops, |ops|)
  {
    assert ops[..|ops|] == ops;
    BoardsAreOutputs(ids, r, ops, 0);
    OutputsAreClosed(MakerOf(r), ids, ops, |ops|);
    ClosedIsMade(ids, r, ops, |ops|);
  }

  /** Two boards with an address in common, of any radio. */
  predicate Share(a: Board, b: Board, r: Ranges)
    requires |a.wlan| == |a.bt| == |a.zigbee| == |b.wlan| == |b.bt| == |b.zigbee| == 3
  {
    || (Value(a.wlan) < Value(b.wlan) + r.wlanCount && Value(b.wlan) < Value(a.wlan) + r.wlanCount)
    || a.bt == b.bt || a.zigbee == b.zigbee
  }

  /** Over any production run, two boards share an address exactly when nothing was committed between
      them; and every board's addresses lie in the configured ranges, on a multiple of four for WLAN. */
  lemma BoardsShareExactlyWhen(ids: Ids, r: Ranges, ops: seq<Op>, es: seq<Entry>, i: nat, j: nat)
    requires Sound(r) && Short(ids, |ops|) && es == Boards(ids, r, ops, 0) && i < j < |es|
    ensures Placed(es[i], ids, 0, r) && Placed(es[j], ids, 0, r)
    ensures Share(es[i].board, es[j].board, r) <==> es[i].commits == es[j].commits
  {
    BoardsArePlaced(ids, r, ops, 0);
    assert es[i] in es && es[j] in es;
  }

  /** The same for a whole run. */
  predicate SharingIsByCommit(es: seq<Entry>, r: Ranges) {
    && (forall i :: 0 <= i < |es| ==> Shape(es[i]))
    && (forall i, j :: 0 <= i < j < |es| ==>
      (Share(es[i].board, es[j].board, r) <==> es[i].commits == es[j].commits))
  }

  lemma AllShareExactlyWhen(ids: Ids, r: Ranges, ops: seq<Op>, es: seq<Entry>)
    requires Sound(r) && Short(ids, |ops|) && es == Boards(ids, r, ops, 0)
    ensures SharingIsByCommit(es, r)
  {
    BoardsArePlaced(ids, r, ops, 0);
    forall i | 0 <= i < |es| ensures Shape(es[i]) { assert es[i] in es; }
    forall i, j | 0 <= i < j < |es| ensures Share(es[i].board, es[j].board, r) <==> es[i].commits == es[j].commits {
      BoardsShareExactlyWhen(ids, r, ops, es, i, j);
    }
  }
}
