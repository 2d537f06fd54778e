/** The text box of the configuration tool: a file shown through a sliding 10 KB buffer.  The
    cursor must behave as if the whole file were in memory, wherever the refills fall. */
module TextWindow {
  import opened Basics
  import opened Lines

  const BUF_SIZE: nat := 10 * 1024
  const MAX_LEN: nat := 2048
  const NUL: char := '\0'

  function Cut(s: seq<char>): seq<char> { s[..Min(|s|, MAX_LEN)] }

  /** All lines of the file as the text box displays them. */
  function Rows(f: seq<char>): (r: seq<seq<char>>)
    ensures |r| == LastLine(f) + 1
  {
    seq(LastLine(f) + 1, k requires 0 <= k <= LastLine(f) => Cut(Text(f, k)))
  }

  /** What a screen row for line `k` displays; rows past the end are blank. */
  function RowAt(rows: seq<seq<char>>, k: nat): seq<char> {
    if k < |rows| then rows[k] else []
  }

  datatype Key = Home | End | Up | Down | PageUp | PageDown | Redraw

  /** The same viewer on `lines` lines in memory: the line at the top of a window of `h` rows. */
  function NextTop(lines: nat, h: nat, top: nat, key: Key): nat {
    match key
    case Home => 0
    case End => if lines <= h then 0 else lines - h
    case Up => if top == 0 then 0 else top - 1
    case PageUp => if top <= h then 0 else top - h
    case Down => if top + h >= lines then top else top + 1
    case PageDown => if top + h >= lines then top else top + h
    case Redraw => top
  }

  function Browsed(lines: nat, h: nat, keys: seq<Key>): nat
    decreases |keys|
  {
    if keys == [] then 0 else NextTop(lines, h, Browsed(lines, h, keys[..|keys| - 1]), keys[|keys| - 1])
  }

  // ---- what makes that a viewer ----

  function Repeated(lines: nat, h: nat, top: nat, key: Key, n: nat): nat {
    if n == 0 then top else NextTop(lines, h, Repeated(lines, h, top, key, n - 1), key)
  }

  lemma {:induction false} UpsStop(lines: nat, h: nat, top: nat, n: nat)
    ensures Repeated(lines, h, top, Up, n) == if top <= n then 0 else top - n
  {
    if n > 0 { UpsStop(lines, h, top, n - 1); }
  }

  lemma {:induction false} DownsStop(lines: nat, h: nat, top: nat, n: nat)
    ensures Repeated(lines, h, top, Down, n) ==
      if top + h >= lines then top else if top + h + n >= lines then lines - h else top + n
  {
    if n > 0 { DownsStop(lines, h, top, n - 1); }
  }

  /** The keys hang together: a page up is as many single lines up, the first page is where going up
      ends and the last page where going down from it ends; a line or a page down is undone by the same
      up, and one line down brings the last line on the screen exactly when it was the next. */
  lemma ViewerLaws(lines: nat, h: nat, top: nat)
    requires h >= 1
    ensures NextTop(lines, h, top, PageUp) == Repeated(lines, h, top, Up, h)
    ensures NextTop(lines, h, top, Home) == Repeated(lines, h, top, Up, top)
    ensures NextTop(lines, h, top, End) == Repeated(lines, h, NextTop(lines, h, top, Home), Down, lines)
    ensures var d := NextTop(lines, h, top, Down);
      && (d == top <==> top + h >= lines) && (d != top ==> NextTop(lines, h, d, Up) == top)
      && (top < d <==> top + h <= d + h - 1 < lines)
    ensures var d := NextTop(lines, h, top, PageDown);
      && (d == top <==> top + h >= lines) && (d != top ==> NextTop(lines, h, d, PageUp) == top && d < lines)
    ensures NextTop(lines, h, top, Redraw) == top
  {
    UpsStop(lines, h, top, h);
    UpsStop(lines, h, top, top);
    DownsStop(lines, h, 0, lines);
  }

  /** All rows but the last one move down by one. */
  lemma ScrolledUp(rows: seq<seq<char>>, was: seq<seq<char>>, first: seq<char>, top: nat)
    requires was != [] && first == RowAt(rows, top)
    requires forall i :: 0 <= i < |was| ==> was[i] == RowAt(rows, top + 1 + i)
    ensures var now := [first] + was[..|was| - 1];
      |now| == |was| && forall i :: 0 <= i < |now| ==> now[i] == RowAt(rows, top + i)
  {
    var now := [first] + was[..|was| - 1];
    forall i | 0 <= i < |now| ensures now[i] == RowAt(rows, top + i) {
      if i > 0 { assert now[i] == was[i - 1] == RowAt(rows, top + 1 + (i - 1)); }
    }
  }

  /** All rows but the first one move up by one. */
  lemma ScrolledDown(rows: seq<seq<char>>, was: seq<seq<char>>, last: seq<char>, top: nat)
    requires was != [] && last == RowAt(rows, top + |was|)
    requires forall i :: 0 <= i < |was| ==> was[i] == RowAt(rows, top + i)
    ensures var now := was[1..] + [last];
      |now| == |was| && forall i :: 0 <= i < |now| ==> now[i] == RowAt(rows, top + 1 + i)
  {
    var now := was[1..] + [last];
    forall i | 0 <= i < |now| ensures now[i] == RowAt(rows, top + 1 + i) {
      if i + 1 < |was| { assert now[i] == was[i + 1] == RowAt(rows, top + (i + 1)); }
    }
  }

  /** What the viewer shows in a row: the line cut to its limit, or nothing past the last line. */
  lemma RowIsLine(file: seq<char>, k: nat)
    ensures RowAt(Rows(file), k) == if k <= LastLine(file) then Cut(Text(file, k)) else ""
  {
  }

  class TextBox {
    const file: seq<char>
    ghost const rows: seq<seq<char>>
    const buf: array<char>
    const line: array<char>
    var fpos: nat
    var bytesRead: nat
    var page: nat
    var beginReached: bool
    var endReached: bool
    var pageLength: nat
    var screen: seq<seq<char>>

    /** `rows` are the displayed lines of the file. */
    ghost predicate Indexed() {
      && |rows| == LastLine(file) + 1
      && forall k {:trigger Text(file, k)} :: 0 <= k < |rows| ==> rows[k] == Cut(Text(file, k))
    }

    ghost predicate Valid()
      reads this, buf, line
    {
      && buf.Length == BUF_SIZE + 1 && line.Length == MAX_LEN + 1 && buf != line
      && NUL !in file && Indexed()
      && bytesRead <= BUF_SIZE && bytesRead <= fpos <= |file|
      && (forall i :: 0 <= i < bytesRead ==> buf[i] == file[fpos - bytesRead + i]) && buf[bytesRead] == NUL
      && page <= bytesRead
      && (fpos < |file| ==> bytesRead == BUF_SIZE)
    }

    /** The absolute position of the page pointer. */
    ghost function Pos(): nat
      requires Valid()
      reads this, buf, line
    {
      fpos - bytesRead + page
    }

    /** The number of the line the next read would deliver. */
    ghost function Cursor(): (k: nat)
      requires Valid()
      reads this, buf, line
      ensures k <= LastLine(file) + 1
    {
      LineNoMonotone(file, Pos(), |file|);
      if endReached then LastLine(file) + 1 else LineNo(file, Pos())
    }

    /** Between lines: at the start of one, or past the last one. */
    ghost predicate AtBoundary()
      requires Valid()
      reads this, buf, line
    {
      if endReached then Pos() == |file| else IsLineStart(file, Pos())
    }

    lemma CharAtPage()
      requires Valid()
      ensures page < bytesRead ==> Pos() < |file| && buf[page] == file[Pos()] && buf[page] != NUL
      ensures page == bytesRead ==> buf[page] == NUL && Pos() == fpos
    {
      if page < bytesRead {
        assert file[Pos()] in file;
      }
    }

    /** read(fd, buf, BUF_SIZE) at the current file offset, and the terminating NUL. */
    method ReadBlock()
      requires buf.Length == BUF_SIZE + 1 && line.Length == MAX_LEN + 1 && buf != line
      requires NUL !in file && Indexed() && fpos <= |file|
      modifies this`fpos, this`bytesRead, this`page, buf
      ensures bytesRead == Min(BUF_SIZE, |file| - old(fpos)) && fpos == old(fpos) + bytesRead
      ensures page == 0 && Valid()
    {
      var start := fpos;
      var n := Min(BUF_SIZE, |file| - start);
      forall i | 0 <= i < n { buf[i] := file[start + i]; }
      buf[n] := NUL;
      bytesRead, fpos, page := n, start + n, 0;
    }

    constructor Open(file: seq<char>, height: nat)
      requires NUL !in file
      ensures Valid() && fresh(buf) && fresh(line) && this.file == file && rows == Rows(file)
      ensures Pos() == 0 && beginReached && !endReached && |screen| == height
    {
      this.file := file;
      this.rows := Rows(file);
      buf := new char[BUF_SIZE + 1](_ => NUL);
      line := new char[MAX_LEN + 1](_ => NUL);
      fpos, bytesRead, page := 0, 0, 0;
      beginReached, endReached, pageLength := true, false, 0;
      screen := seq(height, _ => []);
      new;
      forall k | 0 <= k < |rows| ensures rows[k] == Cut(Text(file, k)) { RowIsLine(file, k); }
      ReadBlock();
    }

    /** `c` characters of the line starting at `p0` have been consumed, `i` of them stored. */
    ghost predicate Collected(p0: nat, c: nat, i: nat)
      requires line.Length == MAX_LEN + 1
      reads line
    {
      && p0 + c <= |file|
      && i == (if c <= MAX_LEN then c else MAX_LEN + 1)
      && line[..Min(c, MAX_LEN)] == file[p0..p0 + Min(c, MAX_LEN)]
      && (i == MAX_LEN + 1 ==> line[MAX_LEN] == NUL)
    }

    /** Consume one character: store it, or mark the cut and skip it. */
    method TakeChar(i: nat, ghost p0: nat) returns (j: nat)
      requires Valid() && page < bytesRead && p0 <= Pos() && Collected(p0, Pos() - p0, i)
      modifies this`page, line
      ensures Valid() && page == old(page) + 1 && Collected(p0, Pos() - p0, j)
    {
      CharAtPage();
      ghost var c := Pos() - p0;
      j := i;
      if i < MAX_LEN {
        line[i] := buf[page];
        j := i + 1;
        assert line[..c + 1] == file[p0..p0 + c] + [file[p0 + c]] == file[p0..p0 + c + 1];
      } else if i == MAX_LEN {
        line[i] := NUL;
        j := i + 1;
        assert line[..MAX_LEN] == old(line[..MAX_LEN]) == file[p0..p0 + MAX_LEN];
      }
      page := page + 1;
    }

    /** One turn of get_line's loop: refill, notice the end of the file, or consume a character. */
    method Advance(i: nat, ghost p0: nat) returns (j: nat)
      requires Valid() && !endReached && buf[page] != NL
      requires p0 <= Pos() && Collected(p0, Pos() - p0, i) && NextBreak(file, Pos()) == NextBreak(file, p0)
      modifies this`fpos, this`bytesRead, this`page, this`endReached, buf, line
      ensures Valid()
      ensures p0 <= Pos() && Collected(p0, Pos() - p0, j) && NextBreak(file, Pos()) == NextBreak(file, p0)
      ensures endReached ==> Pos() == |file|
      ensures !endReached ==>
        old(Pos()) < Pos() || (Pos() == old(Pos()) && old(page == bytesRead) && page < bytesRead)
    {
      CharAtPage();
      j := i;
      if buf[page] == NUL {
        if fpos < |file| {
          ReadBlock();
        } else {
          endReached := true;
        }
      } else {
        j := TakeChar(i, p0);
      }
    }

    /** get_line */
    method GetLine() returns (text: seq<char>)
      requires Valid()
      modifies this`fpos, this`bytesRead, this`page, this`endReached, buf, line
      ensures Valid()
      ensures text == Cut(file[old(Pos())..NextBreak(file, old(Pos()))])
      ensures endReached <==> NextBreak(file, old(Pos())) == |file|
      ensures Pos() == if endReached then |file| else NextBreak(file, old(Pos())) + 1
    {
      ghost var p0 := Pos();
      var i := 0;
      endReached := false;
      while buf[page] != NL
        invariant Valid() && !endReached
        invariant p0 <= Pos() && Collected(p0, Pos() - p0, i) && NextBreak(file, Pos()) == NextBreak(file, p0)
        decreases |file| - Pos(), bytesRead == page
      {
        i := Advance(i, p0);
        if endReached { break; }
      }
      CharAtPage();
      text := FinishLine(i, p0);
    }

    /** The end of get_line: terminate the line and step over its line end. */
    method FinishLine(i: nat, ghost p0: nat) returns (text: seq<char>)
      requires Valid() && p0 <= Pos() == NextBreak(file, p0) && Collected(p0, Pos() - p0, i)
      requires endReached <==> Pos() == |file|
      requires !endReached ==> page < bytesRead
      modifies this`page, line
      ensures Valid()
      ensures text == Cut(file[p0..NextBreak(file, p0)])
      ensures Pos() == if endReached then |file| else NextBreak(file, p0) + 1
    {
      ghost var e := NextBreak(file, p0);
      ghost var n := Min(e - p0, MAX_LEN);
      if i <= MAX_LEN {
        line[i] := NUL;
      }
      text := line[..Min(i, MAX_LEN)];
      assert text == file[p0..p0 + n] == Cut(file[p0..e]);
      if !endReached {
        page := page + 1;
      }
    }

    /** The page pointer is at the start of the buffer but not of the file: re-read so that half a
        buffer (or all there is) lies before it. */
    method SlideBack()
      requires Valid() && page == 0 && bytesRead < fpos
      modifies this`fpos, this`bytesRead, this`page, buf
      ensures Valid() && Pos() == old(Pos()) && page > 0
    {
      var at;
      if fpos < BUF_SIZE / 2 + bytesRead {
        at := fpos - bytesRead;
        fpos := 0;
      } else {
        at := BUF_SIZE / 2;
        fpos := fpos - (BUF_SIZE / 2 + bytesRead);
      }
      ReadBlock();
      page := at;
    }

    /** `--page`, sliding the window when needed; at the start of the file, note it and stay. */
    method StepBack() returns (atBegin: bool)
      requires Valid()
      modifies this`fpos, this`bytesRead, this`page, this`beginReached, buf
      ensures Valid() && (atBegin <==> old(Pos()) == 0)
      ensures atBegin ==> Pos() == 0 && beginReached
      ensures !atBegin ==> Pos() == old(Pos()) - 1 && page < bytesRead && beginReached == old(beginReached)
      ensures !atBegin ==> buf[page] == file[Pos()]
    {
      if page == 0 {
        if fpos > bytesRead {
          SlideBack();
        } else {
          beginReached := true;
          return true;
        }
      }
      page := page - 1;
      CharAtPage();
      atBegin := false;
    }

    /** Move back to the previous line end, or to the start of the file. */
    method BackOverLine() returns (atBegin: bool)
      requires Valid()
      modifies this`fpos, this`bytesRead, this`page, this`beginReached, buf
      ensures Valid()
      ensures atBegin ==> Pos() == 0 && beginReached && LineNo(file, old(Pos())) == 0
      ensures !atBegin ==>
        && page < bytesRead && file[Pos()] == NL && beginReached == old(beginReached)
        && LineNo(file, old(Pos())) == LineNo(file, Pos()) + 1
    {
      ghost var n := LineNo(file, Pos());
      atBegin := StepBack();
      while !atBegin && buf[page] != NL
        invariant Valid()
        invariant atBegin ==> Pos() == 0 && beginReached && n == 0
        invariant !atBegin ==> page < bytesRead && buf[page] == file[Pos()] && beginReached == old(beginReached)
        invariant !atBegin ==> LineNo(file, Pos() + 1) == n
        decreases Pos(), !atBegin
      {
        atBegin := StepBack();
      }
    }

    /** The counted loop of back_lines: `n` line ends back, or to the start of the file. */
    method BackOverLines(n: nat) returns (atBegin: bool)
      requires Valid() && !beginReached && n >= 1
      modifies this`fpos, this`bytesRead, this`page, this`beginReached, buf
      ensures Valid() && beginReached == atBegin
      ensures atBegin <==> LineNo(file, old(Pos())) < n
      ensures atBegin ==> Pos() == 0
      ensures !atBegin ==>
        page < bytesRead && file[Pos()] == NL && LineNo(file, Pos()) == LineNo(file, old(Pos())) - n
    {
      ghost var k := LineNo(file, Pos());
      var i := 0;
      while i < n
        invariant 0 <= i <= n && Valid() && !beginReached
        invariant LineNo(file, Pos()) == k - i
        invariant i > 0 ==> page < bytesRead && file[Pos()] == NL
      {
        atBegin := BackOverLine();
        if atBegin { return true; }
        i := i + 1;
      }
      return false;
    }

    /** back_lines; the source exits with "Internal error" where this returns true. */
    method BackLines(n: nat) returns (internalError: bool)
      requires Valid() && AtBoundary() && n >= 1
      modifies this`fpos, this`bytesRead, this`page, this`beginReached, buf
      ensures Valid() && !internalError
      ensures beginReached <==> old(Cursor()) <= n
      ensures IsLineStart(file, Pos()) && LineNo(file, Pos()) == if old(Cursor()) <= n then 0 else old(Cursor()) - n
    {
      beginReached := false;
      if !endReached {
        var atBegin := StepBack();
        if atBegin { return false; }
        if buf[page] != NL { return true; }
      }
      var atBegin := BackOverLines(n);
      if atBegin { return false; }
      page := page + 1;
      return false;
    }

    /** The next get_line delivers line `k` (nothing, once `k` is past the last line). */
    ghost predicate Reading(k: nat)
      requires Valid()
      reads this, buf, line
    {
      if k < |rows| then IsLineStart(file, Pos()) && LineNo(file, Pos()) == k else Pos() == |file|
    }

    /** The window shows lines `top`, `top + 1`, ... and the reader stands after the last one. */
    ghost predicate Showing(top: nat)
      reads this, buf, line
    {
      && Valid() && |screen| >= 1 && top < |rows|
      && pageLength == Min(|screen|, |rows| - top)
      && (endReached <==> top + |screen| >= |rows|)
      && Reading(top + pageLength)
      && (beginReached <==> top == 0)
      && forall i :: 0 <= i < |screen| ==> screen[i] == RowAt(rows, top + i)
    }

    /** get_line in terms of line numbers. */
    method ReadRow(ghost k: nat) returns (text: seq<char>)
      requires Valid() && Reading(k)
      modifies this`fpos, this`bytesRead, this`page, this`endReached, buf, line
      ensures Valid() && Reading(k + 1) && text == RowAt(rows, k) && (endReached <==> k + 1 >= |rows|)
    {
      ghost var p := Pos();
      if k < |rows| {
        StartOfIs(file, p);
        BreakBeforeEnd(file, p);
        assert rows[k] == Cut(Text(file, k));
      }
      text := GetLine();
    }

    /** `i` rows of a page starting at line `top` have been read; `passedEnd` remembers the end. */
    ghost predicate PageSoFar(top: nat, i: nat, passedEnd: bool)
      reads this, buf, line
    {
      && Valid() && Reading(top + i) && top < |rows|
      && pageLength == Min(i, |rows| - top)
      && (i > 0 ==> (endReached <==> top + i >= |rows|))
      && (passedEnd <==> i > 0 && top + i >= |rows|)
    }

    /** Read one more row and keep page_length and passed_end up to date. */
    method NextRow(ghost top: nat, ghost i: nat, passedEnd: bool) returns (text: seq<char>, passed: bool)
      requires PageSoFar(top, i, passedEnd)
      modifies this`fpos, this`bytesRead, this`page, this`endReached, this`pageLength, buf, line
      ensures PageSoFar(top, i + 1, passed) && text == RowAt(rows, top + i)
    {
      text := ReadRow(top + i);
      passed := passedEnd;
      if !passed { pageLength := pageLength + 1; }
      if endReached && !passed { passed := true; }
    }

    /** print_page */
    method PrintPage(ghost top: nat)
      requires Valid() && |screen| >= 1 && top < |rows| && Reading(top)
      requires beginReached <==> top == 0
      modifies this`fpos, this`bytesRead, this`page, this`endReached, this`pageLength, this`screen, buf, line
      ensures |screen| == old(|screen|) && Showing(top)
    {
      var passedEnd := false;
      pageLength := 0;
      var i := 0;
      var height := |screen|;
      while i < height
        invariant 0 <= i <= height == |screen| && PageSoFar(top, i, passedEnd)
        invariant forall r :: 0 <= r < i ==> screen[r] == RowAt(rows, top + r)
      {
        passedEnd := PrintRow(top, i, passedEnd);
        i := i + 1;
      }
    }

    /** print_line, one row of a page. */
    method PrintRow(ghost top: nat, i: nat, passedEnd: bool) returns (passed: bool)
      requires PageSoFar(top, i, passedEnd) && i < |screen|
      modifies this`fpos, this`bytesRead, this`page, this`endReached, this`pageLength, this`screen, buf, line
      ensures PageSoFar(top, i + 1, passed) && screen == old(screen)[i := RowAt(rows, top + i)]
    {
      var text;
      text, passed := NextRow(top, i, passedEnd);
      screen := screen[i := text];
    }

    ghost predicate PageAt(top: nat)
      requires Valid()
      reads this, buf, line
    {
      && IsLineStart(file, Pos()) && LineNo(file, Pos()) == top && top < |rows|
      && (beginReached <==> top == 0)
    }

    /** From a shown page, back over the whole page and `extra` more lines. */
    method BackFromPage(extra: nat, ghost top: nat)
      requires Showing(top)
      modifies this`fpos, this`bytesRead, this`page, this`beginReached, buf
      ensures Valid() && PageAt(if top <= extra then 0 else top - extra)
    {
      var err := BackLines(pageLength + extra);
    }

    /** The keys that redraw the whole page. */
    method KeyHome(ghost top: nat)
      requires Showing(top)
      modifies this, buf, line
      ensures |screen| == old(|screen|) && Showing(NextTop(|rows|, |screen|, top, Home))
    {
      if !beginReached {
        beginReached := true;
        if fpos > bytesRead {
          fpos := 0;
          ReadBlock();
        }
        page := 0;
        PrintPage(0);
      }
    }

    method KeyEnd(ghost top: nat)
      requires Showing(top)
      modifies this, buf, line
      ensures |screen| == old(|screen|) && Showing(NextTop(|rows|, |screen|, top, End))
    {
      endReached := true;
      if fpos < |file| {
        fpos := |file| - BUF_SIZE;
        ReadBlock();
      }
      page := bytesRead;
      var err := BackLines(|screen|);
      PrintPage(NextTop(|rows|, |screen|, top, End));
    }

    method KeyPageUp(ghost top: nat)
      requires Showing(top)
      modifies this, buf, line
      ensures |screen| == old(|screen|) && Showing(NextTop(|rows|, |screen|, top, PageUp))
    {
      if beginReached { return; }
      BackFromPage(|screen|, top);
      PrintPage(NextTop(|rows|, |screen|, top, PageUp));
    }

    method KeyPageDown(ghost top: nat)
      requires Showing(top)
      modifies this, buf, line
      ensures |screen| == old(|screen|) && Showing(if old(endReached) then top else top + |screen|)
    {
      if endReached { return; }
      beginReached := false;
      PrintPage(top + |screen|);
    }

    /** Horizontal scrolling: the same page again. */
    method KeyRedraw(ghost top: nat)
      requires Showing(top)
      modifies this, buf, line
      ensures |screen| == old(|screen|) && Showing(top)
    {
      BackFromPage(0, top);
      PrintPage(top);
    }

    /** Scroll the screen by one row and print only the new bottom line. */
    method KeyDown(ghost top: nat)
      requires Showing(top)
      modifies this, buf, line
      ensures |screen| == old(|screen|) && Showing(if old(endReached) then top else top + 1)
    {
      if endReached { return; }
      beginReached := false;
      var text := ReadRow(top + |screen|);
      ScrolledDown(rows, screen, text, top);
      screen := screen[1..] + [text];
    }

    /** Scroll the other way: print the new top line, then read on to restore the page state. */
    method KeyUp(ghost top: nat)
      requires Showing(top)
      modifies this, buf, line
      ensures |screen| == old(|screen|) && Showing(if top == 0 then 0 else top - 1)
    {
      if beginReached { return; }
      BackFromPage(1, top);
      ScrollUp(top - 1);
    }

    method ScrollUp(ghost top: nat)
      requires Valid() && |screen| >= 1 && top < |rows| && Reading(top) && (beginReached <==> top == 0)
      requires forall i :: 0 <= i < |screen| ==> screen[i] == RowAt(rows, top + 1 + i)
      modifies this`fpos, this`bytesRead, this`page, this`endReached, this`pageLength, this`screen, buf, line
      ensures |screen| == old(|screen|) && Showing(top)
    {
      var was := screen;
      var first := RereadPage(|screen|, top);
      ScrolledUp(rows, was, first, top);
      screen := [first] + was[..|was| - 1];
    }

    /** The loop of the "previous line" key: only the first row is printed. */
    method RereadPage(height: nat, ghost top: nat) returns (first: seq<char>)
      requires Valid() && height >= 1 && top < |rows| && Reading(top)
      modifies this`fpos, this`bytesRead, this`page, this`endReached, this`pageLength, buf, line
      ensures first == RowAt(rows, top) && Valid() && Reading(top + pageLength)
      ensures pageLength == Min(height, |rows| - top)
      ensures endReached <==> top + height >= |rows|
    {
      var passedEnd := false;
      pageLength := 0;
      first := [];
      var i := 0;
      while i < height
        invariant 0 <= i <= height && PageSoFar(top, i, passedEnd)
        invariant i > 0 ==> first == RowAt(rows, top)
      {
        var text;
        text, passedEnd := NextRow(top, i, passedEnd);
        if i == 0 { first := text; }
        i := i + 1;
      }
    }

    method Press(key: Key, ghost top: nat)
      requires Showing(top)
      modifies this, buf, line
      ensures |screen| == old(|screen|) && Showing(NextTop(|rows|, |screen|, top, key))
    {
      match key
      case Home => KeyHome(top);
      case End => KeyEnd(top);
      case Up => KeyUp(top);
      case Down => KeyDown(top);
      case PageUp => KeyPageUp(top);
      case PageDown => KeyPageDown(top);
      case Redraw => KeyRedraw(top);
    }

    /** The key loop of dialog_textbox. */
    method PressAll(keys: seq<Key>)
      requires Showing(0)
      modifies this, buf, line
      ensures |screen| == old(|screen|) && Showing(Browsed(|rows|, |screen|, keys))
    {
      ghost var top := 0;
      var i := 0;
      while i < |keys|
        invariant 0 <= i <= |keys| && |screen| == old(|screen|)
        invariant top == Browsed(|rows|, |screen|, keys[..i]) && Showing(top)
      {
        assert keys[..i + 1][..i] == keys[..i];
        Press(keys[i], top);
        top := NextTop(|rows|, |screen|, top, keys[i]);
        i := i + 1;
      }
      assert keys[..i] == keys;
    }
  }

  /** dialog_textbox: whatever keys are pressed, the screen shows what a viewer of the whole file
      in memory would show, and back_lines never meets its internal error. */
  method Browse(file: seq<char>, height: nat, keys: seq<Key>) returns (screen: seq<seq<char>>)
    requires NUL !in file && height >= 1
    ensures |screen| == height
    ensures forall i :: 0 <= i < height ==>
      screen[i] == RowAt(Rows(file), Browsed(LastLine(file) + 1, height, keys) + i)
  {
    var box := new TextBox.Open(file, height);
    box.PrintPage(0);
    box.PressAll(keys);
    screen := box.screen;
  }
}
