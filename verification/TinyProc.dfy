/**
 The proc file of the tty driver (tty/tiny_tty.c:340-367): a fixed header and one line per opened port,
 printed into a page anew at every read, with the part before the offset thrown away as it goes by.
 */
module TinyProc {
  import opened Bytes

  // ---- The file, as a text ----

  function Decimal(n: nat): string {
    if n < 10 then ['0' + n as char] else Decimal(n / 10) + ['0' + (n % 10) as char]
  }

  function Line(i: nat): string {
    Decimal(i) + "\n"
  }

  /** What is printed for each port, if it exists. */
  type Table = seq<Option<string>>

  function Printout(open: seq<bool>): (table: Table)
    ensures |table| == |open|
    ensures forall i :: 0 <= i < |open| ==> table[i] == (if open[i] then Some(Line(i)) else None)
  {
    seq(|open|, i requires 0 <= i < |open| => if open[i] then Some(Line(i)) else None)
  }

  /** The lines of the first `n` ports. */
  function Lines(table: Table, n: nat): string
    requires n <= |table|
  {
    if n == 0 then "" else Lines(table, n - 1) + (if table[n - 1].Some? then table[n - 1].value else "")
  }

  /** What a reader of decimal lines makes of a text; `acc` is the value of the digits it has seen of the line. */
  function Numbers(text: string, acc: int): seq<int> {
    if text == "" then []
    else if text[0] == '\n' then [acc] + Numbers(text[1..], 0)
    else Numbers(text[1..], 10 * acc + (text[0] as int - '0' as int))
  }

  lemma {:induction false} DecimalDenotes(n: nat, rest: string)
    ensures Numbers(Decimal(n) + rest, 0) == Numbers(rest, n)
    decreases n
  {
    var digit := ['0' + (n % 10) as char];
    if n < 10 {
      assert digit + rest == Decimal(n) + rest && (digit + rest)[1..] == rest;
    } else {
      DecimalDenotes(n / 10, digit + rest);
      assert Decimal(n) + rest == Decimal(n / 10) + (digit + rest);
      assert (digit + rest)[1..] == rest;
    }
  }

  lemma LineDenotes(n: nat, rest: string)
    ensures Numbers(Line(n) + rest, 0) == [n] + Numbers(rest, 0)
  {
    var end := "\n" + rest;
    DecimalDenotes(n, end);
    assert Line(n) + rest == Decimal(n) + end;
    assert end[0] == '\n' && end[1..] == rest;
  }

  function OpenPorts(open: seq<bool>, n: nat): seq<int>
    requires n <= |open|
  {
    if n == 0 then [] else OpenPorts(open, n - 1) + (if open[n - 1] then [n - 1] else [])
  }

  lemma {:induction false} OpenPortsExactly(open: seq<bool>, n: nat)
    requires n <= |open|
    ensures forall i :: i in OpenPorts(open, n) <==> 0 <= i < n && open[i]
    ensures forall a, b :: 0 <= a < b < |OpenPorts(open, n)| ==> OpenPorts(open, n)[a] < OpenPorts(open, n)[b]
  {
    if n > 0 {
      OpenPortsExactly(open, n - 1);
      var before := OpenPorts(open, n - 1);
      assert forall a :: 0 <= a < |before| ==> before[a] in before;
    }
  }

  lemma OneLineMore(before: string, line: string, rest: string, ports: seq<int>, more: seq<int>)
    requires Numbers(before + (line + rest), 0) == ports + Numbers(line + rest, 0)
    requires Numbers(line + rest, 0) == more + Numbers(rest, 0)
    ensures Numbers(before + line + rest, 0) == ports + more + Numbers(rest, 0)
  {
    assert before + line + rest == before + (line + rest);
  }

  lemma {:induction false} LinesDenote(open: seq<bool>, n: nat, rest: string)
    requires n <= |open|
    ensures Numbers(Lines(Printout(open), n) + rest, 0) == OpenPorts(open, n) + Numbers(rest, 0)
  {
    if n == 0 {
      assert "" + rest == rest;
    } else {
      var line, more := if open[n - 1] then Line(n - 1) else "", if open[n - 1] then [n - 1] else [];
      LinesDenote(open, n - 1, line + rest);
      LineDenotes(n - 1, rest);
      assert "" + rest == rest;
      OneLineMore(Lines(Printout(open), n - 1), line, rest, OpenPorts(open, n - 1), more);
    }
  }

  /** Read back, the lines name the open ports, each once and in ascending order, and no other. */
  lemma PrintoutNamesPorts(open: seq<bool>)
    ensures var ports := Numbers(Lines(Printout(open), |open|), 0);
            && (forall i :: i in ports <==> 0 <= i < |open| && open[i])
            && forall a, b :: 0 <= a < b < |ports| ==> ports[a] < ports[b]
  {
    LinesDenote(open, |open|, "");
    OpenPortsExactly(open, |open|);
    assert Lines(Printout(open), |open|) + "" == Lines(Printout(open), |open|);
  }

  function Text(header: string, table: Table): string {
    header + Lines(table, |table|)
  }

  /** What a read at an offset is to return. */
  function Window(text: string, off: nat, count: nat): string {
    text[Min(off, |text|)..Min(off + count, |text|)]
  }

  lemma WindowExact(text: string, off: nat, count: nat, w: string)
    requires w == Window(text, off, count)
    ensures |w| == Min(count, Max(0, |text| - off))
    ensures |w| > 0 ==> w == text[off..off + |w|]
  {
  }

  lemma {:induction false} LinesGrow(table: Table, n: nat)
    requires n <= |table|
    ensures |Lines(table, n)| <= |Lines(table, |table|)| && Lines(table, |table|)[..|Lines(table, n)|] == Lines(table, n)
    decreases |table| - n
  {
    if n < |table| {
      LinesGrow(table, n + 1);
      var a, b, c := Lines(table, n), Lines(table, n + 1), Lines(table, |table|);
      assert c[..|a|] == c[..|b|][..|a|] == b[..|a|] == a;
    }
  }

  /** One of the first `n` ports exists. */
  predicate Any(table: Table, n: nat)
    requires n <= |table|
  {
    exists i :: 0 <= i < n && table[i].Some?
  }

  lemma Subslice(p: string, n: nat, a: nat, b: nat)
    requires a <= b <= n <= |p|
    ensures p[..n][a..b] == p[a..b]
  {
  }

  lemma SliceOfTail(p: string, n: nat, a: nat, b: nat)
    requires n <= a <= b <= |p|
    ensures p[n..][a - n..b - n] == p[a..b]
  {
  }

  /** A page that holds a text up to or beyond the window, but for a part before the offset, holds the window. */
  lemma WindowInPage(text: string, shown: string, page: string, begin: nat, off: nat, count: nat)
    requires shown <= text && begin <= |shown| && begin <= off && page == shown[begin..]
    requires shown == text || |shown| > off + count
    ensures if off >= |shown| then Window(text, off, count) == ""
            else page[off - begin..off - begin + Min(count, |shown| - off)] == Window(text, off, count)
  {
    if off < |shown| {
      var n := Min(count, |shown| - off);
      assert shown == text[..|shown|];
      SliceOfTail(shown, begin, off, off + n);
      Subslice(text, |shown|, off, off + n);
    }
  }

  // ---- The driver ----

  /** `sprintf` at a place in the page, with its closing NUL. */
  method Print(page: array<char>, at: nat, s: string)
    requires at + |s| < page.Length
    modifies page
    ensures page[..at + |s|] == old(page[..at]) + s
  {
    forall i | 0 <= i < |s| {
      page[at + i] := s[i];
    }
    page[at + |s|] := '\0';
  }

  method PrintHeader(page: array<char>, header: string)
    requires |header| < page.Length
    modifies page
    ensures page[..|header|] == header
  {
    Print(page, 0, header);
    assert old(page[..0]) + header == header;
  }

  /** The page limit is not hit: the whole text fits, or a window does with the header and two more lines. */
  ghost predicate Roomy(header: string, table: Table, count: nat, size: nat) {
    |Text(header, table)| < size || exists m: nat :: RoomyFor(header, table, count, size, m)
  }

  ghost predicate RoomyFor(header: string, table: Table, count: nat, size: nat, longest: nat) {
    |header| + count + 2 * longest < size && forall i :: 0 <= i < |table| && table[i].Some? ==> |table[i].value| <= longest
  }

  /** The driver as built: four ports, a header of 28 characters, a page of at least 4096. */
  lemma ShippedDriverIsRoomy(header: string, open: seq<bool>, count: nat, size: nat)
    requires |header| == 28 && |open| == 4 && size >= 4096
    ensures Roomy(header, Printout(open), count, size)
  {
    ShortLines(open, 4);
  }

  lemma {:induction false} ShortLines(open: seq<bool>, n: nat)
    requires n <= |open| <= 10
    ensures |Lines(Printout(open), n)| <= 2 * n
  {
    if n > 0 {
      ShortLines(open, n - 1);
    }
  }

  /** What the loop knows: `text` is printed so far, the page holds it from `begin` on. */
  ghost predicate Printed(header: string, table: Table, i: nat, text: string, page: string, begin: nat) {
    && i <= |table| && text == header + Lines(table, i)
    && begin <= |text| && page == text[begin..]
  }

  lemma PrintedOn(header: string, table: Table, i: nat, text: string, page: string, begin: nat)
    requires Printed(header, table, i, text, page, begin) && i < |table|
    ensures if table[i].Some? then Printed(header, table, i + 1, text + table[i].value, page + table[i].value, begin)
            else Printed(header, table, i + 1, text, page, begin)
  {
    if table[i].Some? {
      assert header + Lines(table, i) + table[i].value == header + (Lines(table, i) + table[i].value);
    }
  }

  /** Nothing is printed, or what is printed reaches the offset but not the end of the window. */
  ghost predicate InPage(header: string, off: nat, count: nat, begin: nat, length: nat, longest: nat) {
    || (begin == 0 && length == |header|)
    || length == 0
    || (off <= begin + length <= off + count && off - begin <= |header| + longest)
  }

  /** Room for another line. */
  ghost predicate HasRoom(header: string, table: Table, off: nat, count: nat, size: nat, longest: nat, begin: nat, length: nat) {
    || |Text(header, table)| < size
    || (RoomyFor(header, table, count, size, longest) && InPage(header, off, count, begin, length, longest))
  }

  lemma RoomForLine(header: string, table: Table, off: nat, count: nat, size: nat, longest: nat, begin: nat, length: nat, i: nat)
    requires HasRoom(header, table, off, count, size, longest, begin, length) && begin <= off
    requires i < |table| && table[i].Some? && begin + length == |header| + |Lines(table, i)|
    ensures length + |table[i].value| < size
    ensures var after := length + |table[i].value|;
            begin + after <= off + count ==>
              if begin + after < off then HasRoom(header, table, off, count, size, longest, begin + after, 0)
              else HasRoom(header, table, off, count, size, longest, begin, after)
  {
    LinesGrow(table, i + 1);
    if |Text(header, table)| >= size {
      assert |table[i].value| <= longest;
    }
  }

  /**
   What holds at the loop guard; `text` is printed so far, and the page holds it from `begin` on.  If the
   page is roomy, for lines up to the length in `room`, there is room for another line.
   */
  ghost predicate Filling(header: string, table: Table, off: nat, count: nat, size: nat,
        room: Option<nat>, port: nat, text: string, shown: string, begin: nat, done: bool)
  {
    && begin <= off && Printed(header, table, port, text, shown, begin)
    && (if done then |text| > off + count && Any(table, port) else |text| <= off + count || !Any(table, port))
    && (room.Some? ==> |shown| < size && (done || HasRoom(header, table, off, count, size, room.value, begin, |shown|)))
  }

  lemma ClosedPort(header: string, table: Table, off: nat, count: nat, size: nat,
        room: Option<nat>, port: nat, text: string, shown: string, begin: nat)
    requires port < |table| && table[port].None? && Filling(header, table, off, count, size, room, port, text, shown, begin, false)
    ensures Filling(header, table, off, count, size, room, port + 1, text, shown, begin, false)
  {
    PrintedOn(header, table, port, text, shown, begin);
  }

  /** What is known of the room in the page. */
  ghost predicate KnownRoom(header: string, table: Table, count: nat, size: nat, room: Option<nat>) {
    room.Some? ==> |Text(header, table)| < size || RoomyFor(header, table, count, size, room.value)
  }

  lemma HeaderFills(header: string, table: Table, off: nat, count: nat, size: nat, room: Option<nat>)
    requires KnownRoom(header, table, count, size, room)
    ensures Filling(header, table, off, count, size, room, 0, header, header, 0, false)
  {
    assert header == header[0..] && header == header + Lines(table, 0);
  }

  /** The memory from the page on is long enough for a line to go past the end of the page. */
  ghost predicate Behind(header: string, table: Table, size: nat, length: nat) {
    size <= length && |header| < length && forall i :: 0 <= i < |table| && table[i].Some? ==> size + |table[i].value| < length
  }

  /** One open port (lines 353-359); `spilled` if it is printed past the end of the page. */
  method PrintPort(ghost header: string, table: Table, off: nat, count: nat, page: array<char>, size: nat,
        ghost room: Option<nat>, port: nat, ghost text: string, length: nat, begin: nat)
    returns (newLength: nat, newBegin: nat, done: bool, spilled: bool)
    requires port < |table| && table[port].Some? && length < size && Behind(header, table, size, page.Length)
    requires Filling(header, table, off, count, size, room, port, text, page[..length], begin, false)
    modifies page
    ensures newLength <= page.Length
    ensures Filling(header, table, off, count, size, room, port + 1, text + table[port].value, page[..newLength], newBegin, done)
    ensures spilled ==> room.None?
  {
    PrintedOn(header, table, port, text, page[..length], begin);
    if room.Some? {
      RoomForLine(header, table, off, count, size, room.value, begin, length, port);
    }
    assert size + |table[port].value| < page.Length;
    Print(page, length, table[port].value);
    newLength, newBegin, done := length + |table[port].value|, begin, false;
    spilled := newLength >= size;
    assert Printed(header, table, port + 1, text + table[port].value, page[..newLength], begin);
    if newLength + begin > off + count {
      done := true;
    } else if newLength + begin < off {
      newBegin := begin + newLength;
      newLength := 0;
      assert page[..newLength] == [] && (text + table[port].value)[newBegin..] == [];
    }
  }

  /** One turn of the loop. */
  method NextPort(header: string, table: Table, off: nat, count: nat, page: array<char>, size: nat,
        ghost room: Option<nat>, port: nat, ghost text: string, length: nat, begin: nat)
    returns (newLength: nat, newBegin: nat, done: bool, spilled: bool, ghost newText: string)
    requires port < |table| && length < size && Behind(header, table, size, page.Length)
    requires Filling(header, table, off, count, size, room, port, text, page[..length], begin, false)
    modifies page
    ensures newLength <= page.Length
    ensures Filling(header, table, off, count, size, room, port + 1, newText, page[..newLength], newBegin, done)
    ensures spilled ==> room.None?
  {
    if table[port].Some? {
      newText := text + table[port].value;
      newLength, newBegin, done, spilled := PrintPort(header, table, off, count, page, size, room, port, text, length, begin);
    } else {
      ClosedPort(header, table, off, count, size, room, port, text, page[..length], begin);
      newLength, newBegin, done, spilled, newText := length, begin, false, false, text;
    }
  }

  /** The loop over the ports, from the header on. */
  method Ports(header: string, table: Table, off: nat, count: nat, page: array<char>, size: nat, ghost room: Option<nat>)
    returns (begin: nat, length: nat, done: bool, spilled: bool, ghost i: nat, ghost text: string)
    requires Behind(header, table, size, page.Length)
    requires Filling(header, table, off, count, size, room, 0, header, page[..|header|], 0, false)
    modifies page
    ensures length <= page.Length && i <= |table| && (i == |table| || length >= size || done)
    ensures Filling(header, table, off, count, size, room, i, text, page[..length], begin, done)
    ensures spilled ==> room.None? || |header| >= size
  {
    begin, length, done, spilled, text := 0, |header|, false, |header| >= size, header;
    var port: nat := 0;
    while port < |table| && length < size && !done
      invariant port <= |table| && length <= page.Length
      invariant Filling(header, table, off, count, size, room, port, text, page[..length], begin, done)
      invariant spilled ==> room.None? || |header| >= size
    {
      var over;
      length, begin, done, over, text := NextPort(header, table, off, count, page, size, room, port, text, length, begin);
      spilled := spilled || over;
      port := port + 1;
    }
    i := port;
  }

  /**
   The header and the loop over the ports (lines 344-360): from `begin` on, the text up to port `i`, which
   is all of it or more than is wanted, unless the page limit was met.
   */
  method Fill(header: string, table: Table, off: nat, count: nat, page: array<char>, size: nat, ghost room: Option<nat>)
    returns (begin: nat, length: nat, done: bool, spilled: bool, ghost i: nat)
    requires Behind(header, table, size, page.Length) && KnownRoom(header, table, count, size, room)
    modifies page
    ensures begin <= off && length <= page.Length && i <= |table|
    ensures Printed(header, table, i, header + Lines(table, i), page[..length], begin)
    ensures if done then begin + length > off + count && Any(table, i)
            else (i == |table| || length >= size) && (begin + length <= off + count || !Any(table, i))
    ensures room.Some? ==> !spilled && length < size
  {
    PrintHeader(page, header);
    HeaderFills(header, table, off, count, size, room);
    ghost var text;
    begin, length, done, spilled, i, text := Ports(header, table, off, count, page, size, room);
  }

  /** The wanted slice of the whole text, and `eof` set when it reaches the end, or when no port is open. */
  predicate Promised(text: string, somePort: bool, off: nat, r: Reply) {
    && r.window == Window(text, off, r.count)
    && (r.eof <==> |text| <= off + r.count || !somePort)
  }

  /** `tiny_read_proc`, whatever is printed for a port. */
  method ReadTable(header: string, table: Table, off: nat, count: nat, page: array<char>, size: nat)
    returns (start: nat, n: nat, eof: bool, spilled: bool, ghost i: nat)
    requires Behind(header, table, size, page.Length)
    modifies page
    ensures start + n <= page.Length && i <= |table|
    ensures page[start..start + n] == Window(header + Lines(table, i), off, count)
    ensures Roomy(header, table, count, size) ==>
              !spilled && Promised(Text(header, table), Any(table, |table|), off, Reply(count, page[start..start + n], eof))
  {
    var begin, length, done;
    ghost var room := KnowRoom(header, table, count, size);
    begin, length, done, spilled, i := Fill(header, table, off, count, page, size, room);
    ghost var shown := header + Lines(table, i);
    LinesGrow(table, i);
    WindowInPage(shown, shown, page[..length], begin, off, count);
    if done || i == |table| {
      WindowInPage(Text(header, table), shown, page[..length], begin, off, count);
    }
    eof := !done;
    if off >= length + begin {
      start, n := 0, 0;
    } else {
      start, n := off - begin, Min(count, begin + length - off);
      Subslice(page[..], length, start, start + n);
    }
  }

  lemma KnowRoom(header: string, table: Table, count: nat, size: nat) returns (room: Option<nat>)
    ensures KnownRoom(header, table, count, size, room)
    ensures room.Some? <==> Roomy(header, table, count, size)
  {
    if |Text(header, table)| < size {
      room := Some(0);
    } else if Roomy(header, table, count, size) {
      var m: nat :| RoomyFor(header, table, count, size, m);
      room := Some(m);
    } else {
      room := None;
    }
  }

  predicate SomePort(open: seq<bool>) {
    exists i :: 0 <= i < |open| && open[i]
  }

  lemma PortsPrint(open: seq<bool>)
    ensures SomePort(open) <==> Any(Printout(open), |open|)
  {
    if SomePort(open) {
      var i :| 0 <= i < |open| && open[i];
      assert Printout(open)[i].Some?;
    }
  }

  /**
   `tiny_read_proc`, with a page of `size` bytes.  The window is a slice of the text up to some port, the
   last one the loop came to.  If the page is roomy it is the wanted slice of the whole text, nothing is
   printed past the page, and `eof` is right except when no port is open, where it is set although part of
   the header may be left.
   */
  method ReadProc(header: string, open: seq<bool>, off: nat, count: nat, page: array<char>, size: nat)
    returns (start: nat, n: nat, eof: bool, spilled: bool, ghost i: nat)
    requires Behind(header, Printout(open), size, page.Length)
    modifies page
    ensures start + n <= page.Length && i <= |open|
    ensures var text := header + Lines(Printout(open), i);
            && n == Min(count, Max(0, |text| - off))
            && (n > 0 ==> page[start..start + n] == text[off..off + n])
    ensures Roomy(header, Printout(open), count, size) ==>
              !spilled && Promised(Text(header, Printout(open)), SomePort(open), off, Reply(count, page[start..start + n], eof))
  {
    PortsPrint(open);
    start, n, eof, spilled, i := ReadTable(header, Printout(open), off, count, page, size);
    WindowExact(header + Lines(Printout(open), i), off, count, page[start..start + n]);
  }

  /** No port open, a read of ten bytes: the end of the file is reported after ten of the 28 characters of the header. */
  method EndReportedEarly(page: array<char>) returns (start: nat, n: nat, eof: bool)
    requires page.Length == 8192
    modifies page
    ensures eof && n == 10 && |Text("tinyserinfo:1.0 driver:v2.0\n", Printout([false, false, false, false]))| == 28
  {
    var header, open := "tinyserinfo:1.0 driver:v2.0\n", [false, false, false, false];
    ShippedDriverIsRoomy(header, open, 10, 4096);
    var spilled;
    ghost var i;
    start, n, eof, spilled, i := ReadProc(header, open, 0, 10, page, 4096);
    assert |page[start..start + n]| == |Window(Text(header, Printout(open)), 0, 10)|;
  }

  // ---- Repeated reads ----

  /** One read of so many bytes, and what came of it. */
  datatype Reply = Reply(count: nat, window: string, eof: bool)

  /** Reads one after the other, each from where the one before ended, with results as ReadProc promises them. */
  ghost predicate Session(text: string, somePort: bool, off: nat, replies: seq<Reply>)
    decreases |replies|
  {
    replies == [] ||
    (&& Promised(text, somePort, off, replies[0])
     && Session(text, somePort, off + |replies[0].window|, replies[1..]))
  }

  function Got(replies: seq<Reply>): string {
    if replies == [] then "" else replies[0].window + Got(replies[1..])
  }

  lemma WindowIsASlice(text: string, off: nat, count: nat)
    requires off <= |text|
    ensures var w := Window(text, off, count); off + |w| <= |text| && w == text[off..off + |w|]
  {
  }

  lemma {:induction false} SessionIsASlice(text: string, somePort: bool, off: nat, replies: seq<Reply>)
    requires Session(text, somePort, off, replies) && off <= |text|
    ensures off + |Got(replies)| <= |text|
    ensures Got(replies) == text[off..off + |Got(replies)|]
    decreases |replies|
  {
    if replies != [] {
      var w, rest := replies[0].window, Got(replies[1..]);
      WindowIsASlice(text, off, replies[0].count);
      SessionIsASlice(text, somePort, off + |w|, replies[1..]);
      Joined(text, off, off + |w|, off + |w| + |rest|);
      assert Got(replies) == w + rest;
    }
  }

  lemma Joined(p: string, a: nat, b: nat, c: nat)
    requires a <= b <= c <= |p|
    ensures p[a..b] + p[b..c] == p[a..c]
  {
  }

  /** Reading on until a read for at least one byte returns none gives the whole text, whatever the sizes. */
  lemma ReadsReassemble(text: string, somePort: bool, replies: seq<Reply>, last: Reply)
    requires Session(text, somePort, 0, replies) && Promised(text, somePort, |Got(replies)|, last)
    requires last.count > 0 && last.window == ""
    ensures Got(replies) == text
  {
    SessionIsASlice(text, somePort, 0, replies);
  }

  /** And that point is reached, after no more reads than the text is long. */
  lemma {:induction false} ReadsEnd(text: string, somePort: bool, off: nat, replies: seq<Reply>)
    requires Session(text, somePort, off, replies) && forall i :: 0 <= i < |replies| ==> replies[i].count > 0
    requires off <= |text| <= off + |replies|
    ensures Got(replies) == text[off..]
    decreases |replies|
  {
    SessionIsASlice(text, somePort, off, replies);
    if replies != [] && off < |text| {
      ReadsEnd(text, somePort, off + |replies[0].window|, replies[1..]);
    }
  }

  /**
   A caller that stops when the end of the file is reported has the whole text if some port is open.  With
   none, it has it exactly when its last read reached the end of the header.
   */
  lemma StoppingAtEof(text: string, somePort: bool, replies: seq<Reply>, last: Reply)
    requires Session(text, somePort, 0, replies) && Promised(text, somePort, |Got(replies)|, last) && last.eof
    ensures Got(replies) + last.window == text <==> somePort || |text| <= |Got(replies)| + last.count
  {
    var n := |Got(replies)|;
    SessionIsASlice(text, somePort, 0, replies);
    WindowIsASlice(text, n, last.count);
    Joined(text, 0, n, n + |last.window|);
    assert text[0..|text|] == text;
  }
}
