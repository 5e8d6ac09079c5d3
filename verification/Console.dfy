/** The console driver (software/kozos/consdrv.c) and the serial look-ahead (software/kozos/serial.c)
    as streams.  Class ConsoleDriver.Driver is the code and is proved to do the same. */
module Console {
  const CAPACITY: nat := 24      // CONS_BUFFER_SIZE
  const CR: int := 13
  const LF: int := 10
  const EMPTY: int := -1         // received_val when nothing is cached

  /** used says whether cons->id is set; rx is the input still to come, tx the bytes transmitted;
      cache is received_val, buf the send buffer, ie the transmit interrupt enable, line the receive
      buffer and lines the messages sent to CONSINPUT.  popped, returned and written are history: the
      bytes taken off the receive FIFO, the bytes serial_recv_byte returned, and the characters handed
      to send_string. */
  datatype Con = Con(used: bool, rx: seq<int>, tx: seq<int>, cache: int, buf: seq<int>, ie: bool,
                     line: seq<int>, lines: seq<seq<int>>,
                     popped: seq<int>, returned: seq<int>, written: seq<int>)

  /** serial_recv_byte waits, with interrupts masked, until the FIFO has a byte: Spins if none comes. */
  datatype Result = Spins | Done(c: Con)

  // ---------------------------------------------------------------- output

  /** A newline goes out as carriage return and newline. */
  function Expand(s: seq<int>): seq<int> {
    if s == [] then []
    else Expand(s[..|s| - 1]) + (if s[|s| - 1] == LF then [CR, LF] else [s[|s| - 1]])
  }

  lemma {:induction false} ExpandConcat(s: seq<int>, t: seq<int>)
    ensures Expand(s + t) == Expand(s) + Expand(t)
  {
    if t == [] {
      assert s + t == s;
    } else {
      assert (s + t)[..|s + t| - 1] == s + t[..|t| - 1];
      ExpandConcat(s, t[..|t| - 1]);
    }
  }

  function SendChar(c: Con): Con requires c.buf != [] {
    c.(tx := c.tx + [c.buf[0]], buf := c.buf[1..])
  }

  /** Append to the send buffer; start transmitting unless the interrupt will. */
  function SendString(c: Con, s: seq<int>): Con {
    var c1 := c.(buf := c.buf + Expand(s), written := c.written + s);
    if c1.buf != [] && !c1.ie then SendChar(c1.(ie := true)) else c1
  }

  /** The transmit half of the interrupt, when the transmitter is ready. */
  function TxReady(c: Con): Con {
    if c.buf == [] then c.(ie := false) else SendChar(c)
  }

  function Transmit(c: Con, ready: bool): Con { if ready then TxReady(c) else c }

  // ---------------------------------------------------------------- input

  /** Whether serial_is_recv_enable answers yes; `avail` says whether the next byte has arrived. */
  predicate Polled(c: Con, avail: bool) { c.cache > 0 || (avail && c.rx != []) }

  function Poll(c: Con, avail: bool): Con {
    if c.cache > 0 || !avail || c.rx == [] then c
    else c.(cache := c.rx[0], rx := c.rx[1..], popped := c.popped + [c.rx[0]])
  }

  /** serial_recv_byte polls until a byte is there; that byte is the new cache before it is cleared. */
  function Recv(c: Con): (Con, int)
    requires c.cache > 0 || c.rx != []
  {
    var c1 := Poll(c, true);
    (c1.(cache := EMPTY, returned := c1.returned + [c1.cache]), c1.cache)
  }

  function Mapped(b: int): int { if b == CR then LF else b }

  /** Echo one character and edit the line; a newline passes the line on. */
  function Typed(c: Con, ch: int): Con {
    var c1 := SendString(c, [ch]);
    if ch != LF then c1.(line := c1.line + [ch])
    else c1.(lines := c1.lines + [c1.line], line := [])
  }

  /** consdrv_intrproc; its one caller has seen cons->id. */
  function IntrProc(c: Con, avail: bool, ready: bool): Result {
    var c1 := Poll(c, avail);
    if !Polled(c, avail) then Done(Transmit(c1, ready))
    else if c1.cache <= 0 && c1.rx == [] then Spins
    else
      var (d, b) := Recv(c1);
      Done(Transmit(Typed(d, Mapped(b)), ready))
  }

  /** consdrv_intr: the receiver is polled only when the transmitter is not ready. */
  function Intr(c: Con, ready1: bool, avail1: bool, avail2: bool, ready2: bool): Result {
    if !c.used then Done(c)
    else if ready1 then IntrProc(c, avail2, ready2)
    else if Polled(c, avail1) then IntrProc(Poll(c, avail1), avail2, ready2)
    else Done(c)
  }

  // ---------------------------------------------------------------- runs

  /** A USE command is five events, because interrupts are not masked meanwhile: cons->id is set, the
      buffers are replaced by blocks that hold anything, and the lengths are set to 0. */
  datatype Event =
    | TakeId(id: int)
    | NewSendBuf(junk: seq<int>)
    | NewRecvBuf(junk: seq<int>)
    | ResetSend
    | ResetRecv
    | Write(s: seq<int>)
    | Interrupt(ready1: bool, avail1: bool, avail2: bool, ready2: bool)

  predicate OfUse(e: Event) { !e.Write? && !e.Interrupt? }

  /** The first n bytes of a block that holds anything. */
  function Junk(junk: seq<int>, n: nat): (r: seq<int>)
    ensures |r| == n
  {
    seq(n, i => if 0 <= i < |junk| then junk[i] else 0)
  }

  function Step(c: Con, e: Event): Result {
    match e
    case TakeId(id) => Done(c.(used := id != 0))
    case NewSendBuf(junk) => Done(c.(buf := Junk(junk, |c.buf|)))
    case NewRecvBuf(junk) => Done(c.(line := Junk(junk, |c.line|)))
    case ResetSend => Done(c.(buf := []))
    case ResetRecv => Done(c.(line := []))
    case Write(s) => Done(SendString(c, s))
    case Interrupt(r1, a1, a2, r2) => Intr(c, r1, a1, a2, r2)
  }

  function Run(c: Con, es: seq<Event>): Result {
    if es == [] then Done(c)
    else
      var r := Run(c, es[..|es| - 1]);
      if r.Spins? then Spins else Step(r.c, es[|es| - 1])
  }

  lemma RunMore(c: Con, es: seq<Event>, e: Event)
    ensures Run(c, es + [e]) == if Run(c, es).Spins? then Spins else Step(Run(c, es).c, e)
  {
    assert (es + [e])[..|es|] == es;
  }

  /** A USE command that no interrupt breaks into forgets what is in the buffers. */
  function UseConsole(c: Con, id: int): Con { c.(used := id != 0, buf := [], line := []) }

  function UseSteps(id: int, junk: seq<int>): seq<Event> {
    [TakeId(id), NewSendBuf(junk), NewRecvBuf(junk), ResetSend, ResetRecv]
  }

  lemma UseIsSteps(c: Con, id: int, junk: seq<int>)
    ensures Run(c, UseSteps(id, junk)) == Done(UseConsole(c, id))
    ensures UseConsole(c, id) == c.(used := id != 0, buf := [], line := [])
  {
    hide Run;
    var es := UseSteps(id, junk);
    assert Run(c, []) == Done(c) by { RunNothing(c); }
    RunMore(c, [], es[0]);
    RunMore(c, [es[0]], es[1]);
    RunMore(c, [es[0], es[1]], es[2]);
    RunMore(c, [es[0], es[1], es[2]], es[3]);
    RunMore(c, [es[0], es[1], es[2], es[3]], es[4]);
    assert [] + [es[0]] == [es[0]] && [es[0]] + [es[1]] == [es[0], es[1]];
    assert [es[0], es[1]] + [es[2]] == [es[0], es[1], es[2]];
    assert [es[0], es[1], es[2]] + [es[3]] == [es[0], es[1], es[2], es[3]];
    assert [es[0], es[1], es[2], es[3]] + [es[4]] == es;
  }

  lemma RunNothing(c: Con)
    ensures Run(c, []) == Done(c)
  {
  }

  /** After consdrv_init. */
  function Fresh(rx: seq<int>): Con { Con(false, rx, [], EMPTY, [], false, [], [], [], [], []) }

  /** Just after the first USE command. */
  function Used(rx: seq<int>): Con { UseConsole(Fresh(rx), 1) }

  ghost predicate NulFree(s: seq<int>) { forall i :: 0 <= i < |s| ==> s[i] > 0 }

  function MapAll(s: seq<int>): seq<int> { seq(|s|, i requires 0 <= i < |s| => Mapped(s[i])) }

  // ---------------------------------------------------------------- what the events ask for

  /** The byte an event makes the handler take: the next one, if the poll that counts finds it. */
  function Taken(c: Con, e: Event): seq<int> {
    if e.Interrupt? && c.used && c.rx != [] && (if e.ready1 then e.avail2 else e.avail1) then [c.rx[0]] else []
  }

  /** The characters an event asks to print: those of a WRITE, or the echo. */
  function Asked(c: Con, e: Event): seq<int> { if e.Write? then e.s else MapAll(Taken(c, e)) }

  function TakenBy(c: Con, es: seq<Event>): seq<int> {
    if es == [] then []
    else
      var r := Run(c, es[..|es| - 1]);
      TakenBy(c, es[..|es| - 1]) + (if r.Done? then Taken(r.c, es[|es| - 1]) else [])
  }

  function AskedBy(c: Con, es: seq<Event>): seq<int> {
    if es == [] then []
    else
      var r := Run(c, es[..|es| - 1]);
      AskedBy(c, es[..|es| - 1]) + (if r.Done? then Asked(r.c, es[|es| - 1]) else [])
  }

  // ---------------------------------------------------------------- the output stream

  /** What has gone out, and what waits in the buffer, is what was written; a waiting byte has its
      interrupt enabled. */
  ghost predicate OutOk(c: Con) {
    c.tx + c.buf == Expand(c.written) && (c.buf != [] ==> c.ie)
  }

  /** Only the output half differs. */
  predicate SameInput(c: Con, r: Con) {
    r == c.(tx := r.tx, buf := r.buf, ie := r.ie, written := r.written)
  }

  lemma SendCharMoves(c: Con)
    requires c.buf != []
    ensures SendChar(c).tx + SendChar(c).buf == c.tx + c.buf
  {
    assert c.buf == [c.buf[0]] + c.buf[1..];
  }

  lemma SendStringOut(c: Con, s: seq<int>)
    requires OutOk(c)
    ensures var r := SendString(c, s); OutOk(r) && SameInput(c, r) && r.written == c.written + s
  {
    hide Expand;
    ExpandConcat(c.written, s);
    var c1 := c.(buf := c.buf + Expand(s), written := c.written + s);
    assert c1.tx + c1.buf == (c.tx + c.buf) + Expand(s);
    if c1.buf != [] && !c1.ie { SendCharMoves(c1.(ie := true)); }
  }

  lemma TransmitOut(c: Con, ready: bool)
    requires OutOk(c)
    ensures var r := Transmit(c, ready); OutOk(r) && SameInput(c, r) && r.written == c.written
  {
    hide Expand;
    if c.buf != [] { SendCharMoves(c); }
  }

  // ---------------------------------------------------------------- the input stream

  /** Lines with their newlines, one after another. */
  function Joined(lines: seq<seq<int>>): seq<int> {
    if lines == [] then [] else Joined(lines[..|lines| - 1]) + lines[|lines| - 1] + [LF]
  }

  predicate NoNewline(line: seq<int>) { forall i :: 0 <= i < |line| ==> line[i] != LF }

  /** The messages and the line are the bytes returned, split at the newlines. */
  ghost predicate LinesOk(c: Con) {
    && Joined(c.lines) + c.line == MapAll(c.returned)
    && NoNewline(c.line) && forall k :: 0 <= k < |c.lines| ==> NoNewline(c.lines[k])
  }

  /** Between two events nothing is cached, and no byte is lost. */
  ghost predicate InOk(c: Con, input: seq<int>) {
    c.cache == EMPTY && NulFree(c.rx) && c.popped == c.returned && c.returned + c.rx == input && LinesOk(c)
  }

  lemma MapAllConcat(s: seq<int>, t: seq<int>)
    ensures MapAll(s + t) == MapAll(s) + MapAll(t)
  {
  }

  lemma TypedOut(c: Con, ch: int)
    requires OutOk(c)
    ensures var r := Typed(c, ch);
      && OutOk(r) && r.written == c.written + [ch]
      && SameInput(c.(line := r.line, lines := r.lines), r)
      && r.line == (if ch != LF then c.line + [ch] else [])
      && r.lines == (if ch != LF then c.lines else c.lines + [c.line])
  {
    hide Expand, SendString;
    SendStringOut(c, [ch]);
  }

  lemma LinesMore(c: Con, r: Con, b: int)
    requires LinesOk(c) && r.returned == c.returned + [b]
    requires r.line == (if Mapped(b) != LF then c.line + [Mapped(b)] else [])
    requires r.lines == (if Mapped(b) != LF then c.lines else c.lines + [c.line])
    ensures LinesOk(r)
  {
    MapAllConcat(c.returned, [b]);
    hide MapAll;
    assert MapAll([b]) == [Mapped(b)] by { MapOne(b); }
    if Mapped(b) == LF {
      assert r.lines[..|c.lines|] == c.lines;
    }
  }

  lemma MapOne(b: int)
    ensures MapAll([b]) == [Mapped(b)]
  {
  }

  /** One byte through the handler: taken, echoed and put on the line. */
  lemma TypedLines(c: Con, b: int)
    requires OutOk(c) && LinesOk(c)
    ensures var d := c.(returned := c.returned + [b]);
      var r := Typed(d, Mapped(b));
      && OutOk(r) && LinesOk(r) && r.written == c.written + MapAll([b])
      && r == d.(tx := r.tx, buf := r.buf, ie := r.ie, written := r.written, line := r.line, lines := r.lines)
  {
    hide Expand, Typed, LinesOk, MapAll;
    var d := c.(returned := c.returned + [b]);
    TypedOut(d, Mapped(b));
    MapOne(b);
    LinesMore(c, Typed(d, Mapped(b)), b);
  }

  lemma SameLines(c: Con, r: Con)
    requires SameInput(c, r) && LinesOk(c)
    ensures LinesOk(r)
  {
  }

  /** The handler with its next byte in the FIFO or already polled. */
  lemma IntrProcTakes(c: Con, avail: bool, ready: bool, input: seq<int>)
    requires OutOk(c) && LinesOk(c) && c.cache > 0 && NulFree(c.rx)
    requires c.popped == c.returned + [c.cache] && c.popped + c.rx == input
    ensures var o := IntrProc(c, avail, ready);
      && o.Done? && OutOk(o.c) && InOk(o.c, input) && o.c.used == c.used
      && o.c.returned == c.returned + [c.cache] && o.c.written == c.written + MapAll([c.cache])
  {
    hide OutOk, LinesOk, Typed, Transmit, MapAll;
    var d0 := c.(cache := EMPTY);
    assert OutOk(d0) && LinesOk(d0) by { CacheAside(c, EMPTY); }
    TypedLines(d0, c.cache);
    var d := d0.(returned := c.returned + [c.cache]);
    assert Recv(c) == (d, c.cache);
    var t := Typed(d, Mapped(c.cache));
    TransmitOut(t, ready);
    SameLines(t, Transmit(t, ready));
  }

  lemma CacheAside(c: Con, v: int)
    requires OutOk(c) && LinesOk(c)
    ensures OutOk(c.(cache := v)) && LinesOk(c.(cache := v))
  {
  }

  /** Polling an arrived byte into an empty cache. */
  lemma PollTakes(c: Con, input: seq<int>)
    requires OutOk(c) && InOk(c, input) && c.rx != []
    ensures var r := Poll(c, true);
      && r == c.(cache := c.rx[0], rx := c.rx[1..], popped := c.popped + [c.rx[0]])
      && OutOk(r) && LinesOk(r) && r.cache > 0 && NulFree(r.rx)
      && r.popped == r.returned + [r.cache] && r.popped + r.rx == input
  {
    hide Expand, Joined, MapAll;
    assert c.rx == [c.rx[0]] + c.rx[1..];
  }

  /** The handler when no byte has arrived. */
  lemma IntrProcIdle(c: Con, avail: bool, ready: bool, input: seq<int>)
    requires OutOk(c) && InOk(c, input) && (!avail || c.rx == [])
    ensures var o := IntrProc(c, avail, ready);
      && o == Done(Transmit(c, ready)) && OutOk(o.c) && InOk(o.c, input) && SameInput(c, o.c)
      && o.c.written == c.written
  {
    hide OutOk, LinesOk, Transmit;
    TransmitOut(c, ready);
    SameLines(c, Transmit(c, ready));
  }

  /** The handler polls its byte itself, or finds it polled. */
  lemma PolledTwice(c: Con, avail: bool, ready: bool)
    requires c.rx != [] && c.rx[0] > 0 && c.cache == EMPTY
    ensures IntrProc(c, true, ready) == IntrProc(Poll(c, true), avail, ready)
  {
    hide Transmit, Typed;
  }

  // ---------------------------------------------------------------- every step and every run

  lemma IntrKeeps(c: Con, e: Event, input: seq<int>)
    requires e.Interrupt? && OutOk(c) && InOk(c, input)
    ensures var r := Step(c, e);
      && r.Done? && OutOk(r.c) && InOk(r.c, input) && r.c.used == c.used
      && r.c.returned == c.returned + Taken(c, e) && r.c.written == c.written + Asked(c, e)
  {
    hide OutOk, LinesOk, IntrProc;
    assert MapAll([]) == [] && c.returned + [] == c.returned && c.written + [] == c.written;
    if !c.used {
    } else if c.rx != [] && (if e.ready1 then e.avail2 else e.avail1) {
      hide MapAll;
      var p := Poll(c, true);
      PollTakes(c, input);
      IntrProcTakes(p, e.avail2, e.ready2, input);
      PolledTwice(c, e.avail2, e.ready2);
    } else if e.ready1 {
      IntrProcIdle(c, e.avail2, e.ready2, input);
    }
  }

  lemma WriteKeeps(c: Con, s: seq<int>, input: seq<int>)
    requires OutOk(c) && InOk(c, input)
    ensures var r := SendString(c, s);
      OutOk(r) && InOk(r, input) && SameInput(c, r) && r.written == c.written + s
  {
    hide OutOk, LinesOk, SendString;
    SendStringOut(c, s);
    SameLines(c, SendString(c, s));
  }

  /** Whether an event of a USE command leaves what waits in the send buffer, and in the line. */
  predicate SparesSend(c: Con, e: Event) {
    match e
    case NewSendBuf(junk) => Junk(junk, |c.buf|) == c.buf
    case ResetSend => c.buf == []
    case _ => true
  }

  predicate SparesLine(c: Con, e: Event) {
    match e
    case NewRecvBuf(junk) => Junk(junk, |c.line|) == c.line
    case ResetRecv => c.line == []
    case _ => true
  }

  /** Each event of a USE command keeps each stream if and only if it leaves what waits in the buffer
      of that stream; for instance when nothing does. */
  lemma UseExactly(c: Con, e: Event, input: seq<int>)
    requires OutOk(c) && InOk(c, input) && OfUse(e)
    ensures Step(c, e).Done?
    ensures OutOk(Step(c, e).c) <==> SparesSend(c, e)
    ensures InOk(Step(c, e).c, input) <==> SparesLine(c, e)
  {
    hide Expand, Joined, MapAll, Junk;
    var r := Step(c, e).c;
    SameTail(c.tx, c.buf, r.buf);
    SameTail(Joined(c.lines), c.line, r.line);
  }

  lemma SameTail(s: seq<int>, t: seq<int>, u: seq<int>)
    ensures s + t == s + u <==> t == u
  {
    assert (s + t)[|s|..] == t && (s + u)[|s|..] == u;
  }

  /** A byte that arrives during a USE command, after its buffer was replaced, is taken and dropped. */
  lemma UseDropsByte()
    ensures var r := Run(Used([65]), UseSteps(1, [])[..4] + [Interrupt(true, false, true, false), ResetRecv]);
      r.Done? && r.c.returned == [65] && r.c.line == [] && r.c.lines == []
  {
    hide Run;
    var c, es, i := Used([65]), UseSteps(1, [])[..4], Interrupt(true, false, true, false);
    assert Run(c, es) == Done(c) by { FirstSteps(c); }
    RunMore(c, es, i);
    RunMore(c, es + [i], ResetRecv);
    assert es + [i] + [ResetRecv] == es + [i, ResetRecv];
  }

  lemma FirstSteps(c: Con)
    requires c.used && c.buf == [] && c.line == []
    ensures Run(c, UseSteps(1, [])[..4]) == Done(c)
  {
    hide Run;
    var es := UseSteps(1, []);
    RunNothing(c);
    RunMore(c, [], es[0]);
    RunMore(c, es[..1], es[1]);
    RunMore(c, es[..2], es[2]);
    RunMore(c, es[..3], es[3]);
    assert [] + [es[0]] == es[..1] && es[..1] + [es[1]] == es[..2];
    assert es[..2] + [es[2]] == es[..3] && es[..3] + [es[3]] == es[..4];
  }

  /** A step takes the byte and prints the characters its event asks for. */
  lemma StepKeeps(c: Con, e: Event, input: seq<int>)
    requires OutOk(c) && InOk(c, input) && SparesSend(c, e) && SparesLine(c, e)
    ensures var r := Step(c, e);
      && r.Done? && OutOk(r.c) && InOk(r.c, input)
      && r.c.returned == c.returned + Taken(c, e) && r.c.written == c.written + Asked(c, e)
  {
    hide OutOk, InOk, Intr;
    assert MapAll([]) == [] && c.returned + [] == c.returned && c.written + [] == c.written;
    if e.Write? {
      WriteKeeps(c, e.s, input);
    } else if e.Interrupt? {
      IntrKeeps(c, e, input);
    } else {
      UseExactly(c, e, input);
    }
  }

  /** USE commands come when nothing waits that they would drop. */
  ghost predicate Orderly(c: Con, es: seq<Event>) {
    es == [] ||
    (Orderly(c, es[..|es| - 1]) &&
     var r := Run(c, es[..|es| - 1]);
     r.Done? ==> SparesSend(r.c, es[|es| - 1]) && SparesLine(r.c, es[|es| - 1]))
  }

  lemma {:induction false} RunKeeps(input: seq<int>, es: seq<Event>)
    requires NulFree(input) && Orderly(Fresh(input), es)
    ensures var r := Run(Fresh(input), es);
      && r.Done? && OutOk(r.c) && InOk(r.c, input)
      && r.c.returned == TakenBy(Fresh(input), es) && r.c.written == AskedBy(Fresh(input), es)
  {
    if es == [] {
      assert MapAll([]) == [];
    } else {
      hide OutOk, InOk, Step, Fresh;
      var front := es[..|es| - 1];
      RunKeeps(input, front);
      StepKeeps(Run(Fresh(input), front).c, es[|es| - 1], input);
    }
  }

  /** Both streams over every run of commands and interrupts, for input without NUL: what went out and
      what waits are the characters the events asked for, newlines expanded, and a waiting byte has
      its interrupt on; the messages and the line are the bytes the events made the handler take,
      which with the input still to come are the whole input. */
  lemma Streams(input: seq<int>, es: seq<Event>)
    requires NulFree(input) && Orderly(Fresh(input), es)
    ensures var r := Run(Fresh(input), es);
      && r.Done?
      && r.c.tx + r.c.buf == Expand(AskedBy(Fresh(input), es)) && (r.c.buf != [] ==> r.c.ie)
      && Joined(r.c.lines) + r.c.line == MapAll(TakenBy(Fresh(input), es))
      && NoNewline(r.c.line) && (forall k :: 0 <= k < |r.c.lines| ==> NoNewline(r.c.lines[k]))
      && TakenBy(Fresh(input), es) + r.c.rx == input
  {
    hide Run, Fresh, Expand, Joined, MapAll, AskedBy, TakenBy, Orderly;
    RunKeeps(input, es);
  }

  // ---------------------------------------------------------------- byte by byte

  /** A newline goes out as 13 and 10, every other byte as itself. */
  lemma ExpandIs(s: seq<int>, b: int)
    ensures Expand([]) == []
    ensures Expand(s + [b]) == Expand(s) + (if b == 10 then [13, 10] else [b])
  {
    assert (s + [b])[..|s|] == s;
  }

  function IfSent(sent: bool): int { if sent then 1 else 0 }

  /** A string behind what waits; its first byte goes out at once if the transmitter was idle. */
  lemma WriteIs(c: Con, s: seq<int>)
    requires OutOk(c)
    ensures var r := SendString(c, s);
      && r.tx + r.buf == c.tx + c.buf + Expand(s)
      && |r.tx| == |c.tx| + IfSent(!c.ie && Expand(s) != [])
      && r.ie == (c.ie || Expand(s) != [])
      && r == c.(tx := r.tx, buf := r.buf, ie := r.ie, written := r.written)
  {
    hide Expand;
    var c1 := c.(buf := c.buf + Expand(s), written := c.written + s);
    assert c1.tx + c1.buf == c.tx + c.buf + Expand(s);
    if c1.buf != [] && !c1.ie { SendCharMoves(c1.(ie := true)); }
  }

  /** The transmit half: one byte goes out if one waits, else the interrupt is turned off. */
  lemma TransmitIs(c: Con, ready: bool)
    ensures var r := Transmit(c, ready);
      && r.tx + r.buf == c.tx + c.buf && |r.tx| == |c.tx| + IfSent(ready && c.buf != [])
      && r.ie == (c.ie && (ready ==> c.buf != []))
      && r == c.(tx := r.tx, buf := r.buf, ie := r.ie)
  {
    if ready && c.buf != [] { SendCharMoves(c); }
  }

  predicate Enter(b: int) { b == 13 || b == 10 }

  lemma TypedIs(c: Con, b: int)
    requires OutOk(c)
    ensures var r := Typed(c, Mapped(b));
      && r.lines == (if Enter(b) then c.lines + [c.line] else c.lines)
      && r.line == (if Enter(b) then [] else c.line + [b])
      && r.tx + r.buf == c.tx + c.buf + (if Enter(b) then [13, 10] else [b])
      && |r.tx| == |c.tx| + IfSent(!c.ie) && r.ie
      && r == c.(tx := r.tx, buf := r.buf, ie := true, written := r.written, line := r.line, lines := r.lines)
  {
    hide SendString;
    var ch := Mapped(b);
    ExpandIs([], ch);
    assert [] + [ch] == [ch] && Expand([]) + [ch] == [ch] && Expand([]) + [13, 10] == [13, 10];
    WriteIs(c, [ch]);
  }

  /** The bytes an interrupt sends: the first of an echo to an idle transmitter, and then one more if the
      transmitter is ready and a byte waits. */
  function Sends(c: Con, echo: int, ready: bool): int {
    var first := IfSent(echo > 0 && !c.ie);
    first + IfSent(ready && |c.buf| + echo > first)
  }

  /** What one interrupt does, byte by byte: 13 and 10 end the line and send it, every other byte is put on
      it; the echo goes behind what waits; nothing else changes. */
  lemma InterruptIs(c: Con, ready1: bool, avail1: bool, avail2: bool, ready2: bool, input: seq<int>)
    requires OutOk(c) && InOk(c, input) && c.used
    ensures var o := Step(c, Interrupt(ready1, avail1, avail2, ready2));
      && o.Done?
      && if c.rx != [] && (if ready1 then avail2 else avail1) then
           var b := c.rx[0];
           var echo := if Enter(b) then [13, 10] else [b];
           && o.c.rx == c.rx[1..] && o.c.returned == c.returned + [b]
           && o.c.lines == (if Enter(b) then c.lines + [c.line] else c.lines)
           && o.c.line == (if Enter(b) then [] else c.line + [b])
           && o.c.tx + o.c.buf == c.tx + c.buf + echo
           && |o.c.tx| == |c.tx| + Sends(c, |echo|, ready2)
           && o.c.ie == (ready2 ==> |c.buf| + |echo| > IfSent(!c.ie))
         else if ready1 then
           && o.c.tx + o.c.buf == c.tx + c.buf && |o.c.tx| == |c.tx| + Sends(c, 0, ready2)
           && o.c.ie == (c.ie && (ready2 ==> c.buf != []))
           && o.c == c.(tx := o.c.tx, buf := o.c.buf, ie := o.c.ie)
         else o.c == c
  {
    hide OutOk, LinesOk, Transmit, Typed, Mapped;
    if c.rx != [] && (if ready1 then avail2 else avail1) {
      var p := Poll(c, true);
      PollTakes(c, input);
      PolledTwice(c, avail2, ready2);
      TakenIs(c, avail2, ready2);
    } else {
      TransmitIs(c, ready2);
    }
  }

  /** The same of consdrv_intrproc when the byte has been polled. */
  lemma TakenIs(c: Con, avail: bool, ready: bool)
    requires OutOk(c) && c.rx != [] && c.rx[0] > 0 && c.cache == EMPTY
    ensures var o := IntrProc(Poll(c, true), avail, ready);
      var b := c.rx[0];
      var echo := if Enter(b) then [13, 10] else [b];
      && o.Done? && o.c.rx == c.rx[1..] && o.c.returned == c.returned + [b]
      && o.c.lines == (if Enter(b) then c.lines + [c.line] else c.lines)
      && o.c.line == (if Enter(b) then [] else c.line + [b])
      && o.c.tx + o.c.buf == c.tx + c.buf + echo
      && |o.c.tx| == |c.tx| + Sends(c, |echo|, ready)
      && o.c.ie == (ready ==> |c.buf| + |echo| > IfSent(!c.ie))
  {
    hide Transmit, Typed, Expand;
    var p := Poll(c, true);
    var (d, b) := Recv(p);
    assert OutOk(d);
    TypedIs(d, b);
    var t := Typed(d, Mapped(b));
    assert |t.tx + t.buf| == |c.tx + c.buf| + |if Enter(b) then [13, 10] else [b]|;
    TransmitIs(t, ready);
  }

  // ---------------------------------------------------------------- draining

  /** An interrupt of a ready transmitter, with nothing received. */
  const TX_ONLY: Event := Interrupt(true, false, false, true)

  function TxTimes(n: nat): seq<Event> { seq(n, _ => TX_ONLY) }

  lemma {:induction false} TxPrefix(c: Con, es: seq<Event>, n: nat)
    requires var r := Run(c, es); r.Done? && r.c.used && r.c.cache == EMPTY && n <= |r.c.buf|
    ensures var d := Run(c, es).c;
      Run(c, es + TxTimes(n)) == Done(d.(tx := d.tx + d.buf[..n], buf := d.buf[n..]))
  {
    hide Run;
    var d := Run(c, es).c;
    if n == 0 {
      assert es + TxTimes(0) == es && d.tx + d.buf[..0] == d.tx && d.buf[0..] == d.buf;
    } else {
      TxPrefix(c, es, n - 1);
      TxMore(c, es, n - 1);
      OneMore(d.tx, d.buf, n);
    }
  }

  lemma OneMore(s: seq<int>, t: seq<int>, n: nat)
    requires 0 < n <= |t|
    ensures t[n - 1..] != [] && s + t[..n - 1] + [t[n - 1..][0]] == s + t[..n] && t[n - 1..][1..] == t[n..]
  {
    assert t[..n] == t[..n - 1] + [t[n - 1]];
  }

  lemma TxMore(c: Con, es: seq<Event>, n: nat)
    requires var r := Run(c, es + TxTimes(n)); r.Done? && r.c.used && r.c.cache == EMPTY
    ensures Run(c, es + TxTimes(n + 1)) == Done(TxReady(Run(c, es + TxTimes(n)).c))
  {
    hide Run, Step, TxReady;
    assert es + TxTimes(n + 1) == es + TxTimes(n) + [TX_ONLY];
    RunMore(c, es + TxTimes(n), TX_ONLY);
    TxStep(Run(c, es + TxTimes(n)).c);
  }

  lemma TxStep(c: Con)
    requires c.used && c.cache == EMPTY
    ensures Step(c, TX_ONLY) == Done(TxReady(c))
  {
    hide TxReady;
  }

  /** After every run, with no new input, exactly send_len interrupts of a ready transmitter drain the
      buffer, and the next one turns the interrupt off. */
  lemma Drains(input: seq<int>, es: seq<Event>, n: nat)
    requires NulFree(input) && Orderly(Fresh(input), es)
    requires Run(Fresh(input), es).Done? ==> Run(Fresh(input), es).c.used
    ensures Run(Fresh(input), es).Done?
    ensures var c := Run(Fresh(input), es).c;
      var last, off := Run(Fresh(input), es + TxTimes(|c.buf|)), Run(Fresh(input), es + TxTimes(|c.buf| + 1));
      && (n <= |c.buf| ==> var d := Run(Fresh(input), es + TxTimes(n)); d.Done? && |d.c.buf| == |c.buf| - n)
      && last.Done? && last.c.tx == Expand(AskedBy(Fresh(input), es)) && (c.buf != [] ==> last.c.ie)
      && off.Done? && !off.c.ie
  {
    hide Run, Fresh, AskedBy, TakenBy, Expand, TxTimes, Orderly;
    RunKeeps(input, es);
    var c := Run(Fresh(input), es).c;
    TxPrefix(Fresh(input), es, |c.buf|);
    if n <= |c.buf| { TxPrefix(Fresh(input), es, n); }
    assert c.buf[..|c.buf|] == c.buf;
    TxMore(Fresh(input), es, |c.buf|);
  }

  // ---------------------------------------------------------------- NUL

  function Cached(c: Con): seq<int> { if c.cache == EMPTY then [] else [c.cache] }

  ghost predicate Bytes(s: seq<int>) { forall i :: 0 <= i < |s| ==> s[i] >= 0 }

  /** No NUL but perhaps the last byte. */
  ghost predicate Clean(s: seq<int>) { forall i :: 0 <= i < |s| - 1 ==> s[i] != 0 }

  /** The look-ahead loses nothing exactly when it does not hold a NUL while a byte is waiting: the
      code takes a cached 0 for an empty cache. */
  lemma PollExactly(c: Con, avail: bool)
    requires c.cache >= EMPTY && Bytes(c.rx)
    ensures var r := Poll(c, avail);
      Cached(r) + r.rx == Cached(c) + c.rx <==> !(c.cache == 0 && avail && c.rx != [])
  {
    var r := Poll(c, avail);
    assert c.cache == 0 && avail && c.rx != [] ==> |Cached(r) + r.rx| < |Cached(c) + c.rx|;
    assert c.rx != [] ==> c.rx == [c.rx[0]] + c.rx[1..];
  }

  /** The bytes popped are the bytes returned and the cached one exactly while no NUL was followed by
      another byte. */
  ghost predicate LookAhead(c: Con) {
    && c.cache >= EMPTY && Bytes(c.rx)
    && if Clean(c.popped) then c.popped == c.returned + Cached(c) && forall i :: 0 <= i < |c.returned| ==>
        c.returned[i] != 0
       else |c.popped| > |c.returned + Cached(c)|
  }

  lemma PollLooksAhead(c: Con, avail: bool)
    requires LookAhead(c)
    ensures var r := Poll(c, avail);
      && LookAhead(r) && (Polled(c, avail) ==> r.cache != EMPTY)
      && r.returned == c.returned && (c.cache == 0 && r != c ==> !Clean(r.popped))
  {
    var r := Poll(c, avail);
    if r != c {
      var n := |c.popped|;
      assert r.popped[..n] == c.popped;
      assert c.cache == 0 && Clean(c.popped) ==> r.popped[n - 1] == 0;
      assert Clean(r.popped) ==> Clean(c.popped) by {
        assert forall i :: 0 <= i < n ==> r.popped[i] == c.popped[i];
      }
      assert c.cache == EMPTY && Clean(c.popped) ==> c.popped == c.returned;
    }
  }

  lemma RecvLooksAhead(c: Con)
    requires LookAhead(c) && c.cache != EMPTY && (c.cache > 0 || c.rx != [])
    ensures LookAhead(Recv(c).0)
  {
    PollLooksAhead(c, true);
    var p := Poll(c, true);
    assert p.returned + [p.cache] == (p.returned + Cached(p)) + [];
  }

  lemma TypedAside(c: Con, ch: int, ready: bool)
    requires LookAhead(c)
    ensures LookAhead(Transmit(Typed(c, ch), ready))
  {
    hide LookAhead, Expand;
    var t := Typed(c, ch);
    OutputAside(c, t);
    OutputAside(t, Transmit(t, ready));
  }

  lemma OutputAside(c: Con, r: Con)
    requires LookAhead(c) && r.cache == c.cache && r.rx == c.rx && r.popped == c.popped && r.returned == c.returned
    ensures LookAhead(r)
  {
  }

  lemma IntrProcLooksAhead(c: Con, avail: bool, ready: bool)
    requires LookAhead(c) && IntrProc(c, avail, ready).Done?
    ensures LookAhead(IntrProc(c, avail, ready).c)
  {
    hide LookAhead, Typed, Transmit;
    PollLooksAhead(c, avail);
    var c1 := Poll(c, avail);
    if Polled(c, avail) {
      RecvLooksAhead(c1);
      var (d, b) := Recv(c1);
      TypedAside(d, Mapped(b), ready);
    } else {
      TransmitAside(c1, ready);
    }
  }

  lemma TransmitAside(c: Con, ready: bool)
    requires LookAhead(c)
    ensures LookAhead(Transmit(c, ready))
  {
    hide LookAhead;
    OutputAside(c, Transmit(c, ready));
  }

  lemma StepLooksAhead(c: Con, e: Event)
    requires LookAhead(c) && Step(c, e).Done?
    ensures LookAhead(Step(c, e).c)
  {
    hide LookAhead, IntrProc, Expand;
    match e
    case TakeId(id) => OutputAside(c, c.(used := id != 0));
    case NewSendBuf(junk) => OutputAside(c, c.(buf := Junk(junk, |c.buf|)));
    case NewRecvBuf(junk) => OutputAside(c, c.(line := Junk(junk, |c.line|)));
    case ResetSend => OutputAside(c, c.(buf := []));
    case ResetRecv => OutputAside(c, c.(line := []));
    case Write(s) => OutputAside(c, SendString(c, s));
    case Interrupt(r1, a1, a2, r2) =>
      PollLooksAhead(c, a1);
      if c.used && r1 { IntrProcLooksAhead(c, a2, r2); }
      else if c.used && Polled(c, a1) { IntrProcLooksAhead(Poll(c, a1), a2, r2); }
  }

  lemma {:induction false} RunLooksAhead(input: seq<int>, es: seq<Event>)
    requires Bytes(input) && Run(Fresh(input), es).Done?
    ensures LookAhead(Run(Fresh(input), es).c)
  {
    if es != [] {
      hide LookAhead, Step, Fresh;
      RunLooksAhead(input, es[..|es| - 1]);
      StepLooksAhead(Run(Fresh(input), es[..|es| - 1]).c, es[|es| - 1]);
    }
  }

  /** For every input and every run: the bytes popped off the FIFO are the bytes returned and the
      cached one if and only if no NUL was popped with another byte popped after it. */
  lemma LookAheadExactly(input: seq<int>, es: seq<Event>)
    requires Bytes(input) && Run(Fresh(input), es).Done?
    ensures var c := Run(Fresh(input), es).c;
      c.popped == c.returned + Cached(c) <==> Clean(c.popped)
  {
    hide Run, Fresh;
    RunLooksAhead(input, es);
  }

  /** For every input: the look-ahead loses no byte in any run if and only if the input has no NUL but
      perhaps at its end. */
  lemma LossExactly(input: seq<int>)
    requires Bytes(input)
    ensures (forall es :: Run(Fresh(input), es).Done? ==> Transparent(Run(Fresh(input), es).c)) <==> Clean(input)
  {
    hide Run, Fresh, Polls;
    if Clean(input) {
      forall es | Run(Fresh(input), es).Done? ensures Transparent(Run(Fresh(input), es).c) {
        RunAhead(input, es);
        var c := Run(Fresh(input), es).c;
        assert forall i :: 0 <= i < |c.popped| ==> c.popped[i] == input[i];
        LookAheadExactly(input, es);
      }
    } else {
      var es := Polls(|input|);
      PollsReach(input, |input|);
      RunAhead(input, es);
      var c := Run(Fresh(input), es).c;
      assert c.popped == c.popped + c.rx;
      LookAheadExactly(input, es);
      assert !Transparent(Run(Fresh(input), es).c);
    }
  }

  predicate Transparent(c: Con) { c.popped == c.returned + Cached(c) }

  /** One interrupt that polls twice loses a NUL. */
  lemma NulIsLost()
    ensures var r := Run(Used([0, 65]), [Interrupt(false, true, true, false)]);
      r.Done? && r.c.popped == [0, 65] && r.c.returned == [65]
  {
    var es := [Interrupt(false, true, true, false)];
    assert es[..0] == [];
  }

  // ---------------------------------------------------------------- spinning

  predicate EndsInNul(s: seq<int>) { s != [] && s[|s| - 1] == 0 }

  /** The bytes popped and those still to come are the input. */
  predicate Ahead(c: Con, input: seq<int>) { c.popped + c.rx == input }

  lemma PollAhead(c: Con, avail: bool, input: seq<int>)
    requires Ahead(c, input) && Bytes(input)
    ensures var r := Poll(c, avail);
      && Ahead(r, input)
      && (Polled(c, avail) && r.cache <= 0 && r.rx == [] ==> EndsInNul(input))
  {
    if c.rx != [] {
      assert c.rx == [c.rx[0]] + c.rx[1..];
      assert input[|c.popped|] == c.rx[0];
    }
  }

  lemma IntrProcAhead(c: Con, avail: bool, ready: bool, input: seq<int>)
    requires Ahead(c, input) && Bytes(input)
    ensures var o := IntrProc(c, avail, ready);
      if o.Done? then Ahead(o.c, input) else EndsInNul(input)
  {
    hide Typed, Transmit;
    PollAhead(c, avail, input);
    var c1 := Poll(c, avail);
    PollAhead(c1, true, input);
    TransmitRx(c1, ready);
    if Polled(c, avail) && (c1.cache > 0 || c1.rx != []) { TypedRx(Recv(c1).0, Mapped(Recv(c1).1), ready); }
  }

  lemma TransmitRx(c: Con, ready: bool)
    ensures Transmit(c, ready).rx == c.rx && Transmit(c, ready).popped == c.popped
  {
  }

  lemma TypedRx(c: Con, ch: int, ready: bool)
    ensures var r := Transmit(Typed(c, ch), ready); r.rx == c.rx && r.popped == c.popped
  {
    hide Expand;
  }

  lemma StepAhead(c: Con, e: Event, input: seq<int>)
    requires Ahead(c, input) && Bytes(input)
    ensures var o := Step(c, e);
      if o.Done? then Ahead(o.c, input) else EndsInNul(input)
  {
    hide Expand, IntrProc;
    if e.Interrupt? {
      PollAhead(c, e.avail1, input);
      IntrProcAhead(if e.ready1 then c else Poll(c, e.avail1), e.avail2, e.ready2, input);
    }
  }

  lemma {:induction false} RunAhead(input: seq<int>, es: seq<Event>)
    requires Bytes(input)
    ensures var o := Run(Fresh(input), es);
      if o.Done? then Ahead(o.c, input) else EndsInNul(input)
  {
    if es != [] {
      hide Ahead, Step, Fresh;
      RunAhead(input, es[..|es| - 1]);
      var o := Run(Fresh(input), es[..|es| - 1]);
      if o.Done? { StepAhead(o.c, es[|es| - 1], input); }
    }
  }

  /** A byte polled for while the transmitter is busy; a NUL is then left in the cache. */
  const POLL_ONLY: Event := Interrupt(false, true, false, false)

  function Polls(n: nat): seq<Event> { UseSteps(1, []) + seq(n, _ => POLL_ONLY) }

  lemma {:induction false} PollsReach(input: seq<int>, n: nat)
    requires Bytes(input) && n <= |input|
    ensures var o := Run(Fresh(input), Polls(n)); o.Done? && o.c.used && EMPTY <= o.c.cache <= 0 && o.c.rx == input[n..]
  {
    if n == 0 {
      assert Polls(0) == UseSteps(1, []);
      UseIsSteps(Fresh(input), 1, []);
    } else {
      hide Fresh, UseSteps, Run;
      PollsReach(input, n - 1);
      assert Polls(n) == Polls(n - 1) + [POLL_ONLY];
      RunMore(Fresh(input), Polls(n - 1), POLL_ONLY);
      PollOnlyTakes(Run(Fresh(input), Polls(n - 1)).c);
    }
  }

  lemma PollOnlyTakes(c: Con)
    requires c.used && EMPTY <= c.cache <= 0 && c.rx != [] && c.rx[0] >= 0
    ensures var o := Step(c, POLL_ONLY); o.Done? && o.c.used && EMPTY <= o.c.cache <= 0 && o.c.rx == c.rx[1..]
  {
    hide Expand;
  }

  /** The handler can spin with interrupts masked, no byte coming, if and only if the input ends in a
      NUL. */
  lemma SpinsExactly(input: seq<int>)
    requires Bytes(input)
    ensures (exists es :: Run(Fresh(input), es).Spins?) <==> EndsInNul(input)
  {
    if es :| Run(Fresh(input), es).Spins? {
      RunAhead(input, es);
    }
    if EndsInNul(input) {
      var n := |input| - 1;
      PollsReach(input, n);
      hide Fresh;
      var es := Polls(n) + [Interrupt(true, false, true, false)];
      assert es[..|es| - 1] == Polls(n);
      LastNulSpins(Run(Fresh(input), Polls(n)).c);
      assert Run(Fresh(input), es).Spins?;
    }
  }

  lemma LastNulSpins(c: Con)
    requires c.used && c.cache <= 0 && c.rx == [0]
    ensures Step(c, Interrupt(true, false, true, false)).Spins?
  {
  }
}
