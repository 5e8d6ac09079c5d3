/** The console driver in place: an interrupt and a thread share two buffers and a one-byte cache.
    Every method is proved to do what Console says of the streams. */
module ConsoleDriver {
  import opened Console

  const CMD_USE: int := 'u' as int
  const CMD_WRITE: int := 'w' as int

  class Driver {
    var id: int                    // the thread that uses the console, 0 for NULL
    var buffers: bool              // whether send_buf and recv_buf have been set
    var sendBuf: array<int>
    var recvBuf: array<int>
    var sendLen: int
    var recvLen: int
    var receivedVal: int           // the static look-ahead of serial.c
    var ie: bool                   // the transmit bit of the interrupt enable register
    var rx: seq<int>
    var tx: seq<int>
    var lines: seq<seq<int>>       // what kx_send put in CONSINPUT
    ghost var c: Con

    ghost predicate Valid()
      reads this, sendBuf, recvBuf
    {
      && sendBuf != recvBuf && sendBuf.Length == recvBuf.Length == CAPACITY
      && 0 <= sendLen <= CAPACITY && 0 <= recvLen <= CAPACITY && (id != 0 ==> buffers)
      && c.used == (id != 0) && c.rx == rx && c.tx == tx && c.cache == receivedVal && c.ie == ie && c.lines == lines
      && c.buf == sendBuf[..sendLen] && c.line == recvBuf[..recvLen]
    }

    /** After consdrv_init. */
    constructor (input: seq<int>)
      ensures Valid() && c == Fresh(input) && !buffers && fresh(sendBuf) && fresh(recvBuf)
    {
      id, buffers := 0, false;
      sendBuf := new int[CAPACITY];
      recvBuf := new int[CAPACITY];
      sendLen, recvLen, receivedVal, ie := 0, 0, EMPTY, false;
      rx, tx, lines := input, [], [];
      c := Fresh(input);
    }

    method IsRecvEnable(avail: bool) returns (r: bool)
      requires Valid()
      modifies this`receivedVal, this`rx, this`c
      ensures Valid() && c == Poll(old(c), avail) && r == Polled(old(c), avail)
    {
      if receivedVal > 0 {
        return true;
      }
      if avail && rx != [] {
        receivedVal := rx[0];
        rx := rx[1..];
        c := Poll(c, avail);
        return true;
      } else {
        return false;
      }
    }

    /** The polls of the busy wait before a byte arrives change nothing; this is the last one, and if
        it finds no byte either the wait has no end. */
    method RecvByte() returns (b: int, spins: bool)
      requires Valid()
      modifies this`receivedVal, this`rx, this`c
      ensures Valid() && spins == (old(receivedVal) <= 0 && old(rx) == [])
      ensures if spins then c == old(c) else (c, b) == Recv(old(c))
    {
      ghost var was := c;
      var r := IsRecvEnable(true);
      if !r {
        return 0, true;
      }
      b, spins := receivedVal, false;
      receivedVal := EMPTY;
      c := Recv(was).0;
    }

    /** Transmit the first byte and move the others up. */
    method SendChar()
      requires Valid() && sendLen > 0
      modifies this`tx, this`sendLen, this`c, sendBuf
      ensures Valid() && c == Console.SendChar(old(c)) && sendLen == old(sendLen) - 1
    {
      ghost var buf := c.buf;
      assert sendBuf[..sendLen] == buf && sendBuf[0] == buf[0];
      Pop();
      assert sendBuf[..sendLen] == buf[1..];
      assert recvBuf[..recvLen] == c.line;
      c := c.(tx := tx, buf := buf[1..]);
    }

    method Pop()
      requires 0 < sendLen <= sendBuf.Length
      modifies this`tx, this`sendLen, sendBuf
      ensures sendLen == old(sendLen) - 1 && tx == old(tx) + [old(sendBuf[0])]
      ensures sendBuf[..sendLen] == old(sendBuf[..sendLen])[1..]
    {
      tx := tx + [sendBuf[0]];
      sendLen := sendLen - 1;
      MoveDown();
    }

    method MoveDown()
      requires 0 <= sendLen < sendBuf.Length
      modifies sendBuf
      ensures sendBuf[..sendLen] == old(sendBuf[1..sendLen + 1])
    {
      hide Moved;
      ghost var was := sendBuf[..];
      var i := 0;
      while i < sendLen
        invariant 0 <= i <= sendLen
        invariant sendBuf[..] == Moved(was, i)
      {
        MovedMore(was, i);
        sendBuf[i] := sendBuf[i + 1];
        i := i + 1;
      }
      MovedFront(was, sendLen);
      assert sendBuf[..sendLen] == sendBuf[..][..sendLen];
    }

    method SendString(str: seq<int>)
      requires Valid() && sendLen + |Expand(str)| <= CAPACITY
      modifies this`tx, this`sendLen, this`ie, this`c, sendBuf
      ensures Valid() && c == Console.SendString(old(c), str)
      ensures sendLen <= old(sendLen) + |Expand(str)|
    {
      Queue(str);
      c := c.(buf := c.buf + Expand(str), written := c.written + str);
      if sendLen != 0 && !ie {
        ie := true;
        c := c.(ie := true);
        SendChar();
      }
    }

    /** The loop: copy the string behind what waits, newlines expanded. */
    method Queue(str: seq<int>)
      requires 0 <= sendLen && sendLen + |Expand(str)| <= sendBuf.Length
      modifies this`sendLen, sendBuf
      ensures sendLen == old(sendLen) + |Expand(str)|
      ensures sendBuf[..sendLen] == old(sendBuf[..sendLen]) + Expand(str)
    {
      hide Expand;
      ghost var was := sendBuf[..sendLen];
      Expand0();
      var i := 0;
      while i < |str|
        invariant 0 <= i <= |str| && sendLen == old(sendLen) + |Expand(str[..i])| <= sendBuf.Length
        invariant sendBuf[..sendLen] == was + Expand(str[..i])
      {
        RoomForNext(str, i);
        if str[i] == LF {
          Append(CR);
        }
        Append(str[i]);
        i := i + 1;
      }
      assert str[..i] == str;
    }

    method Append(b: int)
      requires 0 <= sendLen < sendBuf.Length
      modifies this`sendLen, sendBuf
      ensures sendLen == old(sendLen) + 1
      ensures sendBuf[..sendLen] == old(sendBuf[..sendLen]) + [b]
    {
      sendBuf[sendLen] := b;
      sendLen := sendLen + 1;
    }

    /** The middle of consdrv_intrproc: echo the character, then edit or send the line. */
    method Type(b: int)
      requires Valid() && sendLen + |Expand([b])| <= CAPACITY && (b != LF ==> recvLen < CAPACITY)
      modifies this`tx, this`sendLen, this`ie, this`recvLen, this`lines, this`c, sendBuf, recvBuf
      ensures Valid() && c == Typed(old(c), b)
    {
      SendString([b]);
      if b != LF {
        recvBuf[recvLen] := b;
        recvLen := recvLen + 1;
        assert recvBuf[..recvLen] == c.line + [b];
        c := c.(line := c.line + [b]);
      } else {
        // kx_kmalloc, memcpy, kx_send
        lines := lines + [recvBuf[..recvLen]];
        recvLen := 0;
        c := c.(lines := c.lines + [c.line], line := []);
      }
    }

    /** The end of consdrv_intrproc. */
    method Transmit(ready: bool)
      requires Valid()
      modifies this`tx, this`sendLen, this`ie, this`c, sendBuf
      ensures Valid() && c == Console.Transmit(old(c), ready)
    {
      if ready {
        if sendLen == 0 {
          ie := false;
          c := c.(ie := false);
        } else {
          SendChar();
        }
      }
    }

    /** consdrv_intrproc; the cast to unsigned char changes nothing for bytes. */
    method IntrProc(avail: bool, ready: bool) returns (spins: bool)
      requires Valid() && id != 0 && Room(c, avail)
      modifies this, sendBuf, recvBuf
      ensures spins == Console.IntrProc(old(c), avail, ready).Spins?
      ensures !spins ==> Valid() && Done(c) == Console.IntrProc(old(c), avail, ready)
    {
      hide Typed, Console.Transmit;
      spins := false;
      var r := IsRecvEnable(avail);
      if r {
        var b;
        b, spins := RecvByte();
        if spins {
          return;
        }
        if b == CR {
          b := LF;
        }
        Type(b);
      }
      Transmit(ready);
    }

    /** consdrv_intr: `||` polls the receiver only when the transmitter is not ready. */
    method Intr(ready1: bool, avail1: bool, avail2: bool, ready2: bool) returns (spins: bool)
      requires Valid()
      requires id != 0 ==> if ready1 then Room(c, avail2) else Polled(c, avail1) ==> Room(Poll(c, avail1), avail2)
      modifies this, sendBuf, recvBuf
      ensures spins == Console.Intr(old(c), ready1, avail1, avail2, ready2).Spins?
      ensures !spins ==> Valid() && Done(c) == Console.Intr(old(c), ready1, avail1, avail2, ready2)
    {
      hide Console.IntrProc;
      spins := false;
      if id != 0 {
        var go := ready1;
        if !go {
          go := IsRecvEnable(avail1);
        }
        if go {
          spins := IntrProc(avail2, ready2);
        }
      }
    }

    /** The USE command, with no interrupt in between. */
    method TakeOver(thread: int)
      requires Valid()
      modifies this
      ensures Valid() && c == UseConsole(old(c), thread) && buffers && fresh(sendBuf) && fresh(recvBuf)
    {
      id, buffers := thread, true;
      sendBuf := new int[CAPACITY];    // kz_kmalloc
      recvBuf := new int[CAPACITY];
      sendLen, recvLen := 0, 0;
      c := UseConsole(c, thread);
    }

    /** consdrv_command for the console of index 0, the only one: USE takes the console for a thread,
        WRITE sends the rest of the command, other commands do nothing. */
    method Command(thread: int, command: seq<int>)
      requires Valid() && command != []
      requires command[0] == CMD_USE ==> |command| > 1 && command[1] == '0' as int
      requires command[0] == CMD_WRITE ==> buffers && sendLen + |Expand(command[1..])| <= CAPACITY
      modifies this, sendBuf
      ensures Valid()
      ensures Done(c) ==
        if command[0] == CMD_USE then Run(old(c), UseSteps(thread, []))
        else if command[0] == CMD_WRITE then Step(old(c), Write(command[1..]))
        else Done(old(c))
    {
      hide Console.SendString, Run;
      if command[0] == CMD_USE {
        UseIsSteps(c, thread, []);
        TakeOver(thread);
      } else if command[0] == CMD_WRITE {
        SendString(command[1..]);
      }
    }
  }

  /** The buffers have room for what the handler does with the byte it takes, if it takes one. */
  predicate Room(c: Con, avail: bool) {
    var c1 := Poll(c, avail);
    Polled(c, avail) && (c1.cache > 0 || c1.rx != []) ==>
      var b := Mapped(Recv(c1).1);
      |c.buf| + |Expand([b])| <= CAPACITY && (b != LF ==> |c.line| < CAPACITY)
  }

  lemma Expand0()
    ensures forall s: seq<int> :: Expand(s[..0]) == []
  {
  }

  /** The buffer after its entries 1..n were moved down by one. */
  ghost function Moved(s: seq<int>, n: nat): (r: seq<int>)
    requires n < |s|
    ensures |r| == |s| && (n == 0 ==> r == s)
  {
    s[1..n + 1] + s[n..]
  }

  lemma MovedMore(s: seq<int>, n: nat)
    requires n + 1 < |s|
    ensures Moved(s, n)[n := Moved(s, n)[n + 1]] == Moved(s, n + 1)
  {
  }

  lemma MovedFront(s: seq<int>, n: nat)
    requires n < |s|
    ensures Moved(s, n)[..n] == s[1..n + 1]
  {
  }

  lemma RoomForNext(s: seq<int>, i: nat)
    requires i < |s|
    ensures Expand(s[..i + 1]) == Expand(s[..i]) + (if s[i] == LF then [CR, LF] else [s[i]])
    ensures |Expand(s[..i + 1])| <= |Expand(s)|
  {
    assert s[..i + 1][..i] == s[..i];
    assert s == s[..i + 1] + s[i + 1..];
    ExpandConcat(s[..i + 1], s[i + 1..]);
  }
}
