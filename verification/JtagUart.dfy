// The fast JTAG UART driver: a foreground thread that reads and writes, an
// interrupt routine that fills one ring and drains another, and no lock between
// them. An interrupt may strike between any two steps of the foreground code:
// every such point is an explicit call of `Interrupt`, which runs any number of
// interrupt routines, timer routines and host actions.

module JtagUart {
  import opened Ring

  /** The UART hardware and the host behind it. A request, once raised, stays raised
      as long as it is enabled and its cause is there. */
  class Device {
    var re: bool              // read-interrupt enable, in the control register
    var we: bool              // write-interrupt enable, in the control register
    var rxFifo: seq<Byte>     // hardware receive FIFO
    var room: nat             // room in the hardware transmit FIFO
    var ri: bool              // read interrupt requested
    var wi: bool              // write interrupt requested
    ghost var arrived: seq<Byte>  // every byte the host has sent
    ghost var popped: seq<Byte>   // every valid byte taken from the data register
    ghost var sent: seq<Byte>     // every byte put in the data register
    ghost var tally: Tally        // what has been seen of the host and the thread

    ghost predicate Consistent()
      reads this
    {
      && arrived == popped + rxFifo
      && (ri ==> re && rxFifo != []) && (wi ==> we && room > 0)
    }

    constructor ()
      ensures Consistent() && !re && !we && popped == [] && sent == []
    {
      re, we, ri, wi := false, false, false, false;
      rxFifo, room, arrived, popped, sent := [], 0, [], [], [];
      tally := Tally(0, 0, 0, 0);
    }

    /** The host may send bytes, and take some, at any time. */
    method HostActs()
      requires Consistent()
      modifies this`rxFifo, this`arrived, this`room
      ensures Consistent() && old(rxFifo) <= rxFifo && old(room) <= room
    {
      var more: seq<Byte>, taken: nat := *, *;
      rxFifo := rxFifo + more;
      arrived := arrived + more;
      room := room + taken;
    }

    /** The hardware requests an interrupt that is enabled and has a cause. */
    method Request(read: bool, write: bool)
      requires Consistent()
      modifies this`ri, this`wi
      ensures Consistent()
      ensures ri <==> old(ri) || (read && re && rxFifo != [])
      ensures wi <==> old(wi) || (write && we && room > 0)
    {
      ri := ri || (read && re && rxFifo != []);
      wi := wi || (write && we && room > 0);
    }

    /** The control register: what is requested, and the room for output. */
    method ReadControl() returns (read: bool, write: bool, space: nat)
      requires Consistent()
      modifies this`rxFifo, this`arrived, this`room, this`ri, this`wi
      ensures Consistent() && old(rxFifo) <= rxFifo
      ensures read == ri && write == wi && space == room
      ensures (old(ri) ==> ri) && (old(wi) ==> wi)
    {
      HostActs();
      var r, w := *, *;
      Request(r, w);
      read, write, space := ri, wi, room;
    }

    method WriteControl(re': bool, we': bool)
      requires Consistent()
      modifies this`re, this`we, this`ri, this`wi
      ensures Consistent() && re == re' && we == we'
      ensures (ri <==> old(ri) && re') && (wi <==> old(wi) && we')
    {
      re, we := re', we';
      ri, wi := ri && re', wi && we';
    }

    /** The data register: RVALID, the byte, and RAVAIL (how many remain). */
    method ReadData() returns (valid: bool, b: Byte, avail: nat)
      requires Consistent()
      modifies this`rxFifo, this`arrived, this`popped, this`ri, this`room
      ensures Consistent() && room >= old(room)
      ensures valid ==> popped == old(popped) + [b] && avail == |rxFifo|
      ensures !valid ==> popped == old(popped) && rxFifo == [] && avail == 0
      ensures old(rxFifo) != [] ==> valid
    {
      HostActs();
      if rxFifo == [] {
        return false, 0, 0;
      }
      valid, b, avail := true, rxFifo[0], |rxFifo| - 1;
      popped := popped + [rxFifo[0]];
      rxFifo := rxFifo[1..];
      ri := ri && rxFifo != [];
    }

    /** A byte written without room would be lost. */
    method WriteData(b: Byte)
      requires Consistent() && room > 0
      modifies this`sent, this`room, this`wi
      ensures Consistent() && sent == old(sent) + [b] && room == old(room) - 1
    {
      sent := sent + [b];
      room := room - 1;
      wi := wi && room > 0;
    }
  }

  /** How often the foreground thread was interrupted, and had to wait for room; how
      often the host was found to have timed out, and to be there. */
  datatype Tally = Tally(interrupts: nat, pauses: nat, silences: nat, presences: nat)

  /** Between two states the host times out, or is seen, only when it is found to. */
  ghost predicate Seen(t: Tally, inactive: nat, t': Tally, inactive': nat, timeout: nat)
  {
    && t.interrupts <= t'.interrupts && t.silences <= t'.silences && t.presences <= t'.presences
    && (inactive' >= timeout ==> inactive >= timeout || t.silences < t'.silences)
    && (inactive' == 0 ==> inactive == 0 || t.presences < t'.presences)
  }

  /** A call's return: a non-negative count, or one of the two errors. `Waiting` is
      no return: the call still spins after as many interrupts as the run allowed. */
  datatype IoResult = Done(count: nat) | WouldBlock | IoError | Waiting(count: nat)

  /** The bytes that a call has moved. */
  function Taken(r: IoResult): nat { if r.Done? || r.Waiting? then r.count else 0 }

  const INT_MAX := 0x7fff_ffff
  const DEFAULT_TIMEOUT := 10

  class Driver {
    const dev: Device
    const rxBuf: array<Byte>
    const txBuf: array<Byte>
    var rxIn: int
    var rxOut: int
    var txIn: int
    var txOut: int
    var irqRe: bool           // the two bits of irq_enable
    var irqWe: bool
    var hostInactive: nat
    const timeout: nat
    ghost var accepted: seq<Byte>   // every byte a write has put in the ring
    ghost var returned: seq<Byte>   // every byte a read has handed to a caller

    ghost function Tx(): seq<Byte>
      requires txBuf.Length == LEN && IsIndex(txIn) && IsIndex(txOut)
      reads this, txBuf
    {
      Contents(txBuf[..], txIn, txOut)
    }

    ghost function Rx(): seq<Byte>
      requires rxBuf.Length == LEN && IsIndex(rxIn) && IsIndex(rxOut)
      reads this, rxBuf
    {
      Contents(rxBuf[..], rxIn, rxOut)
    }

    ghost predicate Shape()
      reads this, dev
    {
      && rxBuf.Length == LEN && txBuf.Length == LEN && rxBuf != txBuf
      && IsIndex(rxIn) && IsIndex(rxOut) && IsIndex(txIn) && IsIndex(txOut)
      && dev.Consistent()
      && dev.re == irqRe && dev.we == irqWe
      && timeout > 0
    }

    /** What holds at every point where an interrupt can strike: both rings
        refine FIFO queues between the program and the device. */
    ghost predicate Fifo()
      reads this, dev, rxBuf, txBuf
    {
      && Shape()
      && accepted == dev.sent + Tx()
      && dev.popped == returned + Rx()
    }

    /** A non-empty transmit ring has its interrupt enabled. */
    ghost predicate NoStrandedOutput()
      reads this
    {
      txIn != txOut ==> irqWe
    }

    /** The receive interrupt is off only while the receive ring is full. */
    ghost predicate NotDeaf()
      reads this
    {
      !irqRe ==> Used(rxIn, rxOut) == LEN - 1
    }

    /** What holds between calls. */
    ghost predicate Settled()
      reads this, dev, rxBuf, txBuf
    {
      Fifo() && NoStrandedOutput() && NotDeaf()
    }

    /** The host is timed out, or seen, only by the routine that looks for it. */
    twostate predicate HostWatched()
      reads this`hostInactive, dev`tally
    {
      Seen(old(dev.tally), old(hostInactive), dev.tally, hostInactive, timeout)
    }

    twostate predicate TimedOut()
      reads dev`tally
    {
      old(hostInactive) >= timeout || dev.tally.silences > old(dev.tally.silences)
    }

    /** All that interrupts may do to the receive side: append to the ring and
        keep (never break) the enable discipline. */
    twostate predicate RxInterrupted()
      reads this, dev
    {
      && HostWatched() && dev.tally.pauses == old(dev.tally.pauses)
      && old(dev.popped) <= dev.popped
      && Used(rxIn, rxOut) >= old(Used(rxIn, rxOut))
      && (old(NotDeaf()) ==> NotDeaf())
    }

    /** All that interrupts may do to the transmit side: take from the front of
        the ring and keep the enable discipline. */
    twostate predicate TxInterrupted()
      reads this, dev
    {
      && HostWatched() && dev.tally.pauses == old(dev.tally.pauses)
      && Used(txIn, txOut) <= old(Used(txIn, txOut))
      && (old(NoStrandedOutput()) ==> NoStrandedOutput())
    }

    twostate predicate OnlyInterrupts()
      reads this, dev
    {
      RxInterrupted() && TxInterrupted()
    }

    constructor (alarmStarted: bool)
      ensures Settled() && fresh(dev) && fresh(rxBuf) && fresh(txBuf)
      ensures accepted == [] && returned == [] && irqRe && !irqWe
      ensures hostInactive == 0 && timeout == if alarmStarted then 10 else 0x7fff_ffff
    {
      dev := new Device();
      rxBuf := new Byte[LEN](_ => 0);
      txBuf := new Byte[LEN](_ => 0);
      rxIn, rxOut, txIn, txOut := 0, 0, 0, 0;
      irqRe, irqWe := true, false;
      hostInactive := 0;
      timeout := if alarmStarted then DEFAULT_TIMEOUT else INT_MAX;
      accepted, returned := [], [];
      new;
      dev.WriteControl(irqRe, irqWe);
    }

    // ---------------------------------------------------------------- ISR

    /** The interrupt routine's store of one received byte. */
    method StoreRx(b: Byte)
      requires Shape() && Advance(rxIn, 1) != rxOut
      modifies this`rxIn, rxBuf
      ensures Shape() && Rx() == old(Rx()) + [b]
      ensures Used(rxIn, rxOut) == old(Used(rxIn, rxOut)) + 1
    {
      RunsAreExact(rxIn, rxOut);
      FreeSlotIsInvisible(rxBuf[..], rxIn, rxOut, rxIn, b);
      ghost var before := rxBuf[..];
      rxBuf[rxIn] := b;
      assert rxBuf[..] == before[rxIn := b];
      PublishRun(rxBuf[..], rxIn, rxOut, 1);
      rxIn := Advance(rxIn, 1);
    }

    /** The loop of the read half: move bytes from the device to the ring until the
        ring is full or a read comes back invalid; `left` says whether data is left. */
    method TakeRx() returns (left: bool)
      requires Fifo() && irqRe && dev.rxFifo != []
      modifies this`rxIn, rxBuf, dev`ri, dev`rxFifo, dev`arrived, dev`popped, dev`room
      ensures Fifo() && dev.room >= old(dev.room)
      ensures old(dev.popped) <= dev.popped && Used(rxIn, rxOut) >= old(Used(rxIn, rxOut))
      ensures left <==> dev.rxFifo != []
      ensures left ==> Used(rxIn, rxOut) == LEN - 1
      ensures !left ==> Used(rxIn, rxOut) > old(Used(rxIn, rxOut))
    {
      var avail: nat := 1;
      while true
        invariant Fifo() && dev.room >= old(dev.room)
        invariant old(dev.popped) <= dev.popped && Used(rxIn, rxOut) >= old(Used(rxIn, rxOut))
        invariant avail > 0 <==> dev.rxFifo != []
        invariant avail == 0 ==> Used(rxIn, rxOut) > old(Used(rxIn, rxOut))
        decreases LEN - Used(rxIn, rxOut)
      {
        RunsAreExact(rxIn, rxOut);
        if Advance(rxIn, 1) == rxOut {
          break;
        }
        var valid, b;
        valid, b, avail := dev.ReadData();
        if !valid {
          break;
        }
        StoreRx(b);
      }
      left := avail > 0;
    }

    /** The read half of the interrupt routine: take what fits, and turn the interrupt
        off if data is left over. */
    method FillRx()
      requires Fifo() && irqRe && dev.rxFifo != []
      modifies this`rxIn, this`irqRe, rxBuf
      modifies dev`re, dev`we, dev`ri, dev`wi, dev`rxFifo, dev`arrived, dev`popped, dev`room
      ensures Fifo() && OnlyInterrupts() && irqWe == old(irqWe) && dev.room >= old(dev.room)
      ensures dev.sent == old(dev.sent)
      // full with data left over: off; drained, or full with nothing left: on
      ensures !irqRe <==> dev.rxFifo != []
      ensures !irqRe ==> Used(rxIn, rxOut) == LEN - 1
      ensures irqRe ==> Used(rxIn, rxOut) > old(Used(rxIn, rxOut))
    {
      var left := TakeRx();
      if left {
        irqRe := false;
        dev.WriteControl(irqRe, irqWe);
      }
    }

    /** The interrupt routine's hand-over of one byte to the device. */
    method SendTx()
      requires Shape() && txIn != txOut && dev.room > 0
      modifies this`txOut, dev`sent, dev`room, dev`wi
      ensures Shape() && dev.sent + Tx() == old(dev.sent + Tx()) && dev.room == old(dev.room) - 1
      ensures Used(txIn, txOut) == old(Used(txIn, txOut)) - 1
    {
      RunsAreExact(txIn, txOut);
      PopRun(txBuf[..], txIn, txOut, 1);
      dev.WriteData(txBuf[txOut]);
      txOut := Advance(txOut, 1);
    }

    /** The write half of the interrupt routine: hand over as many bytes as the
        device has room for, and turn the interrupt off if room is left over. */
    method DrainTx(space: nat)
      requires Fifo() && irqWe && 0 < space <= dev.room
      modifies this`txOut, this`irqWe, dev`sent, dev`re, dev`we, dev`ri, dev`wi, dev`room
      ensures Fifo() && OnlyInterrupts() && irqRe == old(irqRe)
      ensures Used(txIn, txOut) == if old(Used(txIn, txOut)) <= space then 0 else old(Used(txIn, txOut)) - space
      ensures irqWe <==> old(Used(txIn, txOut)) >= space
    {
      var left := space;
      while left > 0 && txOut != txIn
        invariant 0 <= left <= space && left <= dev.room && Fifo() && irqWe && irqRe == old(irqRe)
        invariant Used(txIn, txOut) == old(Used(txIn, txOut)) - (space - left)
      {
        SendTx();
        left := left - 1;
      }
      if left > 0 {
        irqWe := false;
        dev.WriteControl(irqRe, irqWe);
      }
    }

    /** An upper bound on the passes the interrupt routine still has to make. */
    ghost function Work(): nat
      requires Shape()
      reads this, dev
    {
      LEN - 1 - Used(rxIn, rxOut) + Used(txIn, txOut)
      + (if irqRe then 1 else 0) + (if irqWe then 1 else 0)
    }

    /** What serving requests must come to: a read request brings a byte in, or the
        ring is full and the interrupt off; a write request takes a byte out, or the
        ring was empty and the interrupt is off. */
    twostate predicate Served(read: bool, write: bool)
      reads this
    {
      && (read ==> Used(rxIn, rxOut) > old(Used(rxIn, rxOut)) || (!irqRe && Used(rxIn, rxOut) == LEN - 1))
      && (write ==> Used(txIn, txOut) < old(Used(txIn, txOut)) || (old(txIn == txOut) && !irqWe))
    }

    /** One pass: read the control register and serve what it reports. */
    method Pass() returns (done: bool)
      requires Fifo()
      modifies this`rxIn, this`txOut, this`irqRe, this`irqWe, rxBuf
      modifies dev`re, dev`we, dev`ri, dev`wi, dev`rxFifo, dev`arrived, dev`popped, dev`sent, dev`room
      ensures Fifo() && OnlyInterrupts() && Served(old(dev.ri), old(dev.wi))
      ensures (irqRe ==> old(irqRe)) && (irqWe ==> old(irqWe))
      ensures done ==> !dev.ri && !dev.wi
      ensures !done ==> Work() < old(Work())
    {
      var read, write, space := dev.ReadControl();
      done := !read && !write;
      if read {
        FillRx();
      }
      if write {
        DrainTx(space);
      }
    }

    /** The interrupt routine. It ends because every pass stores a byte, sends a
        byte or turns an interrupt off; when it ends, the last control read
        reported nothing left to do, and what was requested has been served. */
    method Irq()
      requires Fifo()
      modifies this`rxIn, this`txOut, this`irqRe, this`irqWe, rxBuf
      modifies dev`re, dev`we, dev`ri, dev`wi, dev`rxFifo, dev`arrived, dev`popped, dev`sent, dev`room
      ensures Fifo() && OnlyInterrupts() && Served(old(dev.ri), old(dev.wi))
      ensures !dev.ri && !dev.wi
    {
      var done := Pass();
      while !done
        invariant Fifo() && OnlyInterrupts() && Served(old(dev.ri), old(dev.wi))
        invariant done ==> !dev.ri && !dev.wi
        decreases Work(), !done
      {
        done := Pass();
      }
    }

    /** The once-a-second alarm that looks for the host. */
    method Timeout(hostPresent: bool)
      requires Fifo()
      modifies this`hostInactive, dev`re, dev`we, dev`ri, dev`wi, dev`tally
      ensures Fifo() && HostWatched()
      ensures dev.tally.interrupts == old(dev.tally.interrupts) && dev.tally.pauses == old(dev.tally.pauses)
      ensures hostInactive == if hostPresent then 0
                              else if old(hostInactive) < INT_MAX - 2 then old(hostInactive) + 1
                              else old(hostInactive)
    {
      if hostPresent {
        dev.WriteControl(irqRe, irqWe);
        hostInactive := 0;
        dev.tally := dev.tally.(presences := dev.tally.presences + 1);
      } else if hostInactive < INT_MAX - 2 {
        hostInactive := hostInactive + 1;
        if hostInactive == timeout {
          dev.tally := dev.tally.(silences := dev.tally.silences + 1);
        }
      }
    }

    /** One thing that may happen behind the foreground thread. */
    method Event()
      requires Fifo()
      modifies this`rxIn, this`txOut, this`irqRe, this`irqWe, this`hostInactive, rxBuf
      modifies dev`re, dev`we, dev`ri, dev`wi, dev`rxFifo, dev`arrived, dev`popped, dev`sent, dev`room,
               dev`tally
      ensures Fifo() && OnlyInterrupts() && dev.tally.interrupts == old(dev.tally.interrupts)
    {
      if * {
        var read, write := *, *;
        dev.Request(read, write);
        Irq();
      } else if * {
        var hostPresent := *;
        Timeout(hostPresent);
      } else {
        dev.HostActs();
      }
    }

    /** Whatever happens between two steps of the foreground thread. */
    method Interrupt()
      requires Fifo()
      modifies this`rxIn, this`txOut, this`irqRe, this`irqWe, this`hostInactive, rxBuf, dev
      ensures Fifo() && OnlyInterrupts()
      ensures dev.tally.interrupts == old(dev.tally.interrupts) + 1
    {
      dev.tally := dev.tally.(interrupts := dev.tally.interrupts + 1);
      var events: nat := *;
      while events > 0
        invariant Fifo() && OnlyInterrupts()
        invariant dev.tally.interrupts == old(dev.tally.interrupts) + 1
      {
        Event();
        events := events - 1;
      }
    }

    /** The host makes room, the hardware requests, the routine serves. */
    method FlushByte()
      requires Settled() && txIn != txOut
      modifies this`rxIn, this`txOut, this`irqRe, this`irqWe, rxBuf
      modifies dev`re, dev`we, dev`ri, dev`wi, dev`rxFifo, dev`arrived, dev`popped, dev`sent, dev`room
      ensures Settled() && OnlyInterrupts() && Used(txIn, txOut) < old(Used(txIn, txOut))
    {
      dev.room := dev.room + 1;
      dev.Request(false, true);
      Irq();
    }

    /** The output gets out: as many requested interrupts as bytes wait, whatever
        else happens between them, empty the ring. */
    method FlushOut(rounds: nat)
      requires Settled()
      modifies this`rxIn, this`txOut, this`irqRe, this`irqWe, this`hostInactive, rxBuf, dev
      ensures Settled()
      ensures Used(txIn, txOut) == 0 || Used(txIn, txOut) + rounds <= old(Used(txIn, txOut))
      ensures rounds >= old(Used(txIn, txOut)) ==> accepted == dev.sent
    {
      for k := 0 to rounds
        invariant Settled()
        invariant Used(txIn, txOut) == 0 || Used(txIn, txOut) + k <= old(Used(txIn, txOut))
      {
        Interrupt();
        if txIn != txOut {
          FlushByte();
        }
      }
      ContentsLength(txBuf[..], txIn, txOut);
    }

    // -------------------------------------------------------------- write

    /** One byte of the copy into the ring, with interrupts on both sides. */
    method CopyByteIn(k: int, b: Byte, ghost room: int)
      requires Fifo() && txIn <= k < txIn + room && room <= FreeRun(txIn, txOut)
      modifies this`rxIn, this`txOut, this`irqRe, this`irqWe, this`hostInactive, rxBuf, txBuf, dev
      ensures Fifo() && OnlyInterrupts()
      ensures room <= FreeRun(txIn, txOut)
      ensures 0 <= k < LEN && txBuf[..] == old(txBuf[..])[k := b]
    {
      RunsAreExact(txIn, txOut);
      Interrupt();
      StaleCountIsSafe(txIn, old(txOut), txIn, txOut);
      StoreTx(k, b);
      ghost var out := txOut;
      Interrupt();
      StaleCountIsSafe(txIn, out, txIn, txOut);
    }

    method StoreTx(k: int, b: Byte)
      requires Fifo() && txIn <= k < txIn + FreeRun(txIn, txOut)
      modifies txBuf
      ensures Fifo()
      ensures 0 <= k < LEN && txBuf[..] == old(txBuf[..])[k := b]
    {
      FreeSlotIsInvisible(txBuf[..], txIn, txOut, k, b);
      ghost var before := txBuf[..];
      txBuf[k] := b;
      assert txBuf[..] == before[k := b];
    }

    method CopyNext(inn: int, j: nat, data: seq<Byte>)
      requires Fifo() && inn == txIn && j < |data| <= FreeRun(txIn, txOut) && inn + |data| <= LEN
      requires txBuf[..][inn..inn + j] == data[..j]
      modifies this`rxIn, this`txOut, this`irqRe, this`irqWe, this`hostInactive, rxBuf, txBuf, dev
      ensures Fifo() && OnlyInterrupts() && |data| <= FreeRun(txIn, txOut)
      ensures txBuf[..][inn..inn + j + 1] == data[..j + 1]
    {
      ghost var before := txBuf[..];
      CopyByteIn(inn + j, data[j], |data|);
      SliceOfUpdate(before, inn, j, data[j]);
    }

    /** The copy into the ring: interrupts cannot see the bytes yet. */
    method CopyIn(inn: int, data: seq<Byte>)
      requires Fifo() && inn == txIn && |data| <= FreeRun(txIn, txOut)
      modifies this`rxIn, this`txOut, this`irqRe, this`irqWe, this`hostInactive, rxBuf, txBuf, dev
      ensures Fifo() && OnlyInterrupts()
      ensures |data| <= FreeRun(txIn, txOut)
      ensures inn + |data| <= LEN && txBuf[..][inn..inn + |data|] == data
    {
      RunsAreExact(txIn, txOut);
      for j := 0 to |data|
        invariant Fifo() && OnlyInterrupts()
        invariant |data| <= FreeRun(txIn, txOut)
        invariant txBuf[..][inn..inn + j] == data[..j]
      {
        CopyNext(inn, j, data);
      }
    }

    static lemma SliceOfUpdate(s: seq<Byte>, a: int, j: int, b: Byte)
      requires 0 <= a && 0 <= j && a + j < |s|
      ensures s[a + j := b][a..a + j + 1] == s[a..a + j] + [b]
    {
    }

    /** The index store that publishes the copied bytes. */
    method Publish(inn: int, data: seq<Byte>)
      requires Fifo() && inn == txIn && |data| <= FreeRun(txIn, txOut)
      requires inn + |data| <= LEN && txBuf[..][inn..inn + |data|] == data
      modifies this`txIn, this`accepted
      ensures Fifo() && accepted == old(accepted) + data
      ensures Used(txIn, txOut) == old(Used(txIn, txOut)) + |data|
    {
      PublishRun(txBuf[..], txIn, txOut, |data|);
      txIn := Advance(inn, |data|);
      accepted := accepted + data;
    }

    static lemma Append(base: seq<Byte>, ptr: seq<Byte>, i: nat, n: nat)
      requires i + n <= |ptr|
      ensures base + ptr[..i] + ptr[i..i + n] == base + ptr[..i + n]
    {
    }

    /** One round of the copying loop, from offset `i` of the caller's buffer:
        snapshot the indices, copy what fits without wrapping, publish it. */
    method WriteChunk(ptr: seq<Byte>, i: nat, count: nat, ghost base: seq<Byte>) returns (n: nat, out: int)
      requires Fifo() && i < count <= |ptr| && accepted == base + ptr[..i]
      modifies this`rxIn, this`txIn, this`txOut, this`irqRe, this`irqWe, this`hostInactive,
               rxBuf, txBuf, dev, this`accepted
      ensures Fifo() && RxInterrupted()
      ensures i + n <= count && accepted == base + ptr[..i + n]
      ensures Used(txIn, txOut) <= old(Used(txIn, txOut)) + n
      ensures n == 0 ==> old(Used(txIn, txOut)) == LEN - 1
      ensures n == 0 ==> IsIndex(out) && Used(txIn, out) == LEN - 1
    {
      var inn := txIn;
      Interrupt();
      out := txOut;
      RunsAreExact(inn, out);
      n := FreeRun(inn, out);
      if n == 0 {
        return;
      }
      if n > count - i {
        n := count - i;
      }
      CopyIn(inn, ptr[i..i + n]);
      Publish(inn, ptr[i..i + n]);
      Append(base, ptr, i, n);
    }

    /** Copy rounds until everything is in the ring or a snapshot finds it full. */
    method FillTx(ptr: seq<Byte>, start: nat, count: nat, ghost base: seq<Byte>) returns (i: nat, out: int)
      requires Fifo() && start <= count <= |ptr| && accepted == base + ptr[..start]
      modifies this`rxIn, this`txIn, this`txOut, this`irqRe, this`irqWe, this`hostInactive,
               rxBuf, txBuf, dev, this`accepted
      ensures Fifo() && RxInterrupted()
      ensures start <= i <= count && accepted == base + ptr[..i]
      ensures i < count ==> i - start >= LEN - 1 - old(Used(txIn, txOut))
      ensures i < count ==> IsIndex(out) && Used(txIn, out) == LEN - 1
    {
      i, out := start, 0;
      while i < count
        invariant Fifo() && RxInterrupted()
        invariant start <= i <= count && accepted == base + ptr[..i]
        invariant Used(txIn, txOut) <= old(Used(txIn, txOut)) + (i - start)
      {
        var n;
        n, out := WriteChunk(ptr, i, count, base);
        if n == 0 {
          break;
        }
        i := i + n;
      }
    }

    /** Turn the write interrupt on, with interrupts disabled; one may strike
        just before, while bytes are published but their interrupt is off. */
    method KickTx()
      requires Fifo()
      modifies this`rxIn, this`txOut, this`irqRe, this`irqWe, this`hostInactive, rxBuf, dev
      ensures Fifo() && RxInterrupted() && irqWe
    {
      Interrupt();
      irqWe := true;
      dev.WriteControl(irqRe, irqWe);
    }

    /** The busy wait for the interrupt routine to make room; interrupts happen
        after `patience` looks at most. */
    method AwaitRoom(out: int, patience: nat) returns (left: nat)
      requires Settled()
      modifies this`rxIn, this`txOut, this`irqRe, this`irqWe, this`hostInactive, rxBuf, dev
      ensures Settled() && OnlyInterrupts()
      ensures left <= patience && dev.tally.interrupts + left >= old(dev.tally.interrupts) + patience
      ensures left == 0 || txOut != out || hostInactive >= timeout
    {
      left := patience;
      while out == txOut && hostInactive < timeout && left > 0
        invariant Settled() && OnlyInterrupts() && left <= patience
        invariant dev.tally.interrupts + left >= old(dev.tally.interrupts) + patience
        decreases left
      {
        Interrupt();
        left := left - 1;
      }
    }

    lemma RoomIsProgress(out: int)
      requires Shape() && IsIndex(out) && Used(txIn, out) == LEN - 1 && txOut != out
      ensures Used(txIn, txOut) < LEN - 1
    {
    }

    /** One turn of the writing loop before it waits: fill the ring and kick the
        interrupt. With room to begin with, some byte is taken. */
    method Offer(ptr: seq<Byte>, start: nat, count: nat, ghost base: seq<Byte>) returns (i: nat, out: int)
      requires Settled() && start <= count <= |ptr| && accepted == base + ptr[..start]
      modifies this`rxIn, this`txIn, this`txOut, this`irqRe, this`irqWe, this`hostInactive,
               rxBuf, txBuf, dev, this`accepted
      ensures Settled() && HostWatched() && dev.tally.pauses == old(dev.tally.pauses)
      ensures start <= i <= count && accepted == base + ptr[..i]
      ensures i < count ==> i - start >= LEN - 1 - old(Used(txIn, txOut))
      ensures i < count ==> IsIndex(out) && Used(txIn, out) == LEN - 1
    {
      i, out := FillTx(ptr, start, count, base);
      KickTx();
    }

    /** The look for the host after a wait. */
    method LookForHost(patience: nat) returns (silent: bool, left: nat)
      requires Settled()
      modifies this`rxIn, this`txOut, this`irqRe, this`irqWe, this`hostInactive, rxBuf, dev
      ensures Settled() && OnlyInterrupts() && (silent <==> hostInactive != 0)
      ensures left == (if patience > 0 then patience - 1 else 0) && (patience == 0 ==> hostInactive == old(hostInactive))
      ensures dev.tally.interrupts + left >= old(dev.tally.interrupts) + patience
    {
      left := patience;
      if left > 0 {
        Interrupt();
        left := left - 1;
      }
      silent := hostInactive != 0;
    }

    /** The rest of the turn: wait, and look for the host. */
    method Pause(out: int, patience: nat) returns (still: bool, silent: bool, left: nat)
      requires Settled() && IsIndex(out) && Used(txIn, out) == LEN - 1
      modifies this`rxIn, this`txOut, this`irqRe, this`irqWe, this`hostInactive, rxBuf, dev
      ensures Settled() && HostWatched() && dev.tally.pauses == old(dev.tally.pauses) + 1
      ensures left <= patience && dev.tally.interrupts + left >= old(dev.tally.interrupts) + patience
      ensures still ==> Used(txIn, txOut) == LEN - 1 && hostInactive < timeout && left == 0
      ensures !still ==> Used(txIn, txOut) < LEN - 1 || TimedOut()
      ensures !still ==> (silent <==> hostInactive != 0)
      ensures !still && !silent ==> left < patience || Used(txIn, txOut) < LEN - 1
    {
      still, silent := false, false;
      left := AwaitRoom(out, patience);
      dev.tally := dev.tally.(pauses := dev.tally.pauses + 1);
      if out == txOut && hostInactive < timeout {
        return true, false, left;
      }
      if out != txOut {
        RoomIsProgress(out);
      }
      silent, left := LookForHost(left);
    }

    /** A wait, and the next turn if the host is there. `stop` is 0 to go on, 1 if the
        host is silent, 2 if the call is still waiting. */
    method NextTurn(ptr: seq<Byte>, i: nat, count: nat, out: int, patience: nat, ghost base: seq<Byte>)
      returns (stop: int, i': nat, out': int, left: nat)
      requires Settled() && i < count <= |ptr| && accepted == base + ptr[..i]
      requires IsIndex(out) && Used(txIn, out) == LEN - 1
      modifies this`rxIn, this`txIn, this`txOut, this`irqRe, this`irqWe, this`hostInactive,
               rxBuf, txBuf, dev, this`accepted
      ensures Settled() && HostWatched() && dev.tally.pauses == old(dev.tally.pauses) + 1
      ensures i <= i' <= count && accepted == base + ptr[..i'] && 0 <= stop <= 2
      ensures left <= patience && dev.tally.interrupts + left >= old(dev.tally.interrupts) + patience
      ensures stop == 0 && i' < count ==> IsIndex(out') && Used(txIn, out') == LEN - 1 && (left < patience || i' > i)
      ensures stop != 0 ==> i' == i
      ensures stop == 0 ==> old(hostInactive) == 0 || dev.tally.presences > old(dev.tally.presences)
      ensures stop == 1 ==> hostInactive != 0 && (Used(txIn, txOut) < LEN - 1 || TimedOut())
      ensures stop == 2 ==> Used(txIn, txOut) == LEN - 1 && hostInactive < timeout && left == 0
    {
      var still, silent;
      still, silent, left := Pause(out, patience);
      stop, i', out' := if still then 2 else if silent then 1 else 0, i, out;
      if stop == 0 {
        i', out' := Offer(ptr, i, count, base);
      }
    }

    /** altera_avalon_jtag_uart_write. `patience` bounds the interrupts that happen
        while it waits: every run that returns does so for some patience, and one that
        does not has spent it all. */
    method Write(ptr: seq<Byte>, count: int, nonBlock: bool, patience: nat) returns (r: IoResult)
      requires Settled() && count <= |ptr|
      modifies this`rxIn, this`txIn, this`txOut, this`irqRe, this`irqWe, this`hostInactive,
               rxBuf, txBuf, dev, this`accepted
      ensures Settled() && HostWatched()
      // exactly the first bytes, as many as counted, entered the queue, in order
      ensures Taken(r) <= (if count < 0 then 0 else count) && accepted == old(accepted) + ptr[..Taken(r)]
      ensures r.Done? ==> r.count > 0
      ensures r.WouldBlock? ==> nonBlock
      ensures r.IoError? ==> !nonBlock
      // a call that returns without having taken everything is non-blocking, or has
      // waited until there was room or the host had timed out, and then has seen
      // that the host is silent
      ensures !r.Waiting? && Taken(r) < count && !nonBlock ==>
                hostInactive != 0 && (Used(txIn, txOut) < LEN - 1 || TimedOut())
      // while the host stays silent it waits at most once
      ensures old(hostInactive) != 0 && dev.tally.presences == old(dev.tally.presences) ==> dev.tally.pauses <= old(dev.tally.pauses) + 1
      // a call that goes on waiting has reason to: the ring is full
      ensures r.Waiting? ==> dev.tally.interrupts >= old(dev.tally.interrupts) + patience
      ensures r.Waiting? ==> !nonBlock && r.count < count && Used(txIn, txOut) == LEN - 1 && hostInactive < timeout
      // what fitted on entry is always taken
      ensures Taken(r) < count ==> Taken(r) >= LEN - 1 - old(Used(txIn, txOut))
    {
      ghost var base := accepted;
      ghost var room := LEN - 1 - Used(txIn, txOut);
      var want := if count < 0 then 0 else count;
      var i, out := 0, 0;
      var left: nat := patience;
      i, out := Offer(ptr, i, want, base);
      while i < want && !nonBlock
        invariant Settled() && HostWatched() && i <= want && accepted == base + ptr[..i]
        invariant i < want ==> i >= room && IsIndex(out) && Used(txIn, out) == LEN - 1
        invariant left <= patience && dev.tally.interrupts + left >= old(dev.tally.interrupts) + patience
        invariant old(hostInactive) != 0 && dev.tally.presences == old(dev.tally.presences) ==> dev.tally.pauses == old(dev.tally.pauses)
        decreases left, want - i
      {
        var stop;
        stop, i, out, left := NextTurn(ptr, i, want, out, left, base);
        if stop == 2 {
          return Waiting(i);
        }
        if stop == 1 {
          break;
        }
      }
      r := if i != 0 then Done(i) else if nonBlock then WouldBlock else IoError;
    }

    // --------------------------------------------------------------- read

    static lemma PrefixOfTail(a: seq<Byte>, q: seq<Byte>, q': seq<Byte>)
      requires a + q <= a + q'
      ensures q <= q'
    {
      assert forall i | 0 <= i < |q| :: q[i] == (a + q)[|a| + i] == (a + q')[|a| + i] == q'[i];
    }

    /** What an interrupt looks like to the reader: its ring only grows. */
    method InterruptReader()
      requires Fifo()
      modifies this`rxIn, this`txOut, this`irqRe, this`irqWe, this`hostInactive, rxBuf, dev
      ensures Fifo() && OnlyInterrupts()
      ensures FilledRun(rxIn, rxOut) >= old(FilledRun(rxIn, rxOut))
      ensures old(Rx()) <= Rx()
    {
      Interrupt();
      StaleCountIsSafe(old(rxIn), rxOut, rxIn, rxOut);
      PrefixOfTail(returned, old(Rx()), Rx());
    }

    /** One byte of the copy out of the ring, with interrupts on both sides. */
    method CopyByteOut(j: nat, buffer: array<Byte>, pos: nat)
      requires Fifo() && j < FilledRun(rxIn, rxOut)
      requires buffer != rxBuf && buffer != txBuf && pos < buffer.Length
      modifies this`rxIn, this`txOut, this`irqRe, this`irqWe, this`hostInactive, rxBuf, dev, buffer
      ensures Fifo() && OnlyInterrupts()
      ensures FilledRun(rxIn, rxOut) >= old(FilledRun(rxIn, rxOut))
      ensures old(Rx()) <= Rx() && j < |Rx()|
      ensures buffer[..] == old(buffer[..])[pos := Rx()[j]]
    {
      InterruptReader();
      FetchRx(j, buffer, pos);
      InterruptReader();
    }

    method FetchRx(j: nat, buffer: array<Byte>, pos: nat)
      requires Fifo() && j < FilledRun(rxIn, rxOut)
      requires buffer != rxBuf && buffer != txBuf && pos < buffer.Length
      modifies buffer
      ensures Fifo() && j < |Rx()|
      ensures buffer[..] == old(buffer[..])[pos := Rx()[j]]
    {
      RunsAreExact(rxIn, rxOut);
      ContentsLength(rxBuf[..], rxIn, rxOut);
      PopRun(rxBuf[..], rxIn, rxOut, j + 1);
      assert Rx()[..j + 1][j] == rxBuf[rxOut + j];
      ghost var before := buffer[..];
      buffer[pos] := rxBuf[rxOut + j];
      assert buffer[..] == before[pos := Rx()[j]];
    }

    static lemma CopyOutStep(b: seq<Byte>, b': seq<Byte>, q: seq<Byte>, q': seq<Byte>, i: nat, j: nat)
      requires q <= q' && j < |q| && i + j < |b|
      requires b' == b[i + j := q'[j]]
      ensures b'[i..i + j + 1] == b[i..i + j] + [q'[j]]
      ensures q'[..j + 1] == q[..j] + [q'[j]]
      ensures b'[..i] == b[..i] && b'[i + j + 1..] == b[i + j + 1..]
    {
    }

    /** The copy out of the ring: interrupts only add behind the copied bytes. */
    method CopyOut(n: nat, buffer: array<Byte>, i: nat)
      requires Fifo() && n <= FilledRun(rxIn, rxOut)
      requires buffer != rxBuf && buffer != txBuf && i + n <= buffer.Length
      modifies this`rxIn, this`txOut, this`irqRe, this`irqWe, this`hostInactive, rxBuf, dev, buffer
      ensures Fifo() && OnlyInterrupts()
      ensures n <= FilledRun(rxIn, rxOut) && n <= |Rx()|
      ensures buffer[..][i..i + n] == Rx()[..n]
      ensures buffer[..][..i] == old(buffer[..][..i]) && buffer[..][i + n..] == old(buffer[..][i + n..])
    {
      RunsAreExact(rxIn, rxOut);
      ContentsLength(rxBuf[..], rxIn, rxOut);
      for j := 0 to n
        invariant Fifo() && OnlyInterrupts()
        invariant n <= FilledRun(rxIn, rxOut) && n <= |Rx()|
        invariant buffer[..][i..i + j] == Rx()[..j]
        invariant buffer[..][..i] == old(buffer[..][..i])
        invariant buffer[..][i + n..] == old(buffer[..][i + n..])
      {
        ghost var b, q := buffer[..], Rx();
        CopyByteOut(j, buffer, i + j);
        CopyOutStep(b, buffer[..], q, Rx(), i, j);
        assert buffer[..][i + n..] == buffer[..][i + j + 1..][n - j - 1..] == b[i + j + 1..][n - j - 1..];
      }
    }

    /** The index store that gives the copied bytes' slots back. */
    method Retire(n: nat)
      requires Fifo() && n <= FilledRun(rxIn, rxOut) && n <= |Rx()|
      modifies this`rxOut, this`returned
      ensures Fifo() && returned == old(returned) + old(Rx())[..n]
      ensures Used(rxIn, rxOut) == old(Used(rxIn, rxOut)) - n
    {
      PopRun(rxBuf[..], rxIn, rxOut, n);
      returned := returned + Rx()[..n];
      rxOut := Advance(rxOut, n);
    }

    /** The two index snapshots, with an interrupt between them: how many bytes can
        be taken without wrapping. */
    method CountRx() returns (n: nat, inn: int)
      requires Fifo()
      modifies this`rxIn, this`txOut, this`irqRe, this`irqWe, this`hostInactive, rxBuf, dev
      ensures Fifo() && OnlyInterrupts()
      ensures n <= FilledRun(rxIn, rxOut)
      ensures n == 0 ==> inn == rxOut && old(Used(rxIn, rxOut)) == 0
    {
      inn := rxIn;
      Interrupt();
      var out := rxOut;
      RunsAreExact(inn, out);
      StaleCountIsSafe(inn, out, rxIn, out);
      n := FilledRun(inn, out);
    }

    /** One round of the reading loop, to offset `i` of the caller's buffer. */
    method ReadChunk(buffer: array<Byte>, i: nat, space: nat, ghost base: seq<Byte>) returns (n: nat, inn: int)
      requires Fifo() && i < space <= buffer.Length && returned == base + buffer[..i]
      requires buffer != rxBuf && buffer != txBuf
      modifies this`rxIn, this`rxOut, this`txOut, this`irqRe, this`irqWe, this`hostInactive,
               rxBuf, dev, buffer, this`returned
      ensures Fifo() && TxInterrupted()
      ensures i + n <= space && returned == base + buffer[..i + n]
      ensures buffer[..][i + n..] == old(buffer[..][i + n..])
      ensures Used(rxIn, rxOut) >= old(Used(rxIn, rxOut)) - n
      ensures n == 0 ==> RxInterrupted() && inn == rxOut && old(Used(rxIn, rxOut)) == 0
    {
      n, inn := CountRx();
      if n == 0 {
        return;
      }
      if n > space - i {
        n := space - i;
      }
      CopyOut(n, buffer, i);
      Append(base, buffer[..], i, n);
      Retire(n);
    }

    /** Copy rounds until the caller's buffer is full or a snapshot finds the
        ring empty. */
    method DrainRx(buffer: array<Byte>, space: nat) returns (i: nat, inn: int)
      requires Fifo() && 0 < space <= buffer.Length
      requires buffer != rxBuf && buffer != txBuf
      modifies this`rxIn, this`rxOut, this`txOut, this`irqRe, this`irqWe, this`hostInactive,
               rxBuf, dev, buffer, this`returned
      ensures Fifo() && TxInterrupted()
      ensures i <= space && returned == old(returned) + buffer[..i]
      ensures buffer[..][i..] == old(buffer[..])[i..]
      ensures i < space ==> i >= old(Used(rxIn, rxOut))
      ensures i == 0 ==> RxInterrupted() && inn == rxOut
    {
      i := 0;
      ghost var base := returned;
      while true
        invariant Fifo() && TxInterrupted()
        invariant i < space && returned == base + buffer[..i]
        invariant buffer[..][i..] == old(buffer[..])[i..]
        invariant Used(rxIn, rxOut) >= old(Used(rxIn, rxOut)) - i
        invariant i == 0 ==> RxInterrupted()
        decreases space - i
      {
        var n;
        ghost var b := buffer[..];
        n, inn := ReadChunk(buffer, i, space, base);
        assert b[i..][n..] == b[i + n..] && old(buffer[..])[i..][n..] == old(buffer[..])[i + n..];
        if n == 0 {
          break;
        }
        i := i + n;
        if i == space {
          break;
        }
      }
    }

    /** Turn the read interrupt on, with interrupts disabled; one may strike just
        before, while slots are free but the interrupt is still off. */
    method ReopenRx()
      requires Fifo()
      modifies this`rxIn, this`txOut, this`irqRe, this`irqWe, this`hostInactive, rxBuf, dev
      ensures Fifo() && TxInterrupted() && irqRe
    {
      Interrupt();
      irqRe := true;
      dev.WriteControl(irqRe, irqWe);
    }

    /** The busy wait for the interrupt routine to bring data. */
    method AwaitData(inn: int, patience: nat) returns (left: nat)
      requires Settled()
      modifies this`rxIn, this`txOut, this`irqRe, this`irqWe, this`hostInactive, rxBuf, dev
      ensures Settled() && OnlyInterrupts()
      ensures left <= patience && dev.tally.interrupts + left >= old(dev.tally.interrupts) + patience
      ensures left == 0 || inn != rxIn || hostInactive >= timeout
    {
      left := patience;
      while inn == rxIn && hostInactive < timeout && left > 0
        invariant Settled() && OnlyInterrupts() && left <= patience
        invariant dev.tally.interrupts + left >= old(dev.tally.interrupts) + patience
        decreases left
      {
        Interrupt();
        left := left - 1;
      }
    }

    /** The wait of a read that has found nothing, and the last look after it. */
    method LookForData(inn: int, patience: nat) returns (still: bool, more: bool)
      requires Settled() && inn == rxOut
      modifies this`rxIn, this`txOut, this`irqRe, this`irqWe, this`hostInactive, rxBuf, dev
      ensures Settled() && OnlyInterrupts()
      ensures still ==> inn == rxIn && hostInactive < timeout
                        && dev.tally.interrupts >= old(dev.tally.interrupts) + patience
      ensures !still ==> (more <==> inn != rxIn)
      ensures !still && !more ==> TimedOut()
    {
      var left := AwaitData(inn, patience);
      still, more := inn == rxIn && hostInactive < timeout, false;
      if !still {
        Interrupt();
        more := inn != rxIn;
      }
    }

    /** One turn of the reading loop: read what is there, or else wait. `stop` is 0 to
        go round again, 1 to return, 2 if the call is still waiting. */
    method ReadTurn(buffer: array<Byte>, space: nat, nonBlock: bool, patience: nat) returns (i: nat, stop: int)
      requires Settled() && 0 < space <= buffer.Length
      requires buffer != rxBuf && buffer != txBuf
      modifies this`rxIn, this`rxOut, this`txOut, this`irqRe, this`irqWe, this`hostInactive,
               rxBuf, dev, buffer, this`returned
      ensures Fifo() && HostWatched() && NoStrandedOutput() && (i == 0 ==> NotDeaf())
      ensures i <= space && returned == old(returned) + buffer[..i]
      ensures buffer[..][i..] == old(buffer[..])[i..]
      ensures i < space ==> i >= old(Used(rxIn, rxOut))
      ensures i > 0 ==> stop == 1
      ensures i == 0 && stop == 0 ==> Used(rxIn, rxOut) > 0
      ensures i == 0 && stop == 1 && !nonBlock ==> Used(rxIn, rxOut) == 0 && TimedOut()
      ensures stop == 2 ==> !nonBlock && Used(rxIn, rxOut) == 0 && hostInactive < timeout
                            && dev.tally.interrupts >= old(dev.tally.interrupts) + patience
      ensures 0 <= stop <= 2
    {
      var inn;
      i, inn := DrainRx(buffer, space);
      stop := 1;
      if i == 0 && !nonBlock {
        var still, more := LookForData(inn, patience);
        stop := if still then 2 else if more then 0 else 1;
      }
    }

    /** altera_avalon_jtag_uart_read, with `patience` as for writing. The
        loop goes round at most twice: a wait that ends with new data is followed by
        a round that takes some. */
    method Read(buffer: array<Byte>, space: int, nonBlock: bool, patience: nat)
      returns (r: IoResult)
      requires Settled() && space <= buffer.Length
      requires buffer != rxBuf && buffer != txBuf
      modifies this`rxIn, this`rxOut, this`txOut, this`irqRe, this`irqWe, this`hostInactive,
               rxBuf, dev, buffer, this`returned
      ensures Settled() && HostWatched()
      // exactly the oldest r.count bytes left the queue, into the caller's buffer
      ensures r.Done? ==> 0 < r.count <= space && returned == old(returned) + buffer[..r.count]
      ensures r.Waiting? ==> r.count == 0
      ensures r.Done? ==> buffer[..][r.count..] == old(buffer[..])[r.count..]
      ensures !r.Done? ==> returned == old(returned) && buffer[..] == old(buffer[..])
      ensures r.WouldBlock? ==> nonBlock
      ensures r.IoError? ==> !nonBlock
      // an error means that nothing has come until the host had timed out
      ensures r.IoError? && space > 0 ==> Used(rxIn, rxOut) == 0 && TimedOut()
      // a call that goes on waiting has reason to: the ring is empty
      ensures r.Waiting? ==> !nonBlock && Used(rxIn, rxOut) == 0 && hostInactive < timeout
      ensures r.Waiting? ==> dev.tally.interrupts >= old(dev.tally.interrupts) + patience
      // everything waiting on entry that fits is taken, and the receiver is on again
      ensures space > 0 && old(Used(rxIn, rxOut)) > 0 ==> r.Done?
      ensures r.Done? && r.count < space ==> r.count >= old(Used(rxIn, rxOut))
      ensures r.Done? ==> irqRe
    {
      var i: nat := 0;
      while i < space
        invariant Settled() && HostWatched() && i == 0
        invariant returned == old(returned) && buffer[..] == old(buffer[..])
        invariant Used(rxIn, rxOut) >= old(Used(rxIn, rxOut))
        decreases if Used(rxIn, rxOut) == 0 then 1 else 0
      {
        var stop;
        i, stop := ReadTurn(buffer, space, nonBlock, patience);
        if stop == 2 {
          return Waiting(0);
        }
        if stop == 1 {
          break;
        }
      }
      if i != 0 {
        ReopenRx();
        r := Done(i);
      } else {
        r := if nonBlock then WouldBlock else IoError;
      }
    }

    /** altera_avalon_jtag_uart_close: wait until everything has been sent. It
        returns success with bytes left behind only if the host timed out. */
    method Close(nonBlock: bool, patience: nat) returns (r: IoResult)
      requires Settled()
      modifies this`rxIn, this`txOut, this`irqRe, this`irqWe, this`hostInactive, rxBuf, dev
      ensures Settled() && HostWatched()
      ensures r.Done? ==> accepted == dev.sent || hostInactive >= timeout
      ensures r.WouldBlock? ==> nonBlock && accepted != dev.sent && hostInactive < timeout
      ensures r.Waiting? ==> !nonBlock && accepted != dev.sent && hostInactive < timeout
      ensures r.Waiting? ==> dev.tally.interrupts >= old(dev.tally.interrupts) + patience
      ensures !r.IoError?
    {
      var left: nat := patience;
      while txOut != txIn && hostInactive < timeout
        invariant Settled() && HostWatched()
        invariant left <= patience && dev.tally.interrupts + left >= old(dev.tally.interrupts) + patience
        decreases left
      {
        ContentsLength(txBuf[..], txIn, txOut);
        if nonBlock {
          return WouldBlock;
        }
        if left == 0 {
          return Waiting(0);
        }
        Interrupt();
        left := left - 1;
      }
      r := Done(0);
    }
  }

  /** Any program at all: whatever reads, writes, closes and interrupts happen, in
      any number and order, no byte is lost, repeated or reordered in either
      direction, waiting output has its interrupt on in the device, and so has a
      receive ring with room. */
  method AnySession(d: Driver, steps: nat) returns (ghost wrote: seq<Byte>, ghost got: seq<Byte>)
    requires d.Settled() && d.accepted == [] && d.returned == []
    modifies d, d.dev, d.rxBuf, d.txBuf
    ensures d.Settled()
    ensures wrote == d.dev.sent + d.Tx()
    ensures d.dev.arrived == got + d.Rx() + d.dev.rxFifo
    ensures |d.Tx()| <= 2047 && |d.Rx()| <= 2047
    ensures d.Tx() != [] ==> d.dev.we
    ensures |d.Rx()| < 2047 ==> d.dev.re
  {
    wrote, got := [], [];
    for k := 0 to steps
      invariant d.Settled() && wrote == d.accepted && got == d.returned
    {
      var patience: nat, nonBlock := *, *;
      if * {
        var ptr: seq<Byte> := *;
        var r := d.Write(ptr, |ptr|, nonBlock, patience);
        wrote := wrote + ptr[..Taken(r)];
      } else if * {
        var space: nat :| true;
        var buffer := new Byte[space](_ => 0);
        var r := d.Read(buffer, space, nonBlock, patience);
        got := got + if r.Done? then buffer[..r.count] else [];
      } else if * {
        var r := d.Close(nonBlock, patience);
      } else {
        d.Interrupt();
      }
    }
    ContentsLength(d.txBuf[..], d.txIn, d.txOut);
    ContentsLength(d.rxBuf[..], d.rxIn, d.rxOut);
  }
}
