/**
 * The interrupt-to-notification pipeline of src/main.c as a state machine.
 *
 * `Board` holds the globals the pipeline updates in place: the notification
 * buffer `accel_value`, the SPI receive buffer `rx_buffer`, the connection slot
 * `current_conn`, the count of the `bma400_ready` semaphore, the power state of
 * the `spi1` controller and the last sample `acc_data`.  The collaborators that
 * live outside this file (the SPI driver, the power-management action, the
 * BMA400 library and the GATT notify) are not modelled; what they return is
 * passed in as a parameter, and every call made to them is appended to the
 * ghost `trace`, so that contracts can state which calls happen and in which order.
 */
module Firmware {
  import opened Wrappers
  import opened Payload

  /** `K_SEM_DEFINE(bma400_ready, 0, 1)`: initial count 0, limit 1. */
  const SemLimit: nat := 1

  /** `uint8_t rx_buffer[128]` */
  const RxBufferSize: nat := 128

  /** An opaque `struct bt_conn *` handed out by the Bluetooth stack. */
  datatype Conn = Conn(handle: nat)

  /** What `bma400_get_accel_data` did: filled `acc_data`, or failed with a library error code. */
  datatype ReadOutcome = Fresh(sample: Sample) | Failed(rslt: int)

  /** A call from the pipeline into a collaborator. */
  datatype Action =
    | SemTake                                          // k_sem_take returned
    | SpiResume(result: int)                           // pm_device_action_run(..., RESUME)
    | SpiSuspend(result: int)                          // pm_device_action_run(..., SUSPEND)
    | AccelRead(outcome: ReadOutcome)                  // bma400_get_accel_data
    | Notify(conn: Conn, payload: seq<Byte>, result: int) // bt_gatt_notify
    | SpiTransceive(tx: seq<Byte>, rxLen: nat, result: int) // spi_transceive_dt
    | SpiWrite(tx: seq<Byte>, result: int)             // spi_write_dt

  /** The notify issued by `send_accel_notification`: exactly one when a peer is connected, none otherwise. */
  function NotifyTrace(conn: Option<Conn>, s: Sample, notifyResult: int): seq<Action>
  {
    if conn.Some? then [Notify(conn.value, EncodeSample(s), notifyResult)] else []
  }

  /** The calls of one pass of the worker loop, in source order. */
  function CycleTrace(conn: Option<Conn>, outcome: ReadOutcome, sent: Sample, notifyResult: int,
                      resumeResult: int, suspendResult: int): seq<Action>
  {
    [SemTake, SpiResume(resumeResult), AccelRead(outcome)] + NotifyTrace(conn, sent, notifyResult) +
    [SpiSuspend(suspendResult)]
  }

  /**
   * The power state after `pm_device_action_run` asks for `target` from state `on`:
   * the action returns 0 when it changed the state and a negative error code when it
   * did not (already there, busy, not supported, or the driver refused).
   */
  function PowerAction(on: bool, target: bool, result: int): bool
  {
    if result == 0 then target else on
  }

  /** Whether the SPI controller is powered after the calls in `t`, starting from power state `p0`. */
  function PoweredAfter(t: seq<Action>, p0: bool): bool
  {
    if t == [] then p0
    else
      var p := PoweredAfter(t[..|t| - 1], p0);
      match t[|t| - 1]
      case SpiResume(r) => PowerAction(p, true, r)
      case SpiSuspend(r) => PowerAction(p, false, r)
      case _ => p
  }

  /**
   * One worker pass as the bus sees it: the bus is powered while the sample is read
   * and while the notification is sent exactly when the resume succeeded or the bus
   * was already on, since the suspend comes only after the radio send; and the pass
   * leaves the bus suspended exactly when the suspend succeeded, or when it failed
   * on a bus that was never on.
   */
  lemma {:induction false} CycleBracketsBus(t: seq<Action>, p0: bool, conn: Option<Conn>, outcome: ReadOutcome,
                                            sent: Sample, notifyResult: int, resumeResult: int, suspendResult: int)
    ensures var c := CycleTrace(conn, outcome, sent, notifyResult, resumeResult, suspendResult);
      PoweredAfter(t + c, p0) == (suspendResult != 0 && (resumeResult == 0 || PoweredAfter(t, p0)))
    ensures var c := CycleTrace(conn, outcome, sent, notifyResult, resumeResult, suspendResult);
      forall i :: 0 <= i < |c| && (c[i].Notify? || c[i].AccelRead?) ==>
        PoweredAfter(t + c[..i], p0) == (resumeResult == 0 || PoweredAfter(t, p0))
  {
    var c := CycleTrace(conn, outcome, sent, notifyResult, resumeResult, suspendResult);
    var on := resumeResult == 0 || PoweredAfter(t, p0);
    assert (t + c)[..|t| + 1] == t + [SemTake];
    assert (t + c)[..|t| + 2] == t + [SemTake, SpiResume(resumeResult)];
    assert PoweredAfter(t + [SemTake, SpiResume(resumeResult)], p0) == on by {
      assert (t + [SemTake, SpiResume(resumeResult)])[..|t| + 1] == t + [SemTake];
      assert (t + [SemTake])[..|t|] == t;
    }
    assert c[..2] == [SemTake, SpiResume(resumeResult)];
    assert PoweredAfter(t + c[..3], p0) == on by {
      assert (t + c[..3])[..|t| + 2] == t + c[..2];
    }
    forall i | 0 <= i < |c| && (c[i].Notify? || c[i].AccelRead?)
      ensures PoweredAfter(t + c[..i], p0) == on
    {
      assert i == 2 || (i == 3 && conn.Some?);
    }
    assert PoweredAfter(t + c[..|c| - 1], p0) == on by {
      if conn.Some? {
        assert (t + c[..4])[..|t| + 3] == t + c[..3];
      } else {
        assert c[..|c| - 1] == c[..3];
      }
    }
    assert (t + c)[..|t + c| - 1] == t + c[..|c| - 1];
  }

  /** The semaphore count after `k_sem_give` when it was `s`: one more, saturating at the limit. */
  function SemGive(s: nat): (r: nat)
    ensures s <= SemLimit ==> r == SemLimit
    ensures s <= r
  {
    if s < SemLimit then s + 1 else s
  }

  /**
   * What can happen between two steps of the worker.  A `WorkerTurn` is the worker
   * reaching `k_sem_take`: it runs a whole pass if a signal is pending and blocks
   * otherwise.  A give to a worker that is already blocked there hands the signal
   * straight to it; a schedule writes that as `Interrupt` immediately followed by
   * `WorkerTurn`, and a second interrupt arriving while that pass runs as a later
   * `Interrupt` before the next `WorkerTurn`.  The fields of a turn are what the
   * collaborators return during its pass.
   */
  datatype Event =
    | Interrupt                                        // bma_int_handler runs
    | WorkerTurn(read: ReadOutcome, notifyResult: int, resumeResult: int, suspendResult: int)
    | Connect(conn: Conn, err: Byte)                   // the `connected` callback
    | Disconnect(conn: Conn, reason: Byte)             // the `disconnected` callback

  /** The semaphore count after the event `e` when it was `s`: a turn with a signal pending takes it. */
  function SemStep(s: nat, e: Event): (r: nat)
    requires s <= SemLimit
    ensures r <= SemLimit
  {
    match e
    case Interrupt => SemGive(s)
    case WorkerTurn(_, _, _, _) => if s > 0 then s - 1 else s
    case _ => s
  }

  /** Whether the event `e` runs a worker pass when the semaphore count is `s`. */
  predicate Passes(s: nat, e: Event)
  {
    e.WorkerTurn? && s > 0
  }

  /** The connection slot after the event `e` when it held `c`. */
  function ConnStep(c: Option<Conn>, e: Event): Option<Conn>
  {
    match e
    case Connect(conn, err) => if err != 0 then c else Some(conn)
    case Disconnect(_, _) => None
    case _ => c
  }

  /** The references held after the event `e` when they were `h` and the slot held `c`. */
  function HeldStep(h: multiset<Conn>, c: Option<Conn>, e: Event): multiset<Conn>
  {
    match e
    case Connect(conn, err) => if err != 0 then h else h + multiset{conn}
    case Disconnect(_, _) => if c.Some? then h - multiset{c.value} else h
    case _ => h
  }

  /** The power state after the pass of turn `e` from power state `p`: resume, then suspend. */
  function PassPower(p: bool, e: Event): bool
    requires e.WorkerTurn?
  {
    PowerAction(PowerAction(p, true, e.resumeResult), false, e.suspendResult)
  }

  /** The semaphore count after the events `es`, starting at `s0`. */
  function SemAfter(es: seq<Event>, s0: nat): (s: nat)
    requires s0 <= SemLimit
    ensures s <= SemLimit
  {
    if es == [] then s0 else SemStep(SemAfter(es[..|es| - 1], s0), es[|es| - 1])
  }

  /** Whether the last of the events `es` is a worker turn that finds a signal pending and runs a pass. */
  predicate PassAtEnd(es: seq<Event>, s0: nat)
    requires s0 <= SemLimit
  {
    es != [] && Passes(SemAfter(es[..|es| - 1], s0), es[|es| - 1])
  }

  /** How many worker passes the events `es` run: a turn wakes the worker only when a signal is pending. */
  function Wakes(es: seq<Event>, s0: nat): nat
    requires s0 <= SemLimit
  {
    if es == [] then 0
    else Wakes(es[..|es| - 1], s0) + (if PassAtEnd(es, s0) then 1 else 0)
  }

  /** The number of interrupts among `es`. */
  function Interrupts(es: seq<Event>): nat
  {
    if es == [] then 0
    else Interrupts(es[..|es| - 1]) + (if es[|es| - 1].Interrupt? then 1 else 0)
  }

  /** The connection slot after the events `es`, starting from `c0`. */
  function ConnAfter(es: seq<Event>, c0: Option<Conn>): Option<Conn>
  {
    if es == [] then c0 else ConnStep(ConnAfter(es[..|es| - 1], c0), es[|es| - 1])
  }

  /** The power state of the SPI controller after the events `es`, starting from `p0`: only passes touch it. */
  function PowerAfter(es: seq<Event>, s0: nat, p0: bool): bool
    requires s0 <= SemLimit
  {
    if es == [] then p0
    else if PassAtEnd(es, s0) then PassPower(PowerAfter(es[..|es| - 1], s0, p0), es[|es| - 1])
    else PowerAfter(es[..|es| - 1], s0, p0)
  }

  /** `acc_data` after the events `es`, starting from `a0`: the sample of the last pass whose read succeeded. */
  function SampleAfter(es: seq<Event>, s0: nat, a0: Sample): Sample
    requires s0 <= SemLimit
  {
    if es == [] then a0
    else if PassAtEnd(es, s0) && es[|es| - 1].read.Fresh? then es[|es| - 1].read.sample
    else SampleAfter(es[..|es| - 1], s0, a0)
  }

  /**
   * `accel_value` after the events `es`, starting from `v0`: the encoding of `acc_data`
   * as of the last pass that found a peer connected.
   */
  function ValueAfter(es: seq<Event>, s0: nat, c0: Option<Conn>, a0: Sample, v0: seq<Byte>): seq<Byte>
    requires s0 <= SemLimit
  {
    if es == [] then v0
    else if PassAtEnd(es, s0) && ConnAfter(es[..|es| - 1], c0).Some? then EncodeSample(SampleAfter(es, s0, a0))
    else ValueAfter(es[..|es| - 1], s0, c0, a0, v0)
  }

  /** The references held after the events `es`, starting from slot `c0` and references `h0`. */
  function HeldAfter(es: seq<Event>, c0: Option<Conn>, h0: multiset<Conn>): multiset<Conn>
  {
    if es == [] then h0
    else HeldStep(HeldAfter(es[..|es| - 1], c0, h0), ConnAfter(es[..|es| - 1], c0), es[|es| - 1])
  }

  /** The references the events `es` take: one per successful connection. */
  function Refs(es: seq<Event>): nat
  {
    if es == [] then 0
    else Refs(es[..|es| - 1]) + (if es[|es| - 1].Connect? && es[|es| - 1].err == 0 then 1 else 0)
  }

  /** The references the events `es` release: one per disconnection that finds the slot filled. */
  function Releases(es: seq<Event>, c0: Option<Conn>): nat
  {
    if es == [] then 0
    else Releases(es[..|es| - 1], c0) +
         (if es[|es| - 1].Disconnect? && ConnAfter(es[..|es| - 1], c0).Some? then 1 else 0)
  }

  /**
   * Every worker pass consumes one signal, so passes plus the pending signal never
   * exceed the signals there were: no pass runs without an interrupt before it.
   */
  lemma {:induction false} WakesConsumeSignals(es: seq<Event>, s0: nat)
    requires s0 <= SemLimit
    ensures Wakes(es, s0) + SemAfter(es, s0) <= s0 + Interrupts(es)
  {
    if es != [] {
      WakesConsumeSignals(es[..|es| - 1], s0);
    }
  }

  /** `n` interrupts in a row leave exactly one signal pending and wake nobody. */
  lemma {:induction false} InterruptBurst(es: seq<Event>, s0: nat)
    requires s0 <= SemLimit
    requires |es| >= 1 && forall i :: 0 <= i < |es| ==> es[i] == Interrupt
    ensures SemAfter(es, s0) == 1 && Wakes(es, s0) == 0
  {
    var p := es[..|es| - 1];
    if p != [] {
      InterruptBurst(p, s0);
    } else {
      assert Wakes(p, s0) == 0;
    }
  }

  /**
   * Interrupts that fire before the worker drains the signal are coalesced: any
   * burst of interrupts followed by any number of worker turns runs exactly one pass.
   */
  lemma {:induction false} InterruptsCoalesce(burst: seq<Event>, turns: seq<Event>, s0: nat)
    requires s0 <= SemLimit
    requires |burst| >= 1 && forall i :: 0 <= i < |burst| ==> burst[i] == Interrupt
    requires |turns| >= 1 && forall i :: 0 <= i < |turns| ==> turns[i].WorkerTurn?
    ensures Wakes(burst + turns, s0) == 1 && SemAfter(burst + turns, s0) == 0
  {
    var es := burst + turns;
    var p := turns[..|turns| - 1];
    assert es[..|es| - 1] == burst + p;
    if p == [] {
      assert burst + p == burst;
      InterruptBurst(burst, s0);
    } else {
      InterruptsCoalesce(burst, p, s0);
    }
  }

  /** When every suspend succeeds, a bus that starts suspended is suspended after any schedule. */
  lemma {:induction false} SuspendsLeaveBusOff(es: seq<Event>, s0: nat)
    requires s0 <= SemLimit
    requires forall i :: 0 <= i < |es| && es[i].WorkerTurn? ==> es[i].suspendResult == 0
    ensures !PowerAfter(es, s0, false)
  {
    if es != [] {
      SuspendsLeaveBusOff(es[..|es| - 1], s0);
    }
  }

  /** A failed suspend leaves the bus powered after a pass whose resume succeeded, until a later suspend succeeds. */
  lemma FailedSuspendKeepsBusOn(es: seq<Event>, s0: nat, p0: bool, e: Event)
    requires s0 <= SemLimit
    requires e.WorkerTurn? && e.resumeResult == 0 && e.suspendResult != 0 && SemAfter(es, s0) > 0
    ensures PowerAfter(es + [e], s0, p0)
  {
    assert (es + [e])[..|es|] == es;
  }

  /** Reads that all fail leave `acc_data` as it was: every pass resends the old sample. */
  lemma {:induction false} FailedReadsResend(es: seq<Event>, s0: nat, a0: Sample)
    requires s0 <= SemLimit
    requires forall i :: 0 <= i < |es| && es[i].WorkerTurn? ==> es[i].read.Failed?
    ensures SampleAfter(es, s0, a0) == a0
  {
    if es != [] {
      FailedReadsResend(es[..|es| - 1], s0, a0);
    }
  }

  /** With no peer at the start and no successful connection, no pass writes `accel_value`. */
  lemma {:induction false} NoPeerNoWrite(es: seq<Event>, s0: nat, a0: Sample, v0: seq<Byte>)
    requires s0 <= SemLimit
    requires forall i :: 0 <= i < |es| && es[i].Connect? ==> es[i].err != 0
    ensures ConnAfter(es, None) == None
    ensures ValueAfter(es, s0, None, a0, v0) == v0
  {
    if es != [] {
      NoPeerNoWrite(es[..|es| - 1], s0, a0, v0);
    }
  }

  /**
   * Reference accounting over a schedule: the stored connection is always one of
   * the held references, and every reference taken is still held unless a
   * disconnection found the slot filled.  A second connection overwrites the slot
   * without a release, so its predecessor is never counted as released.
   */
  lemma {:induction false} HeldRefsBalance(es: seq<Event>, c0: Option<Conn>, h0: multiset<Conn>)
    requires c0.Some? ==> c0.value in h0
    ensures ConnAfter(es, c0).Some? ==> ConnAfter(es, c0).value in HeldAfter(es, c0, h0)
    ensures |HeldAfter(es, c0, h0)| + Releases(es, c0) == |h0| + Refs(es)
  {
    if es != [] {
      HeldRefsBalance(es[..|es| - 1], c0, h0);
    }
  }

  class Board {
    var accelValue: array<Byte>
    var rxBuffer: array<Byte>
    var currentConn: Option<Conn>
    /** The connection references this application took with `bt_conn_ref` and has not released. */
    var heldRefs: multiset<Conn>
    var readySem: nat
    var spiActive: bool
    var accData: Sample
    ghost var trace: seq<Action>

    ghost predicate Valid()
      reads this
    {
      accelValue.Length == 6 && rxBuffer.Length == RxBufferSize && accelValue != rxBuffer &&
      readySem <= SemLimit &&
      (currentConn.Some? ==> currentConn.value in heldRefs)
    }

    /**
     * The state after `main` has brought the sensor up and asked to suspend the SPI
     * controller: `accel_value` and `acc_data` still zero, no connection, no pending
     * signal.  Bring-up reads registers through `read_reg_spi`, so `rx_buffer` holds
     * whatever those transfers left, `rx0`.  The controller was on during bring-up
     * and stays on when the suspend, whose result `main` ignores, fails.  The trace
     * records calls from here on.
     */
    constructor (rx0: seq<Byte>, suspendResult: int)
      requires |rx0| == RxBufferSize
      ensures Valid() && fresh(accelValue) && fresh(rxBuffer)
      ensures accelValue[..] == seq(6, _ => 0) && rxBuffer[..] == rx0
      ensures currentConn == None && heldRefs == multiset{} && readySem == 0
      ensures spiActive == PowerAction(true, false, suspendResult)
      ensures accData == Sample(0, 0, 0) && trace == []
    {
      accelValue := new Byte[6](_ => 0);
      rxBuffer := new Byte[RxBufferSize](i requires 0 <= i < RxBufferSize => rx0[i]);
      currentConn := None;
      heldRefs := multiset{};
      readySem := 0;
      spiActive := PowerAction(true, false, suspendResult);
      accData := Sample(0, 0, 0);
      trace := [];
    }

    /** `bma_int_handler`: give the semaphore; a give at the limit is lost. */
    method InterruptHandler()
      requires Valid()
      modifies this`readySem
      ensures Valid() && readySem == SemGive(old(readySem)) == SemLimit
    {
      if readySem < SemLimit {
        readySem := readySem + 1;
      }
    }

    /** `connected`: on success take a reference and store it, overwriting any previous one. */
    method Connected(conn: Conn, err: Byte)
      requires Valid()
      modifies this`currentConn, this`heldRefs
      ensures Valid()
      ensures err != 0 ==> currentConn == old(currentConn) && heldRefs == old(heldRefs)
      ensures err == 0 ==> currentConn == Some(conn) && heldRefs == old(heldRefs) + multiset{conn}
    {
      if err != 0 {
        return;
      }
      heldRefs := heldRefs + multiset{conn};
      currentConn := Some(conn);
    }

    /** `disconnected`: release the stored reference, if any, and clear the slot, whatever `conn` is. */
    method Disconnected(conn: Conn, reason: Byte)
      requires Valid()
      modifies this`currentConn, this`heldRefs
      ensures Valid() && currentConn == None
      ensures heldRefs == if old(currentConn).Some? then old(heldRefs) - multiset{old(currentConn).value}
                          else old(heldRefs)
    {
      if currentConn.Some? {
        heldRefs := heldRefs - multiset{currentConn.value};
        currentConn := None;
      }
    }

    /**
     * `send_accel_notification`: with no peer, return at once; otherwise overwrite
     * `accel_value` with the little-endian record and notify once.  The notify result
     * is only logged.
     */
    method SendAccelNotification(x: Int16, y: Int16, z: Int16, notifyResult: int)
      requires Valid()
      modifies accelValue, this`trace
      ensures Valid()
      ensures accelValue[..] == if currentConn.Some? then EncodeSample(Sample(x, y, z)) else old(accelValue[..])
      ensures trace == old(trace) + NotifyTrace(currentConn, Sample(x, y, z), notifyResult)
    {
      if currentConn.None? {
        return;
      }
      accelValue[0] := LowByte(x);
      accelValue[1] := HighByte(x);
      accelValue[2] := LowByte(y);
      accelValue[3] := HighByte(y);
      accelValue[4] := LowByte(z);
      accelValue[5] := HighByte(z);
      trace := trace + [Notify(currentConn.value, accelValue[..], notifyResult)];
    }

    /**
     * The SPI driver's `spi_transceive_dt` with `tx` sent and `rxLen` bytes requested.
     * On success it fills the front of `rx_buffer` with what the sensor clocked out;
     * on failure the buffer keeps its old contents.
     */
    method Transceive(tx: seq<Byte>, rxLen: nat, result: int, received: seq<Byte>)
      requires Valid() && rxLen <= RxBufferSize && |received| == rxLen
      modifies rxBuffer, this`trace
      ensures Valid()
      ensures rxBuffer[..] == if result < 0 then old(rxBuffer[..]) else received + old(rxBuffer[..])[rxLen..]
      ensures trace == old(trace) + [SpiTransceive(tx, rxLen, result)]
    {
      if result >= 0 {
        var i := 0;
        while i < rxLen
          invariant 0 <= i <= rxLen
          invariant forall j :: 0 <= j < i ==> rxBuffer[j] == received[j]
          invariant forall j :: i <= j < rxBuffer.Length ==> rxBuffer[j] == old(rxBuffer[j])
          invariant trace == old(trace)
        {
          rxBuffer[i] := received[i];
          i := i + 1;
        }
        assert rxBuffer[..] == received + old(rxBuffer[..])[rxLen..];
      }
      trace := trace + [SpiTransceive(tx, rxLen, result)];
    }

    /**
     * `read_reg_spi`: send the address byte, clock in `len + 1` bytes, and hand
     * back all but the first (the sensor's dummy byte).  A failed transfer is only
     * logged: the stale buffer is still copied and 0 is returned.
     */
    method ReadRegSpi(regAddress: Byte, data: array<Byte>, len: nat, xferResult: int, received: seq<Byte>)
      returns (r: int)
      requires Valid() && len + 1 <= RxBufferSize && len <= data.Length && data != rxBuffer
      requires |received| == len + 1
      modifies rxBuffer, data, this`trace
      ensures Valid() && r == 0
      ensures rxBuffer[..] == if xferResult < 0 then old(rxBuffer[..]) else received + old(rxBuffer[..])[len + 1..]
      ensures data[..len] == rxBuffer[1..len + 1] && data[len..] == old(data[len..])
      ensures xferResult >= 0 ==> data[..len] == received[1..]
      ensures trace == old(trace) + [SpiTransceive([regAddress], len + 1, xferResult)]
    {
      Transceive([regAddress], len + 1, xferResult, received);
      ghost var rx, traced := rxBuffer[..], trace;
      var i := 0;
      while i < len
        invariant 0 <= i <= len
        invariant rxBuffer[..] == rx && trace == traced
        invariant data[..i] == rxBuffer[1..i + 1] && data[len..] == old(data[len..])
      {
        data[i] := rxBuffer[i + 1];
        i := i + 1;
      }
      r := 0;
    }

    /**
     * `write_reg_spi`: send `[address, data[0]]`.  The transmit buffer has two
     * bytes and `len + 1` of them are sent, so only single-byte writes are defined.
     */
    method WriteRegSpi(regAddress: Byte, data: seq<Byte>, len: nat, xferResult: int) returns (r: int)
      requires Valid() && len == 1 && |data| >= 1
      modifies this`trace
      ensures Valid()
      ensures trace == old(trace) + [SpiWrite([regAddress, data[0]], xferResult)]
      ensures r == if xferResult < 0 then xferResult else 0
    {
      var txBuf := [regAddress, data[0]];
      assert txBuf[..len + 1] == txBuf;
      trace := trace + [SpiWrite(txBuf[..len + 1], xferResult)];
      if xferResult < 0 {
        return xferResult;
      }
      r := 0;
    }

    /**
     * `pm_device_action_run` on `spi1`, returning `result`: the power state changes
     * only when the action succeeds.  The worker ignores the result.
     */
    method SpiPower(resume: bool, result: int)
      modifies this`spiActive, this`trace
      ensures spiActive == PowerAction(old(spiActive), resume, result)
      ensures result == 0 ==> spiActive == resume
      ensures result != 0 ==> spiActive == old(spiActive)
      ensures trace == old(trace) + [if resume then SpiResume(result) else SpiSuspend(result)]
    {
      if result == 0 {
        spiActive := resume;
      }
      trace := trace + [if resume then SpiResume(result) else SpiSuspend(result)];
    }

    /**
     * One pass of the loop in `thread_read_bma400`: take the signal, resume SPI,
     * read a sample, send it, suspend SPI.  The results of the read and of both
     * power actions are ignored: a failed read sends the previous `acc_data` again,
     * and a failed suspend leaves the bus on.
     */
    method WorkerCycle(read: ReadOutcome, notifyResult: int, resumeResult: int, suspendResult: int)
      requires Valid() && readySem > 0
      modifies this`readySem, this`spiActive, this`accData, this`trace, accelValue
      ensures Valid() && readySem == old(readySem) - 1
      ensures spiActive == PowerAction(PowerAction(old(spiActive), true, resumeResult), false, suspendResult)
      ensures accData == if read.Fresh? then read.sample else old(accData)
      ensures accelValue[..] == if currentConn.Some? then EncodeSample(accData) else old(accelValue[..])
      ensures trace == old(trace) + CycleTrace(currentConn, read, accData, notifyResult, resumeResult, suspendResult)
    {
      ghost var t0 := trace;
      readySem := readySem - 1;
      trace := trace + [SemTake];
      SpiPower(true, resumeResult);
      trace := trace + [AccelRead(read)];
      if read.Fresh? {
        accData := read.sample;
      }
      assert trace == t0 + [SemTake, SpiResume(resumeResult), AccelRead(read)];
      SendAccelNotification(accData.x, accData.y, accData.z, notifyResult);
      SpiPower(false, suspendResult);
    }

    /** Handles one event of a schedule; `passed` tells whether it ran a worker pass. */
    method Dispatch(e: Event) returns (passed: bool)
      requires Valid()
      modifies this`readySem, this`spiActive, this`accData, this`trace, this`currentConn, this`heldRefs, accelValue
      ensures Valid() && passed == Passes(old(readySem), e)
      ensures readySem == SemStep(old(readySem), e)
      ensures currentConn == ConnStep(old(currentConn), e)
      ensures heldRefs == HeldStep(old(heldRefs), old(currentConn), e)
      ensures spiActive == if passed then PassPower(old(spiActive), e) else old(spiActive)
      ensures accData == if passed && e.read.Fresh? then e.read.sample else old(accData)
      ensures accelValue[..] == if passed && old(currentConn).Some? then EncodeSample(accData) else old(accelValue[..])
    {
      passed := false;
      match e {
      case Interrupt =>
        InterruptHandler();
      case WorkerTurn(read, notifyResult, resumeResult, suspendResult) =>
        if readySem > 0 {
          WorkerCycle(read, notifyResult, resumeResult, suspendResult);
          passed := true;
        }
      case Connect(conn, err) =>
        Connected(conn, err);
      case Disconnect(conn, reason) =>
        Disconnected(conn, reason);
      }
    }

    /** Event `k` of the schedule `es` that started from the state `s0` .. `v0`: the board moves from after `es[..k]` to after `es[..k + 1]`. */
    method RunStep(es: seq<Event>, k: nat, cycles: nat, ghost s0: nat, ghost c0: Option<Conn>, ghost h0: multiset<Conn>,
                   ghost p0: bool, ghost a0: Sample, ghost v0: seq<Byte>) returns (cycles': nat)
      requires Valid() && s0 <= SemLimit && k < |es|
      requires readySem == SemAfter(es[..k], s0) && currentConn == ConnAfter(es[..k], c0)
      requires heldRefs == HeldAfter(es[..k], c0, h0) && spiActive == PowerAfter(es[..k], s0, p0)
      requires accData == SampleAfter(es[..k], s0, a0) && accelValue[..] == ValueAfter(es[..k], s0, c0, a0, v0)
      requires cycles == Wakes(es[..k], s0)
      modifies this`readySem, this`spiActive, this`accData, this`trace, this`currentConn, this`heldRefs, accelValue
      ensures Valid()
      ensures readySem == SemAfter(es[..k + 1], s0) && currentConn == ConnAfter(es[..k + 1], c0)
      ensures heldRefs == HeldAfter(es[..k + 1], c0, h0) && spiActive == PowerAfter(es[..k + 1], s0, p0)
      ensures accData == SampleAfter(es[..k + 1], s0, a0) && accelValue[..] == ValueAfter(es[..k + 1], s0, c0, a0, v0)
      ensures cycles' == Wakes(es[..k + 1], s0)
    {
      assert es[..k + 1][..k] == es[..k];
      var passed := Dispatch(es[k]);
      cycles' := if passed then cycles + 1 else cycles;
    }

    /**
     * Runs a schedule of interrupts, connection callbacks and worker turns.  A turn
     * with no pending signal leaves the worker blocked in `k_sem_take`.
     */
    method Run(es: seq<Event>) returns (cycles: nat)
      requires Valid()
      modifies this`readySem, this`spiActive, this`accData, this`trace, this`currentConn, this`heldRefs, accelValue
      ensures Valid()
      ensures readySem == SemAfter(es, old(readySem))
      ensures currentConn == ConnAfter(es, old(currentConn))
      ensures heldRefs == HeldAfter(es, old(currentConn), old(heldRefs))
      ensures spiActive == PowerAfter(es, old(readySem), old(spiActive))
      ensures accData == SampleAfter(es, old(readySem), old(accData))
      ensures accelValue[..] == ValueAfter(es, old(readySem), old(currentConn), old(accData), old(accelValue[..]))
      ensures cycles == Wakes(es, old(readySem))
    {
      ghost var s0, c0, h0, p0, a0, v0 := readySem, currentConn, heldRefs, spiActive, accData, accelValue[..];
      cycles := 0;
      var k := 0;
      while k < |es|
        invariant 0 <= k <= |es|
        invariant Valid()
        invariant accelValue == old(accelValue) && rxBuffer == old(rxBuffer)
        invariant readySem == SemAfter(es[..k], s0)
        invariant currentConn == ConnAfter(es[..k], c0)
        invariant heldRefs == HeldAfter(es[..k], c0, h0)
        invariant spiActive == PowerAfter(es[..k], s0, p0)
        invariant accData == SampleAfter(es[..k], s0, a0)
        invariant accelValue[..] == ValueAfter(es[..k], s0, c0, a0, v0)
        invariant cycles == Wakes(es[..k], s0)
      {
        cycles := RunStep(es, k, cycles, s0, c0, h0, p0, a0, v0);
        k := k + 1;
      }
      assert es[..k] == es;
    }
  }

  /**
   * A second successful `connected` before a `disconnected` overwrites the slot
   * without releasing the first reference, so it stays held after the disconnect.
   */
  method ReconnectKeepsFirstReference(a: Conn, b: Conn) returns (held: multiset<Conn>, slot: Option<Conn>)
    ensures held == multiset{a} && slot == None
  {
    var board := new Board(seq(RxBufferSize, _ => 0), 0);
    board.Connected(a, 0);
    board.Connected(b, 0);
    board.Disconnected(b, 0x13);
    board.Disconnected(b, 0x13);
    held, slot := board.heldRefs, board.currentConn;
  }
}
