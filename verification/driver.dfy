/**
 The adapter object that talks to the vendor CAN driver: it fills a transmit
 event from a hex payload typed by the user, and it runs the blocking receive
 loop that a background worker starts and the user's stop button ends. The
 vendor library and the operating system wait are not modelled; what they
 return is given to each method as input.
 */
module Driver {
  import opened Hex
  import opened Dispatch
  import opened Seqs

  /** Payload capacity of a classic CAN event record. */
  const MAX_MSG_LEN: nat := 8

  /** The event tag; a fresh event record is zeroed, i.e. untagged. */
  datatype EventTag = Untagged | TransmitMsg

  /** What a send reports: success, or the exception it raises. */
  datatype SendStatus = SendOk | SendRaised(failure: Failure)

  /** A transmit event record with its fixed payload array. */
  class XLEvent {
    var tag: EventTag
    var id: nat
    var dlc: nat
    var flags: nat
    const data: array<Byte>

    /**
     A zero-filled record whose payload array holds capacity bytes, as the
     record type's constructor gives.
     */
    constructor(capacity: nat)
      ensures tag == Untagged && id == 0 && dlc == 0 && flags == 0
      ensures fresh(data) && data.Length == capacity
      ensures forall i :: 0 <= i < data.Length ==> data[i] == 0
    {
      tag, id, dlc, flags := Untagged, 0, 0, 0;
      data := new Byte[capacity](i => 0);
    }

    /**
     Tags the record for transmission, sets id, dlc and flags, then copies the
     payload byte by byte. A payload longer than the array is copied as far as
     the array reaches, and the write past its end raises, reported as false.
     */
    method FillTransmit(msgId: nat, bytes: seq<Byte>) returns (ok: bool)
      modifies this, data
      ensures tag == TransmitMsg && id == msgId && dlc == |bytes| && flags == 0
      ensures ok <==> |bytes| <= data.Length
      ensures var n := if ok then |bytes| else data.Length;
        data[..n] == bytes[..n] && data[n..] == old(data[n..])
    {
      tag := TransmitMsg;
      id := msgId;
      dlc := |bytes|;
      flags := 0;
      var i := 0;
      while i < |bytes|
        invariant 0 <= i <= |bytes| && i <= data.Length
        invariant data[..i] == bytes[..i] && data[i..] == old(data[i..])
        modifies data
      {
        if i >= data.Length {
          return false;
        }
        data[i] := bytes[i];
        i := i + 1;
      }
      return true;
    }
  }

  /** The driver adapter: the listen flag and the log it emits. */
  class XLDriver {
    var listen: bool
    var log: seq<LogLine>

    constructor()
      ensures !listen && log == []
    {
      listen := false;
      log := [];
    }

    /**
     Sends one frame. The payload text is decoded into bytes, a fresh event is
     filled with them, and the vendor transmit call's status (an input here)
     decides success. On success two lines are logged; on failure nothing is.
     A payload of more than eight bytes raises before transmit is reached.
     The record is filled before transmit is called, so whatever the status,
     it holds the decoded bytes (as many as fit) and zeros after them.
     */
    method SendMessage(msgId: nat, dataStr: string, transmitStatus: XLStatus)
      returns (ev: XLEvent, status: SendStatus)
      requires IsHexText(dataStr)
      modifies this
      ensures fresh(ev) && ev.tag == TransmitMsg && ev.id == msgId && ev.flags == 0
      ensures ev.dlc == |DecodePayload(dataStr)| && ev.data.Length == MAX_MSG_LEN
      ensures status == (if |DecodePayload(dataStr)| > MAX_MSG_LEN then SendRaised(IndexOutOfRange(MAX_MSG_LEN))
                         else if transmitStatus != Success then SendRaised(TransmitFailed(transmitStatus))
                         else SendOk)
      ensures |DecodePayload(dataStr)| <= MAX_MSG_LEN ==> ev.data[..ev.dlc] == DecodePayload(dataStr)
      ensures |DecodePayload(dataStr)| > MAX_MSG_LEN ==> ev.data[..] == DecodePayload(dataStr)[..MAX_MSG_LEN]
      ensures forall i :: ev.dlc <= i < ev.data.Length ==> ev.data[i] == 0
      ensures log == old(log) + (if status.SendOk? then [SendSuccess, Sent(msgId, dataStr)] else [])
      ensures listen == old(listen)
    {
      var bytes := DecodePayload(dataStr);
      ev := new XLEvent(MAX_MSG_LEN);
      var ok := ev.FillTransmit(msgId, bytes);
      if !ok {
        return ev, SendRaised(IndexOutOfRange(MAX_MSG_LEN));
      }
      if transmitStatus != Success {
        return ev, SendRaised(TransmitFailed(transmitStatus));
      }
      log := log + [SendSuccess, Sent(ev.id, dataStr)];
      status := SendOk;
    }

    /** Clears the listen flag; the receive loop sees it at its next check. */
    method StopListen()
      modifies this
      ensures !listen && log == old(log)
    {
      listen := false;
    }

    /**
     The inner polling loop, from receive result j on: each frame is logged,
     queue-empty ends the drain, and anything else raises. Returns where the
     next receive result starts and how the drain ended, as Drain specifies.
     */
    method DrainQueue(rx: seq<RxEvent>, j0: nat) returns (j: nat, end: DrainEnd)
      requires j0 <= |rx|
      modifies this
      ensures var d := Drain(rx[j0..]);
        log == old(log) + d.lines && j == j0 + d.consumed && end == d.end
      ensures listen == old(listen)
    {
      j := j0;
      while true
        invariant j0 <= j <= |rx| && listen == old(listen)
        invariant var d, e := Drain(rx[j0..]), Drain(rx[j..]);
          log + e.lines == old(log) + d.lines && d.consumed == j - j0 + e.consumed && d.end == e.end
        decreases |rx| - j
      {
        if j == |rx| {
          return j, DrainInputExhausted;
        }
        var ev := rx[j];
        ghost var before := log;
        ghost var e := Drain(rx[j..]);
        assert rx[j..][0] == ev && rx[j..][1..] == rx[j + 1..];
        DrainUnfold(rx[j..]);
        j := j + 1;
        if ev.status == Success {
          if ev.dlc > |ev.data| {
            return j, DrainFailed(IndexOutOfRange(|ev.data|));
          }
          log := log + [ReceivedLine(ev)];
          AppendAssoc(before, [ReceivedLine(ev)], Drain(rx[j..]).lines);
        } else if ev.status == QueueIsEmpty {
          return j, QueueDrained;
        } else {
          return j, DrainFailed(ReceiveFailed(ev.status));
        }
      }
    }

    /**
     One iteration of the receive loop for one wait result: a signalled wait
     drains the queue, a timeout logs a heartbeat, anything else raises.
     Returns where the next receive result starts and whether the loop goes
     on, as HandleWait specifies.
     */
    method HandleWaitResult(result: int, rx: seq<RxEvent>, j0: nat) returns (j: nat, end: IterationEnd)
      requires j0 <= |rx|
      modifies this
      ensures var it := HandleWait(result, rx[j0..]);
        log == old(log) + it.lines && j == j0 + it.consumed && end == it.end
      ensures listen == old(listen)
    {
      j := j0;
      if result == WAIT_OBJECT_0 {
        var drained: DrainEnd;
        j, drained := DrainQueue(rx, j0);
        end := match drained
          case QueueDrained => NextIteration
          case DrainFailed(f) => EndLoop(Failed(f))
          case DrainInputExhausted => EndLoop(InputExhausted);
      } else if result == WAIT_TIMEOUT {
        log := log + [Listening];
        end := NextIteration;
      } else {
        end := EndLoop(Failed(WaitFailed(result)));
      }
    }

    /**
     The receive loop. waits are the results of the successive timed waits,
     rx the results of the successive receive calls, and stopAfter the number
     of outer iterations that begin before the stop request is seen (the stop
     comes from another thread; here it is issued between iterations). The
     log gains the opening heartbeat followed by what the Run specification
     logs, and the loop ends as Run says.
     */
    method ReceiveMessage(waits: seq<int>, rx: seq<RxEvent>, stopAfter: nat) returns (outcome: Outcome)
      modifies this
      ensures var t := Run(waits, rx, stopAfter);
        log == old(log) + [Listening] + t.lines && outcome == t.outcome
      ensures listen <==> !outcome.Stopped?
    {
      listen := true;
      log := log + [Listening];
      ghost var start := log;
      if stopAfter == 0 {
        StopListen();
      }
      var k, j := 0, 0;
      while listen
        invariant 0 <= k <= |waits| && k <= stopAfter && j <= |rx|
        invariant listen <==> k < stopAfter
        invariant var t, r := Run(waits, rx, stopAfter), Run(waits[k..], rx[j..], stopAfter - k);
          log + r.lines == start + t.lines && r.outcome == t.outcome
        decreases |waits| - k
      {
        if k == |waits| {
          return InputExhausted;
        }
        ghost var before := log;
        var next, end := HandleWaitResult(waits[k], rx, j);
        RunFrom(waits, rx, stopAfter, k, j);
        if end.EndLoop? {
          return end.outcome;
        }
        AppendAssoc(before, HandleWait(waits[k], rx[j..]).lines, Run(waits[k + 1..], rx[next..], stopAfter - (k + 1)).lines);
        k, j := k + 1, next;
        if k == stopAfter {
          StopListen();
        }
      }
      return Stopped;
    }
  }
}
