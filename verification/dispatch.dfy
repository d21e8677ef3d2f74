/**
 The decision logic of the receive loop, as functions over abstract inputs.
 The results of waiting on the notification handle and the statuses and
 events returned by the driver's receive call are given as sequences, in the
 order they occur; the functions say what is logged and how the loop ends.
 */
module Dispatch {
  import opened Hex
  import opened Seqs

  /** Result of a wait on the notification handle that signals data. */
  const WAIT_OBJECT_0: int := 0
  /** Result of a wait that timed out. */
  const WAIT_TIMEOUT: int := 0x102

  /** The driver's status codes: the two the receive loop tells apart, and every other code. */
  datatype XLStatus = Success | QueueIsEmpty | OtherStatus(code: int)

  /** What one receive call hands back: a status and, on success, an event. */
  datatype RxEvent = RxEvent(status: XLStatus, id: nat, dlc: nat, data: seq<Byte>)

  /**
   The lines the adapter logs, as data; Render gives the text of each. A
   received frame is logged with the payload bytes it shows.
   */
  datatype LogLine =
    | Listening
    | Received(id: nat, payload: seq<Byte>)
    | SendSuccess
    | Sent(id: nat, text: string)

  /** Why an operation raised. */
  datatype Failure =
    | WaitFailed(result: int)
    | ReceiveFailed(status: XLStatus)
    | IndexOutOfRange(index: nat)
    | TransmitFailed(status: XLStatus)

  datatype DrainEnd = QueueDrained | DrainFailed(failure: Failure) | DrainInputExhausted

  /** Lines logged by a drain, receive calls it made, and how it ended. */
  datatype Drained = Drained(lines: seq<LogLine>, consumed: nat, end: DrainEnd)

  datatype Outcome = Stopped | Failed(failure: Failure) | InputExhausted

  datatype IterationEnd = NextIteration | EndLoop(outcome: Outcome)

  /** Lines logged by one outer iteration, receive calls it made, and whether the loop goes on. */
  datatype Iteration = Iteration(lines: seq<LogLine>, consumed: nat, end: IterationEnd)

  /** Lines logged by the outer loop, iterations it began, and how it ended. */
  datatype Trace = Trace(lines: seq<LogLine>, iterations: nat, outcome: Outcome)

  /** An event the receive path can log: a success whose dlc fits its data array. */
  predicate IsFrame(ev: RxEvent) {
    ev.status == Success && ev.dlc <= |ev.data|
  }

  /** The log line for a received frame: its id and the first dlc bytes of its data. */
  function ReceivedLine(ev: RxEvent): (line: LogLine)
    requires ev.dlc <= |ev.data|
    ensures line.Received? && line.id == ev.id && |line.payload| == ev.dlc
  {
    Received(ev.id, ev.data[..ev.dlc])
  }

  /**
   The text of a log line: the arguments of the log call joined by single
   spaces. The fixed parts have known widths, so each line's length is its
   variable parts' lengths plus a constant.
   */
  function Render(line: LogLine): (r: string)
    ensures line.Listening? ==> |r| == 12
    ensures line.SendSuccess? ==> |r| == 21
    ensures line.Received? ==> |r| == |HexLiteral(line.id)| + |FormatPayload(line.payload)| + 42
    ensures line.Sent? ==> |r| == |HexLiteral(line.id)| + |line.text| + 28
  {
    match line
    case Listening => "Listening..."
    case Received(id, payload) =>
      "Received Message ID: " + HexLiteral(id) + " " + "; Received message: " + FormatPayload(payload)
    case SendSuccess => "Send message success!"
    case Sent(id, text) => "Send ID: " + " " + HexLiteral(id) + " " + "; Send message: " + " " + text
  }

  /**
   The logged text of a received frame ends with its payload rendered in hex,
   and that rendering decodes back to exactly the first dlc bytes of the event.
   */
  lemma ReceivedTextDecodes(ev: RxEvent)
    requires ev.dlc <= |ev.data|
    ensures var text := Render(ReceivedLine(ev));
      var shown := FormatPayload(ev.data[..ev.dlc]);
      && |shown| <= |text| && text[|text| - |shown|..] == shown
      && IsHexText(shown) && DecodePayload(shown) == ev.data[..ev.dlc]
  {
    FormatThenDecode(ev.data[..ev.dlc]);
  }

  /**
   The logged text of a sent frame shows the id as hex() writes it, at a fixed
   offset, and its digits read back as the id; the text ends with the payload
   exactly as the user typed it, spaces included.
   */
  lemma SentTextShowsIdAndPayload(id: nat, text: string)
    ensures var line, shown := Render(Sent(id, text)), HexLiteral(id);
      && |line| == |shown| + |text| + 28
      && line[10..10 + |shown|] == shown && HexValue(shown[2..]) == id
      && line[|line| - |text|..] == text
  {
    var shown := HexLiteral(id);
    var pre: string := "Send ID: " + " ";
    var mid: string := " " + "; Send message: " + " ";
    var head := pre + shown + mid;
    assert |pre| == 10 && |mid| == 18;
    assert Render(Sent(id, text)) == head + text;
    SliceInTail(pre, shown, 0, |shown|);
    SliceInHead(pre + shown, mid, 10, 10 + |shown|);
    SliceInHead(head, text, 10, 10 + |shown|);
    SliceInTail(head, text, 0, |text|);
    LowerDigitsValue(id);
    assert shown[2..] == LowerDigits(id);
  }

  /**
   One drain: poll receive until the queue reports empty. A success logs the
   frame and continues; queue-empty ends the drain; any other status raises.
   Reading the first dlc bytes of a frame whose dlc exceeds its data array
   raises an index error.
   */
  function Drain(rx: seq<RxEvent>): (d: Drained)
    ensures d.consumed <= |rx|
  {
    if rx == [] then Drained([], 0, DrainInputExhausted)
    else
      var ev := rx[0];
      match ev.status
      case Success =>
        if ev.dlc <= |ev.data| then
          var rest := Drain(rx[1..]);
          Drained([ReceivedLine(ev)] + rest.lines, rest.consumed + 1, rest.end)
        else
          Drained([], 1, DrainFailed(IndexOutOfRange(|ev.data|)))
      case QueueIsEmpty => Drained([], 1, QueueDrained)
      case OtherStatus(_) => Drained([], 1, DrainFailed(ReceiveFailed(ev.status)))
  }

  /**
   Every receive result a drain consumes logs one line, except the one that
   ends it; no drain logs a heartbeat.
   */
  lemma {:induction false} DrainCounts(rx: seq<RxEvent>)
    ensures var d := Drain(rx);
      && d.consumed == |d.lines| + (if d.end == DrainInputExhausted then 0 else 1)
      && Heartbeats(d.lines) == 0
  {
    if rx != [] && IsFrame(rx[0]) {
      DrainCounts(rx[1..]);
      var line, rest := ReceivedLine(rx[0]), Drain(rx[1..]).lines;
      assert ([line] + rest)[1..] == rest;
    }
  }

  /** The first receive result decides how a drain goes on. */
  lemma DrainUnfold(rx: seq<RxEvent>)
    requires rx != []
    ensures var ev, d, rest := rx[0], Drain(rx), Drain(rx[1..]);
      && (IsFrame(ev) ==> d == Drained([ReceivedLine(ev)] + rest.lines, rest.consumed + 1, rest.end))
      && (ev.status == Success && ev.dlc > |ev.data| ==> d == Drained([], 1, DrainFailed(IndexOutOfRange(|ev.data|))))
      && (ev.status == QueueIsEmpty ==> d == Drained([], 1, QueueDrained))
      && (ev.status.OtherStatus? ==> d == Drained([], 1, DrainFailed(ReceiveFailed(ev.status))))
  {
  }

  /**
   A drain logs exactly the leading frames, in order, and stops at the first
   event that is not one: on queue-empty it ends normally, on any other status
   or an oversized dlc it fails, and nothing after that event is read.
   */
  lemma {:induction false} DrainLogsLeadingFrames(rx: seq<RxEvent>, k: nat)
    requires k <= |rx|
    requires forall i :: 0 <= i < k ==> IsFrame(rx[i])
    requires k < |rx| ==> !IsFrame(rx[k])
    ensures |Drain(rx).lines| == k
    ensures forall i :: 0 <= i < k ==> IsFrame(rx[i]) && Drain(rx).lines[i] == ReceivedLine(rx[i])
    ensures k == |rx| ==> Drain(rx).end == DrainInputExhausted
    ensures k < |rx| ==> Drain(rx).consumed == k + 1
    ensures k < |rx| && rx[k].status == QueueIsEmpty ==> Drain(rx).end == QueueDrained
    ensures k < |rx| && rx[k].status == Success ==>
      Drain(rx).end == DrainFailed(IndexOutOfRange(|rx[k].data|))
    ensures k < |rx| && rx[k].status.OtherStatus? ==>
      Drain(rx).end == DrainFailed(ReceiveFailed(rx[k].status))
  {
    if k > 0 {
      DrainLogsLeadingFrames(rx[1..], k - 1);
      var d := Drain(rx);
      assert d.lines == [ReceivedLine(rx[0])] + Drain(rx[1..]).lines;
    }
  }

  /**
   One iteration of the outer loop, for one wait result: WAIT_OBJECT_0 runs a
   drain, WAIT_TIMEOUT logs exactly one heartbeat, anything else raises. The
   iteration says what it logged, how many receive calls it made, and whether
   the loop goes on to check the listen flag again.
   */
  function HandleWait(result: int, rx: seq<RxEvent>): (it: Iteration)
    ensures it.consumed <= |rx|
    ensures it.end.EndLoop? ==> !it.end.outcome.Stopped?
    ensures result != WAIT_OBJECT_0 ==> it.consumed == 0
  {
    if result == WAIT_OBJECT_0 then
      var d := Drain(rx);
      var end := match d.end
        case QueueDrained => NextIteration
        case DrainFailed(f) => EndLoop(Failed(f))
        case DrainInputExhausted => EndLoop(InputExhausted);
      Iteration(d.lines, d.consumed, end)
    else if result == WAIT_TIMEOUT then
      Iteration([Listening], 0, NextIteration)
    else
      Iteration([], 0, EndLoop(Failed(WaitFailed(result))))
  }

  /** An iteration logs one heartbeat for a timed-out wait and none otherwise. */
  lemma HeartbeatsPerWait(result: int, rx: seq<RxEvent>)
    ensures Heartbeats(HandleWait(result, rx).lines) == if result == WAIT_TIMEOUT then 1 else 0
  {
    DrainCounts(rx);
    assert [Listening][1..] == [];
  }

  /**
   The outer loop. budget is the number of iterations that begin before the
   cleared listen flag is observed; no iteration begins once it is spent, so a
   stop request lets at most the iteration in progress finish.
   */
  function Run(waits: seq<int>, rx: seq<RxEvent>, budget: nat): (t: Trace)
    ensures t.iterations <= budget && t.iterations <= |waits|
    ensures t.outcome == Stopped ==> t.iterations == budget
    decreases waits
  {
    if budget == 0 then Trace([], 0, Stopped)
    else if waits == [] then Trace([], 0, InputExhausted)
    else
      var it := HandleWait(waits[0], rx);
      match it.end
      case EndLoop(outcome) => Trace(it.lines, 1, outcome)
      case NextIteration =>
        var t := Run(waits[1..], rx[it.consumed..], budget - 1);
        Trace(it.lines + t.lines, t.iterations + 1, t.outcome)
  }

  /** The number of heartbeat lines in a log. */
  function Heartbeats(lines: seq<LogLine>): (n: nat)
    ensures n <= |lines|
  {
    if lines == [] then 0 else (if lines[0] == Listening then 1 else 0) + Heartbeats(lines[1..])
  }

  /** The number of timed-out waits among some wait results. */
  function Timeouts(waits: seq<int>): (n: nat)
    ensures n <= |waits|
  {
    if waits == [] then 0 else (if waits[0] == WAIT_TIMEOUT then 1 else 0) + Timeouts(waits[1..])
  }

  lemma {:induction false} HeartbeatsAppend(a: seq<LogLine>, b: seq<LogLine>)
    ensures Heartbeats(a + b) == Heartbeats(a) + Heartbeats(b)
  {
    if a == [] {
      assert a + b == b;
    } else {
      assert (a + b)[1..] == a[1..] + b;
      HeartbeatsAppend(a[1..], b);
    }
  }

  /**
   Exactly one heartbeat is logged per timed-out wait among the wait results
   the loop consumed.
   */
  lemma {:induction false} HeartbeatPerTimeout(waits: seq<int>, rx: seq<RxEvent>, budget: nat)
    ensures HeartbeatsMatchTimeouts(waits, rx, budget)
    decreases waits, 1
  {
    if budget > 0 && waits != [] {
      if HandleWait(waits[0], rx).end.NextIteration? {
        HeartbeatAfterIteration(waits, rx, budget);
      } else {
        HeartbeatsPerWait(waits[0], rx);
        var w := waits[..1];
        assert w[1..] == [];
      }
    }
  }

  /** The heartbeats logged equal the timeouts among the wait results consumed. */
  ghost predicate HeartbeatsMatchTimeouts(waits: seq<int>, rx: seq<RxEvent>, budget: nat) {
    var t := Run(waits, rx, budget);
    Heartbeats(t.lines) == Timeouts(waits[..t.iterations])
  }

  lemma {:induction false} HeartbeatAfterIteration(waits: seq<int>, rx: seq<RxEvent>, budget: nat)
    requires budget > 0 && waits != [] && HandleWait(waits[0], rx).end.NextIteration?
    ensures HeartbeatsMatchTimeouts(waits, rx, budget)
    decreases waits, 0
  {
    var it := HandleWait(waits[0], rx);
    var rest := rx[it.consumed..];
    HeartbeatPerTimeout(waits[1..], rest, budget - 1);
    var t' := Run(waits[1..], rest, budget - 1);
    assert Heartbeats(t'.lines) == Timeouts(waits[1..][..t'.iterations]);
    RunStep(waits, rx, budget);
    var t := Run(waits, rx, budget);
    assert t.lines == it.lines + t'.lines && t.iterations == t'.iterations + 1;
    HeartbeatsAppend(it.lines, t'.lines);
    HeartbeatsPerWait(waits[0], rx);
    TimeoutsPrefix(waits, t.iterations);
  }

  /** An iteration that lets the loop go on is followed by the run on what is left. */
  lemma RunStep(waits: seq<int>, rx: seq<RxEvent>, budget: nat)
    requires budget > 0 && waits != [] && HandleWait(waits[0], rx).end.NextIteration?
    ensures var it := HandleWait(waits[0], rx);
      var t' := Run(waits[1..], rx[it.consumed..], budget - 1);
      Run(waits, rx, budget) == Trace(it.lines + t'.lines, t'.iterations + 1, t'.outcome)
  {
  }

  /**
   The run from wait result k and receive result j on is the iteration for
   wait result k followed, when the loop goes on, by the run from the results
   that iteration left.
   */
  lemma RunFrom(waits: seq<int>, rx: seq<RxEvent>, budget: nat, k: nat, j: nat)
    requires k < |waits| && k < budget && j <= |rx|
    ensures var it, r := HandleWait(waits[k], rx[j..]), Run(waits[k..], rx[j..], budget - k);
      && (it.end.EndLoop? ==> r == Trace(it.lines, 1, it.end.outcome))
      && (it.end.NextIteration? ==>
            var r' := Run(waits[k + 1..], rx[j + it.consumed..], budget - (k + 1));
            r.lines == it.lines + r'.lines && r.outcome == r'.outcome)
  {
    assert waits[k..][0] == waits[k] && waits[k..][1..] == waits[k + 1..];
    var it := HandleWait(waits[k], rx[j..]);
    assert rx[j..][it.consumed..] == rx[j + it.consumed..];
    if it.end.NextIteration? {
      RunStep(waits[k..], rx[j..], budget - k);
    }
  }

  lemma TimeoutsPrefix(waits: seq<int>, n: nat)
    requires 0 < n <= |waits|
    ensures Timeouts(waits[..n]) == (if waits[0] == WAIT_TIMEOUT then 1 else 0) + Timeouts(waits[1..][..n - 1])
  {
    assert waits[..n][1..] == waits[1..][..n - 1];
  }

  /**
   A later stop only adds lines at the end of the log, and a run that ended
   before its stop was observed is not affected by when the stop came.
   */
  lemma {:induction false} LaterStopExtendsLog(waits: seq<int>, rx: seq<RxEvent>, b1: nat, b2: nat)
    requires b1 <= b2
    ensures StopLaterExtends(waits, rx, b1, b2)
    decreases waits, 1
  {
    if b1 > 0 && waits != [] && HandleWait(waits[0], rx).end.NextIteration? {
      LaterStopAfterIteration(waits, rx, b1, b2);
    }
  }

  /** Stopping after b2 iterations rather than b1 only extends the run. */
  ghost predicate StopLaterExtends(waits: seq<int>, rx: seq<RxEvent>, b1: nat, b2: nat) {
    var t1, t2 := Run(waits, rx, b1), Run(waits, rx, b2);
    && t1.lines <= t2.lines
    && t1.iterations <= t2.iterations
    && (t1.outcome != Stopped ==> t2 == t1)
  }

  lemma {:induction false} LaterStopAfterIteration(waits: seq<int>, rx: seq<RxEvent>, b1: nat, b2: nat)
    requires 0 < b1 <= b2 && waits != [] && HandleWait(waits[0], rx).end.NextIteration?
    ensures StopLaterExtends(waits, rx, b1, b2)
    decreases waits, 0
  {
    var it := HandleWait(waits[0], rx);
    var rest := rx[it.consumed..];
    LaterStopExtendsLog(waits[1..], rest, b1 - 1, b2 - 1);
    var r1, r2 := Run(waits[1..], rest, b1 - 1), Run(waits[1..], rest, b2 - 1);
    assert r1.lines <= r2.lines && r1.iterations <= r2.iterations;
    assert r1.outcome != Stopped ==> r2 == r1;
    RunStep(waits, rx, b1);
    RunStep(waits, rx, b2);
    var t1, t2 := Run(waits, rx, b1), Run(waits, rx, b2);
    assert t1.lines == it.lines + r1.lines && t2.lines == it.lines + r2.lines;
    PrefixAfterCommonHead(it.lines, r1.lines, r2.lines);
  }

  /** A stop that lands before the first check of the flag logs nothing. */
  lemma StopBeforeFirstCheck(waits: seq<int>, rx: seq<RxEvent>)
    ensures Run(waits, rx, 0) == Trace([], 0, Stopped)
  {
  }

  /** A wait result other than signalled or timed out raises at once, logging nothing. */
  lemma {:induction false} UnknownWaitResultFails(waits: seq<int>, rx: seq<RxEvent>, budget: nat)
    requires budget > 0 && waits != []
    requires waits[0] != WAIT_OBJECT_0 && waits[0] != WAIT_TIMEOUT
    ensures Run(waits, rx, budget) == Trace([], 1, Failed(WaitFailed(waits[0])))
  {
  }
}
