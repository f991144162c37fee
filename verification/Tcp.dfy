/** The receive path of a TCP socket: in-order acceptance into a bounded buffer, against
    loss, duplication and reordering. Sequence numbers are 32 bits wide and wrap. */
module Tcp {

  type byte = x: int | 0 <= x < 256
  type Bytes = seq<byte>

  const BUF_SIZE: nat := 4096
  const SPAN: nat := 0x1_0000_0000          // the sequence space

  datatype SocketState = Closed | Listen | SynSent | SynReceived | Established | FinWait1 | FinWait2
                       | CloseWait | LastAck | Closing | TimeWait

  /** A segment as TcpHandlePacket reads it. */
  datatype Segment = Segment(number: nat, ack: nat, syn: bool, acks: bool, fin: bool, window: nat, payload: Bytes)

  /** The fields of TcpSocket the receive path uses; `buf` is recv_buf[..recv_len]. */
  datatype Socket = Socket(state: SocketState, sndUna: nat, sndNxt: nat, rcvNxt: nat, irs: nat, pending: bool, window: nat, buf: Bytes)

  function Min(a: nat, b: nat): nat { if a < b then a else b }

  /** The states in which data is taken. */
  predicate Open(st: SocketState) { st.Established? || st.FinWait1? || st.FinWait2? || st.CloseWait? }

  /** How much of a segment's payload is taken: all that fits, of the segment that comes next. */
  function Room(s: Socket, g: Segment): nat
    requires |s.buf| <= BUF_SIZE
  {
    if g.number == s.rcvNxt then Min(|g.payload|, BUF_SIZE - |s.buf|) else 0
  }

  function Taken(s: Socket, g: Segment): Socket
    requires |s.buf| <= BUF_SIZE
  {
    var n := Room(s, g);
    if n == 0 then s else s.(buf := s.buf + g.payload[..n], rcvNxt := (s.rcvNxt + n) % SPAN)
  }

  function Acked(s: Socket, g: Segment): Socket {
    if g.acks && g.ack > s.sndUna && g.ack <= s.sndNxt then s.(sndUna := g.ack) else s
  }

  function FinSeen(s: Socket, g: Segment): Socket {
    if !g.fin then s
    else
      s.(rcvNxt := (s.rcvNxt + 1) % SPAN,
         state := match s.state
                  case Established => CloseWait
                  case FinWait1 => if g.ack == s.sndNxt then TimeWait else Closing
                  case FinWait2 => TimeWait
                  case _ => s.state)
  }

  /** The closing handshake behind the data. */
  function Closings(s: Socket, g: Segment): Socket {
    var s1 := if s.state.CloseWait? && s.pending then s.(state := LastAck, sndNxt := (s.sndNxt + 1) % SPAN) else s;
    var s2 := if s1.state.LastAck? && g.acks && g.ack >= s1.sndNxt then s1.(state := Closed) else s1;
    if s2.state.Closing? && g.acks && g.ack >= s2.sndNxt then s2.(state := TimeWait) else s2
  }

  /** TcpHandlePacket on the socket a segment belongs to. */
  function AfterSegment(s: Socket, g: Segment): Socket
    requires |s.buf| <= BUF_SIZE
  {
    var s0 := s.(window := g.window);
    if s0.state.SynSent? then
      if g.syn && g.acks && g.ack == s0.sndNxt then
        s0.(rcvNxt := (g.number + 1) % SPAN, irs := g.number, sndUna := g.ack, state := Established)
      else s0
    else
      var s1 := if Open(s0.state) then Closings(FinSeen(Acked(Taken(s0, g), g), g), g) else s0;
      if s1.state.FinWait1? && g.acks && g.ack >= s1.sndNxt then s1.(state := FinWait2) else s1
  }

  /** The part of TcpRecv that takes bytes from the buffer. */
  function AfterRecv(s: Socket, max: nat): Socket { s.(buf := s.buf[Min(max, |s.buf|)..]) }
  function Received(s: Socket, max: nat): Bytes { s.buf[..Min(max, |s.buf|)] }

  // ---- one peer's stream ------------------------------------------------------

  /** The sequence number of stream byte `k`, when the peer's SYN had number `irs`. */
  function SeqOf(irs: nat, k: nat): nat { (irs + 1 + k) % SPAN }

  lemma SeqOfDiffers(irs: nat, j: nat, k: nat)
    requires j < SPAN && k < SPAN && SeqOf(irs, j) == SeqOf(irs, k)
    ensures j == k
  {
    var a, b := (irs + 1 + j) / SPAN, (irs + 1 + k) / SPAN;
    assert irs + 1 + j == SPAN * a + SeqOf(irs, j) && irs + 1 + k == SPAN * b + SeqOf(irs, k);
    assert j - k == SPAN * (a - b);
  }

  lemma SeqOfNext(irs: nat, k: nat, n: nat)
    ensures (SeqOf(irs, k) + n) % SPAN == SeqOf(irs, k + n)
  {
    var q := (irs + 1 + k) / SPAN;
    assert irs + 1 + k == SPAN * q + SeqOf(irs, k);
    assert irs + 1 + k + n == SPAN * q + (SeqOf(irs, k) + n);
    ModShift(SeqOf(irs, k) + n, q);
  }

  lemma ModShift(x: nat, q: nat)
    ensures (SPAN * q + x) % SPAN == x % SPAN
  {
    var r := x / SPAN;
    assert SPAN * q + x == SPAN * (q + r) + x % SPAN;
  }

  /** A segment without FIN whose payload is a piece of the stream at its sequence number.
      Whether it is a first copy, a repeat or out of order makes no difference. */
  predicate PieceOf(stream: Bytes, irs: nat, g: Segment) {
    !g.fin && (g.payload == [] ||
      exists off :: 0 <= off <= |stream| - |g.payload| && IsPiece(stream, irs, g, off))
  }

  predicate IsPiece(stream: Bytes, irs: nat, g: Segment, off: int) {
    0 <= off && off + |g.payload| <= |stream| && g.number == SeqOf(irs, off) && g.payload == stream[off..off + |g.payload|]
  }

  /** `done` bytes went to the reader, the next ones wait in the buffer, and the socket
      expects the byte behind them. */
  ghost predicate InStep(s: Socket, stream: Bytes, irs: nat, done: Bytes) {
    && |s.buf| <= BUF_SIZE && |done| + |s.buf| <= |stream|
    && done + s.buf == stream[..|done| + |s.buf|]
    && s.rcvNxt == SeqOf(irs, |done| + |s.buf|)
  }

  /** Without FIN, a segment touches the data only by adding to it. */
  lemma DataOnly(s: Socket, g: Segment)
    requires |s.buf| <= BUF_SIZE && !s.state.SynSent? && !g.fin
    ensures var s', t := AfterSegment(s, g), if Open(s.state) then Taken(s, g) else s;
            s'.buf == t.buf && s'.rcvNxt == t.rcvNxt && !s'.state.SynSent?
  {
  }

  lemma TakenInStep(s: Socket, stream: Bytes, irs: nat, done: Bytes, g: Segment)
    requires InStep(s, stream, irs, done) && PieceOf(stream, irs, g) && |stream| < SPAN
    ensures InStep(Taken(s, g), stream, irs, done)
  {
    hide SeqOf;
    var k := |done| + |s.buf|;
    var n := Room(s, g);
    if n > 0 {
      var off :| 0 <= off <= |stream| - |g.payload| && IsPiece(stream, irs, g, off);
      SeqOfDiffers(irs, off, k);
      Lengthened(stream, done, s.buf, g.payload, n);
      SeqOfNext(irs, k, n);
    }
  }

  lemma Lengthened(stream: Bytes, done: Bytes, buf: Bytes, payload: Bytes, n: nat)
    requires var k := |done| + |buf|; k + |payload| <= |stream| && done + buf == stream[..k] && payload == stream[k..k + |payload|]
    requires n <= |payload|
    ensures done + (buf + payload[..n]) == stream[..|done| + |buf| + n]
  {
    var k := |done| + |buf|;
    assert payload[..n] == stream[k..k + n];
    assert done + (buf + payload[..n]) == (done + buf) + payload[..n];
  }

  /** A piece of the stream, whenever it comes, keeps the socket in step. */
  lemma SegmentInStep(s: Socket, stream: Bytes, irs: nat, done: Bytes, g: Segment)
    requires InStep(s, stream, irs, done) && !s.state.SynSent? && PieceOf(stream, irs, g) && |stream| < SPAN
    ensures InStep(AfterSegment(s, g), stream, irs, done) && !AfterSegment(s, g).state.SynSent?
  {
    hide AfterSegment, Taken;
    DataOnly(s, g);
    TakenInStep(s, stream, irs, done, g);
  }

  /** Reading moves bytes from the buffer to the reader. */
  lemma RecvInStep(s: Socket, stream: Bytes, irs: nat, done: Bytes, max: nat)
    requires InStep(s, stream, irs, done)
    ensures InStep(AfterRecv(s, max), stream, irs, done + Received(s, max))
  {
    var n := Min(max, |s.buf|);
    assert s.buf == s.buf[..n] + s.buf[n..];
    assert done + s.buf[..n] + s.buf[n..] == done + s.buf;
  }

  /** The handshake puts a fresh socket in step with the empty prefix. */
  lemma ConnectInStep(s: Socket, g: Segment, stream: Bytes)
    requires s.state.SynSent? && s.buf == [] && g.syn && g.acks && g.ack == s.sndNxt
    ensures InStep(AfterSegment(s, g), stream, g.number, []) && AfterSegment(s, g).state.Established?
  {
  }

  // ---- runs ------------------------------------------------------------------

  datatype Event = Arrives(segment: Segment) | Reads(max: nat)

  function Step(s: Socket, e: Event): Socket
    requires |s.buf| <= BUF_SIZE
  {
    match e case Arrives(g) => AfterSegment(s, g) case Reads(max) => AfterRecv(s, max)
  }

  lemma StepSize(s: Socket, e: Event)
    requires |s.buf| <= BUF_SIZE
    ensures |Step(s, e).buf| <= BUF_SIZE
  {
    match e
    case Arrives(g) => if Open(s.state) { RestKeeps(s, g); }
    case Reads(_) =>
  }

  function Run(s: Socket, es: seq<Event>): (s': Socket)
    requires |s.buf| <= BUF_SIZE
    ensures |s'.buf| <= BUF_SIZE
    decreases es
  {
    if es == [] then s else StepSize(s, es[0]); Run(Step(s, es[0]), es[1..])
  }

  /** What the reader got over a run. */
  function Output(s: Socket, es: seq<Event>): Bytes
    requires |s.buf| <= BUF_SIZE
    decreases es
  {
    if es == [] then []
    else
      StepSize(s, es[0]);
      (if es[0].Reads? then Received(s, es[0].max) else []) + Output(Step(s, es[0]), es[1..])
  }

  /** Any arrivals of pieces of one stream, mixed with any reads: what the reader got, then
      the buffer, is the stream up to the byte the socket expects next. */
  lemma {:induction false} StreamPrefix(s: Socket, es: seq<Event>, stream: Bytes, irs: nat, done: Bytes)
    requires InStep(s, stream, irs, done) && !s.state.SynSent? && |stream| < SPAN
    requires forall i :: 0 <= i < |es| && es[i].Arrives? ==> PieceOf(stream, irs, es[i].segment)
    ensures InStep(Run(s, es), stream, irs, done + Output(s, es))
    decreases es
  {
    hide InStep, PieceOf, AfterSegment;
    if es == [] {
      assert done + [] == done;
    } else {
      var e, rest := es[0], es[1..];
      StepSizeFrom(s, stream, irs, done);
      StepSize(s, e);
      match e
      case Arrives(g) =>
        SegmentInStep(s, stream, irs, done, g);
        StreamPrefix(Step(s, e), rest, stream, irs, done);
        assert [] + Output(Step(s, e), rest) == Output(Step(s, e), rest);
      case Reads(max) =>
        RecvInStep(s, stream, irs, done, max);
        StreamPrefix(Step(s, e), rest, stream, irs, done + Received(s, max));
        assert done + Received(s, max) + Output(Step(s, e), rest) == done + (Received(s, max) + Output(Step(s, e), rest));
    }
  }

  lemma StepSizeFrom(s: Socket, stream: Bytes, irs: nat, done: Bytes)
    requires InStep(s, stream, irs, done)
    ensures |s.buf| <= BUF_SIZE
  {
  }

  // ---- FIN -------------------------------------------------------------------

  /** A FIN moves the expected number on by one whether or not it is in order. The FIN stands behind
      the `end` bytes that end with its own payload; the socket then is where RFC 9293, section
      3.10.7.4, puts it if and only if it has all of them by then: it had them before, or the payload
      is the next one and fits the buffer. */
  lemma FinInOrder(s: Socket, stream: Bytes, irs: nat, done: Bytes, g: Segment, off: nat)
    requires InStep(s, stream, irs, done) && Open(s.state) && |stream| < SPAN - 1
    requires g.fin && IsPiece(stream, irs, g, off)
    ensures var n, end := |done| + |s.buf|, off + |g.payload|;
            var taken := n + Room(s, g);
            && (AfterSegment(s, g).rcvNxt == SeqOf(irs, if taken == end then end + 1 else taken) <==> taken == end)
            && (taken == end <==> n == end || (n == off && |g.payload| <= BUF_SIZE - |s.buf|))
  {
    hide SeqOf, InStep, IsPiece, Room;
    var n := |done| + |s.buf|;
    RoomIs(s, stream, irs, done, g, off);
    FinMoves(s, g);
    TakenNumber(s, g);
    SeqOfNext(irs, n, Room(s, g));
    SeqOfNext(irs, n + Room(s, g), 1);
    SeqOfNext(irs, n, 0);
    if SeqOf(irs, n + Room(s, g) + 1) == SeqOf(irs, n + Room(s, g)) { SeqOfDiffers(irs, n + Room(s, g), n + Room(s, g) + 1); }
  }

  lemma FinMoves(s: Socket, g: Segment)
    requires |s.buf| <= BUF_SIZE && Open(s.state) && g.fin
    ensures AfterSegment(s, g).rcvNxt == (Taken(s, g).rcvNxt + 1) % SPAN
  {
  }

  lemma TakenNumber(s: Socket, g: Segment)
    requires |s.buf| <= BUF_SIZE
    ensures Room(s, g) > 0 ==> Taken(s, g).rcvNxt == (s.rcvNxt + Room(s, g)) % SPAN
    ensures Room(s, g) == 0 ==> Taken(s, g).rcvNxt == s.rcvNxt
  {
  }

  /** How much of a piece of the stream is taken. */
  lemma RoomIs(s: Socket, stream: Bytes, irs: nat, done: Bytes, g: Segment, off: nat)
    requires InStep(s, stream, irs, done) && |stream| < SPAN - 1 && IsPiece(stream, irs, g, off)
    ensures |s.buf| <= BUF_SIZE && s.rcvNxt == SeqOf(irs, |done| + |s.buf|) && |done| + |s.buf| + Room(s, g) <= |stream|
    ensures Room(s, g) == if off == |done| + |s.buf| then Min(|g.payload|, BUF_SIZE - |s.buf|) else 0
  {
    hide SeqOf;
    if SeqOf(irs, off) == SeqOf(irs, |done| + |s.buf|) { SeqOfDiffers(irs, off, |done| + |s.buf|); }
  }

  /** A FIN that overtakes the data makes the socket skip a byte: of the stream 1, 2 it then
      refuses the whole segment and takes 2 alone. */
  lemma FinSkipsByte()
    ensures var s := Socket(Established, 1, 1, 1, 0, false, 0, []);
            var s1 := AfterSegment(s, Segment(3, 0, false, false, true, 0, []));
            var s2 := AfterSegment(s1, Segment(1, 0, false, false, false, 0, [1, 2]));
            var s3 := AfterSegment(s2, Segment(2, 0, false, false, false, 0, [2]));
            s2.buf == [] && s3.buf == [2]
  {
  }

  /** A FIN behind a payload that a full buffer cuts off skips a byte too: the payload is refused when
      it is sent again. */
  lemma FinCutShort(full: Bytes, b: byte)
    requires |full| == BUF_SIZE
    ensures var s := Socket(Established, 1, 1, 4097, 0, false, 0, full);
            var s1 := AfterSegment(s, Segment(4097, 0, false, false, true, 0, [b]));
            var s2 := AfterRecv(s1, BUF_SIZE);
            var s3 := AfterSegment(s2, Segment(4097, 0, false, false, false, 0, [b]));
            s1.buf == full && s2.buf == [] && s3.buf == []
  {
  }

  // ---- the socket at work -----------------------------------------------------

  class TcpSocket {
    var state: SocketState
    var sndUna: nat
    var sndNxt: nat
    var rcvNxt: nat
    var irs: nat
    const recvBuf: array<byte>
    var recvLen: nat
    var remoteWindow: nat
    var pendingClose: bool

    ghost predicate Valid()
      reads this
    {
      recvBuf.Length == BUF_SIZE && recvLen <= BUF_SIZE
    }

    ghost function Now(): Socket
      requires Valid()
      reads this, recvBuf
    {
      Socket(state, sndUna, sndNxt, rcvNxt, irs, pendingClose, remoteWindow, recvBuf[..recvLen])
    }

    /** A socket as TcpConnect leaves it, waiting for SYN+ACK. */
    constructor (iss: nat)
      requires iss < SPAN
      ensures Valid() && fresh(recvBuf)
      ensures Now() == Socket(SynSent, iss, (iss + 1) % SPAN, 0, 0, false, BUF_SIZE, [])
    {
      state, sndUna, sndNxt, rcvNxt, irs := SynSent, iss, (iss + 1) % SPAN, 0, 0;
      recvBuf, recvLen, remoteWindow, pendingClose := new byte[BUF_SIZE], 0, BUF_SIZE, false;
    }

    /** TcpHandlePacket. `sent` are the ACK numbers of the segments it sends. */
    method HandlePacket(g: Segment) returns (sent: seq<nat>)
      requires Valid()
      modifies this, recvBuf
      ensures Valid() && Now() == AfterSegment(old(Now()), g)
      ensures sent == AckNumbers(old(Now()), g)
    {
      hide Taken, Closings, FinSeen, Acked;
      sent := [];
      remoteWindow := g.window;
      if state.SynSent? {
        if g.syn && g.acks {
          if g.ack == sndNxt {
            rcvNxt, irs, sndUna := (g.number + 1) % SPAN, g.number, g.ack;
            sent := [rcvNxt];
            state := Established;
          }
        }
        return;
      }
      if state.Established? || state.FinWait1? || state.FinWait2? || state.CloseWait? {
        sent := TakeOpen(g);
      }
      if state.FinWait1? && g.acks {
        if g.ack >= sndNxt { state := FinWait2; }
      }
    }

    /** Data, ACK, FIN and closing in the open states. */
    method TakeOpen(g: Segment) returns (sent: seq<nat>)
      requires Valid()
      modifies `sndUna, `sndNxt, `rcvNxt, `recvLen, `state, recvBuf
      ensures Valid() && Now() == Closings(FinSeen(Acked(Taken(old(Now()), g), g), g), g)
      ensures sent == OpenAcks(old(Now()), g)
    {
      hide Taken, Closings;
      TakeData(g);
      if g.acks {
        if g.ack > sndUna && g.ack <= sndNxt { sndUna := g.ack; }
      }
      sent := [rcvNxt];
      var more := TakeFin(g);
      sent := sent + more;
      more := Finish(g);
      sent := sent + more;
    }

    /** The FIN part of TcpHandlePacket. */
    method TakeFin(g: Segment) returns (sent: seq<nat>)
      requires Valid()
      modifies `rcvNxt, `state
      ensures Valid() && Now() == FinSeen(old(Now()), g) && sent == if g.fin then [rcvNxt] else []
    {
      sent := [];
      if g.fin {
        rcvNxt := (rcvNxt + 1) % SPAN;
        sent := [rcvNxt];
        if state.Established? {
          state := CloseWait;
        } else if state.FinWait1? {
          if g.ack == sndNxt { state := TimeWait; } else { state := Closing; }
        } else if state.FinWait2? {
          state := TimeWait;
        }
      }
    }

    /** The closing part of TcpHandlePacket. */
    method Finish(g: Segment) returns (sent: seq<nat>)
      requires Valid()
      modifies `sndNxt, `state
      ensures Valid() && Now() == Closings(old(Now()), g)
      ensures sent == if old(state).CloseWait? && pendingClose then [rcvNxt] else []
    {
      sent := [];
      if state.CloseWait? && pendingClose {
        state := LastAck;
        sent := [rcvNxt];
        sndNxt := (sndNxt + 1) % SPAN;
      }
      if state.LastAck? && g.acks {
        if g.ack >= sndNxt { state := Closed; }
      }
      if state.Closing? && g.acks {
        if g.ack >= sndNxt { state := TimeWait; }
      }
    }

    /** Appends what fits of the next segment to the buffer. */
    method TakeData(g: Segment)
      requires Valid()
      modifies `rcvNxt, `recvLen, recvBuf
      ensures Valid() && Now() == Taken(old(Now()), g)
    {
      if |g.payload| > 0 && g.number == rcvNxt {
        var n := |g.payload|;
        var space := BUF_SIZE - recvLen;
        if n > space { n := space; }
        if n > 0 {
          forall i | 0 <= i < n { recvBuf[recvLen + i] := g.payload[i]; }
          assert recvBuf[..recvLen + n] == old(recvBuf[..recvLen]) + g.payload[..n];
          recvLen := recvLen + n;
          rcvNxt := (rcvNxt + n) % SPAN;
        }
      }
    }

    /** TcpRecv, when it finds bytes or does not wait for them: copies bytes out and moves
        the rest to the front. */
    method Recv(max: nat) returns (out: Bytes)
      requires Valid()
      modifies `recvLen, recvBuf
      ensures Valid() && Now() == AfterRecv(old(Now()), max) && out == Received(old(Now()), max)
    {
      out := [];
      if recvLen > 0 {
        var copy := max;
        if copy > recvLen { copy := recvLen; }
        out := recvBuf[..copy];
        if copy < recvLen {
          forall i | 0 <= i < recvLen - copy { recvBuf[i] := recvBuf[copy + i]; }
        }
        assert recvBuf[..recvLen - copy] == old(recvBuf[..recvLen])[copy..];
        recvLen := recvLen - copy;
      }
    }
  }

  /** The ACK numbers TcpHandlePacket sends for a segment. */
  function AckNumbers(s: Socket, g: Segment): seq<nat>
    requires |s.buf| <= BUF_SIZE
  {
    if s.state.SynSent? then (if g.syn && g.acks && g.ack == s.sndNxt then [(g.number + 1) % SPAN] else [])
    else if !Open(s.state) then []
    else OpenAcks(s.(window := g.window), g)
  }

  function OpenAcks(s: Socket, g: Segment): seq<nat>
    requires |s.buf| <= BUF_SIZE
  {
    var s1 := Acked(Taken(s, g), g);
    var s2 := FinSeen(s1, g);
    [s1.rcvNxt] + (if g.fin then [s2.rcvNxt] else []) + (if s2.state.CloseWait? && s2.pending then [s2.rcvNxt] else [])
  }

  /** Before any FIN, what a socket acknowledges is exactly what it has taken. */
  lemma AcksAreTrue(s: Socket, stream: Bytes, irs: nat, done: Bytes, g: Segment)
    requires InStep(s, stream, irs, done) && !s.state.SynSent? && PieceOf(stream, irs, g) && |stream| < SPAN
    ensures forall a :: a in AckNumbers(s, g) ==> a == SeqOf(irs, |done| + |AfterSegment(s, g).buf|)
  {
    SegmentInStep(s, stream, irs, done, g);
  }

  /** Every segment of an open connection is acknowledged, the last time with the number expected next;
      a FIN is acknowledged once more, one number on. */
  lemma AckedAtOnce(s: Socket, g: Segment)
    requires |s.buf| <= BUF_SIZE && Open(s.state) && s.rcvNxt < SPAN
    ensures var acks := AckNumbers(s, g);
            && acks != [] && acks[|acks| - 1] == AfterSegment(s, g).rcvNxt
            && acks[0] == (s.rcvNxt + |AfterSegment(s, g).buf| - |s.buf|) % SPAN
            && (g.fin ==> |acks| >= 2 && acks[1] == (acks[0] + 1) % SPAN)
  {
    RestKeeps(s, g);
    TakenBuf(s, g);
  }

  lemma TakenBuf(s: Socket, g: Segment)
    requires |s.buf| <= BUF_SIZE && s.rcvNxt < SPAN
    ensures Taken(s, g).rcvNxt == (s.rcvNxt + Room(s, g)) % SPAN && |Taken(s, g).buf| == |s.buf| + Room(s, g)
  {
  }

  /** What follows the data touches neither it nor, but for a FIN, the expected number. */
  lemma RestKeeps(s: Socket, g: Segment)
    requires |s.buf| <= BUF_SIZE && Open(s.state)
    ensures AfterSegment(s, g).buf == Taken(s, g).buf
    ensures AfterSegment(s, g).rcvNxt == if g.fin then (Taken(s, g).rcvNxt + 1) % SPAN else Taken(s, g).rcvNxt
  {
    hide Taken;
    WindowAside(s, g);
  }

  lemma WindowAside(s: Socket, g: Segment)
    requires |s.buf| <= BUF_SIZE
    ensures Taken(s.(window := g.window), g) == Taken(s, g).(window := g.window)
  {
  }

  /** The first acknowledgement of a piece of the stream is for all bytes the socket has then. */
  lemma PieceAcked(s: Socket, stream: Bytes, irs: nat, done: Bytes, g: Segment)
    requires InStep(s, stream, irs, done) && Open(s.state) && PieceOf(stream, irs, g) && |stream| < SPAN
    ensures AckNumbers(s, g) != [] && AckNumbers(s, g)[0] == SeqOf(irs, |done| + |AfterSegment(s, g).buf|)
  {
    hide AfterSegment, AckNumbers;
    NumberFits(s, stream, irs, done);
    AckedAtOnce(s, g);
    AcksAreTrue(s, stream, irs, done, g);
  }

  lemma NumberFits(s: Socket, stream: Bytes, irs: nat, done: Bytes)
    requires InStep(s, stream, irs, done)
    ensures s.rcvNxt < SPAN && |s.buf| <= BUF_SIZE
  {
  }

  /** The handshake is answered with the number of the first stream byte; a segment that does not
      complete it, and any segment for a closed connection, with nothing. */
  lemma ElseSilent(s: Socket, g: Segment)
    requires |s.buf| <= BUF_SIZE && !Open(s.state)
    ensures if s.state.SynSent? && AfterSegment(s, g).state.Established? then AckNumbers(s, g) == [SeqOf(g.number, 0)]
            else AckNumbers(s, g) == [] && AfterSegment(s, g) == s.(window := g.window)
    ensures s.state.SynSent? ==> (AfterSegment(s, g).state.Established? <==> g.syn && g.acks && g.ack == s.sndNxt)
  {
  }

  /** The segment that comes next is taken as far as the buffer has room; any other brings nothing. */
  lemma NextIsTaken(s: Socket, g: Segment)
    requires |s.buf| <= BUF_SIZE && Open(s.state)
    ensures if g.number != s.rcvNxt then AfterSegment(s, g).buf == s.buf
            else if |s.buf| + |g.payload| <= BUF_SIZE then AfterSegment(s, g).buf == s.buf + g.payload
            else |AfterSegment(s, g).buf| == BUF_SIZE && s.buf <= AfterSegment(s, g).buf <= s.buf + g.payload
    ensures AfterSegment(s, g).window == g.window
  {
    RestKeeps(s, g);
    assert g.payload[..|g.payload|] == g.payload;
  }

  /** A read gets the first bytes of the buffer, as many as asked for or there. */
  lemma ReadGets(s: Socket, max: nat)
    ensures Received(s, max) + AfterRecv(s, max).buf == s.buf
    ensures |Received(s, max)| == max || (|Received(s, max)| == |s.buf| && |s.buf| < max)
    ensures AfterRecv(s, max) == s.(buf := AfterRecv(s, max).buf)
  {
  }

  // ---- acknowledgements that come in, and closing --------------------------------------

  /** RFC 9293, section 3.4: the number acknowledges something sent and not yet acknowledged. */
  predicate Acceptable(una: nat, nxt: nat, ack: nat) {
    0 < (ack - una) % SPAN <= (nxt - una) % SPAN
  }

  /** The driver takes an acceptable acknowledgement exactly as long as the numbers sent have not wrapped. */
  lemma AckTaken(s: Socket, g: Segment)
    requires |s.buf| <= BUF_SIZE && Open(s.state) && g.acks && s.sndUna < SPAN && s.sndNxt < SPAN && g.ack < SPAN
    ensures AfterSegment(s, g).sndUna == if Acceptable(s.sndUna, s.sndNxt, g.ack) && s.sndUna <= s.sndNxt then g.ack else s.sndUna
  {
    Wrapped(s.sndUna, g.ack);
    Wrapped(s.sndUna, s.sndNxt);
  }

  lemma Wrapped(a: nat, b: nat)
    requires a < SPAN && b < SPAN
    ensures (b - a) % SPAN == if a <= b then b - a else SPAN + b - a
  {
  }

  /** The peer has sent its FIN. */
  predicate PeerDone(st: SocketState) { st.CloseWait? || st.LastAck? || st.Closing? || st.TimeWait? || st.Closed? }

  /** Our FIN is out, and whether it has been acknowledged. */
  predicate FinOut(st: SocketState) { st.FinWait1? || st.Closing? || st.LastAck? || FinDone(st) }
  predicate FinDone(st: SocketState) { st.FinWait2? || st.TimeWait? || st.Closed? }

  /** The two directions close independently: ours when our FIN is acknowledged, the peer's with its FIN. A
      socket whose close waits for the peer sends its FIN as soon as the peer has sent one. */
  lemma HalvesClose(s: Socket, g: Segment)
    requires |s.buf| <= BUF_SIZE && Open(s.state)
    ensures var s' := AfterSegment(s, g);
            && (PeerDone(s'.state) <==> PeerDone(s.state) || g.fin)
            && (FinOut(s'.state) <==> FinOut(s.state) || (s.pending && PeerDone(s'.state)))
            && (FinDone(s'.state) <==>
                  FinDone(s.state) || (FinOut(s'.state) && g.acks && g.ack >= s'.sndNxt) || (s.state.FinWait1? && g.fin && g.ack == s.sndNxt))
            && s'.sndNxt == if !FinOut(s.state) && FinOut(s'.state) then (s.sndNxt + 1) % SPAN else s.sndNxt
  {
    hide Taken;
    WindowAside(s, g);
    TakenOnlyData(s, g);
  }

  lemma TakenOnlyData(s: Socket, g: Segment)
    requires |s.buf| <= BUF_SIZE
    ensures Taken(s, g) == s.(buf := Taken(s, g).buf, rcvNxt := Taken(s, g).rcvNxt)
  {
  }
}
