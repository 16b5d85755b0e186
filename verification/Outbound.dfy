/** The tick thread's queue to the net thread, the net thread's drain loop, and why switching
    compression on through that queue never confuses a peer. */
module Outbound {
  import opened Bytes
  import opened Framing
  import opened Delivery

  /** MsgOut. */
  datatype Msg = Send(conn: nat, p: Packet) | EnableCompression(conn: nat, threshold: int) | Close(conn: nat)

  // ---------------------------------------------------------------- the queue

  class Node<T> {
    const p: T
    var next: Node?<T>

    constructor (p: T)
      ensures this.p == p && next == null
    {
      this.p, this.next := p, null;
    }
  }

  /** minecpp_mqueue_t; each method is one section under its mutex. */
  class MQueue<T> {
    var head: Node?<T>
    var tail: Node?<T>
    var size: nat
    ghost var nodes: seq<Node<T>>

    ghost predicate Valid()
      reads this, nodes
    {
      && size == |nodes|
      && head == (if |nodes| == 0 then null else nodes[0])
      && tail == (if |nodes| == 0 then null else nodes[|nodes| - 1])
      && (forall i | 0 <= i < |nodes| - 1 :: nodes[i].next == nodes[i + 1])
      && (|nodes| > 0 ==> nodes[|nodes| - 1].next == null)
      && (forall i, j | 0 <= i < j < |nodes| :: nodes[i] != nodes[j])
    }

    ghost function Contents(): (s: seq<T>)
      reads this
      ensures |s| == |nodes| && forall i | 0 <= i < |nodes| :: s[i] == nodes[i].p
    {
      seq(|nodes|, i requires 0 <= i < |nodes| reads this => nodes[i].p)
    }

    constructor ()
      ensures Valid() && Contents() == []
    {
      head, tail, size, nodes := null, null, 0, [];
    }

    /** minecpp_mqueue_push. */
    method Push(p: T)
      requires Valid()
      modifies this, nodes
      ensures Valid() && Contents() == old(Contents()) + [p]
      ensures exists n :: fresh(n) && nodes == old(nodes) + [n]
    {
      var n := new Node(p);
      if tail != null {
        tail.next := n;
      } else {
        head := n;
      }
      tail := n;
      size := size + 1;
      nodes := nodes + [n];
    }

    /** pop_locked. */
    method Pop() returns (p: Option<T>)
      requires Valid()
      modifies this
      ensures Valid()
      ensures if |old(Contents())| == 0 then p == None && Contents() == []
              else p == Some(old(Contents())[0]) && Contents() == old(Contents())[1..]
      ensures nodes == if |old(nodes)| == 0 then [] else old(nodes)[1..]
    {
      var n := head;
      if n == null { return None; }
      head := n.next;
      nodes := nodes[1..];
      if head == null { tail := null; }
      size := size - 1;
      p := Some(n.p);
    }
  }

  // ---------------------------------------------------------------- the net thread's state

  /** One connection: the channel's send side, as everything queued so far and how much of it is out. */
  datatype Line = Line(comp: int, queued: bytes, out: nat, closing: bool)

  /** The open connections, and every byte the sockets ever took, closed connections included. */
  datatype Net = Net(lines: map<nat, Line>, wire: map<nat, bytes>)

  function Wire(net: Net, c: nat): bytes {
    if c in net.wire then net.wire[c] else []
  }

  /** What the socket does when the channel is flushed: takes up to n bytes, and then blocks or fails. */
  datatype Flush = Flush(n: nat, failed: bool)

  /** One thing the net thread does: a queued message, a writable socket, or losing a connection. */
  datatype Event = Queued(m: Msg, f: Flush) | Writable(conn: nat, f: Flush) | Lost(conn: nat)

  function Erase(net: Net, c: nat): Net {
    net.(lines := net.lines - {c})
  }

  /** The socket takes up to n of the pending bytes. */
  function Flushed(net: Net, c: nat, n: nat): Net
    requires c in net.lines && net.lines[c].out <= |net.lines[c].queued|
  {
    var l := net.lines[c];
    var upTo := if l.out + n > |l.queued| then |l.queued| else l.out + n;
    Net(net.lines[c := l.(out := upTo)], net.wire[c := Wire(net, c) + l.queued[l.out..upTo]])
  }

  /** The flush returns an error: the socket fails with bytes still pending. */
  predicate Fails(net: Net, c: nat, f: Flush)
    requires c in net.lines
  {
    f.failed && net.lines[c].out + f.n < |net.lines[c].queued|
  }

  predicate Valid(net: Net) {
    forall c | c in net.lines :: net.lines[c].out <= |net.lines[c].queued|
  }

  /** The drain loop's treatment of one message. */
  function Dispatch(z: Codec, net: Net, m: Msg, f: Flush): (r: Net)
    requires Valid(net)
    ensures Valid(r)
  {
    var c := m.conn;
    if c !in net.lines then net else
    var l := net.lines[c];
    match m
    case Send(_, p) =>
      var frame := Frame(z, l.comp, p);
      if |Body(p)| > WRITER_LIMIT || |l.queued| - l.out + |frame| > BUF_CAP then Erase(net, c)
      else
        var sent := net.(lines := net.lines[c := l.(queued := l.queued + frame)]);
        if Fails(sent, c, f) then Erase(Flushed(sent, c, f.n), c) else Flushed(sent, c, f.n)
    case EnableCompression(_, threshold) => net.(lines := net.lines[c := l.(comp := threshold)])
    case Close(_) =>
      var marked := net.(lines := net.lines[c := l.(closing := true)]);
      var done := Flushed(marked, c, f.n);
      if done.lines[c].out == |l.queued| then Erase(done, c) else done
  }

  function Handle(z: Codec, net: Net, e: Event): (r: Net)
    requires Valid(net)
    ensures Valid(r)
  {
    match e
    case Queued(m, f) => Dispatch(z, net, m, f)
    case Lost(c) => Erase(net, c)
    case Writable(c, f) =>
      if c !in net.lines then net
      else
        var done := Flushed(net, c, f.n);
        if Fails(net, c, f) || (done.lines[c].out == |net.lines[c].queued| && net.lines[c].closing) then Erase(done, c)
        else done
  }

  function HandleAll(z: Codec, net: Net, es: seq<Event>): (r: Net)
    requires Valid(net)
    ensures Valid(r)
    decreases |es|
  {
    if |es| == 0 then net else HandleAll(z, Handle(z, net, es[0]), es[1..])
  }

  /** The messages for connection c, in queue order. */
  function MessagesFor(es: seq<Event>, c: nat): seq<Msg>
    decreases |es|
  {
    if |es| == 0 then []
    else (if es[0].Queued? && es[0].m.conn == c then [es[0].m] else []) + MessagesFor(es[1..], c)
  }

  /** The bytes a connection's messages put on the line, the mode changing where the queue says. */
  function Stream(z: Codec, comp: int, ms: seq<Msg>): bytes
    decreases |ms|
  {
    if |ms| == 0 then [] else
    match ms[0]
    case Send(_, p) => Frame(z, comp, p) + Stream(z, comp, ms[1..])
    case EnableCompression(_, t) => Stream(z, t, ms[1..])
    case Close(_) => Stream(z, comp, ms[1..])
  }

  /** The wire carries what was queued, as far as it is out. */
  predicate InStep(net: Net, c: nat) {
    c in net.lines ==>
      net.lines[c].out <= |net.lines[c].queued| && Wire(net, c) == net.lines[c].queued[..net.lines[c].out]
  }

  /** Connection c, open or closed: the wire so far, continued by `later`, stays within `total`. */
  predicate OnCourse(z: Codec, net: Net, c: nat, later: seq<Msg>, total: bytes) {
    && InStep(net, c)
    && Wire(net, c) <= total
    && (c in net.lines ==> net.lines[c].queued + Stream(z, net.lines[c].comp, later) == total)
  }

  lemma FlushKeepsStep(net: Net, c: nat, n: nat)
    requires c in net.lines && InStep(net, c)
    ensures var r := Flushed(net, c, n); InStep(r, c) && Wire(r, c) <= net.lines[c].queued
  {
    var l := net.lines[c];
    var upTo := if l.out + n > |l.queued| then |l.queued| else l.out + n;
    assert l.queued[..l.out] + l.queued[l.out..upTo] == l.queued[..upTo];
  }

  /** The same with the bytes still to come given outright. */
  predicate OnLine(net: Net, c: nat, tail: bytes, total: bytes) {
    InStep(net, c) && Wire(net, c) <= total && (c in net.lines ==> net.lines[c].queued + tail == total)
  }

  lemma FlushKeepsLine(net: Net, c: nat, n: nat, tail: bytes, total: bytes)
    requires Valid(net) && c in net.lines && OnLine(net, c, tail, total)
    ensures OnLine(Flushed(net, c, n), c, tail, total)
  {
    hide Flushed, Wire;
    FlushKeepsStep(net, c, n);
    FlushedLine(net, c, n);
  }

  lemma FlushedLine(net: Net, c: nat, n: nat)
    requires Valid(net) && c in net.lines
    ensures var r := Flushed(net, c, n);
      c in r.lines && r.lines[c].queued == net.lines[c].queued && r.lines[c].comp == net.lines[c].comp
  {
  }

  /** A line with more queued, another mode or a mark. */
  lemma RequeueKeepsLine(net: Net, c: nat, l: Line, more: bytes, tail: bytes, total: bytes)
    requires Valid(net) && c in net.lines && OnLine(net, c, more + tail, total)
    requires l.queued == net.lines[c].queued + more && l.out == net.lines[c].out
    ensures var r := net.(lines := net.lines[c := l]); Valid(r) && OnLine(r, c, tail, total)
  {
    assert l.queued[..l.out] == net.lines[c].queued[..l.out];
    assert net.lines[c].queued + (more + tail) == l.queued + tail;
  }

  lemma DispatchKeepsCourse(z: Codec, net: Net, m: Msg, f: Flush, more: seq<Msg>, total: bytes)
    requires Valid(net) && OnCourse(z, net, m.conn, [m] + more, total)
    ensures OnCourse(z, Dispatch(z, net, m, f), m.conn, more, total)
  {
    hide Frame, Flushed, InStep, Wire, Stream, Valid, Erase, OnLine;
    var c := m.conn;
    if c in net.lines {
      var l := net.lines[c];
      StreamOfOne(z, l.comp, m, more);
      CourseIsLine(z, net, c, [m] + more, total);
      match m
      case Send(_, p) =>
        var frame := Frame(z, l.comp, p);
        var tail := Stream(z, l.comp, more);
        EraseKeepsCourse(z, net, c, frame + tail, more, total);
        var next := l.(queued := l.queued + frame);
        var sent := net.(lines := net.lines[c := next]);
        RequeueKeepsLine(net, c, next, frame, tail, total);
        FlushKeepsLine(sent, c, f.n, tail, total);
        FlushedLine(sent, c, f.n);
        CourseIsLine(z, Flushed(sent, c, f.n), c, more, total);
        EraseKeepsCourse(z, Flushed(sent, c, f.n), c, tail, more, total);
      case EnableCompression(_, t) =>
        var next := net.(lines := net.lines[c := l.(comp := t)]);
        var tail := Stream(z, t, more);
        assert [] + tail == tail && l.queued + [] == l.queued;
        RequeueKeepsLine(net, c, l.(comp := t), [], tail, total);
        CourseIsLine(z, next, c, more, total);
      case Close(_) =>
        var marked := net.(lines := net.lines[c := l.(closing := true)]);
        var tail := Stream(z, l.comp, more);
        assert [] + tail == tail && l.queued + [] == l.queued;
        RequeueKeepsLine(net, c, l.(closing := true), [], tail, total);
        FlushKeepsLine(marked, c, f.n, tail, total);
        FlushedLine(marked, c, f.n);
        CourseIsLine(z, Flushed(marked, c, f.n), c, more, total);
        EraseKeepsCourse(z, Flushed(marked, c, f.n), c, tail, more, total);
    }
  }

  lemma StreamOfOne(z: Codec, comp: int, m: Msg, more: seq<Msg>)
    ensures m.Send? ==> Stream(z, comp, [m] + more) == Frame(z, comp, m.p) + Stream(z, comp, more)
    ensures m.EnableCompression? ==> Stream(z, comp, [m] + more) == Stream(z, m.threshold, more)
    ensures m.Close? ==> Stream(z, comp, [m] + more) == Stream(z, comp, more)
  {
    hide Frame;
    assert ([m] + more)[1..] == more;
  }

  lemma CourseIsLine(z: Codec, net: Net, c: nat, later: seq<Msg>, total: bytes)
    requires c in net.lines
    ensures OnCourse(z, net, c, later, total) <==> OnLine(net, c, Stream(z, net.lines[c].comp, later), total)
  {
    hide Stream, InStep, Wire;
  }

  lemma EraseKeepsCourse(z: Codec, net: Net, c: nat, tail: bytes, later: seq<Msg>, total: bytes)
    requires OnLine(net, c, tail, total)
    ensures OnCourse(z, Erase(net, c), c, later, total)
  {
    hide Stream;
  }

  /** Nothing changed for connection c. */
  predicate SameLine(net: Net, r: Net, c: nat) {
    (c in net.lines <==> c in r.lines) && (c in net.lines ==> r.lines[c] == net.lines[c]) && Wire(r, c) == Wire(net, c)
  }

  lemma DispatchElsewhere(z: Codec, net: Net, m: Msg, f: Flush, c: nat)
    requires Valid(net) && m.conn != c
    ensures SameLine(net, Dispatch(z, net, m, f), c)
  {
    hide Frame, Body;
  }

  lemma SameLineSameCourse(z: Codec, net: Net, r: Net, c: nat, later: seq<Msg>, total: bytes)
    requires SameLine(net, r, c) && OnCourse(z, net, c, later, total)
    ensures OnCourse(z, r, c, later, total)
  {
    hide Stream;
  }

  lemma WritableKeepsCourse(z: Codec, net: Net, e: Event, c: nat, later: seq<Msg>, total: bytes)
    requires Valid(net) && !e.Queued? && OnCourse(z, net, c, later, total)
    ensures OnCourse(z, Handle(z, net, e), c, later, total)
  {
    hide Stream, Dispatch, InStep, Wire, OnLine, OnCourse;
    if e.conn == c && c in net.lines {
      var tail := Stream(z, net.lines[c].comp, later);
      CourseIsLine(z, net, c, later, total);
      EraseKeepsCourse(z, net, c, tail, later, total);
      if e.Writable? {
        FlushKeepsLine(net, c, e.f.n, tail, total);
        FlushedLine(net, c, e.f.n);
        CourseIsLine(z, Flushed(net, c, e.f.n), c, later, total);
        EraseKeepsCourse(z, Flushed(net, c, e.f.n), c, tail, later, total);
      }
    } else {
      LostElsewhere(z, net, e, c);
      SameLineSameCourse(z, net, Handle(z, net, e), c, later, total);
    }
  }

  lemma LostElsewhere(z: Codec, net: Net, e: Event, c: nat)
    requires Valid(net) && !e.Queued? && (e.conn != c || c !in net.lines)
    ensures SameLine(net, Handle(z, net, e), c)
  {
  }

  lemma HandleKeepsCourse(z: Codec, net: Net, e: Event, c: nat, more: seq<Msg>, total: bytes)
    requires Valid(net) && OnCourse(z, net, c, MessagesFor([e], c) + more, total)
    ensures OnCourse(z, Handle(z, net, e), c, more, total)
  {
    hide Frame, Stream, Dispatch, OnCourse, SameLine, Flushed;
    assert MessagesFor([e], c) == (if e.Queued? && e.m.conn == c then [e.m] else []) by {
      assert MessagesFor([e][1..], c) == [];
    }
    if e.Queued? && e.m.conn == c {
      DispatchKeepsCourse(z, net, e.m, e.f, more, total);
    } else {
      assert MessagesFor([e], c) + more == more;
      if e.Queued? {
        DispatchElsewhere(z, net, e.m, e.f, c);
        SameLineSameCourse(z, net, Handle(z, net, e), c, more, total);
      } else {
        WritableKeepsCourse(z, net, e, c, more, total);
      }
    }
  }

  /** Whatever the sockets do and however the connections' messages interleave, the bytes a connection's
      socket takes are a prefix of its own messages' stream; while the connection lives, everything its
      messages said is queued. */
  lemma {:induction false} WireFollowsQueue(z: Codec, net: Net, es: seq<Event>, c: nat, total: bytes)
    requires Valid(net) && OnCourse(z, net, c, MessagesFor(es, c), total)
    ensures OnCourse(z, HandleAll(z, net, es), c, [], total)
    decreases |es|
  {
    hide Handle, Stream;
    if |es| > 0 {
      assert MessagesFor(es, c) == MessagesFor([es[0]], c) + MessagesFor(es[1..], c) by {
        assert MessagesFor([es[0]][1..], c) == [];
      }
      HandleKeepsCourse(z, net, es[0], c, MessagesFor(es[1..], c), total);
      WireFollowsQueue(z, Handle(z, net, es[0]), es[1..], c, total);
    }
  }

  // ---------------------------------------------------------------- login

  /** What HandleLogin enqueues for an accepted player. */
  function LoginMessages(c: nat, threshold: int, success: Packet): seq<Msg> {
    (if threshold >= 0 then [Send(c, SetCompressionPacket(threshold)), EnableCompression(c, threshold)] else [])
    + [Send(c, success)]
  }

  function SetCompressionPacket(threshold: int): Packet {
    Packet(SET_COMPRESSION, VarInt(threshold % 0x1_0000_0000))
  }

  /** The compression part of HandleLogin, on the queue. */
  method EnqueueLogin(q: MQueue<Msg>, c: nat, threshold: int, success: Packet)
    requires q.Valid()
    modifies q, q.nodes
    ensures q.Valid() && q.Contents() == old(q.Contents()) + LoginMessages(c, threshold, success)
  {
    if threshold >= 0 {
      q.Push(Send(c, SetCompressionPacket(threshold)));
      q.Push(EnableCompression(c, threshold));
    }
    q.Push(Send(c, success));
  }

  /** The net thread's drain loop: pops until the queue is empty; flushes.[i] is what the socket does
      on the i-th flush. */
  method DrainQueue(z: Codec, net: Net, q: MQueue<Msg>, flushes: nat -> Flush) returns (r: Net, ghost es: seq<Event>)
    requires q.Valid() && Valid(net)
    modifies q
    ensures q.Valid() && q.Contents() == []
    ensures |es| == |old(q.Contents())|
    ensures forall i | 0 <= i < |es| :: es[i] == Queued(old(q.Contents())[i], flushes(i))
    ensures Valid(r) && r == HandleAll(z, net, es)
  {
    hide Dispatch, HandleAll, Handle, Valid;
    r, es := net, [];
    HandleNothing(z, net);
    ghost var ms := q.Contents();
    var i := 0;
    while true
      invariant q.Valid() && Valid(r) && i == |es| <= |ms| && q.Contents() == ms[i..]
      invariant forall k | 0 <= k < i :: es[k] == Queued(ms[k], flushes(k))
      invariant r == HandleAll(z, net, es)
      decreases |ms| - i
    {
      var m := q.Pop();
      if m.None? { break; }
      HandleOneMore(z, net, es, Queued(m.value, flushes(i)));
      HandleQueued(z, r, m.value, flushes(i));
      r := Dispatch(z, r, m.value, flushes(i));
      es := es + [Queued(m.value, flushes(i))];
      i := i + 1;
    }
  }

  lemma HandleQueued(z: Codec, net: Net, m: Msg, f: Flush)
    requires Valid(net)
    ensures Handle(z, net, Queued(m, f)) == Dispatch(z, net, m, f)
  {
  }

  lemma HandleNothing(z: Codec, net: Net)
    requires Valid(net)
    ensures HandleAll(z, net, []) == net
  {
  }

  lemma {:induction false} HandleOneMore(z: Codec, net: Net, es: seq<Event>, e: Event)
    requires Valid(net)
    ensures HandleAll(z, net, es + [e]) == Handle(z, HandleAll(z, net, es), e)
    decreases |es|
  {
    hide Handle;
    if |es| == 0 {
      assert es + [e] == [e];
      assert HandleAll(z, Handle(z, net, e), [e][1..]) == Handle(z, net, e);
    } else {
      assert (es + [e])[1..] == es[1..] + [e];
      HandleOneMore(z, Handle(z, net, es[0]), es[1..], e);
    }
  }

  /** Later traffic: packets, and perhaps a close, but no second switch. */
  predicate NoSwitch(ms: seq<Msg>) {
    forall m | m in ms :: !m.EnableCompression?
  }

  function PacketsOf(ms: seq<Msg>): seq<Packet>
    decreases |ms|
  {
    if |ms| == 0 then [] else (if ms[0].Send? then [ms[0].p] else []) + PacketsOf(ms[1..])
  }

  lemma {:induction false} PlainStream(z: Codec, comp: int, ms: seq<Msg>)
    requires NoSwitch(ms)
    ensures Stream(z, comp, ms) == Frames(z, Fixed(comp), PacketsOf(ms))
    decreases |ms|
  {
    hide Frame;
    if |ms| > 0 {
      assert ms[0] in ms && forall m | m in ms[1..] :: m in ms;
      PlainStream(z, comp, ms[1..]);
      if ms[0].Send? {
        assert PacketsOf(ms)[0] == ms[0].p && PacketsOf(ms)[1..] == PacketsOf(ms[1..]);
      } else {
        assert PacketsOf(ms) == PacketsOf(ms[1..]);
      }
    }
  }

  /** The packets of a session, login first. */
  function SessionPackets(threshold: int, success: Packet, later: seq<Msg>): seq<Packet> {
    (if threshold >= 0 then [SetCompressionPacket(threshold)] else []) + ([success] + PacketsOf(later))
  }

  /** LoginSuccess and all later traffic stay in the mode they start in. */
  lemma PlayStream(z: Codec, c: nat, comp: int, success: Packet, later: seq<Msg>)
    requires success.id == LOGIN_SUCCESS && NoSwitch(later)
    ensures Stream(z, comp, [Send(c, success)] + later)
         == Frames(z, LoggingIn(comp), [success] + PacketsOf(later))
  {
    hide Frame, Frames, PacketsOf;
    assert ([Send(c, success)] + later)[1..] == later;
    assert ([success] + PacketsOf(later))[1..] == PacketsOf(later);
    PlainStream(z, comp, later);
    FramesStep(z, LoggingIn(comp), success, PacketsOf(later));
  }

  lemma FramesStep(z: Codec, peer: Peer, p: Packet, ps: seq<Packet>)
    ensures Frames(z, peer, [p] + ps) == Frame(z, peer.comp, p) + Frames(z, After(peer, p), ps)
  {
    hide Frame, After;
    assert ([p] + ps)[1..] == ps;
  }

  lemma SwitchStream(z: Codec, c: nat, comp: int, first: Packet, threshold: int, ms: seq<Msg>)
    ensures Stream(z, comp, [Send(c, first), EnableCompression(c, threshold)] + ms)
         == Frame(z, comp, first) + Stream(z, threshold, ms)
  {
    hide Frame;
    var all := [Send(c, first), EnableCompression(c, threshold)] + ms;
    assert all[1..][1..] == ms;
  }

  lemma SetCompressionIsObeyed(threshold: int)
    requires 0 <= threshold < U31
    ensures After(LoggingIn(-1), SetCompressionPacket(threshold)) == LoggingIn(threshold)
  {
    hide Peek, VarInt;
    PeekReadsBack(threshold, []);
    assert VarInt(threshold) + [] == VarInt(threshold);
  }

  /** Each packet of a session is framed in exactly the mode its receiver is in when it gets to it. */
  lemma SessionStream(z: Codec, c: nat, threshold: int, success: Packet, later: seq<Msg>)
    requires threshold < U31 && success.id == LOGIN_SUCCESS && NoSwitch(later)
    ensures Stream(z, -1, LoginMessages(c, threshold, success) + later)
         == Frames(z, LoggingIn(-1), SessionPackets(threshold, success, later))
  {
    hide Frame, Stream, Frames, SetCompressionPacket, PacketsOf, After;
    var tail := [Send(c, success)] + later;
    var ps := [success] + PacketsOf(later);
    if threshold >= 0 {
      var first := SetCompressionPacket(threshold);
      PlayStream(z, c, threshold, success, later);
      SwitchStream(z, c, -1, first, threshold, tail);
      SetCompressionIsObeyed(threshold);
      FramesStep(z, LoggingIn(-1), first, ps);
      assert LoginMessages(c, threshold, success) + later == [Send(c, first), EnableCompression(c, threshold)] + tail;
    } else {
      PlayStream(z, c, -1, success, later);
      assert LoginMessages(c, threshold, success) + later == tail;
      assert SessionPackets(threshold, success, later) == ps;
    }
  }

  /** The switch is seamless. A connection opens uncompressed; login and everything after it go through
      the shared queue, mixed with any other connections' messages, flushed in any portions. A peer that
      changes mode right after decoding SetCompression decodes, from whatever arrived so far and however
      it was cut, a prefix of exactly the packets sent; and all of them once all bytes have arrived. */
  lemma SwitchIsSeamless(z: Codec, net: Net, es: seq<Event>, c: nat, threshold: int, success: Packet,
                         later: seq<Msg>, chunks: seq<bytes>) returns (k: nat)
    requires Lossless(z) && Valid(net)
    requires c in net.lines && net.lines[c] == Line(-1, [], 0, false) && Wire(net, c) == []
    requires threshold < U31 && success.id == LOGIN_SUCCESS && NoSwitch(later)
    requires MessagesFor(es, c) == LoginMessages(c, threshold, success) + later
    requires Deliverable(z, LoggingIn(-1), SessionPackets(threshold, success, later))
    requires Concat(chunks) <= Wire(HandleAll(z, net, es), c)
    ensures var ps := SessionPackets(threshold, success, later);
      var box := Receive(z, Inbox([], [], LoggingIn(-1), false), chunks);
      && k <= |ps| && !box.bad && box.got == ps[..k]
      && (Concat(chunks) == Frames(z, LoggingIn(-1), ps) ==> k == |ps|)
  {
    hide Stream, LoginMessages, Frames, Deliverable, Receive;
    var ps := SessionPackets(threshold, success, later);
    var total := Stream(z, -1, MessagesFor(es, c));
    SessionStream(z, c, threshold, success, later);
    assert [] + total == total;
    WireFollowsQueue(z, net, es, c, total);
    k := Delivered(z, LoggingIn(-1), ps, chunks);
  }
}
