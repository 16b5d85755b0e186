/** Which connections live and what their sockets get: every event of the net thread, and whole runs of them. */
module LineLife {
  import opened Bytes
  import opened Framing
  import opened Delivery
  import opened Outbound

  // ---------------------------------------------------------------- one event

  /** The bytes a connection still has to send. */
  function Pending(net: Net, c: nat): (r: bytes)
    requires Valid(net) && c in net.lines
    ensures |r| == |net.lines[c].queued| - net.lines[c].out
  {
    net.lines[c].queued[net.lines[c].out..]
  }

  /** A packet that cannot be queued: its body is above 2 GiB, or the buffer would hold more than 8 MiB. */
  predicate Overflows(z: Codec, net: Net, c: nat, p: Packet)
    requires Valid(net) && c in net.lines
  {
    |Body(p)| > 0x8000_0000 || |Pending(net, c)| + |Frame(z, net.lines[c].comp, p)| > 0x80_0000
  }

  /** Every connection but c has the line and the wire it had. */
  ghost predicate OthersAsWere(net: Net, r: Net, c: nat) {
    r.lines.Keys - {c} == net.lines.Keys - {c}
    && (forall a | a in net.lines && a != c :: a in r.lines && r.lines[a] == net.lines[a])
    && (forall a | a != c :: Wire(r, a) == Wire(net, a))
  }

  /** The connection an event is about. */
  function About(e: Event): nat {
    match e
    case Queued(m, _) => m.conn
    case Writable(c, _) => c
    case Lost(c) => c
  }

  /** A message for a connection that is gone does nothing. */
  lemma ToNobody(z: Codec, net: Net, e: Event)
    requires Valid(net) && About(e) !in net.lines
    ensures Handle(z, net, e) == net
  {
    var c := About(e);
    assert net.lines - {c} == net.lines;
  }

  lemma FlushedIs(net: Net, c: nat, n: nat)
    requires Valid(net) && c in net.lines
    ensures var r, l, k := Flushed(net, c, n), net.lines[c], Least(n, |Pending(net, c)|);
      && k >= 0 && Valid(r) && OthersAsWere(net, r, c) && c in r.lines
      && r.lines[c] == l.(out := l.out + k) && Wire(r, c) == Wire(net, c) + Pending(net, c)[..k]
  {
    var l := net.lines[c];
    var k := Least(n, |Pending(net, c)|);
    assert l.queued[l.out..l.out + k] == l.queued[l.out..][..k];
  }

  /** A packet is queued behind what is pending, and of all that the socket takes as much as it wants to. The line
      ends exactly if the packet overflows, or the socket fails before it has everything. */
  lemma SendEffect(z: Codec, net: Net, c: nat, p: Packet, f: Flush)
    requires Valid(net) && c in net.lines
    ensures var r, l := Handle(z, net, Queued(Send(c, p), f)), net.lines[c];
      var all := Pending(net, c) + Frame(z, l.comp, p);
      var k := Least(f.n, |all|);
      && OthersAsWere(net, r, c) && 0 <= k
      && (c in r.lines <==> !Overflows(z, net, c, p) && !(f.failed && f.n < |all|))
      && Wire(r, c) == Wire(net, c) + (if Overflows(z, net, c, p) then [] else all[..k])
      && (c in r.lines ==>
            r.lines[c] == Line(l.comp, l.queued + Frame(z, l.comp, p), l.out + k, l.closing)
            && Pending(r, c) == all[k..])
  {
    hide Frame, Body, Flushed, OthersAsWere, Wire;
    var l := net.lines[c];
    var frame := Frame(z, l.comp, p);
    var queued := l.(queued := l.queued + frame);
    var sent := net.(lines := net.lines[c := queued]);
    Relined(net, c, queued);
    FlushedIs(sent, c, f.n);
    StillAsWere(net, sent, Flushed(sent, c, f.n), c);
    StillAsWere(net, net, net, c);
    ErasedWire(net, c);
    ErasedWire(Flushed(sent, c, f.n), c);
    var all := Pending(net, c) + frame;
    assert Pending(sent, c) == all;
    Behind(l.queued + frame, l.out, Least(f.n, |all|));
  }

  lemma Behind(q: bytes, at: nat, k: nat)
    requires at + k <= |q|
    ensures q[at..][k..] == q[at + k..]
  {
  }

  lemma Relined(net: Net, c: nat, l: Line)
    ensures var r := net.(lines := net.lines[c := l]);
      OthersAsWere(net, r, c) && OthersAsWere(net, net, c) && Wire(r, c) == Wire(net, c)
  {
  }

  lemma ErasedWire(net: Net, c: nat)
    ensures Wire(Erase(net, c), c) == Wire(net, c)
  {
  }

  /** The switch changes the mode and nothing else. */
  lemma SwitchEffect(z: Codec, net: Net, c: nat, threshold: int, f: Flush)
    requires Valid(net) && c in net.lines
    ensures Handle(z, net, Queued(EnableCompression(c, threshold), f)) ==
      net.(lines := net.lines[c := net.lines[c].(comp := threshold)])
  {
  }

  /** Nothing but c's line may differ between m and net, and between r and m. */
  lemma StillAsWere(net: Net, m: Net, r: Net, c: nat)
    requires OthersAsWere(net, m, c) && OthersAsWere(m, r, c)
    ensures OthersAsWere(net, r, c) && OthersAsWere(net, Erase(r, c), c)
  {
    assert Erase(r, c).lines.Keys == r.lines.Keys - {c};
  }

  /** A close goes through exactly when the socket takes all that is pending; else it is remembered. */
  lemma CloseEffect(z: Codec, net: Net, c: nat, f: Flush)
    requires Valid(net) && c in net.lines
    ensures var r, l, k := Handle(z, net, Queued(Close(c), f)), net.lines[c], Least(f.n, |Pending(net, c)|);
      && OthersAsWere(net, r, c) && 0 <= k
      && (c in r.lines <==> f.n < |Pending(net, c)|)
      && Wire(r, c) == Wire(net, c) + Pending(net, c)[..k]
      && (c in r.lines ==>
            r.lines[c] == Line(l.comp, l.queued, l.out + k, true) && Pending(r, c) == Pending(net, c)[k..])
  {
    hide Flushed;
    var l := net.lines[c];
    var marked := net.(lines := net.lines[c := l.(closing := true)]);
    var done := Flushed(marked, c, f.n);
    FlushedIs(marked, c, f.n);
    assert OthersAsWere(net, marked, c);
    StillAsWere(net, marked, done, c);
    var k := Least(f.n, |Pending(net, c)|);
    assert l.queued[l.out + k..] == l.queued[l.out..][k..];
  }

  /** A writable socket takes as much as it wants to. The line ends exactly if it fails before it has everything, or a
      close was waiting for it to have everything. */
  lemma WritableEffect(z: Codec, net: Net, c: nat, f: Flush)
    requires Valid(net) && c in net.lines
    ensures var r, l, k := Handle(z, net, Writable(c, f)), net.lines[c], Least(f.n, |Pending(net, c)|);
      && OthersAsWere(net, r, c) && 0 <= k
      && (c in r.lines <==> if f.n < |Pending(net, c)| then !f.failed else !l.closing)
      && Wire(r, c) == Wire(net, c) + Pending(net, c)[..k]
      && (c in r.lines ==> r.lines[c] == l.(out := l.out + k) && Pending(r, c) == Pending(net, c)[k..])
  {
    hide Flushed;
    var l := net.lines[c];
    FlushedIs(net, c, f.n);
    var k := Least(f.n, |Pending(net, c)|);
    assert l.queued[l.out + k..] == l.queued[l.out..][k..];
  }

  lemma LostEffect(z: Codec, net: Net, c: nat)
    requires Valid(net)
    ensures var r := Handle(z, net, Lost(c));
      OthersAsWere(net, r, c) && c !in r.lines && Wire(r, c) == Wire(net, c)
  {
    assert Handle(z, net, Lost(c)).lines.Keys == net.lines.Keys - {c};
  }

  // ---------------------------------------------------------------- whole runs

  /** An event does not end connection c. */
  predicate Spares(z: Codec, net: Net, e: Event, c: nat)
    requires Valid(net) && c in net.lines
  {
    var n := |Pending(net, c)|;
    match e
    case Lost(a) => a != c
    case Writable(a, f) => a == c ==> if f.n < n then !f.failed else !net.lines[c].closing
    case Queued(m, f) =>
      m.conn == c ==>
        match m
        case Send(_, p) => !Overflows(z, net, c, p) && !(f.failed && f.n < n + |Frame(z, net.lines[c].comp, p)|)
        case EnableCompression(_, _) => true
        case Close(_) => f.n < n
  }

  predicate AllSpare(z: Codec, net: Net, es: seq<Event>, c: nat)
    requires Valid(net)
    decreases |es|
  {
    |es| > 0 ==> c in net.lines && Spares(z, net, es[0], c) && AllSpare(z, Handle(z, net, es[0]), es[1..], c)
  }

  lemma ElsewhereSame(z: Codec, net: Net, e: Event, c: nat)
    requires Valid(net) && About(e) != c
    ensures SameLine(net, Handle(z, net, e), c)
  {
    hide Frame, Body;
  }

  lemma OneEvent(z: Codec, net: Net, e: Event, c: nat)
    requires Valid(net) && c in net.lines
    ensures var r := Handle(z, net, e);
      && (c in r.lines <==> Spares(z, net, e, c))
      && (c in r.lines ==> r.lines[c].queued == net.lines[c].queued + Stream(z, net.lines[c].comp, MessagesFor([e], c)))
      && (c in r.lines ==> r.lines[c].comp == CompAfter(net.lines[c].comp, MessagesFor([e], c)))
  {
    hide Frame, Body, Flushed, Handle;
    var comp := net.lines[c].comp;
    assert MessagesFor([e], c) == (if e.Queued? && e.m.conn == c then [e.m] else []) by {
      assert MessagesFor([e][1..], c) == [];
    }
    if About(e) != c {
      ElsewhereSame(z, net, e, c);
    } else {
      match e
      case Lost(_) => LostEffect(z, net, c);
      case Writable(_, f) => WritableEffect(z, net, c, f);
      case Queued(m, f) =>
        StreamOfOne(z, comp, m, []);
        assert [m] + [] == [m];
        match m
        case Send(_, p) => SendEffect(z, net, c, p, f);
        case EnableCompression(_, t) => SwitchEffect(z, net, c, t, f);
        case Close(_) => CloseEffect(z, net, c, f);
    }
  }

  /** The mode after such messages. */
  function CompAfter(comp: int, ms: seq<Msg>): int
    decreases |ms|
  {
    if |ms| == 0 then comp
    else CompAfter(if ms[0].EnableCompression? then ms[0].threshold else comp, ms[1..])
  }

  lemma {:induction false} GoneForGood(z: Codec, net: Net, es: seq<Event>, c: nat)
    requires Valid(net) && c !in net.lines
    ensures c !in HandleAll(z, net, es).lines && Wire(HandleAll(z, net, es), c) == Wire(net, c)
    decreases |es|
  {
    hide Handle;
    if |es| > 0 {
      StaysGone(z, net, es[0], c);
      GoneForGood(z, Handle(z, net, es[0]), es[1..], c);
    }
  }

  lemma StaysGone(z: Codec, net: Net, e: Event, c: nat)
    requires Valid(net) && c !in net.lines
    ensures c !in Handle(z, net, e).lines && Wire(Handle(z, net, e), c) == Wire(net, c)
  {
    hide Handle;
    if About(e) == c {
      ToNobody(z, net, e);
    } else {
      ElsewhereSame(z, net, e, c);
    }
  }

  lemma {:induction false} StreamInTwo(z: Codec, comp: int, one: seq<Msg>, more: seq<Msg>)
    requires |one| <= 1
    ensures Stream(z, comp, one + more) == Stream(z, comp, one) + Stream(z, CompAfter(comp, one), more)
  {
    hide Frame;
    if |one| == 0 {
      assert one + more == more;
    } else {
      StreamOfOne(z, comp, one[0], more);
      StreamOfOne(z, comp, one[0], []);
      assert [one[0]] + more == one + more && [one[0]] + [] == one;
      assert one[1..] == [];
    }
  }

  /** After any run a connection is there if and only if every event spared it, and then its queue is the whole stream
      of its messages, framed in the modes they say. */
  lemma {:induction false} LivesWhileSpared(z: Codec, net: Net, es: seq<Event>, c: nat)
    requires Valid(net) && c in net.lines
    ensures var r := HandleAll(z, net, es);
      && (c in r.lines <==> AllSpare(z, net, es, c))
      && (c in r.lines ==>
            r.lines[c].queued == net.lines[c].queued + Stream(z, net.lines[c].comp, MessagesFor(es, c)))
    decreases |es|
  {
    hide Handle, Stream, Spares, CompAfter, MessagesFor;
    if |es| == 0 {
      assert MessagesFor(es, c) == [] by { MessagesFirst(es, c); }
      NoStream(z, net.lines[c].comp);
    } else {
      var next := Handle(z, net, es[0]);
      OneEvent(z, net, es[0], c);
      if c in next.lines {
        LivesWhileSpared(z, next, es[1..], c);
        var one, more := MessagesFor([es[0]], c), MessagesFor(es[1..], c);
        MessagesFirst(es, c);
        StreamInTwo(z, net.lines[c].comp, one, more);
      } else {
        GoneForGood(z, next, es[1..], c);
      }
    }
  }

  lemma MessagesFirst(es: seq<Event>, c: nat)
    ensures if |es| == 0 then MessagesFor(es, c) == []
      else |MessagesFor([es[0]], c)| <= 1 && MessagesFor(es, c) == MessagesFor([es[0]], c) + MessagesFor(es[1..], c)
  {
    if |es| > 0 {
      var none: seq<Event> := [];
      var one := if es[0].Queued? && es[0].m.conn == c then [es[0].m] else [];
      assert [es[0]][1..] == none;
      assert MessagesFor([es[0]], c) == one + MessagesFor(none, c) == one;
    }
  }

  lemma NoStream(z: Codec, comp: int)
    ensures Stream(z, comp, []) == []
  {
  }

  /** Once such a run is followed by a writable event whose socket takes all that is pending, the wire holds the whole
      stream of the connection's messages. */
  lemma WireHoldsAll(z: Codec, net: Net, es: seq<Event>, c: nat, f: Flush)
    requires Valid(net) && c in net.lines && InStep(net, c) && AllSpare(z, net, es, c)
    requires c in HandleAll(z, net, es).lines ==> f.n >= |Pending(HandleAll(z, net, es), c)|
    ensures Wire(HandleAll(z, net, es + [Writable(c, f)]), c) ==
      net.lines[c].queued + Stream(z, net.lines[c].comp, MessagesFor(es, c))
  {
    hide Stream, Handle, HandleAll, Spares, AllSpare;
    var r, total := HandleAll(z, net, es), net.lines[c].queued + Stream(z, net.lines[c].comp, MessagesFor(es, c));
    LivesWhileSpared(z, net, es, c);
    assert Wire(net, c) <= total;
    WireFollowsQueue(z, net, es, c, total);
    HandleOneMore(z, net, es, Writable(c, f));
    WritableEffect(z, r, c, f);
    var l := r.lines[c];
    assert Pending(r, c)[..|Pending(r, c)|] == l.queued[l.out..];
    assert l.queued[..l.out] + l.queued[l.out..] == l.queued;
  }

  /** So a session whose connection is spared, up to a writable event that empties the buffer, arrives whole: a peer
      that changes mode right after decoding SetCompression decodes all packets, however the bytes are cut. */
  lemma EverythingArrives(z: Codec, net: Net, es: seq<Event>, c: nat, threshold: int, success: Packet,
                          later: seq<Msg>, f: Flush, chunks: seq<bytes>)
    requires Lossless(z) && Valid(net)
    requires c in net.lines && net.lines[c] == Line(-1, [], 0, false) && Wire(net, c) == []
    requires threshold < U31 && success.id == LOGIN_SUCCESS && NoSwitch(later)
    requires MessagesFor(es, c) == LoginMessages(c, threshold, success) + later
    requires Deliverable(z, LoggingIn(-1), SessionPackets(threshold, success, later))
    requires AllSpare(z, net, es, c)
    requires c in HandleAll(z, net, es).lines ==> f.n >= |Pending(HandleAll(z, net, es), c)|
    requires Concat(chunks) == Wire(HandleAll(z, net, es + [Writable(c, f)]), c)
    ensures Receive(z, Inbox([], [], LoggingIn(-1), false), chunks).got == SessionPackets(threshold, success, later)
  {
    hide Stream, LoginMessages, Frames, Deliverable, Receive, HandleAll, AllSpare, Frame, Concat;
    var ps := SessionPackets(threshold, success, later);
    WireHoldsAll(z, net, es, c, f);
    SessionStream(z, c, threshold, success, later);
    assert [] + Stream(z, -1, MessagesFor(es, c)) == Frames(z, LoggingIn(-1), ps);
    var k := Delivered(z, LoggingIn(-1), ps, chunks);
    assert ps[..|ps|] == ps;
  }

  /** The first bytes of a session: with a threshold of 0 or more an uncompressed packet with id 3 that carries it, and
      then LoginSuccess in the new mode; else LoginSuccess alone, uncompressed. */
  lemma LoginBytes(z: Codec, c: nat, threshold: int, success: Packet)
    requires threshold < U31
    ensures Stream(z, -1, LoginMessages(c, threshold, success)) ==
      if threshold >= 0 then [|VarInt(threshold)| + 1, 3] + VarInt(threshold) + Frame(z, threshold, success)
      else Frame(z, -1, success)
  {
    hide Frame, Stream;
    StreamOfOne(z, threshold, Send(c, success), []);
    StreamOfOne(z, -1, Send(c, success), []);
    assert [Send(c, success)] + [] == [Send(c, success)];
    NoStream(z, threshold);
    NoStream(z, -1);
    if threshold >= 0 {
      var first := Send(c, SetCompressionPacket(threshold));
      var more := [EnableCompression(c, threshold), Send(c, success)];
      StreamOfOne(z, -1, first, more);
      StreamOfOne(z, -1, EnableCompression(c, threshold), [Send(c, success)]);
      assert LoginMessages(c, threshold, success) == [first] + more;
      assert more == [EnableCompression(c, threshold)] + [Send(c, success)];
      SwitchBytes(z, threshold);
    } else {
      assert LoginMessages(c, threshold, success) == [Send(c, success)];
    }
  }

  lemma SwitchBytes(z: Codec, threshold: int)
    requires 0 <= threshold < U31
    ensures |VarInt(threshold)| <= 5
    ensures Frame(z, -1, SetCompressionPacket(threshold)) == [|VarInt(threshold)| + 1, 3] + VarInt(threshold)
  {
    hide VarInt, Frame, Body;
    VarIntFits(threshold);
    OneDigit(3);
    SwitchBody(threshold);
    var v, b := VarInt(threshold), Body(SetCompressionPacket(threshold));
    OneDigit(|b|);
    PlainFrame(z, SetCompressionPacket(threshold));
    assert [|b|] + ([3] + v) == [|b|, 3] + v;
  }

  lemma SwitchBody(threshold: int)
    requires 0 <= threshold < U31
    ensures Body(SetCompressionPacket(threshold)) == VarInt(3) + VarInt(threshold)
  {
    hide VarInt;
    InRange(threshold, U32);
  }

  lemma PlainFrame(z: Codec, p: Packet)
    requires |Body(p)| < U32
    ensures Frame(z, -1, p) == VarInt(|Body(p)|) + Body(p)
  {
    hide VarInt, Body;
    InRange(|Body(p)|, U32);
  }

  lemma OneDigit(v: nat)
    requires v < 128
    ensures VarInt(v) == [v]
  {
  }
}
