/** A packet sequence through a byte stream cut in arbitrary pieces, with compression switched on
    in the middle: the receiver gets exactly that sequence. */
module Delivery {
  import opened Bytes
  import opened Framing

  const LOGIN_SUCCESS: u32 := 2
  const SET_COMPRESSION: u32 := 3

  function AsInt32(v: u32): int {
    if v < 0x8000_0000 then v else v - 0x1_0000_0000
  }

  /** A receiver's decoding mode. While logging in it obeys SetCompression; LoginSuccess ends that. */
  datatype Peer = Fixed(comp: int) | LoggingIn(comp: int)

  function After(peer: Peer, p: Packet): Peer {
    match peer
    case Fixed(_) => peer
    case LoggingIn(comp) =>
      if p.id == LOGIN_SUCCESS then Fixed(comp)
      else if p.id == SET_COMPRESSION && Peek(p.payload).Value? then LoggingIn(AsInt32(Peek(p.payload).v))
      else peer
  }

  function AfterAll(peer: Peer, ps: seq<Packet>): Peer
    decreases |ps|
  {
    if |ps| == 0 then peer else AfterAll(After(peer, ps[0]), ps[1..])
  }

  /** Each packet framed in the mode the receiver is in when it gets there. */
  function Frames(z: Codec, peer: Peer, ps: seq<Packet>): bytes
    decreases |ps|
  {
    if |ps| == 0 then [] else Frame(z, peer.comp, ps[0]) + Frames(z, After(peer, ps[0]), ps[1..])
  }

  /** Every packet is within the sender's and the receiver's limits. */
  predicate Deliverable(z: Codec, peer: Peer, ps: seq<Packet>)
    decreases |ps|
  {
    |ps| > 0 ==>
      Sendable(z, peer.comp, ps[0]) && Fits(z, peer.comp, ps[0]) && Deliverable(z, After(peer, ps[0]), ps[1..])
  }

  /** What has come out so far, what is still unread, the mode, and whether the stream turned out corrupt. */
  datatype Inbox = Inbox(got: seq<Packet>, rest: bytes, peer: Peer, bad: bool)

  /** The receiver's loop: take packets until chan_next has none. */
  function Drain(z: Codec, got: seq<Packet>, s: bytes, peer: Peer): Inbox
    decreases |s|
  {
    match Next(z, peer.comp, s)
    case NeedMore => Inbox(got, s, peer, false)
    case Bad => Inbox(got, s, peer, true)
    case Got(p, used) => Drain(z, got + [p], s[used..], After(peer, p))
  }

  /** Chunks arriving one after another, the loop run after each. */
  function Receive(z: Codec, box: Inbox, chunks: seq<bytes>): Inbox
    decreases |chunks|
  {
    if |chunks| == 0 || box.bad then box
    else Receive(z, Drain(z, box.got, box.rest + chunks[0], box.peer), chunks[1..])
  }

  function Concat(chunks: seq<bytes>): bytes {
    if |chunks| == 0 then [] else chunks[0] + Concat(chunks[1..])
  }

  // ---------------------------------------------------------------- cutting does not matter

  /** Draining a, then draining what is left with b behind it, is draining a and b at once. */
  lemma {:induction false} DrainInTwo(z: Codec, got: seq<Packet>, a: bytes, b: bytes, peer: Peer)
    requires !Drain(z, got, a, peer).bad
    ensures var d := Drain(z, got, a, peer);
      Drain(z, got, a + b, peer) == Drain(z, d.got, d.rest + b, d.peer)
    decreases |a|
  {
    hide Next, After;
    NextExtends(z, peer.comp, a, b);
    var n := Next(z, peer.comp, a);
    if n.Got? {
      assert (a + b)[n.used..] == a[n.used..] + b;
      DrainInTwo(z, got + [n.p], a[n.used..], b, After(peer, n.p));
    }
  }

  /** Once corrupt, more bytes do not help. */
  lemma {:induction false} DrainStaysBad(z: Codec, got: seq<Packet>, a: bytes, b: bytes, peer: Peer)
    requires Drain(z, got, a, peer).bad
    ensures Drain(z, got, a + b, peer).bad && Drain(z, got, a + b, peer).got == Drain(z, got, a, peer).got
    decreases |a|
  {
    hide Next, After;
    NextExtends(z, peer.comp, a, b);
    var n := Next(z, peer.comp, a);
    if n.Got? {
      assert (a + b)[n.used..] == a[n.used..] + b;
      DrainStaysBad(z, got + [n.p], a[n.used..], b, After(peer, n.p));
    }
  }

  /** Any cutting of a stream yields what the uncut stream yields. */
  lemma {:induction false} CuttingDoesNotMatter(z: Codec, got: seq<Packet>, s: bytes, peer: Peer, chunks: seq<bytes>)
    requires !Drain(z, got, s, peer).bad
    ensures var one := Drain(z, got, s + Concat(chunks), peer);
      var many := Receive(z, Drain(z, got, s, peer), chunks);
      many.got == one.got && many.bad == one.bad && (!one.bad ==> many == one)
    decreases |chunks|
  {
    hide Drain, Next, After;
    var d := Drain(z, got, s, peer);
    if |chunks| == 0 {
      assert s + Concat(chunks) == s;
    } else {
      var c, more := chunks[0], chunks[1..];
      DrainInTwo(z, got, s, c, peer);
      var e := Drain(z, got, s + c, peer);
      assert s + Concat(chunks) == s + c + Concat(more);
      if e.bad {
        DrainStaysBad(z, got, s + c, Concat(more), peer);
      } else {
        CuttingDoesNotMatter(z, got, s + c, peer, more);
      }
    }
  }

  // ---------------------------------------------------------------- a stream of frames

  /** What PrefixDrains concludes, for the k packets that s completes. */
  ghost predicate DrainsTo(z: Codec, got: seq<Packet>, s: bytes, peer: Peer, ps: seq<Packet>, k: nat) {
    var d := Drain(z, got, s, peer);
    && k <= |ps| && !d.bad && d.got == got + ps[..k] && d.peer == AfterAll(peer, ps[..k])
    && s == Frames(z, peer, ps[..k]) + d.rest
    && (if k == |ps| then d.rest == [] else |d.rest| < |Frame(z, d.peer.comp, ps[k])|)
  }

  lemma PartDrainsToNothing(z: Codec, got: seq<Packet>, s: bytes, peer: Peer, ps: seq<Packet>)
    requires Next(z, peer.comp, s) == NeedMore
    requires if |ps| == 0 then s == [] else |s| < |Frame(z, peer.comp, ps[0])|
    ensures DrainsTo(z, got, s, peer, ps, 0)
  {
    hide Next, Frame;
    assert ps[..0] == [] && got + [] == got && [] + s == s;
  }

  lemma DrainTakesOne(z: Codec, got: seq<Packet>, f: bytes, t: bytes, peer: Peer, p: Packet)
    requires Next(z, peer.comp, f + t) == Got(p, |f|)
    ensures Drain(z, got, f + t, peer) == Drain(z, got + [p], t, After(peer, p))
  {
    hide Next, After;
    assert (f + t)[|f|..] == t;
  }

  lemma OneMoreDrains(z: Codec, got: seq<Packet>, f: bytes, t: bytes, peer: Peer, ps: seq<Packet>, j: nat)
    requires |ps| > 0 && f == Frame(z, peer.comp, ps[0])
    requires Next(z, peer.comp, f + t) == Got(ps[0], |f|)
    requires DrainsTo(z, got + [ps[0]], t, After(peer, ps[0]), ps[1..], j)
    ensures DrainsTo(z, got, f + t, peer, ps, j + 1)
  {
    hide Next, After, Frame, Drain;
    var now := ps[..j + 1];
    DrainTakesOne(z, got, f, t, peer, ps[0]);
    assert now[0] == ps[0] && now[1..] == ps[1..][..j];
    assert got + now == got + [ps[0]] + ps[1..][..j];
  }

  /** A prefix of a stream of deliverable packets drains to the packets it completes; what is left is a
      part of the next frame. Returns how many packets that is. */
  lemma {:induction false} PrefixDrains(z: Codec, got: seq<Packet>, s: bytes, peer: Peer, ps: seq<Packet>)
    returns (k: nat)
    requires Lossless(z) && Deliverable(z, peer, ps) && s <= Frames(z, peer, ps)
    ensures DrainsTo(z, got, s, peer, ps, k)
    decreases |ps|
  {
    hide Next, After, Frame, Fits, Sendable, Drain, DrainsTo;
    k := 0;
    if |ps| == 0 {
      NothingIsIncomplete(z, peer.comp);
      PartDrainsToNothing(z, got, s, peer, ps);
    } else {
      var p, more := ps[0], ps[1..];
      var f, all := Frame(z, peer.comp, p), Frames(z, peer, ps);
      assert all == f + Frames(z, After(peer, p), more);
      if |s| < |f| {
        assert s == all[..|s|] == f[..|s|];
        NextOfPart(z, peer.comp, p, s);
        PartDrainsToNothing(z, got, s, peer, ps);
      } else {
        var t := s[|f|..];
        assert f == all[..|f|] == s[..|f|];
        assert s == f + t;
        assert t == all[|f|..][..|t|] == Frames(z, After(peer, p), more)[..|t|];
        NextOfFrame(z, peer.comp, p, t);
        var j := PrefixDrains(z, got + [p], t, After(peer, p), more);
        OneMoreDrains(z, got, f, t, peer, ps, j);
        k := j + 1;
      }
    }
  }

  lemma NothingIsIncomplete(z: Codec, comp: int)
    ensures Next(z, comp, []) == NeedMore
  {
  }

  /** The first k packets' frames, and then the next one's, are the beginning of them all. */
  lemma {:induction false} FramesUpTo(z: Codec, peer: Peer, ps: seq<Packet>, k: nat)
    requires k < |ps|
    ensures |Frames(z, peer, ps)| >= |Frames(z, peer, ps[..k])| + |Frame(z, AfterAll(peer, ps[..k]).comp, ps[k])|
    decreases |ps|
  {
    hide Frame, After;
    if k == 0 {
      assert ps[..0] == [];
    } else {
      assert ps[..k][1..] == ps[1..][..k - 1];
      FramesUpTo(z, After(peer, ps[0]), ps[1..], k - 1);
    }
  }

  /** Exactly-once, in-order delivery: however the bytes sent so far are cut, the packets that come out
      are a prefix of those sent, and all of them once everything has arrived. */
  lemma Delivered(z: Codec, peer: Peer, ps: seq<Packet>, chunks: seq<bytes>) returns (k: nat)
    requires Lossless(z) && Deliverable(z, peer, ps) && Concat(chunks) <= Frames(z, peer, ps)
    ensures k <= |ps|
    ensures var box := Receive(z, Inbox([], [], peer, false), chunks);
      !box.bad && box.got == ps[..k] && box.peer == AfterAll(peer, ps[..k])
      && Concat(chunks) == Frames(z, peer, ps[..k]) + box.rest
    ensures Concat(chunks) == Frames(z, peer, ps) ==>
      k == |ps| && Receive(z, Inbox([], [], peer, false), chunks).rest == []
  {
    hide Next, After, Frame, Fits, Sendable, Drain, Deliverable;
    var s := Concat(chunks);
    k := PrefixDrains(z, [], s, peer, ps);
    DrainOfNothing(z, peer);
    CuttingDoesNotMatter(z, [], [], peer, chunks);
    assert [] + s == s && [] + ps[..k] == ps[..k];
    if k < |ps| {
      FramesUpTo(z, peer, ps, k);
    }
  }

  lemma DrainOfNothing(z: Codec, peer: Peer)
    ensures Drain(z, [], [], peer) == Inbox([], [], peer, false)
  {
    NothingIsIncomplete(z, peer.comp);
  }

  /** The receive buffer never overflows: after each drain of such a stream less than one frame waits, so
      with the largest batch one receive event appends (four socket reads) it stays far below its cap. */
  lemma BacklogIsBounded(z: Codec, peer: Peer, ps: seq<Packet>, s: bytes, batch: nat)
    requires Lossless(z) && Deliverable(z, peer, ps) && s <= Frames(z, peer, ps) && batch <= 4 * 65536
    ensures |Drain(z, [], s, peer).rest| + batch <= BUF_CAP
  {
    hide Next, After, Drain, Deliverable, Frames;
    var k := PrefixDrains(z, [], s, peer, ps);
    var d := Drain(z, [], s, peer);
    if k < |ps| {
      DeliverableAt(z, peer, ps, k);
      FittingFrameIsShort(z, d.peer.comp, ps[k]);
    }
  }

  lemma {:induction false} DeliverableAt(z: Codec, peer: Peer, ps: seq<Packet>, k: nat)
    requires Deliverable(z, peer, ps) && k < |ps|
    ensures Fits(z, AfterAll(peer, ps[..k]).comp, ps[k])
    decreases |ps|
  {
    if k > 0 {
      DeliverableAt(z, After(peer, ps[0]), ps[1..], k - 1);
      assert ps[..k][1..] == ps[1..][..k - 1];
    }
  }

  lemma FittingFrameIsShort(z: Codec, comp: int, p: Packet)
    requires Fits(z, comp, p)
    ensures |Frame(z, comp, p)| <= 5 + MAX_FRAME
  {
    VarIntFits(|Inner(z, comp, p)|);
  }
}
