/** Switching compression on is a switch for the receiving side too: exactly when what the client sends around
    it comes out as sent. */
module InboundSwitch {
  import opened Bytes
  import opened Framing
  import opened Delivery
  import opened Channel
  import opened Inbound

  // ---------------------------------------------------------------- a frame read in the wrong mode

  /** A frame sent in mode c and read in mode d gives its packet. */
  predicate Through(z: Codec, c: int, d: int, p: Packet) {
    Next(z, d, Frame(z, c, p)) == Got(p, |Frame(z, c, p)|)
  }

  /** An uncompressed packet whose id is taken for the length that its payload inflates to, and whose payload
      does inflate to that length, and to the packet itself. */
  predicate LateEcho(z: Codec, p: Packet) {
    && 0 < p.id <= MAX_FRAME
    && var out := z.inflate(p.payload, p.id);
      out.Some? && |out.value| == p.id && Unpack(out.value, 0) == Got(p, 0)
  }

  /** A packet to be compressed whose body's length is its own id, and whose body deflates to its payload. */
  predicate EarlyEcho(z: Codec, t: int, q: Packet) {
    t <= |Body(q)| && q.id == |Body(q)| && q.payload == z.deflate(Body(q))
  }

  lemma NextOfInner(z: Codec, c: int, d: int, p: Packet)
    requires Fits(z, c, p)
    ensures var f := Frame(z, c, p);
      Next(z, d, f) == Decode(z, d, Inner(z, c, p), |f|)
  {
    hide VarInt, PeekFrom, Decode, Inner;
    var inner, f := Inner(z, c, p), Frame(z, c, p);
    PeekReadsBack(|inner|, inner);
    assert f[|VarInt(|inner|)|..|f|] == inner;
  }

  lemma BodyAsCounted(z: Codec, t: int, p: Packet, used: nat)
    requires t >= 0
    ensures Decode(z, t, Body(p), used) ==
      if p.id == 0 then Unpack(p.payload, used)
      else if p.id > MAX_FRAME then Bad
      else Inflated(z, p.payload, p.id, used)
  {
    hide Unpack, Inflated, PeekFrom, VarInt;
    PeekReadsBack(p.id, p.payload);
    assert Body(p)[|VarInt(p.id)|..] == p.payload;
  }

  /** An uncompressed frame read as a compressed one. */
  lemma LateThrough(z: Codec, t: int, p: Packet)
    requires t >= 0 && Fits(z, -1, p)
    ensures Through(z, -1, t, p) <==> LateEcho(z, p)
  {
    hide PeekFrom, Decode, Frame;
    NextOfInner(z, -1, t, p);
    BodyAsCounted(z, t, p, |Frame(z, -1, p)|);
  }

  /** A compressed frame read as an uncompressed one. */
  lemma EarlyThrough(z: Codec, t: int, q: Packet)
    requires t >= 0 && Fits(z, t, q)
    ensures Through(z, t, -1, q) <==> EarlyEcho(z, t, q)
  {
    hide PeekFrom, Frame, VarInt;
    NextOfInner(z, t, -1, q);
    var dl, rest := if |Body(q)| < t then 0 else |Body(q)|, if |Body(q)| < t then Body(q) else z.deflate(Body(q));
    PeekReadsBack(dl, rest);
    assert (VarInt(dl) + rest)[|VarInt(dl)|..] == rest;
  }

  /** Either takes an id that exceeds the payload's length, by 5 at most. */
  lemma EchoIsRare(z: Codec, t: int, p: Packet)
    ensures LateEcho(z, p) || EarlyEcho(z, t, p) ==> |p.payload| < p.id <= |p.payload| + 5
  {
    hide PeekFrom, VarInt;
    VarIntFits(p.id);
  }

  // ---------------------------------------------------------------- a run of them

  predicate AllThrough(z: Codec, c: int, d: int, ps: seq<Packet>) {
    forall p | p in ps :: Through(z, c, d, p)
  }

  /** Packets that differ from those wanted, or end too soon in a corrupt stream. */
  predicate Astray(got: seq<Packet>, bad: bool, want: seq<Packet>) {
    (exists i :: 0 <= i < |got| && i < |want| && got[i] != want[i]) || (bad && |got| < |want|)
  }

  lemma {:induction false} DrainOnlyAdds(z: Codec, got: seq<Packet>, s: bytes, peer: Peer)
    ensures got <= Drain(z, got, s, peer).got
    decreases |s|
  {
    hide Next, After;
    var n := Next(z, peer.comp, s);
    if n.Got? {
      DrainOnlyAdds(z, got + [n.p], s[n.used..], After(peer, n.p));
    }
  }

  /** Where a frame ends, and whether it is all there, does not depend on the mode. */
  lemma SameInAnyMode(z: Codec, c: int, d: int, s: bytes)
    ensures Next(z, c, s).NeedMore? <==> Next(z, d, s).NeedMore?
    ensures Next(z, c, s).Got? && Next(z, d, s).Got? ==> Next(z, c, s).used == Next(z, d, s).used
  {
    hide Decode, PeekFrom;
  }

  lemma WrongModeTakesOne(z: Codec, c: int, d: int, p: Packet, x: bytes)
    requires Lossless(z) && Sendable(z, c, p) && Fits(z, c, p)
    ensures var f := Frame(z, c, p);
      var n := Next(z, d, f + x);
      !n.NeedMore? && (n.Got? ==> n.used == |f|) && (Through(z, c, d, p) <==> n == Got(p, |f|))
  {
    hide Next, Frame, Fits, Sendable;
    var f := Frame(z, c, p);
    NextOfFrame(z, c, p, []);
    assert f + [] == f;
    SameInAnyMode(z, c, d, f);
    NextExtends(z, d, f, x);
  }

  /** A stream of frames sent in mode c and drained in mode d. */
  lemma {:induction false} DrainedInWrongMode(z: Codec, c: int, d: int, got: seq<Packet>, ps: seq<Packet>, tail: bytes)
    requires Lossless(z) && Deliverable(z, Fixed(c), ps)
    ensures var r := Drain(z, got, Frames(z, Fixed(c), ps) + tail, Fixed(d));
      if AllThrough(z, c, d, ps) then r == Drain(z, got + ps, tail, Fixed(d)) else Astray(r.got, r.bad, got + ps)
    decreases |ps|
  {
    hide Next, Frame, Fits, Sendable, Drain, Through, Astray;
    if |ps| == 0 {
      assert [] + tail == tail && got + ps == got;
    } else {
      var p, more := ps[0], ps[1..];
      var f, rest := Frame(z, c, p), Frames(z, Fixed(c), more) + tail;
      assert Frames(z, Fixed(c), ps) + tail == f + rest;
      WrongModeTakesOne(z, c, d, p, rest);
      assert ps == [p] + more && got + ps == got + [p] + more;
      if Through(z, c, d, p) {
        DrainTakesOne(z, got, f, rest, Fixed(d), p);
        DrainedInWrongMode(z, c, d, got + [p], more, tail);
      } else {
        assert p in ps;
        OtherPacket(z, d, got, p, more, f, rest);
      }
    }
  }

  lemma OtherPacket(z: Codec, d: int, got: seq<Packet>, p: Packet, more: seq<Packet>, f: bytes, rest: bytes)
    requires Next(z, d, f + rest) != Got(p, |f|) && !Next(z, d, f + rest).NeedMore?
    requires Next(z, d, f + rest).Got? ==> Next(z, d, f + rest).used == |f|
    ensures var r := Drain(z, got, f + rest, Fixed(d)); Astray(r.got, r.bad, got + ([p] + more))
  {
    hide Next;
    var n := Next(z, d, f + rest);
    assert (got + ([p] + more))[|got|] == p;
    if n.Got? {
      DrainOnlyAdds(z, got + [n.p], (f + rest)[|f|..], Fixed(d));
      assert Drain(z, got, f + rest, Fixed(d)).got[|got|] == n.p;
    }
  }

  // ---------------------------------------------------------------- across the switch

  /** EnableCompression is handled: the mode changes, and nothing else. */
  function Switched(box: Inbox, t: int): Inbox {
    box.(peer := Fixed(t))
  }

  /** What comes out: the batches before the switch, then those after it. */
  function Across(z: Codec, t: int, before: seq<bytes>, after: seq<bytes>): Inbox {
    Receive(z, Switched(Receive(z, Inbox([], [], Fixed(-1), false), before), t), after)
  }

  lemma {:induction false} DrainedNeedsMore(z: Codec, got: seq<Packet>, s: bytes, peer: Peer)
    ensures var d := Drain(z, got, s, peer); !d.bad ==> Next(z, d.peer.comp, d.rest).NeedMore?
    decreases |s|
  {
    hide Next, After;
    var n := Next(z, peer.comp, s);
    if n.Got? {
      DrainedNeedsMore(z, got + [n.p], s[n.used..], After(peer, n.p));
    }
  }

  lemma {:induction false} FixedStays(z: Codec, got: seq<Packet>, s: bytes, c: int)
    ensures Drain(z, got, s, Fixed(c)).peer == Fixed(c)
    decreases |s|
  {
    hide Next;
    var n := Next(z, c, s);
    if n.Got? {
      FixedStays(z, got + [n.p], s[n.used..], c);
    }
  }

  /** The outcome depends only on all bytes before the switch and all bytes after it: what is left over is
      drained in the new mode with everything that follows. */
  lemma AcrossIsTwoDrains(z: Codec, t: int, before: seq<bytes>, after: seq<bytes>)
    ensures var early := Drain(z, [], Concat(before), Fixed(-1));
      var late := Drain(z, early.got, early.rest + Concat(after), Fixed(t));
      var box := Across(z, t, before, after);
      if early.bad then box.bad && box.got == early.got
      else box.got == late.got && box.bad == late.bad && (!late.bad ==> box == late)
  {
    hide Next, Drain, Receive, Concat;
    DrainOfNothing(z, Fixed(-1));
    CuttingDoesNotMatter(z, [], [], Fixed(-1), before);
    assert [] + Concat(before) == Concat(before);
    var early := Drain(z, [], Concat(before), Fixed(-1));
    var box := Receive(z, Inbox([], [], Fixed(-1), false), before);
    if early.bad {
      BadStays(z, Switched(box, t), after);
    } else {
      FixedStays(z, [], Concat(before), -1);
      DrainedNeedsMore(z, [], Concat(before), Fixed(-1));
      SameInAnyMode(z, -1, t, early.rest);
      DrainOfPart(z, early, t);
      CuttingDoesNotMatter(z, early.got, early.rest, Fixed(t), after);
    }
  }

  lemma BadStays(z: Codec, box: Inbox, chunks: seq<bytes>)
    requires box.bad
    ensures Receive(z, box, chunks) == box
  {
  }

  lemma DrainOfPart(z: Codec, box: Inbox, t: int)
    requires Next(z, t, box.rest) == NeedMore && !box.bad
    ensures Drain(z, box.got, box.rest, Fixed(t)) == Switched(box, t)
  {
    hide Next;
  }

  lemma {:induction false} FramesInTwo(z: Codec, c: int, ps: seq<Packet>, k: nat)
    requires k <= |ps|
    ensures Frames(z, Fixed(c), ps) == Frames(z, Fixed(c), ps[..k]) + Frames(z, Fixed(c), ps[k..])
    ensures Deliverable(z, Fixed(c), ps) ==> Deliverable(z, Fixed(c), ps[..k]) && Deliverable(z, Fixed(c), ps[k..])
    decreases |ps|
  {
    hide Frame, Sendable, Fits;
    if k == 0 {
      assert ps[..0] == [] && ps[0..] == ps;
    } else {
      assert ps[..k][1..] == ps[1..][..k - 1] && ps[1..][k - 1..] == ps[k..];
      FramesInTwo(z, c, ps[1..], k - 1);
    }
  }

  /** A frame's packet comes out in the frame's own mode. */
  lemma {:induction false} RightModeThrough(z: Codec, c: int, ps: seq<Packet>)
    requires Lossless(z) && Deliverable(z, Fixed(c), ps)
    ensures AllThrough(z, c, c, ps)
    decreases |ps|
  {
    hide Next, Frame, Sendable, Fits;
    if |ps| > 0 {
      NextOfFrame(z, c, ps[0], []);
      assert Frame(z, c, ps[0]) + [] == Frame(z, c, ps[0]);
      RightModeThrough(z, c, ps[1..]);
    }
  }

  /** Draining all of a stream of deliverable packets. */
  lemma AllDrained(z: Codec, c: int, got: seq<Packet>, ps: seq<Packet>)
    requires Lossless(z) && Deliverable(z, Fixed(c), ps)
    ensures Drain(z, got, Frames(z, Fixed(c), ps), Fixed(c)) == Inbox(got + ps, [], Fixed(c), false)
  {
    hide Drain, Deliverable, Frames, AllThrough, Next;
    RightModeThrough(z, c, ps);
    DrainedInWrongMode(z, c, c, got, ps, []);
    assert Frames(z, Fixed(c), ps) + [] == Frames(z, Fixed(c), ps);
    NothingIsIncomplete(z, c);
    DrainOfPart(z, Inbox(got + ps, [], Fixed(c), false), c);
  }

  /** The first k packets of those sent uncompressed and the first m of those sent compressed are complete in s,
      and of the next one, if any, only a part is there. */
  predicate Complete(z: Codec, t: int, ps: seq<Packet>, qs: seq<Packet>, s: bytes, k: nat, m: nat) {
    && k <= |ps| && m <= |qs| && (m > 0 ==> k == |ps|)
    && var whole := Frames(z, Fixed(-1), ps[..k]) + Frames(z, Fixed(t), qs[..m]);
      whole <= s && (k < |ps| ==> |s| < |whole| + |Frame(z, -1, ps[k])|)
      && (k == |ps| && m < |qs| ==> |s| < |whole| + |Frame(z, t, qs[m])|)
      && (k == |ps| && m == |qs| ==> s == whole)
  }

  lemma FixedPart(z: Codec, s: bytes, c: int, ps: seq<Packet>) returns (k: nat)
    requires Lossless(z) && Deliverable(z, Fixed(c), ps) && s <= Frames(z, Fixed(c), ps)
    ensures k <= |ps| && Frames(z, Fixed(c), ps[..k]) <= s
    ensures var part := s[|Frames(z, Fixed(c), ps[..k])|..];
      Next(z, c, part).NeedMore? && if k == |ps| then part == [] else |part| < |Frame(z, c, ps[k])|
  {
    hide Next, Frame, Drain, Deliverable, Frames;
    k := PrefixDrains(z, [], s, Fixed(c), ps);
    FixedStays(z, [], s, c);
    DrainedNeedsMore(z, [], s, Fixed(c));
    var f, d := Frames(z, Fixed(c), ps[..k]), Drain(z, [], s, Fixed(c));
    assert s[|f|..] == d.rest;
  }

  lemma FallsBefore(z: Codec, t: int, ps: seq<Packet>, qs: seq<Packet>, s: bytes) returns (k: nat, part: bytes)
    requires Lossless(z) && Deliverable(z, Fixed(-1), ps)
    requires s <= Frames(z, Fixed(-1), ps) && |s| < |Frames(z, Fixed(-1), ps)|
    ensures Complete(z, t, ps, qs, s, k, 0) && Next(z, -1, part).NeedMore?
    ensures s == Frames(z, Fixed(-1), ps[..k]) + (Frames(z, Fixed(t), qs[..0]) + part)
  {
    hide Next, Frame, Deliverable, Frames;
    NoFrames(z, t, qs);
    k := FixedPart(z, s, -1, ps);
    var f := Frames(z, Fixed(-1), ps[..k]);
    part := s[|f|..];
    assert ps[..|ps|] == ps;
    assert f + [] == f && [] + part == part;
  }

  lemma FallsBehind(z: Codec, t: int, ps: seq<Packet>, qs: seq<Packet>, e: bytes) returns (m: nat, part: bytes)
    requires Lossless(z) && Deliverable(z, Fixed(t), qs) && e <= Frames(z, Fixed(t), qs)
    ensures Complete(z, t, ps, qs, Frames(z, Fixed(-1), ps) + e, |ps|, m) && Next(z, -1, part).NeedMore?
    ensures e == Frames(z, Fixed(t), qs[..m]) + part
  {
    hide Next, Frame, Deliverable, Frames;
    m := FixedPart(z, e, t, qs);
    var f := Frames(z, Fixed(t), qs[..m]);
    part := e[|f|..];
    SameInAnyMode(z, -1, t, part);
    assert ps[..|ps|] == ps;
    assert Frames(z, Fixed(-1), ps) + e == Frames(z, Fixed(-1), ps) + f + part;
  }

  lemma WhereItFalls(z: Codec, t: int, ps: seq<Packet>, qs: seq<Packet>, s: bytes) returns (k: nat, m: nat, part: bytes)
    requires Lossless(z) && Deliverable(z, Fixed(-1), ps) && Deliverable(z, Fixed(t), qs)
    requires s <= Frames(z, Fixed(-1), ps) + Frames(z, Fixed(t), qs)
    ensures Complete(z, t, ps, qs, s, k, m) && Next(z, -1, part).NeedMore?
    ensures s == Frames(z, Fixed(-1), ps[..k]) + (Frames(z, Fixed(t), qs[..m]) + part)
  {
    hide Next, Deliverable, Frames, Complete;
    var fs, gs := Frames(z, Fixed(-1), ps), Frames(z, Fixed(t), qs);
    PartOfTwo(fs, gs, s);
    if |s| < |fs| {
      m := 0;
      k, part := FallsBefore(z, t, ps, qs, s);
    } else {
      var e := s[|fs|..];
      assert e == (fs + gs)[|fs|..][..|e|] == gs[..|e|];
      k := |ps|;
      assert ps[..k] == ps;
      m, part := FallsBehind(z, t, ps, qs, e);
    }
  }

  lemma NoFrames(z: Codec, t: int, qs: seq<Packet>)
    ensures Frames(z, Fixed(t), qs[..0]) == []
  {
  }

  lemma StaysAstray(got: seq<Packet>, bad: bool, want: seq<Packet>, got': seq<Packet>, bad': bool, want': seq<Packet>)
    requires Astray(got, bad, want) && got <= got' && want <= want' && (bad ==> bad' && got' == got)
    ensures Astray(got', bad', want') && got' != want'
  {
    if i :| 0 <= i < |got| && i < |want| && got[i] != want[i] {
      assert got'[i] != want'[i];
    }
  }

  /** Every uncompressed packet that is read late is such an echo, and every compressed one that is read early. */
  predicate Echoes(z: Codec, t: int, late: seq<Packet>, early: seq<Packet>) {
    (forall p | p in late :: LateEcho(z, p)) && forall q | q in early :: EarlyEcho(z, t, q)
  }

  lemma {:induction false} AllFit(z: Codec, c: int, ps: seq<Packet>)
    requires Deliverable(z, Fixed(c), ps)
    ensures forall p | p in ps :: Fits(z, c, p)
    decreases |ps|
  {
    hide Fits, Sendable;
    if |ps| > 0 {
      AllFit(z, c, ps[1..]);
    }
  }

  lemma EchoesAreThrough(z: Codec, t: int, late: seq<Packet>, early: seq<Packet>)
    requires t >= 0 && Deliverable(z, Fixed(-1), late) && Deliverable(z, Fixed(t), early)
    ensures Echoes(z, t, late, early) <==> AllThrough(z, -1, t, late) && AllThrough(z, t, -1, early)
  {
    hide Through, LateEcho, EarlyEcho, Fits, Deliverable;
    AllFit(z, -1, late);
    AllFit(z, t, early);
    forall p | p in late ensures Through(z, -1, t, p) <==> LateEcho(z, p) {
      LateThrough(z, t, p);
    }
    forall q | q in early ensures Through(z, t, -1, q) <==> EarlyEcho(z, t, q) {
      EarlyThrough(z, t, q);
    }
  }

  /** What is out when the mode changes. */
  lemma EarlyOutcome(z: Codec, t: int, ps: seq<Packet>, qs: seq<Packet>, part: bytes)
    requires Lossless(z) && Deliverable(z, Fixed(-1), ps) && Deliverable(z, Fixed(t), qs)
    requires Next(z, -1, part).NeedMore?
    ensures var early := Drain(z, [], Frames(z, Fixed(-1), ps) + (Frames(z, Fixed(t), qs) + part), Fixed(-1));
      if AllThrough(z, t, -1, qs) then early == Inbox(ps + qs, part, Fixed(-1), false)
      else Astray(early.got, early.bad, ps + qs)
  {
    hide Drain, Deliverable, Frames, AllThrough, Next, Astray;
    RightModeThrough(z, -1, ps);
    DrainedInWrongMode(z, -1, -1, [], ps, Frames(z, Fixed(t), qs) + part);
    assert [] + ps == ps;
    DrainedInWrongMode(z, t, -1, ps, qs, part);
    DrainOfPart(z, Inbox(ps + qs, part, Fixed(-1), false), -1);
  }

  /** And what comes out in the new mode. */
  lemma LateOutcome(z: Codec, t: int, got: seq<Packet>, ps: seq<Packet>, qs: seq<Packet>)
    requires Lossless(z) && Deliverable(z, Fixed(-1), ps) && Deliverable(z, Fixed(t), qs)
    ensures var late := Drain(z, got, Frames(z, Fixed(-1), ps) + Frames(z, Fixed(t), qs), Fixed(t));
      if AllThrough(z, -1, t, ps) then late == Inbox(got + ps + qs, [], Fixed(t), false)
      else Astray(late.got, late.bad, got + ps)
  {
    hide Drain, Deliverable, Frames, AllThrough, Astray;
    DrainedInWrongMode(z, -1, t, got, ps, Frames(z, Fixed(t), qs));
    AllDrained(z, t, got + ps, qs);
  }

  /** The bytes unread at the switch, and those after it. */
  lemma Leftover(z: Codec, t: int, ps: seq<Packet>, qs: seq<Packet>, k: nat, m: nat, part: bytes, later: bytes)
    requires k <= |ps| && m <= |qs| && (m > 0 ==> k == |ps|)
    requires Frames(z, Fixed(-1), ps[..k]) + (Frames(z, Fixed(t), qs[..m]) + part) + later ==
      Frames(z, Fixed(-1), ps) + Frames(z, Fixed(t), qs)
    ensures part + later == Frames(z, Fixed(-1), ps[k..]) + Frames(z, Fixed(t), qs[m..])
  {
    hide Frames;
    FramesInTwo(z, -1, ps, k);
    FramesInTwo(z, t, qs, m);
    NoFrames(z, t, qs);
    NoFrames(z, -1, ps);
    if m > 0 {
      assert ps[k..] == ps[..0];
    }
    CutBehind(Frames(z, Fixed(-1), ps[..k]), Frames(z, Fixed(-1), ps[k..]),
              Frames(z, Fixed(t), qs[..m]), Frames(z, Fixed(t), qs[m..]), part, later);
  }

  lemma CutBehind(a: bytes, b: bytes, c: bytes, d: bytes, part: bytes, later: bytes)
    requires a + (c + part) + later == a + b + (c + d) && (b == [] || c == [])
    ensures part + later == b + d
  {
    var n := |a + c|;
    assert (a + (c + part) + later)[n..] == part + later;
    assert (a + b + (c + d))[n..] == b + d;
  }

  /** A client sends ps uncompressed and, once it has heard of the switch, qs compressed with threshold t. The
      server handles EnableCompression when `before` has arrived, which completes k of the first and m of the
      second. All packets come out as sent if and only if each uncompressed packet not out by then inflates to
      itself, and each compressed one that is out already is what its own body deflates to. */
  lemma SwitchedInbound(z: Codec, t: int, ps: seq<Packet>, qs: seq<Packet>, before: seq<bytes>, after: seq<bytes>)
    returns (k: nat, m: nat)
    requires Lossless(z) && t >= 0 && Deliverable(z, Fixed(-1), ps) && Deliverable(z, Fixed(t), qs)
    requires Concat(before) + Concat(after) == Frames(z, Fixed(-1), ps) + Frames(z, Fixed(t), qs)
    ensures Complete(z, t, ps, qs, Concat(before), k, m)
    ensures var box := Across(z, t, before, after);
      && (box.got == ps + qs <==> Echoes(z, t, ps[k..], qs[..m]))
      && (box.got == ps + qs ==> box == Inbox(ps + qs, [], Fixed(t), false))
  {
    hide Frame, Drain, Deliverable, Frames, Next, AllThrough, Concat, Across, Astray, Echoes;
    var s, later := Concat(before), Concat(after);
    var part;
    assert s == (s + later)[..|s|];
    k, m, part := WhereItFalls(z, t, ps, qs, s);
    FramesInTwo(z, -1, ps, k);
    FramesInTwo(z, t, qs, m);
    EchoesAreThrough(z, t, ps[k..], qs[..m]);
    AcrossIsTwoDrains(z, t, before, after);
    EarlyOutcome(z, t, ps[..k], qs[..m], part);
    Leftover(z, t, ps, qs, k, m, part, later);
    InOrder(ps, qs, k, m);
    var got := ps[..k] + qs[..m];
    var early := Drain(z, [], s, Fixed(-1));
    var box := Across(z, t, before, after);
    if AllThrough(z, t, -1, qs[..m]) {
      LateOutcome(z, t, got, ps[k..], qs[m..]);
      if !AllThrough(z, -1, t, ps[k..]) {
        var late := Drain(z, got, part + later, Fixed(t));
        StaysAstray(late.got, late.bad, got + ps[k..], box.got, box.bad, ps + qs);
      }
    } else {
      DrainOnlyAdds(z, early.got, early.rest + later, Fixed(t));
      StaysAstray(early.got, early.bad, got, box.got, box.bad, ps + qs);
    }
  }

  lemma InOrder(ps: seq<Packet>, qs: seq<Packet>, k: nat, m: nat)
    requires k <= |ps| && m <= |qs| && (m > 0 ==> k == |ps|)
    ensures ps[..k] + qs[..m] + ps[k..] + qs[m..] == ps + qs
    ensures ps[..k] + qs[..m] <= ps + qs && ps[..k] + qs[..m] + ps[k..] <= ps + qs
  {
  }

  /** Where no packet is such an echo, they come out as sent exactly when EnableCompression is handled after
      the last uncompressed frame is in and before the first compressed one is complete. */
  lemma SwitchWantsSilence(z: Codec, t: int, ps: seq<Packet>, qs: seq<Packet>, before: seq<bytes>, after: seq<bytes>)
    requires Lossless(z) && t >= 0 && Deliverable(z, Fixed(-1), ps) && Deliverable(z, Fixed(t), qs)
    requires Concat(before) + Concat(after) == Frames(z, Fixed(-1), ps) + Frames(z, Fixed(t), qs)
    requires forall p | p in ps + qs :: !LateEcho(z, p) && !EarlyEcho(z, t, p)
    ensures var first := |Frames(z, Fixed(-1), ps)|;
      Across(z, t, before, after).got == ps + qs <==>
        first <= |Concat(before)| && (|qs| > 0 ==> |Concat(before)| < first + |Frame(z, t, qs[0])|)
  {
    hide Frame, Deliverable, Frames, Across, LateEcho, EarlyEcho, Concat;
    var k, m := SwitchedInbound(z, t, ps, qs, before, after);
    NoFrames(z, t, qs);
    if k < |ps| {
      assert ps[k] in ps + qs && ps[k] in ps[k..];
      FramesUpTo(z, Fixed(-1), ps, k);
      ModeStays(-1, ps[..k]);
    } else {
      assert ps[..k] == ps && ps[k..] == [];
      if m > 0 {
        assert qs[0] in ps + qs && qs[0] in qs[..m];
        FirstFrame(z, t, qs[..m]);
      }
    }
  }

  lemma {:induction false} ModeStays(c: int, ps: seq<Packet>)
    ensures AfterAll(Fixed(c), ps) == Fixed(c)
    decreases |ps|
  {
    if |ps| > 0 {
      ModeStays(c, ps[1..]);
    }
  }

  lemma FirstFrame(z: Codec, c: int, ps: seq<Packet>)
    requires |ps| > 0
    ensures |Frame(z, c, ps[0])| <= |Frames(z, Fixed(c), ps)|
  {
  }

  /** An uncompressed packet read after the switch: id 0 with one byte, 1, comes out as id 1 with none. */
  lemma LatePacketIsMisread(z: Codec, t: int)
    requires t >= 0
    ensures Next(z, t, Frame(z, -1, Packet(0, [1]))) == Got(Packet(1, []), 3)
  {
    hide PeekFrom, Next, Frame;
    var p := Packet(0, [1]);
    assert Body(p) == [0] + [1];
    ShortFrame(z, p);
    NextOfInner(z, -1, t, p);
    BodyAsCounted(z, t, p, 3);
    PeekReadsBack(1, []);
    assert VarInt(1) + [] == [1];
  }

  lemma ShortFrame(z: Codec, p: Packet)
    requires |Body(p)| == 2
    ensures Fits(z, -1, p) && |Frame(z, -1, p)| == 3
  {
  }

  // ---------------------------------------------------------------- the channel across the switch

  /** No batch finds the receive buffer too full. */
  predicate NeverFull(z: Codec, box: Inbox, batches: seq<bytes>)
    decreases |batches|
  {
    |batches| > 0 && !box.bad ==>
      && |box.rest| + |batches[0]| <= BUF_CAP
      && NeverFull(z, Drain(z, box.got, box.rest + batches[0], box.peer), batches[1..])
  }

  /** Receive and drain, batch after batch, whatever they contain. */
  method ServeBatches(z: Codec, c: Chan, had: seq<Packet>, batches: seq<bytes>)
    returns (got: seq<Packet>, bad: bool, ok: bool)
    requires c.Valid()
    modifies c.rx, c.rx.b
    ensures c.Valid() && (c.rx.b == old(c.rx.b) || fresh(c.rx.b))
    ensures var start := Inbox(had, old(c.rx.Unread()), Fixed(c.compression), false);
      && (ok <==> NeverFull(z, start, batches))
      && (ok ==> Inbox(got, c.rx.Unread(), Fixed(c.compression), bad) == Receive(z, start, batches))
  {
    hide Drain;
    got, bad, ok := had, false, true;
    ghost var peer := Fixed(c.compression);
    ghost var start := Inbox(had, c.rx.Unread(), peer, false);
    var i := 0;
    assert batches[0..] == batches;
    while i < |batches| && !bad
      invariant i <= |batches| && c.Valid() && (c.rx.b == old(c.rx.b) || fresh(c.rx.b)) && peer == Fixed(c.compression)
      invariant var box := Inbox(got, c.rx.Unread(), peer, bad);
        && Receive(z, box, batches[i..]) == Receive(z, start, batches)
        && (NeverFull(z, box, batches[i..]) <==> NeverFull(z, start, batches))
    {
      ghost var box := Inbox(got, c.rx.Unread(), peer, bad);
      OneBatch(z, box, batches, i);
      ok := c.Recv(batches[i]);
      if !ok {
        return;
      }
      FixedStays(z, got, c.rx.Unread(), c.compression);
      got, bad := DrainChannel(z, c, got);
      i := i + 1;
    }
  }

  lemma OneBatch(z: Codec, box: Inbox, batches: seq<bytes>, i: nat)
    requires i < |batches| && !box.bad
    ensures var next := Drain(z, box.got, box.rest + batches[i], box.peer);
      && Receive(z, box, batches[i..]) == Receive(z, next, batches[i + 1..])
      && (NeverFull(z, box, batches[i..]) <==>
          |box.rest| + |batches[i]| <= BUF_CAP && NeverFull(z, next, batches[i + 1..]))
  {
    hide Drain;
    assert batches[i..][0] == batches[i] && batches[i..][1..] == batches[i + 1..];
  }

  /** The net thread with the switch anywhere: what comes out is what Across says, unless a batch finds the
      buffer too full. */
  method ServeAcrossSwitch(z: Codec, c: Chan, before: seq<bytes>, t: int, after: seq<bytes>)
    returns (got: seq<Packet>, bad: bool, ok: bool)
    requires c.Valid() && c.rx.Unread() == [] && c.compression == -1
    modifies c`compression, c.rx, c.rx.b
    ensures c.Valid()
    ensures var start := Inbox([], [], Fixed(-1), false);
      ok <==> NeverFull(z, start, before) && NeverFull(z, Switched(Receive(z, start, before), t), after)
    ensures ok ==> got == Across(z, t, before, after).got && bad == Across(z, t, before, after).bad
    ensures ok && !bad ==> c.compression == t && c.rx.Unread() == Across(z, t, before, after).rest
  {
    hide Drain, Receive, NeverFull;
    got, bad, ok := ServeBatches(z, c, [], before);
    if !ok {
      return;
    }
    if bad {
      BadStays(z, Switched(Inbox(got, c.rx.Unread(), Fixed(-1), true), t), after);
      BadIsNotFull(z, Switched(Inbox(got, c.rx.Unread(), Fixed(-1), true), t), after);
      return;
    }
    c.compression := t;
    got, bad, ok := ServeBatches(z, c, got, after);
  }

  lemma BadIsNotFull(z: Codec, box: Inbox, batches: seq<bytes>)
    requires box.bad
    ensures NeverFull(z, box, batches)
  {
  }

  /** The net thread around a well-timed switch: all packets come out, in order, whatever the batches. */
  method ReceiveAcrossSwitch(z: Codec, c: Chan, before: seq<bytes>, t: int, after: seq<bytes>,
                             ghost ps: seq<Packet>, ghost qs: seq<Packet>) returns (got: seq<Packet>)
    requires c.Valid() && c.rx.Unread() == [] && c.compression == -1 && t >= 0
    requires Lossless(z) && Deliverable(z, Fixed(-1), ps) && Deliverable(z, Fixed(t), qs)
    requires Concat(before) == Frames(z, Fixed(-1), ps) && Concat(after) <= Frames(z, Fixed(t), qs)
    requires forall i | 0 <= i < |before| :: |before[i]| <= BATCH
    requires forall i | 0 <= i < |after| :: |after[i]| <= BATCH
    modifies c`compression, c.rx, c.rx.b
    ensures c.Valid() && c.compression == t && ps <= got <= ps + qs
    ensures Concat(after) == Frames(z, Fixed(t), got[|ps|..]) + c.rx.Unread()
    ensures Concat(after) == Frames(z, Fixed(t), qs) ==> got == ps + qs && c.rx.Unread() == []
  {
    hide Frames, Deliverable, Concat, Lossless;
    var first := ReceiveBatches(z, c, before, ps);
    c.compression := t;
    var more := ReceiveBatches(z, c, after, qs);
    got := first + more;
    assert got[|ps|..] == more;
  }
}
