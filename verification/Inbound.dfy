/** The receiving side of net_thread.cpp: read, then take packets until there is none. */
module Inbound {
  import opened Bytes
  import opened Framing
  import opened Delivery
  import opened Channel

  /** Takes packets off the channel until chan_next has none. */
  method DrainChannel(z: Codec, c: Chan, before: seq<Packet>) returns (got: seq<Packet>, bad: bool)
    requires c.Valid()
    modifies c.rx
    ensures c.Valid() && c.rx.b == old(c.rx.b)
    ensures Inbox(got, c.rx.Unread(), Fixed(c.compression), bad) ==
      Drain(z, before, old(c.rx.Unread()), Fixed(c.compression))
  {
    hide Next;
    got, bad := before, false;
    while true
      invariant c.Valid() && c.rx.b == old(c.rx.b) && !bad
      invariant Drain(z, got, c.rx.Unread(), Fixed(c.compression)) ==
        Drain(z, before, old(c.rx.Unread()), Fixed(c.compression))
      decreases |c.rx.Unread()|
    {
      var r := c.NextPacket(z);
      if r.NeedMore? {
        break;
      }
      if r.Bad? {
        bad := true;
        break;
      }
      got := got + [r.p];
    }
  }

  /** The most one receive event appends: four socket reads. */
  const BATCH: nat := 4 * 65536

  /** The bytes of deliverable packets, arriving in batches of any sizes up to four socket reads: no receive
      is ever refused, no batch looks corrupt, and the packets that come out are the first of those sent, in
      order; all of them once all bytes are in. */
  method ReceiveBatches(z: Codec, c: Chan, batches: seq<bytes>, ghost ps: seq<Packet>) returns (got: seq<Packet>)
    requires c.Valid() && c.rx.Unread() == []
    requires Lossless(z) && Deliverable(z, Fixed(c.compression), ps)
    requires Concat(batches) <= Frames(z, Fixed(c.compression), ps)
    requires forall i | 0 <= i < |batches| :: |batches[i]| <= BATCH
    modifies c.rx, c.rx.b
    ensures c.Valid() && (c.rx.b == old(c.rx.b) || fresh(c.rx.b)) && got <= ps
    ensures Concat(batches) == Frames(z, Fixed(c.compression), got) + c.rx.Unread()
    ensures Concat(batches) == Frames(z, Fixed(c.compression), ps) ==> got == ps && c.rx.Unread() == []
  {
    hide Next, Frame, Frames, Fits, Deliverable, Drain, Lossless, Sendable, Concat;
    got := [];
    var i := 0;
    ghost var peer := Fixed(c.compression);
    ghost var all := Concat(batches);
    ghost var s: bytes := [];
    DrainOfNothing(z, peer);
    AllToCome(batches);
    while i < |batches|
      invariant i <= |batches| && c.Valid() && (c.rx.b == old(c.rx.b) || fresh(c.rx.b)) && peer == Fixed(c.compression)
      invariant all == s + Concat(batches[i..]) && s <= all
      invariant Drain(z, [], s, peer) == Inbox(got, c.rx.Unread(), peer, false)
    {
      BacklogIsBounded(z, peer, ps, s, |batches[i]|);
      DrainInTwo(z, [], s, batches[i], peer);
      NextBatch(batches, i, s);
      var ok := c.Recv(batches[i]);
      assert ok;
      var bad;
      got, bad := DrainChannel(z, c, got);
      s := s + batches[i];
      ghost var k := PrefixDrains(z, [], s, peer, ps);
      i := i + 1;
    }
    assert batches[i..] == [];
    NoBatch();
    ghost var k := PrefixDrains(z, [], s, peer, ps);
    assert [] + ps[..k] == ps[..k];
    if all == Frames(z, peer, ps) && k < |ps| {
      FramesUpTo(z, peer, ps, k);
    }
  }

  lemma AllToCome(batches: seq<bytes>)
    ensures Concat(batches) == [] + Concat(batches[0..])
  {
    assert batches[0..] == batches;
  }

  lemma NoBatch()
    ensures Concat([]) == []
  {
  }

  lemma NextBatch(batches: seq<bytes>, i: nat, s: bytes)
    requires i < |batches|
    ensures s + Concat(batches[i..]) == s + batches[i] + Concat(batches[i + 1..])
  {
    assert batches[i..][0] == batches[i] && batches[i..][1..] == batches[i + 1..];
  }
}
