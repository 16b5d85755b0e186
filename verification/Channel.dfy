/** The channel of net.c: two growable, compacting buffers and the VarInt loops over them. */
module Channel {
  import opened Bytes
  import opened Framing

  /** peek_varint. */
  method PeekVarInt(s: bytes) returns (r: Peeked)
    ensures r == Peek(s)
  {
    var out: nat := 0;
    var i := 0;
    while i < 5
      invariant i <= 5 && i <= |s| && out < U32
      invariant Peek(s) == PeekFrom(s[i..], i, out)
    {
      if i >= |s| { return Incomplete; }
      var b := s[i];
      assert s[i..][0] == b && s[i..][1..] == s[i + 1..];
      out := (out + b % 128 * Pow128(i)) % 0x1_0000_0000;
      if b < 128 { return Value(out, i + 1); }
      i := i + 1;
    }
    return Invalid;
  }

  /** minecpp_wr_varint into an empty buffer. */
  method WriteVarInt(v: u32) returns (r: bytes)
    ensures r == VarInt(v)
  {
    var u := v;
    r := [];
    while u >= 128
      invariant r + VarInt(u) == VarInt(v)
    {
      r := r + [u % 128 + 128];
      u := u / 128;
    }
    r := r + [u];
  }

  /** dynbuf_t; b.Length is its capacity. */
  class DynBuf {
    var b: array<byte>
    var off: nat
    var len: nat

    ghost predicate Valid()
      reads this
    {
      off <= len <= b.Length <= BUF_CAP
    }

    ghost function Unread(): bytes
      requires Valid()
      reads this, b
    {
      b[off..len]
    }

    constructor ()
      ensures Valid() && Unread() == [] && fresh(b)
    {
      b := new byte[0];
      off, len := 0, 0;
    }

    /** dyn_reserve: compacts before it grows; fails exactly when the unread bytes and the new ones
        together exceed the cap, and never loses an unread byte. */
    method Reserve(extra: nat) returns (ok: bool)
      requires Valid()
      modifies this, b
      ensures Valid() && (b == old(b) || fresh(b))
      ensures Unread() == old(Unread())
      ensures ok <==> |Unread()| + extra <= BUF_CAP
      ensures ok ==> len + extra <= b.Length
    {
      if len + extra <= b.Length { return true; }
      if off != 0 { Compact(); }
      if len + extra <= b.Length { return true; }
      if len + extra > BUF_CAP { return false; }
      var ncap := if b.Length != 0 then b.Length else 4096;
      while ncap < len + extra
        invariant ncap > 0
        decreases len + extra - ncap
      {
        ncap := ncap * 2;
      }
      if ncap > BUF_CAP { ncap := BUF_CAP; }
      Grow(ncap);
      return true;
    }

    /** realloc. */
    method Grow(ncap: nat)
      requires Valid() && len <= ncap <= BUF_CAP
      modifies this`b
      ensures Valid() && b.Length == ncap && fresh(b) && Unread() == old(Unread())
    {
      var nb := new byte[ncap];
      for i := 0 to len
        invariant b == old(b) && nb[..i] == b[..i]
      {
        nb[i] := b[i];
      }
      assert nb[..len][off..len] == b[..len][off..len];
      b := nb;
    }

    /** memmove of the unread bytes to the front. */
    method Compact()
      requires Valid()
      modifies this, b
      ensures Valid() && b == old(b) && off == 0 && len == old(len - off)
      ensures Unread() == old(Unread())
    {
      var n := len - off;
      ghost var was := b[..];
      for i := 0 to n
        invariant b == old(b) && off == old(off) && len == old(len) && off + n == len <= b.Length == |was|
        invariant forall k | 0 <= k < i :: b[k] == was[off + k]
        invariant forall k | i <= k < b.Length :: b[k] == was[k]
      {
        b[i] := b[off + i];
      }
      assert b[..n] == was[off..off + n];
      len := n;
      off := 0;
    }

    /** Reserve, then memcpy behind the unread bytes. */
    method Append(data: bytes) returns (ok: bool)
      requires Valid()
      modifies this, b
      ensures Valid() && (b == old(b) || fresh(b))
      ensures ok <==> |old(Unread())| + |data| <= BUF_CAP
      ensures Unread() == if ok then old(Unread()) + data else old(Unread())
    {
      ok := Reserve(|data|);
      if !ok { return; }
      CopyIn(data);
      SlicesJoin(b[..], off, len, len + |data|);
      len := len + |data|;
    }

    /** memcpy to the free space behind the unread bytes. */
    method CopyIn(data: bytes)
      requires Valid() && len + |data| <= b.Length
      modifies b
      ensures b[off..len] == old(b[off..len]) && b[len..len + |data|] == data
    {
      for i := 0 to |data|
        invariant b[len..len + i] == data[..i]
        invariant b[off..len] == old(b[off..len])
      {
        b[len + i] := data[i];
      }
    }

    /** Takes n bytes off the front; an emptied buffer starts over. */
    method Consume(n: nat)
      requires Valid() && n <= |Unread()|
      modifies this
      ensures Valid() && b == old(b)
      ensures Unread() == old(Unread())[n..]
    {
      off := off + n;
      if off == len { off, len := 0, 0; }
    }
  }

  class Chan {
    const rx: DynBuf
    const tx: DynBuf
    var compression: int

    ghost predicate Valid()
      reads this, rx, tx
    {
      rx.Valid() && tx.Valid() && rx != tx && rx.b != tx.b
    }

    constructor ()
      ensures Valid() && compression == -1 && rx.Unread() == [] && tx.Unread() == []
      ensures fresh(rx) && fresh(tx) && fresh(rx.b) && fresh(tx.b)
    {
      rx := new DynBuf();
      tx := new DynBuf();
      compression := -1;
    }

    /** minecpp_chan_recv: the bytes of one socket read arrive. */
    method Recv(data: bytes) returns (ok: bool)
      requires Valid()
      modifies rx, rx.b
      ensures Valid() && (rx.b == old(rx.b) || fresh(rx.b))
      ensures ok <==> |old(rx.Unread())| + |data| <= BUF_CAP
      ensures rx.Unread() == if ok then old(rx.Unread()) + data else old(rx.Unread())
    {
      ok := rx.Append(data);
    }

    /** minecpp_chan_next: a packet is consumed from the unread bytes, anything else leaves them alone. */
    method NextPacket(z: Codec) returns (r: Outcome)
      requires Valid()
      modifies rx
      ensures Valid() && rx.b == old(rx.b)
      ensures r == Next(z, compression, old(rx.Unread()))
      ensures rx.Unread() == if r.Got? then old(rx.Unread())[r.used..] else old(rx.Unread())
    {
      hide Decode, PeekFrom;
      var s := rx.b[rx.off..rx.len];
      var l := PeekVarInt(s);
      if !l.Value? { return NeedMore; }
      if l.v == 0 || l.v > MAX_FRAME { return Bad; }
      if |s| - l.used < l.v { return NeedMore; }
      r := DecodeFrame(z, s[l.used..l.used + l.v], l.used + l.v);
      if r.Got? { rx.Consume(r.used); }
    }

    /** What chan_next does with a complete frame's inner bytes. */
    method DecodeFrame(z: Codec, inner: bytes, used: nat) returns (r: Outcome)
      ensures r == Decode(z, compression, inner, used)
    {
      hide Unpack, PeekFrom;
      if compression < 0 {
        r := UnpackId(inner, used);
        return;
      }
      var d := PeekVarInt(inner);
      if !d.Value? || d.v >= U31 { return Bad; }
      if d.v == 0 {
        r := UnpackId(inner[d.used..], used);
        return;
      }
      if d.v > MAX_FRAME { return Bad; }
      var out := z.inflate(inner[d.used..], d.v);
      if out.None? || |out.value| != d.v { return Bad; }
      r := UnpackId(out.value, used);
    }

    method UnpackId(body: bytes, used: nat) returns (r: Outcome)
      ensures r == Unpack(body, used)
    {
      var id := PeekVarInt(body);
      return if id.Value? then Got(Packet(id.v, body[id.used..]), used) else Bad;
    }

    /** minecpp_chan_send: queues the packet's frame behind what is pending, or refuses and changes nothing. */
    method Send(z: Codec, p: Packet) returns (ok: bool)
      requires Valid()
      modifies tx, tx.b
      ensures Valid() && (tx.b == old(tx.b) || fresh(tx.b))
      ensures ok <==> |Body(p)| <= WRITER_LIMIT && |old(tx.Unread())| + |Frame(z, compression, p)| <= BUF_CAP
      ensures tx.Unread() == if ok then old(tx.Unread()) + Frame(z, compression, p) else old(tx.Unread())
    {
      var id := WriteVarInt(p.id);
      var body := id + p.payload;
      if |body| > WRITER_LIMIT { return false; }
      var inner := body;
      if compression >= 0 {
        if |body| < compression {
          var zero := WriteVarInt(0);
          inner := zero + body;
        } else {
          var n := WriteVarInt(|body| % 0x1_0000_0000);
          inner := n + z.deflate(body);
        }
      }
      var n := WriteVarInt(|inner| % 0x1_0000_0000);
      var frame := n + inner;
      if tx.len - tx.off + |frame| > BUF_CAP { return false; }
      ok := tx.Append(frame);
    }

    /** minecpp_chan_flush: bytes go out until none is pending (0), the socket blocks (1) or fails (-1). */
    method Flush(answers: seq<Answer>) returns (code: int, ghost taken: nat)
      requires Valid()
      modifies tx
      ensures Valid() && tx.b == old(tx.b)
      ensures (taken, code) == Sending(old(tx.Unread()), answers)
      ensures taken <= |old(tx.Unread())| && tx.Unread() == old(tx.Unread())[taken..]
    {
      taken := 0;
      var i := 0;
      ghost var all := tx.Unread();
      assert all[0..] == all && answers[0..] == answers;
      while tx.off < tx.len
        invariant Valid() && tx.b == old(tx.b) && i <= |answers| && taken <= |all| && tx.Unread() == all[taken..]
        invariant Sending(all, answers).0 == taken + Sending(all[taken..], answers[i..]).0
        invariant Sending(all, answers).1 == Sending(all[taken..], answers[i..]).1
        decreases |answers| - i
      {
        if i == |answers| {
          return 1, taken;
        }
        var a := answers[i];
        assert answers[i..][0] == a && answers[i..][1..] == answers[i + 1..];
        i := i + 1;
        if a.Failed? {
          return -1, taken;
        }
        if a.Blocks? {
          return 1, taken;
        }
        if a.Sent? {
          var n := Least(a.n, tx.len - tx.off);
          if n == 0 {
            return -1, taken;
          }
          assert all[taken..][n..] == all[taken + n..];
          tx.Consume(n);
          taken := taken + n;
        }
      }
      code := 0;
    }
  }

  // ---------------------------------------------------------------- sending

  /** What one call of send does: takes some bytes, is interrupted, blocks or fails. */
  datatype Answer = Sent(n: nat) | Interrupted | Blocks | Failed

  /** How many of the pending bytes go out, and the code returned; a socket with no further answer blocks. */
  function Sending(pending: bytes, answers: seq<Answer>): (nat, int)
    decreases |answers|
  {
    if |pending| == 0 then (0, 0)
    else if |answers| == 0 then (0, 1)
    else
      match answers[0]
      case Failed => (0, -1)
      case Blocks => (0, 1)
      case Interrupted => Sending(pending, answers[1..])
      case Sent(k) =>
        var n := Least(k, |pending|);
        if n == 0 then (0, -1) else (var r := Sending(pending[n..], answers[1..]); (n + r.0, r.1))
  }

  /** The code is 0 exactly when everything went out; whatever it is, what went out was pending. */
  lemma {:induction false} FlushCode(pending: bytes, answers: seq<Answer>)
    ensures var r := Sending(pending, answers); r.0 <= |pending| && (r.1 == 0 <==> r.0 == |pending|) && -1 <= r.1 <= 1
    decreases |answers|
  {
    if |pending| > 0 && |answers| > 0 {
      match answers[0]
      case Interrupted => FlushCode(pending, answers[1..]);
      case Sent(k) => FlushCode(pending[Least(k, |pending|)..], answers[1..]);
      case _ =>
    }
  }
}
