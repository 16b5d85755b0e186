/** Which chunks a request asks for, and in which order, by the player's position. */
module View {
  import opened Bytes
  import opened Coordinates
  import opened Streaming

  /** The view distance counts as it is from 1 to 8, and as 1 or 8 below or above. */
  lemma RadiusIsClamped(v: int)
    ensures 1 <= v <= 8 ==> Radius(v) == v
    ensures v < 1 ==> Radius(v) == 1
    ensures v > 8 ==> Radius(v) == 8
  {
  }

  /** Coordinate v is in chunk row c or at most r rows away from it. */
  predicate Near(v: real, c: int, r: int) {
    16.0 * (c - r) as real <= v < 16.0 * (c + r + 1) as real
  }

  lemma NearIsClose(v: real, c: int, r: int)
    ensures Near(v, c, r) <==> FloorDiv16(v) - r <= c <= FloorDiv16(v) + r
  {
    hide FloorDiv16;
    var f := FloorDiv16(v);
    FloorDivRoundsDown(v);
    if f - r <= c {
      assert 16.0 * f as real <= 16.0 * (c + r) as real;
    } else {
      assert 16.0 * (c + r + 1) as real <= 16.0 * f as real;
    }
    if c <= f + r {
      assert 16.0 * (c - r) as real <= 16.0 * f as real;
    } else {
      assert 16.0 * (f + 1) as real <= 16.0 * (c - r) as real;
    }
  }

  /** Cell (ax, az) comes before cell (bx, bz): rows from the lowest z on, and in a row from the lowest x on. */
  predicate Before(ax: int, az: int, bx: int, bz: int) {
    az < bz || (az == bz && ax < bx)
  }

  /** A cell of the square that is not before (px + dx, pz + dz). */
  predicate Ahead(px: int, pz: int, r: int, dz: int, dx: int, cx: int, cz: int) {
    px - r <= cx <= px + r && pz - r <= cz <= pz + r && !Before(cx, cz, px + dx, pz + dz)
  }

  predicate Covered(t: State, conn: nat, refused: set<Key>, cx: int, cz: int)
    requires conn in t.clients
  {
    var k := ChunkKey(cx, cz);
    k in t.clients[conn].loaded || k in t.clients[conn].inflight || k in refused
  }

  /** The i-th ticket of t is a new job, for a chunk that client conn neither had nor waited for, and that the pool
      did not refuse; all cells of the square before it are taken care of. */
  ghost predicate Fresh(s: State, t: State, conn: nat, px: int, pz: int, r: int, dz: int, dx: int,
                        refused: set<Key>, i: nat)
    requires conn in s.clients && conn in t.clients && i < |t.pending|
  {
    var m := t.pending[i];
    var k := ChunkKey(m.cx, m.cz);
    && m == Ticket(conn, m.cx, m.cz, false, None)
    && Ahead(px, pz, r, dz, dx, m.cx, m.cz)
    && k !in s.clients[conn].loaded && k !in s.clients[conn].inflight && k !in refused
    && k in t.clients[conn].inflight
    && forall cx, cz | Ahead(px, pz, r, dz, dx, cx, cz) && Before(cx, cz, m.cx, m.cz) ::
         Covered(t, conn, refused, cx, cz)
  }

  /** From s to t: new tickets behind the old ones, in the order of their cells, one for each key newly in flight. */
  ghost predicate Asked(s: State, t: State, conn: nat, px: int, pz: int, r: int, dz: int, dx: int, refused: set<Key>)
    requires conn in s.clients
  {
    && conn in t.clients && s.pending <= t.pending
    && (forall i | |s.pending| <= i < |t.pending| :: Fresh(s, t, conn, px, pz, r, dz, dx, refused, i))
    && (forall i, j | |s.pending| <= i < j < |t.pending| ::
          Before(t.pending[i].cx, t.pending[i].cz, t.pending[j].cx, t.pending[j].cz))
    && (forall k | k in t.clients[conn].inflight && k !in s.clients[conn].inflight :: NewKey(s, t, k))
  }

  predicate NewKey(s: State, t: State, k: Key) {
    exists i :: |s.pending| <= i < |t.pending| && ChunkKey(t.pending[i].cx, t.pending[i].cz) == k
  }

  lemma NothingAsked(s: State, conn: nat, px: int, pz: int, r: int, dz: int, dx: int, refused: set<Key>)
    requires conn in s.clients
    ensures Asked(s, s, conn, px, pz, r, dz, dx, refused)
  {
  }

  /** From one row's end to the next row's start. */
  lemma NextRow(s: State, t: State, conn: nat, px: int, pz: int, r: int, dz: int, dx: int, refused: set<Key>)
    requires conn in s.clients && dx > r && Asked(s, t, conn, px, pz, r, dz + 1, -r, refused)
    ensures Asked(s, t, conn, px, pz, r, dz, dx, refused)
  {
    hide ChunkKey, Covered;
    forall i | |s.pending| <= i < |t.pending| ensures Fresh(s, t, conn, px, pz, r, dz, dx, refused, i) {
      assert Fresh(s, t, conn, px, pz, r, dz + 1, -r, refused, i);
    }
  }

  /** One cell, and then the rest. */
  lemma NextCell(s: State, t: State, u: State, conn: nat, px: int, pz: int, r: int, dz: int, dx: int,
                 refused: set<Key>)
    requires conn in s.clients && -r <= dx <= r && -r <= dz <= r
    requires t == Ask(s, conn, px + dx, pz + dz, refused) && Asked(t, u, conn, px, pz, r, dz, dx + 1, refused)
    requires OnlyMore(t, u, conn) && (t.submits >= TICK_BUDGET ==> u == t)
    ensures Asked(s, u, conn, px, pz, r, dz, dx, refused)
  {
    hide ChunkKey, Ask, Fresh, OnlyMore;
    AskIs(s, conn, px + dx, pz + dz, refused);
    forall i | |s.pending| <= i < |u.pending| ensures Fresh(s, u, conn, px, pz, r, dz, dx, refused, i) {
      FreshStays(s, t, u, conn, px, pz, r, dz, dx, refused, i);
    }
    forall i, j | |s.pending| <= i < j < |u.pending|
      ensures Before(u.pending[i].cx, u.pending[i].cz, u.pending[j].cx, u.pending[j].cz)
    {
      FreshIsAhead(t, u, conn, px, pz, r, dz, dx + 1, refused, j);
    }
    forall k | k in u.clients[conn].inflight && k !in s.clients[conn].inflight ensures NewKey(s, u, k) {
      if k in t.clients[conn].inflight {
        assert ChunkKey(u.pending[|s.pending|].cx, u.pending[|s.pending|].cz) == k;
      } else {
        assert NewKey(t, u, k);
      }
    }
  }

  lemma FreshIsAhead(s: State, t: State, conn: nat, px: int, pz: int, r: int, dz: int, dx: int,
                     refused: set<Key>, i: nat)
    requires conn in s.clients && conn in t.clients && i < |t.pending|
    requires Fresh(s, t, conn, px, pz, r, dz, dx, refused, i)
    ensures Ahead(px, pz, r, dz, dx, t.pending[i].cx, t.pending[i].cz)
  {
  }

  lemma FreshStays(s: State, t: State, u: State, conn: nat, px: int, pz: int, r: int, dz: int, dx: int,
                   refused: set<Key>, i: nat)
    requires conn in s.clients && -r <= dx <= r && -r <= dz <= r && |s.pending| <= i < |u.pending|
    requires t == Ask(s, conn, px + dx, pz + dz, refused) && conn in t.clients && conn in u.clients
    requires t.pending <= u.pending && (i < |t.pending| || Fresh(t, u, conn, px, pz, r, dz, dx + 1, refused, i))
    requires OnlyMore(t, u, conn) && (t.submits >= TICK_BUDGET ==> u == t)
    ensures Fresh(s, u, conn, px, pz, r, dz, dx, refused, i)
  {
    hide ChunkKey, Ask;
    AskAdds(s, conn, px + dx, pz + dz, refused);
    AskIs(s, conn, px + dx, pz + dz, refused);
  }

  /** One cell: a ticket behind the others, or nothing. */
  lemma AskIs(s: State, conn: nat, cx: int, cz: int, refused: set<Key>)
    requires conn in s.clients
    ensures var t, k := Ask(s, conn, cx, cz, refused), ChunkKey(cx, cz);
      && conn in t.clients && t.clients[conn].loaded == s.clients[conn].loaded
      && if t == s then true
         else
           && k !in s.clients[conn].loaded && k !in s.clients[conn].inflight && k !in refused
           && t.pending == s.pending + [Ticket(conn, cx, cz, false, None)]
           && t.clients[conn].inflight == s.clients[conn].inflight + {k}
  {
    hide ChunkKey;
  }

  lemma {:induction false} AskFromAsks(s: State, conn: nat, px: int, pz: int, r: int, dz: int, dx: int,
                                       refused: set<Key>)
    requires conn in s.clients && 0 <= r && -r <= dx <= r + 1 && -r <= dz <= r + 1
    ensures Asked(s, AskFrom(s, conn, px, pz, r, dz, dx, refused), conn, px, pz, r, dz, dx, refused)
    decreases r + 1 - dz, r + 1 - dx
  {
    hide Ask, Asked;
    if dz > r {
      NothingAsked(s, conn, px, pz, r, dz, dx, refused);
    } else if dx > r {
      AskFromAsks(s, conn, px, pz, r, dz + 1, -r, refused);
      NextRow(s, AskFrom(s, conn, px, pz, r, dz + 1, -r, refused), conn, px, pz, r, dz, dx, refused);
    } else {
      var t := Ask(s, conn, px + dx, pz + dz, refused);
      AskKeepsClients(s, conn, px + dx, pz + dz, refused);
      var u := AskFrom(t, conn, px, pz, r, dz, dx + 1, refused);
      AskFromAsks(t, conn, px, pz, r, dz, dx + 1, refused);
      AskFromOnlyAdds(t, conn, px, pz, r, dz, dx + 1, refused);
      if t.submits >= TICK_BUDGET {
        NoBudgetNoJobs(t, conn, px, pz, r, dz, dx + 1, refused);
      }
      NextCell(s, t, u, conn, px, pz, r, dz, dx, refused);
    }
  }

  // ---------------------------------------------------------------- by position

  /** A request takes care of every chunk within reach of the player's position, or spends the tick's 32 jobs. */
  lemma RequestCoversView(s: State, conn: nat, x: real, z: real, v: int, refused: set<Key>, cx: int, cz: int)
    requires conn in s.clients && Near(x, cx, Radius(v)) && Near(z, cz, Radius(v))
    ensures var t := Step(s, Request(conn, x, z, v, refused));
      conn in t.clients && (Covered(t, conn, refused, cx, cz) || t.submits >= 32)
  {
    hide ChunkKey, FloorDiv16, AskFrom, Near;
    NearIsClose(x, cx, Radius(v));
    NearIsClose(z, cz, Radius(v));
    var px, pz, r := FloorDiv16(x), FloorDiv16(z), Radius(v);
    RequestCovers(s, conn, px, pz, r, -r, -r, refused, cx - px, cz - pz);
    assert px + (cx - px) == cx && pz + (cz - pz) == cz;
  }

  /** The i-th ticket is a job that the request submitted. */
  ghost predicate Wanted(s: State, t: State, conn: nat, x: real, z: real, v: int, refused: set<Key>, i: nat)
    requires conn in s.clients && conn in t.clients && i < |t.pending|
  {
    var m := t.pending[i];
    var k := ChunkKey(m.cx, m.cz);
    && m == Ticket(conn, m.cx, m.cz, false, None)
    && Near(x, m.cx, Radius(v)) && Near(z, m.cz, Radius(v))
    && k !in s.clients[conn].loaded && k !in s.clients[conn].inflight && k !in refused
    && k in t.clients[conn].inflight
    && forall cx, cz | Near(x, cx, Radius(v)) && Near(z, cz, Radius(v)) && Before(cx, cz, m.cx, m.cz) ::
         Covered(t, conn, refused, cx, cz)
  }

  /** And it asks for nothing else: its new jobs are for chunks within reach that the client neither had nor waited
      for, row by row, none before all earlier ones are taken care of; the keys newly in flight are theirs; and the
      budget never goes above 32. */
  lemma RequestAsksInView(s: State, conn: nat, x: real, z: real, v: int, refused: set<Key>)
    requires conn in s.clients
    ensures var t := Step(s, Request(conn, x, z, v, refused));
      && conn in t.clients && s.pending <= t.pending && t.submits == s.submits + |t.pending| - |s.pending|
      && (s.submits <= 32 ==> t.submits <= 32)
      && t == s.(clients := s.clients[conn := t.clients[conn]], pending := t.pending, submits := t.submits)
      && t.clients[conn].loaded == s.clients[conn].loaded
      && (forall i | |s.pending| <= i < |t.pending| :: Wanted(s, t, conn, x, z, v, refused, i))
      && (forall i, j | |s.pending| <= i < j < |t.pending| ::
            Before(t.pending[i].cx, t.pending[i].cz, t.pending[j].cx, t.pending[j].cz))
      && (forall k | k in t.clients[conn].inflight && k !in s.clients[conn].inflight :: NewKey(s, t, k))
      && s.clients[conn].inflight <= t.clients[conn].inflight
  {
    hide ChunkKey, FloorDiv16, AskFrom, Near, Covered;
    var px, pz, r := FloorDiv16(x), FloorDiv16(z), Radius(v);
    var t := AskFrom(s, conn, px, pz, r, -r, -r, refused);
    AskFromAsks(s, conn, px, pz, r, -r, -r, refused);
    AskFromOnlyAdds(s, conn, px, pz, r, -r, -r, refused);
    BudgetHolds(s, conn, px, pz, r, -r, -r, refused);
    forall i | |s.pending| <= i < |t.pending| ensures Wanted(s, t, conn, x, z, v, refused, i) {
      assert Fresh(s, t, conn, px, pz, r, -r, -r, refused, i);
      var m := t.pending[i];
      InView(x, z, v, m.cx, m.cz);
      forall cx, cz | Near(x, cx, Radius(v)) && Near(z, cz, Radius(v)) && Before(cx, cz, m.cx, m.cz)
        ensures Covered(t, conn, refused, cx, cz)
      {
        InView(x, z, v, cx, cz);
      }
    }
  }

  lemma InView(x: real, z: real, v: int, cx: int, cz: int)
    ensures var r := Radius(v);
      Near(x, cx, Radius(v)) && Near(z, cz, Radius(v)) <==> Ahead(FloorDiv16(x), FloorDiv16(z), r, -r, -r, cx, cz)
  {
    hide FloorDiv16, Near;
    NearIsClose(x, cx, Radius(v));
    NearIsClose(z, cz, Radius(v));
  }

  lemma {:induction false} BudgetHolds(s: State, conn: nat, px: int, pz: int, r: int, dz: int, dx: int,
                                       refused: set<Key>)
    requires conn in s.clients && dx <= r + 1 && 0 <= r && dz <= r + 1
    ensures s.submits <= 32 ==> AskFrom(s, conn, px, pz, r, dz, dx, refused).submits <= 32
    decreases r + 1 - dz, r + 1 - dx
  {
    hide ChunkKey;
    if dz > r {
    } else if dx > r {
      BudgetHolds(s, conn, px, pz, r, dz + 1, -r, refused);
    } else {
      BudgetHolds(Ask(s, conn, px + dx, pz + dz, refused), conn, px, pz, r, dz, dx + 1, refused);
    }
  }

  // ---------------------------------------------------------------- the other steps

  /** A tick gives the budget back; a new client has nothing and waits for nothing; one that leaves takes nothing with
      it; a job that is done gets its result. Nothing else changes. */
  lemma OtherSteps(s: State, conn: nat, i: nat, c: Option<Column>)
    ensures Step(s, Tick) == s.(submits := 0)
    ensures Enabled(s, Join(conn)) <==> conn !in s.used
    ensures Step(s, Join(conn)) == s.(clients := s.clients[conn := Client({}, {})], used := s.used + {conn})
    ensures Step(s, Leave(conn)).clients.Keys == s.clients.Keys - {conn}
    ensures forall a | a in s.clients && a != conn :: Step(s, Leave(conn)).clients[a] == s.clients[a]
    ensures Step(s, Leave(conn)) == s.(clients := Step(s, Leave(conn)).clients)
    ensures i < |s.pending| ==>
      Step(s, Finish(i, c)) == s.(pending := s.pending[i := s.pending[i].(done := true, column := c)])
  {
  }

  /** A reply takes its ticket off the queue and its key out of what its client waits for; no other client, no other
      key of its client and no other ticket is touched. */
  lemma ReplyLeavesTheRest(s: State, i: nat, sendable: bool, evicted: set<Key>, a: nat, k: Key)
    requires i < |s.pending|
    ensures var t, m := Step(s, Arrive(i, sendable, evicted)), s.pending[i];
      && t.pending == s.pending[..i] + s.pending[i + 1..] && t.submits == s.submits && t.used == s.used
      && t.clients.Keys == s.clients.Keys
      && (a in s.clients && a != m.conn ==> t.clients[a] == s.clients[a])
      && (a in s.clients && k != ChunkKey(m.cx, m.cz) ==>
            (k in t.clients[a].loaded <==> k in s.clients[a].loaded)
            && (k in t.clients[a].inflight <==> k in s.clients[a].inflight))
      && (m.conn !in s.clients ==> t.world == s.world)
  {
    hide ChunkKey, KeyOf;
  }
}
