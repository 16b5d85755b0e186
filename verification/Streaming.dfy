/** Chunk streaming: what each client has, what is on its way, and what the world holds. */
module Streaming {
  import opened Bytes
  import opened Coordinates

  type Key = int

  /** A chunk as far as streaming sees it: the position it says it is at, and what is in it. */
  datatype Column = Column(x: int, z: int, content: int)

  function KeyOf(c: Column): Key {
    ChunkKey(c.x, c.z)
  }

  datatype Client = Client(loaded: set<Key>, inflight: set<Key>)

  /** A chunk job and, once it has run, its reply on the tick queue; a reply may come without a chunk. */
  datatype Ticket = Ticket(conn: nat, cx: int, cz: int, done: bool, column: Option<Column>)

  /** `used` are the connection ids handed out so far. */
  datatype State = State(world: map<Key, Column>, clients: map<nat, Client>, pending: seq<Ticket>, submits: nat,
                         used: set<nat>)

  const MAX_CHUNKS: nat := 1024
  const TICK_BUDGET: nat := 32

  // ---------------------------------------------------------------- asking

  /** One cell of RequestChunks with its SubmitChunkJob; the pool refuses the chunks in `refused`. */
  function Ask(s: State, conn: nat, cx: int, cz: int, refused: set<Key>): State
    requires conn in s.clients
  {
    var c, k := s.clients[conn], ChunkKey(cx, cz);
    if s.submits >= TICK_BUDGET || k in c.loaded || k in c.inflight || k in refused then s
    else
      s.(clients := s.clients[conn := c.(inflight := c.inflight + {k})],
         pending := s.pending + [Ticket(conn, cx, cz, false, None)],
         submits := s.submits + 1)
  }

  /** The rest of the square of radius r around (px, pz), row by row, from cell (dx, dz) on. */
  function AskFrom(s: State, conn: nat, px: int, pz: int, r: int, dz: int, dx: int, refused: set<Key>): (t: State)
    requires conn in s.clients && dx <= r + 1 && 0 <= r && dz <= r + 1
    ensures t.clients.Keys == s.clients.Keys
    decreases r + 1 - dz, r + 1 - dx
  {
    if dz > r then s
    else if dx > r then AskFrom(s, conn, px, pz, r, dz + 1, -r, refused)
    else AskFrom(Ask(s, conn, px + dx, pz + dz, refused), conn, px, pz, r, dz, dx + 1, refused)
  }

  function Radius(viewDistance: int): (r: int)
    ensures 1 <= r <= 8
  {
    if viewDistance < 1 then 1 else if viewDistance > 8 then 8 else viewDistance
  }

  /** RequestChunks. */
  function RequestChunks(s: State, conn: nat, x: real, z: real, viewDistance: int, refused: set<Key>): State
    requires conn in s.clients
  {
    var r := Radius(viewDistance);
    AskFrom(s, conn, FloorDiv16(x), FloorDiv16(z), r, -r, -r, refused)
  }

  // ---------------------------------------------------------------- replies

  /** What eviction must spare: the chunk just arrived and every chunk some client has. */
  predicate Kept(clients: map<nat, Client>, arrived: Key, k: Key) {
    k == arrived || exists conn :: conn in clients && k in clients[conn].loaded
  }

  /** What Evict may throw out, whatever the order of its walk: chunks not kept, no more than it takes to
      get down to the limit, and all of them if that is not enough. */
  ghost predicate MayEvict(world: map<Key, Column>, clients: map<nat, Client>, arrived: Key, evicted: set<Key>) {
    && (forall k | k in evicted :: k in world && !Kept(clients, arrived, k))
    && (|world| <= MAX_CHUNKS ==> evicted == {})
    && (evicted != {} ==> |world| - |evicted| >= MAX_CHUNKS)
    && (|world| - |evicted| > MAX_CHUNKS ==> forall k | k in world && k !in evicted :: Kept(clients, arrived, k))
  }

  function Without(ts: seq<Ticket>, i: nat): seq<Ticket>
    requires i < |ts|
  {
    ts[..i] + ts[i + 1..]
  }

  function Put(s: State, conn: nat, c: Client): State {
    s.(clients := s.clients[conn := c])
  }

  /** OnChunkReady on the i-th ticket; `sendable` says that the packet could be built. */
  function Ready(s: State, i: nat, sendable: bool, evicted: set<Key>): State
    requires i < |s.pending|
  {
    var m := s.pending[i];
    var t := s.(pending := Without(s.pending, i));
    var k := ChunkKey(m.cx, m.cz);
    if m.conn !in s.clients then t
    else
      var c := s.clients[m.conn].(inflight := s.clients[m.conn].inflight - {k});
      if m.column.None? || k in c.loaded then Put(t, m.conn, c)
      else
        var world := s.world[KeyOf(m.column.value) := m.column.value] - evicted;
        Put(t.(world := world), m.conn, if k in world && sendable then c.(loaded := c.loaded + {k}) else c)
  }

  /** The keys OnChunkReady has to choose from when it evicts. */
  ghost predicate ReadyEvicts(s: State, i: nat, evicted: set<Key>)
    requires i < |s.pending|
  {
    var m := s.pending[i];
    if m.conn !in s.clients || m.column.None? || ChunkKey(m.cx, m.cz) in s.clients[m.conn].loaded then evicted == {}
    else MayEvict(s.world[KeyOf(m.column.value) := m.column.value], s.clients, ChunkKey(m.cx, m.cz), evicted)
  }

  // ---------------------------------------------------------------- steps

  datatype Event =
    | Tick
    | Join(conn: nat)
    | Leave(conn: nat)
    | Request(conn: nat, x: real, z: real, viewDistance: int, refused: set<Key>)
    | Finish(i: nat, column: Option<Column>)
    | Arrive(i: nat, sendable: bool, evicted: set<Key>)
    | Edit(k: Key, content: int)

  ghost predicate Enabled(s: State, e: Event) {
    match e
    case Tick => true
    case Join(conn) => conn !in s.used
    case Leave(_) => true
    case Request(conn, _, _, _, _) => conn in s.clients
    case Finish(i, _) => i < |s.pending| && !s.pending[i].done
    case Arrive(i, _, evicted) => i < |s.pending| && s.pending[i].done && ReadyEvicts(s, i, evicted)
    case Edit(_, _) => true
  }

  function Step(s: State, e: Event): State {
    match e
    case Tick => s.(submits := 0)
    case Join(conn) => Put(s, conn, Client({}, {})).(used := s.used + {conn})
    case Leave(conn) => s.(clients := s.clients - {conn})
    case Request(conn, x, z, v, refused) => if conn in s.clients then RequestChunks(s, conn, x, z, v, refused) else s
    case Finish(i, column) =>
      if i < |s.pending| then s.(pending := s.pending[i := s.pending[i].(done := true, column := column)]) else s
    case Arrive(i, sendable, evicted) => if i < |s.pending| then Ready(s, i, sendable, evicted) else s
    // SetBlock: false, and no effect, where there is no chunk.
    case Edit(k, content) => if k in s.world then s.(world := s.world[k := s.world[k].(content := content)]) else s
  }

  const START := State(map[], map[], [], 0, {})

  function Steps(es: seq<Event>): State {
    if |es| == 0 then START else Step(Steps(es[..|es| - 1]), es[|es| - 1])
  }

  ghost predicate Possible(es: seq<Event>) {
    |es| > 0 ==> Possible(es[..|es| - 1]) && Enabled(Steps(es[..|es| - 1]), es[|es| - 1])
  }

  // ---------------------------------------------------------------- what every state keeps

  /** Jobs and replies under way for client conn and chunk k. */
  function Owed(ts: seq<Ticket>, conn: nat, k: Key): nat {
    if |ts| == 0 then 0
    else (if ts[0].conn == conn && ChunkKey(ts[0].cx, ts[0].cz) == k then 1 else 0) + Owed(ts[1..], conn, k)
  }

  ghost predicate ClientSafe(s: State, conn: nat)
    requires conn in s.clients
  {
    var c := s.clients[conn];
    && c.loaded !! c.inflight
    && c.loaded <= s.world.Keys
    && (forall k: Key :: Owed(s.pending, conn, k) == if k in c.inflight then 1 else 0)
  }

  /** No chunk both there and on its way; one job or reply for each chunk on its way and none for any
      other; every chunk a client has is in the world, under its own key; at most 32 jobs a tick. */
  ghost predicate Safe(s: State) {
    && (forall conn | conn in s.clients :: ClientSafe(s, conn))
    && (forall k | k in s.world :: KeyOf(s.world[k]) == k)
    && s.submits <= TICK_BUDGET
    && s.clients.Keys <= s.used
    && (forall i | 0 <= i < |s.pending| :: s.pending[i].conn in s.used)
  }

  lemma {:induction false} OwedOfMore(ts: seq<Ticket>, t: Ticket, conn: nat, k: Key)
    ensures Owed(ts + [t], conn, k) == Owed(ts, conn, k) + Owed([t], conn, k)
  {
    if |ts| > 0 {
      assert (ts + [t])[1..] == ts[1..] + [t];
      OwedOfMore(ts[1..], t, conn, k);
    } else {
      assert ts + [t] == [t];
    }
  }

  lemma {:induction false} OwedOfFewer(ts: seq<Ticket>, i: nat, conn: nat, k: Key)
    requires i < |ts|
    ensures Owed(Without(ts, i), conn, k) + Owed([ts[i]], conn, k) == Owed(ts, conn, k)
  {
    if i == 0 {
      assert Without(ts, 0) == ts[1..];
      assert [ts[0]][1..] == [];
    } else {
      assert Without(ts, i)[1..] == Without(ts[1..], i - 1);
      OwedOfFewer(ts[1..], i - 1, conn, k);
    }
  }

  lemma {:induction false} OwedOfDone(ts: seq<Ticket>, i: nat, t: Ticket, conn: nat, k: Key)
    requires i < |ts| && t.conn == ts[i].conn && t.cx == ts[i].cx && t.cz == ts[i].cz
    ensures Owed(ts[i := t], conn, k) == Owed(ts, conn, k)
  {
    if i == 0 {
      assert ts[i := t][1..] == ts[1..];
    } else {
      assert ts[i := t][1..] == ts[1..][i - 1 := t];
      OwedOfDone(ts[1..], i - 1, t, conn, k);
    }
  }

  lemma {:induction false} OwedToUsed(ts: seq<Ticket>, used: set<nat>, conn: nat, k: Key)
    requires conn !in used && forall i | 0 <= i < |ts| :: ts[i].conn in used
    ensures Owed(ts, conn, k) == 0
  {
    if |ts| > 0 {
      OwedToUsed(ts[1..], used, conn, k);
    }
  }

  lemma OwedOne(t: Ticket, conn: nat, k: Key)
    ensures Owed([t], conn, k) == if t.conn == conn && ChunkKey(t.cx, t.cz) == k then 1 else 0
  {
    assert [t][1..] == [];
  }

  lemma AskKeepsSafe(s: State, conn: nat, cx: int, cz: int, refused: set<Key>)
    requires Safe(s) && conn in s.clients
    ensures Safe(Ask(s, conn, cx, cz, refused))
  {
    hide ChunkKey, Owed;
    var t := Ask(s, conn, cx, cz, refused);
    if t != s {
      var ticket := Ticket(conn, cx, cz, false, None);
      forall a | a in t.clients ensures ClientSafe(t, a) {
        assert ClientSafe(s, a);
        forall k: Key ensures Owed(t.pending, a, k) == if k in t.clients[a].inflight then 1 else 0 {
          OwedOfMore(s.pending, ticket, a, k);
          OwedOne(ticket, a, k);
        }
      }
    }
  }

  lemma {:induction false} AskFromKeepsSafe(s: State, conn: nat, px: int, pz: int, r: int, dz: int, dx: int,
                                            refused: set<Key>)
    requires Safe(s) && conn in s.clients && dx <= r + 1 && 0 <= r && dz <= r + 1
    ensures Safe(AskFrom(s, conn, px, pz, r, dz, dx, refused))
    decreases r + 1 - dz, r + 1 - dx
  {
    hide Safe, Ask;
    if dz > r {
    } else if dx > r {
      AskFromKeepsSafe(s, conn, px, pz, r, dz + 1, -r, refused);
    } else {
      AskKeepsSafe(s, conn, px + dx, pz + dz, refused);
      AskKeepsClients(s, conn, px + dx, pz + dz, refused);
      AskFromKeepsSafe(Ask(s, conn, px + dx, pz + dz, refused), conn, px, pz, r, dz, dx + 1, refused);
    }
  }

  lemma AskKeepsClients(s: State, conn: nat, cx: int, cz: int, refused: set<Key>)
    requires conn in s.clients
    ensures Ask(s, conn, cx, cz, refused).clients.Keys == s.clients.Keys
  {
  }

  lemma ReadyKeepsSafe(s: State, i: nat, sendable: bool, evicted: set<Key>)
    requires Safe(s) && i < |s.pending| && ReadyEvicts(s, i, evicted)
    ensures Safe(Ready(s, i, sendable, evicted))
  {
    hide ChunkKey, Owed;
    var m, t := s.pending[i], Ready(s, i, sendable, evicted);
    forall a | a in t.clients ensures ClientSafe(t, a) {
      assert ClientSafe(s, a);
      forall k: Key ensures Owed(t.pending, a, k) == if k in t.clients[a].inflight then 1 else 0 {
        OwedOfFewer(s.pending, i, a, k);
        OwedOne(m, a, k);
      }
      forall k | k in t.clients[a].loaded ensures k in t.world {
        assert k in s.clients[a].loaded || k in t.world;
      }
    }
  }

  lemma StepKeepsSafe(s: State, e: Event)
    requires Safe(s) && Enabled(s, e)
    ensures Safe(Step(s, e))
  {
    hide ChunkKey, Owed, AskFrom, Ready, ReadyEvicts;
    var t := Step(s, e);
    match e
    case Request(conn, x, z, v, refused) =>
      AskFromKeepsSafe(s, conn, FloorDiv16(x), FloorDiv16(z), Radius(v), -Radius(v), -Radius(v), refused);
    case Arrive(i, sendable, evicted) =>
      ReadyKeepsSafe(s, i, sendable, evicted);
    case Tick =>
      forall a | a in t.clients ensures ClientSafe(t, a) {
        assert ClientSafe(s, a);
      }
    case Edit(_, _) =>
      forall a | a in t.clients ensures ClientSafe(t, a) {
        assert ClientSafe(s, a);
      }
      assert t.world.Keys == s.world.Keys;
    case Leave(_) =>
      forall a | a in t.clients ensures ClientSafe(t, a) {
        assert ClientSafe(s, a);
      }
    case Join(conn) =>
      forall a | a in t.clients ensures ClientSafe(t, a) {
        if a == conn {
          forall k: Key ensures Owed(t.pending, a, k) == 0 {
            OwedToUsed(s.pending, s.used, a, k);
          }
        } else {
          assert ClientSafe(s, a);
        }
      }
    case Finish(i, column) =>
      forall a | a in t.clients ensures ClientSafe(t, a) {
        assert ClientSafe(s, a);
        forall k: Key ensures Owed(t.pending, a, k) == Owed(s.pending, a, k) {
          OwedOfDone(s.pending, i, s.pending[i].(done := true, column := column), a, k);
        }
      }
  }

  /** Every state that any run of ticks, joins, leaves, requests, jobs and replies can reach is safe. */
  lemma {:induction false} RunIsSafe(es: seq<Event>)
    requires Possible(es)
    ensures Safe(Steps(es))
  {
    hide Safe, Enabled, Step;
    if |es| > 0 {
      RunIsSafe(es[..|es| - 1]);
      StepKeepsSafe(Steps(es[..|es| - 1]), es[|es| - 1]);
    } else {
      StartIsSafe();
    }
  }

  lemma StartIsSafe()
    ensures Safe(START)
  {
  }

  // ---------------------------------------------------------------- what a request does

  predicate OnlyMore(s: State, t: State, conn: nat)
    requires conn in s.clients
  {
    && conn in t.clients
    && t.clients[conn].loaded == s.clients[conn].loaded
    && t.clients[conn].inflight >= s.clients[conn].inflight
    && |t.pending| - |s.pending| == t.submits - s.submits >= 0
    && |t.clients[conn].inflight| - |s.clients[conn].inflight| == t.submits - s.submits
    && t == s.(clients := s.clients[conn := t.clients[conn]], pending := t.pending, submits := t.submits)
  }

  lemma AskAdds(s: State, conn: nat, cx: int, cz: int, refused: set<Key>)
    requires conn in s.clients
    ensures var t := Ask(s, conn, cx, cz, refused);
      var k := ChunkKey(cx, cz);
      OnlyMore(s, t, conn)
        && (k in t.clients[conn].loaded || k in t.clients[conn].inflight || k in refused || t.submits >= TICK_BUDGET)
  {
    hide ChunkKey;
  }

  /** A chunk of the square that is neither there nor on its way after a request was refused by the pool,
      or the tick's budget is spent. */
  lemma {:induction false} RequestCovers(s: State, conn: nat, px: int, pz: int, r: int, dz: int, dx: int,
                                         refused: set<Key>, x: int, z: int)
    requires conn in s.clients && -r <= dx <= r + 1 && 0 <= r && dz <= r + 1 && -r <= x <= r && dz <= z <= r
    requires (z == dz ==> dx <= x)
    ensures var t := AskFrom(s, conn, px, pz, r, dz, dx, refused);
      var k := ChunkKey(px + x, pz + z);
      k in t.clients[conn].loaded || k in t.clients[conn].inflight || k in refused || t.submits >= TICK_BUDGET
    decreases r + 1 - dz, r + 1 - dx
  {
    hide Ask;
    if dx > r {
      RequestCovers(s, conn, px, pz, r, dz + 1, -r, refused, x, z);
    } else {
      var t := Ask(s, conn, px + dx, pz + dz, refused);
      AskAdds(s, conn, px + dx, pz + dz, refused);
      if dz == z && dx == x {
        AskFromOnlyAdds(t, conn, px, pz, r, dz, dx + 1, refused);
      } else {
        RequestCovers(t, conn, px, pz, r, dz, dx + 1, refused, x, z);
      }
    }
  }

  /** A request only adds chunks under way, one new job for each; clients keep what they have. */
  lemma {:induction false} AskFromOnlyAdds(s: State, conn: nat, px: int, pz: int, r: int, dz: int, dx: int,
                                           refused: set<Key>)
    requires conn in s.clients && dx <= r + 1 && 0 <= r && dz <= r + 1
    ensures var t := AskFrom(s, conn, px, pz, r, dz, dx, refused);
      OnlyMore(s, t, conn)
    decreases r + 1 - dz, r + 1 - dx
  {
    hide Ask;
    if dz > r {
    } else if dx > r {
      AskFromOnlyAdds(s, conn, px, pz, r, dz + 1, -r, refused);
    } else {
      AskAdds(s, conn, px + dx, pz + dz, refused);
      AskFromOnlyAdds(Ask(s, conn, px + dx, pz + dz, refused), conn, px, pz, r, dz, dx + 1, refused);
    }
  }

  lemma {:induction false} NoBudgetNoJobs(s: State, conn: nat, px: int, pz: int, r: int, dz: int, dx: int,
                                          refused: set<Key>)
    requires conn in s.clients && dx <= r + 1 && 0 <= r && dz <= r + 1 && s.submits >= TICK_BUDGET
    ensures AskFrom(s, conn, px, pz, r, dz, dx, refused) == s
    decreases r + 1 - dz, r + 1 - dx
  {
    if dz > r {
    } else if dx > r {
      NoBudgetNoJobs(s, conn, px, pz, r, dz + 1, -r, refused);
    } else {
      NoBudgetNoJobs(s, conn, px, pz, r, dz, dx + 1, refused);
    }
  }

  // ---------------------------------------------------------------- what a reply does

  /** A reply gives the client its chunk exactly when it carries one, the packet can be built, and either
      the chunk says it is where it was asked for or the world already has one there. */
  lemma ReadyLoads(s: State, i: nat, sendable: bool, evicted: set<Key>)
    requires Safe(s) && i < |s.pending| && s.pending[i].conn in s.clients && ReadyEvicts(s, i, evicted)
    ensures var m, t := s.pending[i], Ready(s, i, sendable, evicted);
      var k := ChunkKey(m.cx, m.cz);
      && k !in t.clients[m.conn].inflight && Owed(t.pending, m.conn, k) == 0
      && (k in t.clients[m.conn].loaded <==> m.column.Some? && sendable && (KeyOf(m.column.value) == k || k in s.world))
  {
    hide ChunkKey, Owed;
    var m := s.pending[i];
    var k := ChunkKey(m.cx, m.cz);
    assert ClientSafe(s, m.conn);
    OwedOfFewer(s.pending, i, m.conn, k);
    OwedOne(m, m.conn, k);
  }

  /** After eviction the world is at its limit, or at what has to be kept if that is more. */
  lemma EvictionIsExact(world: map<Key, Column>, clients: map<nat, Client>, arrived: Key, evicted: set<Key>)
    requires MayEvict(world, clients, arrived, evicted)
    ensures var kept := set k | k in world && Kept(clients, arrived, k);
      |world - evicted| == if |world| <= 1024 then |world| else if |kept| > 1024 then |kept| else 1024
  {
    hide Kept;
    var kept := set k | k in world && Kept(clients, arrived, k);
    assert (world - evicted).Keys == world.Keys - evicted;
    assert |world| == |world.Keys| && |world - evicted| == |(world - evicted).Keys|;
    forall k | k in evicted ensures k in world.Keys {
      assert k in world;
    }
    Sizes(world.Keys, evicted);
    Sizes(world.Keys - evicted, kept);
    if |world| - |evicted| > MAX_CHUNKS {
      assert kept == world.Keys - evicted;
    }
  }

  lemma Sizes(a: set<Key>, b: set<Key>)
    requires b <= a
    ensures |a - b| == |a| - |b| >= 0
  {
  }

  /** What a reply does to the world: its chunk goes in, over whatever is there, and evicted chunks go. */
  lemma ReadyWorld(s: State, i: nat, sendable: bool, evicted: set<Key>, x: Key)
    requires i < |s.pending| && s.pending[i].conn in s.clients && ReadyEvicts(s, i, evicted)
    ensures var m, t := s.pending[i], Ready(s, i, sendable, evicted);
      var taken := m.column.Some? && ChunkKey(m.cx, m.cz) !in s.clients[m.conn].loaded;
      && (x in t.world <==> (x in s.world || (taken && x == KeyOf(m.column.value))) && x !in evicted)
      && (x in t.world ==> t.world[x] == if taken && x == KeyOf(m.column.value) then m.column.value else s.world[x])
  {
    hide ChunkKey;
  }
}
