/** Chunk streaming as server.cpp runs it: players, jobs and the world's chunk table updated in place. */
module ChunkServer {
  import opened Bytes
  import opened Coordinates
  import opened Streaming

  class Server {
    var chunks: map<Key, Column>
    var players: map<nat, Client>
    var pending: seq<Ticket>
    var submitsThisTick: nat
    ghost var used: set<nat>

    constructor ()
      ensures Valid() && Now() == START
    {
      chunks, players, pending, submitsThisTick, used := map[], map[], [], 0, {};
      new;
      StartIsSafe();
    }

    ghost function Now(): State
      reads this
    {
      State(chunks, players, pending, submitsThisTick, used)
    }

    ghost predicate Valid()
      reads this
    {
      Safe(Now())
    }

    method NewTick()
      requires Valid()
      modifies this`submitsThisTick
      ensures Valid() && Now() == Step(old(Now()), Tick)
    {
      StepKeepsSafe(Now(), Tick);
      submitsThisTick := 0;
    }

    method AddPlayer(conn: nat)
      requires Valid() && conn !in used
      modifies this`players, this`used
      ensures Valid() && Now() == Step(old(Now()), Join(conn))
    {
      StepKeepsSafe(Now(), Join(conn));
      players := players[conn := Client({}, {})];
      used := used + {conn};
    }

    method RemovePlayer(conn: nat)
      requires Valid()
      modifies this`players
      ensures Valid() && Now() == Step(old(Now()), Leave(conn))
    {
      StepKeepsSafe(Now(), Leave(conn));
      if conn !in players {
        assert players - {conn} == players;
        return;
      }
      players := players - {conn};
    }

    /** The key is already among those on their way; it is taken out again when the pool will not have it. */
    method SubmitChunkJob(conn: nat, cx: int, cz: int, refused: set<Key>)
      requires conn in players
      modifies this`players, this`pending, this`submitsThisTick
      ensures var k := ChunkKey(cx, cz);
        if k in refused then
          Now() == old(Now()).(
            clients := old(players)[conn := old(players)[conn].(inflight := old(players)[conn].inflight - {k})])
        else
          Now() == old(Now()).(
            pending := old(pending) + [Ticket(conn, cx, cz, false, None)],
            submits := old(submitsThisTick) + 1)
    {
      var k := ChunkKey(cx, cz);
      if k in refused {
        var p := players[conn];
        players := players[conn := p.(inflight := p.inflight - {k})];
        return;
      }
      pending := pending + [Ticket(conn, cx, cz, false, None)];
      submitsThisTick := submitsThisTick + 1;
    }

    method RequestCell(conn: nat, cx: int, cz: int, refused: set<Key>)
      requires conn in players && submitsThisTick < TICK_BUDGET
      modifies this`players, this`pending, this`submitsThisTick
      ensures Now() == Ask(old(Now()), conn, cx, cz, refused)
    {
      hide ChunkKey;
      var k := ChunkKey(cx, cz);
      var p := players[conn];
      if k in p.loaded || k in p.inflight {
        return;
      }
      players := players[conn := p.(inflight := p.inflight + {k})];
      SubmitChunkJob(conn, cx, cz, refused);
      assert k in refused ==> players == old(players) by {
        assert p.inflight + {k} - {k} == p.inflight;
      }
    }

    method RequestChunks(conn: nat, x: real, z: real, viewDistance: int, refused: set<Key>)
      requires Valid() && conn in players
      modifies this`players, this`pending, this`submitsThisTick
      ensures Valid() && Now() == Step(old(Now()), Request(conn, x, z, viewDistance, refused))
    {
      hide AskFrom, Safe, FloorDiv16;
      ghost var s := Now();
      var pcx, pcz := FloorDiv16(x), FloorDiv16(z);
      var r := if viewDistance < 1 then 1 else if viewDistance > 8 then 8 else viewDistance;
      StepKeepsSafe(s, Request(conn, x, z, viewDistance, refused));
      ghost var goal := Streaming.RequestChunks(s, conn, x, z, viewDistance, refused);
      var dz := -r;
      while dz <= r
        invariant -r <= dz <= r + 1 && conn in players
        invariant AskFrom(Now(), conn, pcx, pcz, r, dz, -r, refused) == goal
      {
        var more := RequestRow(conn, pcx, pcz, r, dz, refused);
        if !more {
          NoBudgetNoJobs(Now(), conn, pcx, pcz, r, dz + 1, -r, refused);
          return;
        }
        dz := dz + 1;
      }
      NoRowsLeft(Now(), conn, pcx, pcz, r, refused);
    }

    /** One row of the square; whether there is budget left to go on. */
    method RequestRow(conn: nat, pcx: int, pcz: int, r: int, dz: int, refused: set<Key>) returns (more: bool)
      requires conn in players && 0 <= r && -r <= dz <= r
      modifies this`players, this`pending, this`submitsThisTick
      ensures conn in players && (!more ==> submitsThisTick >= TICK_BUDGET)
      ensures AskFrom(Now(), conn, pcx, pcz, r, dz + 1, -r, refused) ==
        old(AskFrom(Now(), conn, pcx, pcz, r, dz, -r, refused))
    {
      hide Ask;
      ghost var goal := AskFrom(Now(), conn, pcx, pcz, r, dz, -r, refused);
      var dx := -r;
      while dx <= r
        invariant -r <= dx <= r + 1 && conn in players
        invariant AskFrom(Now(), conn, pcx, pcz, r, dz, dx, refused) == goal
      {
        if submitsThisTick >= TICK_BUDGET {
          NoBudgetNoJobs(Now(), conn, pcx, pcz, r, dz, dx, refused);
          NoBudgetNoJobs(Now(), conn, pcx, pcz, r, dz + 1, -r, refused);
          return false;
        }
        AskKeepsClients(Now(), conn, pcx + dx, pcz + dz, refused);
        RequestCell(conn, pcx + dx, pcz + dz, refused);
        dx := dx + 1;
      }
      more := true;
    }

    /** SetBlock, as far as streaming sees it: the content of the chunk under k changes, if there is one. */
    method SetContent(k: Key, content: int) returns (ok: bool)
      requires Valid()
      modifies this`chunks
      ensures Valid() && ok == (k in old(chunks)) && Now() == Step(old(Now()), Edit(k, content))
    {
      StepKeepsSafe(Now(), Edit(k, content));
      if k !in chunks {
        return false;
      }
      chunks := chunks[k := chunks[k].(content := content)];
      ok := true;
    }

    /** Walks the table in whatever order it comes; what was thrown out. */
    method Evict(keep: set<Key>) returns (n: nat, ghost gone: set<Key>)
      modifies this`chunks
      ensures chunks == old(chunks) - gone && n == |gone| && gone <= old(chunks).Keys && gone !! keep
      ensures |old(chunks)| <= MAX_CHUNKS ==> gone == {}
      ensures gone != {} ==> |chunks| >= MAX_CHUNKS
      ensures |chunks| > MAX_CHUNKS ==> chunks.Keys <= keep
    {
      n, gone := 0, {};
      var todo := chunks.Keys;
      assert chunks - gone == chunks;
      while |todo| > 0 && |chunks| > MAX_CHUNKS
        invariant todo <= chunks.Keys && chunks.Keys - todo <= keep
        invariant chunks == old(chunks) - gone && n == |gone| && gone <= old(chunks).Keys && gone !! keep
        invariant |old(chunks)| <= MAX_CHUNKS ==> gone == {}
        invariant gone != {} ==> |chunks| >= MAX_CHUNKS
        decreases |todo|
      {
        SomeKey(todo);
        var k :| k in todo;
        todo := todo - {k};
        if k !in keep {
          ghost var was := chunks;
          chunks := chunks - {k};
          OneKeyLess(was, k);
          gone := gone + {k};
          n := n + 1;
        }
      }
    }

    /** The chunk just arrived and everything some player has. */
    method KeepSet(k: Key) returns (keep: set<Key>)
      ensures forall x: Key :: x in keep <==> Kept(players, k, x)
    {
      keep := {k};
      var todo := players.Keys;
      while todo != {}
        invariant todo <= players.Keys
        invariant forall x: Key :: x in keep <==>
          x == k || exists conn :: conn in players && conn !in todo && x in players[conn].loaded
        decreases |todo|
      {
        var conn :| conn in todo;
        todo := todo - {conn};
        keep := keep + players[conn].loaded;
      }
    }

    /** Puts a chunk in the table and evicts what nobody uses. */
    method Adopt(c: Column, k: Key) returns (ghost evicted: set<Key>)
      modifies this`chunks
      ensures chunks == old(chunks)[KeyOf(c) := c] - evicted
      ensures MayEvict(old(chunks)[KeyOf(c) := c], players, k, evicted)
    {
      hide KeyOf, Kept, MayEvict;
      chunks := chunks[KeyOf(c) := c];
      ghost var adopted := chunks;
      var keep := KeepSet(k);
      var n;
      n, evicted := Evict(keep);
      ChosenFromAll(adopted, players, k, keep, evicted, chunks);
    }

    /** OnChunkReady on the i-th ticket: the chunk sent to the player, and what was evicted. */
    method OnChunkReady(i: nat, sendable: bool) returns (sent: Option<Column>, ghost evicted: set<Key>)
      requires Valid() && i < |pending| && pending[i].done
      modifies this`chunks, this`players, this`pending
      ensures Valid() && Enabled(old(Now()), Arrive(i, sendable, evicted))
      ensures Now() == Step(old(Now()), Arrive(i, sendable, evicted))
      ensures var m := old(pending)[i];
        var k := ChunkKey(m.cx, m.cz);
        sent.Some? <==> m.conn in players && k in players[m.conn].loaded && k !in old(players)[m.conn].loaded
      ensures var k := ChunkKey(old(pending)[i].cx, old(pending)[i].cz);
        sent.Some? ==> k in chunks && sent.value == chunks[k]
    {
      hide Safe, ChunkKey, Kept, MayEvict;
      ghost var s := Now();
      var m := pending[i];
      pending := pending[..i] + pending[i + 1..];
      var k := ChunkKey(m.cx, m.cz);
      sent, evicted := None, {};
      if m.conn !in players {
        StepKeepsSafe(s, Arrive(i, sendable, evicted));
        return;
      }
      var p := players[m.conn];
      p := p.(inflight := p.inflight - {k});
      players := players[m.conn := p];
      if m.column.None? || k in p.loaded {
        StepKeepsSafe(s, Arrive(i, sendable, evicted));
        return;
      }
      evicted := Adopt(m.column.value, k);
      SpareTheSame(s.clients, players, k);
      SameChoice(s.world[KeyOf(m.column.value) := m.column.value], s.clients, players, k, evicted);
      StepKeepsSafe(s, Arrive(i, sendable, evicted));
      if k !in chunks || !sendable {
        return;
      }
      sent := Some(chunks[k]);
      players := players[m.conn := p.(loaded := p.loaded + {k})];
      assert Now() == Step(s, Arrive(i, sendable, evicted));
    }
  }

  lemma SpareTheSame(a: map<nat, Client>, b: map<nat, Client>, k: Key)
    requires a.Keys == b.Keys && forall conn | conn in a :: a[conn].loaded == b[conn].loaded
    ensures forall x: Key :: Kept(a, k, x) <==> Kept(b, k, x)
  {
  }

  lemma NoRowsLeft(s: State, conn: nat, px: int, pz: int, r: int, refused: set<Key>)
    requires conn in s.clients && 0 <= r
    ensures AskFrom(s, conn, px, pz, r, r + 1, -r, refused) == s
  {
  }

  lemma OneKeyLess(world: map<Key, Column>, k: Key)
    requires k in world
    ensures |world - {k}| == |world| - 1
  {
    var less := world - {k};
    assert less.Keys == world.Keys - {k};
    assert |less| == |less.Keys| && |world| == |world.Keys|;
  }

  lemma SomeKey(ks: set<Key>)
    ensures |ks| > 0 ==> exists k :: k in ks
  {
    if forall k :: k !in ks {
      assert ks == {};
    }
  }

  lemma SameChoice(world: map<Key, Column>, a: map<nat, Client>, b: map<nat, Client>, k: Key, evicted: set<Key>)
    requires MayEvict(world, b, k, evicted) && forall x: Key :: Kept(a, k, x) <==> Kept(b, k, x)
    ensures MayEvict(world, a, k, evicted)
  {
    hide Kept;
  }

  lemma ChosenFromAll(world: map<Key, Column>, clients: map<nat, Client>, k: Key, keep: set<Key>, gone: set<Key>,
                      left: map<Key, Column>)
    requires left == world - gone && gone <= world.Keys && gone !! keep
    requires |world| <= MAX_CHUNKS ==> gone == {}
    requires gone != {} ==> |left| >= MAX_CHUNKS
    requires |left| > MAX_CHUNKS ==> left.Keys <= keep
    requires forall x: Key :: x in keep <==> Kept(clients, k, x)
    ensures MayEvict(world, clients, k, gone)
  {
    hide Kept;
    assert left.Keys == world.Keys - gone;
    Sizes(world.Keys, gone);
    assert |left| == |left.Keys| && |world| == |world.Keys|;
  }
}
