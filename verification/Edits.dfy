/** What becomes of edits to a chunk while replies for it still arrive: over whole runs, exactly when they
    survive, and a run in which one does not. */
module Edits {
  import opened Bytes
  import opened Coordinates
  import opened Streaming

  /** The column the world has under k. */
  function Look(s: State, k: Key): Option<Column> {
    if k in s.world then Some(s.world[k]) else None
  }

  /** The reply's chunk is taken: it carries one, and its client is there and does not have it yet. */
  predicate Taken(s: State, i: nat) {
    && i < |s.pending|
    && var m := s.pending[i];
    m.conn in s.clients && m.column.Some? && ChunkKey(m.cx, m.cz) !in s.clients[m.conn].loaded
  }

  /** What an event says about k: nothing, that it is gone, or that it is such a column. */
  datatype Word = Silent | Gone | Now(c: Column)

  function Says(s: State, e: Event, k: Key): Word {
    match e
    case Edit(l, content) => if l == k && k in s.world then Now(s.world[k].(content := content)) else Silent
    case Arrive(i, _, evicted) =>
      if !Taken(s, i) then Silent
      else if k in evicted then Gone
      else if KeyOf(s.pending[i].column.value) == k then Now(s.pending[i].column.value)
      else Silent
    case _ => Silent
  }

  /** An event leaves k as it says, and as it was when it says nothing. */
  lemma StepAsSaid(s: State, e: Event, k: Key)
    requires Enabled(s, e)
    ensures Look(Step(s, e), k) ==
      if Says(s, e, k).Silent? then Look(s, k) else if Says(s, e, k).Gone? then None else Some(Says(s, e, k).c)
  {
    hide AskFrom, ChunkKey;
    match e
    case Arrive(i, sendable, evicted) =>
      if s.pending[i].conn in s.clients {
        ReadyWorld(s, i, sendable, evicted, k);
      }
    case Request(conn, x, z, v, refused) =>
      AskFromOnlyAdds(s, conn, FloorDiv16(x), FloorDiv16(z), Radius(v), -Radius(v), -Radius(v), refused);
    case _ =>
  }

  /** k is unchanged by an event exactly when the event neither edits it to something else, nor is a taken
      reply that evicts it or carries a different column for it. */
  predicate Spares(s: State, e: Event, k: Key) {
    match Says(s, e, k)
    case Silent => true
    case Gone => k !in s.world
    case Now(c) => k in s.world && s.world[k] == c
  }

  lemma SparedIsUnchanged(s: State, e: Event, k: Key)
    requires Enabled(s, e)
    ensures Look(Step(s, e), k) == Look(s, k) <==> Spares(s, e, k)
  {
    hide Step, Says;
    StepAsSaid(s, e, k);
  }

  // ---------------------------------------------------------------- over runs

  function Before(es: seq<Event>): (r: seq<Event>)
    requires |es| > 0
    ensures |r| == |es| - 1
  {
    es[..|es| - 1]
  }

  /** What the run last said about k: the column of the last edit or taken reply for k since k was last gone. */
  function LastWord(es: seq<Event>, k: Key): Option<Column>
    decreases |es|
  {
    if |es| == 0 then None
    else
      var w := Says(Steps(Before(es)), es[|es| - 1], k);
      if w.Silent? then LastWord(Before(es), k) else if w.Gone? then None else Some(w.c)
  }

  /** After every run the world has under k exactly what was last said about k. */
  lemma {:induction false} WorldIsTheLastWord(es: seq<Event>, k: Key)
    requires Possible(es)
    ensures Look(Steps(es), k) == LastWord(es, k)
    decreases |es|
  {
    hide Step, Says, Enabled;
    if |es| > 0 {
      WorldIsTheLastWord(Before(es), k);
      StepAsSaid(Steps(Before(es)), es[|es| - 1], k);
    }
  }

  /** Every event from the p-th on spares k. */
  predicate SparedSince(es: seq<Event>, p: nat, k: Key)
    decreases |es|
  {
    |es| > p ==> SparedSince(Before(es), p, k) && Spares(Steps(Before(es)), es[|es| - 1], k)
  }

  /** k has held one column ever since the first p events. */
  predicate HeldSince(es: seq<Event>, p: nat, k: Key, c: Column)
    decreases |es|
  {
    Look(Steps(es), k) == Some(c) && (|es| > p ==> HeldSince(Before(es), p, k, c))
  }

  /** An edit is there throughout the rest of the run if and only if nothing in the rest of the run is an
      edit to something else, or a taken reply that evicts the chunk or carries a different one. */
  lemma {:induction false} EditSurvives(es: seq<Event>, p: nat, k: Key, c: Column)
    requires Possible(es) && p <= |es| && Look(Steps(es[..p]), k) == Some(c)
    ensures HeldSince(es, p, k, c) <==> SparedSince(es, p, k)
    decreases |es|
  {
    hide Step, Spares, Enabled;
    if |es| == p {
      assert es[..p] == es;
    } else {
      assert Before(es)[..p] == es[..p];
      EditSurvives(Before(es), p, k, c);
      SparedIsUnchanged(Steps(Before(es)), es[|es| - 1], k);
      StillHeld(Before(es), p, k, c);
    }
  }

  lemma StillHeld(es: seq<Event>, p: nat, k: Key, c: Column)
    ensures HeldSince(es, p, k, c) ==> Look(Steps(es), k) == Some(c)
  {
  }

  // ---------------------------------------------------------------- an edit undone

  lemma OneMoreEvent(es: seq<Event>, e: Event)
    requires Possible(es) && Enabled(Steps(es), e)
    ensures Possible(es + [e]) && Steps(es + [e]) == Step(Steps(es), e)
  {
    hide Step, Enabled;
    assert (es + [e])[..|es|] == es;
  }

  /** No reply waits, and there is budget for nine jobs more and room in the world. */
  predicate Calm(s: State) {
    && (forall i | 0 <= i < |s.pending| :: !s.pending[i].done)
    && s.submits + 9 < TICK_BUDGET
    && |s.world| < MAX_CHUNKS
  }

  /** A request of radius 1 submits no more than the cells left, and none of its jobs has run yet. */
  lemma {:induction false} FewJobs(s: State, conn: nat, dz: int, dx: int)
    requires conn in s.clients && -1 <= dx <= 2 && -1 <= dz <= 2 && (dz == 2 ==> dx == -1)
    requires forall i | 0 <= i < |s.pending| :: !s.pending[i].done
    ensures var t := AskFrom(s, conn, 0, 0, 1, dz, dx, {});
      && t.submits <= s.submits + 2 - dx + 3 * (1 - dz)
      && forall i | 0 <= i < |t.pending| :: !t.pending[i].done
    decreases 2 - dz, 2 - dx
  {
    hide ChunkKey;
    if dz > 1 {
    } else if dx > 1 {
      FewJobs(s, conn, dz + 1, -1);
    } else {
      FewJobs(Ask(s, conn, dx, dz, {}), conn, dz, dx + 1);
    }
  }

  /** A job or reply under way is one of the tickets. */
  lemma {:induction false} TicketOf(ts: seq<Ticket>, conn: nat, k: Key) returns (i: nat)
    requires Owed(ts, conn, k) > 0
    ensures i < |ts| && ts[i].conn == conn && ChunkKey(ts[i].cx, ts[i].cz) == k
  {
    hide ChunkKey;
    if ts[0].conn == conn && ChunkKey(ts[0].cx, ts[0].cz) == k {
      i := 0;
    } else {
      i := TicketOf(ts[1..], conn, k);
      i := i + 1;
    }
  }

  /** A new client at (0, 0) that asks for what is around it. */
  function AskAround(conn: nat): Event {
    Request(conn, 0.0, 0.0, 1, {})
  }

  /** A request that asks for chunk (0, 0) among others: there is room for it, and its ticket is the i-th. */
  lemma VisitAsks(s: State, conn: nat) returns (i: nat)
    requires Safe(s) && Calm(s) && conn in s.clients && s.clients[conn].loaded == {}
    ensures var t := AskFrom(s, conn, 0, 0, 1, -1, -1, {});
      && Safe(t) && OnlyMore(s, t, conn) && t.submits <= s.submits + 9
      && ChunkKey(0, 0) in t.clients[conn].inflight
      && (forall j | 0 <= j < |t.pending| :: !t.pending[j].done)
      && i < |t.pending| && t.pending[i].conn == conn && ChunkKey(t.pending[i].cx, t.pending[i].cz) == ChunkKey(0, 0)
  {
    hide ChunkKey, AskFrom, Owed, Ask;
    var t := AskFrom(s, conn, 0, 0, 1, -1, -1, {});
    AskFromKeepsSafe(s, conn, 0, 0, 1, -1, -1, {});
    FewJobs(s, conn, -1, -1);
    AskFromOnlyAdds(s, conn, 0, 0, 1, -1, -1, {});
    RequestCovers(s, conn, 0, 0, 1, -1, -1, {}, 0, 0);
    assert ClientSafe(t, conn);
    i := TicketOf(t.pending, conn, ChunkKey(0, 0));
  }

  lemma JoinAndAsk(s: State, conn: nat)
    requires conn !in s.used && Safe(s)
    ensures var e0, e1 := Join(conn), AskAround(conn);
      && Enabled(s, e0) && Enabled(Step(s, e0), e1) && Safe(Step(s, e0))
      && Step(s, e0) == s.(clients := s.clients[conn := Client({}, {})], used := s.used + {conn})
      && Step(Step(s, e0), e1) == AskFrom(Step(s, e0), conn, 0, 0, 1, -1, -1, {})
  {
    hide Safe, AskFrom;
    StepKeepsSafe(s, Join(conn));
    assert FloorDiv16(0.0) == 0;
  }

  /** The reply to that ticket puts its chunk in the world, over whatever is there. */
  lemma VisitIsAnswered(s: State, conn: nat, i: nat, c: Column)
    requires Safe(s) && |s.world| < MAX_CHUNKS && KeyOf(c) == ChunkKey(0, 0)
    requires forall j | 0 <= j < |s.pending| :: !s.pending[j].done
    requires i < |s.pending| && s.pending[i].conn == conn && conn in s.clients
    requires ChunkKey(s.pending[i].cx, s.pending[i].cz) == KeyOf(c) && KeyOf(c) in s.clients[conn].inflight
    ensures Enabled(s, Finish(i, Some(c))) && Enabled(Step(s, Finish(i, Some(c))), Arrive(i, true, {}))
    ensures var t := Step(Step(s, Finish(i, Some(c))), Arrive(i, true, {}));
      && t.world == s.world[KeyOf(c) := c] && t.submits == s.submits && t.used == s.used
      && (forall j | 0 <= j < |t.pending| :: !t.pending[j].done)
      && t.clients.Keys == s.clients.Keys && KeyOf(c) in t.clients[conn].loaded
      && forall a | a in s.clients && a != conn :: t.clients[a] == s.clients[a]
  {
    hide ChunkKey, KeyOf, Owed;
    assert ClientSafe(s, conn);
    OneMoreKey(s.world, KeyOf(c), c);
    assert s.world[KeyOf(c) := c] - {} == s.world[KeyOf(c) := c];
  }

  lemma OneMoreKey(w: map<Key, Column>, k: Key, c: Column)
    ensures |w[k := c]| <= |w| + 1
  {
    assert w[k := c].Keys == w.Keys + {k};
    assert |w[k := c]| == |w[k := c].Keys| && |w| == |w.Keys|;
  }

  /** A client joins, asks for what is around it, and gets chunk (0, 0) by the i-th ticket. */
  function Visit(conn: nat, i: nat, c: Column): (r: seq<Event>)
    ensures |r| == 4
  {
    [Join(conn), AskAround(conn), Finish(i, Some(c)), Arrive(i, true, {})]
  }

  /** From s to t, a new client got chunk c; everyone else has what they had. */
  predicate Served(s: State, t: State, conn: nat, c: Column) {
    && t.world == s.world[KeyOf(c) := c] && t.submits <= s.submits + 9 && t.used == s.used + {conn}
    && (forall j | 0 <= j < |t.pending| :: !t.pending[j].done)
    && conn in t.clients && KeyOf(c) in t.clients[conn].loaded
    && forall a | a in s.clients :: a in t.clients && t.clients[a] == s.clients[a]
  }

  /** Join, request, job and reply are all possible in turn. */
  lemma VisitServes(s: State, conn: nat, c: Column) returns (i: nat)
    requires Safe(s) && Calm(s) && conn !in s.used && KeyOf(c) == ChunkKey(0, 0)
    ensures var s1 := Step(s, Join(conn));
      var s2 := Step(s1, AskAround(conn));
      var s3 := Step(s2, Finish(i, Some(c)));
      && Enabled(s, Join(conn)) && Enabled(s1, AskAround(conn)) && Enabled(s2, Finish(i, Some(c)))
      && Enabled(s3, Arrive(i, true, {})) && Served(s, Step(s3, Arrive(i, true, {})), conn, c)
  {
    hide ChunkKey, KeyOf, Step, Enabled, Safe, AskFrom;
    JoinAndAsk(s, conn);
    UsedHasClients(s);
    i := VisitAsks(Step(s, Join(conn)), conn);
    VisitIsAnswered(Step(Step(s, Join(conn)), AskAround(conn)), conn, i, c);
  }

  /** A visit can happen in a calm state and puts its chunk in the world, over whatever is there. */
  lemma VisitPutsColumn(es: seq<Event>, conn: nat, c: Column) returns (i: nat)
    requires Possible(es) && Calm(Steps(es)) && conn !in Steps(es).used && KeyOf(c) == ChunkKey(0, 0)
    ensures Possible(es + Visit(conn, i, c)) && Served(Steps(es), Steps(es + Visit(conn, i, c)), conn, c)
  {
    hide ChunkKey, KeyOf, Steps, Possible, Step, Enabled, Safe, Calm, Served;
    RunIsSafe(es);
    i := VisitServes(Steps(es), conn, c);
    var e0, e1, e2, e3 := Join(conn), AskAround(conn), Finish(i, Some(c)), Arrive(i, true, {});
    OneMoreEvent(es, e0);
    OneMoreEvent(es + [e0], e1);
    OneMoreEvent(es + [e0] + [e1], e2);
    OneMoreEvent(es + [e0] + [e1] + [e2], e3);
    assert es + Visit(conn, i, c) == es + [e0] + [e1] + [e2] + [e3];
  }

  lemma UsedHasClients(s: State)
    requires Safe(s)
    ensures s.clients.Keys <= s.used
  {
  }

  /** A first client gets a chunk, it is edited, and then a second client's reply for the same chunk arrives:
      what the job read or made is in the world again, and the edit is gone, while the first client still
      counts the chunk as the one it has. */
  lemma EditCanBeUndone(made: Column, content: int) returns (es: seq<Event>)
    requires KeyOf(made) == ChunkKey(0, 0)
    ensures var k := KeyOf(made);
      && Possible(es) && |es| == 9 && es[4] == Edit(k, content) && es[6] == Request(1, 0.0, 0.0, 1, {})
      && Look(Steps(es[..5]), k) == Some(made.(content := content))
      && Look(Steps(es), k) == Some(made)
      && 0 in Steps(es).clients && k in Steps(es).clients[0].loaded
  {
    hide ChunkKey, KeyOf, Step, Possible, Enabled;
    var k, edit := KeyOf(made), Edit(KeyOf(made), content);
    AtTheStart();
    var i := VisitPutsColumn([], 0, made);
    assert [] + Visit(0, i, made) == Visit(0, i, made);
    var first := Visit(0, i, made);
    var s := Steps(first);
    EditsAreEnabled(s, k, content);
    OneMoreEvent(first, edit);
    AfterTheEdit(s, k, content);
    var j := VisitPutsColumn(first + [edit], 1, made);
    es := first + [edit] + Visit(1, j, made);
    assert es[..5] == first + [edit];
  }

  lemma EditsAreEnabled(s: State, k: Key, content: int)
    ensures Enabled(s, Edit(k, content))
  {
  }

  lemma AtTheStart()
    ensures Possible([]) && Steps([]) == START && Calm(START)
  {
  }

  lemma AfterTheEdit(s: State, k: Key, content: int)
    requires s.world.Keys == {k}
    ensures var t := Step(s, Edit(k, content));
      && t == s.(world := t.world) && t.world == map[k := s.world[k].(content := content)] && |t.world| == 1
  {
    var t := Step(s, Edit(k, content));
    assert t.world.Keys == {k};
    assert |t.world| == |t.world.Keys|;
  }
}
