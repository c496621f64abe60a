/**
 Chunked scene streaming: chunks around the player are requested and loaded over several frames,
 chunks left behind are unloaded after a delay. Frame times and timers are real numbers.
 */
module SceneStreaming {
  import opened Basics

  datatype Coord = Coord(x: int, z: int)

  datatype ChunkState = Unloaded | Pending | Loaded | Unloading

  datatype Chunk = Chunk(state: ChunkState, progress: real, needed: real, timer: real)

  type Chunks = map<Coord, Chunk>

  datatype Config = Config(chunkSize: real, loadRadius: nat, unloadDelaySeconds: nat, maxPendingLoads: nat)

  function Abs(n: int): nat { if n < 0 then -n else n }

  function Max(a: int, b: int): int { if a < b then b else a }

  // -------------------------------------------------------------------------
  // The chunk key of the original: two 32-bit coordinates packed into 64 bits
  // -------------------------------------------------------------------------

  const TWO_TO_31 := 0x8000_0000
  const TWO_TO_32 := 0x1_0000_0000

  predicate Int32(n: int) { -TWO_TO_31 <= n < TWO_TO_31 }

  function Key(c: Coord): int {
    (c.x + TWO_TO_31) * TWO_TO_32 + (c.z + TWO_TO_31) % TWO_TO_32
  }

  /** No two chunks share a key, so a table by key is a table by coordinates. */
  lemma KeyIsInjective(a: Coord, b: Coord)
    requires Int32(a.x) && Int32(a.z) && Int32(b.x) && Int32(b.z) && Key(a) == Key(b)
    ensures a == b
  {
  }

  // -------------------------------------------------------------------------
  // One frame
  // -------------------------------------------------------------------------

  function Distance(a: Coord, b: Coord): nat {
    Max(Abs(a.x - b.x), Abs(a.z - b.z))
  }

  /** Between 40 and 119 ms, fixed per chunk. */
  function LoadTime(c: Coord): real {
    40.0 + (Abs(c.x * 31 + c.z * 17) % 80) as real
  }

  const MAX_LOAD_MS := 119.0

  predicate Ready(c: Chunk, dt: real) {
    c.state == Pending && c.progress + dt >= c.needed
  }

  function ReadySet(s: Chunks, dt: real): set<Coord> {
    set k | k in s && Ready(s[k], dt)
  }

  function PendingSet(s: Chunks): set<Coord> {
    set k | k in s && s[k].state == Pending
  }

  /** Step A for one chunk; `completes` says that it was given one of the frame's completions. */
  function Advance(c: Chunk, dt: real, completes: bool): Chunk {
    match c.state
    case Pending => c.(progress := c.progress + dt, state := if completes then Loaded else Pending)
    case Unloading =>
      var left := c.timer - dt / 1000.0;
      c.(timer := left, state := if left <= 0.0 then Unloaded else Unloading)
    case _ => c
  }

  /** Step B for one chunk. */
  function Retire(k: Coord, c: Chunk, center: Coord, cfg: Config): Chunk {
    if c.state == Loaded && Distance(k, center) > cfg.loadRadius
    then c.(state := Unloading, timer := cfg.unloadDelaySeconds as real)
    else c
  }

  function AdvanceAll(s: Chunks, dt: real, done: set<Coord>): Chunks {
    map k | k in s :: Advance(s[k], dt, k in done)
  }

  function RetireAll(s: Chunks, center: Coord, cfg: Config): Chunks {
    map k | k in s :: Retire(k, s[k], center, cfg)
  }

  function NewChunk(c: Coord): Chunk {
    Chunk(Pending, 0.0, LoadTime(c), 0.0)
  }

  datatype Requests = Requests(chunks: Chunks, issued: nat)

  /** Step C for one cell of the square: request it if it is unknown, keep it if it was leaving. */
  function VisitCell(q: Requests, c: Coord, limit: nat): Requests {
    if c !in q.chunks then
      if q.issued < limit then Requests(q.chunks[c := NewChunk(c)], q.issued + 1) else q
    else if q.chunks[c].state == Unloading then
      q.(chunks := q.chunks[c := q.chunks[c].(state := Loaded)])
    else q
  }

  function VisitCells(s: Chunks, cells: seq<Coord>, limit: nat): Requests {
    if cells == [] then Requests(s, 0)
    else VisitCell(VisitCells(s, cells[..|cells| - 1], limit), cells[|cells| - 1], limit)
  }

  function Width(r: nat): nat { 2 * r + 1 }

  /** The first `n` cells of the row at `dz`; dx and dz count from the low corner of the square. */
  function Row(center: Coord, r: nat, dz: nat, n: nat): (cells: seq<Coord>)
    ensures |cells| == n
  {
    seq(n, dx requires 0 <= dx < n => Coord(center.x - r + dx, center.z - r + dz))
  }

  function Rows(center: Coord, r: nat, m: nat): (cells: seq<Coord>)
    ensures |cells| == m * Width(r)
  {
    if m == 0 then [] else Rows(center, r, m - 1) + Row(center, r, m - 1, Width(r))
  }

  /** The square around the player, row by row. */
  function Square(center: Coord, r: nat): (cells: seq<Coord>)
    ensures |cells| == Width(r) * Width(r)
  {
    Rows(center, r, Width(r))
  }

  /**
   One call of Update: some choice of completions among the ready chunks, as many as the limit
   admits (the table's iteration order decides which), then the two deterministic steps.
   */
  ghost predicate Frame(cfg: Config, center: Coord, dt: real, s: Chunks, s': Chunks) {
    exists done ::
      && done <= ReadySet(s, dt)
      && |done| == Min(cfg.maxPendingLoads, |ReadySet(s, dt)|)
      && s' == VisitCells(RetireAll(AdvanceAll(s, dt, done), center, cfg), Square(center, cfg.loadRadius),
                          cfg.maxPendingLoads).chunks
  }

  // -------------------------------------------------------------------------
  // The square
  // -------------------------------------------------------------------------

  lemma {:induction false} RowsCover(center: Coord, r: nat, m: nat, c: Coord)
    ensures c in Rows(center, r, m) <==> 0 <= c.z - center.z + r < m && 0 <= c.x - center.x + r < Width(r)
  {
    if m == 0 {
    } else {
      var row := Row(center, r, m - 1, Width(r));
      RowsCover(center, r, m - 1, c);
      if c.z - center.z + r == m - 1 && 0 <= c.x - center.x + r < Width(r) {
        assert row[c.x - center.x + r] == c;
      }
    }
  }

  lemma {:induction false} RowsDistinct(center: Coord, r: nat, m: nat)
    ensures Distinct(Rows(center, r, m))
  {
    if m == 0 {
    } else {
      RowsDistinct(center, r, m - 1);
      var front, row := Rows(center, r, m - 1), Row(center, r, m - 1, Width(r));
      forall c | c in front ensures c !in row {
        RowsCover(center, r, m - 1, c);
      }
      assert Distinct(row);
      DistinctConcat(front, row);
    }
  }

  lemma DistinctConcat(a: seq<Coord>, b: seq<Coord>)
    requires Distinct(a) && Distinct(b) && forall c :: c in a ==> c !in b
    ensures Distinct(a + b)
  {
    forall i, j | 0 <= i < j < |a + b| ensures (a + b)[i] != (a + b)[j] {
      if i < |a| <= j {
        assert (a + b)[i] in a && (a + b)[j] in b;
      }
    }
  }

  /** The loops over dz and dx visit exactly the cells within Chebyshev distance `r`. */
  lemma SquareIsBall(center: Coord, r: nat, c: Coord)
    ensures c in Square(center, r) <==> Distance(c, center) <= r
  {
    RowsCover(center, r, Width(r), c);
  }

  /** The square has as many cells as its width squared. */
  lemma BallSize(center: Coord, r: nat)
    ensures |Ball(center, r)| == Width(r) * Width(r)
  {
    hide Square;
    SquareDistinct(center, r);
    DistinctSize(Square(center, r));
  }

  // -------------------------------------------------------------------------
  // What one frame does
  // -------------------------------------------------------------------------

  /** Step C on the tables: `added` is requested, leaving chunks of the square are rescued. */
  ghost predicate Visited(s: Chunks, cells: set<Coord>, after: Chunks, added: set<Coord>) {
    && added <= cells - s.Keys
    && after.Keys == s.Keys + added
    && (forall k :: k in added ==> after[k] == NewChunk(k))
    && (forall k :: k in s ==> after[k] == Kept(s[k], k in cells))
  }

  function Kept(c: Chunk, inSquare: bool): Chunk {
    if inSquare && c.state == Unloading then c.(state := Loaded) else c
  }

  /** As many requests as the limit admits for the cells that are not known. */
  predicate Counted(added: set<Coord>, cells: set<Coord>, known: set<Coord>, issued: nat, limit: nat) {
    |added| == issued == Min(limit, |cells - known|)
  }

  lemma {:induction false} CellsVisited(s: Chunks, cells: seq<Coord>, limit: nat) returns (added: set<Coord>)
    requires Distinct(cells)
    ensures var q := VisitCells(s, cells, limit);
            && Visited(s, Elements(cells), q.chunks, added)
            && Counted(added, Elements(cells), s.Keys, q.issued, limit)
  {
    hide Visited, Counted, Distinct, Elements;
    if cells == [] {
      added := {};
      NoCells(s, limit);
    } else {
      var front, c := cells[..|cells| - 1], cells[|cells| - 1];
      LastElement(cells);
      var before := CellsVisited(s, front, limit);
      added := OneMoreCell(s, Elements(front), c, limit, VisitCells(s, front, limit), before);
    }
  }

  lemma NoCells(s: Chunks, limit: nat)
    ensures Visited(s, Elements<Coord>([]), s, {}) && Counted({}, Elements<Coord>([]), s.Keys, 0, limit)
  {
    assert Elements<Coord>([]) - s.Keys == {};
  }

  lemma OneMoreCell(s: Chunks, front: set<Coord>, c: Coord, limit: nat, q: Requests, before: set<Coord>)
    returns (added: set<Coord>)
    requires Visited(s, front, q.chunks, before) && c !in front
    requires Counted(before, front, s.Keys, q.issued, limit)
    ensures Visited(s, front + {c}, VisitCell(q, c, limit).chunks, added)
    ensures Counted(added, front + {c}, s.Keys, VisitCell(q, c, limit).issued, limit)
  {
    hide Visited, Counted;
    KnownKeys(s, front, c, q.chunks, before);
    OneMoreMissing(s, front, c, q.chunks, before, q.issued, limit);
    if c in s {
      KnownCell(s, front, c, q.chunks, before);
      added := before;
    } else {
      if q.issued < limit {
        UnknownCell(s, front, c, q.chunks, before);
        added := before + {c};
      } else {
        PassedOver(s, front, c, q.chunks, before);
        added := before;
      }
    }
  }

  lemma KnownKeys(s: Chunks, front: set<Coord>, c: Coord, after: Chunks, added: set<Coord>)
    requires Visited(s, front, after, added) && c !in front
    ensures (c in after <==> c in s) && (c in s ==> after[c] == s[c])
  {
  }

  lemma OneMoreMissing(s: Chunks, front: set<Coord>, c: Coord, after: Chunks, added: set<Coord>, issued: nat,
                       limit: nat)
    requires Visited(s, front, after, added) && Counted(added, front, s.Keys, issued, limit) && c !in front
    ensures c in s ==> Counted(added, front + {c}, s.Keys, issued, limit)
    ensures c !in s && issued < limit ==> Counted(added + {c}, front + {c}, s.Keys, issued + 1, limit)
    ensures c !in s && issued >= limit ==> Counted(added, front + {c}, s.Keys, issued, limit)
  {
    hide Counted;
    CountOneMore(added, front, s.Keys, c, issued, limit);
  }

  lemma CountOneMore(added: set<Coord>, cells: set<Coord>, known: set<Coord>, c: Coord, issued: nat, limit: nat)
    requires Counted(added, cells, known, issued, limit) && c !in cells && added <= cells - known
    ensures c in known ==> Counted(added, cells + {c}, known, issued, limit)
    ensures c !in known && issued < limit ==> Counted(added + {c}, cells + {c}, known, issued + 1, limit)
    ensures c !in known && issued >= limit ==> Counted(added, cells + {c}, known, issued, limit)
  {
    if c in known {
      assert (cells + {c}) - known == cells - known;
    } else {
      assert (cells + {c}) - known == (cells - known) + {c};
    }
  }

  lemma KnownCell(s: Chunks, front: set<Coord>, c: Coord, after: Chunks, added: set<Coord>)
    requires Visited(s, front, after, added) && c !in front && c in s
    ensures Visited(s, front + {c}, after[c := Kept(s[c], true)], added)
    ensures s[c].state != Unloading ==> Visited(s, front + {c}, after, added)
  {
    assert after[c] == s[c];
  }

  lemma UnknownCell(s: Chunks, front: set<Coord>, c: Coord, after: Chunks, added: set<Coord>)
    requires Visited(s, front, after, added) && c !in front && c !in s
    ensures Visited(s, front + {c}, after[c := NewChunk(c)], added + {c})
  {
  }

  lemma PassedOver(s: Chunks, front: set<Coord>, c: Coord, after: Chunks, added: set<Coord>)
    requires Visited(s, front, after, added) && c !in front && c !in s
    ensures Visited(s, front + {c}, after, added)
  {
  }

  function Ball(center: Coord, r: nat): set<Coord> {
    Elements(Square(center, r))
  }

  function Stepped(k: Coord, c: Chunk, cfg: Config, center: Coord, dt: real, completes: bool, near: bool): Chunk {
    Kept(Retire(k, Advance(c, dt, completes), center, cfg), near)
  }

  /** A frame chunk by chunk: `done` are the completed loads, `added` the new requests. */
  ghost predicate FrameTable(cfg: Config, center: Coord, dt: real, ball: set<Coord>, s: Chunks, s': Chunks,
                             done: set<Coord>, added: set<Coord>) {
    && done <= ReadySet(s, dt)
    && added <= ball - s.Keys
    && s'.Keys == s.Keys + added
    && (forall k :: k in added ==> s'[k] == NewChunk(k))
    && (forall k :: k in s ==> s'[k] == Stepped(k, s[k], cfg, center, dt, k in done, k in ball))
  }

  predicate Served(done: set<Coord>, waiting: set<Coord>, limit: nat) {
    |done| == Min(limit, |waiting|)
  }

  lemma FrameChunkByChunk(cfg: Config, center: Coord, dt: real, s: Chunks, s': Chunks)
    returns (done: set<Coord>, added: set<Coord>)
    requires Frame(cfg, center, dt, s, s')
    ensures FrameTable(cfg, center, dt, Ball(center, cfg.loadRadius), s, s', done, added)
    ensures Served(done, ReadySet(s, dt), cfg.maxPendingLoads)
    ensures Served(added, Ball(center, cfg.loadRadius) - s.Keys, cfg.maxPendingLoads)
  {
    hide Visited, VisitCells, Square, FrameTable;
    var cells, limit := Square(center, cfg.loadRadius), cfg.maxPendingLoads;
    done :| done <= ReadySet(s, dt) && |done| == Min(limit, |ReadySet(s, dt)|) &&
            s' == VisitCells(RetireAll(AdvanceAll(s, dt, done), center, cfg), cells, limit).chunks;
    SquareDistinct(center, cfg.loadRadius);
    var mid := RetireAll(AdvanceAll(s, dt, done), center, cfg);
    added := CellsVisited(mid, cells, limit);
    assert mid.Keys == s.Keys;
    ThreeSteps(cfg, center, dt, Elements(cells), s, s', done, added);
  }

  // Cells are visited row by row, and each row from its low corner on.

  predicate Before(a: Coord, b: Coord) {
    a.z < b.z || (a.z == b.z && a.x < b.x)
  }

  predicate RowByRow(cells: seq<Coord>) {
    forall i, j :: 0 <= i < j < |cells| ==> Before(cells[i], cells[j])
  }

  lemma {:induction false} RowsInOrder(center: Coord, r: nat, m: nat)
    ensures RowByRow(Rows(center, r, m))
  {
    if m == 0 {
    } else {
      RowsInOrder(center, r, m - 1);
      var front, row := Rows(center, r, m - 1), Row(center, r, m - 1, Width(r));
      forall i | 0 <= i < |front| ensures front[i].z - center.z + r < m - 1 {
        RowsCover(center, r, m - 1, front[i]);
        assert front[i] in front;
      }
      forall i, j | 0 <= i < j < |front + row| ensures Before((front + row)[i], (front + row)[j]) {
        if i < |front| <= j {
          assert (front + row)[j] == row[j - |front|];
        }
      }
    }
  }

  /** What was not requested for want of room comes behind everything that was. */
  lemma {:induction false} EarlierFirst(s: Chunks, cells: seq<Coord>, limit: nat)
    requires RowByRow(cells)
    ensures var q := VisitCells(s, cells, limit);
            && q.chunks.Keys <= s.Keys + Elements(cells) && s.Keys <= q.chunks.Keys
            && (q.issued < limit ==> forall a :: a in cells ==> a in q.chunks)
            && forall a, b :: a in cells && b in q.chunks && b !in s && Before(a, b) ==> a in q.chunks
  {
    assert VisitCells(s, [], limit) == Requests(s, 0);
    hide VisitCells;
    if |cells| == 0 {
      assert cells == [];
    } else {
      var n := |cells| - 1;
      var front, c := cells[..n], cells[n];
      EarlierFirst(s, front, limit);
      LastElement(cells);
      OneVisit(s, cells, limit);
      assert forall a :: a in cells <==> a in front || a == c;
    }
  }

  lemma OneVisit(s: Chunks, cells: seq<Coord>, limit: nat)
    requires |cells| > 0
    ensures VisitCells(s, cells, limit) ==
            VisitCell(VisitCells(s, cells[..|cells| - 1], limit), cells[|cells| - 1], limit)
  {
  }

  lemma SquareDistinct(center: Coord, r: nat)
    ensures Distinct(Square(center, r))
  {
    RowsDistinct(center, r, Width(r));
  }

  lemma ThreeSteps(cfg: Config, center: Coord, dt: real, ball: set<Coord>, s: Chunks, s': Chunks,
                   done: set<Coord>, added: set<Coord>)
    requires done <= ReadySet(s, dt)
    requires Visited(RetireAll(AdvanceAll(s, dt, done), center, cfg), ball, s', added)
    ensures FrameTable(cfg, center, dt, ball, s, s', done, added)
  {
    var mid := RetireAll(AdvanceAll(s, dt, done), center, cfg);
    assert mid.Keys == s.Keys;
    forall k | k in s ensures s'[k] == Stepped(k, s[k], cfg, center, dt, k in done, k in ball) {
      assert mid[k] == Retire(k, Advance(s[k], dt, k in done), center, cfg);
      assert s'[k] == Kept(mid[k], k in ball);
    }
  }

  // The frame in terms of the player's position, step by step as the design has it.

  /** Is this the chunk under the position? Without a positive chunk size it is 128. */
  predicate Under(cfg: Config, c: Coord, x: real, z: real) {
    var cs := if cfg.chunkSize > 0.0 then cfg.chunkSize else 128.0;
    && c.x as real * cs <= x < (c.x + 1) as real * cs
    && c.z as real * cs <= z < (c.z + 1) as real * cs
  }

  lemma FloorScaled(x: real, cs: real, n: int)
    requires cs > 0.0 && n == (x / cs).Floor
    ensures n as real * cs <= x < (n + 1) as real * cs
  {
    var t := x / cs;
    assert t * cs == x;
    assert n as real <= t < (n + 1) as real;
    ScaledBetween(n as real, t, cs);
    ScaledBetween(t, (n + 1) as real, cs);
  }

  lemma ScaledBetween(a: real, b: real, cs: real)
    requires cs > 0.0 && a <= b
    ensures a * cs <= b * cs && (a < b ==> a * cs < b * cs)
  {
  }

  predicate Near(c: Coord, center: Coord, r: nat) {
    center.x - r <= c.x <= center.x + r && center.z - r <= c.z <= center.z + r
  }

  /** Has a load been under way for as long as it takes? */
  predicate DueAfter(c: Chunk, dt: real) {
    c.state == Pending && c.progress + dt >= c.needed
  }

  /** What becomes of a chunk in a frame. */
  predicate ChunkAfter(cfg: Config, dt: real, c: Chunk, c': Chunk, completed: bool, near: bool) {
    match c.state
    case Unloaded => c' == c
    case Pending =>
      && c'.progress == c.progress + dt && c'.needed == c.needed
      && c'.state == (if !completed then Pending else if near then Loaded else Unloading)
      && c'.timer == if completed && !near then cfg.unloadDelaySeconds as real else c.timer
    case Loaded =>
      c' == if near then c else Chunk(Unloading, c.progress, c.needed, cfg.unloadDelaySeconds as real)
    case Unloading =>
      && c'.progress == c.progress && c'.needed == c.needed && c'.timer == c.timer - dt / 1000.0
      && c'.state == if c.timer <= dt / 1000.0 then Unloaded else if near then Loaded else Unloading
  }

  /** Between 40 and 119 milliseconds, always the same for one chunk. */
  predicate IsLoadTime(k: Coord, ms: real) {
    var h := k.x * 31 + k.z * 17;
    40.0 <= ms <= 119.0 && ms == 40.0 + ((if h < 0 then -h else h) % 80) as real
  }

  /**
   * One frame of dt milliseconds with the player over `center`. Loads that are due complete, and unknown chunks
   * of the square are requested row by row, both up to the limit; what leaves the square is unloaded after the
   * delay unless it is in it again.
   */
  ghost predicate FrameAround(cfg: Config, center: Coord, dt: real, s: Chunks, s': Chunks, done: set<Coord>,
                              added: set<Coord>) {
    var r, limit := cfg.loadRadius, cfg.maxPendingLoads;
    && (forall k :: k in done ==> k in s && DueAfter(s[k], dt))
    && |done| <= limit && (|done| < limit ==> forall k :: k in s && DueAfter(s[k], dt) ==> k in done)
    && s'.Keys == s.Keys + added
    && (forall k :: k in added ==> k !in s && Near(k, center, r) && s'[k].state == Pending && s'[k].progress == 0.0)
    && (forall k :: k in added ==> IsLoadTime(k, s'[k].needed))
    && |added| <= limit && (|added| < limit ==> forall k :: Near(k, center, r) ==> k in s')
    && (forall a, b :: b in added && Near(a, center, r) && Before(a, b) ==> a in s')
    && (forall k :: k in s ==> ChunkAfter(cfg, dt, s[k], s'[k], k in done, Near(k, center, r)))
  }

  lemma NearIs(c: Coord, center: Coord, r: nat)
    ensures Near(c, center, r) <==> Distance(c, center) <= r
    ensures Near(c, center, r) <==> c in Ball(center, r)
  {
    SquareIsBall(center, r, c);
  }

  lemma SteppedIs(k: Coord, c: Chunk, cfg: Config, center: Coord, dt: real, completes: bool)
    requires completes ==> c.state == Pending
    ensures var near := Near(k, center, cfg.loadRadius);
            ChunkAfter(cfg, dt, c, Stepped(k, c, cfg, center, dt, completes, near), completes, near)
  {
    NearIs(k, center, cfg.loadRadius);
  }

  /** Requests are made row by row. */
  lemma RequestedInOrder(cfg: Config, center: Coord, dt: real, s: Chunks, s': Chunks, a: Coord, b: Coord)
    requires Frame(cfg, center, dt, s, s')
    requires Near(a, center, cfg.loadRadius) && b in s' && b !in s && Before(a, b)
    ensures a in s'
  {
    hide Before, VisitCells;
    var cells, limit := Square(center, cfg.loadRadius), cfg.maxPendingLoads;
    var done :| done <= ReadySet(s, dt) && |done| == Min(limit, |ReadySet(s, dt)|) &&
                s' == VisitCells(RetireAll(AdvanceAll(s, dt, done), center, cfg), cells, limit).chunks;
    var mid := RetireAll(AdvanceAll(s, dt, done), center, cfg);
    assert mid.Keys == s.Keys;
    RowsInOrder(center, cfg.loadRadius, Width(cfg.loadRadius));
    EarlierFirst(mid, cells, limit);
    NearIs(a, center, cfg.loadRadius);
  }

  lemma AllServed(done: set<Coord>, waiting: set<Coord>, limit: nat, k: Coord)
    requires done <= waiting && Served(done, waiting, limit) && |done| < limit && k in waiting
    ensures k in done
  {
    if k !in done {
      assert done + {k} <= waiting;
      SubsetSize(done + {k}, waiting);
    }
  }

  lemma {:induction false} SubsetSize(a: set<Coord>, b: set<Coord>)
    requires a <= b
    ensures |a| <= |b|
  {
    assert b == a + (b - a);
  }

  lemma CompletedAre(s: Chunks, dt: real, done: set<Coord>, limit: nat)
    requires done <= ReadySet(s, dt) && Served(done, ReadySet(s, dt), limit)
    ensures forall k :: k in done ==> k in s && DueAfter(s[k], dt)
    ensures |done| <= limit && (|done| < limit ==> forall k :: k in s && DueAfter(s[k], dt) ==> k in done)
  {
    ServedAll(done, ReadySet(s, dt), limit);
  }

  lemma AddedAre(s: Chunks, s': Chunks, center: Coord, r: nat, added: set<Coord>, limit: nat)
    requires added <= Ball(center, r) - s.Keys && Served(added, Ball(center, r) - s.Keys, limit)
    requires s'.Keys == s.Keys + added && forall k :: k in added ==> s'[k] == NewChunk(k)
    ensures forall k :: k in added ==> k !in s && Near(k, center, r) && s'[k].state == Pending && s'[k].progress == 0.0
    ensures forall k :: k in added ==> IsLoadTime(k, s'[k].needed)
    ensures |added| <= limit && (|added| < limit ==> forall k :: Near(k, center, r) ==> k in s')
  {
    hide Ball, Near, Served;
    ServedAll(added, Ball(center, r) - s.Keys, limit);
    forall k ensures Near(k, center, r) <==> k in Ball(center, r) {
      NearIs(k, center, r);
    }
  }

  /** Every frame is one of these. */
  lemma FrameIsAround(cfg: Config, center: Coord, dt: real, s: Chunks, s': Chunks)
    returns (done: set<Coord>, added: set<Coord>)
    requires Frame(cfg, center, dt, s, s')
    ensures FrameAround(cfg, center, dt, s, s', done, added)
  {
    hide Frame, Stepped, Served, Near, Before, ChunkAfter, Ball, ReadySet, DueAfter, NewChunk, IsLoadTime;
    done, added := FrameChunkByChunk(cfg, center, dt, s, s');
    CompletedAre(s, dt, done, cfg.maxPendingLoads);
    AddedAre(s, s', center, cfg.loadRadius, added, cfg.maxPendingLoads);
    forall k | k in s ensures ChunkAfter(cfg, dt, s[k], s'[k], k in done, Near(k, center, cfg.loadRadius)) {
      NearIs(k, center, cfg.loadRadius);
      OnlyPendingComplete(s, dt, done, k);
      SteppedIs(k, s[k], cfg, center, dt, k in done);
    }
    forall a, b | b in added && Near(a, center, cfg.loadRadius) && Before(a, b) ensures a in s' {
      RequestedInOrder(cfg, center, dt, s, s', a, b);
    }
  }

  lemma OnlyPendingComplete(s: Chunks, dt: real, done: set<Coord>, k: Coord)
    requires done <= ReadySet(s, dt) && k in s
    ensures k in done ==> s[k].state == Pending
  {
  }

  lemma ServedAll(done: set<Coord>, waiting: set<Coord>, limit: nat)
    requires done <= waiting && Served(done, waiting, limit)
    ensures |done| <= limit && (|done| < limit ==> waiting <= done)
  {
    if |done| < limit {
      forall k | k in waiting ensures k in done {
        AllServed(done, waiting, limit, k);
      }
    }
  }

  // -------------------------------------------------------------------------
  // Safety
  // -------------------------------------------------------------------------

  /** After every frame all loaded chunks lie within the radius, and none of the square is leaving. */
  lemma LoadedIsNear(cfg: Config, center: Coord, dt: real, s: Chunks, s': Chunks, k: Coord)
    requires Frame(cfg, center, dt, s, s') && k in s'
    ensures s'[k].state == Loaded ==> Distance(k, center) <= cfg.loadRadius
    ensures Distance(k, center) <= cfg.loadRadius ==> s'[k].state != Unloading
  {
    hide Frame, Square;
    var done, added := FrameChunkByChunk(cfg, center, dt, s, s');
    SquareIsBall(center, cfg.loadRadius, k);
  }

  /** Chunks are never forgotten, and one frame requests at most the limit. */
  lemma NoLoadStorm(cfg: Config, center: Coord, dt: real, s: Chunks, s': Chunks)
    requires Frame(cfg, center, dt, s, s')
    ensures s.Keys <= s'.Keys && |s'| <= |s| + cfg.maxPendingLoads
  {
    hide Frame, Square;
    var done, added := FrameChunkByChunk(cfg, center, dt, s, s');
    assert |s'.Keys| == |s.Keys| + |added|;
  }

  // -------------------------------------------------------------------------
  // Liveness
  // -------------------------------------------------------------------------

  /** Load times are as NewChunk sets them, and progress never runs backwards from zero. */
  ghost predicate Timed(s: Chunks) {
    forall k :: k in s ==> s[k].progress >= 0.0 && s[k].needed <= MAX_LOAD_MS
  }

  lemma TimedStays(cfg: Config, center: Coord, dt: real, s: Chunks, s': Chunks)
    requires Frame(cfg, center, dt, s, s') && Timed(s) && dt > 0.0
    ensures Timed(s')
  {
    hide Frame, Square, Ball, Served, Timed, FrameTable;
    var done, added := FrameChunkByChunk(cfg, center, dt, s, s');
    TimedTable(cfg, center, dt, Ball(center, cfg.loadRadius), s, s', done, added);
  }

  lemma TimedTable(cfg: Config, center: Coord, dt: real, ball: set<Coord>, s: Chunks, s': Chunks,
                   done: set<Coord>, added: set<Coord>)
    requires FrameTable(cfg, center, dt, ball, s, s', done, added) && Timed(s) && dt > 0.0
    ensures Timed(s')
  {
    forall k | k in s' ensures s'[k].progress >= 0.0 && s'[k].needed <= MAX_LOAD_MS {
      if k in s {
        assert s'[k] == Stepped(k, s[k], cfg, center, dt, k in done, k in ball);
      }
    }
  }

  lemma ServedLeaves(done: set<Coord>, waiting: set<Coord>, limit: nat)
    requires Served(done, waiting, limit) && done <= waiting
    ensures |waiting - done| == |waiting| - Min(limit, |waiting|)
  {
  }

  /** The square loses as many unknown cells as the limit admits. */
  lemma MissingShrinks(cfg: Config, center: Coord, dt: real, s: Chunks, s': Chunks)
    requires Frame(cfg, center, dt, s, s')
    ensures var ball := Ball(center, cfg.loadRadius);
            |ball - s'.Keys| == |ball - s.Keys| - Min(cfg.maxPendingLoads, |ball - s.Keys|)
  {
    hide Frame, Square, Ball, FrameTable, Served;
    var done, added := FrameChunkByChunk(cfg, center, dt, s, s');
    MissingLess(cfg, center, dt, Ball(center, cfg.loadRadius), s, s', done, added);
    ServedLeaves(added, Ball(center, cfg.loadRadius) - s.Keys, cfg.maxPendingLoads);
  }

  lemma MissingLess(cfg: Config, center: Coord, dt: real, ball: set<Coord>, s: Chunks, s': Chunks,
                    done: set<Coord>, added: set<Coord>)
    requires FrameTable(cfg, center, dt, ball, s, s', done, added)
    ensures added <= ball - s.Keys && ball - s'.Keys == (ball - s.Keys) - added
  {
  }

  lemma PendingChange(cfg: Config, center: Coord, dt: real, ball: set<Coord>, s: Chunks, s': Chunks,
                      done: set<Coord>, added: set<Coord>)
    requires FrameTable(cfg, center, dt, ball, s, s', done, added)
    ensures done <= PendingSet(s)
    ensures PendingSet(s') == (PendingSet(s) - done) + added
    ensures added !! PendingSet(s)
  {
    forall k ensures k in PendingSet(s') <==> k in (PendingSet(s) - done) + added {
      if k in s {
        assert s'[k] == Stepped(k, s[k], cfg, center, dt, k in done, k in ball);
      }
    }
  }

  lemma CardOfChange(pending: set<Coord>, done: set<Coord>, added: set<Coord>)
    requires done <= pending && added !! pending
    ensures |(pending - done) + added| == |pending| - |done| + |added|
  {
    assert |pending - done| == |pending| - |done|;
  }

  /** Loads in progress and cells still to be requested, together, never grow; completions reduce them. */
  lemma WorkShrinks(cfg: Config, center: Coord, dt: real, s: Chunks, s': Chunks)
    requires Frame(cfg, center, dt, s, s')
    ensures var ball := Ball(center, cfg.loadRadius);
            |PendingSet(s')| + |ball - s'.Keys| ==
            |PendingSet(s)| + |ball - s.Keys| - Min(cfg.maxPendingLoads, |ReadySet(s, dt)|)
  {
    hide Frame, Square, Ball, FrameTable, Served;
    var ball := Ball(center, cfg.loadRadius);
    var done, added := FrameChunkByChunk(cfg, center, dt, s, s');
    PendingChange(cfg, center, dt, ball, s, s', done, added);
    CardOfChange(PendingSet(s), done, added);
    MissingShrinks(cfg, center, dt, s, s');
    ServedSizes(done, ReadySet(s, dt), cfg.maxPendingLoads);
    ServedSizes(added, ball - s.Keys, cfg.maxPendingLoads);
  }

  lemma ServedSizes(done: set<Coord>, waiting: set<Coord>, limit: nat)
    requires Served(done, waiting, limit)
    ensures |done| == Min(limit, |waiting|)
  {
  }

  /** A load that is not new and not finished has advanced by the frame time. */
  lemma PendingProgress(cfg: Config, center: Coord, dt: real, s: Chunks, s': Chunks, k: Coord)
    requires Frame(cfg, center, dt, s, s') && k in PendingSet(s') && k in s
    ensures k in PendingSet(s) && s'[k].progress == s[k].progress + dt && s'[k].needed == s[k].needed
  {
    hide Frame, Square, Ball;
    var done, added := FrameChunkByChunk(cfg, center, dt, s, s');
    assert s'[k] == Stepped(k, s[k], cfg, center, dt, k in done, k in Ball(center, cfg.loadRadius));
  }

  /** Within the square nothing goes to waste: what is not unloaded and not leaving stays so. */
  ghost predicate NoneLost(s: Chunks, ball: set<Coord>) {
    forall k :: k in ball && k in s ==> s[k].state != Unloaded && s[k].state != Unloading
  }

  /** A chunk of the square that is neither unloaded nor leaving is not lost in a frame. */
  lemma StaysInside(k: Coord, c: Chunk, cfg: Config, center: Coord, dt: real, completes: bool)
    requires c.state != Unloaded && c.state != Unloading && Distance(k, center) <= cfg.loadRadius
    ensures var c' := Stepped(k, c, cfg, center, dt, completes, true); c'.state != Unloaded && c'.state != Unloading
  {
  }

  lemma NoneLostStays(cfg: Config, center: Coord, dt: real, s: Chunks, s': Chunks)
    requires Frame(cfg, center, dt, s, s') && NoneLost(s, Ball(center, cfg.loadRadius))
    ensures NoneLost(s', Ball(center, cfg.loadRadius))
  {
    hide Frame, Square, Stepped, Served, ReadySet;
    var done, added := FrameChunkByChunk(cfg, center, dt, s, s');
    var ball := Ball(center, cfg.loadRadius);
    forall k | k in ball && k in s' ensures s'[k].state != Unloaded && s'[k].state != Unloading {
      SquareIsBall(center, cfg.loadRadius, k);
      if k in s {
        StaysInside(k, s[k], cfg, center, dt, k in done);
      }
    }
  }

  /** Consecutive frames around one chunk, each at least `d` milliseconds long. */
  ghost predicate Run(cfg: Config, center: Coord, d: real, run: seq<Chunks>, dts: seq<real>) {
    && |run| == |dts| + 1
    && Timed(run[0])
    && forall i :: 0 <= i < |dts| ==> dts[i] >= d && Frame(cfg, center, dts[i], run[i], run[i + 1])
  }

  lemma {:induction false} TimedAlong(cfg: Config, center: Coord, d: real, run: seq<Chunks>, dts: seq<real>, n: nat)
    requires Run(cfg, center, d, run, dts) && d > 0.0 && n <= |dts|
    ensures Timed(run[n])
  {
    hide Frame, Timed;
    if n == 0 {
    } else {
      TimedAlong(cfg, center, d, run, dts, n - 1);
      TimedStays(cfg, center, dts[n - 1], run[n - 1], run[n]);
    }
  }

  /** How many cells of the square were never requested. */
  function MissingCount(s: Chunks, ball: set<Coord>): nat {
    |ball - s.Keys|
  }

  function PendingCount(s: Chunks): nat {
    |PendingSet(s)|
  }

  /** One frame in numbers. */
  lemma FrameCounts(cfg: Config, center: Coord, dt: real, s: Chunks, s': Chunks)
    requires Frame(cfg, center, dt, s, s')
    ensures var ball := Ball(center, cfg.loadRadius);
            && MissingCount(s', ball) == MissingCount(s, ball) - Min(cfg.maxPendingLoads, MissingCount(s, ball))
            && PendingCount(s') + MissingCount(s', ball) ==
               PendingCount(s) + MissingCount(s, ball) - Min(cfg.maxPendingLoads, |ReadySet(s, dt)|)
  {
    hide Frame, Ball, Square;
    MissingShrinks(cfg, center, dt, s, s');
    WorkShrinks(cfg, center, dt, s, s');
  }

  lemma {:induction false} WorkAlong(cfg: Config, center: Coord, d: real, run: seq<Chunks>, dts: seq<real>, n: nat)
    requires Run(cfg, center, d, run, dts) && n <= |dts|
    ensures var ball := Ball(center, cfg.loadRadius);
            PendingCount(run[n]) + MissingCount(run[n], ball) <= PendingCount(run[0]) + MissingCount(run[0], ball)
  {
    hide Frame, Timed, Ball, MissingCount, PendingCount;
    if n == 0 {
    } else {
      WorkAlong(cfg, center, d, run, dts, n - 1);
      FrameCounts(cfg, center, dts[n - 1], run[n - 1], run[n]);
    }
  }

  lemma OneMore(n: nat, limit: nat)
    requires n > 0
    ensures n * limit == (n - 1) * limit + limit
  {
  }

  lemma FewerThanAll(s: Chunks, ball: set<Coord>)
    ensures MissingCount(s, ball) <= |ball|
  {
    assert |ball - s.Keys| + |ball * s.Keys| == |ball|;
  }

  /** First phase: the whole square is requested, the limit's worth per frame. */
  lemma {:induction false} Requesting(cfg: Config, center: Coord, d: real, run: seq<Chunks>, dts: seq<real>, n: nat)
    requires Run(cfg, center, d, run, dts) && n <= |dts|
    ensures var missing := MissingCount(run[n], Ball(center, cfg.loadRadius));
            missing == 0 || missing + n * cfg.maxPendingLoads <= |Ball(center, cfg.loadRadius)|
  {
    hide Frame, Timed, Ball, MissingCount;
    if n > 0 {
      Requesting(cfg, center, d, run, dts, n - 1);
      FrameCounts(cfg, center, dts[n - 1], run[n - 1], run[n]);
      OneMore(n, cfg.maxPendingLoads);
    } else {
      FewerThanAll(run[0], Ball(center, cfg.loadRadius));
    }
  }

  /** Every load still pending has been worked on for at least `age` milliseconds. */
  ghost predicate Aged(s: Chunks, age: real) {
    forall k :: k in PendingSet(s) ==> s[k].progress >= age
  }

  /** Once the square is requested nothing new is, and all pending loads age. */
  lemma AgedStep(cfg: Config, center: Coord, dt: real, s: Chunks, s': Chunks, age: real, d: real)
    requires Frame(cfg, center, dt, s, s') && MissingCount(s, Ball(center, cfg.loadRadius)) == 0
    requires Aged(s, age) && dt >= d
    ensures MissingCount(s', Ball(center, cfg.loadRadius)) == 0 && Aged(s', age + d)
  {
    hide Frame, Ball, Square;
    var done, added := FrameChunkByChunk(cfg, center, dt, s, s');
    assert added == {};
    assert s'.Keys == s.Keys;
    forall k | k in PendingSet(s') ensures s'[k].progress >= age + d {
      PendingProgress(cfg, center, dt, s, s', k);
    }
  }

  function AgeAfter(frames: nat, d: real): real {
    frames as real * d
  }

  lemma OneMoreFrame(t: nat, d: real)
    requires t > 0
    ensures AgeAfter(t, d) == AgeAfter(t - 1, d) + d
  {
    assert t as real == (t - 1) as real + 1.0;
  }

  /** Second phase: every load still pending has been advanced by every frame since. */
  lemma {:induction false} Aging(cfg: Config, center: Coord, d: real, run: seq<Chunks>, dts: seq<real>, from: nat,
                                 t: nat)
    requires Run(cfg, center, d, run, dts) && d > 0.0 && from + t <= |dts|
    requires MissingCount(run[from], Ball(center, cfg.loadRadius)) == 0
    ensures MissingCount(run[from + t], Ball(center, cfg.loadRadius)) == 0
    ensures Aged(run[from + t], AgeAfter(t, d))
  {
    hide Frame, Ball, MissingCount;
    if t == 0 {
      TimedAlong(cfg, center, d, run, dts, from);
    } else {
      hide Aged, AgeAfter;
      var i := from + t - 1;
      Aging(cfg, center, d, run, dts, from, t - 1);
      AgedStep(cfg, center, dts[i], run[i], run[i + 1], AgeAfter(t - 1, d), d);
      OneMoreFrame(t, d);
    }
  }

  lemma OldIsReady(s: Chunks, dt: real, age: real)
    requires Timed(s) && Aged(s, age) && age >= MAX_LOAD_MS && dt > 0.0
    ensures ReadySet(s, dt) == PendingSet(s)
  {
    forall k ensures k in ReadySet(s, dt) <==> k in PendingSet(s) {
    }
  }

  /** Third phase: all pending loads are ready, the limit's worth completes per frame. */
  lemma {:induction false} Draining(cfg: Config, center: Coord, d: real, run: seq<Chunks>, dts: seq<real>,
                                    from: nat, t: nat, q: nat)
    requires Run(cfg, center, d, run, dts) && d > 0.0 && from + t + q <= |dts|
    requires MissingCount(run[from], Ball(center, cfg.loadRadius)) == 0
    requires AgeAfter(t, d) >= MAX_LOAD_MS
    ensures var left := PendingCount(run[from + t + q]);
            left == 0 || left + q * cfg.maxPendingLoads <= PendingCount(run[from + t])
  {
    hide Frame, Ball, MissingCount, Timed, Aged, AgeAfter;
    if q == 0 {
    } else {
      var i := from + (t + (q - 1));
      Draining(cfg, center, d, run, dts, from, t, q - 1);
      TimedAlong(cfg, center, d, run, dts, i);
      Aging(cfg, center, d, run, dts, from, t + (q - 1));
      LongEnough(t, q - 1, d);
      assert dts[i] >= d;
      OldIsReady(run[i], dts[i], AgeAfter(t + (q - 1), d));
      Aging(cfg, center, d, run, dts, from, t + q);
      FrameCounts(cfg, center, dts[i], run[i], run[i + 1]);
      OneMore(q, cfg.maxPendingLoads);
    }
  }

  lemma LongEnough(t: nat, more: nat, d: real)
    requires d > 0.0 && AgeAfter(t, d) >= MAX_LOAD_MS
    ensures AgeAfter(t + more, d) >= MAX_LOAD_MS
  {
    assert (t + more) as real == t as real + more as real;
    assert (t + more) as real * d == t as real * d + more as real * d;
  }

  lemma {:induction false} NoneLostAlong(cfg: Config, center: Coord, d: real, run: seq<Chunks>, dts: seq<real>, n: nat)
    requires Run(cfg, center, d, run, dts) && 1 <= n <= |dts|
    requires forall k :: k in run[1] && Distance(k, center) <= cfg.loadRadius ==> run[1][k].state != Unloaded
    ensures NoneLost(run[n], Ball(center, cfg.loadRadius))
  {
    hide Frame, Square;
    if n == 1 {
      forall k | k in Ball(center, cfg.loadRadius) && k in run[1]
        ensures run[1][k].state != Unloaded && run[1][k].state != Unloading
      {
        SquareIsBall(center, cfg.loadRadius, k);
        LoadedIsNear(cfg, center, dts[0], run[0], run[1], k);
      }
    } else {
      NoneLostAlong(cfg, center, d, run, dts, n - 1);
      NoneLostStays(cfg, center, dts[n - 1], run[n - 1], run[n]);
    }
  }

  function CeilDiv(a: nat, b: nat): (q: nat)
    requires b > 0
    ensures a <= q * b < a + b
  {
    (a + b - 1) / b
  }

  /** Frames until the square is loaded: to request it, to age the loads, to complete the backlog. */
  function FrameBound(square: nat, limit: nat, d: real, pending: nat): (frames: nat)
    requires limit > 0 && d > 0.0
    ensures frames > 0
  {
    CeilDiv(square, limit) + ((MAX_LOAD_MS / d).Floor + 1) + CeilDiv(pending + square, limit)
  }

  /**
   While the player stays in one chunk, the whole square around it is loaded after a number of
   frames known in advance, whatever the iteration order of the table. The premise is needed:
   a chunk that was unloaded once is never requested again.
   */
  lemma SquareGetsLoaded(cfg: Config, center: Coord, d: real, run: seq<Chunks>, dts: seq<real>, k: Coord)
    requires Run(cfg, center, d, run, dts) && d > 0.0 && cfg.maxPendingLoads > 0
    requires |dts| == FrameBound(|Ball(center, cfg.loadRadius)|, cfg.maxPendingLoads, d, |PendingSet(run[0])|)
    requires forall c :: c in run[1] && Distance(c, center) <= cfg.loadRadius ==> run[1][c].state != Unloaded
    requires Distance(k, center) <= cfg.loadRadius
    ensures var last := run[|dts|]; k in last && last[k].state == Loaded
  {
    hide Frame, Square, Ball, Aged, Timed, CeilDiv, AgeAfter, MissingCount, PendingCount, NoneLost;
    var ball, limit := Ball(center, cfg.loadRadius), cfg.maxPendingLoads;
    var r, t, q := CeilDiv(|ball|, limit), (MAX_LOAD_MS / d).Floor + 1, CeilDiv(|PendingSet(run[0])| + |ball|, limit);
    InBall(center, cfg.loadRadius, k);
    Requesting(cfg, center, d, run, dts, r);
    Exhausted(MissingCount(run[r], ball), |ball|, |ball|, limit);
    AgeEnough(t, d);
    FewerThanAll(run[0], ball);
    WorkAlong(cfg, center, d, run, dts, r + t);
    Draining(cfg, center, d, run, dts, r, t, q);
    PendingIsCounted(run[0]);
    Exhausted(PendingCount(run[r + t + q]), PendingCount(run[r + t]), |PendingSet(run[0])| + |ball|, limit);
    Aging(cfg, center, d, run, dts, r, t + q);
    NoneLostAlong(cfg, center, d, run, dts, r + t + q);
    AllLoaded(run[r + t + q], ball, k);
  }

  lemma PendingIsCounted(s: Chunks)
    ensures PendingCount(s) == |PendingSet(s)|
  {
  }

  /** CeilDiv(total, limit) rounds of `limit` each are enough for `work`. */
  lemma Exhausted(left: nat, work: nat, total: nat, limit: nat)
    requires limit > 0 && work <= total
    requires left == 0 || left + CeilDiv(total, limit) * limit <= work
    ensures left == 0
  {
  }

  lemma AllLoaded(s: Chunks, ball: set<Coord>, k: Coord)
    requires MissingCount(s, ball) == 0 && PendingCount(s) == 0 && NoneLost(s, ball) && k in ball
    ensures k in s && s[k].state == Loaded
  {
    assert k !in ball - s.Keys;
    assert k !in PendingSet(s);
  }

  lemma InBall(center: Coord, r: nat, k: Coord)
    requires Distance(k, center) <= r
    ensures k in Ball(center, r)
  {
    SquareIsBall(center, r, k);
  }

  lemma AgeEnough(t: nat, d: real)
    requires d > 0.0 && t == (MAX_LOAD_MS / d).Floor + 1
    ensures AgeAfter(t, d) >= MAX_LOAD_MS
  {
    var x := MAX_LOAD_MS / d;
    assert t as real >= x;
    assert t as real * d >= x * d;
  }

  /** An unloaded chunk keeps its table entry, so it is never requested again. */
  lemma UnloadedForGood(cfg: Config, center: Coord, dt: real, s: Chunks, s': Chunks, k: Coord)
    requires Frame(cfg, center, dt, s, s') && k in s && s[k].state == Unloaded
    ensures k in s' && s'[k].state == Unloaded
  {
    hide Frame, Square, Ball;
    var done, added := FrameChunkByChunk(cfg, center, dt, s, s');
    assert s'[k] == Stepped(k, s[k], cfg, center, dt, k in done, k in Ball(center, cfg.loadRadius));
  }

  /** The seconds of the frames after the first. */
  function Away(dts: seq<real>, n: nat): real
    requires n <= |dts|
  {
    if n <= 1 then 0.0 else Away(dts, n - 1) + dts[n - 1] / 1000.0
  }

  /**
   A loaded chunk that the player leaves behind is lost exactly when the player stays away for the
   delay, counted from the frame after the one that notices.
   */
  lemma {:induction false} LeftBehindIff(cfg: Config, center: Coord, d: real, run: seq<Chunks>, dts: seq<real>,
                                         n: nat, k: Coord)
    requires Run(cfg, center, d, run, dts) && d > 0.0 && 1 <= n <= |dts|
    requires k in run[0] && run[0][k].state == Loaded && Distance(k, center) > cfg.loadRadius
    ensures k in run[n] && (run[n][k].state == Unloaded <==> n > 1 && Away(dts, n) >= cfg.unloadDelaySeconds as real)
    ensures run[n][k].state != Unloaded ==>
              run[n][k].state == Unloading && run[n][k].timer == cfg.unloadDelaySeconds as real - Away(dts, n)
  {
    hide Frame, Ball, Square;
    if n > 1 {
      LeftBehindIff(cfg, center, d, run, dts, n - 1, k);
      assert dts[n - 1] >= d;
    }
    SquareIsBall(center, cfg.loadRadius, k);
    LeavingStep(cfg, center, dts[n - 1], run[n - 1], run[n], k);
  }

  lemma LeavingStep(cfg: Config, center: Coord, dt: real, s: Chunks, s': Chunks, k: Coord)
    requires Frame(cfg, center, dt, s, s') && k in s && Distance(k, center) > cfg.loadRadius
    ensures k in s'
    ensures s[k].state == Loaded ==> s'[k].state == Unloading && s'[k].timer == cfg.unloadDelaySeconds as real
    ensures s[k].state == Unloading && s[k].timer - dt / 1000.0 > 0.0 ==>
              s'[k].state == Unloading && s'[k].timer == s[k].timer - dt / 1000.0
    ensures s[k].state == Unloaded || (s[k].state == Unloading && s[k].timer - dt / 1000.0 <= 0.0) ==>
              s'[k].state == Unloaded
  {
    hide Frame, Ball, Square;
    var done, added := FrameChunkByChunk(cfg, center, dt, s, s');
    assert s'[k] == Stepped(k, s[k], cfg, center, dt, k in done, k in Ball(center, cfg.loadRadius));
    if k in Ball(center, cfg.loadRadius) {
      BallIsNear(center, cfg.loadRadius, k);
    }
  }

  lemma {:induction false} UnloadedAlong(cfg: Config, center: Coord, d: real, run: seq<Chunks>, dts: seq<real>, n: nat,
                                         k: Coord)
    requires Run(cfg, center, d, run, dts) && 1 <= n <= |dts|
    requires k in run[1] && run[1][k].state == Unloaded
    ensures k in run[n] && run[n][k].state == Unloaded
  {
    hide Frame;
    if n > 1 {
      UnloadedAlong(cfg, center, d, run, dts, n - 1, k);
      UnloadedForGood(cfg, center, dts[n - 1], run[n - 1], run[n], k);
    }
  }

  /** Is a chunk unloaded, or will the first frame unload it? */
  predicate Lost(s: Chunks, k: Coord, dt: real) {
    k in s && (s[k].state == Unloaded || (s[k].state == Unloading && s[k].timer - dt / 1000.0 <= 0.0))
  }

  /** In the square a frame leaves exactly those chunks unloaded. */
  lemma UnloadedAfterIff(cfg: Config, center: Coord, dt: real, s: Chunks, s': Chunks, k: Coord)
    requires Frame(cfg, center, dt, s, s') && Distance(k, center) <= cfg.loadRadius
    ensures k in s' && s'[k].state == Unloaded <==> Lost(s, k, dt)
  {
    hide Frame, Square, Ball;
    var done, added := FrameChunkByChunk(cfg, center, dt, s, s');
    InBall(center, cfg.loadRadius, k);
    if k in s {
      assert s'[k] == Stepped(k, s[k], cfg, center, dt, k in done, k in Ball(center, cfg.loadRadius));
    }
  }

  /**
   While the player stays, the square is loaded after the number of frames known in advance exactly if
   at the first of them no chunk of it is unloaded or due to be.
   */
  lemma SquareLoadedIff(cfg: Config, center: Coord, d: real, run: seq<Chunks>, dts: seq<real>)
    requires Run(cfg, center, d, run, dts) && d > 0.0 && cfg.maxPendingLoads > 0
    requires |dts| == FrameBound(|Ball(center, cfg.loadRadius)|, cfg.maxPendingLoads, d, |PendingSet(run[0])|)
    ensures (forall k :: Distance(k, center) <= cfg.loadRadius ==>
               k in run[|dts|] && run[|dts|][k].state == Loaded) <==>
            (forall k :: Distance(k, center) <= cfg.loadRadius ==> !Lost(run[0], k, dts[0]))
  {
    hide Frame, Ball, Distance, FrameBound, Lost;
    forall k | Distance(k, center) <= cfg.loadRadius
      ensures k in run[1] && run[1][k].state == Unloaded <==> Lost(run[0], k, dts[0])
    {
      UnloadedAfterIff(cfg, center, dts[0], run[0], run[1], k);
    }
    if k :| k in run[1] && Distance(k, center) <= cfg.loadRadius && run[1][k].state == Unloaded {
      UnloadedAlong(cfg, center, d, run, dts, |dts|, k);
    } else {
      forall k | Distance(k, center) <= cfg.loadRadius ensures k in run[|dts|] && run[|dts|][k].state == Loaded {
        SquareGetsLoaded(cfg, center, d, run, dts, k);
      }
    }
  }

  // -------------------------------------------------------------------------
  // The streamer
  // -------------------------------------------------------------------------

  predicate IsResident(c: Chunk) {
    c.state == Loaded || c.state == Unloading
  }

  function Resident(s: Chunks): set<Coord> {
    set k | k in s && IsResident(s[k])
  }

  lemma ResidentChange(s: Chunks, k: Coord, c: Chunk)
    requires k in s
    ensures |Resident(s[k := c])| ==
            |Resident(s)| - (if IsResident(s[k]) then 1 else 0) + (if IsResident(c) then 1 else 0)
  {
    assert Resident(s[k := c]) == (Resident(s) - {k}) + (if IsResident(c) then {k} else {});
  }

  /** The chunks of the square that are on their way out. */
  function Leaving(s: Chunks, ball: set<Coord>): set<Coord> {
    set k | k in ball && k in s && s[k].state == Unloading
  }

  /** Those whose delay does not run out in this frame: they are kept. */
  function Rescued(s: Chunks, ball: set<Coord>, dt: real): set<Coord> {
    set k | k in ball && k in s && s[k].state == Unloading && s[k].timer - dt / 1000.0 > 0.0
  }

  lemma LeavingIsRescued(cfg: Config, center: Coord, dt: real, s: Chunks, done: set<Coord>)
    ensures var mid, ball := RetireAll(AdvanceAll(s, dt, done), center, cfg), Ball(center, cfg.loadRadius);
            Leaving(mid, ball) == Rescued(s, ball, dt)
  {
    var mid, ball := RetireAll(AdvanceAll(s, dt, done), center, cfg), Ball(center, cfg.loadRadius);
    hide Square, Ball;
    assert mid.Keys == s.Keys;
    forall k | k in ball && k in s ensures k in Leaving(mid, ball) <==> k in Rescued(s, ball, dt) {
      BallIsNear(center, cfg.loadRadius, k);
      assert mid[k] == Advance(s[k], dt, k in done);
    }
  }

  lemma BallIsNear(center: Coord, r: nat, k: Coord)
    requires k in Ball(center, r)
    ensures Distance(k, center) <= r
  {
    SquareIsBall(center, r, k);
  }

  /** When all cells were visited nothing in the square is leaving. */
  lemma NoneLeaving(s: Chunks, center: Coord, r: nat, limit: nat)
    ensures Leaving(VisitCells(s, Square(center, r), limit).chunks, Ball(center, r)) == {}
  {
    hide VisitCells, Square;
    SquareDistinct(center, r);
    var added := CellsVisited(s, Square(center, r), limit);
  }

  class SceneStreamer {
    var cfg: Config
    var chunks: Chunks
    var loadedCounter: nat            // the running counter; a cancelled unload is counted again
    var requestedLoads: nat
    ghost var cancels: nat            // unloads cancelled since the last ForceUnloadAll

    /** Every chunk was requested once; the running counter overshoots by the cancelled unloads. */
    ghost predicate Booked()
      reads this
    {
      && requestedLoads == |chunks|
      && loadedCounter == |Resident(chunks)| + cancels
    }

    /** Between frames the load times are in order too, so that every run of the streamer is one of `Run`. */
    ghost predicate Valid()
      reads this
    {
      Booked() && Timed(chunks)
    }

    constructor (cfg: Config)
      ensures Valid() && this.cfg == cfg && chunks == map[]
    {
      this.cfg := cfg;
      chunks := map[];
      loadedCounter, requestedLoads, cancels := 0, 0, 0;
    }

    function CenterOf(playerX: real, playerZ: real): (center: Coord)
      reads this`cfg
      ensures Under(cfg, center, playerX, playerZ)
    {
      var cs := if cfg.chunkSize > 0.0 then cfg.chunkSize else 128.0;
      var x, z := (playerX / cs).Floor, (playerZ / cs).Floor;
      FloorScaled(playerX, cs, x);
      FloorScaled(playerZ, cs, z);
      Coord(x, z)
    }

    function FrameTime(dtMs: real): (dt: real)
      ensures dt > 0.0
    {
      if dtMs > 0.0 then dtMs else 16.0
    }

    /** One frame; the running counter overshoots by one more for every chunk that was leaving and is near again. */
    method Update(playerX: real, playerZ: real, dtMs: real)
      requires Valid()
      modifies this`chunks, this`loadedCounter, this`requestedLoads, this`cancels
      ensures Valid()
      ensures Frame(cfg, CenterOf(playerX, playerZ), FrameTime(dtMs), old(chunks), chunks)
      ensures var dt := if dtMs > 0.0 then dtMs else 16.0;
              exists center, done, added ::
                Under(cfg, center, playerX, playerZ) && FrameAround(cfg, center, dt, old(chunks), chunks, done, added)
      ensures var ball := Ball(CenterOf(playerX, playerZ), cfg.loadRadius);
              cancels == old(cancels) + |Rescued(old(chunks), ball, FrameTime(dtMs))|
    {
      hide Timed, Square, Rescued, Leaving;
      var center := CenterOf(playerX, playerZ);
      var dt := FrameTime(dtMs);
      ghost var done := StepA(dt);
      StepB(center);
      StepC(center);
      TimedStays(cfg, center, dt, old(chunks), chunks);
      LeavingIsRescued(cfg, center, dt, old(chunks), done);
      hide Frame, FrameAround, Under;
      ghost var completed, added := FrameIsAround(cfg, center, dt, old(chunks), chunks);
    }

    /** Advances pending and leaving chunks, in whatever order the table yields them. */
    method StepA(dt: real) returns (ghost done: set<Coord>)
      requires Booked()
      modifies this`chunks, this`loadedCounter
      ensures Booked()
      ensures done <= ReadySet(old(chunks), dt)
      ensures |done| == Min(cfg.maxPendingLoads, |ReadySet(old(chunks), dt)|)
      ensures chunks == AdvanceAll(old(chunks), dt, done)
    {
      ghost var before := chunks;
      var completions := 0;
      var todo := chunks.Keys;
      done := {};
      ghost var seen := {};             // the ready chunks met so far
      while todo != {}
        invariant Booked() && todo <= before.Keys && done <= seen
        invariant Allotted(done, seen, completions, cfg.maxPendingLoads)
        invariant Halfway(before, chunks, dt, todo, seen, done)
      {
        hide Allotted, Halfway, Advance, ReadySet, AdvanceAll;
        var k :| k in todo;
        HalfwayAt(before, chunks, dt, todo, seen, done, k);
        var c := chunks[k];
        var completes := Ready(c, dt) && completions < cfg.maxPendingLoads;
        ghost var seen', done' := if Ready(c, dt) then seen + {k} else seen, if completes then done + {k} else done;
        HalfwayStep(before, chunks, dt, todo, seen, done, k, completes);
        if Ready(c, dt) {
          AllotOne(done, seen, completions, cfg.maxPendingLoads, k);
          if completes {
            completions := completions + 1;
          }
        }
        OnlyUnloads(c, dt, completes);
        Replace(k, Advance(c, dt, completes));
        todo, seen, done := todo - {k}, seen', done';
      }
      HalfwayDone(before, chunks, dt, seen, done);
    }

    /** The chunks outside `todo` have been advanced; `seen` are the ready ones among them. */
    static ghost predicate Halfway(before: Chunks, now: Chunks, dt: real, todo: set<Coord>, seen: set<Coord>,
                                   done: set<Coord>)
    {
      && now.Keys == before.Keys
      && (forall k :: k in seen <==> k in ReadySet(before, dt) && k !in todo)
      && (forall k :: k in before ==> now[k] == if k in todo then before[k] else Advance(before[k], dt, k in done))
    }

    static lemma HalfwayDone(before: Chunks, now: Chunks, dt: real, seen: set<Coord>, done: set<Coord>)
      requires Halfway(before, now, dt, {}, seen, done)
      ensures seen == ReadySet(before, dt) && now == AdvanceAll(before, dt, done)
    {
    }

    static lemma OnlyUnloads(c: Chunk, dt: real, completes: bool)
      ensures IsResident(c) && !IsResident(Advance(c, dt, completes)) ==> Advance(c, dt, completes).state == Unloaded
    {
    }

    static predicate Allotted(done: set<Coord>, seen: set<Coord>, completions: nat, limit: nat) {
      |done| == completions == Min(limit, |seen|)
    }

    static lemma AllotOne(done: set<Coord>, seen: set<Coord>, completions: nat, limit: nat, k: Coord)
      requires Allotted(done, seen, completions, limit) && done <= seen && k !in seen
      ensures completions < limit ==> Allotted(done + {k}, seen + {k}, completions + 1, limit)
      ensures completions >= limit ==> Allotted(done, seen + {k}, completions, limit)
    {
    }

    static lemma HalfwayAt(before: Chunks, now: Chunks, dt: real, todo: set<Coord>, seen: set<Coord>, done: set<Coord>,
                           k: Coord)
      requires Halfway(before, now, dt, todo, seen, done) && k in todo && todo <= before.Keys
      ensures k in now && now[k] == before[k] && k !in seen
    {
    }

    static lemma HalfwayStep(before: Chunks, now: Chunks, dt: real, todo: set<Coord>, seen: set<Coord>,
                             done: set<Coord>, k: Coord, completes: bool)
      requires Halfway(before, now, dt, todo, seen, done) && k in todo && todo <= before.Keys && done <= seen
      requires completes ==> Ready(before[k], dt)
      ensures k in now && Halfway(before, now[k := Advance(now[k], dt, completes)], dt, todo - {k},
                      if Ready(now[k], dt) then seen + {k} else seen, if completes then done + {k} else done)
    {
      var now' := now[k := Advance(now[k], dt, completes)];
      assert now'.Keys == now.Keys;
      assert k !in done;
    }

    /** Stores one chunk and keeps the running counter in step: up on load, down on unload. */
    method Replace(k: Coord, c: Chunk)
      requires Booked() && k in chunks
      requires IsResident(chunks[k]) && !IsResident(c) ==> c.state == Unloaded
      modifies this`chunks, this`loadedCounter
      ensures Booked() && chunks == old(chunks)[k := c]
    {
      ResidentChange(chunks, k, c);
      assert chunks[k := c].Keys == chunks.Keys;
      if IsResident(c) && !IsResident(chunks[k]) {
        loadedCounter := loadedCounter + 1;
      } else if IsResident(chunks[k]) && !IsResident(c) {
        assert k in Resident(chunks);
        if loadedCounter > 0 {
          loadedCounter := loadedCounter - 1;
        }
      }
      chunks := chunks[k := c];
    }

    /** Loaded chunks outside the radius start to leave. */
    method StepB(center: Coord)
      requires Booked()
      modifies this`chunks, this`loadedCounter
      ensures Booked() && chunks == RetireAll(old(chunks), center, cfg)
    {
      ghost var before := chunks;
      var todo := chunks.Keys;
      while todo != {}
        invariant Booked() && chunks.Keys == before.Keys && todo <= before.Keys
        invariant forall k :: k in before ==>
          chunks[k] == if k in todo then before[k] else Retire(k, before[k], center, cfg)
      {
        var k :| k in todo;
        todo := todo - {k};
        Replace(k, Retire(k, chunks[k], center, cfg));
      }
    }

    /** Row by row through the square: request what is unknown, keep what was leaving. */
    method StepC(center: Coord)
      requires Booked()
      modifies this`chunks, this`loadedCounter, this`requestedLoads, this`cancels
      ensures Booked()
      ensures chunks == VisitCells(old(chunks), Square(center, cfg.loadRadius), cfg.maxPendingLoads).chunks
      ensures cancels == old(cancels) + |Leaving(old(chunks), Ball(center, cfg.loadRadius))|
    {
      hide VisitCells, Leaving;
      ghost var before := chunks;
      ghost var ball := Ball(center, cfg.loadRadius);
      var newLoads := 0;
      Nothing(chunks, cfg.maxPendingLoads);
      for dz := 0 to Width(cfg.loadRadius)
        invariant Booked()
        invariant Requests(chunks, newLoads)
                  == VisitCells(before, Rows(center, cfg.loadRadius, dz), cfg.maxPendingLoads)
        invariant cancels + |Leaving(chunks, ball)| == old(cancels) + |Leaving(before, ball)|
      {
        newLoads := VisitRow(center, dz, newLoads, before);
      }
      NoneLeaving(before, center, cfg.loadRadius, cfg.maxPendingLoads);
    }

    static lemma Nothing(s: Chunks, limit: nat)
      ensures VisitCells(s, [], limit) == Requests(s, 0)
    {
    }

    method VisitRow(center: Coord, dz: nat, newLoads: nat, ghost before: Chunks) returns (issued: nat)
      requires Booked()
      requires Requests(chunks, newLoads) == VisitCells(before, Rows(center, cfg.loadRadius, dz), cfg.maxPendingLoads)
      requires dz < Width(cfg.loadRadius)
      modifies this`chunks, this`loadedCounter, this`requestedLoads, this`cancels
      ensures Booked()
      ensures Requests(chunks, issued) == VisitCells(before, Rows(center, cfg.loadRadius, dz + 1), cfg.maxPendingLoads)
      ensures var ball := Ball(center, cfg.loadRadius);
              cancels + |Leaving(chunks, ball)| == old(cancels) + |Leaving(old(chunks), ball)|
    {
      hide VisitCells, VisitCell, Leaving, Ball;
      var r := cfg.loadRadius;
      ghost var front, ball := Rows(center, r, dz), Ball(center, r);
      issued := newLoads;
      assert front + Row(center, r, dz, 0) == front;
      for dx := 0 to Width(r)
        invariant Booked()
        invariant Requests(chunks, issued) == VisitCells(before, front + Row(center, r, dz, dx), cfg.maxPendingLoads)
        invariant cancels + |Leaving(chunks, ball)| == old(cancels) + |Leaving(old(chunks), ball)|
      {
        var c := Coord(center.x - r + dx, center.z - r + dz);
        NextCell(before, front, center, r, dz, dx, c, cfg.maxPendingLoads);
        InBall(center, r, c);
        issued := Visit(c, issued, ball);
      }
    }

    static lemma NextCell(s: Chunks, front: seq<Coord>, center: Coord, r: nat, dz: nat, dx: nat, c: Coord, limit: nat)
      requires c == Coord(center.x - r + dx, center.z - r + dz)
      ensures VisitCells(s, front + Row(center, r, dz, dx + 1), limit) ==
              VisitCell(VisitCells(s, front + Row(center, r, dz, dx), limit), c, limit)
    {
      var cells := front + Row(center, r, dz, dx + 1);
      assert cells[..|cells| - 1] == front + Row(center, r, dz, dx);
    }

    method Visit(c: Coord, newLoads: nat, ghost ball: set<Coord>) returns (issued: nat)
      requires Booked() && c in ball
      modifies this`chunks, this`loadedCounter, this`requestedLoads, this`cancels
      ensures Booked()
      ensures Requests(chunks, issued) == VisitCell(Requests(old(chunks), newLoads), c, cfg.maxPendingLoads)
      ensures cancels + |Leaving(chunks, ball)| == old(cancels) + |Leaving(old(chunks), ball)|
    {
      issued := newLoads;
      if c !in chunks {
        if newLoads < cfg.maxPendingLoads {
          assert Resident(chunks[c := NewChunk(c)]) == Resident(chunks);
          assert chunks[c := NewChunk(c)].Keys == chunks.Keys + {c};
          assert Leaving(chunks[c := NewChunk(c)], ball) == Leaving(chunks, ball);
          chunks := chunks[c := NewChunk(c)];
          requestedLoads := requestedLoads + 1;
          issued := newLoads + 1;
        }
      } else if chunks[c].state == Unloading {
        assert Leaving(chunks[c := chunks[c].(state := Loaded)], ball) == Leaving(chunks, ball) - {c};
        assert c in Leaving(chunks, ball);
        Replace(c, chunks[c].(state := Loaded));
        loadedCounter := loadedCounter + 1;
        cancels := cancels + 1;
      }
    }

    /** Drops everything at once; pending loads are dropped too, and the counter starts over. */
    method ForceUnloadAll()
      requires Valid()
      modifies this`chunks, this`loadedCounter, this`cancels
      ensures Valid() && loadedCounter == 0
      ensures chunks == map k | k in old(chunks) :: old(chunks)[k].(state := Unloaded)
    {
      chunks := map k | k in chunks :: chunks[k].(state := Unloaded);
      assert chunks.Keys == old(chunks.Keys);
      assert Resident(chunks) == {};
      loadedCounter, cancels := 0, 0;
    }

    /** The statistics recount the table instead of trusting the running counter. */
    method Stats() returns (loaded: nat, pending: nat)
      ensures loaded == |LoadedSet(chunks)| && pending == |PendingSet(chunks)|
    {
      loaded, pending := 0, 0;
      var todo := chunks.Keys;
      ghost var seenLoaded, seenPending: set<Coord> := {}, {};
      while todo != {}
        invariant todo <= chunks.Keys
        invariant forall k :: k in seenLoaded <==> k in LoadedSet(chunks) && k !in todo
        invariant forall k :: k in seenPending <==> k in PendingSet(chunks) && k !in todo
        invariant loaded == |seenLoaded| && pending == |seenPending|
      {
        var k :| k in todo;
        todo := todo - {k};
        if chunks[k].state == Loaded {
          loaded := loaded + 1;
          seenLoaded := seenLoaded + {k};
        } else if chunks[k].state == Pending {
          pending := pending + 1;
          seenPending := seenPending + {k};
        }
      }
      assert seenLoaded == LoadedSet(chunks);
      assert seenPending == PendingSet(chunks);
    }

    /** Why: the counter exceeds the loaded chunks by the leaving ones and every cancelled unload. */
    lemma CounterDrift()
      requires Valid()
      ensures loadedCounter == |LoadedSet(chunks)| + |LeavingSet(chunks)| + cancels
    {
      assert Resident(chunks) == LoadedSet(chunks) + LeavingSet(chunks);
    }
  }

  /** A streamer whose square will never be loaded: something of it was requested, and all was dropped at once. */
  method DroppedSquare(cfg: Config, x: real, z: real) returns (s: SceneStreamer, ghost k: Coord)
    requires cfg.maxPendingLoads > 0
    ensures s.Valid() && s.cfg == cfg && Distance(k, s.CenterOf(x, z)) <= cfg.loadRadius
    ensures forall dt :: Lost(s.chunks, k, dt)
  {
    hide Frame, Timed, Ball, Square, Rescued;
    s := new SceneStreamer(cfg);
    s.Update(x, z, 16.0);
    k := SomeRequested(cfg, s.CenterOf(x, z), s.FrameTime(16.0), s.chunks);
    s.ForceUnloadAll();
  }

  /** The first frame requests something. */
  lemma SomeRequested(cfg: Config, center: Coord, dt: real, s: Chunks) returns (k: Coord)
    requires Frame(cfg, center, dt, map[], s) && cfg.maxPendingLoads > 0
    ensures k in s && Distance(k, center) <= cfg.loadRadius
  {
    hide Frame, Square, Ball;
    var ball := Ball(center, cfg.loadRadius);
    var none: Chunks := map[];
    MissingShrinks(cfg, center, dt, none, s);
    BallSize(center, cfg.loadRadius);
    assert ball - none.Keys == ball;
    assert |ball - s.Keys| + |ball * s.Keys| == |ball|;
    k :| k in ball * s.Keys;
    BallIsNear(center, cfg.loadRadius, k);
  }

  /** A streamer whose running counter has drifted: its one chunk was leaving when the player came back. */
  method DriftedCounter() returns (s: SceneStreamer)
    ensures s.Valid() && s.loadedCounter > |LoadedSet(s.chunks)| + |LeavingSet(s.chunks)|
  {
    hide Frame, Timed, Ball, Square;
    var cfg := Config(128.0, 0, 10, 1);
    var home := Coord(0, 0);
    s := new SceneStreamer(cfg);
    s.Update(0.0, 0.0, 16.0);
    OnlyHome(cfg, home, 16.0, s.chunks);
    ghost var requested := s.chunks;
    LoadTimeIs(requested, home);
    s.Update(0.0, 0.0, MAX_LOAD_MS);
    CompletesAlone(cfg, home, MAX_LOAD_MS, requested, s.chunks, home);
    ghost var loaded := s.chunks;
    s.Update(1000.0, 0.0, 16.0);
    assert s.CenterOf(1000.0, 0.0) == Coord(7, 0);
    LeavingStep(cfg, Coord(7, 0), 16.0, loaded, s.chunks, home);
    InBall(home, 0, home);
    assert home in Rescued(s.chunks, Ball(home, 0), 16.0);
    s.Update(0.0, 0.0, 16.0);
    s.CounterDrift();
  }

  /** With radius 0 the first frame requests the chunk of the player and nothing else. */
  lemma OnlyHome(cfg: Config, home: Coord, dt: real, s: Chunks)
    requires Frame(cfg, home, dt, map[], s) && cfg.maxPendingLoads > 0 && cfg.loadRadius == 0
    ensures s == map[home := NewChunk(home)]
  {
    hide Frame, Square, Ball;
    var none: Chunks := map[];
    var done, added := FrameChunkByChunk(cfg, home, dt, none, s);
    var k := SomeRequested(cfg, home, dt, s);
    forall c | c in s ensures c == home {
      BallIsNear(home, 0, c);
    }
    assert s.Keys == {home};
  }

  lemma LoadTimeIs(s: Chunks, k: Coord)
    requires Timed(s) && s == map[k := NewChunk(k)]
    ensures ReadySet(s, MAX_LOAD_MS) == {k}
  {
    assert k in s;
  }

  /** A load that is the only one ready completes. */
  lemma CompletesAlone(cfg: Config, center: Coord, dt: real, s: Chunks, s': Chunks, k: Coord)
    requires Frame(cfg, center, dt, s, s') && ReadySet(s, dt) == {k} && cfg.maxPendingLoads > 0
    requires Distance(k, center) <= cfg.loadRadius
    ensures k in s' && s'[k].state == Loaded
  {
    hide Frame, Square, Ball;
    var done, added := FrameChunkByChunk(cfg, center, dt, s, s');
    assert |ReadySet(s, dt)| == 1;
    assert |ReadySet(s, dt) - done| == |ReadySet(s, dt)| - |done|;
    assert k in done;
    assert s'[k] == Stepped(k, s[k], cfg, center, dt, k in done, k in Ball(center, cfg.loadRadius));
  }

  function LoadedSet(s: Chunks): set<Coord> {
    set k | k in s && s[k].state == Loaded
  }

  function LeavingSet(s: Chunks): set<Coord> {
    set k | k in s && s[k].state == Unloading
  }
}
