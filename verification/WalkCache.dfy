/** The walk cache of a creature (engine/src/creature.cpp): a window of walkable tiles kept
    around the creature, scrolled in place on a step instead of being rebuilt.

    Tiles are abstract.  A `World` says of every map position whether the creature could
    walk there (`tile && tile->queryAdd(...) == RETURNVALUE_NOERROR`), and is an input of
    every operation that looks tiles up. */
module WalkCache {
  import opened Common

  // ----- Positions and worlds ------------------------------------------------------------

  type Coord = x: int | 0 <= x < 0x1_0000
  type Level = z: int | 0 <= z < 0x100

  datatype Position = Position(x: Coord, y: Coord, z: Level)

  type World = Position -> bool

  const REACH_X := 18
  const REACH_Y := 18
  const WIDTH := 2 * REACH_X + 1
  const HEIGHT := 2 * REACH_Y + 1

  // Assigning to a uint16_t coordinate; no sum here leaves the range by a full turn.
  function Wrap(n: int): (w: Coord)
    requires -0x1_0000 <= n < 0x2_0000
    ensures w == n % 0x1_0000
  {
    if n < 0 then n + 0x1_0000 else if n < 0x1_0000 then n else n - 0x1_0000
  }

  predicate InMap(x: int, y: int) {
    0 <= x < 0x1_0000 && 0 <= y < 0x1_0000
  }

  predicate InWindow(r: int, c: int) {
    0 <= r < HEIGHT && 0 <= c < WIDTH
  }

  // What a fetch of the tile at the given offset from `pos` finds.
  function Look(walk: World, pos: Position, dx: int, dy: int): bool
    requires -0x1_0000 <= dx <= 0x1_0000 && -0x1_0000 <= dy <= 0x1_0000
  {
    walk(Position(Wrap(pos.x + dx), Wrap(pos.y + dy), pos.z))
  }

  // A step that is not a teleport: same floor, at most one tile on each axis.
  predicate IsStep(oldPos: Position, newPos: Position) {
    oldPos.z == newPos.z && Abs(newPos.x - oldPos.x) <= 1 && Abs(newPos.y - oldPos.y) <= 1
  }

  // South-east and south-west.
  predicate IsSouthDiagonal(oldPos: Position, newPos: Position) {
    newPos.y > oldPos.y && newPos.x != oldPos.x
  }

  // ----- The window as a value -----------------------------------------------------------

  type Grid = g: seq<seq<bool>> | |g| == HEIGHT && forall r :: 0 <= r < HEIGHT ==> |g[r]| == WIDTH
    witness seq(HEIGHT, _ => seq(WIDTH, _ => false))

  function Fill(f: (int, int) -> bool): (g: Grid)
    ensures forall r, c :: InWindow(r, c) ==> g[r][c] == f(r, c)
  {
    seq(HEIGHT, r => seq(WIDTH, c => f(r, c)))
  }

  lemma GridEquality(g: Grid, h: Grid)
    requires forall r, c :: InWindow(r, c) ==> g[r][c] == h[r][c]
    ensures g == h
  {
    forall r | 0 <= r < HEIGHT
      ensures g[r] == h[r]
    {
      forall c | 0 <= c < WIDTH
        ensures g[r][c] == h[r][c]
      {
        assert InWindow(r, c);
      }
    }
  }

  // The window shows the world: every cell whose tile lies on the map, other than the
  // creature's own cell, holds what a direct look at its tile would answer.
  ghost predicate Synced(g: Grid, pos: Position, walk: World) {
    forall r, c :: InWindow(r, c) && (r != REACH_Y || c != REACH_X) ==> Shows(g, pos, walk, r, c)
  }

  ghost predicate Shows(g: Grid, pos: Position, walk: World, r: int, c: int)
    requires InWindow(r, c)
  {
    InMap(pos.x + c - REACH_X, pos.y + r - REACH_Y) ==> g[r][c] == Look(walk, pos, c - REACH_X, r - REACH_Y)
  }

  // The two worlds agree outside the listed tiles.
  ghost predicate AgreeExcept(before: World, after: World, tiles: set<Position>) {
    forall p :: p !in tiles ==> before(p) == after(p)
  }

  // A full rebuild leaves exactly the cells of tiles beyond the map edge as they were.
  function Rebuilt(before: Grid, walk: World, pos: Position): Grid {
    Fill((r, c) => if !InWindow(r, c) then false
                   else if InMap(pos.x + c - REACH_X, pos.y + r - REACH_Y) then
                       Look(walk, pos, c - REACH_X, r - REACH_Y)
                   else before[r][c])
  }

  // One refetched tile; a tile outside the window changes nothing.
  function Refreshed(before: Grid, value: bool, dx: int, dy: int): Grid {
    Fill((r, c) => if r == REACH_Y + dy && c == REACH_X + dx then value
                   else if InWindow(r, c) then before[r][c] else false)
  }

  // ----- Scrolling -----------------------------------------------------------------------

  // The vertical phase: every row moves by one, the row entering the window is fetched.
  function RowCell(g: Grid, walk: World, oldPos: Position, newPos: Position, r: int, c: int): bool
    requires InWindow(r, c)
  {
    if oldPos.y > newPos.y then
      if r == 0 then Look(walk, newPos, c - REACH_X, -REACH_Y) else g[r - 1][c]
    else if oldPos.y < newPos.y then
      if r == HEIGHT - 1 then Look(walk, newPos, c - REACH_X, REACH_Y) else g[r + 1][c]
    else g[r][c]
  }

  // The rows the horizontal phase moves.
  predicate RowMoves(dy: int, r: int) {
    (if dy > 0 then dy else 0) <= r <= (if dy < 0 then HEIGHT - 1 + dy else HEIGHT - 1)
  }

  // The horizontal phase: the selected rows move by one, the column entering is fetched.
  function ColumnCell(g: Grid, walk: World, oldPos: Position, newPos: Position, dy: int, r: int, c: int): bool
    requires InWindow(r, c)
  {
    if oldPos.x < newPos.x then
      if c == WIDTH - 1 then Look(walk, newPos, REACH_X, r - REACH_Y)
      else RowCell(g, walk, oldPos, newPos, r, if RowMoves(dy, r) then c + 1 else c)
    else if oldPos.x > newPos.x then
      if c == 0 then Look(walk, newPos, -REACH_X, r - REACH_Y)
      else RowCell(g, walk, oldPos, newPos, r, if RowMoves(dy, r) then c - 1 else c)
    else RowCell(g, walk, oldPos, newPos, r, c)
  }

  // Both phases; the refetch of the tile just left comes last.
  function ScrolledCell(g: Grid, walk: World, oldPos: Position, newPos: Position, dy: int, r: int, c: int): bool
    requires InWindow(r, c)
  {
    if r == REACH_Y + oldPos.y - newPos.y && c == REACH_X + oldPos.x - newPos.x then walk(oldPos)
    else ColumnCell(g, walk, oldPos, newPos, dy, r, c)
  }

  function Scrolled(g: Grid, walk: World, oldPos: Position, newPos: Position, dy: int): Grid {
    Fill((r, c) => InWindow(r, c) && ScrolledCell(g, walk, oldPos, newPos, dy, r, c))
  }

  // With the signed offset every cell either moves as a whole or is fetched.
  lemma SignedScrollMoves(g: Grid, walk: World, oldPos: Position, newPos: Position, r: int, c: int)
    requires IsStep(oldPos, newPos) && InWindow(r, c)
    ensures ScrolledCell(g, walk, oldPos, newPos, oldPos.y - newPos.y, r, c)
         == var (dx, dy) := (newPos.x - oldPos.x, newPos.y - oldPos.y);
            (if r + dy == REACH_Y && c + dx == REACH_X then walk(oldPos)
             else if InWindow(r + dy, c + dx) then g[r + dy][c + dx]
             else Look(walk, newPos, c - REACH_X, r - REACH_Y))
  {
  }

  // An old cell still tells the truth about a tile the step did not touch.
  lemma UntouchedTile(g: Grid, before: World, after: World, oldPos: Position, newPos: Position, r: int, c: int,
                      p: Position)
    requires InWindow(r, c) && Shows(g, oldPos, before, r, c) && AgreeExcept(before, after, {oldPos, newPos})
    requires p != oldPos && p != newPos
    requires p.x == oldPos.x + c - REACH_X && p.y == oldPos.y + r - REACH_Y && p.z == oldPos.z
    ensures g[r][c] == after(p)
  {
    assert before(p) == after(p);
  }

  // A cell that was right moves to a cell that is right; the others are fetched.
  lemma SignedScrollCell(g: Grid, before: World, after: World, oldPos: Position, newPos: Position, r: int, c: int)
    requires IsStep(oldPos, newPos) && AgreeExcept(before, after, {oldPos, newPos})
    requires InWindow(r, c) && (r != REACH_Y || c != REACH_X)
    requires InMap(newPos.x + c - REACH_X, newPos.y + r - REACH_Y)
    requires var (r', c') := (r + newPos.y - oldPos.y, c + newPos.x - oldPos.x);
             InWindow(r', c') && (r' != REACH_Y || c' != REACH_X) ==> Shows(g, oldPos, before, r', c')
    ensures ScrolledCell(g, after, oldPos, newPos, oldPos.y - newPos.y, r, c)
            == Look(after, newPos, c - REACH_X, r - REACH_Y)
  {
    var dx, dy := newPos.x - oldPos.x, newPos.y - oldPos.y;
    SignedScrollMoves(g, after, oldPos, newPos, r, c);
    var p := Position(newPos.x + c - REACH_X, newPos.y + r - REACH_Y, newPos.z);
    assert Look(after, newPos, c - REACH_X, r - REACH_Y) == after(p);
    if p != oldPos && InWindow(r + dy, c + dx) {
      UntouchedTile(g, before, after, oldPos, newPos, r + dy, c + dx, p);
    }
  }

  // With the signed vertical offset the scroll is exact for all eight directions.
  lemma SignedScrollIsExact(g: Grid, before: World, after: World, oldPos: Position, newPos: Position)
    requires IsStep(oldPos, newPos)
    requires Synced(g, oldPos, before) && AgreeExcept(before, after, {oldPos, newPos})
    ensures Synced(Scrolled(g, after, oldPos, newPos, oldPos.y - newPos.y), newPos, after)
  {
    var h := Scrolled(g, after, oldPos, newPos, oldPos.y - newPos.y);
    forall r, c | InWindow(r, c) && (r != REACH_Y || c != REACH_X)
      ensures Shows(h, newPos, after, r, c)
    {
      if InMap(newPos.x + c - REACH_X, newPos.y + r - REACH_Y) {
        var (r', c') := (r + newPos.y - oldPos.y, c + newPos.x - oldPos.x);
        assert InWindow(r', c') && (r' != REACH_Y || c' != REACH_X) ==> Shows(g, oldPos, before, r', c');
        SignedScrollCell(g, before, after, oldPos, newPos, r, c);
      }
    }
  }

  // The code passes the distance |dy|, which differs from the offset only when going south.
  function CodeDistance(oldPos: Position, newPos: Position): int {
    Abs(oldPos.y - newPos.y)
  }

  lemma ScrollIsExact(g: Grid, before: World, after: World, oldPos: Position, newPos: Position)
    requires IsStep(oldPos, newPos) && !IsSouthDiagonal(oldPos, newPos)
    requires Synced(g, oldPos, before) && AgreeExcept(before, after, {oldPos, newPos})
    ensures Synced(Scrolled(g, after, oldPos, newPos, CodeDistance(oldPos, newPos)), newPos, after)
  {
    SignedScrollIsExact(g, before, after, oldPos, newPos);
    var dy := oldPos.y - newPos.y;
    GridEquality(Scrolled(g, after, oldPos, newPos, dy),
        Scrolled(g, after, oldPos, newPos, CodeDistance(oldPos, newPos)));
  }

  // Going south diagonally, the first row is left behind and the last row moves twice.
  lemma SouthDiagonalMoves(g: Grid, walk: World, oldPos: Position, newPos: Position, r: int, c: int)
    requires IsStep(oldPos, newPos) && IsSouthDiagonal(oldPos, newPos) && InWindow(r, c)
    ensures ScrolledCell(g, walk, oldPos, newPos, CodeDistance(oldPos, newPos), r, c)
         == var dx := newPos.x - oldPos.x;
            (if r + 1 == REACH_Y && c + dx == REACH_X then walk(oldPos)
             else if !InWindow(r, c + dx) then Look(walk, newPos, c - REACH_X, r - REACH_Y)
             else if r == 0 then g[1][c]
             else if r == HEIGHT - 1 then Look(walk, newPos, c + dx - REACH_X, REACH_Y)
             else g[r + 1][c + dx])
  {
  }

  // The horizontal error of a cell after a step south-east or south-west; everything else
  // scrolls as with the signed offset.
  function Skew(oldPos: Position, newPos: Position, r: int, c: int): int {
    var dx := newPos.x - oldPos.x;
    if !InWindow(r, c + dx) then 0 else if r == 0 then -dx else if r == HEIGHT - 1 then dx else 0
  }

  lemma WithoutSkew(g: Grid, walk: World, oldPos: Position, newPos: Position, r: int, c: int)
    requires IsStep(oldPos, newPos) && InWindow(r, c)
    requires IsSouthDiagonal(oldPos, newPos) ==> Skew(oldPos, newPos, r, c) == 0
    ensures ScrolledCell(g, walk, oldPos, newPos, CodeDistance(oldPos, newPos), r, c)
         == ScrolledCell(g, walk, oldPos, newPos, oldPos.y - newPos.y, r, c)
  {
    if IsSouthDiagonal(oldPos, newPos) {
      SouthDiagonalMoves(g, walk, oldPos, newPos, r, c);
      SignedScrollMoves(g, walk, oldPos, newPos, r, c);
    }
  }

  // A step south-east or south-west leaves every row right except the first and the last:
  // these show the tile one column off.
  lemma SouthDiagonalSkew(g: Grid, before: World, after: World, oldPos: Position, newPos: Position, r: int, c: int)
    requires IsStep(oldPos, newPos) && IsSouthDiagonal(oldPos, newPos)
    requires Synced(g, oldPos, before) && AgreeExcept(before, after, {oldPos, newPos})
    requires InWindow(r, c) && (r != REACH_Y || c != REACH_X)
    requires InMap(newPos.x + c - REACH_X + Skew(oldPos, newPos, r, c), newPos.y + r - REACH_Y)
    ensures ScrolledCell(g, after, oldPos, newPos, CodeDistance(oldPos, newPos), r, c)
         == Look(after, newPos, c - REACH_X + Skew(oldPos, newPos, r, c), r - REACH_Y)
  {
    var dx, skew := newPos.x - oldPos.x, Skew(oldPos, newPos, r, c);
    SouthDiagonalMoves(g, after, oldPos, newPos, r, c);
    if r + 1 == REACH_Y && c + dx == REACH_X {
      assert Look(after, newPos, c - REACH_X, r - REACH_Y) == after(oldPos);
    } else if InWindow(r, c + dx) && r != HEIGHT - 1 {
      SkewedTile(g, before, after, oldPos, newPos, r, c, skew);
    }
  }

  lemma SkewedTile(g: Grid, before: World, after: World, oldPos: Position, newPos: Position, r: int, c: int, skew: int)
    requires IsStep(oldPos, newPos) && newPos.y == oldPos.y + 1
    requires Synced(g, oldPos, before) && AgreeExcept(before, after, {oldPos, newPos})
    requires InWindow(r, c) && r + 1 < HEIGHT && (r != REACH_Y || c + skew != REACH_X)
    requires InMap(newPos.x + c - REACH_X + skew, newPos.y + r - REACH_Y)
    requires var c' := c + newPos.x - oldPos.x + skew; InWindow(r + 1, c') && (r + 1 != REACH_Y || c' != REACH_X)
    ensures g[r + 1][c + newPos.x - oldPos.x + skew] == Look(after, newPos, c - REACH_X + skew, r - REACH_Y)
  {
    var p := Position(newPos.x + c - REACH_X + skew, newPos.y + r - REACH_Y, newPos.z);
    var c' := c + newPos.x - oldPos.x + skew;
    assert Shows(g, oldPos, before, r + 1, c');
    UntouchedTile(g, before, after, oldPos, newPos, r + 1, c', p);
    assert Look(after, newPos, c - REACH_X + skew, r - REACH_Y) == after(p);
  }

  // The scroll as written keeps the window right from `g` and `before` to `after`.
  ghost predicate ScrollKeepsSync(g: Grid, before: World, after: World, oldPos: Position, newPos: Position) {
    Synced(g, oldPos, before) && AgreeExcept(before, after, {oldPos, newPos}) ==>
      Synced(Scrolled(g, after, oldPos, newPos, CodeDistance(oldPos, newPos)), newPos, after)
  }

  // It does so in every world exactly for the directions other than south-east and
  // south-west; otherwise a world of alternating walkable columns shows the error.
  lemma ScrollExactIff(oldPos: Position, newPos: Position)
    requires IsStep(oldPos, newPos)
    ensures (forall g, before, after :: ScrollKeepsSync(g, before, after, oldPos, newPos)) <==>
            !IsSouthDiagonal(oldPos, newPos)
  {
    if IsSouthDiagonal(oldPos, newPos) {
      SouthDiagonalFails(oldPos, newPos);
    } else {
      forall g, before, after
        ensures ScrollKeepsSync(g, before, after, oldPos, newPos)
      {
        if Synced(g, oldPos, before) && AgreeExcept(before, after, {oldPos, newPos}) {
          ScrollIsExact(g, before, after, oldPos, newPos);
        }
      }
    }
  }

  predicate Stripes(p: Position) {
    p.x % 2 == 0
  }

  lemma StripesTellNeighboursApart(pos: Position, dx: int, skew: int, dy: int)
    requires skew == 1 || skew == -1
    requires InMap(pos.x + dx, pos.y + dy) && InMap(pos.x + dx + skew, pos.y + dy)
    requires -0x1_0000 < dx < 0x1_0000 && -0x1_0000 <= dy <= 0x1_0000
    ensures Look(Stripes, pos, dx, dy) != Look(Stripes, pos, dx + skew, dy)
  {
  }

  // The cell used to show the error: in whichever of the two rows lies on the map.
  function ErrorRow(newPos: Position): int {
    if newPos.y >= REACH_Y then 0 else HEIGHT - 1
  }

  function ErrorColumn(oldPos: Position, newPos: Position): int {
    if newPos.y >= REACH_Y then REACH_X else REACH_X + oldPos.x - newPos.x
  }

  lemma SouthDiagonalError(g: Grid, oldPos: Position, newPos: Position)
    requires IsStep(oldPos, newPos) && IsSouthDiagonal(oldPos, newPos)
    requires Synced(g, oldPos, Stripes)
    ensures !Synced(Scrolled(g, Stripes, oldPos, newPos, CodeDistance(oldPos, newPos)), newPos, Stripes)
  {
    var h := Scrolled(g, Stripes, oldPos, newPos, CodeDistance(oldPos, newPos));
    var r, c := ErrorRow(newPos), ErrorColumn(oldPos, newPos);
    SouthDiagonalSkew(g, Stripes, Stripes, oldPos, newPos, r, c);
    StripesTellNeighboursApart(newPos, c - REACH_X, Skew(oldPos, newPos, r, c), r - REACH_Y);
    assert h[r][c] == ScrolledCell(g, Stripes, oldPos, newPos, CodeDistance(oldPos, newPos), r, c);
    assert !Shows(h, newPos, Stripes, r, c);
  }

  lemma SouthDiagonalFails(oldPos: Position, newPos: Position)
    requires IsStep(oldPos, newPos) && IsSouthDiagonal(oldPos, newPos)
    ensures exists g, before, after :: !ScrollKeepsSync(g, before, after, oldPos, newPos)
  {
    var blank := Fill((r, c) => false);
    var g := Rebuilt(blank, Stripes, oldPos);
    RebuildSyncs(blank, Stripes, oldPos);
    SouthDiagonalError(g, oldPos, newPos);
    assert !ScrollKeepsSync(g, Stripes, Stripes, oldPos, newPos);
  }

  // A window that is right before a step, and wrong at this cell after it.
  ghost predicate GoesWrong(g: Grid, walk: World, oldPos: Position, newPos: Position, r: int, c: int)
    requires InWindow(r, c)
  {
    && Synced(g, oldPos, walk)
    && !Shows(Scrolled(g, walk, oldPos, newPos, CodeDistance(oldPos, newPos)), newPos, walk, r, c)
  }

  lemma SkewShowsNeighbour(blank: Grid, walk: World, oldPos: Position, newPos: Position, r: int, c: int, tile: Position)
    requires IsStep(oldPos, newPos) && IsSouthDiagonal(oldPos, newPos) && InWindow(r, c)
    requires Skew(oldPos, newPos, r, c) != 0 && InMap(newPos.x + c - REACH_X, newPos.y + r - REACH_Y)
    requires tile == Position(newPos.x + c - REACH_X, newPos.y + r - REACH_Y, newPos.z)
    requires (forall p :: p != tile ==> !walk(p)) && forall r, c :: InWindow(r, c) ==> !blank[r][c]
    ensures !ScrolledCell(Rebuilt(blank, walk, oldPos), walk, oldPos, newPos, CodeDistance(oldPos, newPos), r, c)
  {
    SouthDiagonalMoves(Rebuilt(blank, walk, oldPos), walk, oldPos, newPos, r, c);
  }

  // No cell that a step south-east or south-west skews can be trusted: on a map where only its
  // own tile is walkable, it is wrong.
  lemma EverySkewCanGoWrong(oldPos: Position, newPos: Position, r: int, c: int)
    requires IsStep(oldPos, newPos) && IsSouthDiagonal(oldPos, newPos) && InWindow(r, c)
    requires Skew(oldPos, newPos, r, c) != 0 && InMap(newPos.x + c - REACH_X, newPos.y + r - REACH_Y)
    ensures exists g, walk :: GoesWrong(g, walk, oldPos, newPos, r, c)
  {
    var tile := Position(newPos.x + c - REACH_X, newPos.y + r - REACH_Y, newPos.z);
    var walk: World := p => p == tile;
    var blank := Fill((r, c) => false);
    var g := Rebuilt(blank, walk, oldPos);
    RebuildSyncs(blank, walk, oldPos);
    SkewShowsNeighbour(blank, walk, oldPos, newPos, r, c, tile);
    assert Look(walk, newPos, c - REACH_X, r - REACH_Y);
    assert GoesWrong(g, walk, oldPos, newPos, r, c);
  }

  lemma RebuildSyncs(before: Grid, walk: World, pos: Position)
    ensures Synced(Rebuilt(before, walk, pos), pos, walk)
  {
  }

  // ----- Runs of events ------------------------------------------------------------------

  datatype CacheState = CacheState(grid: Grid, pos: Position, loaded: bool)

  datatype Event =
    | Load                                              // the first onThink or the own appearance
    | OwnMove(newPos: Position, teleport: bool)
    | OtherMove(oldPos: Position, newPos: Position)
    | OtherAppearsOrLeaves(at: Position)
    | AddItem(at: Position)
    | UpdateItem(at: Position, blocks: bool)            // a blocking type before or after
    | RemoveItem(at: Position, blocks: bool)            // a blocking type or the ground

  function RefreshedAt(s: CacheState, walk: World, at: Position): CacheState {
    if at.z == s.pos.z then s.(grid := Refreshed(s.grid, walk(at), at.x - s.pos.x, at.y - s.pos.y)) else s
  }

  // The state an event leads to; `walk` is the world at the time the creature is notified.
  function After(s: CacheState, e: Event, walk: World): CacheState {
    match e
    case Load => if s.loaded then s else CacheState(Rebuilt(s.grid, walk, s.pos), s.pos, true)
    case OwnMove(newPos, teleport) =>
      if !s.loaded then s.(pos := newPos)
      else if teleport || s.pos.z != newPos.z then s.(pos := newPos, grid := Rebuilt(s.grid, walk, newPos))
      else s.(pos := newPos, grid := Scrolled(s.grid, walk, s.pos, newPos, CodeDistance(s.pos, newPos)))
    case OtherMove(oldPos, newPos) =>
      if s.loaded then RefreshedAt(RefreshedAt(s, walk, newPos), walk, oldPos) else s
    case OtherAppearsOrLeaves(at) => if s.loaded then RefreshedAt(s, walk, at) else s
    case AddItem(at) => if s.loaded then RefreshedAt(s, walk, at) else s
    case UpdateItem(at, blocks) => if s.loaded && blocks then RefreshedAt(s, walk, at) else s
    case RemoveItem(at, blocks) => if s.loaded && blocks then RefreshedAt(s, walk, at) else s
  }

  // The tiles whose walkability an event may change.
  function Touches(s: CacheState, e: Event): set<Position> {
    match e
    case Load => {}
    case OwnMove(newPos, teleport) => {s.pos, newPos}
    case OtherMove(oldPos, newPos) => {oldPos, newPos}
    case OtherAppearsOrLeaves(at) => {at}
    case AddItem(at) => {at}
    case UpdateItem(at, blocks) => if blocks then {at} else {}
    case RemoveItem(at, blocks) => if blocks then {at} else {}
  }

  // What the map guarantees of the moves it reports.
  predicate Allowed(s: CacheState, e: Event) {
    e.OwnMove? && !e.teleport && s.pos.z == e.newPos.z ==> IsStep(s.pos, e.newPos)
  }

  // As `Synced`, with nothing said about the listed tiles.
  ghost predicate SyncedOutside(s: CacheState, walk: World, tiles: set<Position>) {
    forall r, c :: InWindow(r, c) && (r != REACH_Y || c != REACH_X) ==>
      TileOf(s.pos, r, c) in tiles || Shows(s.grid, s.pos, walk, r, c)
  }

  // A loaded window is right about all other tiles.
  ghost predicate Right(s: CacheState, walk: World, tiles: set<Position>) {
    s.loaded ==> SyncedOutside(s, walk, tiles)
  }

  function TileOf(pos: Position, r: int, c: int): Position
    requires InWindow(r, c)
  {
    Position(Wrap(pos.x + c - REACH_X), Wrap(pos.y + r - REACH_Y), pos.z)
  }

  // A change of the world leaves the window right outside the changed tiles ...
  lemma ChangeSpoils(s: CacheState, before: World, after: World, wrong: set<Position>, tiles: set<Position>)
    requires SyncedOutside(s, before, wrong) && AgreeExcept(before, after, tiles)
    ensures SyncedOutside(s, after, wrong + tiles)
  {
    forall r, c | InWindow(r, c) && (r != REACH_Y || c != REACH_X)
      ensures TileOf(s.pos, r, c) in wrong + tiles || Shows(s.grid, s.pos, after, r, c)
    {
      assert TileOf(s.pos, r, c) in wrong || Shows(s.grid, s.pos, before, r, c);
      assert Look(before, s.pos, c - REACH_X, r - REACH_Y) == before(TileOf(s.pos, r, c));
    }
  }

  // ... and a refetch makes one of them right again.
  lemma RefreshRestores(s: CacheState, walk: World, tiles: set<Position>, at: Position)
    requires SyncedOutside(s, walk, tiles)
    ensures SyncedOutside(RefreshedAt(s, walk, at), walk, tiles - {at})
  {
    var t := RefreshedAt(s, walk, at);
    forall r, c | InWindow(r, c) && (r != REACH_Y || c != REACH_X)
      ensures TileOf(s.pos, r, c) in tiles - {at} || Shows(t.grid, s.pos, walk, r, c)
    {
      assert TileOf(s.pos, r, c) in tiles || Shows(s.grid, s.pos, walk, r, c);
    }
  }

  // ----- Which tiles may be shown wrongly ---------------------------------------------------

  function Visible(pos: Position, tiles: set<Position>): set<Position> {
    set p | p in tiles && Abs(p.x - pos.x) <= REACH_X && Abs(p.y - pos.y) <= REACH_Y
  }

  // The cells of the first and the last row that a step south-east or south-west gets wrong.
  function Skewed(oldPos: Position, newPos: Position): set<Position>
    requires IsStep(oldPos, newPos)
  {
    if IsSouthDiagonal(oldPos, newPos) then SkewedRow(oldPos, newPos, 0) + SkewedRow(oldPos, newPos, HEIGHT - 1) else {}
  }

  function SkewedRow(oldPos: Position, newPos: Position, r: int): set<Position>
    requires 0 <= r < HEIGHT
  {
    set c: int | 0 <= c < WIDTH && Skew(oldPos, newPos, r, c) != 0 :: TileOf(newPos, r, c)
  }

  /** The tiles a window may show wrongly after an event: a rebuild clears them, a refetch takes
      its tile off them, a step forgets those out of sight and the tile left, and a step
      south-east or south-west adds parts of the first and the last row. */
  function SuspectsAfter(s: CacheState, e: Event, tiles: set<Position>): set<Position>
    requires Allowed(s, e)
  {
    if !s.loaded then {}
    else if e.OwnMove? then
      if e.teleport || s.pos.z != e.newPos.z then {}
      else Visible(e.newPos, tiles) - {s.pos} + Skewed(s.pos, e.newPos)
    else tiles - Touches(s, e)
  }

  lemma NotSkewed(oldPos: Position, newPos: Position, r: int, c: int)
    requires IsStep(oldPos, newPos) && InWindow(r, c) && TileOf(newPos, r, c) !in Skewed(oldPos, newPos)
    ensures IsSouthDiagonal(oldPos, newPos) ==> Skew(oldPos, newPos, r, c) == 0
  {
  }

  // The cell that moves here was right, unless its tile is a suspect.
  lemma OldCellIsRight(s: CacheState, before: World, newPos: Position, tiles: set<Position>, r: int, c: int)
    requires IsStep(s.pos, newPos) && SyncedOutside(s, before, tiles)
    requires InWindow(r, c) && InMap(newPos.x + c - REACH_X, newPos.y + r - REACH_Y)
    requires TileOf(newPos, r, c) !in Visible(newPos, tiles) - {s.pos}
    ensures var (r', c') := (r + newPos.y - s.pos.y, c + newPos.x - s.pos.x);
            InWindow(r', c') && (r' != REACH_Y || c' != REACH_X) ==> Shows(s.grid, s.pos, before, r', c')
  {
    var (r', c') := (r + newPos.y - s.pos.y, c + newPos.x - s.pos.x);
    if InWindow(r', c') && (r' != REACH_Y || c' != REACH_X) {
      assert TileOf(s.pos, r', c') == TileOf(newPos, r, c) != s.pos;
      assert TileOf(s.pos, r', c') in tiles || Shows(s.grid, s.pos, before, r', c');
    }
  }

  // A step makes suspects of exactly the tiles on the map that it can leave wrong.
  lemma SkewedIff(oldPos: Position, newPos: Position, r: int, c: int)
    requires IsStep(oldPos, newPos) && InWindow(r, c) && (r != REACH_Y || c != REACH_X)
    requires InMap(newPos.x + c - REACH_X, newPos.y + r - REACH_Y)
    ensures TileOf(newPos, r, c) in Skewed(oldPos, newPos) <==>
            exists g, walk :: GoesWrong(g, walk, oldPos, newPos, r, c)
  {
    if TileOf(newPos, r, c) in Skewed(oldPos, newPos) {
      SkewedTileHasSkew(oldPos, newPos, r, c);
      EverySkewCanGoWrong(oldPos, newPos, r, c);
    } else {
      NotSkewed(oldPos, newPos, r, c);
      forall g, walk
        ensures !GoesWrong(g, walk, oldPos, newPos, r, c)
      {
        if Synced(g, oldPos, walk) {
          if IsSouthDiagonal(oldPos, newPos) {
            SouthDiagonalSkew(g, walk, walk, oldPos, newPos, r, c);
          } else {
            ScrollIsExact(g, walk, walk, oldPos, newPos);
          }
        }
      }
    }
  }

  lemma SkewedTileHasSkew(oldPos: Position, newPos: Position, r: int, c: int)
    requires IsStep(oldPos, newPos) && InWindow(r, c) && TileOf(newPos, r, c) in Skewed(oldPos, newPos)
    ensures IsSouthDiagonal(oldPos, newPos) && Skew(oldPos, newPos, r, c) != 0
  {
    var r' := if TileOf(newPos, r, c) in SkewedRow(oldPos, newPos, 0) then 0 else HEIGHT - 1;
    var c' :| 0 <= c' < WIDTH && Skew(oldPos, newPos, r', c') != 0 && TileOf(newPos, r', c') == TileOf(newPos, r, c);
  }

  lemma StepCell(s: CacheState, before: World, after: World, newPos: Position, tiles: set<Position>, r: int, c: int)
    requires IsStep(s.pos, newPos) && SyncedOutside(s, before, tiles) && AgreeExcept(before, after, {s.pos, newPos})
    requires InWindow(r, c) && (r != REACH_Y || c != REACH_X)
    requires InMap(newPos.x + c - REACH_X, newPos.y + r - REACH_Y)
    requires TileOf(newPos, r, c) !in Visible(newPos, tiles) - {s.pos} + Skewed(s.pos, newPos)
    ensures ScrolledCell(s.grid, after, s.pos, newPos, CodeDistance(s.pos, newPos), r, c)
         == Look(after, newPos, c - REACH_X, r - REACH_Y)
  {
    assert ScrolledCell(s.grid, after, s.pos, newPos, CodeDistance(s.pos, newPos), r, c)
        == ScrolledCell(s.grid, after, s.pos, newPos, s.pos.y - newPos.y, r, c) by {
      NotSkewed(s.pos, newPos, r, c);
      WithoutSkew(s.grid, after, s.pos, newPos, r, c);
    }
    OldCellIsRight(s, before, newPos, tiles, r, c);
    SignedScrollCell(s.grid, before, after, s.pos, newPos, r, c);
  }

  lemma StepKeepsSync(s: CacheState, before: World, after: World, newPos: Position, tiles: set<Position>)
    requires IsStep(s.pos, newPos) && SyncedOutside(s, before, tiles) && AgreeExcept(before, after, {s.pos, newPos})
    ensures var h := Scrolled(s.grid, after, s.pos, newPos, CodeDistance(s.pos, newPos));
            SyncedOutside(s.(pos := newPos, grid := h), after, Visible(newPos, tiles) - {s.pos} + Skewed(s.pos, newPos))
  {
    var h := Scrolled(s.grid, after, s.pos, newPos, CodeDistance(s.pos, newPos));
    var left := Visible(newPos, tiles) - {s.pos} + Skewed(s.pos, newPos);
    forall r, c | InWindow(r, c) && (r != REACH_Y || c != REACH_X)
      ensures TileOf(newPos, r, c) in left || Shows(h, newPos, after, r, c)
    {
      if InMap(newPos.x + c - REACH_X, newPos.y + r - REACH_Y) && TileOf(newPos, r, c) !in left {
        StepCell(s, before, after, newPos, tiles, r, c);
      }
    }
  }

  lemma EventKeepsSync(s: CacheState, e: Event, before: World, after: World, tiles: set<Position>)
    requires Allowed(s, e) && AgreeExcept(before, after, Touches(s, e)) && Right(s, before, tiles)
    ensures Right(After(s, e, after), after, SuspectsAfter(s, e, tiles))
  {
    if !s.loaded {
      RebuildSyncs(s.grid, after, s.pos);
    } else if e.OwnMove? {
      RebuildSyncs(s.grid, after, e.newPos);
      if !e.teleport && s.pos.z == e.newPos.z {
        StepKeepsSync(s, before, after, e.newPos, tiles);
      }
    } else {
      RefetchKeepsSync(s, e, before, after, tiles);
    }
  }

  lemma RefetchKeepsSync(s: CacheState, e: Event, before: World, after: World, tiles: set<Position>)
    requires s.loaded && !e.OwnMove? && AgreeExcept(before, after, Touches(s, e)) && SyncedOutside(s, before, tiles)
    ensures SyncedOutside(After(s, e, after), after, tiles - Touches(s, e))
  {
    var touched := Touches(s, e);
    ChangeSpoils(s, before, after, tiles, touched);
    match e
    case Load => assert tiles + touched == tiles - touched;
    case OtherMove(oldPos, newPos) =>
      var t := RefreshedAt(s, after, newPos);
      RefreshRestores(s, after, tiles + touched, newPos);
      RefreshRestores(t, after, tiles + touched - {newPos}, oldPos);
      assert tiles + touched - {newPos} - {oldPos} == tiles - touched;
    case OtherAppearsOrLeaves(at) => RestoresOne(s, after, tiles, at);
    case AddItem(at) => RestoresOne(s, after, tiles, at);
    case UpdateItem(at, blocks) =>
      if blocks { RestoresOne(s, after, tiles, at); } else { assert tiles + touched == tiles - touched; }
    case RemoveItem(at, blocks) =>
      if blocks { RestoresOne(s, after, tiles, at); } else { assert tiles + touched == tiles - touched; }
  }

  lemma RestoresOne(s: CacheState, after: World, tiles: set<Position>, at: Position)
    requires SyncedOutside(s, after, tiles + {at})
    ensures SyncedOutside(RefreshedAt(s, after, at), after, tiles - {at})
  {
    RefreshRestores(s, after, tiles + {at}, at);
    assert tiles + {at} - {at} == tiles - {at};
  }

  // ----- Runs ------------------------------------------------------------------------------

  // The outcome of a run: every event comes with the world it leaves behind.
  function RunFrom(s: CacheState, events: seq<(Event, World)>): CacheState
    decreases |events|
  {
    if events == [] then s else RunFrom(After(s, events[0].0, events[0].1), events[1..])
  }

  ghost predicate LegalRun(s: CacheState, world: World, events: seq<(Event, World)>)
    decreases |events|
  {
    events != [] ==>
      && Allowed(s, events[0].0)
      && AgreeExcept(world, events[0].1, Touches(s, events[0].0))
      && LegalRun(After(s, events[0].0, events[0].1), events[0].1, events[1..])
  }

  function FinalWorld(world: World, events: seq<(Event, World)>): World {
    if events == [] then world else events[|events| - 1].1
  }

  function SuspectsFrom(s: CacheState, world: World, events: seq<(Event, World)>, tiles: set<Position>): set<Position>
    requires LegalRun(s, world, events)
    decreases |events|
  {
    if events == [] then tiles
    else
      var (e, after) := events[0];
      SuspectsFrom(After(s, e, after), after, events[1..], SuspectsAfter(s, e, tiles))
  }

  lemma {:induction false} RunKeepsSync(s: CacheState, world: World, events: seq<(Event, World)>, tiles: set<Position>)
    requires Right(s, world, tiles) && LegalRun(s, world, events)
    ensures Right(RunFrom(s, events), FinalWorld(world, events), SuspectsFrom(s, world, events, tiles))
    decreases |events|
  {
    if events != [] {
      var (e, after) := events[0];
      EventKeepsSync(s, e, world, after, tiles);
      RunKeepsSync(After(s, e, after), after, events[1..], SuspectsAfter(s, e, tiles));
    }
  }

  // The own steps of a run that scroll a loaded window go in the other six directions.
  ghost predicate AvoidsSouthDiagonals(s: CacheState, events: seq<(Event, World)>)
    decreases |events|
  {
    events != [] ==>
      var (e, after) := events[0];
      && (s.loaded && e.OwnMove? && !e.teleport && s.pos.z == e.newPos.z ==> !IsSouthDiagonal(s.pos, e.newPos))
      && AvoidsSouthDiagonals(After(s, e, after), events[1..])
  }

  lemma {:induction false} WithoutSouthDiagonals(s: CacheState, world: World, events: seq<(Event, World)>)
    requires LegalRun(s, world, events) && AvoidsSouthDiagonals(s, events)
    ensures SuspectsFrom(s, world, events, {}) == {}
    decreases |events|
  {
    if events != [] {
      var (e, after) := events[0];
      assert SuspectsAfter(s, e, {}) == {};
      WithoutSouthDiagonals(After(s, e, after), after, events[1..]);
    }
  }

  // ----- Asking the cache ----------------------------------------------------------------

  function Answer(s: CacheState, useCacheMap: bool, at: Position): int {
    if !useCacheMap then 2
    else if s.pos.z != at.z then 0
    else if at == s.pos then 1
    else
      var dx, dy := at.x - s.pos.x, at.y - s.pos.y;
      if Abs(dx) <= REACH_X && Abs(dy) <= REACH_Y then
        if s.grid[REACH_Y + dy][REACH_X + dx] then 1 else 0
      else 2
  }

  // After any run, every tile in the window but the own one and the suspects is answered
  // exactly as looking the tile up would; tiles out of reach are left to the caller.
  lemma RunAnswersAreDirect(s: CacheState, world: World, events: seq<(Event, World)>, tiles: set<Position>,
                            at: Position)
    requires Right(s, world, tiles) && LegalRun(s, world, events)
    requires RunFrom(s, events).loaded && at !in SuspectsFrom(s, world, events, tiles)
    ensures var t := RunFrom(s, events);
            at.z == t.pos.z && at != t.pos ==>
              Answer(t, true, at) == if Abs(at.x - t.pos.x) > REACH_X || Abs(at.y - t.pos.y) > REACH_Y then 2
                                     else if FinalWorld(world, events)(at) then 1 else 0
  {
    RunKeepsSync(s, world, events, tiles);
    if at.z == RunFrom(s, events).pos.z && at != RunFrom(s, events).pos {
      AnswerIsDirect(RunFrom(s, events), FinalWorld(world, events), SuspectsFrom(s, world, events, tiles), at);
    }
  }

  lemma AnswerIsDirect(t: CacheState, world: World, tiles: set<Position>, at: Position)
    requires SyncedOutside(t, world, tiles) && at !in tiles && at.z == t.pos.z && at != t.pos
    ensures Answer(t, true, at) == if Abs(at.x - t.pos.x) > REACH_X || Abs(at.y - t.pos.y) > REACH_Y then 2
                                   else if world(at) then 1 else 0
  {
    var r, c := REACH_Y + at.y - t.pos.y, REACH_X + at.x - t.pos.x;
    if InWindow(r, c) {
      assert TileOf(t.pos, r, c) == at;
      assert Shows(t.grid, t.pos, world, r, c);
    }
  }

  // A run that starts right and never scrolls south-east or south-west answers every tile so.
  lemma CleanRunAnswersAreDirect(s: CacheState, world: World, events: seq<(Event, World)>, at: Position)
    requires Right(s, world, {}) && LegalRun(s, world, events) && AvoidsSouthDiagonals(s, events)
    requires RunFrom(s, events).loaded
    ensures var t := RunFrom(s, events);
            at.z == t.pos.z && at != t.pos ==>
              Answer(t, true, at) == if Abs(at.x - t.pos.x) > REACH_X || Abs(at.y - t.pos.y) > REACH_Y then 2
                                     else if FinalWorld(world, events)(at) then 1 else 0
  {
    WithoutSouthDiagonals(s, world, events);
    RunAnswersAreDirect(s, world, events, {}, at);
  }

  // The window after a step, but for the refetch of the tile just left.
  function Unrefetched(g: Grid, walk: World, oldPos: Position, newPos: Position): Grid {
    Fill((r, c) => InWindow(r, c) && ColumnCell(g, walk, oldPos, newPos, CodeDistance(oldPos, newPos), r, c))
  }

  ghost predicate MissesOldTile(g: Grid, walk: World, oldPos: Position, newPos: Position) {
    Synced(g, oldPos, walk) && !Synced(Unrefetched(g, walk, oldPos, newPos), newPos, walk)
  }

  lemma OwnCellMoves(g: Grid, walk: World, oldPos: Position, newPos: Position)
    requires IsStep(oldPos, newPos) && oldPos != newPos
    ensures Unrefetched(g, walk, oldPos, newPos)[REACH_Y + oldPos.y - newPos.y][REACH_X + oldPos.x - newPos.x]
            == g[REACH_Y][REACH_X]
  {
  }

  // Without the refetch of the tile just left, its cell would keep whatever the exempt own cell
  // held: no step in any direction can do without it.
  lemma OldTileNeedsRefetch(oldPos: Position, newPos: Position)
    requires IsStep(oldPos, newPos) && oldPos != newPos
    ensures exists g, walk :: MissesOldTile(g, walk, oldPos, newPos)
  {
    var walk: World := p => true;
    var g := Fill((r, c) => r != REACH_Y || c != REACH_X);
    var r, c := REACH_Y + oldPos.y - newPos.y, REACH_X + oldPos.x - newPos.x;
    OwnCellMoves(g, walk, oldPos, newPos);
    assert !Shows(Unrefetched(g, walk, oldPos, newPos), newPos, walk, r, c);
    assert MissesOldTile(g, walk, oldPos, newPos);
  }

  // ----- Rebuilding cell by cell ---------------------------------------------------------

  // The rebuild of every cell before (r0, c0) in row-major order.
  function RebuiltUpTo(g: Grid, walk: World, pos: Position, r0: int, c0: int): Grid {
    Fill((r, c) => InWindow(r, c) && (if r < r0 || (r == r0 && c < c0) then Rebuilt(g, walk, pos) else g)[r][c])
  }

  lemma RebuildStep(g: Grid, walk: World, s: CacheState, r0: int, c0: int)
    requires InWindow(r0, c0) && s.grid == RebuiltUpTo(g, walk, s.pos, r0, c0)
    ensures RefreshedAt(s, walk, TileOf(s.pos, r0, c0)).grid == RebuiltUpTo(g, walk, s.pos, r0, c0 + 1)
  {
    var h := RefreshedAt(s, walk, TileOf(s.pos, r0, c0)).grid;
    forall r, c | InWindow(r, c)
      ensures h[r][c] == RebuiltUpTo(g, walk, s.pos, r0, c0 + 1)[r][c]
    {
      assert s.grid[r][c] == if r < r0 || (r == r0 && c < c0) then Rebuilt(g, walk, s.pos)[r][c] else g[r][c];
    }
    GridEquality(h, RebuiltUpTo(g, walk, s.pos, r0, c0 + 1));
  }

  lemma RebuildBounds(g: Grid, walk: World, pos: Position, r0: int)
    ensures RebuiltUpTo(g, walk, pos, 0, 0) == g
    ensures RebuiltUpTo(g, walk, pos, r0, WIDTH) == RebuiltUpTo(g, walk, pos, r0 + 1, 0)
    ensures RebuiltUpTo(g, walk, pos, HEIGHT, 0) == Rebuilt(g, walk, pos)
  {
    GridEquality(RebuiltUpTo(g, walk, pos, 0, 0), g);
    GridEquality(RebuiltUpTo(g, walk, pos, r0, WIDTH), RebuiltUpTo(g, walk, pos, r0 + 1, 0));
    GridEquality(RebuiltUpTo(g, walk, pos, HEIGHT, 0), Rebuilt(g, walk, pos));
  }

  // ----- The creature --------------------------------------------------------------------

  class Creature {
    const localMapCache: array2<bool>
    const useCacheMap: bool
    var isMapLoaded: bool
    var position: Position

    ghost predicate Valid()
      reads this
    {
      localMapCache.Length0 == HEIGHT && localMapCache.Length1 == WIDTH
    }

    ghost function View(): (g: Grid)
      requires Valid()
      reads this, localMapCache
      ensures forall r, c :: InWindow(r, c) ==> g[r][c] == localMapCache[r, c]
    {
      seq(HEIGHT, r requires Valid() && 0 <= r < HEIGHT reads this, localMapCache =>
        seq(WIDTH, c requires Valid() && 0 <= c < WIDTH reads this, localMapCache => localMapCache[r, c]))
    }

    ghost function State(): CacheState
      requires Valid()
      reads this, localMapCache
    {
      CacheState(View(), position, isMapLoaded)
    }

    constructor (position: Position, useCacheMap: bool)
      ensures Valid() && fresh(localMapCache)
      ensures !isMapLoaded && this.position == position && this.useCacheMap == useCacheMap
    {
      localMapCache := new bool[HEIGHT, WIDTH]((r, c) => false);
      this.useCacheMap := useCacheMap;
      isMapLoaded := false;
      this.position := position;
    }

    method UpdateTileCacheAt(value: bool, dx: int, dy: int)
      requires Valid()
      modifies localMapCache
      ensures View() == Refreshed(old(View()), value, dx, dy)
      ensures forall r, c :: InWindow(r, c) ==>
        localMapCache[r, c] == if r == REACH_Y + dy && c == REACH_X + dx then value else old(localMapCache[r, c])
    {
      if Abs(dx) <= REACH_X && Abs(dy) <= REACH_Y {
        localMapCache[REACH_Y + dy, REACH_X + dx] := value;
      }
      GridEquality(View(), Refreshed(old(View()), value, dx, dy));
    }

    method UpdateTileCache(walk: World, pos: Position)
      requires Valid()
      modifies localMapCache
      ensures State() == RefreshedAt(old(State()), walk, pos)
    {
      if pos.z == position.z {
        var dx, dy := pos.x - position.x, pos.y - position.y;
        UpdateTileCacheAt(walk(pos), dx, dy);
      }
    }

    method UpdateMapCacheRow(walk: World, y: int, ghost g: Grid)
      requires Valid() && -REACH_Y <= y <= REACH_Y
      requires View() == RebuiltUpTo(g, walk, position, REACH_Y + y, 0)
      modifies localMapCache
      ensures View() == RebuiltUpTo(g, walk, position, REACH_Y + y, WIDTH)
    {
      for x := -REACH_X to REACH_X + 1
        invariant View() == RebuiltUpTo(g, walk, position, REACH_Y + y, REACH_X + x)
      {
        var pos := TileOf(position, REACH_Y + y, REACH_X + x);
        ghost var before := State();
        assert before.grid == RebuiltUpTo(g, walk, before.pos, REACH_Y + y, REACH_X + x);
        UpdateTileCache(walk, pos);
        assert View() == RebuiltUpTo(g, walk, position, REACH_Y + y, REACH_X + x + 1) by {
          RebuildStep(g, walk, before, REACH_Y + y, REACH_X + x);
        }
      }
    }

    method UpdateMapCache(walk: World)
      requires Valid()
      modifies localMapCache
      ensures View() == Rebuilt(old(View()), walk, position)
    {
      ghost var g := View();
      RebuildBounds(g, walk, position, 0);
      for y := -REACH_Y to REACH_Y + 1
        invariant View() == RebuiltUpTo(g, walk, position, REACH_Y + y, 0)
      {
        UpdateMapCacheRow(walk, y, g);
        RebuildBounds(g, walk, position, REACH_Y + y);
      }
      RebuildBounds(g, walk, position, HEIGHT);
    }

    // memcpy of one row onto another
    method CopyRow(source: int, target: int)
      requires Valid() && 0 <= source < HEIGHT && 0 <= target < HEIGHT
      modifies localMapCache
      ensures forall r, c :: InWindow(r, c) ==>
              localMapCache[r, c] == old(localMapCache[if r == target then source else r, c])
    {
      forall c | 0 <= c < WIDTH {
        localMapCache[target, c] := localMapCache[source, c];
      }
    }

    method ShiftRowsSouth()
      requires Valid()
      modifies localMapCache
      ensures forall r, c :: InWindow(r, c) ==>
              localMapCache[r, c] == old(localMapCache[if r == 0 then 0 else r - 1, c])
    {
      for y := HEIGHT - 1 downto 0
        invariant forall r, c :: InWindow(r, c) ==>
                  localMapCache[r, c] == old(localMapCache[if r > y then r - 1 else r, c])
      {
        CopyRow(y, y + 1);
      }
    }

    method ShiftRowsNorth()
      requires Valid()
      modifies localMapCache
      ensures forall r, c :: InWindow(r, c) ==>
        localMapCache[r, c] == old(localMapCache[if r == HEIGHT - 1 then r else r + 1, c])
    {
      for y := 0 to HEIGHT - 1
        invariant forall r, c :: InWindow(r, c) ==>
                  localMapCache[r, c] == old(localMapCache[if r < y then r + 1 else r, c])
      {
        CopyRow(y + 1, y);
      }
    }

    method ShiftRowsWest(starty: int, endy: int)
      requires Valid() && 0 <= starty && endy < HEIGHT
      modifies localMapCache
      ensures forall r, c :: InWindow(r, c) ==>
        localMapCache[r, c] == old(localMapCache[r, if starty <= r <= endy && c < WIDTH - 1 then c + 1 else c])
    {
      var y := starty;
      while y <= endy
        invariant starty <= y
        invariant forall r, c :: InWindow(r, c) ==>
          localMapCache[r, c] == old(localMapCache[r, if starty <= r < y && r <= endy
              && c < WIDTH - 1 then c + 1 else c])
      {
        for x := 0 to WIDTH - 1
          invariant forall r, c :: InWindow(r, c) ==>
            localMapCache[r, c] == old(localMapCache[r, if starty <= r <= y && (r < y || c < x)
                && c < WIDTH - 1 then c + 1 else c])
        {
          localMapCache[y, x] := localMapCache[y, x + 1];
        }
        y := y + 1;
      }
    }

    method ShiftRowsEast(starty: int, endy: int)
      requires Valid() && 0 <= starty && endy < HEIGHT
      modifies localMapCache
      ensures forall r, c :: InWindow(r, c) ==>
        localMapCache[r, c] == old(localMapCache[r, if starty <= r <= endy && c > 0 then c - 1 else c])
    {
      var y := starty;
      while y <= endy
        invariant starty <= y
        invariant forall r, c :: InWindow(r, c) ==>
          localMapCache[r, c] == old(localMapCache[r, if starty <= r < y && r <= endy && c > 0 then c - 1 else c])
      {
        for x := WIDTH - 1 downto 0
          invariant forall r, c :: InWindow(r, c) ==>
            localMapCache[r, c] == old(localMapCache[r, if starty <= r <= y && (r < y || c > x)
                && c > 0 then c - 1 else c])
        {
          localMapCache[y, x + 1] := localMapCache[y, x];
        }
        y := y + 1;
      }
    }

    method FetchRow(walk: World, dy: int)
      requires Valid() && -REACH_Y <= dy <= REACH_Y
      modifies localMapCache
      ensures forall r, c :: InWindow(r, c) ==>
        localMapCache[r, c] == if r == REACH_Y + dy then Look(walk, position, c - REACH_X, dy)
            else old(localMapCache[r, c])
    {
      for x := -REACH_X to REACH_X + 1
        invariant forall r, c :: InWindow(r, c) ==>
          localMapCache[r, c] == if r == REACH_Y + dy && c < REACH_X + x then Look(walk, position, c - REACH_X, dy)
                                 else old(localMapCache[r, c])
      {
        UpdateTileCacheAt(Look(walk, position, x, dy), x, dy);
      }
    }

    method FetchColumn(walk: World, dx: int)
      requires Valid() && -REACH_X <= dx <= REACH_X
      modifies localMapCache
      ensures forall r, c :: InWindow(r, c) ==>
        localMapCache[r, c] == if c == REACH_X + dx then Look(walk, position, dx, r - REACH_Y)
            else old(localMapCache[r, c])
    {
      for y := -REACH_Y to REACH_Y + 1
        invariant forall r, c :: InWindow(r, c) ==>
          localMapCache[r, c] == if c == REACH_X + dx && r < REACH_Y + y then Look(walk, position, dx, r - REACH_Y)
                                 else old(localMapCache[r, c])
      {
        UpdateTileCacheAt(Look(walk, position, dx, y), dx, y);
      }
    }

    method ScrollRows(walk: World, oldPos: Position)
      requires Valid()
      modifies localMapCache
      ensures forall r, c :: InWindow(r, c) ==>
              localMapCache[r, c] == RowCell(old(View()), walk, oldPos, position, r, c)
    {
      if oldPos.y > position.y {
        ShiftRowsSouth();
        FetchRow(walk, -REACH_Y);
      } else if oldPos.y < position.y {
        ShiftRowsNorth();
        FetchRow(walk, REACH_Y);
      }
    }

    method ScrollColumns(walk: World, oldPos: Position, ghost g: Grid)
      requires Valid() && IsStep(oldPos, position)
      requires forall r, c :: InWindow(r, c) ==> localMapCache[r, c] == RowCell(g, walk, oldPos, position, r, c)
      modifies localMapCache
      ensures forall r, c :: InWindow(r, c) ==>
        localMapCache[r, c] == ColumnCell(g, walk, oldPos, position, CodeDistance(oldPos, position), r, c)
    {
      var starty, endy := 0, HEIGHT - 1;
      var dy := Abs(oldPos.y - position.y);
      if dy < 0 {
        endy := endy + dy;
      } else if dy > 0 {
        starty := dy;
      }
      if oldPos.x < position.x {
        ShiftRowsWest(starty, endy);
        FetchColumn(walk, REACH_X);
      } else if oldPos.x > position.x {
        ShiftRowsEast(starty, endy);
        FetchColumn(walk, -REACH_X);
      }
    }

    // The creature itself has moved: `position` is already the new one.
    method OnOwnMove(walk: World, oldPos: Position, teleport: bool)
      requires Valid()
      requires !teleport && oldPos.z == position.z ==> IsStep(oldPos, position)
      modifies localMapCache
      ensures State() == After(old(State()).(pos := oldPos), OwnMove(position, teleport), walk)
    {
      if isMapLoaded {
        if teleport || oldPos.z != position.z {
          UpdateMapCache(walk);
        } else {
          Scroll(walk, oldPos);
        }
      }
    }

    method Scroll(walk: World, oldPos: Position)
      requires Valid() && IsStep(oldPos, position)
      modifies localMapCache
      ensures View() == Scrolled(old(View()), walk, oldPos, position, CodeDistance(oldPos, position))
    {
      ghost var g := View();
      ScrollRows(walk, oldPos);
      ScrollColumns(walk, oldPos, g);
      UpdateTileCache(walk, oldPos);
      GridEquality(View(), Scrolled(g, walk, oldPos, position, CodeDistance(oldPos, position)));
    }

    method OnOtherMove(walk: World, oldPos: Position, newPos: Position)
      requires Valid()
      modifies localMapCache
      ensures State() == After(old(State()), OtherMove(oldPos, newPos), walk)
    {
      if isMapLoaded {
        if newPos.z == position.z {
          UpdateTileCache(walk, newPos);
        }
        if oldPos.z == position.z {
          UpdateTileCache(walk, oldPos);
        }
      }
    }

    method OnOtherAppearsOrLeaves(walk: World, at: Position)
      requires Valid()
      modifies localMapCache
      ensures State() == After(old(State()), OtherAppearsOrLeaves(at), walk)
    {
      if isMapLoaded {
        if at.z == position.z {
          UpdateTileCache(walk, at);
        }
      }
    }

    method OnThink(walk: World)
      requires Valid()
      modifies this`isMapLoaded, localMapCache
      ensures State() == if useCacheMap then After(old(State()), Load, walk) else old(State())
    {
      if !isMapLoaded && useCacheMap {
        ghost var g := View();
        isMapLoaded := true;
        GridEquality(View(), g);
        UpdateMapCache(walk);
      }
    }

    method OnAddTileItem(walk: World, at: Position)
      requires Valid()
      modifies localMapCache
      ensures State() == After(old(State()), AddItem(at), walk)
    {
      if isMapLoaded && at.z == position.z {
        UpdateTileCache(walk, at);
      }
    }

    method OnUpdateTileItem(walk: World, at: Position, oldBlocks: bool, newBlocks: bool)
      requires Valid()
      modifies localMapCache
      ensures State() == After(old(State()), UpdateItem(at, oldBlocks || newBlocks), walk)
    {
      if !isMapLoaded {
        return;
      }
      if oldBlocks || newBlocks {
        if at.z == position.z {
          UpdateTileCache(walk, at);
        }
      }
    }

    method OnRemoveTileItem(walk: World, at: Position, blocks: bool, ground: bool)
      requires Valid()
      modifies localMapCache
      ensures State() == After(old(State()), RemoveItem(at, blocks || ground), walk)
    {
      if !isMapLoaded {
        return;
      }
      if blocks || ground {
        if at.z == position.z {
          UpdateTileCache(walk, at);
        }
      }
    }

    method GetWalkCache(at: Position) returns (answer: int)
      requires Valid()
      ensures answer == Answer(State(), useCacheMap, at)
      ensures !useCacheMap ==> answer == 2
      ensures useCacheMap && at.z != position.z ==> answer == 0
      ensures useCacheMap && at == position ==> answer == 1
      ensures useCacheMap && at.z == position.z && at != position ==>
                var (r, c) := (18 + at.y - position.y, 18 + at.x - position.x);
                answer == if 0 <= r < 37 && 0 <= c < 37 then (if localMapCache[r, c] then 1 else 0) else 2
    {
      if !useCacheMap {
        return 2;
      }
      if position.z != at.z {
        return 0;
      }
      if at == position {
        return 1;
      }
      var dx := at.x - position.x;
      if Abs(dx) <= REACH_X {
        var dy := at.y - position.y;
        if Abs(dy) <= REACH_Y {
          return if localMapCache[REACH_Y + dy, REACH_X + dx] then 1 else 0;
        }
      }
      return 2;
    }
  }
}
