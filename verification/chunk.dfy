/** The block grid of a Chunk: a 16 x 16 x 17 array of cells indexed
    `[x][z][y]`, the forceUpdate flag that put and remove raise, and the
    `empty` flag that update recomputes. Blocks themselves are opaque. */
module Chunks {
  import opened Wrappers

  const CHUNK_SIZE: int := 16

  /** The array's y extent, one more than the chunk size. */
  const HEIGHT: int := CHUNK_SIZE + 1

  /** A chunk's grid and flags; None is a null cell. */
  datatype Chunk<B> = Chunk(cells: seq<seq<seq<Option<B>>>>, forceUpdate: bool, empty: bool)

  /** The grid has the shape `new Block[16][16][17]` gives it. */
  predicate WellFormed<B>(c: Chunk<B>) {
    |c.cells| == CHUNK_SIZE
    && (forall x :: 0 <= x < CHUNK_SIZE ==> |c.cells[x]| == CHUNK_SIZE)
    && (forall x, z :: 0 <= x < CHUNK_SIZE && 0 <= z < CHUNK_SIZE ==> |c.cells[x][z]| == HEIGHT)
  }

  /** The indices `blocks[x][z][y]` accepts without an
      ArrayIndexOutOfBoundsException. */
  predicate InArray(x: int, y: int, z: int) {
    0 <= x < CHUNK_SIZE && 0 <= z < CHUNK_SIZE && 0 <= y < HEIGHT
  }

  /** inBounds, written as the source writes it: none of the coordinates is
      below 0 or above CHUNK_SIZE - 1. The float parameters receive ints
      here, which convert exactly in the range that matters. */
  function InBounds(x: int, y: int, z: int): (r: bool)
    ensures r <==> 0 <= x <= 15 && 0 <= y <= 15 && 0 <= z <= 15
    ensures r ==> InArray(x, y, z)
  {
    !(x < 0 || y < 0 || z < 0 || x > CHUNK_SIZE - 1 || y > CHUNK_SIZE - 1 || z > CHUNK_SIZE - 1)
  }

  /** A chunk with every cell null, before generation fills it; the
      constructor starts with forceUpdate and empty both set. */
  function Blank<B>(): (c: Chunk<B>)
    ensures WellFormed(c) && c.forceUpdate && c.empty
    ensures forall x, y, z :: InArray(x, y, z) ==> GetBlock(c, x, y, z) == None
  {
    var column: seq<Option<B>> := seq(HEIGHT, _ => None);
    var slab := seq(CHUNK_SIZE, _ => column);
    Chunk(seq(CHUNK_SIZE, _ => slab), true, true)
  }

  /** getBlock: the cell at `blocks[x][z][y]`. */
  function GetBlock<B>(c: Chunk<B>, x: int, y: int, z: int): Option<B>
    requires WellFormed(c) && InArray(x, y, z)
  {
    c.cells[x][z][y]
  }

  /** blockExists: in bounds, checked first, and a non-null cell. */
  function BlockExists<B>(c: Chunk<B>, x: int, y: int, z: int): (r: bool)
    requires WellFormed(c)
    ensures r <==> 0 <= x <= 15 && 0 <= y <= 15 && 0 <= z <= 15 && GetBlock(c, x, y, z).Some?
  {
    InBounds(x, y, z) && GetBlock(c, x, y, z) != None
  }

  /** The grid with one cell replaced. */
  function SetCell<B>(c: Chunk<B>, x: int, y: int, z: int, b: Option<B>): (r: Chunk<B>)
    requires WellFormed(c) && InArray(x, y, z)
    ensures WellFormed(r) && r.forceUpdate == c.forceUpdate && r.empty == c.empty
    ensures GetBlock(r, x, y, z) == b
    ensures forall i, j, k :: InArray(i, j, k) && (i, j, k) != (x, y, z) ==> GetBlock(r, i, j, k) == GetBlock(c, i, j, k)
  {
    c.(cells := c.cells[x := c.cells[x][z := c.cells[x][z][y := b]]])
  }

  /** removeBlock: the cell becomes null and the chunk is marked for a
      model rebuild (the break sound is left out). */
  function RemoveBlock<B>(c: Chunk<B>, x: int, y: int, z: int): (r: Chunk<B>)
    requires WellFormed(c) && InArray(x, y, z)
    ensures WellFormed(r) && r.forceUpdate && r.empty == c.empty
    ensures GetBlock(r, x, y, z) == None
    ensures forall i, j, k :: InArray(i, j, k) && (i, j, k) != (x, y, z) ==> GetBlock(r, i, j, k) == GetBlock(c, i, j, k)
  {
    SetCell(c, x, y, z, None).(forceUpdate := true)
  }

  /** putBlock: remove what is there, then store the block, which may be
      null (the place sound is left out). */
  function PutBlock<B>(c: Chunk<B>, b: Option<B>, x: int, y: int, z: int): (r: Chunk<B>)
    requires WellFormed(c) && InArray(x, y, z)
    ensures WellFormed(r) && r.forceUpdate && r.empty == c.empty
    ensures GetBlock(r, x, y, z) == b
    ensures forall i, j, k :: InArray(i, j, k) && (i, j, k) != (x, y, z) ==> GetBlock(r, i, j, k) == GetBlock(c, i, j, k)
  {
    SetCell(RemoveBlock(c, x, y, z), x, y, z, b).(forceUpdate := true)
  }

  /** No block in the cells update scans: x and z over the whole array, y
      over `blocks[z].length`, which is 16, so the top layer y = 16 is not
      looked at. */
  predicate NoScannedBlock<B>(c: Chunk<B>)
    requires WellFormed(c)
  {
    forall x, y, z :: 0 <= x < CHUNK_SIZE && 0 <= z < CHUNK_SIZE && 0 <= y < CHUNK_SIZE ==> c.cells[x][z][y].None?
  }

  /** The flag part of update: `empty` is recomputed by scanning the grid,
      then forceUpdate is cleared. The frustum test, each block's own update
      and the model rebuild are left out. */
  method Update<B>(c: Chunk<B>) returns (r: Chunk<B>)
    requires WellFormed(c)
    ensures r.cells == c.cells && !r.forceUpdate
    ensures r.empty <==> NoScannedBlock(c)
  {
    var empty := true;
    var x := 0;
    while x < |c.cells|
      invariant 0 <= x <= CHUNK_SIZE
      invariant empty <==> forall i, j, k :: 0 <= i < x && 0 <= k < CHUNK_SIZE && 0 <= j < CHUNK_SIZE ==> c.cells[i][k][j].None?
    {
      var z := 0;
      while z < |c.cells[x]|
        invariant 0 <= z <= CHUNK_SIZE
        invariant empty <==>
          (forall i, j, k :: 0 <= i < x && 0 <= k < CHUNK_SIZE && 0 <= j < CHUNK_SIZE ==> c.cells[i][k][j].None?)
          && (forall j, k :: 0 <= k < z && 0 <= j < CHUNK_SIZE ==> c.cells[x][k][j].None?)
      {
        var y := 0;
        while y < |c.cells[z]|
          invariant 0 <= y <= CHUNK_SIZE
          invariant empty <==>
            (forall i, j, k :: 0 <= i < x && 0 <= k < CHUNK_SIZE && 0 <= j < CHUNK_SIZE ==> c.cells[i][k][j].None?)
            && (forall j, k :: 0 <= k < z && 0 <= j < CHUNK_SIZE ==> c.cells[x][k][j].None?)
            && (forall j :: 0 <= j < y ==> c.cells[x][z][j].None?)
        {
          if c.cells[x][z][y] != None {
            empty := false;
          }
          y := y + 1;
        }
        z := z + 1;
      }
      x := x + 1;
    }
    r := c.(forceUpdate := false, empty := empty);
  }

  // ---------------------------------------------------------------------
  // Properties
  // ---------------------------------------------------------------------

  /** After update, isEmpty holds exactly when blockExists is false
      everywhere: the scanned cells are the in-bounds ones. */
  lemma ScannedAreInBounds<B>(c: Chunk<B>)
    requires WellFormed(c)
    ensures NoScannedBlock(c) <==> forall x, y, z :: !BlockExists(c, x, y, z)
  {
    if !NoScannedBlock(c) {
      var x, y, z :| 0 <= x < CHUNK_SIZE && 0 <= z < CHUNK_SIZE && 0 <= y < CHUNK_SIZE && c.cells[x][z][y].Some?;
      assert BlockExists(c, x, y, z);
    }
  }

  /** A block stored in the top layer is invisible to update: a blank chunk
      holding only that block is still reported empty. */
  method TopLayerIgnored<B>(b: B, x: int, z: int) returns (r: Chunk<B>)
    requires 0 <= x < CHUNK_SIZE && 0 <= z < CHUNK_SIZE
    ensures WellFormed(r) && r.empty && !r.forceUpdate
    ensures GetBlock(r, x, CHUNK_SIZE, z) == Some(b)
  {
    var c := PutBlock(Blank(), Some(b), x, CHUNK_SIZE, z);
    assert NoScannedBlock(c) by {
      forall i, j, k | 0 <= i < CHUNK_SIZE && 0 <= k < CHUNK_SIZE && 0 <= j < CHUNK_SIZE
        ensures c.cells[i][k][j].None?
      {
        assert GetBlock(c, i, j, k) == GetBlock(Blank<B>(), i, j, k);
      }
    }
    r := Update(c);
  }

  /** Two grids of the right shape are equal when every cell is. */
  lemma SameCells<B>(c: Chunk<B>, d: Chunk<B>)
    requires WellFormed(c) && WellFormed(d)
    requires forall x, y, z :: InArray(x, y, z) ==> GetBlock(c, x, y, z) == GetBlock(d, x, y, z)
    ensures c.cells == d.cells
  {
    forall x | 0 <= x < CHUNK_SIZE
      ensures c.cells[x] == d.cells[x]
    {
      forall z | 0 <= z < CHUNK_SIZE
        ensures c.cells[x][z] == d.cells[x][z]
      {
        forall y | 0 <= y < HEIGHT
          ensures c.cells[x][z][y] == d.cells[x][z][y]
        {
          assert GetBlock(c, x, y, z) == GetBlock(d, x, y, z);
        }
      }
    }
  }

  /** Putting and then getting returns what was put, and putting then
      removing leaves the cell null; either way the chunk needs a rebuild. */
  lemma PutThenRemove<B>(c: Chunk<B>, b: Option<B>, x: int, y: int, z: int)
    requires WellFormed(c) && InArray(x, y, z)
    ensures GetBlock(RemoveBlock(PutBlock(c, b, x, y, z), x, y, z), x, y, z) == None
    ensures RemoveBlock(PutBlock(c, b, x, y, z), x, y, z) == RemoveBlock(c, x, y, z)
  {
    SameCells(RemoveBlock(PutBlock(c, b, x, y, z), x, y, z), RemoveBlock(c, x, y, z));
  }

  /** A put in bounds is what blockExists sees next, and it is a non-null
      put exactly when the cell then exists. */
  lemma PutThenExists<B>(c: Chunk<B>, b: Option<B>, x: int, y: int, z: int)
    requires WellFormed(c) && InBounds(x, y, z)
    ensures BlockExists(PutBlock(c, b, x, y, z), x, y, z) <==> b.Some?
  {
  }
}
