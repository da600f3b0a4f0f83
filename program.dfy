// PietDotNet.Program: the canvas of codels, the colour at a position (black
// off the canvas), and the colour blocks, found by a flood fill over
// same-coloured neighbours and cached per codel.
module Programs {
  import opened Exceptions
  import opened CSharp
  import opened Colours
  import opened Codels
  import opened ColourBlocks
  import Jagged
  import DirectionPointers

  /** Every column of the grid holds `height` colours. */
  predicate Rectangular(codels: seq<seq<Colour>>, height: int)
  {
    forall x :: 0 <= x < |codels| ==> |codels[x]| == height
  }

  /** The four neighbours, in the order the flood fill enqueues them: top, right, down, left. */
  function Neighbours(c: Codel): seq<Codel>
  {
    [Step(c, DirectionPointers.Top), Step(c, DirectionPointers.Right),
     Step(c, DirectionPointers.Down), Step(c, DirectionPointers.Left)]
  }

  /** `n` is one of the four codels next to `c`, with no wrap-around. */
  predicate Adjacent(c: Codel, n: Codel)
  {
    (n.x == c.x && (n.y == c.y - 1 || n.y == c.y + 1)) ||
    (n.y == c.y && (n.x == c.x - 1 || n.x == c.x + 1))
  }

  /** Away from the edges of the `int` range the four steps are exactly the adjacent codels. */
  lemma NeighboursAdjacent(c: Codel)
    requires Interior(c)
    ensures forall n :: n in Neighbours(c) <==> Adjacent(c, n)
  {
    assert Step(c, DirectionPointers.Top) == Codel(c.x, c.y - 1);
    assert Step(c, DirectionPointers.Right) == Codel(c.x + 1, c.y);
    assert Step(c, DirectionPointers.Down) == Codel(c.x, c.y + 1);
    assert Step(c, DirectionPointers.Left) == Codel(c.x - 1, c.y);
  }

  /**
   * `Program`: the colours `_codels[x][y]`, column by column, its `Width`
   * and `Height`, and the cache `_blocks`, a jagged array with one cell per
   * codel that stays empty (null) until the codel's block is determined.
   */
  class Program {
    const codels: seq<seq<Colour>>
    const Width: Int32
    const Height: Int32
    const blocks: array<array<Option<ColourBlock>>>
    /** The row arrays of the cache, the part of the heap the cache lives in. */
    ghost const rows: set<array<Option<ColourBlock>>>

    /** The grid is `Width` columns of `Height` colours. */
    predicate Shaped()
    {
      |codels| == Width as int && Width > 0 && Height >= 0 && Rectangular(codels, Height as int)
    }

    /** `OnCanvas`: the position indexes a cell of the grid. */
    predicate OnCanvas(c: Codel): (on: bool)
      ensures Shaped() ==> (on <==> 0 <= c.x < |codels| && 0 <= c.y < Height as int)
      ensures Shaped() && on ==> c.y < |codels[c.x]|
    {
      0 <= c.x < Width && 0 <= c.y < Height
    }

    /** The indexer `this[position]`: the stored colour on the canvas, Black off it. */
    function At(c: Codel): (colour: Colour)
      requires Shaped()
      ensures !OnCanvas(c) ==> colour == Black
    {
      if OnCanvas(c) then codels[c.x][c.y] else Black
    }

    /** Only black, and so no block, lies off the canvas; on it the neighbours do not wrap. */
    lemma ColouredOnCanvas(c: Codel)
      requires Shaped() && At(c) != Black
      ensures OnCanvas(c) && Interior(c)
    {
    }

    /** The positions of the canvas. */
    ghost function Canvas(): set<Codel>
    {
      set x: Int32, y: Int32 | 0 <= x < Width && 0 <= y < Height :: Codel(x, y)
    }

    lemma InCanvas(c: Codel)
      requires OnCanvas(c)
      ensures c in Canvas()
    {
      assert c == Codel(c.x, c.y);
    }

    // ----- The cache -----

    /** The cache has a row array of `Height` cells per column, no row shared. */
    ghost predicate Layout()
      reads blocks
    {
      Shaped() && blocks.Length == Width as int &&
      (forall x :: 0 <= x < Width ==> blocks[x] in rows && blocks[x].Length == Height as int) &&
      (forall x, x' :: 0 <= x < x' < Width ==> blocks[x] != blocks[x'])
    }

    /** The cache cell of a codel on the canvas: `_blocks[X][Y]`. */
    function Cached(c: Codel): Option<ColourBlock>
      requires Layout() && OnCanvas(c)
      reads blocks, rows
    {
      blocks[c.x][c.y]
    }

    /** A filled cell holds the block of its codel: coloured, and built from exactly that block's codels. */
    ghost predicate CellSound(c: Codel)
      requires Layout()
      reads blocks, rows
    {
      OnCanvas(c) && Cached(c).Some? ==> At(c) != Black && Describes(Cached(c).value, At(c), Component(c))
    }

    /** Every filled cell is sound. */
    ghost predicate CacheSound()
      requires Layout()
      reads blocks, rows
    {
      forall c :: CellSound(c)
    }

    /** Cells are filled block by block: a same-coloured neighbour `n` of a filled cell `c` holds the same block. */
    ghost predicate CellsClosed(c: Codel, n: Codel)
      requires Layout()
      reads blocks, rows
    {
      OnCanvas(c) && Cached(c).Some? && Adjacent(c, n) && OnCanvas(n) && At(n) == At(c) ==>
        Cached(n) == Cached(c)
    }

    /** Every filled cell's same-coloured neighbours hold its block. */
    ghost predicate CacheClosed()
      requires Layout()
      reads blocks, rows
    {
      forall c, n :: CellsClosed(c, n)
    }

    ghost predicate Valid()
      reads blocks, rows
    {
      Layout() && CacheSound() && CacheClosed()
    }

    /**
     * The constructor: `Width` is the number of columns and `Height` the
     * length of the first, and the cache starts empty.
     */
    constructor (codels: seq<seq<Colour>>)
      requires 0 < |codels| <= MaxInt32 && |codels[0]| <= MaxInt32 && Rectangular(codels, |codels[0]|)
      ensures this.codels == codels && Width as int == |codels| && Height as int == |codels[0]|
      ensures Valid() && fresh(rows)
      ensures forall c :: OnCanvas(c) ==> Cached(c) == None
    {
      var cache := Jagged.Array(|codels|, |codels[0]|, None);
      this.codels := codels;
      Width := |codels|;
      Height := |codels[0]|;
      blocks := cache.value;
      rows := set x | 0 <= x < cache.value.Length :: cache.value[x];
    }

    /**
     * What selecting the block of a coloured position yields: the block, when
     * it has at most `int.MaxValue` codels, and then every codel of the block
     * has it cached; an OverflowException otherwise.
     */
    ghost predicate Selected(position: Codel, r: Result<ColourBlock>)
      requires Layout()
      reads blocks, rows
    {
      (r.Ok? <==> |Component(position)| <= MaxInt32) && (r.Err? ==> r.error == Overflow) &&
      (r.Ok? ==>
        Describes(r.value, At(position), Component(position)) &&
        forall q :: q in Component(position) ==> OnCanvas(q) && Cached(q) == Some(r.value))
    }

    /**
     * `SelectBlock(position)`: `Border` for a black position (off the canvas
     * included), else the cached block, else the block the flood fill
     * determines. A block of more than `int.MaxValue` codels cannot be built
     * (OverflowException). Cells already filled never change.
     */
    method SelectBlock(position: Codel) returns (r: Result<ColourBlock>)
      requires Valid()
      modifies rows
      ensures Valid()
      ensures At(position) == Black ==> r == Ok(Border)
      ensures At(position) != Black ==> Selected(position, r)
      ensures forall c :: OnCanvas(c) && old(Cached(c)).Some? ==> Cached(c) == old(Cached(c))
    {
      if IsBlack(At(position)) {
        return Ok(Border);
      }
      ColouredOnCanvas(position);
      var cached := blocks[position.x][position.y];
      if cached.Some? {
        CachedBlock(position);
        return Ok(cached.value);
      }
      r := DetermineColourBlock(position);
    }

    /** A filled cell holds its block, and so does every other codel of the block. */
    lemma CachedBlock(p: Codel)
      requires Valid() && OnCanvas(p) && Cached(p).Some?
      ensures At(p) != Black && Describes(Cached(p).value, At(p), Component(p))
      ensures |Component(p)| <= MaxInt32
      ensures forall q :: q in Component(p) ==> Cached(q) == Cached(p)
    {
      assert CellSound(p);
      ComponentOfItself(p);
      var members := set q | q in Component(p) && Cached(q) == Cached(p);
      forall v, n | v in members && Adjacent(v, n) && At(n) == At(v)
        ensures n in members
      {
        ComponentClosed(p, v, n);
        ColouredOnCanvas(n);
        assert CellsClosed(v, n);
      }
      ClosedHoldsComponent(members, p);
    }

    /** No codel of an uncached codel's block is cached: cells are filled whole blocks at a time. */
    lemma UncachedBlock(p: Codel)
      requires Valid() && OnCanvas(p) && At(p) != Black && Cached(p).None?
      ensures forall q :: q in Component(p) ==> OnCanvas(q) && Cached(q).None?
    {
      ComponentOfItself(p);
      forall q | q in Component(p) ensures Cached(q).None? {
        if Cached(q).Some? {
          CachedBlock(q);
          ComponentOfMember(p, q);
        }
      }
    }

    /**
     * `DetermineColourBlock(pointer)`: the flood fill finds the block's
     * codels, which, in the hash set's order, make the block; the block is
     * then stored in each of their cells.
     */
    method DetermineColourBlock(pointer: Codel) returns (r: Result<ColourBlock>)
      requires Valid() && OnCanvas(pointer) && At(pointer) != Black && Cached(pointer).None?
      modifies rows
      ensures Valid() && Selected(pointer, r)
      ensures forall c :: OnCanvas(c) && old(Cached(c)).Some? ==> Cached(c) == old(Cached(c))
    {
      var colour := At(pointer);
      UncachedBlock(pointer);
      var list := BlockCodels(pointer);
      r := NewBlock(colour, list);
      if r.Err? {
        return;
      }
      WriteBlock(list, r.value, pointer);
    }

    /** `new ColourBlock(colour, codels)` on the block's codels: what the result says about them. */
    method NewBlock(colour: Colour, list: seq<Codel>) returns (r: Result<ColourBlock>)
      requires 0 < |list| && Distinct(list)
      ensures (r.Ok? <==> |list| <= MaxInt32) && (r.Err? ==> r.error == Overflow)
      ensures r.Ok? ==> Describes(r.value, colour, Members(list))
    {
      r := ColourBlocks.New(colour, list);
      if r.Ok? {
        NewDescribes(colour, list);
      }
    }

    /** The flood fill's result listed: the codels of the block of `pointer`, each once. */
    method BlockCodels(pointer: Codel) returns (list: seq<Codel>)
      requires Layout() && At(pointer) != Black
      requires forall q :: q in Component(pointer) ==> OnCanvas(q) && Cached(q).None?
      ensures Members(list) == Component(pointer) && Distinct(list) && |list| == |Component(pointer)|
      ensures pointer in Members(list)
    {
      ComponentOfItself(pointer);
      forall v, n | v in Component(pointer) && Adjacent(v, n) && At(n) == At(v)
        ensures n in Component(pointer)
      {
        ComponentClosed(pointer, v, n);
      }
      var members := FloodFill(pointer, Component(pointer));
      ClosedHoldsComponent(members, pointer);
      list := Listed(members);
      DistinctCount(list);
    }

    /**
     * The breadth-first search of `DetermineColourBlock`. A dequeued codel
     * that is black, already visited or already cached is skipped; any other
     * is visited, and if it has the block's colour its four neighbours are
     * enqueued. `block` is the start's block: it holds the start and every
     * same-coloured neighbour of a member, and no member is cached. The
     * visited codels of the start's colour lie in the block, hold the start
     * and are closed the same way.
     */
    method FloodFill(pointer: Codel, ghost block: set<Codel>) returns (members: set<Codel>)
      requires Layout() && At(pointer) != Black && pointer in block
      requires forall q :: q in block ==> At(q) == At(pointer) && OnCanvas(q) && Cached(q).None?
      requires forall v, n :: v in block && Adjacent(v, n) && At(n) == At(v) ==> n in block
      ensures pointer in members && members <= block
      ensures forall v, n :: v in members && Adjacent(v, n) && At(n) == At(v) ==> n in members
    {
      var colour := At(pointer);
      var visited: set<Codel> := {};
      var todo: seq<Codel> := [pointer];
      while |todo| > 0
        invariant forall v :: v in visited ==> OnCanvas(v) && At(v) != Black
        invariant forall v :: v in visited && At(v) == colour ==> v in block
        invariant forall n :: n in todo && At(n) == colour ==> n in block
        invariant pointer in visited || pointer in todo
        invariant forall v, n :: v in visited && At(v) == colour && Adjacent(v, n) && At(n) == colour ==>
          n in visited || n in todo
        invariant visited <= Canvas()
        decreases |Canvas()| - |visited|, |todo|
      {
        var p := todo[0];
        assert At(p) == colour ==> p in block;
        ghost var queue := todo;
        todo := todo[1..];
        assert forall n :: n in queue ==> n == p || n in todo;
        if !IsBlack(At(p)) && p !in visited {
          ColouredOnCanvas(p);
          if blocks[p.x][p.y].None? {
            InCanvas(p);
            ghost var seen := visited;
            visited := visited + {p};
            SubsetCard(visited, Canvas());
            if At(p) == colour {
              var top := Codels.Next(p, DirectionPointers.Top);
              var right := Codels.Next(p, DirectionPointers.Right);
              var down := Codels.Next(p, DirectionPointers.Down);
              var left := Codels.Next(p, DirectionPointers.Left);
              ghost var rest := todo;
              todo := todo + [top.value, right.value, down.value, left.value];
              assert todo == rest + Neighbours(p);
              NeighboursAdjacent(p);
              forall n | n in todo && At(n) == colour ensures n in block {
                if n !in rest {
                  assert n in Neighbours(p);
                }
              }
              forall v, n | v in visited && At(v) == colour && Adjacent(v, n) && At(n) == colour
                ensures n in visited || n in todo
              {
                if v != p {
                  assert n in seen || n in queue;
                }
              }
            }
          }
        }
      }
      members := set v | v in visited && At(v) == colour;
      forall v, n | v in members && Adjacent(v, n) && At(n) == At(v) ensures n in members {
        assert n in visited || n in todo;
      }
    }

    /** Puts `b` into the cell of every listed codel and leaves the other cells alone. */
    method StoreBlock(list: seq<Codel>, b: ColourBlock)
      requires Layout() && forall c :: c in list ==> OnCanvas(c)
      modifies rows
      ensures Layout()
      ensures forall c :: OnCanvas(c) ==> Cached(c) == if c in Members(list) then Some(b) else old(Cached(c))
    {
      var i := 0;
      ghost var done: set<Codel> := {};
      while i < |list|
        invariant 0 <= i <= |list| && Layout()
        invariant forall j :: 0 <= j < i ==> list[j] in done
        invariant done <= Members(list)
        invariant forall c :: OnCanvas(c) ==> Cached(c) == if c in done then Some(b) else old(Cached(c))
      {
        var c := list[i];
        assert c in list;
        blocks[c.x][c.y] := Some(b);
        done := done + {c};
        i := i + 1;
      }
    }

    /** The last loop of `DetermineColourBlock`: the new block goes into the cell of each of its codels. */
    method WriteBlock(list: seq<Codel>, b: ColourBlock, pointer: Codel)
      requires Valid() && OnCanvas(pointer) && At(pointer) != Black
      requires Members(list) == Component(pointer) && Describes(b, At(pointer), Component(pointer))
      requires forall q :: q in Component(pointer) ==> Cached(q).None?
      modifies rows
      ensures Valid()
      ensures forall q :: q in Component(pointer) ==> Cached(q) == Some(b)
      ensures forall c :: OnCanvas(c) && old(Cached(c)).Some? ==> Cached(c) == old(Cached(c))
    {
      ComponentOfItself(pointer);
      StoreBlock(list, b);
      forall c ensures CellSound(c) {
        if OnCanvas(c) && c in Members(list) {
          ComponentOfMember(pointer, c);
        } else {
          assert old(CellSound(c));
        }
      }
      forall c, n ensures CellsClosed(c, n) {
        if OnCanvas(c) && c in Members(list) {
          if Adjacent(c, n) && At(n) == At(c) {
            ComponentClosed(pointer, c, n);
          }
        } else if OnCanvas(c) && OnCanvas(n) {
          assert old(CellsClosed(c, n));
        }
      }
    }

    /** `Enumerate`: the colours column by column, top to bottom within a column. */
    method Enumerate() returns (colours: seq<Colour>)
      requires Shaped()
      ensures colours == Flatten(codels)
    {
      colours := [];
      var x: Int32 := 0;
      while x < Width
        invariant 0 <= x <= Width && colours == Flatten(codels[..x])
      {
        var y: Int32 := 0;
        while y < Height
          invariant 0 <= y <= Height && colours == Flatten(codels[..x]) + codels[x][..y]
        {
          colours := colours + [codels[x][y]];
          assert codels[x][..y + 1] == codels[x][..y] + [codels[x][y]];
          y := y + 1;
        }
        assert codels[..x + 1][..x] == codels[..x];
        assert codels[x][..Height] == codels[x];
        x := x + 1;
      }
      assert codels[..Width] == codels;
    }

    // ----- Colour blocks: 4-connected same-coloured regions -----

    /** A walk over codels of one colour, each a neighbour of the one before. */
    ghost predicate Walk(path: seq<Codel>)
      requires Shaped()
    {
      |path| > 0 &&
      (forall i :: 0 <= i < |path| ==> At(path[i]) == At(path[0])) &&
      (forall i :: 0 < i < |path| ==> Adjacent(path[i - 1], path[i]))
    }

    /** A walk leads from `p` to `q`. */
    ghost predicate Connected(p: Codel, q: Codel)
      requires Shaped()
    {
      exists path :: Walk(path) && path[0] == p && path[|path| - 1] == q
    }

    /** The colour block of `p`: the codels of the canvas a walk from `p` reaches. */
    ghost function Component(p: Codel): set<Codel>
      requires Shaped()
    {
      set q | q in Canvas() && Connected(p, q)
    }

    /** A coloured codel belongs to its own block, and the whole block has its colour. */
    lemma ComponentOfItself(p: Codel)
      requires Shaped() && At(p) != Black
      ensures p in Component(p)
      ensures forall q :: q in Component(p) ==> At(q) == At(p) && OnCanvas(q)
    {
      assert Walk([p]);
      InCanvas(p);
      forall q | q in Component(p) ensures At(q) == At(p) && OnCanvas(q) {
        var path :| Walk(path) && path[0] == p && path[|path| - 1] == q;
        assert At(path[|path| - 1]) == At(path[0]);
      }
    }

    /** A same-coloured neighbour of a member is a member. */
    lemma ComponentClosed(p: Codel, v: Codel, n: Codel)
      requires Shaped() && v in Component(p) && Adjacent(v, n) && At(n) == At(v) && At(v) != Black
      ensures n in Component(p)
    {
      var path :| Walk(path) && path[0] == p && path[|path| - 1] == v;
      var longer := path + [n];
      assert At(path[|path| - 1]) == At(path[0]);
      forall i | 0 < i < |longer| ensures Adjacent(longer[i - 1], longer[i]) {
        if i < |path| {
          assert longer[i] == path[i] && longer[i - 1] == path[i - 1];
        }
      }
      forall i | 0 <= i < |longer| ensures At(longer[i]) == At(longer[0]) {
        if i < |path| {
          assert longer[i] == path[i];
        }
      }
      assert Walk(longer);
      ColouredOnCanvas(n);
      InCanvas(n);
    }

    /** A walk read backwards is a walk. */
    lemma WalkBack(path: seq<Codel>)
      requires Shaped() && Walk(path)
      ensures Walk(Reversed(path)) && Reversed(path)[0] == path[|path| - 1]
      ensures Reversed(path)[|path| - 1] == path[0]
    {
      var back := Reversed(path);
      forall i | 0 < i < |back| ensures Adjacent(back[i - 1], back[i]) {
        assert back[i - 1] == path[|path| - i] && back[i] == path[|path| - 1 - i];
      }
      assert back[0] == path[|path| - 1];
    }

    /** Two walks that meet make one. */
    lemma WalkJoin(a: seq<Codel>, b: seq<Codel>)
      requires Shaped() && Walk(a) && Walk(b) && a[|a| - 1] == b[0]
      ensures Walk(a + b[1..]) && (a + b[1..])[0] == a[0]
      ensures (a + b[1..])[|a + b[1..]| - 1] == b[|b| - 1]
    {
      var ab := a + b[1..];
      assert At(a[|a| - 1]) == At(a[0]);
      forall i | 0 < i < |ab| ensures Adjacent(ab[i - 1], ab[i]) {
        if i >= |a| {
          assert ab[i] == b[i - |a| + 1] && ab[i - 1] == b[i - |a|];
        }
      }
      forall i | 0 <= i < |ab| ensures At(ab[i]) == At(ab[0]) {
        if i >= |a| {
          assert ab[i] == b[i - |a| + 1];
        }
      }
    }

    /** Every member of a block has that same block. */
    lemma ComponentOfMember(p: Codel, q: Codel)
      requires Shaped() && At(p) != Black && q in Component(p)
      ensures Component(q) == Component(p)
    {
      var toQ :| Walk(toQ) && toQ[0] == p && toQ[|toQ| - 1] == q;
      WalkBack(toQ);
      var fromQ := Reversed(toQ);
      forall r | r in Component(q) ensures r in Component(p) {
        var path :| Walk(path) && path[0] == q && path[|path| - 1] == r;
        WalkJoin(toQ, path);
      }
      forall r | r in Component(p) ensures r in Component(q) {
        var path :| Walk(path) && path[0] == p && path[|path| - 1] == r;
        WalkJoin(fromQ, path);
      }
    }

    /** A set that holds `p` and every same-coloured neighbour of its members holds `p`'s block. */
    lemma ClosedHoldsComponent(members: set<Codel>, p: Codel)
      requires Shaped() && p in members
      requires forall v, n :: v in members && Adjacent(v, n) && At(n) == At(v) ==> n in members
      ensures Component(p) <= members
    {
      forall q | q in Component(p) ensures q in members {
        var path :| Walk(path) && path[0] == p && path[|path| - 1] == q;
        WalkInside(members, path, |path| - 1);
      }
    }

    lemma {:induction false} WalkInside(members: set<Codel>, path: seq<Codel>, i: nat)
      requires Shaped() && Walk(path) && path[0] in members && i < |path|
      requires forall v, n :: v in members && Adjacent(v, n) && At(n) == At(v) ==> n in members
      ensures path[i] in members
    {
      if i > 0 {
        WalkInside(members, path, i - 1);
        assert At(path[i]) == At(path[i - 1]) by {
          assert At(path[i]) == At(path[0]) && At(path[i - 1]) == At(path[0]);
        }
      }
    }
  }

  /** The columns of a grid one after the other. */
  function Flatten(columns: seq<seq<Colour>>): seq<Colour>
  {
    if |columns| == 0 then [] else Flatten(columns[..|columns| - 1]) + columns[|columns| - 1]
  }

  /** In the flattened grid the colour at `(x, y)` sits at `x * height + y`. */
  lemma {:induction false} FlattenAt(columns: seq<seq<Colour>>, height: nat)
    requires Rectangular(columns, height)
    ensures |Flatten(columns)| == |columns| * height
    ensures forall x, y :: 0 <= x < |columns| && 0 <= y < height ==> Flatten(columns)[x * height + y] == columns[x][y]
  {
    if |columns| > 0 {
      var last := |columns| - 1;
      var front := columns[..last];
      FlattenAt(front, height);
      MulStep(last, height);
      forall x, y | 0 <= x < |columns| && 0 <= y < height
        ensures Flatten(columns)[x * height + y] == columns[x][y]
      {
        if x < last {
          IndexBefore(x, y, last, height);
          assert front[x] == columns[x];
        }
      }
    }
  }

  lemma MulStep(x: nat, h: nat)
    ensures (x + 1) * h == x * h + h
  {
  }

  /** A cell of an earlier column comes before the start of column `last`. */
  lemma IndexBefore(x: nat, y: nat, last: nat, h: nat)
    requires x < last && y < h
    ensures x * h + y < last * h
  {
    MulStep(x, h);
    MulMonotonic(x + 1, last, h);
  }

  lemma MulMonotonic(a: nat, b: nat, h: nat)
    requires a <= b
    ensures a * h <= b * h
  {
  }

  /** A subset is no larger than its superset. */
  lemma SubsetCard(s: set<Codel>, t: set<Codel>)
    requires s <= t
    ensures |s| <= |t|
  {
    assert t == s + (t - s);
  }

  /** The codels of a set, each once, in some order (a `HashSet` enumerates in no specified order). */
  method Listed(members: set<Codel>) returns (list: seq<Codel>)
    ensures Members(list) == members && Distinct(list)
  {
    list := [];
    var rest := members;
    while rest != {}
      invariant rest <= members && Distinct(list)
      invariant forall c :: c in list <==> c in members && c !in rest
      decreases |rest|
    {
      var c :| c in rest;
      var longer := list + [c];
      forall i, j | 0 <= i < j < |longer| ensures longer[i] != longer[j] {
        if j == |list| {
          assert longer[i] in list;
        }
      }
      list := longer;
      rest := rest - {c};
    }
    assert Members(list) == members;
  }

  /** A sequence read back to front. */
  function Reversed(s: seq<Codel>): (r: seq<Codel>)
    ensures |r| == |s| && forall i :: 0 <= i < |s| ==> r[i] == s[|s| - 1 - i]
  {
    if |s| == 0 then [] else Reversed(s[1..]) + [s[0]]
  }
}
