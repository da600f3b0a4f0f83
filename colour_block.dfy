// PietDotNet.ColourBlock and ColourBlock.Border: a block of same-coloured
// codels, its eight edge codels (one per DP and CC) and the shared Border.
module ColourBlocks {
  import opened Exceptions
  import opened CSharp
  import opened Colours
  import opened Codels
  import opened Pointers
  import DirectionPointers
  import CodelChoosers

  /** The edge table: one codel per (DP, CC), at index `CC | DP << 1`. */
  type EdgeTable = e: seq<Codel> | |e| == 8
    witness [Codel(0, 0), Codel(0, 0), Codel(0, 0), Codel(0, 0), Codel(0, 0), Codel(0, 0), Codel(0, 0), Codel(0, 0)]

  /**
   * `ColourBlock.Border`, the one instance of the `Border` subclass, built by
   * the protected constructor that sets neither value nor edge table; and a
   * block built from its codels. Blocks are values here, so "the same
   * instance" reads "an equal value".
   */
  datatype ColourBlock = Border | Block(colour: Colour, value: Int32, edges: EdgeTable)

  /** `Colour`: the override on `Border` answers Black. */
  function ColourOf(b: ColourBlock): (c: Colour)
    ensures b.Border? ==> c == Black
  {
    match b
    case Border => Black
    case Block(colour, _, _) => colour
  }

  /** `Value`: never set on `Border`, so there it keeps its default 0. */
  function Value(b: ColourBlock): (v: Int32)
    ensures b.Border? ==> v == 0
  {
    match b
    case Border => 0
    case Block(_, value, _) => value
  }

  /** `HasColour`: the block's colour is neither black nor white. */
  predicate HasColour(b: ColourBlock)
    ensures HasColour(b) <==> ColourOf(b).Hued?
  {
    NotBlackOrWhite(ColourOf(b))
  }

  /** `IsBlack`. */
  predicate IsBlackBlock(b: ColourBlock)
    ensures IsBlackBlock(b) <==> ColourOf(b) == Black
  {
    IsBlack(ColourOf(b))
  }

  /** `IsWhite`. */
  predicate IsWhiteBlock(b: ColourBlock)
    ensures IsWhiteBlock(b) <==> ColourOf(b) == White
  {
    IsWhite(ColourOf(b))
  }

  // ----- LINQ over the codels -----

  /** The coordinate LINQ orders and filters by: `p => p.X` or `p => p.Y`. */
  datatype Axis = X | Y

  function Coord(c: Codel, axis: Axis): int
  {
    if axis == X then c.x as int else c.y as int
  }

  /** `Where(p => p.axis == value)`: the codels on one line, in order. */
  function Where(codels: seq<Codel>, axis: Axis, value: int): (r: seq<Codel>)
    ensures forall c :: c in r <==> c in codels && Coord(c, axis) == value
  {
    if |codels| == 0 then []
    else if Coord(codels[0], axis) == value then [codels[0]] + Where(codels[1..], axis, value)
    else Where(codels[1..], axis, value)
  }

  /** `Min(p => p.axis)`: the least coordinate; LINQ throws InvalidOperationException on no codels. */
  function MinOf(codels: seq<Codel>, axis: Axis): (m: int)
    requires |codels| > 0
    ensures forall c :: c in codels ==> m <= Coord(c, axis)
    ensures exists c :: c in codels && Coord(c, axis) == m
  {
    if |codels| == 1 then Coord(codels[0], axis)
    else
      var rest := MinOf(codels[1..], axis);
      if Coord(codels[0], axis) <= rest then Coord(codels[0], axis) else rest
  }

  /** `Max(p => p.axis)`: the greatest coordinate. */
  function MaxOf(codels: seq<Codel>, axis: Axis): (m: int)
    requires |codels| > 0
    ensures forall c :: c in codels ==> Coord(c, axis) <= m
    ensures exists c :: c in codels && Coord(c, axis) == m
  {
    if |codels| == 1 then Coord(codels[0], axis)
    else
      var rest := MaxOf(codels[1..], axis);
      if Coord(codels[0], axis) >= rest then Coord(codels[0], axis) else rest
  }

  /**
   * `OrderBy(p => p.axis).FirstOrDefault()`: the first codel with the least
   * coordinate (the sort is stable), or the default codel (0, 0) when there
   * are none.
   */
  function FirstMin(codels: seq<Codel>, axis: Axis): (r: Codel)
    ensures |codels| == 0 ==> r == Codel(0, 0)
    ensures |codels| > 0 ==> r in codels && forall c :: c in codels ==> Coord(r, axis) <= Coord(c, axis)
  {
    if |codels| == 0 then Codel(0, 0)
    else if |codels| == 1 then codels[0]
    else
      var rest := FirstMin(codels[1..], axis);
      if Coord(codels[0], axis) <= Coord(rest, axis) then codels[0] else rest
  }

  /** `OrderByDescending(p => p.axis).FirstOrDefault()`: the first codel with the greatest coordinate. */
  function FirstMax(codels: seq<Codel>, axis: Axis): (r: Codel)
    ensures |codels| == 0 ==> r == Codel(0, 0)
    ensures |codels| > 0 ==> r in codels && forall c :: c in codels ==> Coord(c, axis) <= Coord(r, axis)
  {
    if |codels| == 0 then Codel(0, 0)
    else if |codels| == 1 then codels[0]
    else
      var rest := FirstMax(codels[1..], axis);
      if Coord(codels[0], axis) >= Coord(rest, axis) then codels[0] else rest
  }

  // ----- The edge table -----

  /**
   * `InitEdges`: the bounding coordinates, then for each (DP, CC) the codels
   * on the DP-most line ordered along CC's side, first taken. Each line
   * holds a codel, so `FirstOrDefault` never falls back to the default and
   * every entry is a codel of the block (`EdgesAreFurthest` says which).
   */
  function InitEdges(codels: seq<Codel>): (edges: EdgeTable)
    requires |codels| > 0
    ensures forall i :: 0 <= i < 8 ==> edges[i] in codels
  {
    var xMin := MinOf(codels, X);
    var xMax := MaxOf(codels, X);
    var yMin := MinOf(codels, Y);
    var yMax := MaxOf(codels, Y);
    LineEdges(codels, X, xMax, Y);
    LineEdges(codels, Y, yMax, X);
    LineEdges(codels, X, xMin, Y);
    LineEdges(codels, Y, yMin, X);
    var right := Where(codels, X, xMax);
    var down := Where(codels, Y, yMax);
    var left := Where(codels, X, xMin);
    var top := Where(codels, Y, yMin);
    [ FirstMin(right, Y), FirstMax(right, Y),
      FirstMax(down, X), FirstMin(down, X),
      FirstMax(left, Y), FirstMin(left, Y),
      FirstMin(top, X), FirstMax(top, X) ]
  }

  /**
   * The direction CC picks across DP: a quarter turn anticlockwise for CC
   * left, clockwise for CC right.
   */
  function Side(dp: DirectionPointers.DP, cc: CodelChoosers.CC): DirectionPointers.DP
  {
    if cc == CodelChoosers.Left then (dp + 3) % 4 else (dp + 1) % 4
  }

  /**
   * The edge a pointer selects is furthest along DP and, among the codels
   * that far along DP, furthest along CC's side.
   */
  predicate Furthest(members: set<Codel>, e: Codel, dp: DirectionPointers.DP, cc: CodelChoosers.CC)
  {
    e in members &&
    forall c :: c in members ==>
      Along(c, dp) < Along(e, dp) ||
      (Along(c, dp) == Along(e, dp) && Along(c, Side(dp, cc)) <= Along(e, Side(dp, cc)))
  }

  /** The codels a sequence holds, as a set. */
  function Members(codels: seq<Codel>): set<Codel>
  {
    set c | c in codels
  }

  /** The table entry for (DP, CC), at `CC + 2 DP`. */
  function EdgeAt(edges: EdgeTable, dp: DirectionPointers.DP, cc: CodelChoosers.CC): Codel
  {
    edges[cc as int + 2 * dp as int]
  }

  /** Each entry of the edge table is the codel furthest along its DP and then its CC. */
  lemma EdgesAreFurthest(codels: seq<Codel>)
    requires |codels| > 0
    ensures forall dp: DirectionPointers.DP, cc: CodelChoosers.CC ::
      Furthest(Members(codels), EdgeAt(InitEdges(codels), dp, cc), dp, cc)
  {
    RightEdges(codels);
    DownEdges(codels);
    LeftEdges(codels);
    TopEdges(codels);
    TableFurthest(Members(codels), InitEdges(codels));
  }

  /** Eight entries each furthest for their own pointer make the whole table so. */
  lemma TableFurthest(members: set<Codel>, edges: EdgeTable)
    requires Furthest(members, edges[0], 0, 0) && Furthest(members, edges[1], 0, 1)
    requires Furthest(members, edges[2], 1, 0) && Furthest(members, edges[3], 1, 1)
    requires Furthest(members, edges[4], 2, 0) && Furthest(members, edges[5], 2, 1)
    requires Furthest(members, edges[6], 3, 0) && Furthest(members, edges[7], 3, 1)
    ensures forall dp: DirectionPointers.DP, cc: CodelChoosers.CC ::
      Furthest(members, EdgeAt(edges, dp, cc), dp, cc)
  {
    forall dp: DirectionPointers.DP, cc: CodelChoosers.CC
      ensures Furthest(members, EdgeAt(edges, dp, cc), dp, cc)
    {
      assert dp == 0 || dp == 1 || dp == 2 || dp == 3;
      assert cc == 0 || cc == 1;
    }
  }

  /** Entries 0 and 1: the rightmost column, topmost and bottommost codel. */
  lemma RightEdges(codels: seq<Codel>)
    requires |codels| > 0
    ensures Furthest(Members(codels), InitEdges(codels)[0], 0, 0) && Furthest(Members(codels), InitEdges(codels)[1], 0, 1)
  {
    var line := Where(codels, X, MaxOf(codels, X));
    assert InitEdges(codels)[0] == FirstMin(line, Y) && InitEdges(codels)[1] == FirstMax(line, Y);
    RightLine(codels);
  }

  /** On the rightmost column, the first codels by least and greatest coordinate across it. */
  lemma RightLine(codels: seq<Codel>)
    requires |codels| > 0
    ensures var line := Where(codels, X, MaxOf(codels, X));
      Furthest(Members(codels), FirstMin(line, Y), 0, 0) && Furthest(Members(codels), FirstMax(line, Y), 0, 1)
  {
    var extreme := MaxOf(codels, X);
    var line := Where(codels, X, extreme);
    LineEdges(codels, X, extreme, Y);
    RightFurthest(codels, FirstMin(line, Y), 0);
    RightFurthest(codels, FirstMax(line, Y), 1);
  }

  /** Entries 2 and 3: the bottom row, rightmost and leftmost codel. */
  lemma DownEdges(codels: seq<Codel>)
    requires |codels| > 0
    ensures Furthest(Members(codels), InitEdges(codels)[2], 1, 0) && Furthest(Members(codels), InitEdges(codels)[3], 1, 1)
  {
    var line := Where(codels, Y, MaxOf(codels, Y));
    assert InitEdges(codels)[2] == FirstMax(line, X) && InitEdges(codels)[3] == FirstMin(line, X);
    DownLine(codels);
  }

  /** On the bottom row, the first codels by least and greatest coordinate across it. */
  lemma DownLine(codels: seq<Codel>)
    requires |codels| > 0
    ensures var line := Where(codels, Y, MaxOf(codels, Y));
      Furthest(Members(codels), FirstMax(line, X), 1, 0) && Furthest(Members(codels), FirstMin(line, X), 1, 1)
  {
    var extreme := MaxOf(codels, Y);
    var line := Where(codels, Y, extreme);
    LineEdges(codels, Y, extreme, X);
    DownFurthest(codels, FirstMin(line, X), 1);
    DownFurthest(codels, FirstMax(line, X), 0);
  }

  /** Entries 4 and 5: the leftmost column, bottommost and topmost codel. */
  lemma LeftEdges(codels: seq<Codel>)
    requires |codels| > 0
    ensures Furthest(Members(codels), InitEdges(codels)[4], 2, 0) && Furthest(Members(codels), InitEdges(codels)[5], 2, 1)
  {
    var line := Where(codels, X, MinOf(codels, X));
    assert InitEdges(codels)[4] == FirstMax(line, Y) && InitEdges(codels)[5] == FirstMin(line, Y);
    LeftLine(codels);
  }

  /** On the leftmost column, the first codels by least and greatest coordinate across it. */
  lemma LeftLine(codels: seq<Codel>)
    requires |codels| > 0
    ensures var line := Where(codels, X, MinOf(codels, X));
      Furthest(Members(codels), FirstMax(line, Y), 2, 0) && Furthest(Members(codels), FirstMin(line, Y), 2, 1)
  {
    var extreme := MinOf(codels, X);
    var line := Where(codels, X, extreme);
    LineEdges(codels, X, extreme, Y);
    LeftFurthest(codels, FirstMin(line, Y), 1);
    LeftFurthest(codels, FirstMax(line, Y), 0);
  }

  /** Entries 6 and 7: the top row, leftmost and rightmost codel. */
  lemma TopEdges(codels: seq<Codel>)
    requires |codels| > 0
    ensures Furthest(Members(codels), InitEdges(codels)[6], 3, 0) && Furthest(Members(codels), InitEdges(codels)[7], 3, 1)
  {
    var line := Where(codels, Y, MinOf(codels, Y));
    assert InitEdges(codels)[6] == FirstMin(line, X) && InitEdges(codels)[7] == FirstMax(line, X);
    TopLine(codels);
  }

  /** On the top row, the first codels by least and greatest coordinate across it. */
  lemma TopLine(codels: seq<Codel>)
    requires |codels| > 0
    ensures var line := Where(codels, Y, MinOf(codels, Y));
      Furthest(Members(codels), FirstMin(line, X), 3, 0) && Furthest(Members(codels), FirstMax(line, X), 3, 1)
  {
    var extreme := MinOf(codels, Y);
    var line := Where(codels, Y, extreme);
    LineEdges(codels, Y, extreme, X);
    TopFurthest(codels, FirstMin(line, X), 0);
    TopFurthest(codels, FirstMax(line, X), 1);
  }

  /** Furthest right: the greatest x, then the least y for CC left and the greatest for CC right. */
  lemma RightFurthest(codels: seq<Codel>, e: Codel, cc: CodelChoosers.CC)
    requires e in codels
    requires forall c :: c in codels ==> Coord(c, X) <= Coord(e, X)
    requires forall c :: c in codels && Coord(c, X) == Coord(e, X) ==>
      if cc == 0 then Coord(e, Y) <= Coord(c, Y) else Coord(c, Y) <= Coord(e, Y)
    ensures Furthest(Members(codels), e, 0, cc)
  {
  }

  /** Furthest down: the greatest y, then the greatest x for CC left and the least for CC right. */
  lemma DownFurthest(codels: seq<Codel>, e: Codel, cc: CodelChoosers.CC)
    requires e in codels
    requires forall c :: c in codels ==> Coord(c, Y) <= Coord(e, Y)
    requires forall c :: c in codels && Coord(c, Y) == Coord(e, Y) ==>
      if cc == 0 then Coord(c, X) <= Coord(e, X) else Coord(e, X) <= Coord(c, X)
    ensures Furthest(Members(codels), e, 1, cc)
  {
  }

  /** Furthest left: the least x, then the greatest y for CC left and the least for CC right. */
  lemma LeftFurthest(codels: seq<Codel>, e: Codel, cc: CodelChoosers.CC)
    requires e in codels
    requires forall c :: c in codels ==> Coord(e, X) <= Coord(c, X)
    requires forall c :: c in codels && Coord(c, X) == Coord(e, X) ==>
      if cc == 0 then Coord(c, Y) <= Coord(e, Y) else Coord(e, Y) <= Coord(c, Y)
    ensures Furthest(Members(codels), e, 2, cc)
  {
  }

  /** Furthest up: the least y, then the least x for CC left and the greatest for CC right. */
  lemma TopFurthest(codels: seq<Codel>, e: Codel, cc: CodelChoosers.CC)
    requires e in codels
    requires forall c :: c in codels ==> Coord(e, Y) <= Coord(c, Y)
    requires forall c :: c in codels && Coord(c, Y) == Coord(e, Y) ==>
      if cc == 0 then Coord(e, X) <= Coord(c, X) else Coord(c, X) <= Coord(e, X)
    ensures Furthest(Members(codels), e, 3, cc)
  {
  }

  /**
   * On the line of codels whose coordinate on `axis` is `extreme`, the
   * entries taken by least and greatest coordinate `across` are on that line
   * and bound it.
   */
  lemma LineEdges(codels: seq<Codel>, axis: Axis, extreme: int, across: Axis)
    requires exists c :: c in codels && Coord(c, axis) == extreme
    ensures var line := Where(codels, axis, extreme);
      var least, greatest := FirstMin(line, across), FirstMax(line, across);
      least in codels && Coord(least, axis) == extreme &&
      greatest in codels && Coord(greatest, axis) == extreme &&
      forall c :: c in codels && Coord(c, axis) == extreme ==>
        Coord(least, across) <= Coord(c, across) <= Coord(greatest, across)
  {
  }

  /** At most one codel is furthest along DP and then CC: the two directions fix both coordinates. */
  lemma FurthestUnique(members: set<Codel>, e: Codel, f: Codel, dp: DirectionPointers.DP, cc: CodelChoosers.CC)
    requires Furthest(members, e, dp, cc) && Furthest(members, f, dp, cc)
    ensures e == f
  {
  }

  /**
   * `ColourBlock(colour, codels)`: `Count()` throws OverflowException past
   * `int.MaxValue`, and `Min` throws InvalidOperationException on no codels.
   */
  function New(colour: Colour, codels: seq<Codel>): (r: Result<ColourBlock>)
    ensures r.Ok? <==> 0 < |codels| <= MaxInt32
    ensures |codels| > MaxInt32 ==> r == Err(Overflow)
    ensures |codels| == 0 ==> r == Err(InvalidOperation)
    ensures r.Ok? ==> r.value.Block? && r.value.colour == colour && r.value.value == |codels|
    ensures r.Ok? ==> forall dp: DirectionPointers.DP, cc: CodelChoosers.CC ::
      Furthest(Members(codels), EdgeAt(r.value.edges, dp, cc), dp, cc)
  {
    if |codels| > MaxInt32 then Err(Overflow)
    else if |codels| == 0 then Err(InvalidOperation)
    else
      EdgesAreFurthest(codels);
      Ok(Block(colour, |codels|, InitEdges(codels)))
  }

  /** No codel occurs twice, as in the set a block is built from. */
  predicate Distinct(codels: seq<Codel>)
  {
    forall i, j :: 0 <= i < j < |codels| ==> codels[i] != codels[j]
  }

  /** Distinct codels are as many as their set. */
  lemma {:induction false} DistinctCount(codels: seq<Codel>)
    requires Distinct(codels)
    ensures |Members(codels)| == |codels|
  {
    if |codels| > 0 {
      var rest := codels[1..];
      assert Distinct(rest) by {
        forall i, j | 0 <= i < j < |rest| ensures rest[i] != rest[j] {
          assert rest[i] == codels[i + 1] && rest[j] == codels[j + 1];
        }
      }
      DistinctCount(rest);
      assert Members(codels) == Members(rest) + {codels[0]};
      assert codels[0] !in Members(rest) by {
        forall i | 0 <= i < |rest| ensures rest[i] != codels[0] {
          assert rest[i] == codels[i + 1];
        }
      }
    }
  }

  /**
   * A block of this colour built from exactly these codels: its value is
   * their number and each edge is the furthest codel for its pointer.
   */
  ghost predicate Describes(b: ColourBlock, colour: Colour, members: set<Codel>)
  {
    b.Block? && b.colour == colour && b.value as int == |members| &&
    forall dp: DirectionPointers.DP, cc: CodelChoosers.CC ::
      Furthest(members, EdgeAt(b.edges, dp, cc), dp, cc)
  }

  /** A block built from distinct codels describes their set. */
  lemma NewDescribes(colour: Colour, codels: seq<Codel>)
    requires 0 < |codels| <= MaxInt32 && Distinct(codels)
    ensures New(colour, codels).Ok?
    ensures Describes(New(colour, codels).value, colour, Members(codels))
  {
    DistinctCount(codels);
  }

  /** What `Describes` says fixes the block: two blocks that describe the same codels are equal. */
  lemma DescribesUnique(a: ColourBlock, b: ColourBlock, colour: Colour, members: set<Codel>)
    requires Describes(a, colour, members) && Describes(b, colour, members)
    ensures a == b
  {
    forall i | 0 <= i < 8 ensures a.edges[i] == b.edges[i] {
      var dp: DirectionPointers.DP := (i / 2) as DirectionPointers.DirectionPointer;
      var cc: CodelChoosers.CC := (i % 2) as CodelChoosers.CodelChooser;
      assert EdgeAt(a.edges, dp, cc) == a.edges[i] && EdgeAt(b.edges, dp, cc) == b.edges[i];
      FurthestUnique(members, a.edges[i], b.edges[i], dp, cc);
    }
  }

  // ----- Selecting an edge and leaving -----

  /** Bitwise OR of two unsigned bit patterns, one bit at a time from the lowest. */
  function BitOr(a: nat, b: nat): (r: nat)
    ensures r <= a + b
    decreases a + b
  {
    if a == 0 then b
    else if b == 0 then a
    else 2 * BitOr(a / 2, b / 2) + (if a % 2 == 1 || b % 2 == 1 then 1 else 0)
  }

  /**
   * `Index`: `(int)CC | ((int)DP << 1)` on 32-bit two's complement: the
   * shift doubles the pattern modulo 2^32, the OR combines the patterns.
   * For named enum values it is `CC + 2 DP`, so the eight pointers use 0..7.
   */
  function Index(p: Pointer): (i: Int32)
    ensures Defined(p) ==> i == p.cc as int + 2 * p.dp as int
  {
    if Defined(p) then
      var cc, dp := p.cc as int, p.dp as int;
      assert Unsigned(cc, Int) == cc && Unsigned(2 * dp, Int) == 2 * dp;
      SmallOr(cc, dp);
      Wrap(BitOr(Unsigned(cc, Int), Unsigned(2 * dp, Int)), Int)
    else
      Wrap(BitOr(Unsigned(p.cc as int, Int), Unsigned(2 * p.dp as int, Int)), Int)
  }

  /** The OR of a bit and a doubled number below 4 is their sum. */
  lemma SmallOr(cc: nat, dp: nat)
    requires cc < 2 && dp < 4
    ensures BitOr(cc, 2 * dp) == cc + 2 * dp
  {
    if cc == 1 && dp > 0 {
      assert BitOr(cc, 2 * dp) == 2 * BitOr(0, dp) + 1;
    }
  }

  /** Distinct named pointers select distinct table entries. */
  lemma IndexInjective(p: Pointer, q: Pointer)
    requires Defined(p) && Defined(q) && Index(p) == Index(q)
    ensures p.dp == q.dp && p.cc == q.cc
  {
  }

  /**
   * `Edge(pointer)`: `_edges[Index(pointer)]`; `Border` has no table
   * (NullReferenceException), and an index outside it throws
   * IndexOutOfRangeException.
   */
  function Edge(b: ColourBlock, p: Pointer): (r: Result<Codel>)
    ensures b.Border? ==> r == Err(NullReference)
    ensures b.Block? ==> (r.Ok? <==> 0 <= Index(p) < 8)
    ensures r.Ok? ==> r.value == b.edges[Index(p)]
    ensures r.Err? && b.Block? ==> r.error == IndexOutOfRange
  {
    match b
    case Border => Err(NullReference)
    case Block(_, _, edges) =>
      var i := Index(p);
      if 0 <= i < 8 then Ok(edges[i]) else Err(IndexOutOfRange)
  }

  /** `Leave(pointer)`: the pointer moves to the codel one step past the edge along DP. */
  function Leave(b: ColourBlock, p: Pointer): (r: Result<Pointer>)
    ensures r.Ok? <==> Edge(b, p).Ok? && 0 <= p.dp < 4
    ensures r.Ok? ==> r.value.dp == p.dp && r.value.cc == p.cc
    ensures r.Ok? ==> r.value.position == Step(Edge(b, p).value, p.dp)
  {
    var edge :- Edge(b, p);
    var position :- Codels.Next(edge, p.dp);
    Ok(Move(p, position))
  }

  /**
   * Leaving a block by a named pointer steps off the block: one codel past
   * the furthest codel along DP, so beyond every member (away from the
   * `int` limits).
   */
  lemma LeaveExits(colour: Colour, codels: seq<Codel>, p: Pointer)
    requires 0 < |codels| <= MaxInt32 && Defined(p)
    requires Interior(EdgeAt(New(colour, codels).value.edges, p.dp, p.cc))
    ensures Leave(New(colour, codels).value, p).Ok?
    ensures var q := Leave(New(colour, codels).value, p).value;
      q.dp == p.dp && q.cc == p.cc && q.position !in codels &&
      forall c :: c in codels ==> Along(c, p.dp) < Along(q.position, p.dp)
  {
    var e := EdgeAt(New(colour, codels).value.edges, p.dp, p.cc);
    assert Edge(New(colour, codels).value, p) == Ok(e);
    StepPastFurthest(Members(codels), e, p.dp, p.cc);
  }

  /** One step along DP from the furthest codel is beyond every codel, so off the block. */
  lemma StepPastFurthest(members: set<Codel>, e: Codel, dp: DirectionPointers.DP, cc: CodelChoosers.CC)
    requires Furthest(members, e, dp, cc) && Interior(e)
    ensures Step(e, dp) !in members
    ensures forall c :: c in members ==> Along(c, dp) < Along(Step(e, dp), dp)
  {
  }

  /**
   * Enumeration: the eight edges as pointers, entry `i` with DP `i >> 1`
   * and CC `i & 1` (`i / 2` and `i % 2` for these `i`). `Border` has no
   * table, and LINQ's `Select` on a null source throws ArgumentNullException.
   */
  function Enumerate(b: ColourBlock): (r: Result<seq<Pointer>>)
    ensures b.Border? <==> r == Err(ArgumentNull)
    ensures r.Ok? ==> |r.value| == 8
    ensures r.Ok? ==> forall i :: 0 <= i < 8 ==> r.value[i].position == b.edges[i]
  {
    match b
    case Border => Err(ArgumentNull)
    case Block(_, _, edges) =>
      Ok(seq(8, i requires 0 <= i < 8 =>
        Pointer(edges[i], (i / 2) as DirectionPointers.DirectionPointer, (i % 2) as CodelChoosers.CodelChooser)))
  }

  /** Each enumerated pointer is named and selects its own entry of the table. */
  lemma EnumerateAgreesWithIndex(b: ColourBlock, i: nat)
    requires b.Block? && i < 8
    ensures var p := Enumerate(b).value[i];
      Defined(p) && Index(p) == i && Edge(b, p) == Ok(b.edges[i])
  {
  }

  // ----- Examples -----

  /** `Border` is black, has value 0, no colour and no edges. */
  lemma BorderFacts(p: Pointer)
    ensures ColourOf(Border) == Black && Value(Border) == 0
    ensures IsBlackBlock(Border) && !HasColour(Border) && !IsWhiteBlock(Border)
    ensures Edge(Border, p) == Err(NullReference) && Leave(Border, p) == Err(NullReference)
    ensures Enumerate(Border) == Err(ArgumentNull)
  {
  }

  /** A block of one codel has that codel as all eight edges. */
  lemma SingleCodelEdges(colour: Colour, c: Codel)
    ensures New(colour, [c]).Ok?
    ensures forall i :: 0 <= i < 8 ==> New(colour, [c]).value.edges[i] == c
  {
  }
}
