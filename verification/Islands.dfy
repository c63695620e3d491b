/** The flood fill of graphs/matrix_traversal.c and the islands it counts. */
module Islands {
  import opened Ranges
  import opened Walks

  datatype Cell = Cell(h: int, w: int)

  /** The values of a matrix, cell by cell. */
  type Grid = map<Cell, int>

  ghost predicate IsNeighbour(a: Cell, b: Cell)
  {
    || b == Cell(a.h - 1, a.w) || b == Cell(a.h + 1, a.w)
    || b == Cell(a.h, a.w - 1) || b == Cell(a.h, a.w + 1)
  }

  /** Neighbours are exactly one row or one column apart. */
  lemma NeighboursAreOneApart(a: Cell, b: Cell)
    ensures IsNeighbour(a, b) <==>
              (if a.h < b.h then b.h - a.h else a.h - b.h) + (if a.w < b.w then b.w - a.w else a.w - b.w) == 1
  {
  }

  ghost const Adjacent: (Cell, Cell) -> bool := (a, b) => IsNeighbour(a, b)

  ghost function Land(g: Grid): set<Cell>
  {
    set c | c in g && g[c] != 0
  }

  /** The cells of the land that are 4-connected to `c`; none if `c` is not land. */
  ghost function Island(land: set<Cell>, c: Cell): set<Cell>
  {
    ReachSet(Adjacent, land, c)
  }

  ghost function Flooded(g: Grid, s: set<Cell>): Grid
  {
    map c | c in g :: if c in s then 0 else g[c]
  }

  ghost function Values(matrix: array2<int>): Grid
    reads matrix
  {
    map h, w | 0 <= h < matrix.Length0 && 0 <= w < matrix.Length1 :: Cell(h, w) := matrix[h, w]
  }

  /** A matrix and its values: the land is what is not zero. */
  lemma ValuesAre(matrix: array2<int>, h: int, w: int)
    ensures Cell(h, w) in Values(matrix) <==> 0 <= h < matrix.Length0 && 0 <= w < matrix.Length1
    ensures Cell(h, w) in Values(matrix) ==> Values(matrix)[Cell(h, w)] == matrix[h, w]
    ensures Cell(h, w) in Land(Values(matrix)) <==> 0 <= h < matrix.Length0 && 0 <= w < matrix.Length1 && matrix[h, w] != 0
  {
  }

  ghost predicate ZerosAndOnes(matrix: array2<int>)
    reads matrix
  {
    forall h, w :: 0 <= h < matrix.Length0 && 0 <= w < matrix.Length1 ==> matrix[h, w] == 0 || matrix[h, w] == 1
  }

  lemma NoLandIsAllZeros(matrix: array2<int>)
    requires Land(Values(matrix)) == {}
    ensures forall h, w :: 0 <= h < matrix.Length0 && 0 <= w < matrix.Length1 ==> matrix[h, w] == 0
  {
    forall h, w | 0 <= h < matrix.Length0 && 0 <= w < matrix.Length1 ensures matrix[h, w] == 0 {
      ValuesAre(matrix, h, w);
    }
  }

  // ---- islands ----

  lemma NotLandNoIsland(land: set<Cell>, c: Cell)
    requires c !in land
    ensures Island(land, c) == {}
  {
    forall b | b in Island(land, c) ensures false {
      ReachInRegion(Adjacent, land, c, b);
    }
  }

  lemma IslandsAgree(land: set<Cell>, a: Cell, b: Cell)
    requires b in Island(land, a)
    ensures a in Island(land, b) && Island(land, a) == Island(land, b)
  {
    ReachSymmetric(Adjacent, land, a, b);
    ReachInRegion(Adjacent, land, a, b);
    forall x | x in land ensures x in Island(land, a) <==> x in Island(land, b) {
      if x in Island(land, a) {
        ReachTransitive(Adjacent, land, b, a, x);
      }
      if x in Island(land, b) {
        ReachTransitive(Adjacent, land, a, b, x);
      }
    }
  }

  /** Taking whole islands away, a set closed under adjacency, leaves the other islands as they were. */
  lemma OtherIslandsStay(land: set<Cell>, gone: set<Cell>, c: Cell)
    requires Closed(Adjacent, land, gone) && gone <= land && c in land && c !in gone
    ensures Island(land - gone, c) == Island(land, c)
  {
    var rest := Island(land - gone, c);
    ReachSetClosed(Adjacent, land - gone, c);
    forall a, b | a in rest && b in land && Adjacent(a, b) ensures b in rest {
      ReachInRegion(Adjacent, land - gone, c, a);
      assert Adjacent(b, a);
    }
    ReachSetLeast(Adjacent, land, c, rest);
    forall x | x in rest ensures x in Island(land, c) {
      ReachMonotone(Adjacent, land - gone, Adjacent, land, c, x);
    }
  }

  // ---- the probe ----

  /** The cells in `gone` are what a probe of the island of `c` has cleared so far. */
  ghost predicate PartlyFlooded(land: set<Cell>, c: Cell, gone: set<Cell>)
  {
    gone <= land && Exploring(Adjacent, land, c, land - gone)
  }

  lemma StartFlood(land: set<Cell>, c: Cell)
    requires c in land
    ensures PartlyFlooded(land, c, {c})
  {
    StartExploring(Adjacent, land, c);
  }

  lemma FloodNeighbour(land: set<Cell>, c: Cell, gone: set<Cell>, n: Cell)
    requires PartlyFlooded(land, c, gone) && IsNeighbour(c, n)
    ensures PartlyFlooded(land, c, gone + Island(land - gone, n)) && n !in land - (gone + Island(land - gone, n))
    ensures c in gone
  {
    var left := land - gone;
    ExploreNext(Adjacent, land, c, left, n);
    assert land - (gone + Island(left, n)) == left - Island(left, n);
  }

  /** When all four neighbours are gone, what is gone is the whole island. */
  lemma FloodComplete(land: set<Cell>, c: Cell, gone: set<Cell>)
    requires PartlyFlooded(land, c, gone)
    requires Cell(c.h - 1, c.w) !in land - gone && Cell(c.h + 1, c.w) !in land - gone
    requires Cell(c.h, c.w - 1) !in land - gone && Cell(c.h, c.w + 1) !in land - gone
    ensures gone == Island(land, c)
  {
    ExploreComplete(Adjacent, land, c, land - gone);
    assert gone == land - (land - gone);
  }

  lemma FloodedLand(g: Grid, s: set<Cell>)
    ensures Land(Flooded(g, s)) == Land(g) - s
  {
  }

  /** `g` is `g0` with some cells set to zero. */
  lemma FloodedFrom(g0: Grid, g: Grid, s: set<Cell>, t: set<Cell>)
    requires g == Flooded(g0, s)
    ensures Flooded(g, t) == Flooded(g0, s + t)
  {
  }

  /** The recursion of the probe: clears exactly the island of one cell. */
  method DfsProbe(matrix: array2<int>, h: int, w: int)
    modifies matrix
    ensures Values(matrix) == Flooded(old(Values(matrix)), Island(Land(old(Values(matrix))), Cell(h, w)))
    decreases Land(Values(matrix)), 0
  {
    ghost var g0 := Values(matrix);
    ghost var land, c := Land(g0), Cell(h, w);
    if h < 0 || h >= matrix.Length0 || w < 0 || w >= matrix.Length1 {
      NotLandNoIsland(land, c);
      return;
    }
    if matrix[h, w] == 0 {
      NotLandNoIsland(land, c);
      return;
    }
    matrix[h, w] := 0;
    assert Values(matrix) == Flooded(g0, {c});
    StartFlood(land, c);
    FloodedLand(g0, {c});
    ghost var gone := ProbeNeighbour(matrix, h - 1, w, c, g0, {c});
    gone := ProbeNeighbour(matrix, h + 1, w, c, g0, gone);
    gone := ProbeNeighbour(matrix, h, w - 1, c, g0, gone);
    gone := ProbeNeighbour(matrix, h, w + 1, c, g0, gone);
    FloodComplete(land, c, gone);
  }

  /** One recursive call of the probe, seen from the cell `c` that makes it. */
  method ProbeNeighbour(matrix: array2<int>, h: int, w: int, ghost c: Cell, ghost g0: Grid, ghost gone: set<Cell>)
    returns (ghost gone': set<Cell>)
    requires Values(matrix) == Flooded(g0, gone)
    requires PartlyFlooded(Land(g0), c, gone) && IsNeighbour(c, Cell(h, w))
    modifies matrix
    ensures Values(matrix) == Flooded(g0, gone') && gone <= gone'
    ensures PartlyFlooded(Land(g0), c, gone') && Cell(h, w) !in Land(g0) - gone'
    decreases Land(g0) - gone, 1
  {
    FloodedLand(g0, gone);
    DfsProbe(matrix, h, w);
    ghost var more := Island(Land(g0) - gone, Cell(h, w));
    FloodedFrom(g0, Flooded(g0, gone), gone, more);
    FloodNeighbour(Land(g0), c, gone, Cell(h, w));
    gone' := gone + more;
  }

  // ---- the count ----

  /** The islands that contain a cell of value 1 among the cells scanned. */
  ghost function Found(g: Grid, scanned: set<Cell>): set<set<Cell>>
  {
    set c | c in scanned && c in g && g[c] == 1 :: Island(Land(g), c)
  }

  /** The cells of those islands. */
  ghost function Cleared(g: Grid, scanned: set<Cell>): set<Cell>
  {
    set x | x in Land(g) && InFound(g, scanned, x)
  }

  ghost predicate InFound(g: Grid, scanned: set<Cell>, x: Cell)
  {
    exists c :: c in scanned && c in g && g[c] == 1 && x in Island(Land(g), c)
  }

  lemma ClearedIsClosed(g: Grid, scanned: set<Cell>)
    ensures Closed(Adjacent, Land(g), Cleared(g, scanned))
  {
    forall a, b | a in Cleared(g, scanned) && b in Land(g) && Adjacent(a, b) ensures b in Cleared(g, scanned) {
      var c :| c in scanned && c in g && g[c] == 1 && a in Island(Land(g), c);
      ReachSetClosed(Adjacent, Land(g), c);
      assert b in Island(Land(g), c);
    }
  }

  /** Scanning a cell that still holds 1: its island is a new one, and flooding clears exactly that. */
  lemma ScanLand(g: Grid, scanned: set<Cell>, c: Cell)
    requires c in g && g[c] == 1 && c !in Cleared(g, scanned)
    ensures Island(Land(g) - Cleared(g, scanned), c) == Island(Land(g), c)
    ensures Found(g, scanned + {c}) == Found(g, scanned) + {Island(Land(g), c)}
    ensures Island(Land(g), c) !in Found(g, scanned)
    ensures Cleared(g, scanned + {c}) == Cleared(g, scanned) + Island(Land(g), c)
  {
    var land, island := Land(g), Island(Land(g), c);
    ReachSelf(Adjacent, land, c);
    ClearedIsClosed(g, scanned);
    OtherIslandsStay(land, Cleared(g, scanned), c);
    assert island in Found(g, scanned) ==> InFound(g, scanned, c);
    forall x | x in land ensures InFound(g, scanned + {c}, x) <==> InFound(g, scanned, x) || x in island {
      if x in island {
        assert c in scanned + {c};
      }
    }
    assert c in scanned + {c};
  }

  /** Scanning a cell that does not hold 1, or no longer: nothing new is found. */
  lemma ScanOther(g: Grid, scanned: set<Cell>, c: Cell)
    requires c in g && (g[c] != 1 || c in Cleared(g, scanned))
    ensures Found(g, scanned + {c}) == Found(g, scanned)
    ensures Cleared(g, scanned + {c}) == Cleared(g, scanned)
  {
    if g[c] == 1 {
      var a :| a in scanned && a in g && g[a] == 1 && c in Island(Land(g), a);
      IslandsAgree(Land(g), a, c);
      forall x | x in Land(g) && InFound(g, scanned + {c}, x) ensures InFound(g, scanned, x) {
        var b :| b in scanned + {c} && b in g && g[b] == 1 && x in Island(Land(g), b);
        if b == c {
          assert x in Island(Land(g), a);
        }
      }
    }
    forall x | x in Land(g) && InFound(g, scanned, x) ensures InFound(g, scanned + {c}, x) {
      var b :| b in scanned && b in g && g[b] == 1 && x in Island(Land(g), b);
      assert b in scanned + {c};
    }
  }

  ghost predicate IsBinary(g: Grid)
  {
    forall c :: c in g ==> g[c] == 0 || g[c] == 1
  }

  lemma BinaryValues(matrix: array2<int>)
    ensures IsBinary(Values(matrix)) <==> ZerosAndOnes(matrix)
  {
    if IsBinary(Values(matrix)) {
      forall h, w | 0 <= h < matrix.Length0 && 0 <= w < matrix.Length1 ensures matrix[h, w] == 0 || matrix[h, w] == 1 {
        ValuesAre(matrix, h, w);
      }
    }
  }

  /** All islands of a grid. */
  ghost function AllIslands(g: Grid): set<set<Cell>>
  {
    set c | c in Land(g) :: Island(Land(g), c)
  }

  /** Every island holds a cell of value 1: what the scan needs in order to find it. */
  ghost predicate EachHasOne(g: Grid)
  {
    forall x :: x in Land(g) ==> HasOne(g, x)
  }

  ghost predicate HasOne(g: Grid, x: Cell)
  {
    exists c :: c in Island(Land(g), x) && g[c] == 1
  }

  /** A cell is in an island that is found exactly when its own island holds a 1. */
  lemma FoundHasOne(g: Grid, x: Cell)
    requires x in Land(g)
    ensures InFound(g, g.Keys, x) <==> HasOne(g, x)
    ensures Island(Land(g), x) in Found(g, g.Keys) <==> HasOne(g, x)
  {
    if c :| c in g && g[c] == 1 && x in Island(Land(g), c) {
      IslandsAgree(Land(g), c, x);
    }
    if c :| c in Island(Land(g), x) && g[c] == 1 {
      IslandsAgree(Land(g), x, c);
      assert c in g.Keys;
    }
    if c :| c in g.Keys && g[c] == 1 && Island(Land(g), c) == Island(Land(g), x) {
      ReachSelf(Adjacent, Land(g), c);
    }
  }

  lemma FoundAreIslands(g: Grid)
    ensures Found(g, g.Keys) <= AllIslands(g)
  {
    forall i | i in Found(g, g.Keys) ensures i in AllIslands(g) {
      var c :| c in g.Keys && g[c] == 1 && i == Island(Land(g), c);
      assert c in Land(g);
    }
  }

  lemma AllFound(g: Grid)
    requires EachHasOne(g)
    ensures Found(g, g.Keys) == AllIslands(g) && Land(g) <= Cleared(g, g.Keys)
  {
    FoundAreIslands(g);
    forall x | x in Land(g) ensures Island(Land(g), x) in Found(g, g.Keys) && x in Cleared(g, g.Keys) {
      assert HasOne(g, x);
      FoundHasOne(g, x);
    }
  }

  lemma OneMissed(g: Grid, x: Cell)
    requires x in Land(g) && !HasOne(g, x)
    ensures Found(g, g.Keys) <= AllIslands(g) - {Island(Land(g), x)} && Island(Land(g), x) in AllIslands(g)
    ensures x in Land(g) - Cleared(g, g.Keys)
  {
    FoundAreIslands(g);
    FoundHasOne(g, x);
  }

  /** All islands are found, all are counted, and all land is cleared, if and only if every island holds a 1. */
  lemma AllFoundIffEachHasOne(g: Grid)
    ensures Found(g, g.Keys) == AllIslands(g) <==> EachHasOne(g)
    ensures |Found(g, g.Keys)| == |AllIslands(g)| <==> EachHasOne(g)
    ensures Land(Flooded(g, Cleared(g, g.Keys))) == {} <==> EachHasOne(g)
  {
    var found, islands := Found(g, g.Keys), AllIslands(g);
    FloodedLand(g, Cleared(g, g.Keys));
    if EachHasOne(g) {
      AllFound(g);
    } else {
      var x :| x in Land(g) && !HasOne(g, x);
      var missed := Island(Land(g), x);
      OneMissed(g, x);
      SubsetSize(found, islands - {missed});
      assert missed !in found;
    }
  }

  lemma BinaryFinds(g: Grid)
    requires IsBinary(g)
    ensures EachHasOne(g) && Found(g, g.Keys) == AllIslands(g) && Cleared(g, g.Keys) == Land(g)
  {
    forall x | x in Land(g) ensures HasOne(g, x) {
      ReachSelf(Adjacent, Land(g), x);
    }
    AllFound(g);
  }

  /** The least grid on which an island is missed: a single cell that holds 2 is one island, and none is found. */
  lemma TwoIsMissed()
    ensures var g: Grid := map[Cell(0, 0) := 2];
            |AllIslands(g)| == 1 && Found(g, g.Keys) == {} && Flooded(g, Cleared(g, g.Keys)) == g
  {
    var g: Grid := map[Cell(0, 0) := 2];
    assert Land(g) == {Cell(0, 0)};
    assert AllIslands(g) == {Island(Land(g), Cell(0, 0))};
  }

  /** The scan has passed exactly the cells above row `h`, and those of row `h` left of column `w`. */
  ghost predicate ScannedTo(g: Grid, scanned: set<Cell>, h: int, w: int)
  {
    forall c :: c in scanned <==> c in g && (c.h < h || (c.h == h && c.w < w))
  }

  lemma ScanAdvances(g: Grid, scanned: set<Cell>, h: int, w: int)
    requires ScannedTo(g, scanned, h, w) && Cell(h, w) in g
    ensures ScannedTo(g, scanned + {Cell(h, w)}, h, w + 1)
  {
  }

  /** One cell of the scan. */
  method ScanCell(matrix: array2<int>, h: nat, w: nat, ghost g0: Grid, ghost scanned: set<Cell>) returns (isNew: bool)
    requires h < matrix.Length0 && w < matrix.Length1
    requires g0.Keys == Values(matrix).Keys && Values(matrix) == Flooded(g0, Cleared(g0, scanned))
    modifies matrix
    ensures Values(matrix) == Flooded(g0, Cleared(g0, scanned + {Cell(h, w)}))
    ensures |Found(g0, scanned + {Cell(h, w)})| == |Found(g0, scanned)| + if isNew then 1 else 0
  {
    ghost var c := Cell(h, w);
    ghost var gone := Cleared(g0, scanned);
    assert Values(matrix)[c] == matrix[h, w];
    isNew := matrix[h, w] == 1;
    if isNew {
      FloodedLand(g0, gone);
      ScanLand(g0, scanned, c);
      DfsProbe(matrix, h, w);
      FloodedFrom(g0, Flooded(g0, gone), gone, Island(Land(g0), c));
    } else {
      assert g0[c] != 1 || c in gone;
      ScanOther(g0, scanned, c);
    }
  }

  /** The inner loop: one row of the scan. */
  method ScanRow(matrix: array2<int>, h: nat, islands0: nat, ghost g0: Grid, ghost scanned0: set<Cell>)
    returns (islands: nat, ghost scanned: set<Cell>)
    requires h < matrix.Length0 && ScannedTo(g0, scanned0, h, 0)
    requires g0.Keys == Values(matrix).Keys && Values(matrix) == Flooded(g0, Cleared(g0, scanned0))
    requires islands0 == |Found(g0, scanned0)|
    modifies matrix
    ensures ScannedTo(g0, scanned, h, matrix.Length1)
    ensures islands == |Found(g0, scanned)| && Values(matrix) == Flooded(g0, Cleared(g0, scanned))
  {
    islands, scanned := islands0, scanned0;
    for w := 0 to matrix.Length1
      invariant ScannedTo(g0, scanned, h, w)
      invariant islands == |Found(g0, scanned)| && Values(matrix) == Flooded(g0, Cleared(g0, scanned))
    {
      var isNew := ScanCell(matrix, h, w, g0, scanned);
      if isNew {
        islands := islands + 1;
      }
      ScanAdvances(g0, scanned, h, w);
      scanned := scanned + {Cell(h, w)};
    }
  }

  lemma RowsDone(matrix: array2<int>, g: Grid, scanned: set<Cell>, h: int)
    requires g.Keys == Values(matrix).Keys && ScannedTo(g, scanned, h, matrix.Length1)
    ensures ScannedTo(g, scanned, h + 1, 0)
    ensures h + 1 == matrix.Length0 ==> scanned == g.Keys
  {
  }

  /**
   Counts the islands that hold a cell of value 1 and clears exactly these. The count is that
   of all islands, and the grid ends up all zero, if and only if every island holds a 1, as on
   any grid of zeros and ones.
   */
  method NumIslands(matrix: array2<int>) returns (islands: nat)
    modifies matrix
    ensures var g := old(Values(matrix));
      && islands == |Found(g, g.Keys)| && Values(matrix) == Flooded(g, Cleared(g, g.Keys))
      && (islands == |AllIslands(g)| <==> EachHasOne(g)) && (Land(Values(matrix)) == {} <==> EachHasOne(g))
      && (IsBinary(g) ==> islands == |AllIslands(g)| && Land(Values(matrix)) == {})
    ensures old(ZerosAndOnes(matrix)) ==>
              forall h, w :: 0 <= h < matrix.Length0 && 0 <= w < matrix.Length1 ==> matrix[h, w] == 0
  {
    ghost var g := Values(matrix);
    BinaryValues(matrix);
    ghost var scanned: set<Cell> := {};
    islands := 0;
    for h := 0 to matrix.Length0
      invariant ScannedTo(g, scanned, h, 0) && (h == matrix.Length0 ==> scanned == g.Keys)
      invariant islands == |Found(g, scanned)| && Values(matrix) == Flooded(g, Cleared(g, scanned))
    {
      islands, scanned := ScanRow(matrix, h, islands, g, scanned);
      RowsDone(matrix, g, scanned, h);
    }
    AllFoundIffEachHasOne(g);
    if IsBinary(g) {
      BinaryFinds(g);
      NoLandIsAllZeros(matrix);
    }
  }
}
