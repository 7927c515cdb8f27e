/** One line of the board, and the step every move applies to each line: slide the
    tiles to the front, then merge equal neighbours pairwise, leftmost pair first,
    each tile merging at most once. */
module Lines {
  /** The total of the tile values. */
  function Sum(s: seq<int>): int
  {
    if s == [] then 0 else s[0] + Sum(s[1..])
  }

  function Zeros(n: nat): (z: seq<int>)
    ensures |z| == n && forall i :: 0 <= i < n ==> z[i] == 0
  {
    seq(n, _ => 0)
  }

  function Repeat(x: int, n: nat): (r: seq<int>)
    ensures |r| == n && forall i :: 0 <= i < n ==> r[i] == x
  {
    seq(n, _ => x)
  }

  predicate AllNonZero(s: seq<int>)
  {
    forall i :: 0 <= i < |s| ==> s[i] != 0
  }

  /** No empty cell comes before a tile. */
  predicate Packed(s: seq<int>)
  {
    forall i, j :: 0 <= i < j < |s| && s[i] == 0 ==> s[j] == 0
  }

  /** No two neighbouring entries are equal. */
  predicate NoAdjacentPair(s: seq<int>)
  {
    forall i :: 0 <= i < |s| - 1 ==> s[i] != s[i + 1]
  }

  /** A line no move can change: packed, and no two neighbouring tiles equal. */
  predicate Settled(s: seq<int>)
  {
    Packed(s) && forall i :: 0 <= i < |s| - 1 && s[i] != 0 ==> s[i] != s[i + 1]
  }

  lemma {:induction false} SumAppend(a: seq<int>, b: seq<int>)
    ensures Sum(a + b) == Sum(a) + Sum(b)
  {
    if a != [] {
      assert (a + b)[1..] == a[1..] + b;
      SumAppend(a[1..], b);
    } else {
      assert a + b == b;
    }
  }

  lemma {:induction false} SumZeros(n: nat)
    ensures Sum(Zeros(n)) == 0
  {
    if n > 0 {
      assert Zeros(n)[1..] == Zeros(n - 1);
      SumZeros(n - 1);
    }
  }

  /** The tiles of a line in order, empty cells dropped. */
  function NonZero(s: seq<int>): (r: seq<int>)
    ensures |r| <= |s| && AllNonZero(r)
    ensures Sum(r) == Sum(s)
    ensures AllNonZero(s) ==> r == s
  {
    if s == [] then []
    else if s[0] == 0 then NonZero(s[1..])
    else
      var r := [s[0]] + NonZero(s[1..]);
      assert r[1..] == NonZero(s[1..]);
      r
  }

  /** Dropping empty cells keeps every tile, as often as it occurs, and drops only the
      empty cells. */
  lemma {:induction false} NonZeroTiles(s: seq<int>)
    ensures multiset(NonZero(s)) == multiset(s)[0 := 0]
  {
    if s != [] {
      assert s == [s[0]] + s[1..];
      NonZeroTiles(s[1..]);
      if s[0] != 0 {
        assert NonZero(s) == [s[0]] + NonZero(s[1..]);
      }
    }
  }

  /** Dropping empty cells works piecewise: the tiles of a concatenation are the tiles
      of the first part followed by those of the second, so the order is kept. */
  lemma {:induction false} NonZeroAppend(a: seq<int>, b: seq<int>)
    ensures NonZero(a + b) == NonZero(a) + NonZero(b)
  {
    if a != [] {
      assert (a + b)[0] == a[0] && (a + b)[1..] == a[1..] + b;
      NonZeroAppend(a[1..], b);
    } else {
      assert a + b == b;
    }
  }

  datatype Merged = Merged(tiles: seq<int>, score: int)

  /** Merge a packed run of tiles left to right: an equal pair at the front merges into
      one tile of twice the value, which scores that value, and both tiles are consumed;
      otherwise the front tile passes through unchanged. */
  function MergeTiles(tiles: seq<int>): (m: Merged)
    ensures |m.tiles| <= |tiles|
  {
    if |tiles| >= 2 && tiles[0] == tiles[1] then
      var rest := MergeTiles(tiles[2..]);
      Merged([tiles[0] * 2] + rest.tiles, tiles[0] * 2 + rest.score)
    else if tiles == [] then
      Merged([], 0)
    else
      var rest := MergeTiles(tiles[1..]);
      Merged([tiles[0]] + rest.tiles, rest.score)
  }

  /** Merging keeps the tile total and never produces an empty cell from tiles; it
      shortens the tiles exactly when some neighbouring pair is equal, and otherwise
      returns them unchanged with no score. */
  lemma MergeTilesFacts(tiles: seq<int>)
    ensures Sum(MergeTiles(tiles).tiles) == Sum(tiles)
    ensures AllNonZero(tiles) ==> AllNonZero(MergeTiles(tiles).tiles)
    ensures |MergeTiles(tiles).tiles| == |tiles| <==> NoAdjacentPair(tiles)
    ensures |MergeTiles(tiles).tiles| == |tiles| ==> MergeTiles(tiles) == Merged(tiles, 0)
  {
    MergeTilesSum(tiles);
    MergeTilesNonZero(tiles);
    MergeTilesLength(tiles);
  }

  lemma {:induction false} MergeTilesSum(tiles: seq<int>)
    ensures Sum(MergeTiles(tiles).tiles) == Sum(tiles)
  {
    var m := MergeTiles(tiles);
    if |tiles| >= 2 && tiles[0] == tiles[1] {
      MergeTilesSum(tiles[2..]);
      assert m.tiles[1..] == MergeTiles(tiles[2..]).tiles;
      assert tiles[1..][1..] == tiles[2..];
    } else if tiles != [] {
      MergeTilesSum(tiles[1..]);
      assert m.tiles[1..] == MergeTiles(tiles[1..]).tiles;
    }
  }

  lemma {:induction false} MergeTilesNonZero(tiles: seq<int>)
    ensures AllNonZero(tiles) ==> AllNonZero(MergeTiles(tiles).tiles)
  {
    var m := MergeTiles(tiles);
    if |tiles| >= 2 && tiles[0] == tiles[1] {
      MergeTilesNonZero(tiles[2..]);
      assert m.tiles[1..] == MergeTiles(tiles[2..]).tiles;
    } else if tiles != [] {
      MergeTilesNonZero(tiles[1..]);
      assert m.tiles[1..] == MergeTiles(tiles[1..]).tiles;
    }
  }

  lemma {:induction false} MergeTilesLength(tiles: seq<int>)
    ensures |MergeTiles(tiles).tiles| == |tiles| <==> NoAdjacentPair(tiles)
    ensures |MergeTiles(tiles).tiles| == |tiles| ==> MergeTiles(tiles) == Merged(tiles, 0)
  {
    var m := MergeTiles(tiles);
    if |tiles| >= 2 && tiles[0] == tiles[1] {
      assert |MergeTiles(tiles[2..]).tiles| <= |tiles| - 2;
    } else if tiles != [] {
      var rest := MergeTiles(tiles[1..]);
      MergeTilesLength(tiles[1..]);
      assert m.tiles[1..] == rest.tiles;
      assert NoAdjacentPair(tiles) <==> NoAdjacentPair(tiles[1..]) by {
        if NoAdjacentPair(tiles[1..]) {
          forall i | 0 <= i < |tiles| - 1
            ensures tiles[i] != tiles[i + 1]
          {
            if i > 0 {
              assert tiles[1..][i - 1] == tiles[i];
            }
          }
        }
      }
      if |m.tiles| == |tiles| {
        assert m.tiles == [tiles[0]] + tiles[1..];
      }
    }
  }

  /** The number of copies of the front tile at the front of a non-empty sequence. */
  function RunLength(s: seq<int>): (k: nat)
    requires s != []
    ensures 1 <= k <= |s|
    ensures forall i :: 0 <= i < k ==> s[i] == s[0]
    ensures k < |s| ==> s[k] != s[0]
  {
    if |s| == 1 || s[1] != s[0] then 1 else 1 + RunLength(s[1..])
  }

  /** A reference definition of the merge, one maximal run of equal tiles at a time: a
      run of k copies of x becomes k / 2 tiles of 2x, then one x if k is odd, and scores
      2x for each of the k / 2 merges. */
  function MergeRuns(s: seq<int>): (m: Merged)
    ensures |m.tiles| <= |s|
    decreases |s|
  {
    if s == [] then Merged([], 0)
    else
      var k := RunLength(s);
      var rest := MergeRuns(s[k..]);
      Merged(Repeat(2 * s[0], k / 2) + Repeat(s[0], k % 2) + rest.tiles, (k / 2) * (2 * s[0]) + rest.score)
  }

  /** Merging a sequence that starts with a maximal run of k copies of x: the run
      becomes k / 2 tiles 2x then k % 2 tiles x, scoring 2x per pair, ahead of the
      merge of what follows the run. */
  lemma {:induction false} MergeRun(s: seq<int>, x: int, k: nat)
    requires k <= |s| && (forall i :: 0 <= i < k ==> s[i] == x) && (k < |s| ==> s[k] != x)
    ensures MergeTiles(s)
         == Merged(Repeat(2 * x, k / 2) + Repeat(x, k % 2) + MergeTiles(s[k..]).tiles,
                   (k / 2) * (2 * x) + MergeTiles(s[k..]).score)
    decreases k
  {
    if k == 0 {
      assert s[0..] == s;
      assert Repeat(2 * x, 0) + Repeat(x, 0) + MergeTiles(s).tiles == MergeTiles(s).tiles;
    } else if k == 1 {
      assert Repeat(2 * x, 0) + Repeat(x, 1) == [x];
    } else {
      MergeRun(s[2..], x, k - 2);
      assert s[2..][k - 2..] == s[k..];
      MergeRunStep(x, k, MergeTiles(s[2..]), MergeTiles(s[k..]));
    }
  }

  lemma MergeRunStep(x: int, k: nat, tail: Merged, rest: Merged)
    requires k >= 2
    requires tail == Merged(Repeat(2 * x, (k - 2) / 2) + Repeat(x, (k - 2) % 2) + rest.tiles,
                            ((k - 2) / 2) * (2 * x) + rest.score)
    ensures Merged([x * 2] + tail.tiles, x * 2 + tail.score)
         == Merged(Repeat(2 * x, k / 2) + Repeat(x, k % 2) + rest.tiles, (k / 2) * (2 * x) + rest.score)
  {
    assert [2 * x] + Repeat(2 * x, (k - 2) / 2) == Repeat(2 * x, k / 2);
    assert (k / 2) * (2 * x) == 2 * x + ((k - 2) / 2) * (2 * x);
  }

  /** The greedy left-to-right merge agrees with the run-by-run reference. */
  lemma {:induction false} MergeTilesByRuns(s: seq<int>)
    ensures MergeTiles(s) == MergeRuns(s)
    decreases |s|
  {
    if s != [] {
      var k := RunLength(s);
      MergeRun(s, s[0], k);
      MergeTilesByRuns(s[k..]);
    }
  }

  /** Whether two equally long lines differ at some position from i on, scanning
      forward and stopping at the first difference. */
  function DiffersFrom(a: seq<int>, b: seq<int>, i: nat): (d: bool)
    requires |a| == |b| && i <= |a|
    ensures d <==> exists j :: i <= j < |a| && a[j] != b[j]
    decreases |a| - i
  {
    if i == |a| then false
    else if a[i] != b[i] then true
    else DiffersFrom(a, b, i + 1)
  }

  datatype LineResult = LineResult(newLine: seq<int>, moved: bool, score: int)

  /** Slide a line's tiles to the front and merge them. The result has the line's
      length, the line counts as moved exactly when the result differs from it, and a
      line that does not move scores nothing. */
  function ProcessLine(line: seq<int>): (r: LineResult)
    ensures |r.newLine| == |line|
    ensures r.moved <==> r.newLine != line
    ensures !r.moved ==> r.score == 0
  {
    var result := Slide(line);
    SlideUnchangedScore(line);
    LineResult(result, DiffersFrom(line, result, 0), MergeTiles(NonZero(line)).score)
  }

  /** The processed line keeps the tile total, is packed, and is the run-by-run merge of
      the tiles followed by empty cells, scoring 2x for each pair of x merged; it moves
      exactly when the line was not already settled. */
  lemma ProcessLineFacts(line: seq<int>)
    ensures Sum(ProcessLine(line).newLine) == Sum(line)
    ensures Packed(ProcessLine(line).newLine)
    ensures ProcessLine(line).newLine
         == MergeRuns(NonZero(line)).tiles + Zeros(|line| - |MergeRuns(NonZero(line)).tiles|)
    ensures ProcessLine(line).score == MergeRuns(NonZero(line)).score
    ensures ProcessLine(line).moved <==> !Settled(line)
  {
    SlideFacts(line);
  }

  lemma SlideUnchangedScore(line: seq<int>)
    ensures Slide(line) == line ==> MergeTiles(NonZero(line)).score == 0
  {
    if Slide(line) == line {
      var m := MergeTiles(NonZero(line));
      var pad := |line| - |m.tiles|;
      MergeTilesFacts(NonZero(line));
      NonZeroOfPacked(m.tiles, pad);
    }
  }

  /** What sliding guarantees: the tile total is kept, the result is packed, it agrees
      with the run-by-run merge, and it equals the line exactly when the line is
      settled, in which case nothing is scored. */
  lemma SlideFacts(line: seq<int>)
    ensures Sum(Slide(line)) == Sum(line)
    ensures Packed(Slide(line))
    ensures Slide(line) == MergeRuns(NonZero(line)).tiles + Zeros(|line| - |MergeRuns(NonZero(line)).tiles|)
    ensures MergeTiles(NonZero(line)).score == MergeRuns(NonZero(line)).score
    ensures Slide(line) == line <==> Settled(line)
  {
    SlideSum(line);
    SlidePacked(line);
    MergeTilesByRuns(NonZero(line));
    SettledIffUnchanged(line);
  }

  lemma SlideSum(line: seq<int>)
    ensures Sum(Slide(line)) == Sum(line)
  {
    var m := MergeTiles(NonZero(line));
    var pad := |line| - |m.tiles|;
    MergeTilesFacts(NonZero(line));
    SumAppend(m.tiles, Zeros(pad));
    SumZeros(pad);
  }

  lemma SlidePacked(line: seq<int>)
    ensures Packed(Slide(line))
  {
    var m := MergeTiles(NonZero(line));
    MergeTilesFacts(NonZero(line));
    PackedAppend(m.tiles, |line| - |m.tiles|);
  }

  /** Tiles followed by empty cells form a packed line. */
  lemma PackedAppend(t: seq<int>, n: nat)
    requires AllNonZero(t)
    ensures Packed(t + Zeros(n))
  {
  }

  /** Dropping the empty cells of tiles-then-empties gives back the tiles. */
  lemma {:induction false} NonZeroOfPacked(t: seq<int>, n: nat)
    requires AllNonZero(t)
    ensures NonZero(t + Zeros(n)) == t
  {
    if t == [] {
      assert t + Zeros(n) == Zeros(n);
      NonZeroOfZeros(n);
    } else {
      assert (t + Zeros(n))[1..] == t[1..] + Zeros(n);
      NonZeroOfPacked(t[1..], n);
    }
  }

  lemma {:induction false} NonZeroOfZeros(n: nat)
    ensures NonZero(Zeros(n)) == []
  {
    if n > 0 {
      assert Zeros(n)[1..] == Zeros(n - 1);
      NonZeroOfZeros(n - 1);
    }
  }

  /** A packed line is its tiles followed by empty cells. */
  lemma {:induction false} PackedSplit(s: seq<int>)
    requires Packed(s)
    ensures |NonZero(s)| <= |s|
    ensures s == NonZero(s) + Zeros(|s| - |NonZero(s)|)
  {
    if s == [] {
    } else if s[0] == 0 {
      assert forall j :: 0 <= j < |s| ==> s[j] == 0;
      assert s == Zeros(|s|);
      NonZeroOfZeros(|s|);
    } else {
      assert Packed(s[1..]) by {
        forall i, j | 0 <= i < j < |s[1..]| && s[1..][i] == 0
          ensures s[1..][j] == 0
        {
          assert s[i + 1] == 0;
        }
      }
      PackedSplit(s[1..]);
      assert NonZero(s) == [s[0]] + NonZero(s[1..]);
    }
  }

  /** The result of sliding and merging a line: its merged tiles, then empty cells. */
  function Slide(line: seq<int>): (r: seq<int>)
    ensures |r| == |line|
  {
    var m := MergeTiles(NonZero(line));
    m.tiles + Zeros(|line| - |m.tiles|)
  }

  /** Sliding leaves a line as it was exactly when the line is settled. */
  lemma SettledIffUnchanged(line: seq<int>)
    ensures Settled(line) <==> Slide(line) == line
  {
    if Settled(line) {
      SettledUnchanged(line);
    }
    if Slide(line) == line {
      UnchangedSettled(line);
    }
  }

  lemma SettledUnchanged(line: seq<int>)
    requires Settled(line)
    ensures Slide(line) == line
  {
    var tiles := NonZero(line);
    PackedSplit(line);
    MergeTilesFacts(tiles);
    assert NoAdjacentPair(tiles) by {
      forall i | 0 <= i < |tiles| - 1
        ensures tiles[i] != tiles[i + 1]
      {
        assert line[i] == tiles[i] && line[i + 1] == tiles[i + 1];
      }
    }
  }

  lemma UnchangedSettled(line: seq<int>)
    requires Slide(line) == line
    ensures Settled(line)
  {
    var m := MergeTiles(NonZero(line));
    var pad := |line| - |m.tiles|;
    assert line == m.tiles + Zeros(pad);
    MergeTilesFacts(NonZero(line));
    PackedAppend(m.tiles, pad);
    NonZeroOfPacked(m.tiles, pad);
    assert NoAdjacentPair(m.tiles);
    forall i | 0 <= i < |line| - 1 && line[i] != 0
      ensures line[i] != line[i + 1]
    {
      if i + 1 < |m.tiles| {
        assert line[i] == m.tiles[i] && line[i + 1] == m.tiles[i + 1];
      }
    }
  }

  /** Tiles followed by empty cells keep exactly those tiles. */
  lemma TilesThenZeros(t: seq<int>, n: nat)
    requires AllNonZero(t)
    ensures NonZero(t + Zeros(n)) == t
  {
    NonZeroAppend(t, Zeros(n));
    NonZeroOfZeros(n);
  }

  /** A row of three equal tiles merges its leftmost pair only: 2 2 2 _ becomes
      4 2 _ _ and scores 4. */
  lemma ThreeEqualExample()
    ensures ProcessLine([2, 2, 2, 0]) == LineResult([4, 2, 0, 0], true, 4)
  {
    TilesThenZeros([2, 2, 2], 1);
    assert [2, 2, 2] + Zeros(1) == [2, 2, 2, 0];
    assert MergeTiles([2, 2, 2]) == Merged([4, 2], 4) by {
      assert [2, 2, 2][2..] == [2];
      assert [2][1..] == [];
    }
    assert [4, 2] + Zeros(2) == [4, 2, 0, 0];
  }

  /** Four equal tiles merge as two pairs, each tile once: 2 2 2 2 becomes 4 4 _ _ and
      scores 8. */
  lemma FourEqualExample()
    ensures ProcessLine([2, 2, 2, 2]) == LineResult([4, 4, 0, 0], true, 8)
  {
    assert NonZero([2, 2, 2, 2]) == [2, 2, 2, 2] by {
      assert AllNonZero([2, 2, 2, 2]);
    }
    assert MergeTiles([2, 2, 2, 2]) == Merged([4, 4], 8) by {
      assert [2, 2, 2, 2][2..] == [2, 2];
      assert [2, 2][2..] == [];
    }
    assert [4, 4] + Zeros(2) == [4, 4, 0, 0];
  }

  /** A lone tile already at the front does not move. */
  lemma SettledExample()
    ensures ProcessLine([2, 0, 0, 0]) == LineResult([2, 0, 0, 0], false, 0)
  {
    assert Settled([2, 0, 0, 0]);
  }

  /** Two equal tiles at the front merge into one: 1024 1024 _ _ becomes 2048 _ _ _ and
      scores 2048. */
  lemma PairExample()
    ensures ProcessLine([1024, 1024, 0, 0]) == LineResult([2048, 0, 0, 0], true, 2048)
  {
    TilesThenZeros([1024, 1024], 2);
    assert [1024, 1024] + Zeros(2) == [1024, 1024, 0, 0];
    assert MergeTiles([1024, 1024]) == Merged([2048], 2048) by {
      assert [1024, 1024][2..] == [];
    }
    assert [2048] + Zeros(3) == [2048, 0, 0, 0];
  }
}
