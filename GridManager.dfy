/** The grid container: it spawns Extent(width)*Extent(height) tiles in x-major
    order into a list, and can force every listed tile back to walkable. */
module Grid {
  import opened Tiles

  // ---- Tile names: "Tile_{x}_{y}" with decimal coordinates ----

  predicate IsDigit(c: char)
  {
    '0' <= c <= '9'
  }

  function DigitChar(d: nat): (c: char)
    requires d < 10
    ensures IsDigit(c)
  {
    ('0' as int + d) as char
  }

  /** Decimal rendering of a non-negative integer, as string interpolation prints it. */
  function NatToString(n: nat): (s: string)
    ensures |s| > 0
  {
    if n < 10 then [DigitChar(n)] else NatToString(n / 10) + [DigitChar(n % 10)]
  }

  /** The rendering is canonical: no leading zero unless n is the single digit 0. */
  lemma {:induction false} NatToStringNoLeadingZero(n: nat)
    requires n >= 10
    ensures NatToString(n)[0] != '0'
  {
    if n / 10 >= 10 {
      NatToStringNoLeadingZero(n / 10);
    }
  }

  lemma {:induction false} NatToStringDigits(n: nat)
    ensures forall i :: 0 <= i < |NatToString(n)| ==> IsDigit(NatToString(n)[i])
  {
    if n >= 10 {
      NatToStringDigits(n / 10);
    }
  }

  /** Reads a string of decimal digits back as a number. */
  function ParseNat(s: string): nat
  {
    if |s| == 0 then 0
    else 10 * ParseNat(s[..|s| - 1]) + ((s[|s| - 1] as int - '0' as int) % 10)
  }

  lemma {:induction false} ParseNatToString(n: nat)
    ensures ParseNat(NatToString(n)) == n
  {
    if n >= 10 {
      var s := NatToString(n);
      assert s[..|s| - 1] == NatToString(n / 10);
      ParseNatToString(n / 10);
    }
  }

  /** Index of the first underscore of s (|s| when there is none). */
  function FirstUnderscore(s: string): nat
  {
    if |s| == 0 || s[0] == '_' then 0 else 1 + FirstUnderscore(s[1..])
  }

  lemma {:induction false} FirstUnderscoreAfterDigits(a: string, b: string)
    requires forall i :: 0 <= i < |a| ==> IsDigit(a[i])
    ensures FirstUnderscore(a + "_" + b) == |a|
  {
    if |a| > 0 {
      assert (a + "_" + b)[1..] == a[1..] + "_" + b;
      FirstUnderscoreAfterDigits(a[1..], b);
    }
  }

  /** The name `Tile_{x}_{y}` given to the tile spawned for (x, y). */
  function TileName(x: nat, y: nat): (r: string)
    ensures |r| == 6 + |NatToString(x)| + |NatToString(y)|
    ensures r[..5] == "Tile_"
  {
    "Tile_" + NatToString(x) + "_" + NatToString(y)
  }

  /** After the prefix of a tile name, the first underscore ends the digits of
      x, and both coordinates read back from their places. */
  lemma TileNameParts(x: nat, y: nat)
    ensures |TileName(x, y)| == 6 + |NatToString(x)| + |NatToString(y)|
    ensures TileName(x, y)[..5] == "Tile_"
    ensures FirstUnderscore(TileName(x, y)[5..]) == |NatToString(x)|
    ensures ParseNat(TileName(x, y)[5..5 + |NatToString(x)|]) == x
    ensures ParseNat(TileName(x, y)[6 + |NatToString(x)|..]) == y
  {
    var sx, sy := NatToString(x), NatToString(y);
    var r := TileName(x, y);
    assert r[5..] == sx + "_" + sy;
    assert r[5..5 + |sx|] == sx;
    assert r[6 + |sx|..] == sy;
    NatToStringDigits(x);
    FirstUnderscoreAfterDigits(sx, sy);
    ParseNatToString(x);
    ParseNatToString(y);
  }

  /** Distinct coordinates give distinct tile names. */
  lemma TileNameInjective(x1: nat, y1: nat, x2: nat, y2: nat)
    requires TileName(x1, y1) == TileName(x2, y2)
    ensures x1 == x2 && y1 == y2
  {
    TileNameParts(x1, y1);
    TileNameParts(x2, y2);
    assert |NatToString(x1)| == |NatToString(x2)|;
  }

  // ---- The value-level effect of ResetGrid ----

  /** What ResetGrid does to one tile: walkable, then repainted. */
  function ResetTile(s: TileState): (r: TileState)
    ensures r.walkable && ShowsState(r)
    ensures r.(walkable := s.walkable, renderer := s.renderer) == s
    ensures r.renderer.Sprite? <==> s.renderer.Sprite?
  {
    Repaint(s.(walkable := true))
  }

  lemma ResetTileIdempotent(s: TileState)
    ensures ResetTile(ResetTile(s)) == ResetTile(s)
  {
  }

  /** ResetGrid over a whole list of tile states, one after the other. */
  function ResetAll(ss: seq<TileState>): (r: seq<TileState>)
    ensures |r| == |ss|
  {
    if |ss| == 0 then [] else [ResetTile(ss[0])] + ResetAll(ss[1..])
  }

  lemma {:induction false} ResetAllAt(ss: seq<TileState>, i: nat)
    requires i < |ss|
    ensures |ResetAll(ss)| == |ss|
    ensures ResetAll(ss)[i] == ResetTile(ss[i])
  {
    if i > 0 {
      ResetAllAt(ss[1..], i - 1);
    } else if |ss| > 1 {
      ResetAllAt(ss[1..], 0);
    }
  }

  /** After a reset every tile is walkable and shows it; the list keeps its
      length, and names, colour choices and renderer presence are untouched. */
  lemma {:induction false} ResetAllShape(ss: seq<TileState>)
    ensures |ResetAll(ss)| == |ss|
    ensures forall i :: 0 <= i < |ss| ==>
      && ResetAll(ss)[i].walkable
      && ShowsState(ResetAll(ss)[i])
      && ResetAll(ss)[i].name == ss[i].name
      && ResetAll(ss)[i].walkableColor == ss[i].walkableColor
      && ResetAll(ss)[i].blockedColor == ss[i].blockedColor
      && (ResetAll(ss)[i].renderer.Sprite? <==> ss[i].renderer.Sprite?)
  {
    if |ss| > 0 {
      ResetAllShape(ss[1..]);
      forall i | 1 <= i < |ss| ensures ResetAll(ss)[i] == ResetAll(ss[1..])[i - 1] && ss[1..][i - 1] == ss[i] { }
    }
  }

  /** Resetting twice is the same as resetting once. */
  lemma {:induction false} ResetAllIdempotent(ss: seq<TileState>)
    ensures ResetAll(ResetAll(ss)) == ResetAll(ss)
  {
    if |ss| > 0 {
      ResetAllIdempotent(ss[1..]);
      assert ResetAll(ss)[1..] == ResetAll(ss[1..]);
    }
  }

  /** The states of a list of tiles, position by position. */
  ghost function States(ts: seq<Tile>): (r: seq<TileState>)
    reads ts
    ensures |r| == |ts|
    ensures forall i :: 0 <= i < |ts| ==> r[i] == ts[i].State()
  {
    if |ts| == 0 then [] else [ts[0].State()] + States(ts[1..])
  }

  // ---- x-major layout ----

  /** The state of the tile spawned for column x, row y. */
  function Spawned(x: nat, y: nat, hasRenderer: bool): (r: TileState)
    ensures r.walkable && ShowsState(r)
    ensures r.renderer.Sprite? <==> hasRenderer
  {
    TileState(TileName(x, y), true, WHITE, RED, if hasRenderer then Sprite(WHITE) else NoRenderer)
  }

  /** The columns one after the other, as the x-major loops append them. */
  function Flatten<E>(cols: seq<seq<E>>): seq<E>
  {
    if |cols| == 0 then [] else Flatten(cols[..|cols| - 1]) + cols[|cols| - 1]
  }

  /** Columns of h tiles each flatten to |cols|*h tiles: Extent(width)*Extent(height) in all. */
  lemma {:induction false} FlattenLength<E>(cols: seq<seq<E>>, h: nat)
    requires forall i :: 0 <= i < |cols| ==> |cols[i]| == h
    ensures |Flatten(cols)| == |cols| * h
  {
    if |cols| > 0 {
      var n := |cols|;
      FlattenLength(cols[..n - 1], h);
    }
  }

  /** x-major layout: row y of column x sits at offset x*h + y. */
  lemma {:induction false} FlattenAt<E>(cols: seq<seq<E>>, h: nat, x: nat, y: nat)
    requires forall i :: 0 <= i < |cols| ==> |cols[i]| == h
    requires x < |cols| && y < h
    ensures x * h + y < |Flatten(cols)|
    ensures Flatten(cols)[x * h + y] == cols[x][y]
  {
    var n := |cols|;
    var prefix := cols[..n - 1];
    FlattenLength(prefix, h);
    FlattenLength(cols, h);
    if x < n - 1 {
      FlattenAt(prefix, h, x, y);
    } else {
      assert x * h + y == |Flatten(prefix)| + y;
    }
  }

  /** Every tile of the flattened list comes from one of the columns. */
  lemma {:induction false} FlattenMember<E>(cols: seq<seq<E>>, i: nat)
    requires i < |Flatten(cols)|
    ensures exists x :: 0 <= x < |cols| && Flatten(cols)[i] in cols[x]
  {
    var n := |cols|;
    var prefix := cols[..n - 1];
    if i < |Flatten(prefix)| {
      FlattenMember(prefix, i);
      var x :| 0 <= x < |prefix| && Flatten(prefix)[i] in prefix[x];
      assert cols[x] == prefix[x];
    } else {
      assert Flatten(cols)[i] == cols[n - 1][i - |Flatten(prefix)|];
    }
  }

  function Extent(n: int): nat
  {
    if n > 0 then n else 0
  }

  class GridManager {
    const width: int
    const height: int
    /** Whether the tile prefab carries a sprite renderer. */
    const prefabHasRenderer: bool
    var allTiles: seq<Tile>

    constructor (width: int, height: int, prefabHasRenderer: bool)
      ensures this.width == width && this.height == height
      ensures this.prefabHasRenderer == prefabHasRenderer
      ensures allTiles == []
    {
      this.width := width;
      this.height := height;
      this.prefabHasRenderer := prefabHasRenderer;
      allTiles := [];
    }

    /** Spawns one fresh tile per (x, y), x outer and y inner, and appends
        them to allTiles after whatever it already held; `cols[x][y]` is the
        tile spawned for (x, y). */
    method GenerateGrid() returns (ghost cols: seq<seq<Tile>>)
      modifies this
      ensures allTiles == old(allTiles) + Flatten(cols)
      ensures |cols| == Extent(width)
      ensures forall x :: 0 <= x < |cols| ==> |cols[x]| == Extent(height)
      ensures forall x :: 0 <= x < |cols| ==> fresh(cols[x])
      ensures forall x :: 0 <= x < |cols| ==>
        forall y :: 0 <= y < |cols[x]| ==> cols[x][y].State() == Spawned(x, y, prefabHasRenderer)
    {
      cols := [];
      var x := 0;
      while x < width
        invariant 0 <= x <= Extent(width)
        invariant |cols| == x
        invariant allTiles == old(allTiles) + Flatten(cols)
        invariant forall x :: 0 <= x < |cols| ==> |cols[x]| == Extent(height)
        invariant forall x :: 0 <= x < |cols| ==> fresh(cols[x])
        invariant forall x :: 0 <= x < |cols| ==>
          forall y :: 0 <= y < |cols[x]| ==> cols[x][y].State() == Spawned(x, y, prefabHasRenderer)
      {
        ghost var column := SpawnColumnTiles(x);
        ghost var prev := cols;
        cols := cols + [column];
        assert cols[..x] == prev;
        x := x + 1;
      }
    }

    /** The inner loop of GenerateGrid: spawns the tiles (x, 0) .. (x, height - 1)
        and appends them, in that order; `column` is what it appended. */
    method SpawnColumnTiles(x: nat) returns (ghost column: seq<Tile>)
      modifies this
      ensures allTiles == old(allTiles) + column
      ensures |column| == Extent(height)
      ensures fresh(column)
      ensures forall y :: 0 <= y < |column| ==> column[y].State() == Spawned(x, y, prefabHasRenderer)
    {
      column := [];
      var y := 0;
      while y < height
        invariant 0 <= y <= Extent(height)
        invariant allTiles == old(allTiles) + column
        invariant |column| == y
        invariant fresh(column)
        invariant forall k :: 0 <= k < y ==> column[k].State() == Spawned(x, k, prefabHasRenderer)
      {
        var tile := new Tile(TileName(x, y), prefabHasRenderer);
        allTiles := allTiles + [tile];
        column := column + [tile];
        y := y + 1;
      }
    }

    /** Forces every listed tile walkable and repaints it; the list itself
        is not changed. */
    method ResetGrid()
      modifies allTiles
      ensures States(allTiles) == ResetAll(old(States(allTiles)))
    {
      for i := 0 to |allTiles|
        invariant forall j :: 0 <= j < i ==> allTiles[j].State() == ResetTile(old(allTiles[j].State()))
        invariant forall j :: i <= j < |allTiles| ==>
          allTiles[j].State() == old(allTiles[j].State()) ||
          allTiles[j].State() == ResetTile(old(allTiles[j].State()))
      {
        var tile := allTiles[i];
        ResetTileIdempotent(old(tile.State()));
        tile.isWalkable := true;
        tile.UpdateColor();
      }
      ghost var before := old(States(allTiles));
      forall j | 0 <= j < |allTiles|
        ensures States(allTiles)[j] == ResetAll(before)[j]
      {
        ResetAllAt(before, j);
      }
    }

    /** The search itself is not implemented here; it only logs. */
    method RunPathfinding()
      ensures allTiles == old(allTiles)
      ensures States(allTiles) == old(States(allTiles))
    {
    }
  }
}
