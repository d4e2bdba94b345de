/**
 The active regions: a reference count per grid cell of the players whose 3x3 block contains it.
 */
module Regions {
  import opened Events
  import opened Geometry
  import opened Wrappers

  const DEACTIVATE_TIMEOUT: Time := 30 * SECOND

  datatype Cell = Cell(x: int, y: int)

  datatype Region = Region(playerCount: int, lastPlayerTime: Time, active: bool)

  /** Cells of 1000 by 1000; those along the axes reach to both sides, since Go's division truncates. */
  function CellOf(x: int, y: int): (c: Cell)
    ensures OnSide(x, c.x) && OnSide(y, c.y)
  {
    Cell(TruncDiv(x, REGION_SIZE), TruncDiv(y, REGION_SIZE))
  }

  ghost predicate OnSide(x: int, cell: int) {
    if x >= 0 then cell * 1000 <= x < (cell + 1) * 1000 else (cell - 1) * 1000 < x <= cell * 1000
  }

  // ---------- Keys ----------

  function Digits(n: nat): (s: string)
    ensures s != [] && forall c :: c in s ==> '0' <= c <= '9'
  {
    (if n < 10 then [] else Digits(n / 10)) + [('0' as int + n % 10) as char]
  }

  function Decimal(i: int): (s: string)
    ensures s != [] && ',' !in s && (s[0] == '-' <==> i < 0)
  {
    if i < 0 then "-" + Digits(-i) else
    assert Digits(i)[0] in Digits(i);
    Digits(i)
  }

  /** The map key of a cell, "x,y" in decimal. */
  function CellKey(c: Cell): string {
    Decimal(c.x) + "," + Decimal(c.y)
  }

  lemma {:induction false} DigitsInjective(m: nat, n: nat)
    ensures Digits(m) == Digits(n) ==> m == n
  {
    if Digits(m) == Digits(n) {
      assert Digits(m)[|Digits(m)| - 1] == Digits(n)[|Digits(n)| - 1];
      if m >= 10 && n >= 10 {
        assert Digits(m / 10) == Digits(m)[..|Digits(m)| - 1];
        assert Digits(n / 10) == Digits(n)[..|Digits(n)| - 1];
        DigitsInjective(m / 10, n / 10);
      }
    }
  }

  lemma DecimalInjective(i: int, j: int)
    ensures Decimal(i) == Decimal(j) ==> i == j
  {
    assert Decimal(i)[0] in Decimal(i) && Decimal(j)[0] in Decimal(j);
    if i < 0 { assert Decimal(i)[1..] == Digits(-i) && Decimal(i)[0] == '-'; }
    if j < 0 { assert Decimal(j)[1..] == Digits(-j) && Decimal(j)[0] == '-'; }
    DigitsInjective(if i < 0 then -i else i, if j < 0 then -j else j);
  }

  /** Distinct cells never share a key: the comma separates the coordinates. */
  lemma CellKeyInjective(c: Cell, d: Cell)
    ensures CellKey(c) == CellKey(d) ==> c == d
  {
    hide Decimal;
    var k, l, m, n := CellKey(c), CellKey(d), |Decimal(c.x)|, |Decimal(d.x)|;
    if k == l {
      assert k[m] == ',' && l[n] == ',';
      assert forall i :: 0 <= i < m ==> k[i] == Decimal(c.x)[i];
      assert forall i :: 0 <= i < n ==> l[i] == Decimal(d.x)[i];
      assert m == n;
      assert Decimal(c.x) == k[..m] && Decimal(c.y) == k[m + 1..];
      assert Decimal(d.x) == l[..n] && Decimal(d.y) == l[n + 1..];
      DecimalInjective(c.x, d.x);
      DecimalInjective(c.y, d.y);
    }
  }

  ghost predicate KeysOf(keys: seq<string>, cells: seq<Cell>) {
    |keys| == |cells| && forall i :: 0 <= i < |keys| ==> keys[i] == CellKey(cells[i])
  }

  /** A list of distinct cells and the list of their keys say the same. */
  lemma KeysOfCells(keys: seq<string>, cells: seq<Cell>)
    requires KeysOf(keys, cells)
    requires forall i, j :: 0 <= i < j < |cells| ==> cells[i] != cells[j]
    ensures forall i, j :: 0 <= i < j < |keys| ==> keys[i] != keys[j]
    ensures forall k :: k in keys ==> exists cell :: cell in cells && k == CellKey(cell)
    ensures forall cell :: CellKey(cell) in keys <==> cell in cells
  {
    forall i, j | 0 <= i < j < |keys| ensures keys[i] != keys[j] { CellKeyInjective(cells[i], cells[j]); }
    forall cell ensures CellKey(cell) in keys <==> cell in cells {
      if cell in cells {
        var i :| 0 <= i < |cells| && cells[i] == cell;
        assert keys[i] == CellKey(cell);
      }
      if CellKey(cell) in keys {
        var i :| 0 <= i < |keys| && keys[i] == CellKey(cell);
        CellKeyInjective(cells[i], cell);
      }
    }
    forall k | k in keys ensures exists cell :: cell in cells && k == CellKey(cell) {
      var i :| 0 <= i < |keys| && keys[i] == k;
      assert cells[i] in cells;
    }
  }

  // ---------- Blocks and their holders ----------

  predicate InBlock(cell: Cell, center: Cell) {
    -1 <= cell.x - center.x <= 1 && -1 <= cell.y - center.y <= 1
  }

  ghost predicate OfBlock(key: string, center: Cell) {
    exists cell :: InBlock(cell, center) && key == CellKey(cell)
  }

  /** The cells of one row of a block, and of the rows above row dx. */
  function Row(center: Cell, dx: int): seq<Cell> {
    [Cell(center.x + dx, center.y - 1), Cell(center.x + dx, center.y), Cell(center.x + dx, center.y + 1)]
  }

  ghost function Rows(center: Cell, dx: int): seq<Cell>
    decreases dx + 1
  {
    if dx <= -1 then [] else Rows(center, dx - 1) + Row(center, dx - 1)
  }

  lemma RowsCoverBlock(center: Cell)
    ensures var cells := Rows(center, 2);
      && (forall i, j :: 0 <= i < j < |cells| ==> cells[i] != cells[j])
      && (forall cell :: cell in cells <==> InBlock(cell, center))
  {
    var cells := Rows(center, 2);
    assert Rows(center, 0) == Rows(center, -1) + Row(center, -1) == Row(center, -1);
    assert cells == Row(center, -1) + Row(center, 0) + Row(center, 1);
    forall cell | InBlock(cell, center) ensures cell in cells {
      assert cell == Row(center, cell.x - center.x)[cell.y - center.y + 1];
    }
  }

  /** The tracked players whose 3x3 block contains the cell. */
  ghost function Holders(centers: map<int, Cell>, cell: Cell): set<int> {
    set p | p in centers && InBlock(cell, centers[p])
  }

  /** Nothing has changed about a cell. */
  ghost predicate Untouched(was: map<string, Region>, regions: map<string, Region>, key: string) {
    (key in regions <==> key in was) && (key in regions ==> regions[key] == was[key])
  }

  /** One player less holds the cell, which was held until now. */
  ghost predicate Dropped(was: map<string, Region>, regions: map<string, Region>, key: string, now: Time) {
    && key in was && key in regions
    && regions[key] == Region(was[key].playerCount - 1, now, was[key].active)
  }

  ghost predicate DroppedAll(was: map<string, Region>, regions: map<string, Region>, keys: seq<string>, now: Time) {
    forall k :: if k in keys then Dropped(was, regions, k, now) else Untouched(was, regions, k)
  }

  lemma OneMoreDropped(was: map<string, Region>, mid: map<string, Region>, regions: map<string, Region>,
                       keys: seq<string>, i: nat, now: Time)
    requires i < |keys| && keys[i] !in keys[..i] && DroppedAll(was, mid, keys[..i], now)
    requires Dropped(mid, regions, keys[i], now) && forall k :: k != keys[i] ==> Untouched(mid, regions, k)
    ensures DroppedAll(was, regions, keys[..i + 1], now)
  {
    assert keys[..i + 1] == keys[..i] + [keys[i]];
    forall k ensures if k in keys[..i + 1] then Dropped(was, regions, k, now) else Untouched(was, regions, k) {
      assert if k in keys[..i] then Dropped(was, mid, k, now) else Untouched(was, mid, k);
      assert k != keys[i] ==> Untouched(mid, regions, k);
    }
  }

  class ActiveRegions {
    var regions: map<string, Region>
    var centers: map<int, Cell>

    ghost function PlayerCount(key: string): int reads `regions {
      if key in regions then regions[key].playerCount else 0
    }

    /** The counts are exact: each cell counts the players whose block contains it. */
    ghost predicate Exact() reads this {
      forall cell :: PlayerCount(CellKey(cell)) == |Holders(centers, cell)|
    }

    constructor ()
      ensures Exact() && centers == map[] && regions == map[]
    {
      regions, centers := map[], map[];
    }

    method SurroundingKeys(center: Cell) returns (keys: seq<string>)
      ensures forall i, j :: 0 <= i < j < |keys| ==> keys[i] != keys[j]
      ensures forall k :: k in keys <==> OfBlock(k, center)
      ensures forall cell :: CellKey(cell) in keys <==> InBlock(cell, center)
    {
      hide CellKey, InBlock, Row;
      keys := [];
      ghost var cells: seq<Cell> := [];
      for dx := -1 to 2
        invariant cells == Rows(center, dx) && KeysOf(keys, cells)
      {
        var row := RowKeys(center, dx);
        keys := keys + row;
        cells := cells + Row(center, dx);
      }
      RowsCoverBlock(center);
      KeysOfCells(keys, cells);
    }

    method RowKeys(center: Cell, dx: int) returns (keys: seq<string>)
      ensures KeysOf(keys, Row(center, dx))
    {
      hide CellKey;
      keys := [];
      for dy := -1 to 2
        invariant |keys| == dy + 1
        invariant forall i :: 0 <= i < |keys| ==> keys[i] == CellKey(Cell(center.x + dx, center.y - 1 + i))
      {
        keys := keys + [CellKey(Cell(center.x + dx, center.y + dy))];
      }
      var row := Row(center, dx);
      assert forall i :: 0 <= i < 3 ==> row[i] == Cell(center.x + dx, center.y - 1 + i);
    }

    /** One player more holds each cell of the block; the cell is active, and held as of now. */
    method ActivateBlock(center: Cell, now: Time)
      modifies `regions
      ensures forall cell :: PlayerCount(CellKey(cell)) == old(PlayerCount(CellKey(cell))) + if InBlock(cell, center)
        then 1 else 0
      ensures forall k :: if OfBlock(k, center)
        then k in regions && regions[k] == Region(old(PlayerCount(k)) + 1, now, true)
        else Untouched(old(regions), regions, k)
    {
      hide OfBlock, CellKey;
      var keys := SurroundingKeys(center);
      for i := 0 to |keys|
        invariant forall k :: if k in keys[..i]
          then k in regions && regions[k] == Region(old(PlayerCount(k)) + 1, now, true)
          else Untouched(old(regions), regions, k)
      {
        var r := if keys[i] in regions then regions[keys[i]] else Region(0, 0, false);
        regions := regions[keys[i] := Region(r.playerCount + 1, now, true)];
      }
      assert keys[..|keys|] == keys;
    }

    /** Every cell of a held block is counted, so the clamp at zero never acts. */
    method DeactivateBlock(center: Cell, now: Time)
      requires forall cell :: InBlock(cell, center) ==> PlayerCount(CellKey(cell)) > 0
      modifies `regions
      ensures forall cell :: PlayerCount(CellKey(cell)) == old(PlayerCount(CellKey(cell))) - if InBlock(cell, center)
        then 1 else 0
      ensures forall k :: if OfBlock(k, center) then Dropped(old(regions), regions, k, now)
        else Untouched(old(regions), regions, k)
    {
      var keys := SurroundingKeys(center);
      assert forall k :: k in keys ==> PlayerCount(k) > 0;
      for i := 0 to |keys|
        invariant DroppedAll(old(regions), regions, keys[..i], now)
      {
        assert keys[i] in keys && keys[i] !in keys[..i];
        ghost var was := regions;
        DropHolder(keys[i], now);
        OneMoreDropped(old(regions), was, regions, keys, i, now);
      }
      assert keys[..|keys|] == keys;
    }

    method DropHolder(key: string, now: Time)
      requires PlayerCount(key) > 0
      modifies `regions
      ensures Dropped(old(regions), regions, key, now) && forall k :: k != key ==> Untouched(old(regions), regions, k)
    {
      if key in regions {
        var r := regions[key];
        var count := if r.playerCount - 1 < 0 then 0 else r.playerCount - 1;
        regions := regions[key := r.(playerCount := count, lastPlayerTime := now)];
      }
    }

    /** Entry and movement: the block follows the player when it crosses a cell boundary. */
    method UpdatePlayerRegions(id: int, x: int, y: int, now: Time)
      requires Exact()
      modifies this
      ensures Exact() && centers == old(centers)[id := CellOf(x, y)]
      ensures id in old(centers) && old(centers)[id] == CellOf(x, y) ==> regions == old(regions)
      ensures !(id in old(centers) && old(centers)[id] == CellOf(x, y)) ==> forall k ::
        if OfBlock(k, CellOf(x, y)) then k in regions && regions[k] == Region(PlayerCount(k), now, true)
        else if id in old(centers) && OfBlock(k, old(centers)[id]) then Dropped(old(regions), regions, k, now)
        else Untouched(old(regions), regions, k)
    {
      hide OfBlock, CellKey, InBlock;
      var newCenter := CellOf(x, y);
      if id in centers && centers[id] == newCenter { return; }
      if id in centers { Release(id, now); }
      HoldersAdded(centers, id, newCenter);
      centers := centers[id := newCenter];
      ActivateBlock(newCenter, now);
    }

    method LeavePlayerRegions(id: int, now: Time)
      requires Exact()
      modifies this
      ensures Exact() && centers == old(centers) - {id}
      ensures forall k :: if id in old(centers) && OfBlock(k, old(centers)[id])
        then Dropped(old(regions), regions, k, now) else Untouched(old(regions), regions, k)
    {
      if id in centers { Release(id, now); }
    }

    /** Gives up the player's block and stops tracking the player. */
    method Release(id: int, now: Time)
      requires Exact() && id in centers
      modifies this
      ensures Exact() && centers == old(centers) - {id}
      ensures forall k :: if OfBlock(k, old(centers)[id]) then Dropped(old(regions), regions, k, now)
        else Untouched(old(regions), regions, k)
    {
      hide OfBlock;
      HoldersRemoved(centers, id);
      DeactivateBlock(centers[id], now);
      centers := centers - {id};
    }

    /** Drops exactly the cells nobody has held for more than 30 s; no count changes. */
    method DeactivateStaleRegions(now: Time)
      requires Exact()
      modifies `regions
      ensures Exact()
      ensures regions == map k | k in old(regions) && !(old(regions)[k].playerCount <= 0
        && now - old(regions)[k].lastPlayerTime > 30_000_000_000) :: old(regions)[k]
      ensures forall cell :: CellKey(cell) in old(regions) && CellKey(cell) !in regions ==> Holders(centers, cell) == {}
    {
      var todo := regions.Keys;
      while todo != {}
        invariant todo <= regions.Keys <= old(regions).Keys
        invariant forall k :: k in regions ==> regions[k] == old(regions)[k]
        invariant forall k :: k in old(regions) ==> (k in regions <==> k in todo || !Stale(old(regions)[k], now))
        decreases todo
      {
        ghost var next := Pick(todo);
        var k :| k in todo;
        todo := todo - {k};
        if Stale(regions[k], now) { regions := regions - {k}; }
      }
      forall cell ensures PlayerCount(CellKey(cell)) == |Holders(centers, cell)| {
        assert old(PlayerCount(CellKey(cell))) == |Holders(centers, cell)|;
      }
    }
  }

  predicate Stale(r: Region, now: Time) {
    r.playerCount <= 0 && now - r.lastPlayerTime > DEACTIVATE_TIMEOUT
  }

  lemma HoldersAdded(centers: map<int, Cell>, id: int, center: Cell)
    requires id !in centers
    ensures forall cell ::
      |Holders(centers[id := center], cell)| == |Holders(centers, cell)| + if InBlock(cell, center) then 1 else 0
  {
    forall cell ensures |Holders(centers[id := center], cell)| == |Holders(centers, cell)| + if InBlock(cell, center)
      then 1 else 0 {
      var a, b := Holders(centers, cell), Holders(centers[id := center], cell);
      assert b == if InBlock(cell, center) then a + {id} else a;
    }
  }

  lemma HoldersRemoved(centers: map<int, Cell>, id: int)
    requires id in centers
    ensures forall cell :: |Holders(centers - {id}, cell)| == |Holders(centers, cell)| - if InBlock(cell, centers[id])
      then 1 else 0
    ensures forall cell :: InBlock(cell, centers[id]) ==> |Holders(centers, cell)| > 0
  {
    HoldersAdded(centers - {id}, id, centers[id]);
    assert (centers - {id})[id := centers[id]] == centers;
  }
}
