/**
 The world registry: players and NPCs by id, a spatial grid of cells that lists who stands where,
 and the reverse target index.

 Ids are not assumed to be distinct between players and NPCs, nor cells to have distinct keys: the
 grid lists each id at least as often as it stands in a cell, which is all a range query needs.
 */
module WorldRegistry {
  import opened Geometry
  import opened TargetIndex
  import opened Wrappers

  const TWO_32 := 0x1_0000_0000

  // ---------- Cell keys ----------

  /** The low 32 bits of an integer in two's complement, as a number. */
  function Low32(i: int): (r: int)
    ensures 0 <= r < TWO_32
  {
    i % TWO_32
  }

  /** int64(rx)<<32 | int64(int32(ry))&0xffffffff: both halves occupy different bits, so `|` adds. */
  function PackRegion(rx: int, ry: int): int {
    var u := Low32(rx) * TWO_32 + Low32(ry);
    if u >= TWO_32 * TWO_32 / 2 then u - TWO_32 * TWO_32 else u
  }

  /** The key is a 64-bit integer: the row above, the low 32 bits of the column below. */
  lemma PackRegionValue(rx: int, ry: int)
    ensures -0x8000_0000_0000_0000 <= PackRegion(rx, ry) < 0x8000_0000_0000_0000
    ensures PackRegion(rx, ry) % 0x1_0000_0000 == ry % 0x1_0000_0000
    ensures IsInt32(rx) ==> rx * 0x1_0000_0000 <= PackRegion(rx, ry) < (rx + 1) * 0x1_0000_0000
  {}

  predicate IsInt32(i: int) { -TWO_32 / 2 <= i < TWO_32 / 2 }

  /** Two cells share a key exactly when both coordinates agree modulo 2^32. */
  lemma PackRegionCollides(x: int, y: int, u: int, v: int)
    ensures PackRegion(x, y) == PackRegion(u, v) <==> Low32(x) == Low32(u) && Low32(y) == Low32(v)
  {
    var p, q, r, s := Low32(x), Low32(u), Low32(y), Low32(v);
    assert p > q ==> p * TWO_32 >= (q + 1) * TWO_32;
    assert q > p ==> q * TWO_32 >= (p + 1) * TWO_32;
  }

  lemma SameLow32(a: int, b: int)
    requires IsInt32(a) && IsInt32(b)
    ensures Low32(a) == Low32(b) <==> a == b
  {}

  /** On 32-bit cells the key is collision-free. */
  lemma PackRegionInjective(x: int, y: int, u: int, v: int)
    requires IsInt32(x) && IsInt32(y) && IsInt32(u) && IsInt32(v)
    ensures PackRegion(x, y) == PackRegion(u, v) <==> x == u && y == v
  {
    PackRegionCollides(x, y, u, v);
    SameLow32(x, u);
    SameLow32(y, v);
  }

  function RegionKey(p: Position): int {
    PackRegion(TruncDiv(p.x, REGION_SIZE), TruncDiv(p.y, REGION_SIZE))
  }

  /** Whether a query around (x, y) visits a key: it visits every cell the box of the radius overlaps. */
  ghost predicate Visited(key: int, x: int, y: int, radius: int) {
    exists rx, ry :: key == PackRegion(rx, ry)
      && TruncDiv(x - radius, 1000) <= rx <= TruncDiv(x + radius, 1000)
      && TruncDiv(y - radius, 1000) <= ry <= TruncDiv(y + radius, 1000)
  }

  /** Anyone within the radius stands in a visited cell, on either side of the zero axes. */
  lemma InRangeIsVisited(pos: Position, p: Position, radius: nat)
    requires Distance(pos, p) <= radius
    ensures Visited(RegionKey(p), pos.x, pos.y, radius)
  {
    WithinBox(pos, p, radius);
    TruncDivMonotone(pos.x - radius, p.x, REGION_SIZE);
    TruncDivMonotone(p.x, pos.x + radius, REGION_SIZE);
    TruncDivMonotone(pos.y - radius, p.y, REGION_SIZE);
    TruncDivMonotone(p.y, pos.y + radius, REGION_SIZE);
  }

  // ---------- The registry ----------

  datatype Player = Player(position: Position, targetId: int)

  ghost predicate Distinct(s: seq<int>) {
    forall i, j :: 0 <= i < j < |s| ==> s[i] != s[j]
  }

  lemma TakenOut(s: seq<int>, i: nat)
    requires i < |s|
    ensures multiset(s[..i] + s[i + 1..]) == multiset(s) - multiset{s[i]}
  {
    assert s == s[..i] + [s[i]] + s[i + 1..];
  }

  datatype Step =
    | Enter(id: int, position: Position)
    | Move(id: int, position: Position)
    | Exit(id: int)
    | Target(id: int, targetId: int)
    | Spawn(id: int, position: Position)
    | Despawn(id: int)

  /** Who is in the world where, and the index of targets. */
  datatype Snapshot = Snapshot(players: map<int, Player>, npcs: map<int, Position>, aims: map<int, int>)

  /** Nobody aims at the object any more. */
  ghost function Unaimed(aims: map<int, int>, objectId: int): map<int, int> {
    map c | c in aims && aims[c] != objectId :: aims[c]
  }

  /** What a step does; an unknown id is passed over, but for the index, which takes the target of any id. */
  ghost function Stepped(w: Snapshot, step: Step): Snapshot {
    match step
    case Enter(id, position) => w.(players := w.players[id := Player(position, 0)])
    case Move(id, position) =>
      if id in w.players then w.(players := w.players[id := Player(position, w.players[id].targetId)]) else w
    case Exit(id) =>
      if id in w.players then w.(players := w.players - {id}, aims := Unaimed(w.aims - {id}, id)) else w
    case Target(id, targetId) =>
      w.(players := if id in w.players then w.players[id := Player(w.players[id].position, targetId)] else w.players,
         aims := if targetId == 0 then w.aims - {id} else w.aims[id := targetId])
    case Spawn(id, position) => w.(npcs := w.npcs[id := position])
    case Despawn(id) => if id in w.npcs then w.(npcs := w.npcs - {id}, aims := Unaimed(w.aims, id)) else w
  }

  ghost function AllStepped(w: Snapshot, steps: seq<Step>): Snapshot {
    if steps == [] then w else Stepped(AllStepped(w, steps[..|steps| - 1]), steps[|steps| - 1])
  }

  class Registry {
    const targets: Index
    var players: map<int, Player>
    var npcs: map<int, Position>
    var regions: map<int, seq<int>>

    /** How often a cell lists an id. */
    ghost function Listed(key: int, id: int): nat reads `regions {
      if key in regions then multiset(regions[key])[id] else 0
    }

    ghost predicate NoEmptyCell() reads `regions {
      forall key :: key in regions ==> regions[key] != []
    }

    /** How often an id stands in a cell: as a player, as an NPC, or as both. */
    ghost function Standing(key: int, id: int): nat reads `players, `npcs {
      (if id in players && RegionKey(players[id].position) == key then 1 else 0)
      + (if id in npcs && RegionKey(npcs[id]) == key then 1 else 0)
    }

    ghost predicate Valid() reads this, targets {
      && targets.Valid()
      && forall key, id {:trigger Listed(key, id)} :: Listed(key, id) >= Standing(key, id)
    }

    /** The grid lists nobody twice, nobody who is gone, and keeps no empty cell. */
    ghost predicate Tight() reads this {
      && NoEmptyCell()
      && forall key, id {:trigger Listed(key, id)} :: Listed(key, id) == Standing(key, id)
    }

    ghost function IndexedTarget(c: int): int reads targets {
      if c in targets.current then targets.current[c] else 0
    }

    ghost function Snap(): Snapshot reads this, targets { Snapshot(players, npcs, targets.current) }

    /** A live player's indexed target is its own target, or none. */
    ghost predicate TargetsCoherent() reads this, targets {
      forall c :: c in players ==> IndexedTarget(c) == players[c].targetId || IndexedTarget(c) == 0
    }

    /** Only players in the world have an indexed target. */
    ghost predicate OnlyLiveIndexed() reads `players, targets {
      forall c :: IndexedTarget(c) != 0 ==> c in players
    }

    /** What holds over every run of additions under fresh ids and retargets of live players. */
    ghost predicate InOrder() reads this, targets { Valid() && Tight() && TargetsCoherent() && OnlyLiveIndexed() }

    constructor ()
      ensures InOrder()
      ensures players == map[] && npcs == map[] && targets.current == map[]
      ensures fresh(targets)
    {
      targets := new Index();
      players, npcs, regions := map[], map[], map[];
    }

    // ---------- The grid ----------

    method AddToRegion(key: int, id: int)
      modifies `regions
      ensures old(NoEmptyCell()) ==> NoEmptyCell()
      ensures forall k, i :: Listed(k, i) == old(Listed(k, i)) + if k == key && i == id then 1 else 0
    {
      var ids := if key in regions then regions[key] else [];
      regions := regions[key := ids + [id]];
    }

    /** Drops one listing, and the cell with its last listing. */
    method RemoveListing(key: int, i: nat)
      requires key in regions && i < |regions[key]|
      modifies `regions
      ensures old(NoEmptyCell()) ==> NoEmptyCell()
      ensures forall k, j :: Listed(k, j) == old(Listed(k, j)) - if k == key && j == old(regions)[key][i] then 1 else 0
    {
      var ids := regions[key];
      TakenOut(ids, i);
      var rest := ids[..i] + ids[i + 1..];
      regions := if rest == [] then regions - {key} else regions[key := rest];
      assert rest == [] ==> multiset(ids) == multiset{ids[i]};
    }

    /** Drops the first listing of the id in the cell. */
    method RemoveFromRegion(key: int, id: int)
      modifies `regions
      requires Listed(key, id) > 0
      ensures old(NoEmptyCell()) ==> NoEmptyCell()
      ensures forall k, i :: Listed(k, i) == old(Listed(k, i)) - if k == key && i == id then 1 else 0
    {
      var ids := regions[key];
      var i := 0;
      while i < |ids| && ids[i] != id
        invariant 0 <= i <= |ids| && id !in ids[..i]
      {
        i := i + 1;
      }
      RemoveListing(key, i);
    }

    /** Moves one listing of the id from cell to cell. */
    method Relist(from: int, to: int, id: int)
      requires Listed(from, id) > 0
      modifies `regions
      ensures old(NoEmptyCell()) ==> NoEmptyCell()
      ensures forall k, i :: i != id ==> Listed(k, i) == old(Listed(k, i))
      ensures forall k ::
        Listed(k, id) == old(Listed(k, id)) + (if k == to then 1 else 0) - if k == from then 1 else 0
    {
      if from != to {
        RemoveFromRegion(from, id);
        AddToRegion(to, id);
      }
    }

    // ---------- Players ----------

    /** A player enters with no target. Entering again under a live id leaves a stale listing, no more. */
    method AddPlayer(id: int, position: Position)
      requires Valid()
      modifies `players, `regions
      ensures Valid() && players == old(players)[id := Player(position, 0)]
      ensures old(Tight()) ==> (Tight() <==> id !in old(players))
      ensures old(TargetsCoherent()) ==> (TargetsCoherent() <==> IndexedTarget(id) == 0)
    {
      players := players[id := Player(position, 0)];
      AddToRegion(RegionKey(position), id);
      assert forall k, i {:trigger Standing(k, i)} :: i != id ==> Standing(k, i) == old(Standing(k, i));
      assert forall k {:trigger Standing(k, id)} ::
        Standing(k, id) <= old(Standing(k, id)) + if k == RegionKey(position) then 1 else 0;
      if id in old(players) {
        var was := RegionKey(old(players)[id].position);
        assert old(Tight()) ==> Listed(was, id) > Standing(was, id);
      }
    }

    method UpdatePlayerPosition(id: int, position: Position)
      requires Valid()
      modifies `players, `regions
      ensures Valid() && (old(Tight()) ==> Tight()) && (old(TargetsCoherent()) ==> TargetsCoherent())
      ensures players == if id in old(players)
        then old(players)[id := old(players)[id].(position := position)] else old(players)
    {
      if id !in players { return; }
      var oldKey, newKey := RegionKey(players[id].position), RegionKey(position);
      assert Standing(oldKey, id) >= 1;
      players := players[id := players[id].(position := position)];
      Relist(oldKey, newKey, id);
      assert forall k, i {:trigger Standing(k, i)} :: i != id ==> Standing(k, i) == old(Standing(k, i));
      assert forall k {:trigger Standing(k, id)} :: k != oldKey && k != newKey ==>
        Standing(k, id) == old(Standing(k, id));
    }

    method TakeOffGrid(id: int)
      requires Valid() && id in players
      modifies `players, `regions
      ensures Valid() && (old(Tight()) ==> Tight()) && players == old(players) - {id}
    {
      var key := RegionKey(players[id].position);
      assert Standing(key, id) >= 1;
      RemoveFromRegion(key, id);
      players := players - {id};
      assert forall k, i {:trigger Standing(k, i)} :: i != id || k != key ==> Standing(k, i) == old(Standing(k, i));
      assert Standing(key, id) == old(Standing(key, id)) - 1;
    }

    /** The player leaves: the grid, the map and both sides of the target index forget it. */
    method RemovePlayer(id: int)
      requires Valid()
      modifies `players, `regions, targets
      ensures Valid() && (old(Tight()) ==> Tight()) && (old(TargetsCoherent()) ==> TargetsCoherent())
      ensures players == old(players) - {id}
      ensures id in old(players) ==> IndexedTarget(id) == 0 && forall c :: IndexedTarget(c) != id || id == 0
      ensures forall c :: IndexedTarget(c) == old(IndexedTarget(c)) || IndexedTarget(c) == 0
      ensures Snap() == Stepped(old(Snap()), Exit(id))
    {
      if id !in players { return; }
      TakeOffGrid(id);
      targets.Set(id, 0);
      targets.DropTarget(id);
    }

    /** Points the player at a target; the index keeps the entry even if the player is not in the world. */
    method SetPlayerTarget(id: int, targetId: int)
      requires Valid()
      modifies `players, targets
      ensures Valid() && (old(Tight()) ==> Tight()) && (old(TargetsCoherent()) ==> TargetsCoherent())
      ensures players == if id in old(players)
        then old(players)[id := old(players)[id].(targetId := targetId)] else old(players)
      ensures IndexedTarget(id) == targetId
      ensures forall c :: c != id ==> IndexedTarget(c) == old(IndexedTarget(c))
      ensures Snap() == Stepped(old(Snap()), Target(id, targetId))
    {
      if id in players { players := players[id := players[id].(targetId := targetId)]; }
      assert forall k, i {:trigger Standing(k, i)} :: Standing(k, i) == old(Standing(k, i));
      targets.Set(id, targetId);
    }

    // ---------- NPCs ----------

    method AddNpc(id: int, position: Position)
      requires Valid()
      modifies `npcs, `regions
      ensures Valid() && npcs == old(npcs)[id := position]
      ensures old(Tight()) ==> (Tight() <==> id !in old(npcs))
    {
      npcs := npcs[id := position];
      AddToRegion(RegionKey(position), id);
      assert forall k, i {:trigger Standing(k, i)} :: i != id ==> Standing(k, i) == old(Standing(k, i));
      assert forall k {:trigger Standing(k, id)} ::
        Standing(k, id) <= old(Standing(k, id)) + if k == RegionKey(position) then 1 else 0;
      if id in old(npcs) {
        var was := RegionKey(old(npcs)[id]);
        assert old(Tight()) ==> Listed(was, id) > Standing(was, id);
      }
    }

    method RemoveNpc(id: int)
      requires Valid()
      modifies `npcs, `regions, targets
      ensures Valid() && (old(Tight()) ==> Tight()) && (old(TargetsCoherent()) ==> TargetsCoherent())
      ensures npcs == old(npcs) - {id}
      ensures id in old(npcs) ==> forall c :: IndexedTarget(c) != id || id == 0
      ensures forall c :: IndexedTarget(c) == old(IndexedTarget(c)) || IndexedTarget(c) == 0
      ensures Snap() == Stepped(old(Snap()), Despawn(id))
    {
      if id !in npcs { return; }
      var key := RegionKey(npcs[id]);
      assert Standing(key, id) >= 1;
      RemoveFromRegion(key, id);
      npcs := npcs - {id};
      assert forall k, i {:trigger Standing(k, i)} :: i != id || k != key ==> Standing(k, i) == old(Standing(k, i));
      assert Standing(key, id) == old(Standing(key, id)) - 1;
      targets.DropTarget(id);
    }

    // ---------- Range queries ----------

    method NearbyRegions(x: int, y: int, radius: int) returns (keys: seq<int>)
      ensures forall key :: key in keys <==> Visited(key, x, y, radius)
    {
      var startX, endX := TruncDiv(x - radius, REGION_SIZE), TruncDiv(x + radius, REGION_SIZE);
      var startY, endY := TruncDiv(y - radius, REGION_SIZE), TruncDiv(y + radius, REGION_SIZE);
      keys := [];
      var rx := startX;
      while rx <= endX
        invariant startX <= rx
        invariant forall key :: key in keys ==> Visited(key, x, y, radius)
        invariant forall a, b :: startX <= a < rx && a <= endX && startY <= b <= endY ==> PackRegion(a, b) in keys
        decreases endX - rx
      {
        var ry := startY;
        while ry <= endY
          invariant startY <= ry
          invariant forall key :: key in keys ==> Visited(key, x, y, radius)
          invariant forall a, b :: startX <= a < rx && a <= endX && startY <= b <= endY ==> PackRegion(a, b) in keys
          invariant forall b :: startY <= b < ry && b <= endY ==> PackRegion(rx, b) in keys
          decreases endY - ry
        {
          keys := keys + [PackRegion(rx, ry)];
          ry := ry + 1;
        }
        rx := rx + 1;
      }
    }

    /** The ids listed in the visited cells, each once. */
    method ListedNear(x: int, y: int, radius: int) returns (ids: seq<int>)
      ensures Distinct(ids)
      ensures forall id :: id in ids <==> exists key :: Visited(key, x, y, radius) && Listed(key, id) > 0
    {
      var keys := NearbyRegions(x, y, radius);
      ids := [];
      for k := 0 to |keys|
        invariant Distinct(ids)
        invariant forall id :: id in ids <==> exists i :: 0 <= i < k && Listed(keys[i], id) > 0
      {
        if keys[k] in regions {
          var objectIds := regions[keys[k]];
          for j := 0 to |objectIds|
            invariant Distinct(ids)
            invariant forall id :: id in ids <==>
              id in objectIds[..j] || exists i :: 0 <= i < k && Listed(keys[i], id) > 0
          {
            if objectIds[j] !in ids { ids := ids + [objectIds[j]]; }
          }
          assert objectIds[..|objectIds|] == objectIds;
        }
      }
      forall id ensures id in ids <==> exists key :: Visited(key, x, y, radius) && Listed(key, id) > 0 {
        if key :| Visited(key, x, y, radius) && Listed(key, id) > 0 {
          assert key in keys;
        }
      }
    }

    /** Exactly the players whose truncated distance is at most the radius, each once: a linear scan's answer. */
    method GetPlayersInRange(pos: Position, radius: nat) returns (r: seq<int>)
      requires Valid()
      ensures Distinct(r)
      ensures forall id :: id in r <==> id in players && Distance(pos, players[id].position) <= radius
      ensures forall id :: id in r <==> id in players && InReach(pos, players[id].position, radius)
    {
      var ids := ListedNear(pos.x, pos.y, radius);
      r := [];
      for i := 0 to |ids|
        invariant Distinct(r)
        invariant forall id :: id in r <==>
          id in ids[..i] && id in players && Distance(pos, players[id].position) <= radius
      {
        if ids[i] in players && Distance(pos, players[ids[i]].position) <= radius { r := r + [ids[i]]; }
      }
      assert ids[..|ids|] == ids;
      forall id | id in players && Distance(pos, players[id].position) <= radius ensures id in ids {
        InRangeIsVisited(pos, players[id].position, radius);
        assert Standing(RegionKey(players[id].position), id) >= 1;
        assert Listed(RegionKey(players[id].position), id) > 0;
      }
      forall id | id in players { WithinRadius(pos, players[id].position, radius); }
    }

    method GetNpcsInRange(pos: Position, radius: nat) returns (r: seq<int>)
      requires Valid()
      ensures Distinct(r)
      ensures forall id :: id in r <==> id in npcs && Distance(pos, npcs[id]) <= radius
      ensures forall id :: id in r <==> id in npcs && InReach(pos, npcs[id], radius)
    {
      var ids := ListedNear(pos.x, pos.y, radius);
      r := [];
      for i := 0 to |ids|
        invariant Distinct(r)
        invariant forall id :: id in r <==> id in ids[..i] && id in npcs && Distance(pos, npcs[id]) <= radius
      {
        if ids[i] in npcs && Distance(pos, npcs[ids[i]]) <= radius { r := r + [ids[i]]; }
      }
      assert ids[..|ids|] == ids;
      forall id | id in npcs && Distance(pos, npcs[id]) <= radius ensures id in ids {
        InRangeIsVisited(pos, npcs[id], radius);
        assert Standing(RegionKey(npcs[id]), id) >= 1;
        assert Listed(RegionKey(npcs[id]), id) > 0;
      }
      forall id | id in npcs { WithinRadius(pos, npcs[id], radius); }
    }

    // ---------- Runs ----------

    /** Whether a step adds under a fresh id, or retargets a live player; all other steps always do. */
    predicate Proper(step: Step) reads `players, `npcs {
      match step
      case Enter(id, _) => id !in players
      case Target(id, _) => id in players
      case Spawn(id, _) => id !in npcs
      case _ => true
    }

    method Perform(step: Step)
      requires InOrder() && Proper(step)
      modifies `players, `npcs, `regions, targets
      ensures InOrder() && Snap() == Stepped(old(Snap()), step)
    {
      match step
      case Enter(id, position) => AddPlayer(id, position);
      case Move(id, position) => UpdatePlayerPosition(id, position);
      case Exit(id) => RemovePlayer(id);
      case Target(id, targetId) => SetPlayerTarget(id, targetId);
      case Spawn(id, position) => AddNpc(id, position);
      case Despawn(id) => RemoveNpc(id);
    }

    /** The grid stays tight and the target index coherent over every run, up to a step that is not proper. */
    method Run(steps: seq<Step>) returns (n: nat)
      requires InOrder()
      modifies `players, `npcs, `regions, targets
      ensures InOrder() && n <= |steps| && (n < |steps| ==> !Proper(steps[n]))
      ensures Snap() == AllStepped(old(Snap()), steps[..n])
    {
      n := 0;
      while n < |steps| && Proper(steps[n])
        invariant InOrder() && n <= |steps| && Snap() == AllStepped(old(Snap()), steps[..n])
      {
        Perform(steps[n]);
        assert steps[..n + 1][..n] == steps[..n];
        n := n + 1;
      }
    }

    /** A case of an indexed target that is not the player's: targeting before entering. */
    method TargetBeforeEntry(id: int, targetId: int, position: Position)
      requires InOrder() && id !in players && targetId != 0
      modifies `players, `regions, targets
      ensures Valid() && !TargetsCoherent() && id in players && IndexedTarget(id) == targetId
      ensures players[id].targetId == 0
    {
      SetPlayerTarget(id, targetId);
      AddPlayer(id, position);
    }
  }
}
