/** Item instances, body parts and paperdoll slots. */
module Items {
  import opened Wrappers

  datatype Location = InInventory | Paperdoll | Warehouse | ClanWarehouse | Pet | PetEquip | Freight

  /** A row of the item table. A plain item is neither enchanted nor augmented. */
  datatype Item = Item(objectId: int, ownerId: int, itemId: int, count: int, loc: Location, locData: int, plain: bool) {
    predicate IsEquipped() { loc == Paperdoll && locData >= 0 }

    /** In a paperdoll slot of this owner. */
    predicate In(owner: int, slot: int) { ownerId == owner && loc == Paperdoll && locData == slot }

    function Equip(slot: int): Item { this.(loc := Paperdoll, locData := slot) }

    function Unequip(): Item { this.(loc := InInventory, locData := -1) }
  }

  type ItemTable = map<int, Item>

  const UNDER := 0
  const HEAD := 1
  const HAIR := 2
  const HAIR2 := 3
  const NECK := 4
  const R_HAND := 5
  const CHEST := 6
  const L_HAND := 7
  const R_EAR := 8
  const L_EAR := 9
  const GLOVES := 10
  const LEGS := 11
  const FEET := 12
  const R_FINGER := 13
  const L_FINGER := 14
  const L_BRACELET := 15
  const R_BRACELET := 16
  const DECO1 := 17
  const BACK := 23
  const BELT := 24

  const LR_EAR := 0x0006
  const LR_FINGER := 0x0030
  const LR_HAND := 0x4000
  const FULL_ARMOR := 0x8000
  const HAIR_ALL := 0x05_0000

  /** The primary slot of a body part. */
  function BodyPartToPaperdollSlot(code: int): (r: Option<int>)
    ensures r.Some? ==> 0 <= r.value <= BELT
  {
    match code
    case 0x0001 => Some(UNDER)
    case 0x0002 => Some(R_EAR)
    case 0x0004 => Some(L_EAR)
    case 0x0006 => Some(R_EAR)
    case 0x0008 => Some(NECK)
    case 0x0010 => Some(R_FINGER)
    case 0x0020 => Some(L_FINGER)
    case 0x0030 => Some(R_FINGER)
    case 0x0040 => Some(HEAD)
    case 0x0080 => Some(R_HAND)
    case 0x0100 => Some(L_HAND)
    case 0x0200 => Some(GLOVES)
    case 0x0400 => Some(CHEST)
    case 0x0800 => Some(LEGS)
    case 0x1000 => Some(FEET)
    case 0x2000 => Some(BACK)
    case 0x4000 => Some(R_HAND)
    case 0x8000 => Some(CHEST)
    case 0x01_0000 => Some(HAIR)
    case 0x04_0000 => Some(HAIR2)
    case 0x05_0000 => Some(HAIR)
    case 0x10_0000 => Some(R_BRACELET)
    case 0x20_0000 => Some(L_BRACELET)
    case 0x40_0000 => Some(DECO1)
    case 0x1000_0000 => Some(BELT)
    case _ => None
  }

  /** The body part that belongs to a slot alone. */
  function PaperdollSlotCode(slot: int): Option<int> {
    match slot
    case 0 => Some(0x0001)
    case 1 => Some(0x0040)
    case 2 => Some(0x01_0000)
    case 3 => Some(0x04_0000)
    case 4 => Some(0x0008)
    case 5 => Some(0x0080)
    case 6 => Some(0x0400)
    case 7 => Some(0x0100)
    case 8 => Some(0x0002)
    case 9 => Some(0x0004)
    case 10 => Some(0x0200)
    case 11 => Some(0x0800)
    case 12 => Some(0x1000)
    case 13 => Some(0x0010)
    case 14 => Some(0x0020)
    case 15 => Some(0x20_0000)
    case 16 => Some(0x10_0000)
    case 17 => Some(0x40_0000)
    case 23 => Some(0x2000)
    case 24 => Some(0x1000_0000)
    case _ => None
  }

  /** A body part's slot is the one it belongs to alone, or that of the right or upper half of what it covers. */
  lemma SlotOfBodyPart(code: int, slot: int)
    ensures BodyPartToPaperdollSlot(code) == Some(slot) <==>
      || PaperdollSlotCode(slot) == Some(code)
      || (code == 0x0006 && PaperdollSlotCode(slot) == Some(0x0002))
      || (code == 0x0030 && PaperdollSlotCode(slot) == Some(0x0010))
      || (code == 0x4000 && PaperdollSlotCode(slot) == Some(0x0080))
      || (code == 0x8000 && PaperdollSlotCode(slot) == Some(0x0400))
      || (code == 0x05_0000 && PaperdollSlotCode(slot) == Some(0x01_0000))
  {}

  predicate IsTwoHanded(code: int) { code == LR_HAND }

  predicate IsFullArmor(code: int) { code == FULL_ARMOR }

  predicate IsDualSlot(code: int) { code == LR_EAR || code == LR_FINGER || code == HAIR_ALL }

  /** The slot a dual-slot item can go to besides its primary one. */
  function SecondarySlot(code: int): int
    requires IsDualSlot(code)
  {
    if code == LR_EAR then L_EAR else if code == LR_FINGER then L_FINGER else HAIR2
  }

  /** What the use of an item goes by; delays are in milliseconds. */
  datatype Template = Template(bodyPart: int, quest: bool, reuseDelay: int, reuseGroup: int, stackable: bool)

  // ---------- The paperdoll ----------

  ghost predicate Keyed(items: ItemTable) { forall id :: id in items ==> items[id].objectId == id }

  ghost predicate Occupied(items: ItemTable, owner: int, slot: int) {
    exists id :: id in items && items[id].In(owner, slot)
  }

  /** No two items in one slot. */
  ghost predicate OnePerSlot(items: ItemTable) {
    forall i, j ::
      i in items && j in items && items[i].IsEquipped() && items[j].In(items[i].ownerId, items[i].locData) ==> i == j
  }

  /** Whoever holds a two-handed weapon in the right hand has nothing in the left. */
  ghost predicate HandsOk(items: ItemTable, templateOf: int -> Option<Template>) {
    forall id :: id in items && items[id].In(items[id].ownerId, 5) && NeedsBothHands(templateOf, items[id]) ==>
      !Occupied(items, items[id].ownerId, 7)
  }

  ghost predicate NeedsBothHands(templateOf: int -> Option<Template>, item: Item) {
    templateOf(item.itemId).Some? && templateOf(item.itemId).value.bodyPart == 0x4000
  }

  predicate TwoHanded(templateOf: int -> Option<Template>, item: Item) {
    templateOf(item.itemId).Some? && IsTwoHanded(templateOf(item.itemId).value.bodyPart)
  }

  /** The same items of the same owners in the same numbers; only where they are may differ. */
  ghost predicate Conserved(a: ItemTable, b: ItemTable) {
    a.Keys == b.Keys && forall id :: id in a ==> b[id] == a[id].(loc := b[id].loc, locData := b[id].locData)
  }

  // ---------- Emptying slots and equipping ----------

  /** The owner's items in some slots go to the inventory. */
  ghost function Emptied(items: ItemTable, owner: int, slots: set<int>): ItemTable {
    map id | id in items :: if exists slot :: slot in slots && items[id].In(owner, slot)
      then items[id].Unequip() else items[id]
  }

  /** The rows after the owner's items in some slots were put away, written out. */
  ghost predicate PutAway(was: ItemTable, items: ItemTable, owner: int, slots: set<int>) {
    items.Keys == was.Keys && forall id :: id in was ==>
      items[id] == if was[id].ownerId == owner && was[id].loc == Paperdoll && was[id].locData in slots
        then was[id].(loc := InInventory, locData := -1) else was[id]
  }

  lemma EmptiedRows(items: ItemTable, owner: int, slots: set<int>)
    ensures PutAway(items, Emptied(items, owner, slots), owner, slots)
  {}

  /** Earrings, rings and hair accessories go to the second of their two slots, if only that is free. */
  ghost function TargetSlot(items: ItemTable, owner: int, code: int): int
    requires BodyPartToPaperdollSlot(code).Some?
  {
    if code == 0x0006 && Occupied(items, owner, 8) && !Occupied(items, owner, 9) then 9
    else if code == 0x0030 && Occupied(items, owner, 13) && !Occupied(items, owner, 14) then 14
    else if code == 0x05_0000 && Occupied(items, owner, 2) && !Occupied(items, owner, 3) then 3
    else BodyPartToPaperdollSlot(code).value
  }

  ghost predicate HoldsTwoHanded(items: ItemTable, owner: int, templateOf: int -> Option<Template>) {
    exists id :: id in items && items[id].In(owner, 5) && NeedsBothHands(templateOf, items[id])
  }

  /** The slots that equipping an item empties first, its own included. */
  ghost function ConflictSlots(items: ItemTable, owner: int, code: int, templateOf: int -> Option<Template>): set<int>
    requires BodyPartToPaperdollSlot(code).Some?
  {
    if code == 0x4000 then {7, 5}
    else if code == 0x8000 then {11, 6}
    else if code == 0x0100 && HoldsTwoHanded(items, owner, templateOf) then {5, 7}
    else {TargetSlot(items, owner, code)}
  }

  ghost function Equipped(items: ItemTable, owner: int, id: int, code: int,
                          templateOf: int -> Option<Template>): ItemTable
    requires id in items && BodyPartToPaperdollSlot(code).Some?
  {
    var slots, target := ConflictSlots(items, owner, code, templateOf), TargetSlot(items, owner, code);
    Emptied(items, owner, slots)[id := items[id].Equip(target)]
  }

  lemma EmptiedAgain(items: ItemTable, owner: int, s: set<int>, t: set<int>)
    ensures Emptied(Emptied(items, owner, s), owner, t) == Emptied(items, owner, s + t)
  {
    var a, b := Emptied(Emptied(items, owner, s), owner, t), Emptied(items, owner, s + t);
    forall id | id in items ensures a[id] == b[id] {
      if exists slot :: slot in s && items[id].In(owner, slot) {
        var slot :| slot in s && items[id].In(owner, slot);
        assert slot in s + t;
      }
      if exists slot :: slot in t && items[id].In(owner, slot) {
        var slot :| slot in t && items[id].In(owner, slot);
        assert slot in s + t;
      }
    }
  }

  /** Emptying slots keeps the paperdoll in order and all items. */
  lemma EmptiedKeeps(items: ItemTable, owner: int, slots: set<int>, templateOf: int -> Option<Template>)
    ensures var r := Emptied(items, owner, slots);
      && (OnePerSlot(items) ==> OnePerSlot(r)) && (HandsOk(items, templateOf) ==> HandsOk(r, templateOf))
      && Conserved(items, r) && (Keyed(items) ==> Keyed(r))
      && forall slot :: slot in slots && slot >= 0 ==> !Occupied(r, owner, slot)
  {
    var r := Emptied(items, owner, slots);
    if HandsOk(items, templateOf) {
      forall id | id in r && r[id].In(r[id].ownerId, R_HAND) && NeedsBothHands(templateOf, r[id])
        ensures !Occupied(r, r[id].ownerId, L_HAND)
      {
        assert items[id].In(items[id].ownerId, R_HAND);
        forall j | j in r ensures !r[j].In(r[id].ownerId, L_HAND) { assert !items[j].In(items[id].ownerId, L_HAND); }
      }
    }
  }

  /**
   Equipping keeps one item per slot, an empty left hand beside a two-handed weapon, and all items;
   the item ends up in its slot.
   */
  lemma EquippedKeeps(items: ItemTable, owner: int, id: int, code: int, templateOf: int -> Option<Template>)
    requires id in items && items[id].ownerId == owner && BodyPartToPaperdollSlot(code).Some?
    requires templateOf(items[id].itemId).Some? && templateOf(items[id].itemId).value.bodyPart == code
    requires Keyed(items) && OnePerSlot(items) && HandsOk(items, templateOf)
    ensures var r := Equipped(items, owner, id, code, templateOf);
      Keyed(r) && OnePerSlot(r) && HandsOk(r, templateOf) && Conserved(items, r)
      && r[id].In(owner, TargetSlot(items, owner, code))
  {
    var slots := ConflictSlots(items, owner, code, templateOf);
    var e := Emptied(items, owner, slots);
    var target := TargetSlot(items, owner, code);
    EmptiedKeeps(items, owner, slots, templateOf);
    assert target in slots;
    HandsAfterEquip(items, owner, id, code, templateOf);
  }

  lemma HandsAfterEquip(items: ItemTable, owner: int, id: int, code: int, templateOf: int -> Option<Template>)
    requires id in items && items[id].ownerId == owner && BodyPartToPaperdollSlot(code).Some?
    requires templateOf(items[id].itemId).Some? && templateOf(items[id].itemId).value.bodyPart == code
    requires HandsOk(items, templateOf)
    ensures HandsOk(Equipped(items, owner, id, code, templateOf), templateOf)
  {
    var slots := ConflictSlots(items, owner, code, templateOf);
    var e := Emptied(items, owner, slots);
    var r := Equipped(items, owner, id, code, templateOf);
    EmptiedKeeps(items, owner, slots, templateOf);
    forall w | w in r && r[w].In(r[w].ownerId, R_HAND) && NeedsBothHands(templateOf, r[w])
      ensures !Occupied(r, r[w].ownerId, L_HAND)
    {
      if w == id {
        assert L_HAND in slots;
      } else {
        assert e[w] == r[w];
        assert items[w].In(items[w].ownerId, R_HAND);
        assert r[w].ownerId == owner ==> HoldsTwoHanded(items, owner, templateOf);
      }
    }
  }

  // ---------- Full armour ----------

  ghost predicate WearsFullArmor(items: ItemTable, owner: int, templateOf: int -> Option<Template>) {
    exists id :: id in items && items[id].In(owner, 6) && CoversLegs(templateOf, items[id])
  }

  ghost predicate CoversLegs(templateOf: int -> Option<Template>, item: Item) {
    templateOf(item.itemId).Some? && templateOf(item.itemId).value.bodyPart == 0x8000
  }

  /** Whoever wears full armour wears nothing in the legs slot. */
  ghost predicate SuitsOk(items: ItemTable, templateOf: int -> Option<Template>) {
    forall owner :: WearsFullArmor(items, owner, templateOf) ==> !Occupied(items, owner, LEGS)
  }

  lemma SuitsOkEmptied(items: ItemTable, owner: int, slots: set<int>, templateOf: int -> Option<Template>)
    requires SuitsOk(items, templateOf)
    ensures SuitsOk(Emptied(items, owner, slots), templateOf)
  {
    var r := Emptied(items, owner, slots);
    forall o | WearsFullArmor(r, o, templateOf) ensures !Occupied(r, o, LEGS) {
      var id :| id in r && r[id].In(o, CHEST) && CoversLegs(templateOf, r[id]);
      assert items[id].In(o, CHEST) && CoversLegs(templateOf, items[id]) && WearsFullArmor(items, o, templateOf);
      forall j | j in r ensures !r[j].In(o, LEGS) { assert !items[j].In(o, LEGS); }
    }
  }

  /** Putting on full armour takes leg armour off, but leg armour goes on under full armour; no other item matters. */
  lemma SuitsAfterEquip(items: ItemTable, owner: int, id: int, code: int, templateOf: int -> Option<Template>)
    requires id in items && items[id].ownerId == owner && BodyPartToPaperdollSlot(code).Some?
    requires templateOf(items[id].itemId).Some? && templateOf(items[id].itemId).value.bodyPart == code
    requires SuitsOk(items, templateOf)
    ensures SuitsOk(Equipped(items, owner, id, code, templateOf), templateOf)
      <==> !(BodyPartToPaperdollSlot(code) == Some(LEGS) && WearsFullArmor(items, owner, templateOf))
  {
    var slots, target := ConflictSlots(items, owner, code, templateOf), TargetSlot(items, owner, code);
    var e, r := Emptied(items, owner, slots), Equipped(items, owner, id, code, templateOf);
    SuitsOkEmptied(items, owner, slots, templateOf);
    assert r[id].In(owner, target);
    if target == LEGS && WearsFullArmor(items, owner, templateOf) {
      var suit :| suit in items && items[suit].In(owner, CHEST) && CoversLegs(templateOf, items[suit]);
      assert r[suit] == items[suit] && WearsFullArmor(r, owner, templateOf) && Occupied(r, owner, LEGS);
    } else {
      forall o | WearsFullArmor(r, o, templateOf) ensures !Occupied(r, o, LEGS) {
        NoLegsUnderSuit(items, owner, id, code, templateOf, o);
      }
    }
  }

  /** A case of leg armour under full armour: put on second. */
  lemma LegsUnderSuit()
    ensures var templateOf := (id: int) =>
        Some(Template(if id == 1 then FULL_ARMOR else 0x0800, false, 0, 0, false));
      var items: ItemTable := map[
        10 := Item(10, 7, 1, 1, Paperdoll, CHEST, true), 20 := Item(20, 7, 2, 1, InInventory, -1, true)];
      SuitsOk(items, templateOf) && !SuitsOk(Equipped(items, 7, 20, 0x0800, templateOf), templateOf)
  {
    var templateOf := (id: int) => Some(Template(if id == 1 then FULL_ARMOR else 0x0800, false, 0, 0, false));
    var items: ItemTable := map[
      10 := Item(10, 7, 1, 1, Paperdoll, CHEST, true), 20 := Item(20, 7, 2, 1, InInventory, -1, true)];
    assert 10 in items && items[10].In(7, CHEST) && CoversLegs(templateOf, items[10]);
    assert forall owner :: !Occupied(items, owner, LEGS);
    SuitsAfterEquip(items, 7, 20, 0x0800, templateOf);
  }

  lemma NoLegsUnderSuit(items: ItemTable, owner: int, id: int, code: int, templateOf: int -> Option<Template>, o: int)
    requires id in items && items[id].ownerId == owner && BodyPartToPaperdollSlot(code).Some?
    requires templateOf(items[id].itemId).Some? && templateOf(items[id].itemId).value.bodyPart == code
    requires SuitsOk(items, templateOf)
    requires !(BodyPartToPaperdollSlot(code) == Some(LEGS) && WearsFullArmor(items, owner, templateOf))
    requires WearsFullArmor(Equipped(items, owner, id, code, templateOf), o, templateOf)
    ensures !Occupied(Equipped(items, owner, id, code, templateOf), o, LEGS)
  {
    var slots := ConflictSlots(items, owner, code, templateOf);
    var e, r := Emptied(items, owner, slots), Equipped(items, owner, id, code, templateOf);
    var suit :| suit in r && r[suit].In(o, CHEST) && CoversLegs(templateOf, r[suit]);
    if suit != id { assert items[suit].In(o, CHEST) && WearsFullArmor(items, o, templateOf); }
    forall legs | legs in r ensures !r[legs].In(o, LEGS) {
      assert suit != id ==> !items[legs].In(o, LEGS);
      assert e[legs] == items[legs] || e[legs] == items[legs].Unequip();
    }
  }

  // ---------- The change list ----------

  /** What a client is told of an item: ADD, MODIFY or REMOVE, with the item as it then is. */
  datatype Change = Added(item: Item) | Modified(item: Item) | Removed(item: Item)

  function Applied(items: ItemTable, c: Change): ItemTable {
    if c.Removed? then items - {c.item.objectId} else items[c.item.objectId := c.item]
  }

  /** A client's copy after it has taken over the changes, one after the other. */
  function Replay(items: ItemTable, changed: seq<Change>): ItemTable {
    if changed == [] then items else Applied(Replay(items, changed[..|changed| - 1]), changed[|changed| - 1])
  }

  /** What a client knows: its own character's items. */
  ghost function Owned(items: ItemTable, owner: int): ItemTable {
    map id | id in items && items[id].ownerId == owner :: items[id]
  }

  /** All changes are about the owner's items, former and new. */
  ghost predicate Concerns(items: ItemTable, changed: seq<Change>, owner: int) {
    forall c :: c in changed ==>
      c.item.ownerId == owner && (c.item.objectId in items ==> items[c.item.objectId].ownerId == owner)
  }

  lemma {:induction false} ReplayOwned(items: ItemTable, changed: seq<Change>, owner: int)
    requires forall c :: c in changed ==> c.item.ownerId == owner
    ensures Replay(Owned(items, owner), changed) == Owned(Replay(items, changed), owner)
  {
    if changed != [] {
      var front, last := changed[..|changed| - 1], changed[|changed| - 1];
      ReplayOwned(items, front, owner);
      var r := Replay(items, front);
      assert Owned(Applied(r, last), owner) == Applied(Owned(r, owner), last);
    }
  }

  lemma {:induction false} ReplayConcat(items: ItemTable, a: seq<Change>, b: seq<Change>)
    ensures Replay(items, a + b) == Replay(Replay(items, a), b)
  {
    if b == [] {
      assert a + b == a;
    } else {
      ReplayConcat(items, a, b[..|b| - 1]);
      assert (a + b)[..|a + b| - 1] == a + b[..|b| - 1];
    }
  }

  lemma ReplayOne(items: ItemTable, c: Change)
    ensures Replay(items, [c]) == Applied(items, c)
  {
    assert [c][..0] == [];
  }

  /** Another owner's item stays what it is, and none becomes another's. */
  lemma {:induction false} OthersKept(items: ItemTable, changed: seq<Change>, owner: int, id: int)
    requires Concerns(items, changed, owner)
    ensures var r := Replay(items, changed);
      && (id in items && items[id].ownerId != owner ==> id in r && r[id] == items[id])
      && (id in r && r[id].ownerId != owner ==> id in items && r[id] == items[id])
  {
    if changed != [] { OthersKept(items, changed[..|changed| - 1], owner, id); }
  }

  /** What one character is told is no news of another's items. */
  lemma OthersUntouched(items: ItemTable, changed: seq<Change>, owner: int, other: int)
    requires other != owner && Concerns(items, changed, owner)
    ensures Owned(Replay(items, changed), other) == Owned(items, other)
  {
    var a, b := Owned(Replay(items, changed), other), Owned(items, other);
    forall id ensures id in a <==> id in b { OthersKept(items, changed, owner, id); }
    forall id | id in b ensures a[id] == b[id] { OthersKept(items, changed, owner, id); }
  }

  lemma ConcernsConcat(items: ItemTable, a: seq<Change>, b: seq<Change>, owner: int)
    requires Concerns(items, a, owner) && Concerns(Replay(items, a), b, owner)
    ensures Concerns(items, a + b, owner)
  {
    forall c | c in a + b ensures c.item.ownerId == owner && (c.item.objectId in items ==>
      items[c.item.objectId].ownerId == owner) {
      if c !in a { OthersKept(items, a, owner, c.item.objectId); }
    }
  }

  lemma EmptiedOne(items: ItemTable, owner: int, slot: int, id: int)
    requires OnePerSlot(items) && slot >= 0 && id in items && items[id].In(owner, slot)
    ensures Emptied(items, owner, {slot}) == items[id := items[id].Unequip()]
  {
    var r := Emptied(items, owner, {slot});
    forall j | j in items ensures r[j] == items[id := items[id].Unequip()][j] {
      if j == id { assert slot in {slot}; }
    }
  }

  lemma EmptiedRowByRow(items: ItemTable, owner: int, slot: int)
    ensures Emptied(items, owner, {slot}) == map id | id in items :: if items[id].In(owner, slot)
      then items[id].Unequip() else items[id]
  {
    var r := Emptied(items, owner, {slot});
    assert slot in {slot};
    assert forall id :: id in items ==> r[id] == if items[id].In(owner, slot) then items[id].Unequip() else items[id];
  }

  lemma EmptiedNone(items: ItemTable, owner: int, slots: set<int>)
    requires forall slot :: slot in slots ==> !Occupied(items, owner, slot)
    ensures Emptied(items, owner, slots) == items
  {
    var r := Emptied(items, owner, slots);
    assert forall id :: id in items ==> r[id] == items[id];
  }

  /** What puts nothing on the paperdoll keeps it in order, whatever it does to numbers. */
  lemma PaperdollKept(a: ItemTable, b: ItemTable, templateOf: int -> Option<Template>)
    requires OnePerSlot(a) && HandsOk(a, templateOf)
    requires forall id :: id in b && b[id].IsEquipped() ==> id in a && b[id] == a[id].(count := b[id].count)
    ensures OnePerSlot(b) && HandsOk(b, templateOf)
  {
    forall id | id in b && b[id].In(b[id].ownerId, R_HAND) && NeedsBothHands(templateOf, b[id])
      ensures !Occupied(b, b[id].ownerId, L_HAND)
    {
      assert a[id].In(a[id].ownerId, R_HAND) && NeedsBothHands(templateOf, a[id]);
      forall j | j in b ensures !b[j].In(b[id].ownerId, L_HAND) {
        if j in a { assert !a[j].In(a[id].ownerId, L_HAND); }
      }
    }
  }
}
