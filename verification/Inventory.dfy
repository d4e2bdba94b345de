/** Using items: equipping, unequipping, and consumables with their cooldowns. */
module Inventory {
  import opened Events
  import opened ItemReuse
  import opened Items
  import opened Stock
  import opened Wrappers

  /** What the handler of a non-equipment item makes of a use; one that consumes takes units and may give rewards. */
  datatype Handler = NoHandler | Failing | Declining | Consuming(units: nat, rewards: seq<Reward>)

  datatype Refusal = NoTemplate | QuestItem | DeadActor | Reuse(remaining: Time) | NothingDone

  datatype UseResult = Failed(reason: string) | Refused(why: Refusal) | Used(changed: seq<Change>)

  // ---------- Cooldowns as a history ----------

  function Delay(t: Template): Time { t.reuseDelay * MILLISECOND }

  /** Every earlier use of this instance, or of its group, is at least its own delay ago. */
  ghost predicate Ready(log: seq<Use>, t: Template, objectId: int, now: Time) {
    forall u :: u in log && (u.objectId == objectId || (t.reuseGroup > 0 && u.group == t.reuseGroup)) ==>
      now >= u.at + u.delay
  }

  /** The delays and groups in the history are those of the items' templates; the items may be gone by now. */
  ghost predicate FromTemplates(born: map<int, int>, templateOf: int -> Option<Template>, log: seq<Use>) {
    forall u :: u in log ==>
      && u.objectId in born
      && templateOf(born[u.objectId]).Some?
      && u.group == templateOf(born[u.objectId]).value.reuseGroup
      && u.delay == templateOf(born[u.objectId]).value.reuseDelay * 1_000_000 > 0
  }

  /** The table and the paperdoll in it are in order, and the ids tell what items they have been. */
  ghost predicate TableOk(items: ItemTable, nextId: int, born: map<int, int>, templateOf: int -> Option<Template>) {
    && Stocked(items, nextId) && OnePerSlot(items) && HandsOk(items, templateOf)
    && (forall id :: id in items ==> id in born && born[id] == items[id].itemId)
    && (forall id :: id in born ==> id < nextId)
  }

  lemma TableOkConserved(a: ItemTable, b: ItemTable, nextId: int, born: map<int, int>,
                         templateOf: int -> Option<Template>)
    requires TableOk(a, nextId, born, templateOf) && Conserved(a, b) && Keyed(b)
    requires (OnePerSlot(a) ==> OnePerSlot(b)) && (HandsOk(a, templateOf) ==> HandsOk(b, templateOf))
    ensures TableOk(b, nextId, born, templateOf)
  {}

  lemma PaperdollOk(items: ItemTable, nextId: int, born: map<int, int>, templateOf: int -> Option<Template>)
    requires TableOk(items, nextId, born, templateOf)
    ensures OnePerSlot(items) && HandsOk(items, templateOf)
  {}

  /** Instances come, under new ids, and what an id once stood for it always does. */
  ghost predicate Grown(a: map<int, int>, b: map<int, int>) { forall id :: id in a ==> id in b && b[id] == a[id] }

  /** Uses are logged in the order of time. */
  ghost predicate Timely(log: seq<Use>) {
    forall i, j :: 0 <= i < j < |log| ==> log[i].at <= log[j].at
  }

  lemma TimelyConsistent(born: map<int, int>, templateOf: int -> Option<Template>, log: seq<Use>)
    requires FromTemplates(born, templateOf, log) && Timely(log)
    ensures Consistent(log)
  {
    forall i, j | 0 <= i < j < |log| && log[i].objectId == log[j].objectId
      ensures log[i].group == log[j].group && log[i].at + log[i].delay <= log[j].at + log[j].delay
    {
      assert log[i] in log && log[j] in log;
    }
  }

  /** The registry's answers decide readiness. */
  lemma ReadyByStamps(log: seq<Use>, t: Template, objectId: int, now: Time, byGroup: Time)
    requires Consistent(log)
    requires if t.reuseGroup <= 0
      then byGroup == 0 else Longest(StampMap(log), StampMap(log).Keys, t.reuseGroup, now, byGroup)
    ensures Ready(log, t, objectId, now)
            <==> !(objectId in StampMap(log) && Remaining(StampMap(log)[objectId], now) > 0) && byGroup == 0
  {
    var m := StampMap(log);
    forall i: nat | i < |log| ensures log[i].objectId in m && m[log[i].objectId].group == log[i].group
      && log[i].at + log[i].delay <= m[log[i].objectId].end
    {
      StampedUse(log, i);
    }
    if objectId in m && Remaining(m[objectId], now) > 0 {
      var i := UseOfStamp(log, objectId);
      assert log[i] in log;
    }
    if byGroup > 0 {
      var o :| o in m && m[o].group == t.reuseGroup && Remaining(m[o], now) == byGroup;
      var i := UseOfStamp(log, o);
      assert log[i] in log;
    }
  }

  /** Two uses of one instance, or of one group, are at least the earlier one's delay apart. */
  ghost predicate Spaced(log: seq<Use>) {
    forall i, j :: 0 <= i < j < |log| && SharesCooldown(log[i], log[j]) ==> log[j].at >= log[i].at + log[i].delay
  }

  predicate SharesCooldown(u: Use, v: Use) { u.objectId == v.objectId || (v.group > 0 && u.group == v.group) }

  // ---------- What becomes of a use ----------

  datatype Verdict = Fails | HasNoTemplate | IsQuestItem | IsDead | IsCooling | DoesNothing | Succeeds

  function VerdictOf(r: UseResult): Verdict {
    match r
    case Failed(_) => Fails
    case Refused(NoTemplate) => HasNoTemplate
    case Refused(QuestItem) => IsQuestItem
    case Refused(DeadActor) => IsDead
    case Refused(Reuse(_)) => IsCooling
    case Refused(NothingDone) => DoesNothing
    case Used(_) => Succeeds
  }

  /** The guards, in their order; an item without a delay of its own is never held back. */
  ghost function Judged(items: ItemTable, templateOf: int -> Option<Template>, log: seq<Use>,
                          charId: int, objectId: int, dead: bool, now: Time, handler: Handler): Verdict
  {
    if objectId !in items || items[objectId].ownerId != charId then Fails else
    match templateOf(items[objectId].itemId)
    case None => HasNoTemplate
    case Some(t) =>
      if t.quest then IsQuestItem
      else if dead then IsDead
      else if t.reuseDelay > 0 && !Ready(log, t, objectId, now) then IsCooling
      else Forked(items[objectId], t, handler)
  }

  /** Behind the guards: equipment is put on or taken off, anything else is its handler's. */
  function Forked(item: Item, t: Template, handler: Handler): Verdict {
    if t.bodyPart == 0 then
      match handler {
        case Failing => Fails
        case Consuming(units, _) => if 1 <= units <= item.count then Succeeds else DoesNothing
        case _ => DoesNothing
      }
    else if item.IsEquipped() || BodyPartToPaperdollSlot(t.bodyPart).Some? then Succeeds
    else Fails
  }

  /** All guards passed. */
  ghost predicate Passes(items: ItemTable, templateOf: int -> Option<Template>, log: seq<Use>,
                         charId: int, objectId: int, dead: bool, now: Time, t: Template)
  {
    && objectId in items && items[objectId].ownerId == charId && templateOf(items[objectId].itemId) == Some(t)
    && !t.quest && !dead && (t.reuseDelay > 0 ==> Ready(log, t, objectId, now))
  }

  /** The items after a piece of equipment was put on or taken off. */
  ghost function AfterToggle(items: ItemTable, templateOf: int -> Option<Template>, charId: int,
                             objectId: int): ItemTable
    requires objectId in items && templateOf(items[objectId].itemId).Some?
  {
    var item, t := items[objectId], templateOf(items[objectId].itemId).value;
    if item.IsEquipped() then Emptied(items, charId, {item.locData})
    else if BodyPartToPaperdollSlot(t.bodyPart).Some? then Equipped(items, charId, objectId, t.bodyPart, templateOf)
    else items
  }

  /** A consuming use tells of the stack the units were taken off, then of each reward; it changes nothing else. */
  ghost predicate Consumed(items: ItemTable, templateOf: int -> Option<Template>, charId: int, objectId: int,
                           handler: Handler, changed: seq<Change>)
    requires objectId in items
  {
    && handler.Consuming? && changed != [] && changed[0] == Taken(items[objectId], handler.units)
    && AllGranted(Applied(items, changed[0]), templateOf, charId, handler.rewards, changed[1..])
  }

  /** What a use that succeeded did to the items. */
  ghost predicate Did(was: ItemTable, items: ItemTable, templateOf: int -> Option<Template>, charId: int, objectId: int,
                      handler: Handler, changed: seq<Change>)
    requires objectId in was && templateOf(was[objectId].itemId).Some?
  {
    && items == Replay(was, changed) && Concerns(was, changed, charId)
    && if templateOf(was[objectId].itemId).value.bodyPart == 0
      then Consumed(was, templateOf, charId, objectId, handler, changed)
       else items == AfterToggle(was, templateOf, charId, objectId) && Conserved(was, items)
  }

  /** What a successful use enters in the books: nothing for equipment. */
  function Booked(t: Template, charId: int, objectId: int, itemId: int, handler: Handler): seq<Entry> {
    if t.bodyPart == 0 && handler.Consuming?
      then [Entry(charId, objectId, itemId, handler.units, handler.rewards)] else []
  }

  type History = map<int, seq<Use>>

  /** The history after a use that succeeds: only a consumable with a delay enters it. */
  ghost function Armed(uses: History, charId: int, t: Template, objectId: int, at: Time): History {
    if t.bodyPart == 0 && t.reuseDelay > 0
      then uses[charId := LogOf(uses, charId) + [Use(objectId, t.reuseGroup, t.reuseDelay * 1_000_000, at)]]
    else uses
  }

  lemma NothingArmed(uses: History, charId: int, t: Template, objectId: int, at: Time)
    requires t.bodyPart != 0
    ensures Armed(uses, charId, t, objectId, at) == uses
  {}

  ghost predicate AllSpaced(uses: History) { forall c :: Spaced(LogOf(uses, c)) }

  ghost predicate LoggedBy(uses: History, now: Time) { forall c, u :: u in LogOf(uses, c) ==> u.at <= now }

  /** A use that was ready is spaced from all uses before it. */
  lemma SpacedMore(uses: History, charId: int, t: Template, objectId: int, now: Time, at: Time)
    requires AllSpaced(uses) && LoggedBy(uses, now) && now <= at
    requires t.reuseDelay > 0 ==> Ready(LogOf(uses, charId), t, objectId, now)
    ensures AllSpaced(Armed(uses, charId, t, objectId, at)) && LoggedBy(Armed(uses, charId, t, objectId, at), at)
  {
    var more := Armed(uses, charId, t, objectId, at);
    forall c ensures Spaced(LogOf(more, c)) { assert Spaced(LogOf(uses, c)); }
    forall c, u | u in LogOf(more, c) ensures u.at <= at { assert u in LogOf(uses, c) ==> u.at <= now; }
  }

  lemma SpacedLess(uses: History, charId: int, now: Time)
    requires AllSpaced(uses) && LoggedBy(uses, now)
    ensures AllSpaced(uses - {charId}) && LoggedBy(uses - {charId}, now)
  {
    forall c ensures Spaced(LogOf(uses - {charId}, c)) { assert Spaced(LogOf(uses, c)); }
    forall c, u | u in LogOf(uses - {charId}, c) ensures u.at <= now { assert u in LogOf(uses, c); }
  }

  /** A group does not hold back an item without a delay of its own: it is usable right after another of the group. */
  lemma UndelayedGroupExample()
    ensures var slow, quick := Template(0, false, 1000, 5, true), Template(0, false, 0, 5, true);
      var templateOf := (id: int) => if id == 1 then Some(slow) else Some(quick);
      var items: ItemTable := map[
        10 := Item(10, 1, 1, 1, InInventory, -1, true), 20 := Item(20, 1, 2, 1, InInventory, -1, true)];
      var log := [Use(10, 5, Delay(slow), 0)];
      && Judged(items, templateOf, log, 1, 20, false, 1, Consuming(1, [])) == Succeeds
      && !Ready(log, quick, 20, 1)
  {
    var log := [Use(10, 5, Delay(Template(0, false, 1000, 5, true)), 0)];
    assert log[0] in log;
  }

  /**
   Within a group, every later use waits for an earlier one's cooldown exactly if the later item has a
   delay of its own.
   */
  lemma GroupSpacingExact(items: ItemTable, templateOf: int -> Option<Template>, log: seq<Use>,
                          charId: int, objectId: int, t: Template, u: Use)
    requires Passes(items, templateOf, [], charId, objectId, false, 0, t) && t.bodyPart == 0
    requires items[objectId].count > 0
    requires u in log && u.delay > 0 && u.group == t.reuseGroup > 0
    ensures (forall now ::
              Judged(items, templateOf, log, charId, objectId, false, now, Consuming(1, [])) == Succeeds ==>
                now >= u.at + u.delay)
            <==> t.reuseDelay > 0
  {
    if t.reuseDelay <= 0 {
      assert Judged(items, templateOf, log, charId, objectId, false, u.at, Consuming(1, [])) == Succeeds;
    }
  }

  /** What the server does for a client: uses of items, taking off, and the end of a session. */
  datatype Action =
    | UseAct(charId: int, objectId: int, dead: bool, now: Time, handler: Handler, at: Time)
    | UnequipAct(charId: int, now: Time, code: int)
    | RelogAct(charId: int, now: Time)
  {
    /** The last reading of the clock. */
    function Last(): Time { if UseAct? then at else now }
  }

  /** The items, and the uses that count for cooldowns. */
  datatype Stand = Stand(items: ItemTable, uses: History)

  /** What an action does, and what it tells the client: a use that the guards refuse does nothing. */
  ghost predicate ActDone(templateOf: int -> Option<Template>, a: Action, was: Stand, next: Stand,
                          changed: seq<Change>) {
    match a
    case UseAct(charId, objectId, dead, now, handler, at) =>
      if Judged(was.items, templateOf, LogOf(was.uses, charId), charId, objectId, dead, now, handler) == Succeeds then
        && objectId in was.items && templateOf(was.items[objectId].itemId).Some?
        && Did(was.items, next.items, templateOf, charId, objectId, handler, changed)
        && next.uses == Armed(was.uses, charId, templateOf(was.items[objectId].itemId).value, objectId, at)
      else next == was && changed == []
    case UnequipAct(charId, _, code) =>
      var slot := BodyPartToPaperdollSlot(code);
      if slot.Some? && Occupied(was.items, charId, slot.value)
      then next == Stand(Emptied(was.items, charId, {slot.value}), was.uses) && next.items == Replay(was.items, changed)
      else next == was && changed == []
    case RelogAct(charId, _) => next == Stand(was.items, was.uses - {charId}) && changed == []
  }

  /** Actions one after the other, each with what it tells its client. */
  ghost predicate ActsDone(templateOf: int -> Option<Template>, actions: seq<Action>, trace: seq<Stand>,
                           tells: seq<seq<Change>>) {
    && |trace| == |actions| + 1 && |tells| == |actions|
    && forall i :: 0 <= i < |actions| ==> ActDone(templateOf, actions[i], trace[i], trace[i + 1], tells[i])
  }

  lemma FirstActDone(templateOf: int -> Option<Template>, actions: seq<Action>, was: Stand, trace: seq<Stand>,
                     changed: seq<Change>, tells: seq<seq<Change>>)
    requires actions != [] && ActsDone(templateOf, actions[1..], trace, tells)
    requires ActDone(templateOf, actions[0], was, trace[0], changed)
    ensures ActsDone(templateOf, actions, [was] + trace, [changed] + tells)
  {
    hide ActDone;
    forall i | 0 <= i < |actions|
      ensures ActDone(templateOf, actions[i], ([was] + trace)[i], ([was] + trace)[i + 1], ([changed] + tells)[i])
    {
      if i > 0 { assert ActDone(templateOf, actions[1..][i - 1], trace[i - 1], trace[i], tells[i - 1]); }
    }
  }

  /** An entry in the books is of a consuming use. */
  predicate MadeBy(e: Entry, a: Action) {
    a.UseAct? && a.handler.Consuming? && e == Entry(a.charId, a.objectId, e.itemId, a.handler.units, a.handler.rewards)
  }

  /** The clock never runs backwards, within an action and between actions. */
  ghost predicate InTime(clock: Time, actions: seq<Action>)
    decreases actions
  {
    actions == [] || (clock <= actions[0].now <= actions[0].Last() && InTime(actions[0].Last(), actions[1..]))
  }

  // ---------- The use case ----------

  class InventoryUseCase {
    const templateOf: int -> Option<Template>
    const reuse: Registry
    var items: ItemTable
    var nextId: int
    /** The item every id ever stood for, those of deleted rows included. */
    ghost var born: map<int, int>

    ghost function Standing(): Stand
      reads `items, reuse
    {
      Stand(items, reuse.uses)
    }

    /** The uses of a character that armed a cooldown since its last relog. */
    ghost function Log(charId: int): seq<Use>
      reads reuse
    {
      reuse.Log(charId)
    }

    /** The table is in order, and so is the paperdoll in it. */
    ghost predicate Ordered()
      reads `items, `nextId, `born
    {
      Keyed(items) && TableOk(items, nextId, born, templateOf)
    }

    /** The cooldowns kept are those of the uses made, with the delays and groups of the templates. */
    ghost predicate Cooled()
      reads `born, reuse
    {
      reuse.Valid() && forall c :: FromTemplates(born, templateOf, Log(c)) && Timely(Log(c))
    }

    constructor (templateOf: int -> Option<Template>, items: ItemTable, nextId: int)
      requires Stocked(items, nextId) && OnePerSlot(items) && HandsOk(items, templateOf)
      ensures this.templateOf == templateOf && this.items == items && fresh(reuse)
      ensures forall c :: Log(c) == []
      ensures Ordered() && Cooled()
    {
      this.templateOf, this.items, this.nextId := templateOf, items, nextId;
      born := map id | id in items :: items[id].itemId;
      reuse := new Registry();
    }

    // ---------- The item table ----------

    /** A new row; the database numbers rows upwards and uses no number twice. */
    method Create(owner: int, itemId: int, count: int) returns (c: Change)
      requires Ordered() && count > 0
      modifies `items, `nextId, `born
      ensures Ordered() && Grown(old(born), born) && c.item.objectId !in old(items)
      ensures c == Added(Fresh(c.item.objectId, owner, itemId, count)) && items == Applied(old(items), c)
      ensures old(nextId) <= c.item.objectId < nextId
      ensures Brings(old(items), items, owner, itemId, count)
    {
      var id: int :| id >= nextId;
      c := Added(Fresh(id, owner, itemId, count));
      assert id !in items && id !in born;
      CountsOnlyKeeps(items, c, templateOf);
      forall o, k { AmountApplied(items, c, o, k); }
      items, nextId, born := items[id := c.item], id + 1, born[id := itemId];
    }

    /** A new count of a row, for the client too. */
    method SetCount(id: int, count: int) returns (c: Change)
      requires Ordered() && id in items && count > 0
      modifies `items
      ensures Ordered() && c == Modified(old(items)[id].(count := count)) && items == Applied(old(items), c)
      ensures Brings(old(items), items, old(items)[id].ownerId, old(items)[id].itemId, count - old(items)[id].count)
    {
      c := Modified(items[id].(count := count));
      CountsOnlyKeeps(items, c, templateOf);
      forall o, k { AmountApplied(items, c, o, k); }
      items := items[id := c.item];
    }

    method Delete(id: int)
      requires Ordered() && id in items
      modifies `items
      ensures Ordered() && items == old(items) - {id}
      ensures Brings(old(items), items, old(items)[id].ownerId, old(items)[id].itemId, 0 - old(items)[id].count)
    {
      CountsOnlyKeeps(items, Removed(items[id]), templateOf);
      forall o, k { AmountApplied(items, Removed(items[id]), o, k); }
      items := items - {id};
    }

    // ---------- Equipment ----------

    method GetEquippedItem(charId: int, slot: int) returns (r: Option<Item>)
      requires Ordered()
      ensures r.None? <==> !Occupied(items, charId, slot)
      ensures r.Some? ==> r.value.objectId in items && items[r.value.objectId] == r.value && r.value.In(charId, slot)
    {
      if exists id :: id in items && items[id].In(charId, slot) {
        var id :| id in items && items[id].In(charId, slot);
        return Some(items[id]);
      }
      r := None;
    }

    /** Moves an equipped item to the inventory, and whatever else may be in its slot. */
    method UnequipItem(charId: int, item: Item) returns (changed: seq<Change>)
      requires Ordered() && item.objectId in items && items[item.objectId] == item
      requires item.ownerId == charId && item.IsEquipped()
      modifies `items
      ensures Ordered() && items == Emptied(old(items), charId, {item.locData}) == Replay(old(items), changed)
      ensures Concerns(old(items), changed, charId) && PutAway(old(items), items, charId, {item.locData})
    {
      EmptiedRows(items, charId, {item.locData});
      hide TableOk;
      PaperdollOk(items, nextId, born, templateOf);
      EmptiedOne(items, charId, item.locData, item.objectId);
      UnequipSlot(charId, item.locData);
      changed := [Modified(item.Unequip())];
      ReplayOne(old(items), changed[0]);
    }

    method UnequipSlot(charId: int, slot: int)
      requires Ordered()
      modifies `items
      ensures Ordered() && items == Emptied(old(items), charId, {slot})
    {
      hide TableOk, Emptied, Conserved, OnePerSlot, HandsOk;
      EmptiedKeeps(items, charId, {slot}, templateOf);
      TableOkConserved(items, Emptied(items, charId, {slot}), nextId, born, templateOf);
      EmptiedRowByRow(items, charId, slot);
      items := map id | id in items :: if items[id].In(charId, slot) then items[id].Unequip() else items[id];
    }

    method UnequipSlotIfOccupied(charId: int, slot: int) returns (changed: seq<Change>)
      requires Ordered() && slot >= 0
      modifies `items
      ensures Ordered() && items == Emptied(old(items), charId, {slot}) == Replay(old(items), changed)
      ensures Concerns(old(items), changed, charId)
    {
      var existing := GetEquippedItem(charId, slot);
      if existing.None? {
        EmptiedNone(items, charId, {slot});
        items := items;
        return [];
      }
      changed := UnequipItem(charId, existing.value);
    }

    method UnequipBoth(charId: int, first: int, second: int) returns (changed: seq<Change>)
      requires Ordered() && first >= 0 && second >= 0
      modifies `items
      ensures Ordered() && items == Emptied(old(items), charId, {first, second}) == Replay(old(items), changed)
      ensures Concerns(old(items), changed, charId)
    {
      ghost var was := items;
      changed := UnequipSlotIfOccupied(charId, first);
      var more := UnequipSlotIfOccupied(charId, second);
      EmptiedAgain(was, charId, {first}, {second});
      assert {first} + {second} == {first, second};
      ReplayConcat(was, changed, more);
      ConcernsConcat(was, changed, more, charId);
      changed := changed + more;
    }

    /** The primary slot, unless it is taken and the other one is free. */
    method FindDualSlot(charId: int, code: int, primary: int) returns (slot: int)
      requires Ordered() && IsDualSlot(code) && BodyPartToPaperdollSlot(code) == Some(primary)
      ensures slot == TargetSlot(items, charId, code)
    {
      var first := GetEquippedItem(charId, primary);
      if first.None? { return primary; }
      var second := GetEquippedItem(charId, SecondarySlot(code));
      if second.None? { return SecondarySlot(code); }
      slot := primary;
    }

    /** Whether the right hand holds a two-handed weapon. */
    method HasTwoHanded(charId: int) returns (r: bool)
      requires Ordered()
      ensures r == HoldsTwoHanded(items, charId, templateOf)
    {
      var held := GetEquippedItem(charId, R_HAND);
      if held.None? { return false; }
      r := TwoHanded(templateOf, held.value);
      assert forall id :: id in items && items[id].In(charId, R_HAND) ==> id == held.value.objectId;
    }

    /** Empties the slots an item conflicts with. */
    method ClearConflicts(charId: int, code: int, primary: int) returns (changed: seq<Change>, target: int)
      requires Ordered() && BodyPartToPaperdollSlot(code) == Some(primary)
      modifies `items
      ensures Ordered() && target == TargetSlot(old(items), charId, code)
      ensures items == Emptied(old(items), charId, ConflictSlots(old(items), charId, code, templateOf))
      ensures items == Replay(old(items), changed)
      ensures Concerns(old(items), changed, charId)
    {
      target := primary;
      if IsTwoHanded(code) {
        changed := UnequipBoth(charId, L_HAND, R_HAND);
      } else if IsFullArmor(code) {
        changed := UnequipBoth(charId, LEGS, CHEST);
      } else if IsDualSlot(code) {
        target := FindDualSlot(charId, code, primary);
        changed := UnequipSlotIfOccupied(charId, target);
      } else {
        var both := false;
        if target == L_HAND { both := HasTwoHanded(charId); }
        if both {
          changed := UnequipBoth(charId, R_HAND, L_HAND);
        } else {
          changed := UnequipSlotIfOccupied(charId, target);
        }
      }
    }

    /** Equips an item of the character; fails on a body part that has no slot. */
    method EquipItem(charId: int, item: Item, template: Template) returns (r: Option<seq<Change>>)
      requires Ordered() && item.objectId in items && items[item.objectId] == item && !item.IsEquipped()
      requires item.ownerId == charId && templateOf(item.itemId) == Some(template)
      modifies `items
      ensures Ordered() && (r.None? <==> BodyPartToPaperdollSlot(template.bodyPart).None?)
      ensures r.None? ==> items == old(items)
      ensures r.Some? ==> items == Equipped(old(items), charId, item.objectId, template.bodyPart, templateOf)
      ensures r.Some? ==>
        && items[item.objectId] == item.(loc := Paperdoll, locData := TargetSlot(old(items), charId, template.bodyPart))
        && PutAway(old(items), items[item.objectId := item], charId,
                   ConflictSlots(old(items), charId, template.bodyPart, templateOf))
      ensures r.Some? ==> items == Replay(old(items), r.value) && Concerns(old(items), r.value, charId)
    {
      var primary := BodyPartToPaperdollSlot(template.bodyPart);
      if primary.None? { items := items; return None; }
      ghost var was := items;
      EquippedKeeps(was, charId, item.objectId, template.bodyPart, templateOf);
      EmptiedRows(was, charId, ConflictSlots(was, charId, template.bodyPart, templateOf));
      var changed, target := ClearConflicts(charId, template.bodyPart, primary.value);
      var put := [Modified(item.Equip(target))];
      ReplayOne(items, put[0]);
      ReplayConcat(was, changed, put);
      ConcernsConcat(was, changed, put, charId);
      items := items[item.objectId := item.Equip(target)];
      changed := changed + put;
      r := Some(changed);
    }

    /** Takes off what is in the slot of a body part. */
    method UnequipBySlot(charId: int, code: int) returns (r: Option<seq<Change>>)
      requires Ordered()
      modifies `items
      ensures Ordered()
      ensures r.Some? <==>
        BodyPartToPaperdollSlot(code).Some? && Occupied(old(items), charId, BodyPartToPaperdollSlot(code).value)
      ensures items == if r.None?
        then old(items) else Emptied(old(items), charId, {BodyPartToPaperdollSlot(code).value})
      ensures Conserved(old(items), items)
      ensures r.Some? ==> items == Replay(old(items), r.value) && Concerns(old(items), r.value, charId)
      ensures r.Some? ==> PutAway(old(items), items, charId, {BodyPartToPaperdollSlot(code).value})
    {
      var slot := BodyPartToPaperdollSlot(code);
      items := items;
      if slot.None? { return None; }
      var item := GetEquippedItem(charId, slot.value);
      if item.None? { return None; }
      EmptiedKeeps(items, charId, {slot.value}, templateOf);
      var changed := UnequipItem(charId, item.value);
      r := Some(changed);
    }

    // ---------- Uses ----------

    /** The remaining cooldown that holds a use back, or zero. */
    method CoolingFor(charId: int, objectId: int, t: Template, now: Time) returns (rem: Time)
      requires reuse.Valid() && Consistent(Log(charId)) && t.reuseDelay > 0
      ensures rem >= 0 && (rem > 0 <==> !Ready(Log(charId), t, objectId, now))
    {
      rem := reuse.RemainingByItem(charId, objectId, now);
      var byGroup := reuse.RemainingByGroup(charId, t.reuseGroup, now);
      ReadyByStamps(Log(charId), t, objectId, now, byGroup);
      if rem > 0 { return; }
      rem := byGroup;
    }

    /** Arms the cooldown of a consumable that was used, even if that used it up. */
    method Arm(charId: int, objectId: int, t: Template, at: Time)
      requires Cooled() && objectId in born && templateOf(born[objectId]) == Some(t) && t.bodyPart == 0
      requires forall u :: u in Log(charId) ==> u.at <= at
      modifies reuse
      ensures Cooled() && reuse.uses == Armed(old(reuse.uses), charId, t, objectId, at)
    {
      if t.reuseDelay <= 0 { return; }
      reuse.Add(charId, objectId, t.reuseGroup, Delay(t), at);
      forall c ensures FromTemplates(born, templateOf, Log(c)) && Timely(Log(c)) {
        assert old(FromTemplates(born, templateOf, Log(c)) && Timely(Log(c)));
      }
    }

    /** Takes units off a stack, and deletes it when none are left. */
    method Consume(objectId: int, units: nat) returns (c: Change)
      requires Ordered() && objectId in items && 1 <= units <= items[objectId].count
      modifies `items
      ensures Ordered() && c == Taken(old(items)[objectId], units) && items == Applied(old(items), c)
      ensures Brings(old(items), items, old(items)[objectId].ownerId, old(items)[objectId].itemId, 0 - units)
    {
      var item := items[objectId];
      if item.count - units <= 0 {
        Delete(objectId);
        c := Removed(item.(count := 0));
      } else {
        c := SetCount(objectId, item.count - units);
      }
    }

    /** The largest stack in the inventory that more units can join. */
    method FindStackableItem(charId: int, itemId: int) returns (r: Option<int>)
      requires Ordered()
      ensures r.None? ==> forall j :: j in items ==> !Joinable(items[j], charId, itemId)
      ensures r.Some? ==> IsLargestStack(items, r.value, charId, itemId)
    {
      r := None;
      var todo := items.Keys;
      while todo != {}
        invariant todo <= items.Keys
        invariant r.None? ==> forall j :: j in items.Keys - todo ==> !Joinable(items[j], charId, itemId)
        invariant r.Some? ==> r.value in items && Joinable(items[r.value], charId, itemId)
        invariant r.Some? ==> forall j :: j in items.Keys - todo && Joinable(items[j], charId, itemId) ==>
          items[j].count <= items[r.value].count
        decreases |todo|
      {
        ghost var next := Pick(todo);
        var id :| id in todo;
        todo := todo - {id};
        if IsStack(items[id], charId, itemId) && (r.None? || items[r.value].count < items[id].count) { r := Some(id); }
      }
      if r.None? {
        forall j | j in items ensures !Joinable(items[j], charId, itemId) { assert j in items.Keys - todo; }
      } else {
        forall j | j in items && Joinable(items[j], charId, itemId) ensures items[j].count <= items[r.value].count {
          assert j in items.Keys - todo;
        }
      }
    }

    /** A stackable reward joins the largest stack or makes a new one; others become separate items. */
    method GiveReward(charId: int, reward: Reward) returns (changed: seq<Change>)
      requires Ordered()
      modifies `items, `nextId, `born
      ensures Ordered() && Grown(old(born), born)
      ensures Granted(old(items), templateOf, charId, reward, changed) && items == Replay(old(items), changed)
      ensures Concerns(old(items), changed, charId) && Numbered(changed, old(nextId), nextId)
      ensures Brings(old(items), items, charId, reward.itemId, reward.amount)
    {
      changed := [];
      items, nextId, born := items, nextId, born;
      if reward.amount == 0 { return; }
      if Stackable(templateOf, reward.itemId) {
        var existing := FindStackableItem(charId, reward.itemId);
        var c;
        if existing.Some? {
          c := SetCount(existing.value, items[existing.value].count + reward.amount);
        } else {
          c := Create(charId, reward.itemId, reward.amount);
        }
        ReplayOne(old(items), c);
        changed := [c];
      } else {
        changed := CreateUnits(charId, reward.itemId, reward.amount);
      }
    }

    method CreateUnits(charId: int, itemId: int, n: nat) returns (changed: seq<Change>)
      requires Ordered()
      modifies `items, `nextId, `born
      ensures Ordered() && Grown(old(born), born) && |changed| == n
      ensures forall k :: 0 <= k < n ==> changed[k] == Added(Fresh(changed[k].item.objectId, charId, itemId, 1))
      ensures items == Replay(old(items), changed) && Concerns(old(items), changed, charId)
      ensures Numbered(changed, old(nextId), nextId)
      ensures Brings(old(items), items, charId, itemId, n)
    {
      hide TableOk, Brings, Replay, Concerns, Numbered;
      changed := [];
      NoChange(items, charId, nextId);
      BringsNothing(items, charId, itemId);
      items, nextId, born := items, nextId, born;
      for i := 0 to n
        invariant Ordered() && Grown(old(born), born) && |changed| == i
        invariant forall k :: 0 <= k < i ==> changed[k] == Added(Fresh(changed[k].item.objectId, charId, itemId, 1))
        invariant items == Replay(old(items), changed) && Concerns(old(items), changed, charId)
        invariant Numbered(changed, old(nextId), nextId)
        invariant Brings(old(items), items, charId, itemId, i)
      {
        ghost var mid, low := items, nextId;
        var c := Create(charId, itemId, 1);
        BringsMore(old(items), mid, items, charId, itemId, i, 1);
        NumberedConcat(changed, [c], old(nextId), low, nextId);
        NewItem(mid, c, low, nextId);
        ReplayConcat(old(items), changed, [c]);
        ConcernsConcat(old(items), changed, [c], charId);
        changed := changed + [c];
      }
    }

    method GiveRewards(charId: int, rewards: seq<Reward>) returns (changed: seq<Change>)
      requires Ordered()
      modifies `items, `nextId, `born
      ensures Ordered() && Grown(old(born), born)
      ensures AllGranted(old(items), templateOf, charId, rewards, changed) && items == Replay(old(items), changed)
      ensures Concerns(old(items), changed, charId) && Numbered(changed, old(nextId), nextId)
      ensures BringsAll(old(items), items, charId, rewards)
    {
      hide TableOk, Granted, AllGranted, Replay, Concerns, Numbered, BringsAll, Brings;
      changed := [];
      NoChange(items, charId, nextId);
      NothingGranted(items, templateOf, charId);
      assert rewards[..0] == [];
      items, nextId, born := items, nextId, born;
      for i := 0 to |rewards|
        invariant Ordered() && Grown(old(born), born)
        invariant AllGranted(old(items), templateOf, charId, rewards[..i], changed)
        invariant items == Replay(old(items), changed)
        invariant Concerns(old(items), changed, charId) && Numbered(changed, old(nextId), nextId)
        invariant BringsAll(old(items), items, charId, rewards[..i])
      {
        ghost var mid, low := items, nextId;
        var more := GiveReward(charId, rewards[i]);
        GrantedMore(old(items), templateOf, charId, rewards, i, changed, more);
        ReplayConcat(old(items), changed, more);
        ConcernsConcat(old(items), changed, more, charId);
        NumberedConcat(changed, more, old(nextId), low, nextId);
        BringsAllMore(old(items), mid, items, charId, rewards, i);
        changed := changed + more;
      }
      assert rewards[..|rewards|] == rewards;
    }

    /** What a consuming handler does: takes the units, then gives the rewards. */
    method Handle(charId: int, item: Item, handler: Handler) returns (changed: seq<Change>)
      requires Ordered() && item.objectId in items && items[item.objectId] == item && item.ownerId == charId
      requires handler.Consuming? && 1 <= handler.units <= item.count
      modifies `items, `nextId, `born
      ensures Ordered() && Grown(old(born), born)
      ensures Consumed(old(items), templateOf, charId, item.objectId, handler, changed)
      ensures items == Replay(old(items), changed) && Concerns(old(items), changed, charId)
      ensures Numbered(changed, old(nextId), nextId)
      ensures item.objectId in born && born[item.objectId] == item.itemId && (old(Cooled()) ==> Cooled())
      ensures Balanced(old(items), items, [Entry(charId, item.objectId, item.itemId, handler.units, handler.rewards)])
    {
      var c := Consume(item.objectId, handler.units);
      ghost var mid := items;
      ReplayOne(old(items), c);
      var more := GiveRewards(charId, handler.rewards);
      changed := [c] + more;
      assert changed[1..] == more;
      ReplayConcat(old(items), [c], more);
      ConcernsConcat(old(items), [c], more, charId);
      NumberedConcat([c], more, old(nextId), old(nextId), nextId);
      if old(Cooled()) { BornMore(old(born), born); }
    }

    /** A non-equipment item goes to its handler, and arms its cooldown when the handler consumed it. */
    method UseNonEquipItem(charId: int, item: Item, t: Template, handler: Handler, at: Time) returns (r: UseResult)
      requires Ordered() && Cooled() && item.objectId in items && items[item.objectId] == item && item.ownerId == charId
      requires templateOf(item.itemId) == Some(t) && t.bodyPart == 0
      requires forall u :: u in Log(charId) ==> u.at <= at
      modifies `items, `nextId, `born, reuse
      ensures Ordered() && Cooled() && Grown(old(born), born)
      ensures VerdictOf(r) == Forked(item, t, handler) && (r.Refused? ==> !r.why.Reuse?)
      ensures if r.Used?
        then Did(old(items), items, templateOf, charId, item.objectId, handler, r.changed) else items == old(items)
      ensures r.Used? ==> Numbered(r.changed, old(nextId), nextId)
      ensures reuse.uses == if r.Used? then Armed(old(reuse.uses), charId, t, item.objectId, at) else old(reuse.uses)
      ensures Balanced(old(items), items, if r.Used?
        then Booked(t, charId, item.objectId, item.itemId, handler) else [])
    {
      hide TableOk, Cooled, Balanced, Consumed, Concerns, Numbered, Armed;
      NothingBooked(items);
      items, nextId, born := items, nextId, born;
      match handler
      case NoHandler => r := Refused(NothingDone);
      case Failing => r := Failed("item handler failed");
      case Declining => r := Refused(NothingDone);
      case Consuming(units, _) =>
        if !(1 <= units <= item.count) { return Refused(NothingDone); }
        var changed := Handle(charId, item, handler);
        Arm(charId, item.objectId, t, at);
        r := Used(changed);
    }

    /** New instances do not touch cooldowns. */
    lemma BornMore(before: map<int, int>, after: map<int, int>)
      requires Grown(before, after)
      requires reuse.Valid() && forall c :: FromTemplates(before, templateOf, Log(c)) && Timely(Log(c))
      ensures forall c :: FromTemplates(after, templateOf, Log(c)) && Timely(Log(c))
    {
      forall c ensures FromTemplates(after, templateOf, Log(c)) && Timely(Log(c)) {
        assert FromTemplates(before, templateOf, Log(c)) && Timely(Log(c));
      }
    }

    /** Puts an item on, or takes it off. */
    method ToggleEquipped(charId: int, item: Item, t: Template, ghost handler: Handler) returns (r: UseResult)
      requires Ordered() && item.objectId in items && items[item.objectId] == item
      requires item.ownerId == charId && templateOf(item.itemId) == Some(t) && t.bodyPart != 0
      modifies `items
      ensures Ordered() && VerdictOf(r) == Forked(item, t, handler) && !r.Refused?
      ensures if r.Used?
        then Did(old(items), items, templateOf, charId, item.objectId, handler, r.changed) else items == old(items)
      ensures Balanced(old(items), items, if r.Used?
        then Booked(t, charId, item.objectId, item.itemId, handler) else [])
    {
      hide TableOk;
      PaperdollOk(items, nextId, born, templateOf);
      if item.IsEquipped() {
        EmptiedKeeps(items, charId, {item.locData}, templateOf);
        var changed := UnequipItem(charId, item);
        r := Used(changed);
      } else {
        if BodyPartToPaperdollSlot(t.bodyPart).Some? {
          EquippedKeeps(items, charId, item.objectId, t.bodyPart, templateOf);
        }
        var changed := EquipItem(charId, item, t);
        r := if changed.None? then Failed("cannot determine paperdoll slot") else Used(changed.value);
      }
      ConservedBalanced(old(items), items);
    }

    /** The guards that come before the fork between equipment and other items. */
    method Guard(charId: int, objectId: int, dead: bool, now: Time, ghost handler: Handler)
      returns (r: UseResult, t: Template)
      requires reuse.Valid() && Consistent(Log(charId))
      ensures if r == Refused(NothingDone)
        then Passes(items, templateOf, Log(charId), charId, objectId, dead, now, t)
        else !r.Used? && VerdictOf(r) == Judged(items, templateOf, Log(charId), charId, objectId, dead, now, handler)
      ensures r.Refused? && r.why.Reuse? ==> r.why.remaining > 0
    {
      t := Template(0, false, 0, 0, false);
      if objectId !in items { return Failed("item not found"), t; }
      var item := items[objectId];
      if item.ownerId != charId { return Failed("item does not belong to character"), t; }
      if templateOf(item.itemId).None? { return Refused(NoTemplate), t; }
      t := templateOf(item.itemId).value;
      if t.quest { return Refused(QuestItem), t; }
      if dead { return Refused(DeadActor), t; }
      if t.reuseDelay > 0 {
        var rem := CoolingFor(charId, objectId, t, now);
        if rem > 0 { return Refused(Reuse(rem)), t; }
      }
      r := Refused(NothingDone);
    }

    /** Double-click on an item: what becomes of it, where the items are then, and what the client is told. */
    method UseItem(charId: int, objectId: int, dead: bool, now: Time, handler: Handler, at: Time) returns (r: UseResult)
      requires Ordered() && Cooled() && LoggedBy(reuse.uses, now) && now <= at
      modifies `items, `nextId, `born, reuse
      ensures Ordered() && Cooled() && Grown(old(born), born)
      ensures VerdictOf(r) == Judged(old(items), templateOf, old(Log(charId)), charId, objectId, dead, now, handler)
      ensures r.Used? ==> objectId in old(items) && templateOf(old(items)[objectId].itemId).Some?
      ensures if r.Used?
        then Did(old(items), items, templateOf, charId, objectId, handler, r.changed) else items == old(items)
      ensures r.Used? && templateOf(old(items)[objectId].itemId).value.bodyPart == 0 ==>
        Numbered(r.changed, old(nextId), nextId)
      ensures reuse.uses == if r.Used?
        then Armed(old(reuse.uses), charId, templateOf(old(items)[objectId].itemId).value, objectId, at)
        else old(reuse.uses)
      ensures Balanced(old(items), items, if r.Used?
        then
          var itemId := old(items)[objectId].itemId;
          Booked(templateOf(itemId).value, charId, objectId, itemId, handler)
        else [])
      ensures r.Refused? && r.why.Reuse? ==> r.why.remaining > 0
    {
      hide TableOk, Did, Balanced;
      var t;
      TimelyConsistent(born, templateOf, Log(charId));
      r, t := Guard(charId, objectId, dead, now, handler);
      if r != Refused(NothingDone) {
        NothingBooked(items);
        items, nextId, born := items, nextId, born;
        return;
      }
      r := Dispatch(charId, objectId, t, handler, at);
    }

    method Dispatch(charId: int, objectId: int, t: Template, handler: Handler, at: Time) returns (r: UseResult)
      requires Ordered() && Cooled() && forall u :: u in Log(charId) ==> u.at <= at
      requires objectId in items && items[objectId].ownerId == charId && templateOf(items[objectId].itemId) == Some(t)
      modifies `items, `nextId, `born, reuse
      ensures Ordered() && Cooled() && Grown(old(born), born)
      ensures VerdictOf(r) == Forked(old(items)[objectId], t, handler) && (r.Refused? ==> !r.why.Reuse?)
      ensures if r.Used?
        then Did(old(items), items, templateOf, charId, objectId, handler, r.changed) else items == old(items)
      ensures r.Used? && t.bodyPart == 0 ==> Numbered(r.changed, old(nextId), nextId)
      ensures reuse.uses == if r.Used? then Armed(old(reuse.uses), charId, t, objectId, at) else old(reuse.uses)
      ensures Balanced(old(items), items, if r.Used?
        then Booked(t, charId, objectId, old(items)[objectId].itemId, handler) else [])
    {
      hide TableOk, Cooled, Balanced, Armed, Did;
      if t.bodyPart == 0 {
        r := UseNonEquipItem(charId, items[objectId], t, handler, at);
      } else {
        items, nextId, born := items, nextId, born;
        r := ToggleEquipped(charId, items[objectId], t, handler);
        NothingArmed(reuse.uses, charId, t, objectId, at);
      }
    }

    // ---------- Runs ----------

    /** A use within a run, with what it enters in the books. */
    method UseSpaced(charId: int, objectId: int, dead: bool, now: Time, handler: Handler, at: Time)
      returns (changed: seq<Change>, ledger: seq<Entry>)
      requires Ordered() && Cooled() && AllSpaced(reuse.uses) && LoggedBy(reuse.uses, now) && now <= at
      modifies `items, `nextId, `born, reuse
      ensures Ordered() && Cooled() && AllSpaced(reuse.uses) && LoggedBy(reuse.uses, at)
      ensures items == Replay(old(items), changed) && Concerns(old(items), changed, charId)
      ensures Balanced(old(items), items, ledger)
      ensures forall e :: e in ledger ==> MadeBy(e, UseAct(charId, objectId, dead, now, handler, at))
      ensures ledger == [] ==> Conserved(old(items), items)
      ensures ActDone(templateOf, UseAct(charId, objectId, dead, now, handler, at), old(Standing()), Standing(),
                      changed)
    {
      hide TableOk, Cooled;
      ghost var was := reuse.uses;
      var t := if objectId in items then templateOf(items[objectId].itemId) else None;
      var itemId := if objectId in items then items[objectId].itemId else 0;
      var r := UseItem(charId, objectId, dead, now, handler, at);
      changed, ledger := [], [];
      if r.Used? {
        changed, ledger := r.changed, Booked(t.value, charId, objectId, itemId, handler);
        SpacedMore(was, charId, t.value, objectId, now, at);
      }
    }

    method Relog(charId: int)
      requires Cooled()
      modifies reuse
      ensures Cooled() && reuse.uses == old(reuse.uses) - {charId}
    {
      reuse.Clear(charId);
      forall c ensures FromTemplates(born, templateOf, Log(c)) && Timely(Log(c)) {
        assert old(FromTemplates(born, templateOf, Log(c)) && Timely(Log(c)));
      }
    }

    /** One request of a client, or a relog; what the client is told of changed items, and what goes into the books. */
    method Perform(a: Action) returns (changed: seq<Change>, ledger: seq<Entry>)
      requires Ordered() && Cooled() && AllSpaced(reuse.uses) && LoggedBy(reuse.uses, a.now)
      requires a.UseAct? ==> a.now <= a.at
      modifies `items, `nextId, `born, reuse
      ensures Ordered() && Cooled() && AllSpaced(reuse.uses) && LoggedBy(reuse.uses, a.Last())
      ensures items == Replay(old(items), changed) && Concerns(old(items), changed, a.charId)
      ensures Balanced(old(items), items, ledger)
      ensures forall e :: e in ledger ==> MadeBy(e, a)
      ensures ledger == [] ==> Conserved(old(items), items)
      ensures ActDone(templateOf, a, old(Standing()), Standing(), changed)
    {
      hide TableOk, Cooled, Did;
      changed, ledger := [], [];
      items, nextId, born := items, nextId, born;
      match a
      case UseAct(charId, objectId, dead, now, handler, at) =>
        changed, ledger := UseSpaced(charId, objectId, dead, now, handler, at);
      case UnequipAct(charId, now, code) =>
        var r := UnequipBySlot(charId, code);
        if r.Some? { changed := r.value; }
        forall o, k { AmountConserved(old(items), items, o, k); }
      case RelogAct(charId, _) =>
        Relog(charId);
        SpacedLess(old(reuse.uses), charId, a.now);
    }

    /**
     Over every run of requests, in the order of time: the paperdoll stays in order, uses stay spaced by their
     cooldowns, and a client that takes over what it is told has exactly its character's items. Every character
     has, of every item, what it had, less the units it consumed, plus the rewards for them; if nothing was
     consumed, each single item is what it was but for its place.
     */
    method Run(actions: seq<Action>, watched: int, clock: Time)
      returns (told: seq<Change>, ledger: seq<Entry>, ghost trace: seq<Stand>, ghost tells: seq<seq<Change>>)
      requires Ordered() && Cooled() && AllSpaced(reuse.uses) && LoggedBy(reuse.uses, clock) && InTime(clock, actions)
      modifies `items, `nextId, `born, reuse
      ensures Ordered() && Cooled() && AllSpaced(reuse.uses)
      ensures Owned(items, watched) == Replay(Owned(old(items), watched), told)
      ensures Balanced(old(items), items, ledger)
      ensures forall e :: e in ledger ==> exists a :: a in actions && MadeBy(e, a)
      ensures ledger == [] ==> Conserved(old(items), items)
      ensures ActsDone(templateOf, actions, trace, tells)
      ensures trace[0] == old(Standing()) && trace[|actions|] == Standing()
      decreases |actions|
    {
      hide TableOk, Cooled, AllSpaced, ActDone;
      told, ledger, trace, tells := [], [], [Standing()], [];
      items, nextId, born := items, nextId, born;
      if actions == [] { return; }
      var a := actions[0];
      assert LoggedBy(reuse.uses, a.now);
      ghost var was := items;
      var changed, entries := Perform(a);
      var rest, more;
      rest, more, trace, tells := Run(actions[1..], watched, a.Last());
      FirstActDone(templateOf, actions, old(Standing()), trace, changed, tells);
      trace, tells := [old(Standing())] + trace, [changed] + tells;
      ledger := entries + more;
      forall o, k { BalanceConcat(entries, more, o, k); }
      if a.charId == watched {
        ReplayOwned(was, changed, watched);
        ReplayConcat(Owned(was, watched), changed, rest);
        told := changed + rest;
      } else {
        OthersUntouched(was, changed, a.charId, watched);
        told := rest;
      }
    }
  }
}
