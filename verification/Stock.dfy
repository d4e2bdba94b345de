/** Numbers of items: what a consumed item takes away, and what the rewards of an extractable item bring. */
module Stock {
  import opened Items
  import opened Wrappers

  // ---------- Amounts ----------

  function CountIf(item: Item, owner: int, itemId: int): int {
    if item.ownerId == owner && item.itemId == itemId then item.count else 0
  }

  function CountAt(items: ItemTable, id: int, owner: int, itemId: int): int {
    if id in items then CountIf(items[id], owner, itemId) else 0
  }

  /** How many units of an item a character has, over all its stacks. */
  ghost function Amount(items: ItemTable, owner: int, itemId: int): int
    decreases |items.Keys|
  {
    if forall id :: id !in items then 0 else
    var id :| id in items;
    assert |(items - {id}).Keys| == |items.Keys| - 1 by { assert (items - {id}).Keys == items.Keys - {id}; }
    CountIf(items[id], owner, itemId) + Amount(items - {id}, owner, itemId)
  }

  lemma {:induction false} AmountWithout(items: ItemTable, id: int, owner: int, itemId: int)
    requires id in items
    ensures Amount(items, owner, itemId) == CountIf(items[id], owner, itemId) + Amount(items - {id}, owner, itemId)
    decreases |items.Keys|
  {
    var first :| first in items
      && Amount(items, owner, itemId) == CountIf(items[first], owner, itemId) + Amount(items - {first}, owner, itemId);
    if first != id {
      var a, b := items - {first}, items - {id};
      assert a.Keys == items.Keys - {first};
      assert b.Keys == items.Keys - {id};
      AmountWithout(a, id, owner, itemId);
      AmountWithout(b, first, owner, itemId);
      assert a - {id} == b - {first};
    }
  }

  /** A change of one item changes the amounts by its own difference. */
  lemma AmountApplied(items: ItemTable, c: Change, owner: int, itemId: int)
    ensures Amount(Applied(items, c), owner, itemId)
      == Amount(items, owner, itemId) - CountAt(items, c.item.objectId, owner, itemId)
         + (if c.Removed? then 0 else CountIf(c.item, owner, itemId))
  {
    var id, r := c.item.objectId, Applied(items, c);
    assert r - {id} == items - {id};
    if id in items { AmountWithout(items, id, owner, itemId); } else { assert items - {id} == items; }
    if id in r { AmountWithout(r, id, owner, itemId); } else { assert r - {id} == r; }
  }

  /** Moving items about changes no amount. */
  lemma {:induction false} AmountConserved(a: ItemTable, b: ItemTable, owner: int, itemId: int)
    requires Conserved(a, b)
    ensures Amount(a, owner, itemId) == Amount(b, owner, itemId)
    decreases |a.Keys|
  {
    if exists id :: id in a {
      var id :| id in a;
      AmountWithout(a, id, owner, itemId);
      AmountWithout(b, id, owner, itemId);
      assert (a - {id}).Keys == a.Keys - {id};
      AmountConserved(a - {id}, b - {id}, owner, itemId);
    }
  }

  // ---------- Consuming ----------

  /** Units taken off a stack; the stack is gone when none are left. */
  function Taken(item: Item, units: nat): Change {
    if item.count - units <= 0 then Removed(item.(count := 0)) else Modified(item.(count := item.count - units))
  }

  lemma AmountTaken(items: ItemTable, id: int, units: nat, owner: int, itemId: int)
    requires Keyed(items) && id in items && units <= items[id].count
    ensures Amount(Applied(items, Taken(items[id], units)), owner, itemId)
      == Amount(items, owner, itemId)
         - (if items[id].ownerId == owner && items[id].itemId == itemId then units else 0)
  {
    AmountApplied(items, Taken(items[id], units), owner, itemId);
  }

  // ---------- Rewards ----------

  datatype Reward = Reward(itemId: int, amount: nat)

  predicate Stackable(templateOf: int -> Option<Template>, itemId: int) {
    templateOf(itemId).Some? && templateOf(itemId).value.stackable
  }

  /** A stack in the inventory that more units of the item can join. */
  predicate IsStack(item: Item, owner: int, itemId: int) {
    item.ownerId == owner && item.itemId == itemId && item.loc == InInventory && item.plain
  }

  /** The same of its fields: a plain one of that item, of its owner's, in the inventory. */
  ghost predicate Joinable(item: Item, owner: int, itemId: int) {
    item == Item(item.objectId, owner, itemId, item.count, InInventory, item.locData, true)
  }

  ghost predicate IsLargestStack(items: ItemTable, id: int, owner: int, itemId: int) {
    && id in items && Joinable(items[id], owner, itemId)
    && forall j :: j in items && Joinable(items[j], owner, itemId) ==> items[j].count <= items[id].count
  }

  function Fresh(id: int, owner: int, itemId: int,
                 count: int): Item { Item(id, owner, itemId, count, InInventory, -1, true) }

  /** How many changes a reward makes. */
  function Width(templateOf: int -> Option<Template>, r: Reward): nat {
    if r.amount == 0 then 0 else if Stackable(templateOf, r.itemId) then 1 else r.amount
  }

  /** One stackable reward: it joins the largest stack, or is a new one if there is none. */
  ghost predicate Merged(items: ItemTable, owner: int, r: Reward, c: Change) {
    match c
    case Modified(i) =>
      && IsLargestStack(items, i.objectId, owner, r.itemId)
      && i == items[i.objectId].(count := items[i.objectId].count + r.amount)
    case Added(i) => i == Fresh(i.objectId, owner, r.itemId, r.amount) && forall j :: j in items ==>
      !Joinable(items[j], owner, r.itemId)
    case Removed(_) => false
  }

  /** The changes of one reward: of a stackable item one change, of others one new item per unit. */
  ghost predicate Granted(items: ItemTable, templateOf: int -> Option<Template>, owner: int, r: Reward,
                          changed: seq<Change>) {
    && |changed| == Width(templateOf, r)
    && forall k :: 0 <= k < |changed| ==>
         if Stackable(templateOf, r.itemId) then Merged(items, owner, r, changed[k])
         else changed[k] == Added(Fresh(changed[k].item.objectId, owner, r.itemId, 1))
  }

  /** The changes of all rewards, in their order. */
  ghost predicate AllGranted(items: ItemTable, templateOf: int -> Option<Template>, owner: int, rewards: seq<Reward>,
                             changed: seq<Change>) {
    if rewards == [] then changed == [] else
    var last, n := rewards[|rewards| - 1], |changed| - Width(templateOf, rewards[|rewards| - 1]);
    && n >= 0
    && AllGranted(items, templateOf, owner, rewards[..|rewards| - 1], changed[..n])
    && Granted(Replay(items, changed[..n]), templateOf, owner, last, changed[n..])
  }

  /** The new items have new ids: from `low` on, below `high`, in ascending order. */
  ghost predicate Numbered(changed: seq<Change>, low: int, high: int) {
    && low <= high
    && (forall k :: 0 <= k < |changed| && changed[k].Added? ==> low <= changed[k].item.objectId < high)
    && (forall j, k :: 0 <= j < k < |changed| && changed[j].Added? && changed[k].Added? ==>
          changed[j].item.objectId < changed[k].item.objectId)
  }

  lemma NoChange(items: ItemTable, owner: int, low: int)
    ensures Replay(items, []) == items && Concerns(items, [], owner) && Numbered([], low, low)
  {}

  lemma NewItem(items: ItemTable, c: Change, low: int, high: int)
    requires c.Added? && c.item.objectId !in items && low <= c.item.objectId < high
    ensures Replay(items, [c]) == Applied(items, c) && Concerns(items, [c], c.item.ownerId) && Numbered([c], low, high)
  {
    ReplayOne(items, c);
  }

  lemma NumberedConcat(a: seq<Change>, b: seq<Change>, low: int, mid: int, high: int)
    requires Numbered(a, low, mid) && Numbered(b, mid, high)
    ensures Numbered(a + b, low, high)
  {}

  /** One reward more, behind those granted so far. */
  lemma GrantedMore(items: ItemTable, templateOf: int -> Option<Template>, owner: int, rewards: seq<Reward>, n: nat,
                    changed: seq<Change>, more: seq<Change>)
    requires n < |rewards| && AllGranted(items, templateOf, owner, rewards[..n], changed)
    requires Granted(Replay(items, changed), templateOf, owner, rewards[n], more)
    ensures AllGranted(items, templateOf, owner, rewards[..n + 1], changed + more)
  {
    var upTo := rewards[..n + 1];
    assert upTo[..|upTo| - 1] == rewards[..n];
    assert (changed + more)[..|changed|] == changed && (changed + more)[|changed|..] == more;
  }

  /** The units of one item among the rewards. */
  function Rewarded(rewards: seq<Reward>, itemId: int): nat {
    if rewards == [] then 0 else
    var last := rewards[|rewards| - 1];
    Rewarded(rewards[..|rewards| - 1], itemId) + if last.itemId == itemId then last.amount else 0
  }

  // ---------- The books ----------

  /** A use that consumed: so many units of an item, for these rewards. */
  datatype Entry = Entry(charId: int, objectId: int, itemId: int, units: nat, rewards: seq<Reward>) {
    function Gain(owner: int, item: int): int {
      if owner != charId then 0 else Rewarded(rewards, item) - if item == itemId then units else 0
    }
  }

  function Balance(ledger: seq<Entry>, owner: int, itemId: int): int {
    if ledger == [] then 0 else ledger[0].Gain(owner, itemId) + Balance(ledger[1..], owner, itemId)
  }

  lemma {:induction false} BalanceConcat(a: seq<Entry>, b: seq<Entry>, owner: int, itemId: int)
    ensures Balance(a + b, owner, itemId) == Balance(a, owner, itemId) + Balance(b, owner, itemId)
  {
    if a == [] {
      assert a + b == b;
    } else {
      assert (a + b)[1..] == a[1..] + b;
      BalanceConcat(a[1..], b, owner, itemId);
    }
  }

  /** One character has so many units more of one item, and nothing else has changed in number. */
  ghost predicate Brings(before: ItemTable, after: ItemTable, owner: int, itemId: int, n: int) {
    forall o, k :: Amount(after, o, k) == Amount(before, o, k) + if o == owner && k == itemId then n else 0
  }

  ghost predicate BringsAll(before: ItemTable, after: ItemTable, owner: int, rewards: seq<Reward>) {
    forall o, k :: Amount(after, o, k) == Amount(before, o, k) + if o == owner then Rewarded(rewards, k) else 0
  }

  /** The amounts have changed by exactly what is in the books. */
  ghost predicate Balanced(before: ItemTable, after: ItemTable, ledger: seq<Entry>) {
    forall o, k :: Amount(after, o, k) == Amount(before, o, k) + Balance(ledger, o, k)
  }

  lemma BringsNothing(items: ItemTable, owner: int, itemId: int)
    ensures Brings(items, items, owner, itemId, 0)
  {}

  lemma BringsMore(a: ItemTable, b: ItemTable, c: ItemTable, owner: int, itemId: int, m: int, n: int)
    requires Brings(a, b, owner, itemId, m) && Brings(b, c, owner, itemId, n)
    ensures Brings(a, c, owner, itemId, m + n)
  {}

  lemma NothingGranted(items: ItemTable, templateOf: int -> Option<Template>, owner: int)
    ensures AllGranted(items, templateOf, owner, [], []) && BringsAll(items, items, owner, [])
  {
    forall k: int ensures Rewarded([], k) == 0 {}
  }

  lemma BringsAllMore(a: ItemTable, b: ItemTable, c: ItemTable, owner: int, rewards: seq<Reward>, n: nat)
    requires n < |rewards| && BringsAll(a, b, owner, rewards[..n])
    requires Brings(b, c, owner, rewards[n].itemId, rewards[n].amount)
    ensures BringsAll(a, c, owner, rewards[..n + 1])
  {
    assert rewards[..n + 1][..n] == rewards[..n];
  }

  lemma NothingBooked(items: ItemTable)
    ensures Balanced(items, items, [])
  {}

  lemma ConservedBalanced(a: ItemTable, b: ItemTable)
    requires Conserved(a, b)
    ensures Balanced(a, b, [])
  {
    forall o, k { AmountConserved(a, b, o, k); }
  }

  // ---------- Steps on the table ----------

  /** The item table as the database keeps it: by key, counts positive, ids below the next one. */
  ghost predicate Stocked(items: ItemTable, nextId: int) {
    forall id :: id in items ==> items[id].objectId == id && items[id].count > 0 && id < nextId
  }

  /** A change of numbers only: a count, a new item in the inventory, or one item gone. */
  ghost predicate CountsOnly(items: ItemTable, c: Change) {
    match c
    case Added(i) => i.objectId !in items && i.loc == InInventory
    case Modified(i) => i.objectId in items && i == items[i.objectId].(count := i.count)
    case Removed(_) => true
  }

  lemma CountsOnlyKeeps(items: ItemTable, c: Change, templateOf: int -> Option<Template>)
    requires OnePerSlot(items) && HandsOk(items, templateOf) && CountsOnly(items, c)
    ensures OnePerSlot(Applied(items, c)) && HandsOk(Applied(items, c), templateOf)
  {
    PaperdollKept(items, Applied(items, c), templateOf);
  }
}
