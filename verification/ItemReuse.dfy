/** Reuse cooldowns by character and item instance. */
module ItemReuse {
  import opened Events
  import opened Wrappers

  datatype Stamp = Stamp(end: Time, total: Time, group: int)

  /** A use that armed a cooldown. */
  datatype Use = Use(objectId: int, group: int, delay: Time, at: Time)

  function StampFor(u: Use): Stamp { Stamp(u.at + u.delay, u.delay, u.group) }

  /** The stamps a history of uses leaves: the latest use of an instance counts. */
  function StampMap(log: seq<Use>): map<int, Stamp> {
    if log == [] then map[] else StampMap(log[..|log| - 1])[log[|log| - 1].objectId := StampFor(log[|log| - 1])]
  }

  /** An instance is always of one group, and its cooldowns end in the order of its uses. */
  ghost predicate Consistent(log: seq<Use>) {
    forall i, j :: 0 <= i < j < |log| && log[i].objectId == log[j].objectId ==>
      log[i].group == log[j].group && log[i].at + log[i].delay <= log[j].at + log[j].delay
  }

  lemma {:induction false} StampedUse(log: seq<Use>, i: nat)
    requires Consistent(log) && i < |log|
    ensures var m, u := StampMap(log), log[i];
      u.objectId in m && m[u.objectId].group == u.group && u.at + u.delay <= m[u.objectId].end
  {
    if i < |log| - 1 { StampedUse(log[..|log| - 1], i); }
  }

  lemma {:induction false} UseOfStamp(log: seq<Use>, o: int) returns (i: nat)
    requires o in StampMap(log)
    ensures i < |log| && log[i].objectId == o && StampMap(log)[o] == StampFor(log[i])
  {
    if log[|log| - 1].objectId == o { i := |log| - 1; } else { i := UseOfStamp(log[..|log| - 1], o); }
  }

  function StampsOf(byChar: map<int, map<int, Stamp>>, charId: int): map<int, Stamp> {
    if charId in byChar then byChar[charId] else map[]
  }

  function LogOf(uses: map<int, seq<Use>>, charId: int): seq<Use> { if charId in uses then uses[charId] else [] }

  /** The cooldowns kept are those of the uses made, for every character. */
  ghost predicate AllStamped(byChar: map<int, map<int, Stamp>>, uses: map<int, seq<Use>>) {
    forall c :: StampsOf(byChar, c) == StampMap(LogOf(uses, c))
  }

  function Remaining(s: Stamp, now: Time): Time { s.end - now }

  /** The longest remaining cooldown of a group among some of the stamps; zero if none is left. */
  ghost predicate Longest(m: map<int, Stamp>, among: set<int>, group: int, now: Time, best: Time) {
    && best >= 0
    && (forall o :: o in m && o in among && m[o].group == group ==> Remaining(m[o], now) <= best)
    && (best > 0 ==> exists o :: o in m && m[o].group == group && Remaining(m[o], now) == best)
  }

  class Registry {
    var byChar: map<int, map<int, Stamp>>
    /** Per character, the uses that armed a cooldown since its last relog. */
    ghost var uses: map<int, seq<Use>>

    ghost predicate Valid()
      reads this
    {
      AllStamped(byChar, uses)
    }

    function Stamps(charId: int): map<int, Stamp>
      reads this
    {
      StampsOf(byChar, charId)
    }

    ghost function Log(charId: int): seq<Use>
      reads this
    {
      LogOf(uses, charId)
    }

    constructor ()
      ensures Valid() && uses == map[]
    {
      byChar, uses := map[], map[];
    }

    /** A delay that is not positive leaves no stamp. */
    method Add(charId: int, objectId: int, group: int, total: Time, now: Time)
      requires Valid()
      modifies this
      ensures Valid()
      ensures uses == if total <= 0
        then old(uses) else old(uses)[charId := old(Log(charId)) + [Use(objectId, group, total, now)]]
    {
      if total <= 0 {
        byChar, uses := byChar, uses;
        return;
      }
      ghost var u := Use(objectId, group, total, now);
      ghost var more := Log(charId) + [u];
      assert more[..|more| - 1] == Log(charId);
      var m := Stamps(charId);
      byChar := byChar[charId := m[objectId := Stamp(now + total, total, group)]];
      uses := uses[charId := more];
      forall c ensures StampsOf(byChar, c) == StampMap(LogOf(uses, c)) {
        if c != charId { assert StampsOf(old(byChar), c) == StampMap(LogOf(old(uses), c)); }
      }
    }

    method RemainingByItem(charId: int, objectId: int, now: Time) returns (rem: Time)
      ensures rem > 0 <==> objectId in Stamps(charId) && Remaining(Stamps(charId)[objectId], now) > 0
      ensures if rem > 0 then rem == Remaining(Stamps(charId)[objectId], now) else rem == 0
    {
      var m := Stamps(charId);
      if objectId !in m { return 0; }
      rem := Remaining(m[objectId], now);
      if rem <= 0 { rem := 0; }
    }

    /** The longest remaining cooldown of the group, over all of the character's items. */
    method RemainingByGroup(charId: int, group: int, now: Time) returns (best: Time)
      ensures if group <= 0 then best == 0 else Longest(Stamps(charId), Stamps(charId).Keys, group, now, best)
    {
      if group <= 0 { return 0; }
      best := 0;
      var m := Stamps(charId);
      var todo := m.Keys;
      while todo != {}
        invariant todo <= m.Keys && Longest(m, m.Keys - todo, group, now, best)
        decreases |todo|
      {
        ghost var next := Pick(todo);
        var o :| o in todo;
        todo := todo - {o};
        if m[o].group == group {
          var rem := Remaining(m[o], now);
          if rem > best { best := rem; }
        }
      }
    }

    /** A relog forgets the character's cooldowns, and so its history. */
    method Clear(charId: int)
      requires Valid()
      modifies this
      ensures Valid() && uses == old(uses) - {charId}
    {
      byChar, uses := byChar - {charId}, uses - {charId};
      forall c ensures StampsOf(byChar, c) == StampMap(LogOf(uses, c)) {
        if c != charId { assert StampsOf(old(byChar), c) == StampMap(LogOf(old(uses), c)); }
      }
    }
  }
}
