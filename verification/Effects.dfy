/** A character's active effects: the stacking rules, and expiry as an in-place filter. */
module Effects {
  import opened Events
  import opened Wrappers

  datatype Modifier = Modifier(stat: string, op: string, val: real)

  datatype TickKind = TickNone | TickHP | TickMP

  datatype Tick = Tick(kind: TickKind, power: int, intervalSec: int, fatal: bool)

  datatype Buff = Buff(
    skillId: int, abnormalType: string, abnormalLvl: int,
    mods: seq<Modifier>, ticks: seq<Tick>, expiresAt: Option<Time>, nextTick: Option<Time>)
  {
    /** The type "NONE", and no type at all, stack freely. */
    predicate Typed() { abnormalType != "" && abnormalType != "NONE" }

    predicate ExpiredBy(now: Time) { expiresAt.Some? && now >= expiresAt.value }
  }

  // ---------- The list as a value ----------

  /** No two active effects share a skill, or a type. */
  ghost predicate Stacked(s: seq<Buff>) {
    forall i, j :: 0 <= i < j < |s| ==>
      s[i].skillId != s[j].skillId && !(s[i].Typed() && s[i].abnormalType == s[j].abnormalType)
  }

  function Filter(s: seq<Buff>, p: Buff -> bool): (r: seq<Buff>)
    ensures |r| <= |s|
    ensures forall b :: b in r <==> b in s && p(b)
  {
    if s == [] then []
    else if p(s[|s| - 1]) then Filter(s[..|s| - 1], p) + [s[|s| - 1]]
    else Filter(s[..|s| - 1], p)
  }

  function Unexpired(s: seq<Buff>, now: Time): seq<Buff> { Filter(s, (b: Buff) => !b.ExpiredBy(now)) }

  function Expired(s: seq<Buff>, now: Time): seq<Buff> { Filter(s, (b: Buff) => b.ExpiredBy(now)) }

  function WithoutSkill(s: seq<Buff>, skillId: int): seq<Buff> { Filter(s, (b: Buff) => b.skillId != skillId) }

  function WithoutType(s: seq<Buff>, t: string): seq<Buff> { Filter(s, (b: Buff) => b.abnormalType != t) }

  /** A stronger effect of the same type, other than the one a recast refreshes, stands in the way. */
  predicate Blocked(s: seq<Buff>, b: Buff) {
    b.abnormalType !in {"", "NONE"} &&
    exists c :: c in s && c.skillId != b.skillId && c.abnormalType == b.abnormalType && c.abnormalLvl > b.abnormalLvl
  }

  /** The list after an attempt to add an effect: a blocked one still displaces its own former instance. */
  function Added(s: seq<Buff>, b: Buff): seq<Buff> {
    if Blocked(s, b) then WithoutSkill(s, b.skillId)
    else if b.abnormalType !in {"", "NONE"} then WithoutType(WithoutSkill(s, b.skillId), b.abnormalType) + [b]
    else WithoutSkill(s, b.skillId) + [b]
  }

  function Mods(s: seq<Buff>): seq<Modifier> {
    if s == [] then [] else Mods(s[..|s| - 1]) + s[|s| - 1].mods
  }

  lemma {:induction false} FilterStacked(s: seq<Buff>, p: Buff -> bool)
    requires Stacked(s)
    ensures Stacked(Filter(s, p))
  {
    if s != [] {
      var front, last := s[..|s| - 1], s[|s| - 1];
      FilterStacked(front, p);
      var r := Filter(front, p);
      forall i | 0 <= i < |r|
        ensures r[i].skillId != last.skillId && !(r[i].Typed() && r[i].abnormalType == last.abnormalType)
      {
        assert r[i] in front;
      }
    }
  }

  /** Adding keeps the stacking rule, whether the effect is taken or not. */
  lemma AddedStacked(s: seq<Buff>, b: Buff)
    requires Stacked(s)
    ensures Stacked(Added(s, b))
  {
    var without := WithoutSkill(s, b.skillId);
    FilterStacked(s, (c: Buff) => c.skillId != b.skillId);
    FilterStacked(without, (c: Buff) => c.abnormalType != b.abnormalType);
    var r := if b.Typed() then WithoutType(without, b.abnormalType) else without;
    forall i | 0 <= i < |r|
      ensures r[i].skillId != b.skillId && !(r[i].Typed() && r[i].abnormalType == b.abnormalType)
    {
      assert r[i] in r;
    }
  }

  lemma FilterNext(s: seq<Buff>, i: nat, p: Buff -> bool)
    requires i < |s|
    ensures Filter(s[..i + 1], p) == if p(s[i]) then Filter(s[..i], p) + [s[i]] else Filter(s[..i], p)
  {
    assert s[..i + 1][..i] == s[..i];
  }

  /** Expiry splits the list: nothing is lost, and nothing is counted twice. */
  lemma {:induction false} SplitByExpiry(s: seq<Buff>, now: Time)
    ensures multiset(Unexpired(s, now)) + multiset(Expired(s, now)) == multiset(s)
    ensures |Unexpired(s, now)| + |Expired(s, now)| == |s|
  {
    if s != [] {
      SplitByExpiry(s[..|s| - 1], now);
      assert s == s[..|s| - 1] + [s[|s| - 1]];
    }
  }

  /** Filtering keeps the order: an effect stays before every effect it was before. */
  ghost predicate Before(s: seq<Buff>, b: Buff, c: Buff) {
    exists i, j :: 0 <= i < j < |s| && s[i] == b && s[j] == c
  }

  lemma {:induction false} FilterInOrder(s: seq<Buff>, p: Buff -> bool, b: Buff, c: Buff)
    requires p(b) && p(c)
    ensures Before(Filter(s, p), b, c) <==> Before(s, b, c)
  {
    if s != [] {
      var front, last := s[..|s| - 1], s[|s| - 1];
      FilterInOrder(front, p, b, c);
      assert s == front + [last];
      BeforeLast(front, last, b, c);
      if p(last) { BeforeLast(Filter(front, p), last, b, c); }
    }
  }

  lemma BeforeLast(front: seq<Buff>, last: Buff, b: Buff, c: Buff)
    ensures Before(front + [last], b, c) <==> Before(front, b, c) || (b in front && c == last)
  {
    var s := front + [last];
    if Before(front, b, c) {
      var i, j :| 0 <= i < j < |front| && front[i] == b && front[j] == c;
      assert s[i] == b && s[j] == c;
    }
    if b in front && c == last {
      var i :| 0 <= i < |front| && front[i] == b;
      assert s[i] == b && s[|front|] == c;
    }
    if Before(s, b, c) {
      var i, j :| 0 <= i < j < |s| && s[i] == b && s[j] == c;
      assert front[i] == b;
      if j < |front| { assert front[j] == c; }
    }
  }

  lemma FilterNone(s: seq<Buff>, p: Buff -> bool)
    requires forall b :: b in s ==> p(b)
    ensures Filter(s, p) == s
  {
    if s != [] {
      FilterNone(s[..|s| - 1], p);
      assert s == s[..|s| - 1] + [s[|s| - 1]];
    }
  }

  function Without(s: seq<Buff>, i: nat): (r: seq<Buff>)
    requires i < |s|
    ensures |r| == |s| - 1
  {
    s[..i] + s[i + 1..]
  }

  lemma WithoutOfLonger(front: seq<Buff>, last: Buff, i: nat)
    requires i <= |front|
    ensures Without(front + [last], i) == if i == |front| then front else Without(front, i) + [last]
  {}

  /** Taking out the one element a filter rejects is that filter. */
  lemma {:induction false} FilterOne(s: seq<Buff>, i: nat, p: Buff -> bool)
    requires i < |s| && !p(s[i]) && forall j :: 0 <= j < |s| && j != i ==> p(s[j])
    ensures Filter(s, p) == Without(s, i)
  {
    var front, last := s[..|s| - 1], s[|s| - 1];
    assert s == front + [last];
    WithoutOfLonger(front, last, i);
    if i == |front| {
      FilterNone(front, p);
    } else {
      FilterOne(front, i, p);
    }
  }

  /** Where the skill is not active, or the type, nothing is taken out. */
  lemma NothingToRefresh(s: seq<Buff>, skillId: int)
    requires forall b :: b in s ==> b.skillId != skillId
    ensures WithoutSkill(s, skillId) == s
  {
    FilterNone(s, (b: Buff) => b.skillId != skillId);
  }

  lemma RefreshAt(s: seq<Buff>, i: nat)
    requires Stacked(s) && i < |s|
    ensures WithoutSkill(s, s[i].skillId) == Without(s, i)
  {
    FilterOne(s, i, (b: Buff) => b.skillId != s[i].skillId);
  }

  lemma NothingToReplace(s: seq<Buff>, t: string)
    requires forall b :: b in s ==> b.abnormalType != t
    ensures WithoutType(s, t) == s
  {
    FilterNone(s, (b: Buff) => b.abnormalType != t);
  }

  lemma ReplaceAt(s: seq<Buff>, i: nat)
    requires Stacked(s) && i < |s| && s[i].Typed()
    ensures WithoutType(s, s[i].abnormalType) == Without(s, i)
  {
    FilterOne(s, i, (b: Buff) => b.abnormalType != s[i].abnormalType);
  }

  // ---------- Expiry in place ----------

  /** The first i effects of the former list have been told apart, the others are still in place. */
  ghost predicate Sifted(s: seq<Buff>, was: seq<Buff>, kept: nat, i: nat, expired: seq<Buff>, now: Time) {
    && kept <= i <= |s| == |was|
    && s[..kept] == Unexpired(was[..i], now) && expired == Expired(was[..i], now) && s[i..] == was[i..]
  }

  lemma NothingSifted(was: seq<Buff>, now: Time)
    ensures Sifted(was, was, 0, 0, [], now)
  {}

  lemma AllSifted(s: seq<Buff>, was: seq<Buff>, kept: nat, expired: seq<Buff>, now: Time)
    requires Sifted(s, was, kept, |s|, expired, now)
    ensures kept <= |s| && s[..kept] == Unexpired(was, now) && expired == Expired(was, now)
  {
    assert was[..|s|] == was;
  }

  lemma SiftInBounds(s: seq<Buff>, was: seq<Buff>, kept: nat, i: nat, expired: seq<Buff>, now: Time)
    requires Sifted(s, was, kept, i, expired, now)
    ensures kept <= i <= |s|
  {}

  lemma SiftKeeps(s: seq<Buff>, was: seq<Buff>, kept: nat, i: nat, expired: seq<Buff>, now: Time)
    requires i < |s| && Sifted(s, was, kept, i, expired, now) && !s[i].ExpiredBy(now)
    ensures kept < |s| && Sifted(s[kept := s[i]], was, kept + 1, i + 1, expired, now)
  {
    assert s[i] == s[i..][0] == was[i];
    FilterNext(was, i, (c: Buff) => !c.ExpiredBy(now));
    FilterNext(was, i, (c: Buff) => c.ExpiredBy(now));
    assert s[kept := s[i]][..kept + 1] == s[..kept] + [s[i]];
    assert s[kept := s[i]][i + 1..] == s[i..][1..] == was[i + 1..];
  }

  lemma SiftDrops(s: seq<Buff>, was: seq<Buff>, kept: nat, i: nat, expired: seq<Buff>, now: Time)
    requires i < |s| && Sifted(s, was, kept, i, expired, now) && s[i].ExpiredBy(now)
    ensures Sifted(s, was, kept, i + 1, expired + [s[i]], now)
  {
    assert s[i] == s[i..][0] == was[i];
    FilterNext(was, i, (c: Buff) => !c.ExpiredBy(now));
    FilterNext(was, i, (c: Buff) => c.ExpiredBy(now));
    assert s[i + 1..] == s[i..][1..] == was[i + 1..];
  }

  // ---------- The list in place ----------

  class CharEffectList {
    var items: array<Buff>
    var len: nat

    ghost predicate Valid()
      reads this, items
    {
      len <= items.Length && Stacked(Contents())
    }

    function Contents(): (s: seq<Buff>)
      reads this, items
      requires len <= items.Length
      ensures |s| == len
    {
      items[..len]
    }

    constructor ()
      ensures Valid() && Contents() == [] && fresh(items)
    {
      items, len := new Buff[0], 0;
    }

    method IndexOfSkill(skillId: int) returns (i: int)
      requires len <= items.Length
      ensures -1 <= i < len && (i >= 0 ==> items[i].skillId == skillId)
      ensures i < 0 ==> forall b :: b in Contents() ==> b.skillId != skillId
    {
      i := 0;
      while i < len
        invariant 0 <= i <= len && forall j :: 0 <= j < i ==> items[j].skillId != skillId
      {
        if items[i].skillId == skillId { return; }
        i := i + 1;
      }
      i := -1;
    }

    method IndexOfType(t: string) returns (i: int)
      requires len <= items.Length
      ensures -1 <= i < len && (i >= 0 ==> items[i].abnormalType == t)
      ensures i < 0 ==> forall b :: b in Contents() ==> b.abnormalType != t
    {
      i := 0;
      while i < len
        invariant 0 <= i <= len && forall j :: 0 <= j < i ==> items[j].abnormalType != t
      {
        if items[i].abnormalType == t { return; }
        i := i + 1;
      }
      i := -1;
    }

    /** Closes the gap in place. */
    method RemoveAt(i: nat)
      requires len <= items.Length && i < len
      modifies `len, items
      ensures len <= items.Length && Contents() == Without(old(Contents()), i)
    {
      var j := i;
      while j < len - 1
        invariant i <= j < len == old(len) <= items.Length
        invariant forall k :: i <= k < j ==> items[k] == old(items[k + 1])
        invariant forall k :: 0 <= k < i || j <= k < len ==> items[k] == old(items[k])
      {
        items[j] := items[j + 1];
        j := j + 1;
      }
      len := len - 1;
    }

    method Append(b: Buff)
      requires len <= items.Length
      modifies this, items
      ensures len <= items.Length && Contents() == old(Contents()) + [b]
      ensures items == old(items) || fresh(items)
    {
      if len == items.Length {
        var was := items[..len];
        items := new Buff[2 * len + 1](i => if 0 <= i < |was| then was[i] else b);
        assert items[..len] == was;
      }
      items[len] := b;
      len := len + 1;
    }

    /** Refreshes the same skill, replaces an effect of the same type unless that is stronger. */
    method Add(b: Buff) returns (added: bool)
      requires Valid()
      modifies this, items
      ensures Valid() && (items == old(items) || fresh(items))
      ensures added <==> !Blocked(old(Contents()), b)
      ensures Contents() == Added(old(Contents()), b)
    {
      ghost var was := Contents();
      AddedStacked(was, b);
      var _ := RemoveSkill(b.skillId);
      assert Blocked(was, b) <==> Blocked(Contents(), b);
      if b.Typed() {
        var i := IndexOfType(b.abnormalType);
        if i >= 0 {
          ReplaceAt(Contents(), i);
          OneOfType(Contents(), i, b);
          if b.abnormalLvl < items[i].abnormalLvl { return false; }
          RemoveAt(i);
        } else {
          NothingToReplace(Contents(), b.abnormalType);
        }
      }
      Append(b);
      added := true;
    }

    /** Drops the instance of a skill, if there is one. */
    method RemoveSkill(skillId: int) returns (present: bool)
      requires Valid()
      modifies `len, items
      ensures Valid() && Contents() == WithoutSkill(old(Contents()), skillId)
      ensures present <==> exists b :: b in old(Contents()) && b.skillId == skillId
    {
      var i := IndexOfSkill(skillId);
      ghost var was := Contents();
      FilterStacked(was, (b: Buff) => b.skillId != skillId);
      if i < 0 {
        NothingToRefresh(was, skillId);
        return false;
      }
      RefreshAt(was, i);
      assert was[i] in was;
      RemoveAt(i);
      present := true;
    }

    method SiftNext(ghost was: seq<Buff>, kept0: nat, i: nat, expired0: seq<Buff>, now: Time)
      returns (kept: nat, expired: seq<Buff>)
      requires len <= items.Length && i < len && Sifted(Contents(), was, kept0, i, expired0, now)
      modifies items
      ensures Sifted(Contents(), was, kept, i + 1, expired, now)
    {
      hide Sifted;
      kept, expired := kept0, expired0;
      var b := items[i];
      SiftInBounds(Contents(), was, kept0, i, expired0, now);
      if b.ExpiredBy(now) {
        SiftDrops(Contents(), was, kept, i, expired, now);
        expired := expired + [b];
      } else {
        SiftKeeps(Contents(), was, kept, i, expired, now);
        items[kept] := b;
        kept := kept + 1;
      }
    }

    method SiftAll(now: Time) returns (kept: nat, expired: seq<Buff>)
      requires len <= items.Length
      modifies items
      ensures kept <= len && items[..kept] == Unexpired(old(Contents()), now)
      ensures expired == Expired(old(Contents()), now)
    {
      hide Sifted;
      ghost var was := Contents();
      kept, expired := 0, [];
      var i: nat := 0;
      NothingSifted(was, now);
      while i < len
        invariant i <= len && Sifted(Contents(), was, kept, i, expired, now)
      {
        kept, expired := SiftNext(was, kept, i, expired, now);
        i := i + 1;
      }
      AllSifted(Contents(), was, kept, expired, now);
      assert Contents()[..kept] == items[..kept];
    }

    /** Moves what is still active to the front of the same array, and returns the rest. */
    method RemoveExpired(now: Time) returns (expired: seq<Buff>)
      requires Valid()
      modifies `len, items
      ensures Valid()
      ensures Contents() == Unexpired(old(Contents()), now) && expired == Expired(old(Contents()), now)
      ensures forall b :: b in expired <==>
        b in old(Contents()) && b.expiresAt.Some? && b.expiresAt.value <= now
      ensures forall b :: b in Contents() <==>
        b in old(Contents()) && (b.expiresAt.Some? ==> now < b.expiresAt.value)
    {
      FilterStacked(Contents(), (b: Buff) => !b.ExpiredBy(now));
      var kept;
      kept, expired := SiftAll(now);
      len := kept;
    }

    method AllMods() returns (mods: seq<Modifier>)
      requires len <= items.Length
      ensures mods == Mods(Contents())
    {
      mods := [];
      for i := 0 to len
        invariant mods == Mods(items[..i])
      {
        mods := mods + items[i].mods;
        assert items[..i + 1][..i] == items[..i];
      }
    }
  }

  /** After the refresh, the one effect of the type decides whether a new one is blocked. */
  lemma OneOfType(s: seq<Buff>, i: nat, b: Buff)
    requires Stacked(s) && i < |s| && b.Typed() && s[i].abnormalType == b.abnormalType
    requires forall c :: c in s ==> c.skillId != b.skillId
    ensures Blocked(s, b) <==> b.abnormalLvl < s[i].abnormalLvl
  {
    assert s[i] in s;
  }
}
