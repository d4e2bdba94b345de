/**
 What a character's stats derive from: modifiers of passive skills, equipment and effects, and the
 memo of the computed stats. The formulas themselves are a parameter.
 */
module Stats {
  import opened Effects
  import opened Events
  import opened Wrappers

  const PVP_FLAG_DURATION: Time := 120 * SECOND

  datatype BaseStats = BaseStats(str: int, dex: int, con: int, int_: int, wit: int, men: int)

  datatype Computed = Computed(maxHp: int, maxMp: int, others: map<string, real>)

  /** Computed stats from level, base stats, class and modifiers. */
  type Formula = (int, BaseStats, int, seq<Modifier>) -> Computed

  /** `connected` says whether packets reach the player: building one computes the stats. */
  datatype Player = Player(
    level: int, base: BaseStats, classId: int,
    passive: seq<Modifier>, equip: seq<Modifier>, effects: seq<Buff>,
    statMods: seq<Modifier>, cached: Computed, valid: bool,
    hp: real, maxHp: int, mp: real, maxMp: int,
    flagUntil: Option<Time>, karma: int, connected: bool)

  function Fresh(f: Formula, p: Player): Computed { f(p.level, p.base, p.classId, p.statMods) }

  /** A valid memo is what a fresh computation would give. */
  ghost predicate MemoOk(f: Formula, p: Player) { p.valid ==> p.cached == Fresh(f, p) }

  /** The modifiers in force are the passive ones, the equipment's and the active effects'. */
  ghost predicate ModsOk(p: Player) { p.statMods == p.passive + p.equip + Mods(p.effects) }

  function Rebuilt(p: Player): (q: Player)
    ensures ModsOk(q) && !q.valid && q == p.(statMods := q.statMods, valid := false)
  {
    p.(statMods := p.passive + p.equip + Mods(p.effects), valid := false)
  }

  function Memoized(f: Formula, p: Player): (q: Player)
    ensures MemoOk(f, p) ==> q.valid && q.cached == Fresh(f, p) && MemoOk(f, q)
    ensures q == p.(cached := if p.valid then p.cached else Fresh(f, p), valid := true)
  {
    if p.valid then p else p.(cached := Fresh(f, p), valid := true)
  }

  /** The player after being sent its own stats. */
  function Shown(f: Formula, p: Player): Player { if p.connected then Memoized(f, p) else p }

  // ---------- Adding an effect ----------

  function Buffed(f: Formula, p: Player, b: Buff): Player {
    if Blocked(p.effects, b) then p.(effects := Added(p.effects, b))
    else Shown(f, Rebuilt(p.(effects := Added(p.effects, b))))
  }

  /** The recast of an active skill that is turned away: its former instance goes, its modifiers stay. */
  predicate Spoils(s: seq<Buff>, b: Buff) {
    Blocked(s, b) && exists c :: c in s && c.skillId == b.skillId && c.mods != []
  }

  lemma {:induction false} ModsOfFilter(s: seq<Buff>, p: Buff -> bool)
    ensures |Mods(Filter(s, p))| <= |Mods(s)|
    ensures Mods(Filter(s, p)) == Mods(s) <==> forall b :: b in s && !p(b) ==> b.mods == []
  {
    if s != [] {
      var front, last := s[..|s| - 1], s[|s| - 1];
      ModsOfFilter(front, p);
      assert s == front + [last];
      if p(last) {
        assert (Filter(front, p) + [last])[..|Filter(front, p)|] == Filter(front, p);
        assert Mods(Filter(s, p)) == Mods(Filter(front, p)) + last.mods && Mods(s) == Mods(front) + last.mods;
        assert Mods(Filter(s, p)) == Mods(s) ==> Mods(Filter(front, p)) == Mods(Filter(s, p))[..|Mods(front)|];
      } else {
        assert last.mods != [] ==> |Mods(s)| > |Mods(front)|;
      }
    }
  }

  /**
   A cast keeps modifiers and effects in step, exactly unless it is turned away by a stronger effect
   after displacing an instance of its own skill that had modifiers.
   */
  lemma BuffedModsOk(f: Formula, p: Player, b: Buff)
    requires ModsOk(p)
    ensures ModsOk(Buffed(f, p, b)) <==> !Spoils(p.effects, b)
  {
    ModsOfFilter(p.effects, (c: Buff) => c.skillId != b.skillId);
    var q := Buffed(f, p, b);
    if Blocked(p.effects, b) {
      assert p.passive + p.equip + Mods(q.effects) == p.statMods ==>
        Mods(q.effects) == p.statMods[|p.passive + p.equip|..];
      assert Mods(p.effects) == p.statMods[|p.passive + p.equip|..];
    }
  }

  /** Where every skill has one abnormal type, a cast that is turned away has no former instance. */
  lemma OneTypeNeverSpoils(s: seq<Buff>, b: Buff, typeOf: int -> string)
    requires Stacked(s) && b.abnormalType == typeOf(b.skillId)
    requires forall c :: c in s ==> c.abnormalType == typeOf(c.skillId)
    ensures !Spoils(s, b)
  {}

  /** A skill whose type differs by level can spoil: the weaker, other-typed recast is turned away by a third effect. */
  lemma SpoilingExample()
    ensures var m := [Modifier("pAtk", "add", 1.0)];
      var s := [Buff(1, "SPEED", 1, m, [], None, None), Buff(2, "POWER", 2, m, [], None, None)];
      Stacked(s) && Spoils(s, Buff(1, "POWER", 1, m, [], None, None))
  {
    var m := [Modifier("pAtk", "add", 1.0)];
    var s := [Buff(1, "SPEED", 1, m, [], None, None), Buff(2, "POWER", 2, m, [], None, None)];
    assert s[0] in s && s[1] in s;
  }

  function ToggledOff(f: Formula, p: Player, skillId: int): Player {
    if exists b :: b in p.effects && b.skillId == skillId then
      Shown(f, Rebuilt(p.(effects := WithoutSkill(p.effects, skillId))))
    else p
  }

  // ---------- The service of effects ----------

  function Restored(f: Formula, p: Player, hp: int, mp: int): Player {
    if p.hp <= 0.0 then p else
    var hp' := if hp <= 0 then p.hp else if p.hp + hp as real <= p.maxHp as real then p.hp + hp as real
      else p.maxHp as real;
    var mp' := if mp <= 0 then p.mp else if p.mp + mp as real <= p.maxMp as real then p.mp + mp as real
      else p.maxMp as real;
    Shown(f, p.(hp := hp', mp := mp'))
  }

  function Clamp(v: real, max: int): (r: real)
    ensures r <= v && r <= max as real && (r == v || r == max as real)
  {
    if v > max as real then max as real else v
  }

  function TickSum(ticks: seq<Tick>, kind: TickKind): int {
    if ticks == [] then 0 else
    TickSum(ticks[..|ticks| - 1], kind) + (if ticks[|ticks| - 1].kind == kind then ticks[|ticks| - 1].power else 0)
  }

  /** One round of an effect's ticks: gains restore, a loss of HP stops at 1. */
  function Ticked(f: Formula, p: Player, b: Buff): Player {
    var hp, mp := TickSum(b.ticks, TickHP), TickSum(b.ticks, TickMP);
    if hp == 0 && mp == 0 then p else
    var q := Restored(f, p, if hp > 0 then hp else 0, if mp > 0 then mp else 0);
    if hp < 0 then q.(hp := if q.hp + hp as real < 1.0 then 1.0 else q.hp + hp as real) else q
  }

  function Interval(b: Buff): Time {
    if b.ticks == [] || b.ticks[0].intervalSec <= 0 then 0 else b.ticks[0].intervalSec * SECOND
  }

  predicate TickDue(b: Buff, now: Time) { b.ticks != [] && b.nextTick.Some? && now >= b.nextTick.value }

  /** Only the next tick of one effect changes. */
  function Rescheduled(s: seq<Buff>, i: nat, now: Time): (r: seq<Buff>)
    requires i < |s|
    ensures |r| == |s|
  {
    s[i := s[i].(nextTick := Some(now + Interval(s[i])))]
  }

  function TickedAt(f: Formula, p: Player, i: nat, now: Time): Player
    requires i < |p.effects|
  {
    if !TickDue(p.effects[i], now) then p else
    var q := Ticked(f, p, p.effects[i]);
    q.(effects := Rescheduled(p.effects, i, now))
  }

  /** After the first n effects have had their ticks, in order. */
  function TickedAll(f: Formula, p: Player, n: nat, now: Time): (q: Player)
    requires n <= |p.effects|
    ensures |q.effects| == |p.effects|
  {
    if n == 0 then p else TickedAt(f, TickedAll(f, p, n - 1, now), n - 1, now)
  }

  /** Ticks for the living, then expiry. */
  function Served(f: Formula, p: Player, now: Time): Player {
    if p.effects == [] then p else
    var q := if p.hp > 0.0 then TickedAll(f, p, |p.effects|, now) else p;
    if Expired(q.effects, now) == [] then q
    else Shown(f, Rebuilt(q.(effects := Unexpired(q.effects, now))))
  }

  /** The same effect, but perhaps for when it ticks next. */
  ghost predicate Remains(s: seq<Buff>, b: Buff) { exists c :: c in s && c == b.(nextTick := c.nextTick) }

  /** A round of service takes away exactly the effects whose time is up; those without an expiry stay. */
  lemma ServedExpiry(f: Formula, p: Player, now: Time, b: Buff)
    requires PlayerOk(f, p) && b in p.effects
    ensures Remains(Served(f, p, now).effects, b) <==> (b.expiresAt.Some? ==> now < b.expiresAt.value)
  {
    var q := if p.hp > 0.0 then TickedAll(f, p, |p.effects|, now) else p;
    if p.hp > 0.0 { TickedAllKeeps(f, p, |p.effects|, now); }
    var i :| 0 <= i < |p.effects| && p.effects[i] == b;
    assert q.effects[i] == b.(nextTick := q.effects[i].nextTick) && q.effects[i] in q.effects;
    if Expired(q.effects, now) == [] { assert q.effects[i] !in Expired(q.effects, now); }
    assert Served(f, p, now).effects == Unexpired(q.effects, now) by {
      if Expired(q.effects, now) == [] { NoneExpired(q.effects, now); }
    }
    if b.expiresAt.Some? ==> now < b.expiresAt.value { assert q.effects[i] in Unexpired(q.effects, now); }
  }

  lemma NoneExpired(s: seq<Buff>, now: Time)
    requires Expired(s, now) == []
    ensures Unexpired(s, now) == s
  {
    forall b | b in s ensures !b.ExpiredBy(now) { assert b !in Expired(s, now); }
    FilterNone(s, (b: Buff) => !b.ExpiredBy(now));
  }

  /** Servicing every player but the lost ones. */
  ghost function Swept(f: Formula, players: map<int, Player>, lost: set<int>, now: Time): map<int, Player> {
    map id | id in players :: if id in lost then players[id] else Served(f, players[id], now)
  }

  /** Two lists that differ in the schedule of ticks only. */
  ghost predicate SameButTicks(s: seq<Buff>, t: seq<Buff>) {
    |s| == |t| && forall i :: 0 <= i < |s| ==> t[i] == s[i].(nextTick := t[i].nextTick)
  }

  lemma SameButTicksKeeps(s: seq<Buff>, t: seq<Buff>)
    requires SameButTicks(s, t)
    ensures Mods(s) == Mods(t) && (Stacked(s) ==> Stacked(t))
  {
    ModsSame(s, t);
    if Stacked(s) {
      forall i, j | 0 <= i < j < |t|
        ensures t[i].skillId != t[j].skillId && !(t[i].Typed() && t[i].abnormalType == t[j].abnormalType)
      {
        assert s[i].skillId != s[j].skillId && !(s[i].Typed() && s[i].abnormalType == s[j].abnormalType);
      }
    }
  }

  lemma {:induction false} ModsSame(s: seq<Buff>, t: seq<Buff>)
    requires SameButTicks(s, t)
    ensures Mods(s) == Mods(t)
  {
    if s != [] {
      ModsSame(s[..|s| - 1], t[..|t| - 1]);
      assert t[|t| - 1].mods == s[|s| - 1].mods;
    }
  }

  /** What a player is, apart from vitals, memo, flag and effects. */
  ghost predicate SameMods(p: Player, q: Player) {
    p.passive == q.passive && p.equip == q.equip && p.statMods == q.statMods
    && p.maxHp == q.maxHp && p.level == q.level && p.base == q.base && p.classId == q.classId
    && p.flagUntil == q.flagUntil
  }

  lemma TickedKeeps(f: Formula, p: Player, b: Buff)
    requires MemoOk(f, p)
    ensures var q := Ticked(f, p, b); SameMods(p, q) && q.effects == p.effects && MemoOk(f, q)
    ensures p.hp > 0.0 && p.maxHp > 0 ==> Ticked(f, p, b).hp > 0.0
  {}

  /** Ticks change vitals and their own schedule only, and kill nobody. */
  lemma {:induction false} TickedAllKeeps(f: Formula, p: Player, n: nat, now: Time)
    requires n <= |p.effects| && MemoOk(f, p)
    ensures var q := TickedAll(f, p, n, now); SameMods(p, q) && SameButTicks(p.effects, q.effects) && MemoOk(f, q)
    ensures p.hp > 0.0 && p.maxHp > 0 ==> TickedAll(f, p, n, now).hp > 0.0
  {
    if n > 0 {
      TickedAllKeeps(f, p, n - 1, now);
      var q := TickedAll(f, p, n - 1, now);
      TickedKeeps(f, q, q.effects[n - 1]);
    }
  }

  /** The invariants of one player. */
  ghost predicate PlayerOk(f: Formula, p: Player) { MemoOk(f, p) && Stacked(p.effects) }

  lemma ServedKeeps(f: Formula, p: Player, now: Time)
    requires PlayerOk(f, p)
    ensures PlayerOk(f, Served(f, p, now)) && (ModsOk(p) ==> ModsOk(Served(f, p, now)))
    ensures Served(f, p, now).flagUntil == p.flagUntil
  {
    if p.effects != [] {
      var q := if p.hp > 0.0 then TickedAll(f, p, |p.effects|, now) else p;
      if p.hp > 0.0 { TickedAllKeeps(f, p, |p.effects|, now); }
      SameButTicksKeeps(p.effects, q.effects);
      FilterStacked(q.effects, (b: Buff) => !b.ExpiredBy(now));
    }
  }

  // ---------- Flags ----------

  predicate Flagged(p: Player, now: Time) { p.flagUntil.Some? && now < p.flagUntil.value }

  /** Whether a player may be attacked, and whether the attacker is flagged for it. */
  function CanAttack(target: Player, ctrl: bool, now: Time): (bool, bool) {
    if Flagged(target, now) || target.karma > 0 then (true, false) else (ctrl, ctrl)
  }

  function FlagExpired(f: Formula, p: Player, now: Time): Player {
    if p.flagUntil.Some? && now >= p.flagUntil.value then Shown(f, p.(flagUntil := None)) else p
  }

  ghost function FlagsSwept(f: Formula, players: map<int, Player>, lost: set<int>, now: Time): map<int, Player> {
    map id | id in players :: if id in lost then players[id] else FlagExpired(f, players[id], now)
  }

  /** The sweep is invisible to attackers: it clears only flags that no longer count. */
  lemma SweepKeepsAttackability(f: Formula, p: Player, ctrl: bool, now: Time, later: Time)
    requires later >= now
    ensures CanAttack(FlagExpired(f, p, now), ctrl, later) == CanAttack(p, ctrl, later)
  {}

  // ---------- Levels ----------

  /** After a level-up the stats asked for are those of the new level, even if a memo of the old one was valid. */
  lemma LevelUpRefreshes(f: Formula, p: Player, level: int)
    ensures var q := Memoized(f, LevelledUp(f, p, level));
      q.valid && q.cached == f(level, p.base, p.classId, p.statMods)
  {}

  /** Conversion to an integer, towards zero. */
  function Truncated(r: real): int { if r < 0.0 then -((-r).Floor) else r.Floor }

  /** A tenth of it, rounded down, and at least one. */
  ghost predicate Grown(tenths: real, hp: real) {
    if tenths < 20.0 then hp == 1.0 else 10.0 * hp <= tenths < 10.0 * hp + 10.0
  }

  /** A level-up recomputes the maxima from the new level, restores HP and MP, and drops the memo. */
  function LevelledUp(f: Formula, p: Player, level: int): (q: Player)
    ensures q.level == level && q.maxHp >= 1 && q.hp == q.maxHp as real && q.mp == q.maxMp as real
    ensures Fresh(f, q).maxHp > 0 ==> q.maxHp == Fresh(f, q).maxHp
    ensures Fresh(f, q).maxMp > 0 ==> q.maxMp == Fresh(f, q).maxMp
    ensures Fresh(f, q).maxMp <= 0 ==> q.maxMp == p.maxMp
    ensures Fresh(f, q).maxHp <= 0 ==> Grown(p.maxHp as real * (10 + level - p.level) as real, q.maxHp as real)
    ensures MemoOk(f, q) && (ModsOk(p) ==> ModsOk(q)) && q.effects == p.effects && q.flagUntil == p.flagUntil
    ensures q == p.(level := level, maxHp := q.maxHp, maxMp := q.maxMp, hp := q.hp, mp := q.mp, valid := false)
  {
    var computed := f(level, p.base, p.classId, p.statMods);
    var grown := Truncated(p.maxHp as real * (1.0 + (level - p.level) as real / 10.0));
    var hp0 := if computed.maxHp > 0 then computed.maxHp else grown;
    var hp := if hp0 < 1 then 1 else hp0;
    var mp := if computed.maxMp > 0 then computed.maxMp else p.maxMp;
    p.(level := level, maxHp := hp, maxMp := mp, hp := hp as real, mp := mp as real, valid := false)
  }
}
