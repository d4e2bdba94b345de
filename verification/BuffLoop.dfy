/** The game loop's steps on effects, stats and flags, and its sweeps over tracked players only. */
module BuffLoop {
  import opened Effects
  import opened Events
  import opened Stats
  import opened Wrappers

  type Players = map<int, Player>

  /** A step of the loop on this part of the state; a skill's cast comes with the effect it builds. */
  datatype Step =
    | Enter(id: int, player: Player)
    | Leave(id: int)
    | ReturnToLobby(id: int)
    | Disconnect(id: int)
    | Cast(id: int, buff: Buff)
    | Dispel(id: int, skillId: int)
    | Service(now: Time, flagNow: Time)
    | Equip(id: int, mods: seq<Modifier>)
    | Level(id: int, level: int)
    | Flag(id: int, now: Time)
    | Consult(id: int)

  // ---------- What a step does to the players ----------

  function Entered(p: Player): Player { Rebuilt(p.(effects := [], flagUntil := None)) }

  function Levelled(f: Formula, p: Player, level: int): Player {
    if level > p.level then Shown(f, LevelledUp(f, p, level)) else Shown(f, p)
  }

  function FlagSet(f: Formula, p: Player, now: Time): Player {
    var q := p.(flagUntil := Some(now + PVP_FLAG_DURATION));
    if Flagged(p, now) then q else Shown(f, q)
  }

  /** A skill that declares neither modifiers nor ticks builds no effect. */
  predicate BuildsNothing(b: Buff) { b.mods == [] && b.ticks == [] }

  /** A cast that builds an effect which its target takes. */
  predicate Takes(p: Player, b: Buff) { (b.mods != [] || b.ticks != []) && !Blocked(p.effects, b) }

  /** A step on a single player. */
  function Changed(f: Formula, p: Player, s: Step): Player
    requires s.Cast? || s.Dispel? || s.Equip? || s.Level? || s.Flag? || s.Consult?
  {
    match s
    case Cast(_, b) => if b.mods == [] && b.ticks == [] then p else Buffed(f, p, b)
    case Dispel(_, skillId) => ToggledOff(f, p, skillId)
    case Equip(_, mods) => Rebuilt(p.(equip := mods))
    case Level(_, level) => Levelled(f, p, level)
    case Flag(_, now) => FlagSet(f, p, now)
    case Consult(_) => Memoized(f, p)
  }

  /** The players, and those of them whose effects, or whose flag, no sweep finds. */
  datatype World = World(players: Players, lostBuffs: set<int>, lostFlags: set<int>) {
    ghost predicate Tracked() { lostBuffs == {} && lostFlags == {} }
  }

  const NOBODY := World(map[], {}, {})

  /** A step that puts the player's effects back in sight of the sweeps, or leaves it none. */
  predicate FindsBuffs(players: Players, s: Step, id: int) {
    match s
    case Enter(i, _) => i == id
    case Leave(i) => i == id
    case ReturnToLobby(i) => i == id
    case Cast(i, b) => i == id && id in players && Takes(players[id], b)
    case Dispel(i, skillId) => i == id && id in players && WithoutSkill(players[id].effects, skillId) == []
    case _ => false
  }

  predicate FindsFlag(players: Players, s: Step, id: int) {
    match s
    case Enter(i, _) => i == id
    case Leave(i) => i == id
    case ReturnToLobby(i) => i == id
    case Flag(i, _) => i == id && id in players
    case _ => false
  }

  predicate LosesBuffs(players: Players, s: Step, id: int) {
    s == Disconnect(id) && id in players && players[id].effects != []
  }

  predicate LosesFlag(players: Players, s: Step, id: int) {
    s == Disconnect(id) && id in players && players[id].flagUntil.Some?
  }

  ghost function PlayersAfter(f: Formula, w: World, s: Step): Players {
    match s
    case Leave(id) => w.players - {id}
    case ReturnToLobby(id) => w.players - {id}
    case Disconnect(_) => w.players
    case Service(now, flagNow) => Swept(f, FlagsSwept(f, w.players, w.lostFlags, flagNow), w.lostBuffs, now)
    case Enter(id, p) => w.players[id := Entered(p)]
    case _ => if s.id in w.players then w.players[s.id := Changed(f, w.players[s.id], s)] else w.players
  }

  ghost function After(f: Formula, w: World, s: Step): World {
    World(PlayersAfter(f, w, s),
      set id | id in w.lostBuffs + w.players.Keys &&
        (LosesBuffs(w.players, s, id) || (id in w.lostBuffs && !FindsBuffs(w.players, s, id))),
      set id | id in w.lostFlags + w.players.Keys &&
        (LosesFlag(w.players, s, id) || (id in w.lostFlags && !FindsFlag(w.players, s, id))))
  }

  ghost function AfterAll(f: Formula, w: World, steps: seq<Step>): World {
    if steps == [] then w else After(f, AfterAll(f, w, steps[..|steps| - 1]), steps[|steps| - 1])
  }

  // ---------- Coherence over runs ----------

  ghost predicate AllOk(f: Formula, players: Players) { forall id :: id in players ==> PlayerOk(f, players[id]) }

  ghost predicate Coherent(players: Players) { forall id :: id in players ==> ModsOk(players[id]) }

  /** Every skill of the effects around has one abnormal type. */
  ghost predicate OneType(typeOf: int -> string, s: seq<Buff>) {
    forall b :: b in s ==> b.abnormalType == typeOf(b.skillId)
  }

  ghost predicate AllOneType(typeOf: int -> string, players: Players) {
    forall id :: id in players ==> OneType(typeOf, players[id].effects)
  }

  /** A cast that displaces an instance of its own skill and is then turned away. */
  predicate SpoilsOne(players: Players, s: Step) {
    s.Cast? && s.id in players && !BuildsNothing(s.buff) && Spoils(players[s.id].effects, s.buff)
  }

  lemma ChangedKeeps(f: Formula, p: Player, s: Step)
    requires s.Cast? || s.Dispel? || s.Equip? || s.Level? || s.Flag? || s.Consult?
    requires PlayerOk(f, p)
    ensures PlayerOk(f, Changed(f, p, s))
    ensures ModsOk(p) ==>
      (ModsOk(Changed(f, p, s)) <==> !(s.Cast? && !BuildsNothing(s.buff) && Spoils(p.effects, s.buff)))
  {
    match s
    case Cast(_, b) =>
      AddedStacked(p.effects, b);
      if ModsOk(p) { BuffedModsOk(f, p, b); }
    case Dispel(_, skillId) => FilterStacked(p.effects, (b: Buff) => b.skillId != skillId);
    case _ =>
  }

  lemma SweepsKeep(f: Formula, w: World, now: Time, flagNow: Time)
    requires AllOk(f, w.players)
    ensures var r := Swept(f, FlagsSwept(f, w.players, w.lostFlags, flagNow), w.lostBuffs, now);
      AllOk(f, r) && (Coherent(w.players) ==> Coherent(r))
  {
    var swept := FlagsSwept(f, w.players, w.lostFlags, flagNow);
    assert AllOk(f, swept);
    forall id | id in w.players
      ensures PlayerOk(f, Served(f, swept[id], now)) && (ModsOk(w.players[id]) ==> ModsOk(Served(f, swept[id], now)))
    {
      ServedKeeps(f, swept[id], now);
    }
  }

  /** Memos and stacking survive every step; coherence every step but a cast that spoils its target. */
  lemma AfterKeeps(f: Formula, w: World, s: Step)
    requires AllOk(f, w.players)
    ensures AllOk(f, After(f, w, s).players)
    ensures Coherent(w.players) ==> (Coherent(After(f, w, s).players) <==> !SpoilsOne(w.players, s))
  {
    var r := PlayersAfter(f, w, s);
    match s
    case Leave(_) =>
    case ReturnToLobby(_) =>
    case Disconnect(_) =>
    case Service(now, flagNow) => SweepsKeep(f, w, now, flagNow);
    case Enter(_, _) =>
    case _ =>
      if s.id in w.players {
        ChangedKeeps(f, w.players[s.id], s);
        assert r[s.id] == Changed(f, w.players[s.id], s);
      }
  }

  lemma ChangedOneType(f: Formula, p: Player, s: Step, typeOf: int -> string)
    requires s.Cast? || s.Dispel? || s.Equip? || s.Level? || s.Flag? || s.Consult?
    requires OneType(typeOf, p.effects)
    requires s.Cast? ==> s.buff.abnormalType == typeOf(s.buff.skillId)
    ensures OneType(typeOf, Changed(f, p, s).effects)
  {}

  /** No step brings in an effect but a cast. */
  lemma AfterOneType(f: Formula, w: World, s: Step, typeOf: int -> string)
    requires AllOk(f, w.players) && AllOneType(typeOf, w.players)
    requires s.Cast? ==> s.buff.abnormalType == typeOf(s.buff.skillId)
    ensures AllOneType(typeOf, After(f, w, s).players)
  {
    hide Changed, Served, FlagExpired, OneType, MemoOk;
    var players := w.players;
    match s
    case Leave(_) =>
    case ReturnToLobby(_) =>
    case Disconnect(_) =>
    case Service(now, flagNow) =>
      forall id | id in players
        ensures OneType(typeOf, FlagExpired(f, players[id], flagNow).effects)
        ensures OneType(typeOf, Served(f, players[id], now).effects)
        ensures OneType(typeOf, Served(f, FlagExpired(f, players[id], flagNow), now).effects)
      {
        FlagOneType(f, players[id], flagNow, typeOf);
        ServedOneType(f, players[id], now, typeOf);
        ServedOneType(f, FlagExpired(f, players[id], flagNow), now, typeOf);
      }
    case Enter(_, q) => EnteredOneType(q, typeOf);
    case _ => if s.id in players { ChangedOneType(f, players[s.id], s, typeOf); }
  }

  lemma FlagOneType(f: Formula, p: Player, now: Time, typeOf: int -> string)
    requires OneType(typeOf, p.effects) && MemoOk(f, p)
    ensures OneType(typeOf, FlagExpired(f, p, now).effects) && MemoOk(f, FlagExpired(f, p, now))
  {}

  lemma EnteredOneType(q: Player, typeOf: int -> string)
    ensures OneType(typeOf, Entered(q).effects)
  {}

  lemma ServedOneType(f: Formula, p: Player, now: Time, typeOf: int -> string)
    requires MemoOk(f, p) && OneType(typeOf, p.effects)
    ensures OneType(typeOf, Served(f, p, now).effects)
  {
    if p.effects != [] && p.hp > 0.0 {
      TickedAllKeeps(f, p, |p.effects|, now);
      var q := TickedAll(f, p, |p.effects|, now);
      assert forall i :: 0 <= i < |q.effects| ==>
        q.effects[i].skillId == p.effects[i].skillId && q.effects[i].abnormalType == p.effects[i].abnormalType;
    }
  }

  /**
   Over every run in which each skill has one abnormal type, the modifiers in force stay those of
   passive skills, equipment and active effects, and a valid memo stays what a recomputation gives.
   */
  lemma {:induction false} StatCoherence(f: Formula, steps: seq<Step>, typeOf: int -> string)
    requires forall s :: s in steps && s.Cast? ==> s.buff.abnormalType == typeOf(s.buff.skillId)
    ensures var players := AfterAll(f, NOBODY, steps).players;
      AllOk(f, players) && Coherent(players) && AllOneType(typeOf, players)
  {
    if steps != [] {
      var front, last := steps[..|steps| - 1], steps[|steps| - 1];
      StatCoherence(f, front, typeOf);
      var w := AfterAll(f, NOBODY, front);
      AfterKeeps(f, w, last);
      AfterOneType(f, w, last, typeOf);
      if last.Cast? && last.id in w.players { OneTypeNeverSpoils(w.players[last.id].effects, last.buff, typeOf); }
    }
  }

  // ---------- Effects without an expiry ----------

  ghost predicate Has(players: Players, id: int, b: Buff) { id in players && Remains(players[id].effects, b) }

  /** What takes an effect away: a dispel, a refresh, a replacement by another of its type, or a departure. */
  predicate Removes(players: Players, s: Step, id: int, b: Buff) {
    match s
    case Enter(i, _) => i == id
    case Leave(i) => i == id
    case ReturnToLobby(i) => i == id
    case Dispel(i, skillId) => i == id && skillId == b.skillId
    case Cast(i, c) => i == id && !(c.mods == [] && c.ticks == []) && id in players &&
      (c.skillId == b.skillId || (c.Typed() && c.abnormalType == b.abnormalType && !Blocked(players[id].effects, c)))
    case _ => false
  }

  lemma CastSpares(f: Formula, p: Player, c: Buff, b: Buff)
    requires Remains(p.effects, b) && c.skillId != b.skillId
    requires !(c.Typed() && c.abnormalType == b.abnormalType && !Blocked(p.effects, c))
    ensures Remains(Buffed(f, p, c).effects, b)
  {
    var d :| d in p.effects && d == b.(nextTick := d.nextTick);
    var r := Added(p.effects, c);
    assert d in WithoutSkill(p.effects, c.skillId);
    if !Blocked(p.effects, c) {
      var s := if c.Typed() then WithoutType(WithoutSkill(p.effects, c.skillId), c.abnormalType)
               else WithoutSkill(p.effects, c.skillId);
      assert d in s && r == s + [c];
    }
    assert d in r;
  }

  lemma DispelSpares(f: Formula, p: Player, skillId: int, b: Buff)
    requires Remains(p.effects, b) && skillId != b.skillId
    ensures Remains(ToggledOff(f, p, skillId).effects, b)
  {
    ToggledOffShape(f, p, skillId);
    var d :| d in p.effects && d == b.(nextTick := d.nextTick);
    assert d in WithoutSkill(p.effects, skillId);
  }

  lemma ServiceSpares(f: Formula, w: World, now: Time, flagNow: Time, id: int, b: Buff)
    requires AllOk(f, w.players) && Has(w.players, id, b) && b.expiresAt.None?
    ensures Has(PlayersAfter(f, w, Service(now, flagNow)), id, b)
  {
    hide Takes, Changed, Served;
    var q := FlagsSwept(f, w.players, w.lostFlags, flagNow)[id];
    FlagKeeps(f, w.players[id], flagNow);
    var d :| d in q.effects && d == b.(nextTick := d.nextTick);
    ServedExpiry(f, q, now, d);
    if id !in w.lostBuffs {
      var e :| e in Served(f, q, now).effects && e == d.(nextTick := e.nextTick);
      assert e == b.(nextTick := e.nextTick);
    }
  }

  /** An effect without an expiry stays through every step that does not take it away. */
  lemma LastingStays(f: Formula, w: World, s: Step, id: int, b: Buff)
    requires AllOk(f, w.players) && Has(w.players, id, b) && b.expiresAt.None? && !Removes(w.players, s, id, b)
    ensures Has(After(f, w, s).players, id, b)
  {
    match s
    case Service(now, flagNow) => ServiceSpares(f, w, now, flagNow, id, b);
    case Cast(i, c) => if i == id && !BuildsNothing(c) { CastSpares(f, w.players[id], c, b); }
    case Dispel(i, skillId) => if i == id { DispelSpares(f, w.players[id], skillId, b); }
    case _ =>
  }

  /** Over every run: however long it is serviced, nothing else makes it disappear. */
  lemma {:induction false} LastingForever(f: Formula, w: World, steps: seq<Step>, id: int, b: Buff)
    requires AllOk(f, w.players) && Has(w.players, id, b) && b.expiresAt.None?
    requires forall k :: 0 <= k < |steps| ==> !Removes(AfterAll(f, w, steps[..k]).players, steps[k], id, b)
    ensures AllOk(f, AfterAll(f, w, steps).players) && Has(AfterAll(f, w, steps).players, id, b)
  {
    if steps != [] {
      var front, last := steps[..|steps| - 1], steps[|steps| - 1];
      assert forall k :: 0 <= k < |front| ==> front[..k] == steps[..k];
      LastingForever(f, w, front, id, b);
      LastingStays(f, AfterAll(f, w, front), last, id, b);
      AfterKeeps(f, AfterAll(f, w, front), last);
    }
  }

  // ---------- Who is lost to the sweeps ----------

  /** A disconnect of a player that stays, with effects or a flag that would no longer be swept. */
  predicate Strands(players: Players, s: Step) {
    s.Disconnect? && s.id in players && (players[s.id].effects != [] || players[s.id].flagUntil.Some?)
  }

  /** Without such a disconnect the sweeps miss nobody: they are sweeps over all players. */
  lemma {:induction false} NobodyLost(f: Formula, players: Players, steps: seq<Step>)
    requires forall k :: 0 <= k < |steps| ==>
      !Strands(AfterAll(f, World(players, {}, {}), steps[..k]).players, steps[k])
    ensures AfterAll(f, World(players, {}, {}), steps).Tracked()
  {
    if steps != [] {
      var front := steps[..|steps| - 1];
      assert forall k :: 0 <= k < |front| ==> front[..k] == steps[..k];
      NobodyLost(f, players, front);
    }
  }

  lemma ServiceFindsNobody(f: Formula, w: World, now: Time, flagNow: Time)
    ensures After(f, w, Service(now, flagNow)) == w.(players := PlayersAfter(f, w, Service(now, flagNow)))
  {
    var r := After(f, w, Service(now, flagNow));
    assert r.lostBuffs == w.lostBuffs;
    assert r.lostFlags == w.lostFlags;
  }

  /** The player was lost by a disconnect, and no later step has found it again. */
  ghost predicate LostSince(f: Formula, steps: seq<Step>, id: int, k: nat)
    requires k < |steps|
  {
    && LosesBuffs(AfterAll(f, NOBODY, steps[..k]).players, steps[k], id)
    && forall j :: k < j < |steps| ==> !FindsBuffs(AfterAll(f, NOBODY, steps[..j]).players, steps[j], id)
  }

  lemma LostStep(f: Formula, w: World, s: Step, id: int)
    ensures id in After(f, w, s).lostBuffs
      <==> LosesBuffs(w.players, s, id) || (id in w.lostBuffs && !FindsBuffs(w.players, s, id))
  {}

  lemma LostNow(f: Formula, steps: seq<Step>, id: int)
    requires steps != []
    ensures var n := |steps| - 1;
      LostSince(f, steps, id, n) <==> LosesBuffs(AfterAll(f, NOBODY, steps[..n]).players, steps[n], id)
  {}

  lemma LostLonger(f: Formula, steps: seq<Step>, id: int, k: nat)
    requires k < |steps| - 1
    ensures var n := |steps| - 1;
      LostSince(f, steps, id, k)
      <==> LostSince(f, steps[..n], id, k) && !FindsBuffs(AfterAll(f, NOBODY, steps[..n]).players, steps[n], id)
  {
    hide AfterAll, FindsBuffs, LosesBuffs;
    var front := steps[..|steps| - 1];
    assert forall k :: 0 <= k < |front| ==> front[..k] == steps[..k];
  }

  ghost predicate EverLost(f: Formula, steps: seq<Step>, id: int) {
    exists k: nat :: k < |steps| && LostSince(f, steps, id, k)
  }

  lemma LostOneLonger(f: Formula, steps: seq<Step>, id: int)
    requires steps != []
    ensures var front, last := steps[..|steps| - 1], steps[|steps| - 1];
      var before := AfterAll(f, NOBODY, front).players;
      EverLost(f, steps, id)
      <==> LosesBuffs(before, last, id) || (EverLost(f, front, id) && !FindsBuffs(before, last, id))
  {
    hide AfterAll, FindsBuffs, LosesBuffs, LostSince;
    var n := |steps| - 1;
    var front := steps[..n];
    LostNow(f, steps, id);
    if EverLost(f, steps, id) {
      var k: nat :| k < |steps| && LostSince(f, steps, id, k);
      if k < n { LostLonger(f, steps, id, k); }
    }
    if EverLost(f, front, id) {
      var k: nat :| k < n && LostSince(f, front, id, k);
      LostLonger(f, steps, id, k);
    }
  }

  /**
   The sweeps leave out exactly those whom a disconnect has lost with an effect on them, and who have since neither
   taken a new one, nor been rid of the last, nor left or entered the world.
   */
  lemma {:induction false} LostExactly(f: Formula, steps: seq<Step>, id: int)
    ensures id in AfterAll(f, NOBODY, steps).lostBuffs <==> EverLost(f, steps, id)
  {
    if steps != [] {
      hide After, EverLost, FindsBuffs, LosesBuffs;
      var front := steps[..|steps| - 1];
      LostExactly(f, front, id);
      LostStep(f, AfterAll(f, NOBODY, front), steps[|steps| - 1], id);
      LostOneLonger(f, steps, id);
    }
  }

  /** Sweeping the tracked players sweeps all that are not lost, since the others have nothing to sweep. */
  lemma SweptTracked(f: Formula, was: Players, r: Players, tracked: set<int>, lost: set<int>, now: Time)
    requires r.Keys == was.Keys
    requires lost == set id | id in was && was[id].effects != [] && id !in tracked
    requires forall id :: id in was ==> r[id] == if id in tracked then Served(f, was[id], now) else was[id]
    ensures r == Swept(f, was, lost, now)
  {
    var t := Swept(f, was, lost, now);
    forall id | id in was ensures r[id] == t[id] {}
    SameEverywhere(r, t);
  }

  lemma FlagsSweptTracked(f: Formula, was: Players, r: Players, tracked: set<int>, lost: set<int>, now: Time)
    requires r.Keys == was.Keys
    requires lost == set id | id in was && was[id].flagUntil.Some? && id !in tracked
    requires forall id :: id in was ==> r[id] == if id in tracked then FlagExpired(f, was[id], now) else was[id]
    ensures r == FlagsSwept(f, was, lost, now)
  {
    var t := FlagsSwept(f, was, lost, now);
    forall id | id in was ensures r[id] == t[id] {}
    SameEverywhere(r, t);
  }

  lemma SameEverywhere(a: Players, b: Players)
    requires a.Keys == b.Keys && forall id :: id in a ==> a[id] == b[id]
    ensures a == b
  {
    assert forall id :: id in b ==> b[id] == a[id];
  }

  /** Service leaves a player without effects exactly if all have expired. */
  lemma ServedShape(f: Formula, p: Player, now: Time)
    requires p.effects != []
    ensures var q := if p.hp > 0.0 then TickedAll(f, p, |p.effects|, now) else p;
      Served(f, p, now).effects == [] <==> Expired(q.effects, now) != [] && Unexpired(q.effects, now) == []
  {
    var q := if p.hp > 0.0 then TickedAll(f, p, |p.effects|, now) else p;
    SplitByExpiry(q.effects, now);
  }

  lemma FlagKeeps(f: Formula, p: Player, now: Time)
    ensures FlagExpired(f, p, now).effects == p.effects
  {}

  lemma BuffedShape(f: Formula, p: Player, b: Buff)
    ensures var q := Buffed(f, p, b);
      && q.flagUntil == p.flagUntil && (Takes(p, b) ==> q.effects != [])
      && (!BuildsNothing(b) && !Takes(p, b) ==> p.effects != [] && q.effects != [])
  {}

  lemma ToggledOffShape(f: Formula, p: Player, skillId: int)
    ensures var q := ToggledOff(f, p, skillId);
      q.flagUntil == p.flagUntil && q.effects == WithoutSkill(p.effects, skillId)
  {
    if forall b :: b in p.effects ==> b.skillId != skillId { NothingToRefresh(p.effects, skillId); }
  }

  /** Service takes an expired effect away. */
  lemma ExpiryShows(f: Formula, p: Player, b: Buff, now: Time)
    requires p.effects == [b] && b.ExpiredBy(now)
    ensures Served(f, p, now) != p
  {
    var q := if p.hp > 0.0 then TickedAll(f, p, 1, now) else p;
    assert p.hp > 0.0 ==> TickedAll(f, p, 0, now) == p;
    assert |q.effects| == 1 && q.effects[0].ExpiredBy(now);
    assert q.effects[..0] == [];
    assert Expired(q.effects, now) == [q.effects[0]] && Unexpired(q.effects, now) == [];
  }

  // ---------- The loop ----------

  class Loop {
    const formula: Formula
    var players: Players
    var buffedPlayers: set<int>
    var flaggedPlayers: set<int>

    /** Memos and stacking are in order. */
    ghost predicate Inv()
      reads `players
    {
      AllOk(formula, players)
    }

    /** Lost is who has an effect, or a flag, and is not in the tracked set. */
    ghost function State(): World
      reads this
    {
      World(players,
        set id | id in players && players[id].effects != [] && id !in buffedPlayers,
        set id | id in players && players[id].flagUntil.Some? && id !in flaggedPlayers)
    }

    /** Two worlds with the same players and the same lost ones are the same. */
    lemma StateIs(w: World)
      requires w.players == players
      requires forall id :: id in w.lostBuffs <==> id in players && players[id].effects != [] && id !in buffedPlayers
      requires forall id :: id in w.lostFlags <==> id in players && players[id].flagUntil.Some? && id !in flaggedPlayers
      ensures State() == w
    {
      var t := State();
      forall id ensures id in t.lostBuffs <==> id in w.lostBuffs {}
      forall id ensures id in t.lostFlags <==> id in w.lostFlags {}
    }

    constructor (formula: Formula)
      ensures this.formula == formula && State() == NOBODY && Inv()
    {
      this.formula, players, buffedPlayers, flaggedPlayers := formula, map[], {}, {};
    }

    method Put(id: int, p: Player)
      requires Inv() && PlayerOk(formula, p)
      modifies `players
      ensures Inv() && players == old(players)[id := p]
    {
      players := players[id := p];
    }

    /** Whoever asks gets the stats a fresh computation would give, from the memo or not. */
    method ComputePlayerStats(id: int) returns (s: Computed)
      requires Inv() && id in players
      modifies `players
      ensures Inv() && s == Fresh(formula, old(players[id]))
      ensures players == old(players)[id := Memoized(formula, old(players[id]))]
    {
      var p := players[id];
      if p.valid {
        assert players[id := p] == players;
        return p.cached;
      }
      s := Fresh(formula, p);
      Put(id, p.(cached := s, valid := true));
    }

    /** Building a packet for a connected player computes its stats. */
    method SendUserInfo(id: int)
      requires Inv() && id in players
      modifies `players
      ensures Inv() && players == old(players)[id := Shown(formula, old(players[id]))]
    {
      if players[id].connected {
        var _ := ComputePlayerStats(id);
      } else {
        assert players[id := players[id]] == players;
      }
    }

    method RebuildStatMods(id: int)
      requires Inv() && id in players
      modifies `players
      ensures Inv() && players == old(players)[id := Rebuilt(old(players[id]))]
    {
      var p := players[id];
      Put(id, p.(statMods := p.passive + p.equip + Mods(p.effects), valid := false));
    }

    method AddEffect(id: int, b: Buff) returns (added: bool)
      requires Inv() && id in players
      modifies `players, `buffedPlayers
      ensures Inv() && added == !Blocked(old(players[id]).effects, b)
      ensures buffedPlayers == if added then old(buffedPlayers) + {id} else old(buffedPlayers)
      ensures players == old(players)[id := old(players[id]).(effects := Added(old(players[id]).effects, b))]
    {
      var p := players[id];
      AddedStacked(p.effects, b);
      added := !Blocked(p.effects, b);
      if added { buffedPlayers := buffedPlayers + {id}; }
      Put(id, p.(effects := Added(p.effects, b)));
    }

    method ApplyBuff(id: int, b: Buff)
      requires Inv()
      modifies `players, `buffedPlayers
      ensures Inv() && State() == After(formula, old(State()), Cast(id, b))
      ensures buffedPlayers == if id in players && Takes(old(players)[id], b)
        then old(buffedPlayers) + {id} else old(buffedPlayers)
    {
      hide Buffed, Inv;
      if id in players {
        BuffedShape(formula, players[id], b);
        if BuildsNothing(b) {
          assert players[id := players[id]] == players;
        } else {
          ApplyEffect(id, b);
        }
      }
      StateIs(After(formula, old(State()), Cast(id, b)));
    }

    method ApplyEffect(id: int, b: Buff)
      requires Inv() && id in players
      modifies `players, `buffedPlayers
      ensures Inv() && players == old(players)[id := Buffed(formula, old(players)[id], b)]
      ensures buffedPlayers == if Blocked(old(players)[id].effects, b)
        then old(buffedPlayers) else old(buffedPlayers) + {id}
    {
      hide Inv, Added, Blocked, Rebuilt, Shown;
      var added := AddEffect(id, b);
      if !added { return; }
      RebuildStatMods(id);
      SendUserInfo(id);
    }

    method HandleDispel(id: int, skillId: int)
      requires Inv()
      modifies `players, `buffedPlayers
      ensures Inv() && State() == After(formula, old(State()), Dispel(id, skillId))
    {
      hide ToggledOff, Inv;
      if id in players {
        ToggledOffShape(formula, players[id], skillId);
        var _ := ToggleOff(id, skillId);
      }
      StateIs(After(formula, old(State()), Dispel(id, skillId)));
    }

    method ToggleOff(id: int, skillId: int) returns (removed: bool)
      requires Inv() && id in players
      modifies `players, `buffedPlayers
      ensures Inv() && players == old(players)[id := ToggledOff(formula, old(players[id]), skillId)]
      ensures removed <==> exists b :: b in old(players[id]).effects && b.skillId == skillId
      ensures buffedPlayers == if removed && players[id].effects == []
        then old(buffedPlayers) - {id} else old(buffedPlayers)
    {
      var p := players[id];
      removed := exists b :: b in p.effects && b.skillId == skillId;
      if !removed {
        assert players[id := p] == players;
        return;
      }
      TakeOut(id, skillId);
      RebuildStatMods(id);
      SendUserInfo(id);
    }

    method TakeOut(id: int, skillId: int)
      requires Inv() && id in players
      modifies `players, `buffedPlayers
      ensures Inv()
      ensures players == old(players)[id := old(players[id]).(
        effects := WithoutSkill(old(players[id]).effects, skillId))]
      ensures buffedPlayers == if players[id].effects == [] then old(buffedPlayers) - {id} else old(buffedPlayers)
    {
      var p := players[id];
      FilterStacked(p.effects, (b: Buff) => b.skillId != skillId);
      var rest := WithoutSkill(p.effects, skillId);
      Put(id, p.(effects := rest));
      if |rest| == 0 { buffedPlayers := buffedPlayers - {id}; }
    }

    // ---------- Entering, leaving, equipment, levels ----------

    /** World entry: no effects, no flag; the modifiers of passive skills and equipment are in force. */
    method EnterWorld(id: int, p: Player)
      requires Inv()
      modifies `players
      ensures Inv() && State() == After(formula, old(State()), Enter(id, p))
      ensures ModsOk(players[id]) && !players[id].valid && players[id].effects == [] && players[id].flagUntil.None?
    {
      Put(id, Rebuilt(p.(effects := [], flagUntil := None)));
      StateIs(After(formula, old(State()), Enter(id, p)));
    }

    /**
     The disconnect command takes the player out of the tracked sets. A restart that is refused sends it too,
     and the player stays: it is then lost to the sweeps exactly if it has something to be swept.
     */
    method HandleDisconnect(id: int)
      requires Inv()
      modifies `buffedPlayers, `flaggedPlayers
      ensures State() == After(formula, old(State()), Disconnect(id))
      ensures buffedPlayers == old(buffedPlayers) - {id} && flaggedPlayers == old(flaggedPlayers) - {id}
      ensures old(State().Tracked()) ==> (State().Tracked() <==> !Strands(players, Disconnect(id)))
    {
      buffedPlayers, flaggedPlayers := buffedPlayers - {id}, flaggedPlayers - {id};
      StateIs(After(formula, old(State()), Disconnect(id)));
      assert Strands(players, Disconnect(id)) ==> id in State().lostBuffs + State().lostFlags;
    }

    /** A case: a refused restart leaves a player's effect where no sweep will find it, even when it has expired. */
    method RefusedRestart(id: int, b: Buff, now: Time, flagNow: Time)
      requires Inv() && id in players && players[id].effects == [b] && players[id].flagUntil.None? && b.ExpiredBy(now)
      modifies this
      ensures Inv() && id in State().lostBuffs && id in players
      ensures players[id] == old(players)[id] && Served(formula, players[id], now) != players[id]
      ensures State() == After(formula, After(formula, old(State()), Disconnect(id)), Service(now, flagNow))
    {
      ExpiryShows(formula, players[id], b, now);
      HandleDisconnect(id);
      assert id in State().lostBuffs;
      ServiceBuffs(now, flagNow);
    }

    /** A player leaves: the disconnect command, then the removal from the world. */
    method LeaveWorld(id: int)
      requires Inv()
      modifies this
      ensures Inv() && State() == After(formula, old(State()), Leave(id))
      ensures buffedPlayers == old(buffedPlayers) - {id} && flaggedPlayers == old(flaggedPlayers) - {id}
    {
      HandleDisconnect(id);
      players := players - {id};
      StateIs(After(formula, old(State()), Leave(id)));
    }

    /** A return to the lobby removes the player without the command; its id stays tracked, which does no harm. */
    method LeaveToLobby(id: int)
      requires Inv()
      modifies `players
      ensures Inv() && State() == After(formula, old(State()), ReturnToLobby(id))
    {
      players := players - {id};
      StateIs(After(formula, old(State()), ReturnToLobby(id)));
    }

    method RefreshEquipment(id: int, mods: seq<Modifier>)
      requires Inv()
      modifies `players
      ensures Inv() && State() == After(formula, old(State()), Equip(id, mods))
      ensures id in players ==> ModsOk(players[id]) && !players[id].valid && players[id].equip == mods
    {
      if id in players {
        var p := players[id];
        Put(id, Rebuilt(p.(equip := mods)));
      }
      StateIs(After(formula, old(State()), Equip(id, mods)));
    }

    /** The maxima are those of a fresh computation at the new level, the vitals are full, and no memo is left. */
    method ApplyLevelUp(id: int, level: int)
      requires Inv() && id in players
      modifies `players
      ensures Inv() && id in players && players == old(players)[id := players[id]] && players[id].level == level
      ensures var p, s := players[id], Fresh(formula, players[id]);
        && 1 <= p.maxHp && p.hp == p.maxHp as real && p.mp == p.maxMp as real && !p.valid
        && (s.maxHp > 0 ==> p.maxHp == s.maxHp) && (s.maxMp > 0 ==> p.maxMp == s.maxMp)
        && (old(ModsOk(players[id])) ==> ModsOk(p)) && p.effects == old(players[id].effects)
      ensures players[id] == LevelledUp(formula, old(players[id]), level)
    {
      Put(id, LevelledUp(formula, players[id], level));
    }

    /** The part of an EXP award after the new level is looked up. */
    method AwardLevel(id: int, level: int)
      requires Inv()
      modifies `players
      ensures Inv() && State() == After(formula, old(State()), Level(id, level))
    {
      hide Inv;
      if id in players {
        if level > players[id].level { ApplyLevelUp(id, level); }
        SendUserInfo(id);
      }
      StateIs(After(formula, old(State()), Level(id, level)));
    }

    // ---------- Flags ----------

    method SetPvPFlag(id: int, now: Time)
      requires Inv()
      modifies `players, `flaggedPlayers
      ensures Inv() && State() == After(formula, old(State()), Flag(id, now))
      ensures flaggedPlayers == if id in players then old(flaggedPlayers) + {id} else old(flaggedPlayers)
      ensures id in players ==> players[id].flagUntil == Some(now + 120_000_000_000)
    {
      if id in players {
        var was := Flagged(players[id], now);
        flaggedPlayers := flaggedPlayers + {id};
        Put(id, players[id].(flagUntil := Some(now + PVP_FLAG_DURATION)));
        if !was { SendUserInfo(id); }
      }
      StateIs(After(formula, old(State()), Flag(id, now)));
    }

    method ExpireFlag(id: int, now: Time)
      requires Inv()
      modifies `players, `flaggedPlayers
      ensures Inv()
      ensures players == if id in old(players)
        then old(players)[id := FlagExpired(formula, old(players[id]), now)] else old(players)
      ensures flaggedPlayers == if id in players && players[id].flagUntil.Some?
        then old(flaggedPlayers) else old(flaggedPlayers) - {id}
    {
      if id !in players {
        flaggedPlayers := flaggedPlayers - {id};
        return;
      }
      var p := players[id];
      assert players[id := p] == players;
      if p.flagUntil.None? {
        flaggedPlayers := flaggedPlayers - {id};
      } else if now >= p.flagUntil.value {
        Put(id, p.(flagUntil := None));
        flaggedPlayers := flaggedPlayers - {id};
        SendUserInfo(id);
      }
    }

    /** Clearing the expired flags of the tracked players leaves all but the lost as a sweep over all players would. */
    method ExpirePvPFlags(now: Time)
      requires Inv()
      modifies `players, `flaggedPlayers
      ensures Inv() && players == FlagsSwept(formula, old(players), old(State().lostFlags), now)
      ensures State() == old(State()).(players := players)
      ensures forall id :: id in flaggedPlayers <==>
        id in old(flaggedPlayers) && id in players && players[id].flagUntil.Some?
    {
      hide FlagExpired, AllOk, FlagsSwept;
      ghost var was, lost, tracked := players, State().lostFlags, flaggedPlayers;
      var todo := flaggedPlayers;
      while todo != {}
        invariant Inv() && players.Keys == was.Keys && todo <= tracked
        invariant forall id :: id in flaggedPlayers <==>
          id in tracked && (id in todo || (id in players && players[id].flagUntil.Some?))
        invariant forall id :: id in players ==> players[id] == if id in todo || id !in tracked
          then was[id] else FlagExpired(formula, was[id], now)
        decreases |todo|
      {
        ghost var next := Pick(todo);
        var id :| id in todo;
        todo := todo - {id};
        ExpireFlag(id, now);
      }
      FlagsSweptTracked(formula, was, players, tracked, lost, now);
      forall id | id in players ensures players[id].effects == was[id].effects { FlagKeeps(formula, was[id], now); }
      StateIs(old(State()).(players := players));
    }

    // ---------- Ticks and expiry ----------

    method HandleRestoreStats(id: int, hp: int, mp: int)
      requires Inv()
      modifies `players
      ensures Inv()
      ensures players == if id in old(players)
        then old(players)[id := Restored(formula, old(players[id]), hp, mp)] else old(players)
    {
      if id !in players { return; }
      var p := players[id];
      assert players[id := p] == players;
      if p.hp <= 0.0 { return; }
      if hp > 0 { p := p.(hp := Clamp(p.hp + hp as real, p.maxHp)); }
      if mp > 0 { p := p.(mp := Clamp(p.mp + mp as real, p.maxMp)); }
      Put(id, p);
      SendUserInfo(id);
    }

    method SumTicks(ticks: seq<Tick>) returns (hp: int, mp: int)
      ensures hp == TickSum(ticks, TickHP) && mp == TickSum(ticks, TickMP)
    {
      hp, mp := 0, 0;
      for i := 0 to |ticks|
        invariant hp == TickSum(ticks[..i], TickHP) && mp == TickSum(ticks[..i], TickMP)
      {
        assert ticks[..i + 1][..i] == ticks[..i];
        match ticks[i].kind
        case TickHP => hp := hp + ticks[i].power;
        case TickMP => mp := mp + ticks[i].power;
        case TickNone =>
      }
      assert ticks[..|ticks|] == ticks;
    }

    method FireBuffTicks(id: int, b: Buff)
      requires Inv() && id in players
      modifies `players
      ensures Inv() && players == old(players)[id := Ticked(formula, old(players[id]), b)]
    {
      var hp, mp := SumTicks(b.ticks);
      assert players[id := players[id]] == players;
      if hp == 0 && mp == 0 { return; }
      HandleRestoreStats(id, if hp > 0 then hp else 0, if mp > 0 then mp else 0);
      if hp < 0 { ApplyDoT(id, -hp); }
    }

    /** Damage over time stops at one hit point. */
    method ApplyDoT(id: int, damage: int)
      requires Inv() && id in players
      modifies `players
      ensures Inv()
      ensures var p := old(players[id]); players == old(players)[id :=
        p.(hp := if p.hp - damage as real < 1.0 then 1.0 else p.hp - damage as real)]
    {
      var p := players[id];
      var hp := p.hp - damage as real;
      if hp < 1.0 { hp := 1.0; }
      Put(id, p.(hp := hp));
    }

    method TickOne(id: int, i: nat, now: Time)
      requires Inv() && id in players && i < |players[id].effects|
      modifies `players
      ensures Inv() && players == old(players)[id := TickedAt(formula, old(players[id]), i, now)]
      ensures var was := old(players[id].effects[i]);
        was.ticks != [] && was.nextTick.Some? && was.nextTick.value <= now ==>
        var sec := was.ticks[0].intervalSec;
        players[id].effects[i].nextTick == Some(now + if sec > 0 then sec * 1_000_000_000 else 0)
    {
      var p := players[id];
      assert players[id := p] == players;
      if !TickDue(p.effects[i], now) { return; }
      TickedKeeps(formula, p, p.effects[i]);
      FireBuffTicks(id, p.effects[i]);
      var effects := Rescheduled(p.effects, i, now);
      SameButTicksKeeps(p.effects, effects);
      Put(id, players[id].(effects := effects));
    }

    method TickAll(id: int, now: Time)
      requires Inv() && id in players
      modifies `players
      ensures Inv()
      ensures players == old(players)[id := TickedAll(formula, old(players[id]), |old(players[id]).effects|, now)]
    {
      ghost var was := players;
      var count := |players[id].effects|;
      for i := 0 to count
        invariant Inv() && players == was[id := TickedAll(formula, was[id], i, now)]
      {
        TickOne(id, i, now);
      }
    }

    /** Drops the expired effects; the player is rebuilt and told if there were any. */
    method ExpireEffects(id: int, now: Time)
      requires Inv() && id in players
      modifies `players, `buffedPlayers
      ensures Inv()
      ensures var p := old(players[id]); players == old(players)[id :=
        if Expired(p.effects, now) == [] then p else Shown(formula, Rebuilt(p.(effects := Unexpired(p.effects, now))))]
      ensures buffedPlayers == if Expired(old(players[id].effects), now) != [] && players[id].effects == []
        then old(buffedPlayers) - {id} else old(buffedPlayers)
    {
      var p := players[id];
      assert players[id := p] == players;
      if Expired(p.effects, now) == [] { return; }
      FilterStacked(p.effects, (b: Buff) => !b.ExpiredBy(now));
      var rest := Unexpired(p.effects, now);
      Put(id, p.(effects := rest));
      RebuildStatMods(id);
      SendUserInfo(id);
      if |rest| == 0 { buffedPlayers := buffedPlayers - {id}; }
    }

    method ServeOne(id: int, now: Time)
      requires Inv()
      modifies `players, `buffedPlayers
      ensures Inv()
      ensures players == if id in old(players)
        then old(players)[id := Served(formula, old(players[id]), now)] else old(players)
      ensures buffedPlayers == if id in players && players[id].effects != []
        then old(buffedPlayers) else old(buffedPlayers) - {id}
    {
      if id !in players || |players[id].effects| == 0 {
        buffedPlayers := buffedPlayers - {id};
        if id in players { assert players[id := players[id]] == players; }
        return;
      }
      hide Inv, TickedAll, Expired, Unexpired, Rebuilt, Shown;
      ghost var p := players[id];
      assert players[id := p] == players;
      if players[id].hp > 0.0 { TickAll(id, now); }
      ServedShape(formula, p, now);
      ExpireEffects(id, now);
    }

    /** Servicing the tracked players leaves all but the lost as servicing all players would. */
    method ServeTracked(now: Time)
      requires Inv()
      modifies `players, `buffedPlayers
      ensures Inv() && players == Swept(formula, old(players), old(State().lostBuffs), now)
      ensures State() == old(State()).(players := players)
      ensures forall id :: id in buffedPlayers <==>
        id in old(buffedPlayers) && id in players && players[id].effects != []
    {
      hide Served, PlayerOk, Swept;
      ghost var was, lost, tracked := players, State().lostBuffs, buffedPlayers;
      var todo := buffedPlayers;
      while todo != {}
        invariant Inv() && players.Keys == was.Keys && todo <= tracked
        invariant forall id :: id in buffedPlayers <==>
          id in tracked && (id in todo || (id in players && players[id].effects != []))
        invariant forall id :: id in players ==> players[id] == if id in todo || id !in tracked
          then was[id] else Served(formula, was[id], now)
        decreases |todo|
      {
        ghost var next := Pick(todo);
        var id :| id in todo;
        todo := todo - {id};
        ServeOne(id, now);
      }
      forall id | id in players ensures players[id].flagUntil == was[id].flagUntil {
        ServedKeeps(formula, was[id], now);
      }
      SweptTracked(formula, was, players, tracked, lost, now);
      StateIs(old(State()).(players := players));
    }

    /** Flags first, then ticks and expiry. */
    method ServiceBuffs(now: Time, flagNow: Time)
      requires Inv()
      modifies this
      ensures Inv() && State() == After(formula, old(State()), Service(now, flagNow))
    {
      ExpirePvPFlags(flagNow);
      ServeTracked(now);
      ServiceFindsNobody(formula, old(State()), now, flagNow);
    }

    // ---------- Runs ----------

    method Perform(s: Step)
      requires Inv()
      modifies this
      ensures Inv() && State() == After(formula, old(State()), s)
    {
      match s
      case Leave(id) => LeaveWorld(id);
      case ReturnToLobby(id) => LeaveToLobby(id);
      case Disconnect(id) => HandleDisconnect(id);
      case Service(now, flagNow) => ServiceBuffs(now, flagNow);
      case _ => PerformOne(s);
    }

    /** A step that brings in or changes one player. */
    method PerformOne(s: Step)
      requires Inv() && !s.Leave? && !s.ReturnToLobby? && !s.Disconnect? && !s.Service?
      modifies this
      ensures Inv() && State() == After(formula, old(State()), s)
    {
      match s
      case Enter(id, p) => EnterWorld(id, p);
      case Cast(id, b) => ApplyBuff(id, b);
      case Dispel(id, skillId) => HandleDispel(id, skillId);
      case Equip(id, mods) => RefreshEquipment(id, mods);
      case Level(id, level) => AwardLevel(id, level);
      case Flag(id, now) => SetPvPFlag(id, now);
      case Consult(id) => ConsultStats(id);
    }

    method ConsultStats(id: int)
      requires Inv()
      modifies `players
      ensures Inv() && State() == After(formula, old(State()), Consult(id))
    {
      if id in players { var _ := ComputePlayerStats(id); }
      StateIs(After(formula, old(State()), Consult(id)));
    }

    /** The loop with its memos and tracked sets does what the steps say without them, the lost ones kept in mind. */
    method Run(steps: seq<Step>)
      requires Inv()
      modifies this
      ensures Inv() && State() == AfterAll(formula, old(State()), steps)
    {
      for n := 0 to |steps|
        invariant Inv() && State() == AfterAll(formula, old(State()), steps[..n])
      {
        Perform(steps[n]);
        assert steps[..n + 1][..n] == steps[..n];
      }
      assert steps[..|steps|] == steps;
    }
  }
}
