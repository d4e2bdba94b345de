/**
 What each event and each command does to what the game loop holds, said by itself: a relation between
 the state before and the state after, in which whatever is not named stays as it was. Durations are
 written out in nanoseconds. The loop's handlers are proved to keep to these relations.
 */
module LoopEffects {
  import opened Events
  import opened LoopState
  import opened Skills
  import opened Wrappers

  datatype Command =
    | AttackRequest(charId: int, target: int, force: bool)
    | InteractRequest(charId: int, target: int)
    | CancelAttack(charId: int)
    | EnterWorld(charId: int, hp: nat, maxHp: nat, mp: nat, maxMp: nat, cp: int, maxCp: nat, knownSkills: map<int, int>)
    | Disconnect(charId: int)
    | LeaveWorld(charId: int)
    | MoveToLocation(charId: int)
    | SetTarget(charId: int, target: int)
    | Teleport(charId: int)
    | Revive(charId: int)
    | RestoreStats(charId: int, hpGain: int, mpGain: int, cpGain: int)
    | CastSkill(cmd: CastRequest, checks: Checks)
    | ItemSkillCast(charId: int, skillId: int, level: int)
    | LearnSkill(charId: int, skillId: int, level: int, taught: bool)
    | Unrelated  // dispels, reports of positions, chat and lists of skills to learn: nothing here changes

  /** What the loop serves: commands, ticks, and the rounds of regeneration and of effects that follow some ticks. */
  datatype Input =
    | Command(cmd: Command)
    | Tick(pending: seq<Command>)
    | Regenerate(gains: map<int, Gain>)
    | ServeEffects(rounds: seq<Round>)

  type SkillTable = map<(int, int), Skill>

  /** What the loop holds. */
  datatype View = View(
    clock: Time, castSeq: int, lastNpcId: int, players: map<int, Player>, npcs: map<int, Npc>,
    spawnInfo: map<int, SpawnInfo>, castPending: map<int, CastRequest>, interactPending: map<int, int>,
    combat: map<int, Combat>, npcCombat: map<int, int>, inCombat: set<int>, log: CastLog, queued: multiset<Event>)

  /** What positions, stats and dice decide when an event is executed, or a command obeyed. */
  datatype Chance = Chance(inReach: bool, speed: int, hit: bool, damage: int, checks: Checks, rolls: Rolls)

  // ---------- Attacks that stop ----------

  /** An attack ends, and its stance is to end 15 s later. */
  ghost predicate AttackEnded(who: int, b: View, a: View) {
    if who in b.combat then
      && b.clock <= a.clock
      && a == b.(clock := a.clock, combat := b.combat[who := b.combat[who].(autoAttacking := false)],
                 queued := b.queued + multiset{CombatStanceTimeout(a.clock + 15_000_000_000, who)})
    else a == b
  }

  /** The same of an attack that is still going on, and of no other. */
  ghost predicate AttackAbandoned(who: int, b: View, a: View) {
    if who in b.combat && b.combat[who].autoAttacking then AttackEnded(who, b, a) else a == b
  }

  /** The end of an attack is about the attack, its stance's end, and the clock. */
  lemma AttackEndsOnly(who: int, b: View, a: View)
    requires AttackEnded(who, b, a)
    ensures b.clock <= a.clock && a == b.(clock := a.clock, combat := a.combat, queued := a.queued)
  {}

  lemma EndedBesides(who: int, b: View, m: View, c: View, a: View)
    requires AttackEnded(who, b, m)
    requires c.clock == b.clock && c.combat == b.combat && c.queued == b.queued
    requires a == c.(clock := m.clock, combat := m.combat, queued := m.queued)
    ensures AttackEnded(who, c, a)
  {}

  lemma AbandonedBesides(who: int, b: View, m: View, c: View, a: View)
    requires AttackAbandoned(who, b, m)
    requires c.clock == b.clock && c.combat == b.combat && c.queued == b.queued
    requires a == c.(clock := m.clock, combat := m.combat, queued := m.queued)
    ensures AttackAbandoned(who, c, a)
  {
    if who in b.combat && b.combat[who].autoAttacking { EndedBesides(who, b, m, c, a); }
  }

  lemma AbandonedElsewhere(who: int, b: View, a: View)
    requires AttackAbandoned(who, b, a)
    ensures b.clock <= a.clock && a == b.(clock := a.clock, combat := a.combat, queued := a.queued)
  {}

  /** Every attack on the target stops, and nobody else's. */
  ghost predicate AllReleased(was: map<int, Combat>, combat: map<int, Combat>, target: int) {
    combat.Keys == was.Keys && forall who :: who in was ==>
      combat[who] == if was[who].target == target then Combat(false, target, was[who].lastAttack) else was[who]
  }

  // ---------- Damage ----------

  /** Those who draw their weapons do so; a living player loses the damage, and dies without hit points. */
  ghost predicate PlayerHurt(who: int, damage: int, drawing: set<int>, b: View, a: View)
    requires who in b.players
  {
    var p, armed := b.players[who], b.(inCombat := b.inCombat + drawing * b.players.Keys);
    if p.hp <= 0.0 then a == b
    else if p.hp > damage as real
    then a == armed.(players := b.players[who := p.(hp := p.hp - damage as real)])
    else PlayerKilled(who, armed, a)
  }

  /** A player without hit points attacks nobody, is attacked by no NPC, and is out of its stance. */
  ghost predicate PlayerKilled(who: int, b: View, a: View)
    requires who in b.players
  {
    AttackEnded(who, b.(players := b.players[who := b.players[who].(hp := 0.0)],
                        npcCombat := LeftAlone(b.npcCombat, who), inCombat := b.inCombat - {who}), a)
  }

  /** A living, attackable NPC turns on the player, unless it does already: its first swing comes within 500 ms. */
  ghost predicate NpcTurned(id: int, who: int, b: View, a: View) {
    if id !in b.npcs || b.npcs[id].dead || !b.npcs[id].attackable || (id in b.npcCombat && b.npcCombat[id] == who)
    then a == b
    else
      && b.clock <= a.clock
      && exists e: Event ::
        && e.NpcNextAttack? && e.npc == id && e.charId == who && a.clock <= e.at < a.clock + 500_000_000
        && a == b.(clock := a.clock, npcCombat := b.npcCombat[id := who], queued := b.queued + multiset{e})
  }

  /** An NPC loses the damage and turns on whom it hates most, or dies without hit points. */
  ghost predicate NpcHurt(id: int, damage: int, b: View, a: View)
    requires id in b.npcs
  {
    var n := b.npcs[id];
    if n.hp > damage as real
    then exists who :: NpcWounded(id, who, damage, b, a)
    else NpcKilled(id, b, a)
  }

  ghost predicate NpcWounded(id: int, who: int, damage: int, b: View, a: View)
    requires id in b.npcs
  {
    NpcTurned(id, who, b.(npcs := b.npcs[id := b.npcs[id].(hp := b.npcs[id].hp - damage as real)]), a)
  }

  /**
   The NPC is dead and attacks nobody, and nobody attacks it any more. By one reading of the clock its corpse decays
   7 s and its spawn point respawns 60 s later.
   */
  ghost predicate NpcKilled(id: int, b: View, a: View)
    requires id in b.npcs
  {
    && b.clock <= a.clock
    && a == b.(clock := a.clock, npcs := b.npcs[id := b.npcs[id].(dead := true, hp := 0.0)], players := a.players,
               npcCombat := b.npcCombat - {id}, combat := a.combat, queued := a.queued)
    && Awarded(b.players, a.players) && AllReleased(b.combat, a.combat, id)
    && b.queued + multiset{CorpseDecay(a.clock + 7_000_000_000, id), Respawn(a.clock + 60_000_000_000, id)} <= a.queued
  }

  /** Weapons are drawn first, and then the damage is done. */
  lemma ArmedAndHurt(who: int, damage: int, drawing: set<int>, b: View, a: View)
    requires who in b.players && b.players[who].hp > 0.0
    requires PlayerHurt(who, damage, {}, b.(inCombat := b.inCombat + drawing * b.players.Keys), a)
    ensures PlayerHurt(who, damage, drawing, b, a)
  {
    hide PlayerKilled;
    assert b.inCombat + drawing * b.players.Keys + {} * b.players.Keys == b.inCombat + drawing * b.players.Keys;
  }

  lemma NoHarmToTheDead(who: int, damage: int, drawing: set<int>, b: View)
    ensures who in b.players && b.players[who].hp <= 0.0 ==> PlayerHurt(who, damage, drawing, b, b)
  {}

  /** The NPC attacks nobody and nobody attacks it; somebody may have levelled up. */
  ghost predicate AttackersLetGo(id: int, b: View, a: View) {
    && b.clock <= a.clock && b.queued <= a.queued && Awarded(b.players, a.players)
    && AllReleased(b.combat, a.combat, id)
    && a == b.(clock := a.clock, players := a.players, npcCombat := b.npcCombat - {id}, combat := a.combat,
               queued := a.queued)
  }

  lemma KilledNpc(id: int, b: View, c: View, a: View)
    requires id in b.npcs && AttackersLetGo(id, b, c) && c.clock <= a.clock
    requires a == c.(clock := a.clock, npcs := b.npcs[id := b.npcs[id].(dead := true, hp := 0.0)], queued := c.queued
      + multiset{CorpseDecay(a.clock + 7_000_000_000, id)} + multiset{Respawn(a.clock + 60_000_000_000, id)})
    ensures NpcKilled(id, b, a)
  {
    hide Awarded, AllReleased;
  }

  /** The wound, then the death without hit points. */
  lemma DamagedNpc(id: int, damage: int, b: View, w: View, a: View)
    requires id in b.npcs && exists who :: NpcTurned(id, who, b.(npcs := w.npcs), w)
    requires w.npcs == b.npcs[id := Wounded(b.npcs[id], damage)]
    requires if w.npcs[id].hp > 0.0 then a == w else NpcKilled(id, w, a)
    ensures NpcHurt(id, damage, b, a)
  {
    var who :| NpcTurned(id, who, b.(npcs := w.npcs), w);
    if b.npcs[id].hp > damage as real {
      hide NpcTurned, NpcKilled;
      assert NpcWounded(id, who, damage, b, a);
    } else {
      TurnedAndKilled(id, who, b, w, a);
    }
  }

  lemma TurnedAndKilled(id: int, who: int, b: View, w: View, a: View)
    requires id in b.npcs && NpcTurned(id, who, b.(npcs := w.npcs), w) && id in w.npcs
    requires w.npcs == b.npcs[id := b.npcs[id].(hp := 0.0)] && NpcKilled(id, w, a)
    ensures NpcKilled(id, b, a)
  {
    hide Awarded, AllReleased;
    OnlyTurned(id, who, b.(npcs := w.npcs), w);
  }

  lemma OnlyTurned(id: int, who: int, b: View, w: View)
    requires NpcTurned(id, who, b, w)
    ensures b.clock <= w.clock && b.queued <= w.queued && w.npcCombat - {id} == b.npcCombat - {id}
    ensures w == b.(clock := w.clock, npcCombat := w.npcCombat, queued := w.queued)
  {}

  // ---------- Skills ----------

  /** A skill takes effect, unless it is one that lasts. */
  ghost predicate SkillHappened(skill: Skill, caster: int, target: int, rolls: Rolls, b: View, a: View)
    requires caster in b.players
  {
    if skill.operateType in {A2, A3, A4, DA2, Toggle} then a == b
    else
      && b.clock <= a.clock
      && SkillDone(b.players, b.npcs, a.players, a.npcs, caster, target, skill, rolls)
      && a == b.(clock := a.clock, players := a.players, npcs := a.npcs, combat := a.combat, npcCombat := a.npcCombat,
                 inCombat := a.inCombat, queued := a.queued)
      && var (p, escape) := Gathered(skill.effects);
        FoughtOut(p, escape, caster, target, rolls,
                  b.(players := Soothed(b.players, caster, target, p, escape, rolls)), a)
  }

  /** What a skill does to attacks and stances: those of whom it kills end, and so does one of whom it takes to town. */
  ghost predicate FoughtOut(p: Powers, escape: Option<bool>, caster: int, target: int, rolls: Rolls, b: View, a: View) {
    if escape.Some? then
      && a.combat == (if escape.value && rolls.respawnPoint then Stopped(b.combat, caster) else b.combat)
      && a.npcCombat == b.npcCombat && a.inCombat == b.inCombat
    else if p.magic <= 0 && p.physical <= 0 && p.drain <= 0 then SameFights(b, a)
    else if target in b.players && target != caster then PlayerFoughtOut(caster, target, b, a)
    else if target in b.npcs && !b.npcs[target].dead then NpcFoughtOut(target, b, a)
    else SameFights(b, a)
  }

  ghost predicate SameFights(b: View, a: View) {
    a.combat == b.combat && a.npcCombat == b.npcCombat && a.inCombat == b.inCombat
  }

  ghost predicate PlayerFoughtOut(caster: int, target: int, b: View, a: View)
    requires target in b.players
  {
    if b.players[target].hp <= 0.0 || target !in a.players then SameFights(b, a)
    else if a.players[target].hp > 0.0 then
      && a.combat == b.combat && a.npcCombat == b.npcCombat
      && a.inCombat == b.inCombat + {caster, target} * b.players.Keys
    else
      && a.combat == Stopped(b.combat, target) && a.npcCombat == LeftAlone(b.npcCombat, target)
      && a.inCombat == b.inCombat + {caster} * b.players.Keys - {target}
  }

  ghost predicate NpcFoughtOut(target: int, b: View, a: View) {
    && a.inCombat == b.inCombat
    && if target in a.npcs && a.npcs[target].hp <= 0.0
       then AllReleased(b.combat, a.combat, target) && a.npcCombat == b.npcCombat - {target}
       else a.combat == b.combat && a.npcCombat - {target} == b.npcCombat - {target}
  }

  lemma NoFightWithTheDead(caster: int, target: int, b: View)
    ensures target in b.players && b.players[target].hp <= 0.0 ==> PlayerFoughtOut(caster, target, b, b)
  {}

  /** What heals the caster afterwards is no fight. */
  lemma FoughtOutBesides(caster: int, target: int, b: View, m: View, a: View)
    requires target in b.players && PlayerFoughtOut(caster, target, b, m) && target in m.players && target in a.players
    requires a == m.(players := a.players) && a.players[target] == m.players[target]
    ensures PlayerFoughtOut(caster, target, b, a)
  {}

  lemma HurtAndFoughtOut(caster: int, target: int, damage: int, b: View, a: View)
    requires target in b.players && caster in b.players && target != caster && target in a.players
    requires PlayerHurt(target, damage, {caster, target}, b, a)
    ensures PlayerFoughtOut(caster, target, b, a)
  {
    if b.players[target].hp > 0.0 && b.players[target].hp <= damage as real {
      assert b.inCombat + {caster, target} * b.players.Keys - {target}
        == b.inCombat + {caster} * b.players.Keys - {target};
    }
  }

  lemma NothingDone(players: map<int, Player>, npcs: map<int, Npc>, caster: int, target: int, skill: Skill,
                    rolls: Rolls)
    requires caster in players && skill.IsBuff()
    ensures SkillDone(players, npcs, players, npcs, caster, target, skill, rolls)
  {}

  lemma HurtFoughtOut(target: int, damage: int, b: View, a: View)
    requires target in b.npcs && NpcHurt(target, damage, b, a)
    ensures NpcFoughtOut(target, b, a)
  {
    hide Awarded, AllReleased, NpcTurned;
    if b.npcs[target].hp > damage as real {
      var who :| NpcWounded(target, who, damage, b, a);
      var wounded := b.(npcs := b.npcs[target := b.npcs[target].(hp := b.npcs[target].hp - damage as real)]);
      OnlyTurned(target, who, wounded, a);
    }
  }

  lemma FoughtOutTwice(target: int, b: View, m: View, a: View)
    requires NpcFoughtOut(target, b, m) && NpcFoughtOut(target, m, a) && target in m.npcs && target in a.npcs
    requires a.npcs[target].hp > 0.0 ==> m.npcs[target].hp > 0.0
    ensures NpcFoughtOut(target, b, a)
  {
    if m.npcs[target].hp <= 0.0 {
      assert m.npcCombat - {target} == m.npcCombat;
    } else if a.npcs[target].hp <= 0.0 {
      assert m.npcCombat - {target} == b.npcCombat - {target};
    }
  }

  /** The target a cast applies to: the caster, or the object it aims at; 0 if a hostile skill is aimed at nothing. */
  ghost function Aim(who: int, aimed: int, skill: Skill): int {
    if skill.selfTarget || (aimed == 0 && !skill.offensive) then who else aimed
  }

  /** The caster runs towards a target out of range, and the first check comes 300 ms later; pressed again, nothing. */
  ghost predicate ApproachBegun(cmd: CastRequest, target: int, b: View, a: View) {
    if cmd.charId in b.castPending && b.castPending[cmd.charId].skillId == cmd.skillId then a == b
    else RunBegun(cmd, target, b, a)
  }

  /** An attack or an approach to talk is given up for it. */
  ghost predicate RunBegun(cmd: CastRequest, target: int, b: View, a: View) {
    exists c: View ::
      && AttackAbandoned(cmd.charId, b, c) && c.clock <= a.clock
      && a == c.(clock := a.clock, interactPending := b.interactPending - {cmd.charId},
                 castPending := b.castPending[cmd.charId := cmd],
                 queued := c.queued + multiset{CastApproach(a.clock + 300_000_000, cmd.charId, target, cmd)})
  }

  lemma RunIsBegun(cmd: CastRequest, target: int, b: View, c: View, a: View)
    requires AttackAbandoned(cmd.charId, b, c) && c.clock <= a.clock
    requires a == c.(clock := a.clock, interactPending := c.interactPending - {cmd.charId},
                     castPending := c.castPending[cmd.charId := cmd],
                     queued := c.queued + multiset{CastApproach(a.clock + 300_000_000, cmd.charId, target, cmd)})
    ensures RunBegun(cmd, target, b, a)
  {
    AbandonedElsewhere(cmd.charId, b, c);
  }

  /** A timed cast: a new id, and a hit queued for when it ends. */
  ghost predicate CastTimed(cmd: CastRequest, level: int, skill: Skill, target: int, speed: int, b: View, a: View)
    requires cmd.charId in b.players
  {
    var who, id, hitAt := cmd.charId, b.castSeq + 1, a.clock + CastTime(skill.hitTime, speed);
    && b.clock <= a.clock
    && a == b.(clock := a.clock, castSeq := id, log := b.log.(issued := b.log.issued[id := Issue(hitAt, who)]),
               players := b.players[who := b.players[who].(casting := Some(Cast(id, cmd.skillId, level, target)))],
               queued := b.queued + multiset{CastHit(hitAt, who, id)})
  }

  /** Its first cost is paid before. */
  ghost predicate CastBegun(cmd: CastRequest, level: int, skill: Skill, target: int, speed: int, b: View, a: View)
    requires cmd.charId in b.players
  {
    var p := b.players[cmd.charId];
    CastTimed(cmd, level, skill, target, speed,
              b.(players := b.players[cmd.charId := p.(mp := p.mp - skill.mpConsume1 as real)]), a)
  }

  lemma CastIsBegun(cmd: CastRequest, level: int, skill: Skill, target: int, speed: int, b: View, c: View, a: View)
    requires cmd.charId in b.players
    requires var p := b.players[cmd.charId];
      c == b.(players := b.players[cmd.charId := p.(mp := p.mp - skill.mpConsume1 as real)])
    requires CastTimed(cmd, level, skill, target, speed, c, a)
    ensures CastBegun(cmd, level, skill, target, speed, b, a)
  {}

  /** The guards of a cast request in their order, and what follows when they let it through. */
  ghost predicate RequestDone(skills: SkillTable, cmd: CastRequest, checks: Checks, speed: int, b: View, a: View) {
    var who := cmd.charId;
    if who !in b.players || b.players[who].hp <= 0.0 || b.players[who].casting.Some?
       || cmd.skillId !in b.players[who].knownSkills then a == b
    else
      var p, level := b.players[who], b.players[who].knownSkills[cmd.skillId];
      if level <= 0 || (cmd.skillId, level) !in skills then a == b
      else SkillRequested(cmd, level, skills[(cmd.skillId, level)], checks, speed, b, a)
  }

  ghost predicate SkillRequested(cmd: CastRequest, level: int, skill: Skill, checks: Checks, speed: int,
                                 b: View, a: View)
    requires cmd.charId in b.players
  {
    var who, target := cmd.charId, Aim(cmd.charId, b.players[cmd.charId].target, skill);
    if skill.operateType.Passive? || (skill.operateType.Toggle? && checks.toggledOff) || checks.onReuse || target == 0
    then a == b
    else if skill.castRange > 0 && target != who && !checks.inRange then ApproachBegun(cmd, target, b, a)
    else TargetReached(cmd, level, skill, target, checks, speed, b.(castPending := b.castPending - {who}), a)
  }

  ghost predicate TargetReached(cmd: CastRequest, level: int, skill: Skill, target: int, checks: Checks,
                                speed: int, b: View, a: View)
    requires cmd.charId in b.players
  {
    var who, p := cmd.charId, b.players[cmd.charId];
    if (skill.offensive && target != who && target in b.players && !checks.pvpAllowed)
       || p.mp.Floor < skill.mpConsume1 + skill.mpConsume2 then a == b
    else if skill.operateType.Toggle?
    then a == b.(players := b.players[who := p.(mp := p.mp - skill.mpConsume1 as real)])
    else CastBegun(cmd, level, skill, target, speed, b, a)
  }

  /**
   The guards of a request: a living player who casts nothing; a known skill that is not passive, neither to be
   toggled off nor on reuse; a target in range that may be attacked if need be; mana for both costs.
   */
  ghost predicate Admitted(skills: SkillTable, cmd: CastRequest, checks: Checks, b: View) {
    && cmd.charId in b.players && b.players[cmd.charId].hp > 0.0 && b.players[cmd.charId].casting.None?
    && cmd.skillId in b.players[cmd.charId].knownSkills && b.players[cmd.charId].knownSkills[cmd.skillId] > 0
    && (cmd.skillId, b.players[cmd.charId].knownSkills[cmd.skillId]) in skills
    && var who, p := cmd.charId, b.players[cmd.charId];
      var skill := skills[(cmd.skillId, p.knownSkills[cmd.skillId])];
      var target := Aim(who, p.target, skill);
      && !skill.operateType.Passive? && !(skill.operateType.Toggle? && checks.toggledOff) && !checks.onReuse
      && target != 0 && (skill.castRange <= 0 || target == who || checks.inRange)
      && !(skill.offensive && target != who && target in b.players && !checks.pvpAllowed)
      && p.mp.Floor >= skill.mpConsume1 + skill.mpConsume2
  }

  lemma RequestRefused(skills: SkillTable, cmd: CastRequest, checks: Checks, speed: int, b: View, a: View)
    requires RequestDone(skills, cmd, checks, speed, b, a) && !Admitted(skills, cmd, checks, b)
    ensures SameCasting(b, a)
  {
    hide ApproachBegun, CastBegun, Aim;
    forall target | ApproachBegun(cmd, target, b, a) ensures SameCasting(b, a) { NobodyCasts(cmd, target, b, a); }
  }

  ghost predicate SameCasting(b: View, a: View) {
    a.players == b.players && a.npcs == b.npcs && a.castSeq == b.castSeq && a.log == b.log
  }

  lemma NobodyCasts(cmd: CastRequest, target: int, b: View, a: View)
    requires ApproachBegun(cmd, target, b, a)
    ensures SameCasting(b, a)
  {}

  /** A cast begins, under a new id and with mana paid, exactly if the guards admit it; so does a toggle, without id. */
  lemma RequestAdmitted(skills: SkillTable, cmd: CastRequest, checks: Checks, speed: int, b: View, a: View)
    requires RequestDone(skills, cmd, checks, speed, b, a)
    ensures if !Admitted(skills, cmd, checks, b) then SameCasting(b, a) else
        var p, level := b.players[cmd.charId], b.players[cmd.charId].knownSkills[cmd.skillId];
        var skill := skills[(cmd.skillId, level)];
        var paid := p.(mp := p.mp - skill.mpConsume1 as real);
        var casting := Some(Cast(a.castSeq, cmd.skillId, level, Aim(cmd.charId, p.target, skill)));
        if skill.operateType.Toggle? then a.players == b.players[cmd.charId := paid] && a.castSeq == b.castSeq
        else a.castSeq == b.castSeq + 1 && a.players == b.players[cmd.charId := paid.(casting := casting)]
  {
    hide ApproachBegun, CastTime;
    if !Admitted(skills, cmd, checks, b) { RequestRefused(skills, cmd, checks, speed, b, a); }
  }

  /** The second cost of a cast is taken if there is enough, and the skill takes effect either way. */
  ghost predicate CastLanded(skills: SkillTable, e: Event, rolls: Rolls, b: View, a: View)
    requires e.CastHit? && e.charId in b.players && b.players[e.charId].casting.Some?
    requires (b.players[e.charId].casting.value.skillId, b.players[e.charId].casting.value.level) in skills
  {
    var p, cast := b.players[e.charId], b.players[e.charId].casting.value;
    var skill := skills[(cast.skillId, cast.level)];
    var left := if p.mp.Floor < skill.mpConsume2 then p.mp else p.mp - skill.mpConsume2 as real;
    SkillHappened(skill, e.charId, cast.target, rolls,
                  b.(players := b.players[e.charId := p.(casting := None, mp := left)],
                     log := b.log.(applied := b.log.applied + multiset{e.castId})), a)
  }

  // ---------- Events ----------

  /** A hit that finds its own cast in progress ends it; of a living caster and a skill that exists it is applied. */
  ghost predicate CastHitDone(skills: SkillTable, e: Event, rolls: Rolls, b: View, a: View)
    requires e.CastHit?
  {
    if e.charId !in b.players || b.players[e.charId].casting.None? || b.players[e.charId].casting.value.id != e.castId
    then a == b
    else
      var p, cast := b.players[e.charId], b.players[e.charId].casting.value;
      if p.hp <= 0.0 || (cast.skillId, cast.level) !in skills
      then a == b.(players := b.players[e.charId := p.(casting := None)])
      else CastLanded(skills, e, rolls, b, a)
  }

  /** The approach is still the player's last word. */
  ghost predicate Pursued(e: Event, b: View)
    requires e.CastApproach?
  {
    e.charId in b.castPending && b.castPending[e.charId].skillId == e.cmd.skillId
  }

  /** The caster is there, lives, casts nothing, still aims at the target, and knows the skill. */
  ghost predicate CanGoOn(skills: SkillTable, e: Event, b: View)
    requires e.CastApproach?
  {
    && e.charId in b.players && b.players[e.charId].hp > 0.0 && b.players[e.charId].casting.None?
    && (e.target == e.charId || b.players[e.charId].target == e.target)
    && (e.cmd.skillId, KnownLevel(b.players[e.charId], e.cmd.skillId)) in skills
  }

  ghost function KnownLevel(p: Player, skillId: int): int {
    if skillId in p.knownSkills then p.knownSkills[skillId] else 0
  }

  ghost predicate NeedsReach(skills: SkillTable, e: Event, b: View)
    requires e.CastApproach? && CanGoOn(skills, e, b)
  {
    skills[(e.cmd.skillId, KnownLevel(b.players[e.charId], e.cmd.skillId))].castRange > 0 && e.target != e.charId
  }

  /** An approach that nobody gave up: checked again 400 ms later while out of range, and made a request on arrival. */
  ghost predicate CastApproachDone(skills: SkillTable, e: Event, luck: Chance, b: View, a: View)
    requires e.CastApproach?
  {
    var ended := b.(castPending := b.castPending - {e.charId});
    if !Pursued(e, b) then a == b
    else if !CanGoOn(skills, e, b) then a == ended
    else if NeedsReach(skills, e, b) && !luck.inReach then
      && b.clock <= a.clock
      && a == b.(clock := a.clock,
                 queued := b.queued + multiset{CastApproach(a.clock + 400_000_000, e.charId, e.target, e.cmd)})
    else RequestDone(skills, e.cmd, luck.checks, luck.speed, ended, a)
  }

  /** An approach to talk goes on while the NPC lives and is still the target, and ends on arrival. */
  ghost predicate InteractApproachDone(e: Event, inReach: bool, b: View, a: View)
    requires e.InteractApproach?
  {
    var who, ended := e.charId, b.(interactPending := b.interactPending - {e.charId});
    if who !in b.interactPending || b.interactPending[who] != e.target then a == b
    else if e.target !in b.npcs || b.npcs[e.target].dead || who !in b.players || b.players[who].target != e.target
       || inReach then a == ended
    else
      && b.clock <= a.clock
      && a == b.(clock := a.clock,
                 queued := b.queued + multiset{InteractApproach(a.clock + 400_000_000, who, e.target)})
  }

  /** A swing that hits lands after half the attack time. */
  ghost function HitOf(e: Event, t: Time, ms: int, hit: bool, damage: int): multiset<Event>
    requires e.NextAttack?
  {
    if hit then multiset{Hit(t + ms / 2 * 1_000_000, e.charId, e.target, damage)} else multiset{}
  }

  /** The next one follows after all of it. */
  ghost function NextOf(e: Event, t: Time, ms: int): Event
    requires e.NextAttack?
  {
    NextAttack(t + ms * 1_000_000, e.charId, e.target)
  }

  /** The weapon is drawn, the swing is the last one as of now, and what it leads to is queued. */
  ghost predicate SwingMade(e: Event, speed: int, hit: bool, damage: int, b: View, a: View)
    requires e.NextAttack? && e.charId in b.combat
  {
    var who, ms := e.charId, CalcAttackSpeed(speed);
    && b.clock <= a.clock
    && a == b.(clock := a.clock, inCombat := b.inCombat + {who},
               combat := b.combat[who := b.combat[who].(lastAttack := a.clock)],
               queued := b.queued + HitOf(e, a.clock, ms, hit, damage) + multiset{NextOf(e, a.clock, ms)})
  }

  ghost predicate SwingPutOff(e: Event, b: View, a: View)
    requires e.NextAttack?
  {
    && b.clock <= a.clock
    && a == b.(clock := a.clock, queued := b.queued + multiset{NextAttack(a.clock + 400_000_000, e.charId, e.target)})
  }

  /** A swing of an attack that goes on ends it if there is no target, is tried again 400 ms later, or happens. */
  ghost predicate NextAttackDone(e: Event, luck: Chance, b: View, a: View)
    requires e.NextAttack?
  {
    var who := e.charId;
    if who !in b.combat || !b.combat[who].autoAttacking || b.combat[who].target != e.target then a == b
    else if who !in b.players || (if e.target in b.players then b.players[e.target].hp <= 0.0
                                  else e.target !in b.npcs || b.npcs[e.target].dead)
    then AttackEnded(who, b, a)
    else if luck.inReach then SwingMade(e, luck.speed, luck.hit, luck.damage, b, a)
    else SwingPutOff(e, b, a)
  }

  /** A landing hit takes its damage from a player, or from an NPC that is not dead. */
  ghost predicate HitDone(e: Event, b: View, a: View)
    requires e.Hit?
  {
    if e.target in b.players then PlayerHurt(e.target, e.damage, {e.charId, e.target}, b, a)
    else if e.target in b.npcs && !b.npcs[e.target].dead then NpcHurt(e.target, e.damage, b, a)
    else a == b
  }

  ghost predicate NpcSwingMade(e: Event, speed: int, hit: bool, damage: int, b: View, a: View)
    requires e.NpcNextAttack?
  {
    var ms := CalcAttackSpeed(speed);
    && b.clock <= a.clock
    && a == b.(clock := a.clock,
               queued := b.queued
                 + (if hit then multiset{NpcHit(a.clock + ms / 2 * 1_000_000, e.npc, e.charId, damage)} else multiset{})
                 + multiset{NpcNextAttack(a.clock + ms * 1_000_000, e.npc, e.charId)})
  }

  /** An NPC gives up a player that is gone, dead or out of reach, and swings at any other. */
  ghost predicate NpcNextAttackDone(e: Event, luck: Chance, b: View, a: View)
    requires e.NpcNextAttack?
  {
    if e.npc !in b.npcCombat || b.npcCombat[e.npc] != e.charId then a == b
    else if e.npc !in b.npcs || b.npcs[e.npc].dead || e.charId !in b.players || b.players[e.charId].hp <= 0.0
       || !luck.inReach then a == b.(npcCombat := b.npcCombat - {e.npc})
    else NpcSwingMade(e, luck.speed, luck.hit, luck.damage, b, a)
  }

  /** One living NPC under the next id takes over the record of the spawn point. */
  ghost predicate RespawnDone(e: Event, b: View, a: View)
    requires e.Respawn?
  {
    var id := b.lastNpcId + 1;
    if e.objectId !in b.spawnInfo then a == b
    else
      && id in a.npcs && a.npcs[id] == Npc(b.spawnInfo[e.objectId], false, a.npcs[id].hp, a.npcs[id].attackable)
      && a == b.(lastNpcId := id, npcs := b.npcs[id := a.npcs[id]],
                 spawnInfo := (b.spawnInfo - {e.objectId})[id := b.spawnInfo[e.objectId]])
  }

  /** A stance ends 15 s after the last swing, unless the attack goes on. */
  ghost predicate TimeoutDone(e: Event, b: View, a: View)
    requires e.CombatStanceTimeout?
  {
    var who := e.charId;
    if who !in b.combat || b.combat[who].autoAttacking then a == b
    else
      && b.clock <= a.clock
      && if a.clock - b.combat[who].lastAttack < 15_000_000_000 then a == b.(clock := a.clock)
         else a == b.(clock := a.clock, combat := b.combat - {who}, inCombat := b.inCombat - {who})
  }

  /** What executing an event does. */
  ghost predicate Happened(skills: SkillTable, e: Event, luck: Chance, b: View, a: View) {
    match e
    case CastApproach(_, _, _, _) => CastApproachDone(skills, e, luck, b, a)
    case InteractApproach(_, _, _) => InteractApproachDone(e, luck.inReach, b, a)
    case NextAttack(_, _, _) => NextAttackDone(e, luck, b, a)
    case NpcNextAttack(_, _, _) => NpcNextAttackDone(e, luck, b, a)
    case CastHit(_, _, _) => CastHitDone(skills, e, luck.rolls, b, a)
    case _ => HappenedAnyway(e, b, a)
  }

  predicate ByChance(e: Event) {
    e.CastApproach? || e.InteractApproach? || e.NextAttack? || e.NpcNextAttack? || e.CastHit?
  }

  /** The same of an event that chance does not decide about any more. */
  ghost predicate HappenedAnyway(e: Event, b: View, a: View)
    requires !ByChance(e)
  {
    match e
    case Hit(_, _, _, _) => HitDone(e, b, a)
    case NpcHit(_, _, who, damage) => if who in b.players then PlayerHurt(who, damage, {who}, b, a) else a == b
    case Respawn(_, _) => RespawnDone(e, b, a)
    case CorpseDecay(_, id) => a == b.(npcs := b.npcs - {id})
    case CombatStanceTimeout(_, _) => TimeoutDone(e, b, a)
  }

  lemma HasHappened(skills: SkillTable, e: Event, luck: Chance, b: View, a: View)
    requires !ByChance(e) && HappenedAnyway(e, b, a)
    ensures Happened(skills, e, luck, b, a)
  {
    hide HappenedAnyway;
  }

  /** An approach that can go on, and has arrived, becomes a request. */
  lemma ArrivedRequest(skills: SkillTable, e: Event, luck: Chance, b: View, a: View)
    requires e.CastApproach? && Pursued(e, b) && CanGoOn(skills, e, b) && (NeedsReach(skills, e, b) ==> luck.inReach)
    requires RequestDone(skills, e.cmd, luck.checks, luck.speed, b.(castPending := b.castPending - {e.charId}), a)
    ensures Happened(skills, e, luck, b, a)
  {
    hide RequestDone, CanGoOn;
  }

  lemma ApproachEnds(skills: SkillTable, e: Event, luck: Chance, b: View, a: View)
    requires e.CastApproach? && if Pursued(e, b)
      then !CanGoOn(skills, e, b) && a == b.(castPending := b.castPending - {e.charId}) else a == b
    ensures Happened(skills, e, luck, b, a)
  {
    hide CanGoOn;
  }

  lemma ApproachGoesOn(skills: SkillTable, e: Event, luck: Chance, b: View, a: View)
    requires e.CastApproach? && Pursued(e, b) && CanGoOn(skills, e, b) && NeedsReach(skills, e, b) && !luck.inReach
    requires b.clock <= a.clock && a == b.(clock := a.clock,
      queued := b.queued + multiset{CastApproach(a.clock + 400_000_000, e.charId, e.target, e.cmd)})
    ensures Happened(skills, e, luck, b, a)
  {
    hide CanGoOn, NeedsReach;
  }

  lemma ExecutedBy(skills: SkillTable, e: Event, luck: Chance, now: Time, b: View, a: View)
    requires e in b.queued && e.at <= now && (forall x :: x in b.queued ==> e.at <= x.at) && luck.rolls.Valid()
    requires Happened(skills, e, luck, b.(queued := b.queued - multiset{e}), a)
    ensures Executed(skills, e, now, b, a)
  {
    hide Happened;
  }

  /** The hit finds its own cast in progress, by a living caster and of a skill that exists. */
  predicate Lands(skills: SkillTable, players: map<int, Player>, e: Event)
    requires e.CastHit?
  {
    && HitLands(players, e) && players[e.charId].hp > 0.0
    && (players[e.charId].casting.value.skillId, players[e.charId].casting.value.level) in skills
  }

  /** The cast ends first, and then it is applied. */
  lemma HitIsDone(skills: SkillTable, e: Event, luck: Chance, b: View, m: View, a: View)
    requires e.CastHit?
    requires m == b.(
      players := if HitLands(b.players, e)
        then b.players[e.charId := b.players[e.charId].(casting := None)] else b.players,
      log := if Lands(skills, b.players, e) then b.log.(applied := b.log.applied + multiset{e.castId}) else b.log)
    requires if Lands(skills, b.players, e) then
        var cast := b.players[e.charId].casting.value;
        var skill := skills[(cast.skillId, cast.level)];
        var paid := m.players[e.charId := Paid(m.players[e.charId], skill.mpConsume2)];
        SkillHappened(skill, e.charId, cast.target, luck.rolls, m.(players := paid), a)
      else a == m
    ensures Happened(skills, e, luck, b, a)
  {
    hide SkillHappened;
    if Lands(skills, b.players, e) {
      var p := b.players[e.charId];
      var skill := skills[(p.casting.value.skillId, p.casting.value.level)];
      assert m.players[e.charId := Paid(m.players[e.charId], skill.mpConsume2)]
        == b.players[e.charId := Paid(p.(casting := None), skill.mpConsume2)];
      assert CastLanded(skills, e, luck.rolls, b, a);
    }
  }

  // ---------- Commands ----------

  /** An attack begins with a first swing at once; the guards about other players' flags may refuse it. */
  ghost predicate AttackRequested(who: int, target: int, allowed: bool, b: View, a: View) {
    if who !in b.players || target == who
       || (if target in b.players then b.players[target].hp <= 0.0
           else target !in b.npcs || b.npcs[target].dead || !b.npcs[target].attackable)
       || (target in b.players && !allowed)
       || (who in b.combat && b.combat[who].autoAttacking && b.combat[who].target == target) then a == b
    else
      && b.clock <= a.clock
      && a == b.(clock := a.clock, combat := b.combat[who := Combat(true, target, a.clock)],
                 queued := b.queued + multiset{NextAttack(a.clock, who, target)})
  }

  /** The player walks towards a living NPC that is not for attacking; the first check comes 300 ms later. */
  ghost predicate InteractRequested(who: int, target: int, b: View, a: View) {
    if target !in b.npcs || b.npcs[target].dead || b.npcs[target].attackable || who !in b.players
       || (who in b.interactPending && b.interactPending[who] == target) then a == b
    else TalkBegun(who, target, b, a)
  }

  ghost predicate TalkBegun(who: int, target: int, b: View, a: View) {
    exists c: View ::
      && AttackAbandoned(who, b, c) && c.clock <= a.clock
      && a == c.(clock := a.clock, interactPending := b.interactPending[who := target],
                 queued := c.queued + multiset{InteractApproach(a.clock + 300_000_000, who, target)})
  }

  lemma TalkIsBegun(who: int, target: int, b: View, c: View, a: View)
    requires AttackAbandoned(who, b, c) && c.clock <= a.clock
    requires a == c.(clock := a.clock, interactPending := c.interactPending[who := target],
                     queued := c.queued + multiset{InteractApproach(a.clock + 300_000_000, who, target)})
    ensures TalkBegun(who, target, b, a)
  {
    AbandonedElsewhere(who, b, c);
  }

  /** What a player was casting is cut, on record; it goes, or goes on in another state. */
  ghost function CutShort(b: View, who: int): CastLog {
    if who in b.players && b.players[who].casting.Some?
    then b.log.(dropped := b.log.dropped + {b.players[who].casting.value.id}) else b.log
  }

  ghost predicate Disconnected(who: int, b: View, a: View) {
    AttackEnded(who, b.(interactPending := b.interactPending - {who}, castPending := b.castPending - {who},
                        npcCombat := LeftAlone(b.npcCombat, who)), a)
  }

  ghost predicate MovedAway(who: int, b: View, a: View) {
    AttackAbandoned(who, b.(interactPending := b.interactPending - {who}, castPending := b.castPending - {who},
                            log := CutShort(b, who),
                            players := if who in b.players then b.players[who := b.players[who].(casting := None)]
                              else b.players), a)
  }

  /** A teleport: the attack ends and the target is dropped, whatever hit points the player is left with. */
  ghost predicate Teleported(who: int, hp: real, b: View, a: View)
    requires who in b.players
  {
    AttackEnded(who, b.(players := b.players[who := b.players[who].(hp := hp, target := 0)]), a)
  }

  ghost predicate PlayerChanged(who: int, p: Player, b: View, a: View) { a == b.(players := b.players[who := p]) }

  /** What obeying a command does. */
  ghost predicate Obeyed(skills: SkillTable, c: Command, luck: Chance, b: View, a: View) {
    match c
    case AttackRequest(who, target, _) => AttackRequested(who, target, luck.checks.pvpAllowed, b, a)
    case CastSkill(cmd, checks) => RequestDone(skills, cmd, checks, luck.speed, b, a)
    case ItemSkillCast(who, skillId, level) =>
      if who in b.players && b.players[who].hp > 0.0 && (skillId, level) in skills
      then SkillHappened(skills[(skillId, level)], who, who, luck.rolls, b, a) else a == b
    case _ => ObeyedAnyway(c, b, a)
  }

  predicate Risky(c: Command) { c.AttackRequest? || c.CastSkill? || c.ItemSkillCast? }

  /** The same of a command that chance does not decide about. */
  ghost predicate ObeyedAnyway(c: Command, b: View, a: View)
    requires !Risky(c)
  {
    match c
    case InteractRequest(who, target) => InteractRequested(who, target, b, a)
    case CancelAttack(who) => AttackEnded(who, b, a)
    case EnterWorld(who, hp, maxHp, mp, maxMp, cp, maxCp, known) =>
      var p := Player(hp as real, maxHp, mp as real, maxMp, cp, maxCp, None, 0, known);
      a == b.(players := b.players[who := p], log := CutShort(b, who), inCombat := b.inCombat - {who})
    case Disconnect(who) => Disconnected(who, b, a)
    case LeaveWorld(who) =>
      a == b.(players := b.players - {who}, log := CutShort(b, who), inCombat := b.inCombat - {who})
    case MoveToLocation(who) => MovedAway(who, b, a)
    case SetTarget(who, target) =>
      if who in b.players then PlayerChanged(who, b.players[who].(target := target), b, a) else a == b
    case Teleport(who) => if who in b.players then Teleported(who, b.players[who].hp, b, a) else a == b
    case Revive(who) => if who in b.players then Teleported(who, b.players[who].maxHp as real, b, a) else a == b
    case RestoreStats(who, hp, mp, cp) =>
      if who in b.players then PlayerChanged(who, Restored(b.players[who], hp, mp, cp), b, a) else a == b
    case LearnSkill(who, skillId, level, taught) =>
      if who in b.players && taught
         && (if skillId in b.players[who].knownSkills then b.players[who].knownSkills[skillId] else 0) < level
      then PlayerChanged(who, b.players[who].(knownSkills := b.players[who].knownSkills[skillId := level]), b, a)
      else a == b
    case Unrelated => a == b
  }

  lemma HasObeyed(skills: SkillTable, c: Command, luck: Chance, b: View, a: View)
    requires !Risky(c) && ObeyedAnyway(c, b, a)
    ensures Obeyed(skills, c, luck, b, a)
  {
    hide ObeyedAnyway;
  }

  lemma Unobeyed(b: View)
    ensures ObeyedAnyway(Unrelated, b, b)
  {}

  lemma HasRevived(who: int, b: View, c: View, a: View)
    requires who in b.players
    requires c == b.(players := b.players[who := b.players[who].(hp := b.players[who].maxHp as real)])
    requires ObeyedAnyway(Command.Teleport(who), c, a)
    ensures ObeyedAnyway(Revive(who), b, a)
  {
    hide AttackEnded;
    var p := b.players[who].(hp := b.players[who].maxHp as real, target := 0);
    assert c.players[who := p] == b.players[who := p];
  }

  lemma NobodyRevived(who: int, b: View)
    ensures who !in b.players ==> ObeyedAnyway(Revive(who), b, b)
  {}

  lemma HasMovedAway(who: int, b: View, m: View, a: View)
    requires AttackAbandoned(who, b, m)
    requires a == m.(interactPending := m.interactPending - {who}, castPending := m.castPending - {who},
                     log := CutShort(m, who), players := if who in m.players
                       then m.players[who := m.players[who].(casting := None)] else m.players)
    ensures ObeyedAnyway(MoveToLocation(who), b, a)
  {
    AbandonedElsewhere(who, b, m);
    AbandonedBesides(who, b, m, b.(interactPending := a.interactPending, castPending := a.castPending, log := a.log,
                                   players := a.players), a);
  }

  lemma HasDisconnected(who: int, b: View, m: View, a: View)
    requires AttackEnded(who, b, m)
    requires a == m.(interactPending := m.interactPending - {who}, castPending := m.castPending - {who},
                     npcCombat := LeftAlone(m.npcCombat, who))
    ensures ObeyedAnyway(Disconnect(who), b, a)
  {
    AttackEndsOnly(who, b, m);
    EndedBesides(who, b, m, b.(interactPending := a.interactPending, castPending := a.castPending,
                               npcCombat := a.npcCombat), a);
  }

  lemma CastRequested(skills: SkillTable, cmd: CastRequest, checks: Checks, luck: Chance, b: View, a: View)
    requires RequestDone(skills, cmd, checks, luck.speed, b, a)
    ensures Obeyed(skills, CastSkill(cmd, checks), luck, b, a)
  {}

  // ---------- Runs ----------

  /** Commands are obeyed one after the other. */
  ghost predicate AllObeyed(skills: SkillTable, commands: seq<Command>, trace: seq<View>) {
    && |trace| == |commands| + 1
    && forall i :: 0 <= i < |commands| ==> ObeyedSomehow(skills, commands[i], trace[i], trace[i + 1])
  }

  /** With some chance in it. */
  ghost predicate ObeyedSomehow(skills: SkillTable, c: Command, b: View, a: View) {
    exists luck: Chance :: luck.rolls.Valid() && Obeyed(skills, c, luck, b, a)
  }

  /** A popped event is an earliest one that is due, and has its effect on what is left without it. */
  ghost predicate Executed(skills: SkillTable, e: Event, now: Time, b: View, a: View) {
    && e in b.queued && e.at <= now && (forall x :: x in b.queued ==> e.at <= x.at)
    && exists luck: Chance :: luck.rolls.Valid() && Happened(skills, e, luck, b.(queued := b.queued - multiset{e}), a)
  }

  /** Events are executed one after the other. */
  ghost predicate AllHappened(skills: SkillTable, events: seq<Event>, now: Time, trace: seq<View>) {
    && |trace| == |events| + 1
    && forall i :: 0 <= i < |events| ==> Executed(skills, events[i], now, trace[i], trace[i + 1])
  }

  /**
   A tick: the pending commands are obeyed, the clock is read, and events are executed, the earliest first, until
   nothing queued is due by that reading.
   */
  ghost predicate TickRun(skills: SkillTable, pending: seq<Command>, b: View, a: View) {
    exists t: seq<View>, events: seq<Event>, u: seq<View> ::
      AllObeyed(skills, pending, t) && TickedOff(skills, events, t[|pending|], u) && t[0] == b && u[|events|] == a
  }

  ghost predicate TickedOff(skills: SkillTable, events: seq<Event>, b: View, u: seq<View>) {
    && u != [] && b.clock <= u[0].clock && u[0] == b.(clock := u[0].clock)
    && AllHappened(skills, events, u[0].clock, u)
    && forall e :: e in u[|events|].queued ==> e.at > u[0].clock
  }

  /** The rounds of effects, one after the other, each on its player if it is still there. */
  ghost function RoundsServed(players: map<int, Player>, rounds: seq<Round>): map<int, Player> {
    if rounds == [] then players else
    var before, r := RoundsServed(players, rounds[..|rounds| - 1]), rounds[|rounds| - 1];
    if r.charId in before then before[r.charId := Ticked(before[r.charId], r)] else before
  }

  /** What serving an input does. */
  ghost predicate Served(skills: SkillTable, input: Input, b: View, a: View) {
    match input
    case Command(c) => ObeyedSomehow(skills, c, b, a)
    case Tick(pending) => TickRun(skills, pending, b, a)
    case Regenerate(gains) => a == b.(players := RegeneratedAll(b.players, gains))
    case ServeEffects(rounds) => a == b.(players := RoundsServed(b.players, rounds))
  }

  /** A run: inputs are served one after the other. */
  ghost predicate AllServed(skills: SkillTable, inputs: seq<Input>, trace: seq<View>) {
    && |trace| == |inputs| + 1
    && forall i :: 0 <= i < |inputs| ==> Served(skills, inputs[i], trace[i], trace[i + 1])
  }

  // ---------- Building runs ----------

  lemma OneMoreObeyed(skills: SkillTable, commands: seq<Command>, i: nat, trace: seq<View>, a: View)
    requires i < |commands| && AllObeyed(skills, commands[..i], trace)
    requires ObeyedSomehow(skills, commands[i], trace[i], a)
    ensures AllObeyed(skills, commands[..i + 1], trace + [a])
  {
    hide ObeyedSomehow;
  }

  lemma OneMoreHappened(skills: SkillTable, events: seq<Event>, now: Time, trace: seq<View>, e: Event, a: View)
    requires AllHappened(skills, events, now, trace) && Executed(skills, e, now, trace[|events|], a)
    ensures AllHappened(skills, events + [e], now, trace + [a])
  {
    hide Executed;
  }

  lemma OneMoreServed(skills: SkillTable, inputs: seq<Input>, i: nat, trace: seq<View>, a: View)
    requires i < |inputs| && AllServed(skills, inputs[..i], trace) && Served(skills, inputs[i], trace[i], a)
    ensures AllServed(skills, inputs[..i + 1], trace + [a])
  {
    hide Served;
  }

  lemma TickIsRun(skills: SkillTable, pending: seq<Command>, t: seq<View>, events: seq<Event>, u: seq<View>, now: Time)
    requires AllObeyed(skills, pending, t) && AllHappened(skills, events, now, u)
    requires t[|pending|].clock <= now && u[0] == t[|pending|].(clock := now)
    requires forall e :: e in u[|events|].queued ==> e.at > now
    ensures TickRun(skills, pending, t[0], u[|events|])
  {
    hide ObeyedSomehow, Executed;
    assert TickedOff(skills, events, t[|pending|], u);
  }

  // ---------- Who gets hurt, and who comes back to life ----------

  /** The hits that can hurt a player: those at it, and casts. */
  predicate CanHurt(e: Event, who: int) {
    (e.Hit? && e.target == who) || (e.NpcHit? && e.charId == who) || e.CastHit?
  }

  ghost predicate Filled(p: Player) { p.hp <= p.maxHp as real }

  /** A player is no worse off than before, or was filled up by a level-up. */
  ghost predicate Unhurt(p: Player, q: Player) {
    Filled(q) && (q.hp >= p.hp || Refilled(p, q))
  }

  /** Swings, approaches to talk, decays, respawns and timeouts are nothing to the players' state. */
  lemma PlayersAsBefore(skills: SkillTable, e: Event, luck: Chance, b: View, a: View)
    requires Happened(skills, e, luck, b, a) && !e.Hit? && !e.NpcHit? && !e.CastHit? && !e.CastApproach?
    ensures a.players == b.players
  {
    hide NextAttackDone, NpcNextAttackDone, InteractApproachDone, RespawnDone, TimeoutDone;
    match e
    case NextAttack(_, _, _) => SwingKeepsPlayers(e, luck, b, a);
    case NpcNextAttack(_, _, _) => NpcSwingKeepsPlayers(e, luck, b, a);
    case InteractApproach(_, _, _) => TalkKeepsPlayers(e, luck.inReach, b, a);
    case Respawn(_, _) => RespawnKeepsPlayers(e, b, a);
    case CombatStanceTimeout(_, _) => TimeoutKeepsPlayers(e, b, a);
    case CorpseDecay(_, _) =>
  }

  lemma SwingKeepsPlayers(e: Event, luck: Chance, b: View, a: View)
    requires e.NextAttack? && NextAttackDone(e, luck, b, a)
    ensures a.players == b.players
  {
    hide CalcAttackSpeed, HitOf, NextOf;
  }

  lemma NpcSwingKeepsPlayers(e: Event, luck: Chance, b: View, a: View)
    requires e.NpcNextAttack? && NpcNextAttackDone(e, luck, b, a)
    ensures a.players == b.players
  {
    hide CalcAttackSpeed;
  }

  lemma TalkKeepsPlayers(e: Event, inReach: bool, b: View, a: View)
    requires e.InteractApproach? && InteractApproachDone(e, inReach, b, a)
    ensures a.players == b.players
  {}

  lemma RespawnKeepsPlayers(e: Event, b: View, a: View)
    requires e.Respawn? && RespawnDone(e, b, a)
    ensures a.players == b.players
  {}

  lemma TimeoutKeepsPlayers(e: Event, b: View, a: View)
    requires e.CombatStanceTimeout? && TimeoutDone(e, b, a)
    ensures a.players == b.players
  {}

  lemma NpcHitHurts(who: int, damage: int, b: View, a: View, other: int)
    requires who in b.players && PlayerHurt(who, damage, {who}, b, a) && other in b.players
    ensures other in a.players && (other != who ==> a.players[other] == b.players[other])
    ensures b.players[other].hp <= 0.0 ==> a.players[other] == b.players[other]
  {}

  lemma HitHurts(e: Event, b: View, a: View, other: int)
    requires e.Hit? && e.target in b.players && HitDone(e, b, a) && other in b.players
    ensures other in a.players && (other != e.target ==> a.players[other] == b.players[other])
    ensures b.players[other].hp <= 0.0 ==> a.players[other] == b.players[other]
  {}

  /** No event but a hit on the player, or a cast, takes hit points from it, unless by a level-up. */
  lemma OnlyHitsHurt(skills: SkillTable, e: Event, luck: Chance, b: View, a: View, who: int)
    requires Happened(skills, e, luck, b, a) && who in b.players && Filled(b.players[who]) && !CanHurt(e, who)
    ensures who in a.players && Unhurt(b.players[who], a.players[who])
  {
    hide PlayerHurt, NpcHurt, CastApproachDone;
    if e.Hit? {
      if e.target in b.players {
        HitHurts(e, b, a, who);
      } else if e.target in b.npcs && !b.npcs[e.target].dead {
        NpcHurtsNobody(e.target, e.damage, b, a, who);
      }
    } else if e.NpcHit? {
      if e.charId in b.players { NpcHitHurts(e.charId, e.damage, b, a, who); }
    } else if e.CastApproach? {
      ApproachHurtsNobody(skills, e, luck, b, a);
    } else {
      PlayersAsBefore(skills, e, luck, b, a);
    }
  }

  lemma NpcHurtsNobody(target: int, damage: int, b: View, a: View, who: int)
    requires target in b.npcs && NpcHurt(target, damage, b, a) && who in b.players
    ensures who in a.players && (a.players[who] == b.players[who] || Refilled(b.players[who], a.players[who]))
  {
    if b.npcs[target].hp > damage as real {
      var w :| NpcWounded(target, w, damage, b, a);
      OnlyTurned(target, w, b.(npcs := a.npcs), a);
    }
  }

  lemma ApproachHurtsNobody(skills: SkillTable, e: Event, luck: Chance, b: View, a: View)
    requires e.CastApproach? && CastApproachDone(skills, e, luck, b, a)
    ensures a.players.Keys == b.players.Keys
    ensures forall who :: who in b.players ==>
      a.players[who].hp == b.players[who].hp && a.players[who].maxHp == b.players[who].maxHp
  {
    hide RequestDone;
    var ended := b.(castPending := b.castPending - {e.charId});
    if RequestDone(skills, e.cmd, luck.checks, luck.speed, ended, a) {
      RequestAdmitted(skills, e.cmd, luck.checks, luck.speed, ended, a);
    }
  }

  ghost predicate LevelsUp(b: View, a: View, who: int) {
    who in b.players && who in a.players && Refilled(b.players[who], a.players[who])
  }

  /** Over a tick, whoever is not hit, and nobody casts, loses nothing: unless a level-up fills it up on the way. */
  lemma {:induction false} UnhitUnhurt(skills: SkillTable, events: seq<Event>, now: Time, trace: seq<View>, who: int)
    requires AllHappened(skills, events, now, trace) && who in trace[0].players && Filled(trace[0].players[who])
    requires forall e :: e in events ==> !CanHurt(e, who)
    ensures who in trace[|events|].players && Filled(trace[|events|].players[who])
    ensures trace[|events|].players[who].hp >= trace[0].players[who].hp
      || exists i :: 0 <= i < |events| && LevelsUp(trace[i], trace[i + 1], who)
  {
    if events != [] {
      hide Happened, LevelsUp, CanHurt;
      var n := |events| - 1;
      UnhitUnhurt(skills, events[..n], now, trace[..n + 1], who);
      assert Executed(skills, events[n], now, trace[n], trace[n + 1]);
      var b := trace[n].(queued := trace[n].queued - multiset{events[n]});
      var luck: Chance :| luck.rolls.Valid() && Happened(skills, events[n], luck, b, trace[n + 1]);
      OnlyHitsHurt(skills, events[n], luck, b, trace[n + 1], who);
    }
  }

  ghost predicate SomeNpcDies(b: View, a: View) {
    exists id :: id in b.npcs && !b.npcs[id].dead && id in a.npcs && a.npcs[id].dead
  }

  /** No event brings a dead player back to life, but an NPC's death that levels it up. */
  lemma RaisedByLevelUpOnly(skills: SkillTable, e: Event, luck: Chance, b: View, a: View, who: int)
    requires Happened(skills, e, luck, b, a) && who in b.players && b.players[who].hp <= 0.0
    ensures who in a.players && (a.players[who].hp > 0.0 ==> LevelsUp(b, a, who) && SomeNpcDies(b, a))
  {
    hide PlayerHurt, NpcHurt, CastApproachDone, CastLanded;
    if e.Hit? {
      if e.target in b.players {
        HitHurts(e, b, a, who);
      } else if e.target in b.npcs && !b.npcs[e.target].dead {
        NpcRaises(e.target, e.damage, b, a, who);
      }
    } else if e.NpcHit? {
      if e.charId in b.players { NpcHitHurts(e.charId, e.damage, b, a, who); }
    } else if e.CastApproach? {
      ApproachHurtsNobody(skills, e, luck, b, a);
    } else if e.CastHit? {
      if Lands(skills, b.players, e) {
        CastRaisesNobody(skills, e, luck.rolls, b, a, who);
      }
    } else {
      PlayersAsBefore(skills, e, luck, b, a);
    }
  }

  lemma NpcRaises(target: int, damage: int, b: View, a: View, who: int)
    requires target in b.npcs && !b.npcs[target].dead && NpcHurt(target, damage, b, a) && who in b.players
    ensures who in a.players && (a.players[who] == b.players[who] || (LevelsUp(b, a, who) && SomeNpcDies(b, a)))
  {
    if b.npcs[target].hp > damage as real {
      var w :| NpcWounded(target, w, damage, b, a);
      OnlyTurned(target, w, b.(npcs := a.npcs), a);
    } else {
      assert target in a.npcs && a.npcs[target].dead;
    }
  }

  lemma CastRaisesNobody(skills: SkillTable, e: Event, rolls: Rolls, b: View, a: View, who: int)
    requires e.CastHit? && Lands(skills, b.players, e) && CastLanded(skills, e, rolls, b, a)
    requires who in b.players && b.players[who].hp <= 0.0
    ensures who in a.players && (a.players[who].hp > 0.0 ==> LevelsUp(b, a, who) && SomeNpcDies(b, a))
  {
    hide Gathered, FoughtOut, PlayersAfter, Struck, Refilled;
    var p, cast := b.players[e.charId], b.players[e.charId].casting.value;
    var skill := skills[(cast.skillId, cast.level)];
    var left := if p.mp.Floor < skill.mpConsume2 then p.mp else p.mp - skill.mpConsume2 as real;
    var paid := b.players[e.charId := p.(casting := None, mp := left)];
    DeadUntouched(paid, b.npcs, e.charId, cast.target, skill, rolls, who);
    if HitsNpc(paid, b.npcs, e.charId, cast.target, skill) {
      StruckDead(b.npcs[cast.target], Gathered(skill.effects).0, rolls);
    }
  }

  lemma DeadUntouched(players: map<int, Player>, npcs: map<int, Npc>, caster: int, target: int, skill: Skill,
                      rolls: Rolls, who: int)
    requires caster in players && who in players && who != caster && players[who].hp <= 0.0
    ensures var after := PlayersAfter(players, npcs, caster, target, skill, rolls);
      after.Keys == players.Keys && after[who] == players[who]
  {
    hide Gathered, HitsNpc;
  }

  lemma StruckDead(n: Npc, p: Powers, rolls: Rolls)
    requires Hurts(p)
    ensures Struck(n, p, rolls).hp <= 0.0 ==> Struck(n, p, rolls).dead
  {}

  /** A case of a dead player that comes back to life: the NPC it has fought dies, and the award levels it up. */
  lemma RaisedByLevelUp(luck: Chance)
    ensures exists b: View, a: View, e: Event ::
      && Happened(map[], e, luck, b, a) && 1 in b.players && 1 in a.players
      && b.players[1].hp <= 0.0 && a.players[1].hp > 0.0
  {
    var npc := Npc(SpawnInfo(5, (0, 0, 0), 0), false, 1.0, true);
    var p := Player(0.0, 100, 0.0, 50, 0, 0, None, 7, map[]);
    var q := p.(hp := 110.0, maxHp := 110, mp := 60.0, maxMp := 60);
    var b := View(0, 0, 7, map[1 := p], map[7 := npc], map[], map[], map[], map[], map[], {},
                  CastLog(map[], multiset{}, {}), multiset{});
    var a := b.(players := map[1 := q], npcs := map[7 := npc.(dead := true, hp := 0.0)],
                queued := multiset{CorpseDecay(7_000_000_000, 7), Respawn(60_000_000_000, 7)});
    assert NpcKilled(7, b, a) by { assert Refilled(p, q) && b.npcCombat - {7} == b.npcCombat; }
    hide NpcKilled;
    assert Happened(map[], Hit(0, 2, 7, 10), luck, b, a);
  }
}
