/**
 The game loop's casts, combat, NPC deaths and respawns, driven by commands and timed events.

 Distances, dice and stats only pick branches, so they are nondeterministic choices here: what is
 proved holds for every position, roll and stat. The clock is read as the source reads it, each
 reading no earlier than the one before.

 Handlers that only pass parts of the invariants on hide the definitions of those parts.
 */
module GameLoop {
  import opened Events
  import opened EventQueue
  import opened LoopEffects
  import opened LoopState
  import opened Skills
  import opened Wrappers

  class Loop {
    const events: Queue
    const skills: map<(int, int), Skill>
    const templates: set<int>

    var clock: Time
    var castSeq: int
    var lastNpcId: int
    var players: map<int, Player>
    var npcs: map<int, Npc>
    var spawnInfo: map<int, SpawnInfo>
    var castPending: map<int, CastRequest>
    var interactPending: map<int, int>
    var combat: map<int, Combat>
    var npcCombat: map<int, int>  // NPC -> the player it attacks
    var inCombat: set<int>  // players in the weapon-drawn combat stance

    ghost var log: CastLog
    ghost var diedAt: map<int, Time>
    ghost var stoppedAt: map<int, Time>  // when a player's attack last stopped
    ghost var stances: seq<Stance>
    /** Who was let attack whom anew while a swing of theirs was still queued. */
    ghost var doubled: set<(int, int)>
    /** The NPCs loaded at start-up, until they are registered as spawn points. */
    ghost var loose: set<int>

    ghost function Queued(): multiset<Event> reads events { multiset(events.items) }

    ghost function Work(now: Time): nat reads events { DueWork(events.items, now) }

    /** What the loop holds, but for what only the proofs keep. */
    ghost function Held(): View
      reads `clock, `castSeq, `lastNpcId, `players, `npcs, `spawnInfo, `castPending, `interactPending, `combat,
        `npcCombat, `inCombat, `log, events
    {
      View(clock, castSeq, lastNpcId, players, npcs, spawnInfo, castPending, interactPending, combat, npcCombat,
           inCombat, log, Queued())
    }

    /** The invariant, for the queue plus the events that were popped and are still to be executed. */
    ghost predicate InvWith(queued: multiset<Event>)
      reads `castSeq, `lastNpcId, `players, `npcs, `spawnInfo, `log, `diedAt, `loose, events
    {
      && HeapOrdered(events.items)
      && CastsOk(players, queued, castSeq, log)
      && SpawnsOk(npcs, spawnInfo, templates, queued, lastNpcId, diedAt, loose)
    }

    ghost predicate Inv()
      reads `castSeq, `lastNpcId, `players, `npcs, `spawnInfo, `log, `diedAt, `loose, events
    {
      InvWith(Queued())
    }

    ghost function Driving(): Drives
      reads `combat, `stoppedAt, `npcCombat, `castPending, `interactPending
    {
      Drives(combat, stoppedAt, npcCombat, castPending, interactPending)
    }

    ghost predicate Staged()
      reads `combat, `inCombat, `stances
    {
      StancesOk(inCombat, combat.Keys, stances)
    }

    /** Attacks and approaches under way have their next event queued, and the stances are those of the history. */
    ghost predicate Driven()
      reads `clock, `combat, `stoppedAt, `npcCombat, `castPending, `interactPending, `inCombat, `stances, `doubled,
        events
    {
      Beating(Driving(), Queued()) && Swung(combat, clock) && Staged() && Chained(Queued(), doubled)
    }

    /** The same, but for what a popped event was the heartbeat of. */
    ghost predicate DrivenWithout(e: Event)
      reads `clock, `combat, `stoppedAt, `npcCombat, `castPending, `interactPending, `inCombat, `stances, `doubled,
        events
    {
      && Beating(Without(Driving(), e), Queued()) && Swung(combat, clock) && Staged()
      && Chained(Queued() + multiset{e}, doubled) && (!Beats(Driving(), e) ==> Driven())
    }

    /**
     What every handler keeps, whatever it schedules: the clock only moves on, nothing is
     scheduled before `now`, and at most `k` units of work become due.
     */
    twostate predicate Progress(now: Time, k: nat) reads `clock, `stances, events {
      && old(clock) <= clock && old(stances) <= stances
      && Work(now) <= old(Work(now)) + k
      && (forall e :: e in events.items ==> e in old(events.items) || e.at >= now)
    }

    /** Cast ids are given out upwards, and what an id was issued for it stays issued for. */
    twostate predicate IssuedKept() reads `castSeq, `log {
      old(castSeq) <= castSeq && forall id :: id in old(log).issued ==>
        id in log.issued && log.issued[id] == old(log).issued[id]
    }

    /** What every step does to the histories of casts, stances and doubled attacks: they only grow. */
    twostate predicate LogGrows() reads `castSeq, `log, `loose, `stances, `doubled {
      && loose == old(loose) && IssuedKept() && old(stances) <= stances && old(doubled) <= doubled
      && old(log).applied <= log.applied && old(log).dropped <= log.dropped
    }

    twostate lemma LogKept()
      requires castSeq == old(castSeq) && log == old(log) && loose == old(loose)
      requires stances == old(stances) && doubled == old(doubled)
      ensures LogGrows()
    {}

    /** A cast may be cut, and a stance begin or end. */
    twostate lemma LogCut(who: int)
      requires castSeq == old(castSeq) && log == CutShort(old(Held()), who) && loose == old(loose)
      requires old(stances) <= stances && doubled == old(doubled)
      ensures LogGrows()
    {}

    constructor (skills: map<(int, int), Skill>, templates: set<int>, npcs: map<int, Npc>, lastNpcId: int)
      requires forall id :: id in npcs ==> id <= lastNpcId && !npcs[id].dead && npcs[id].spawn.templateId in templates
      ensures Inv() && Driven() && events.items == [] && this.npcs == npcs && spawnInfo == map[]
      ensures fresh(events)
    {
      events := new Queue();
      this.skills, this.templates, this.npcs, this.lastNpcId := skills, templates, npcs, lastNpcId;
      clock, castSeq, players, spawnInfo := 0, 0, map[], map[];
      castPending, interactPending, combat, npcCombat := map[], map[], map[], map[];
      inCombat, stances, doubled := {}, [], {};
      log, diedAt, stoppedAt, loose := CastLog(map[], multiset{}, {}), map[], map[], npcs.Keys;
    }

    /** Every NPC loaded at start-up becomes a spawn point; without this nothing ever respawns. */
    method RegisterWorldSpawns()
      requires Inv() && forall id :: id in npcs ==> !npcs[id].dead
      requires spawnInfo == map[]
      modifies `spawnInfo, `loose
      ensures Inv() && loose == {}
      ensures spawnInfo == map id | id in npcs :: npcs[id].spawn
    {
      hide CastsOk, Beating, StancesOk, Chained;
      var todo := npcs.Keys;
      while todo != {}
        invariant todo <= npcs.Keys
        invariant spawnInfo == map id | id in npcs.Keys - todo :: npcs[id].spawn
      {
        ghost var next := Pick(todo);
        var id :| id in todo;
        spawnInfo := spawnInfo[id := npcs[id].spawn];
        todo := todo - {id};
      }
      loose := {};
    }

    method Now() returns (t: Time)
      modifies `clock
      ensures old(clock) <= clock == t
      ensures old(Swung(combat, clock)) ==> Swung(combat, clock)
      ensures old(Driven()) ==> Driven()
    {
      hide DueWork, HeapOrdered, CastsOk, SpawnsOk, Beating, StancesOk, Chained, Staged;
      var elapsed: int :| elapsed >= 0;
      clock := clock + elapsed;
      t := clock;
    }

    /** Schedules an event that is about neither a cast nor a death. */
    method Schedule(e: Event, ghost now: Time)
      requires Inv() && Neutral(e) && now <= e.at
      modifies events
      ensures Inv() && Progress(now, DueRank(e, now)) && Queued() == old(Queued()) + multiset{e}
      ensures old(Chained(Queued(), doubled)) && !e.NextAttack? ==> Chained(Queued(), doubled)
      ensures old(Driven()) && !e.NextAttack? ==> Driven()
    {
      hide DueWork, HeapOrdered, CastsOk, SpawnsOk, Beating, StancesOk, Chained, Staged;
      events.Schedule(e);
      if old(Chained(Queued(), doubled)) && !e.NextAttack? { ChainedOther(old(Queued()), e, doubled); }
      if old(Driven()) { BeatingMore(Driving(), old(Queued()), Queued()); }
      CastsOkQueue(players, old(Queued()), Queued(), castSeq, log);
      SpawnsOkQueue(npcs, spawnInfo, templates, old(Queued()), Queued(), lastNpcId, diedAt, loose);
    }

    /** Updates a player in place, leaving alone what it casts. */
    method SetPlayer(charId: int, p: Player)
      requires Inv() && charId in players && p.casting == players[charId].casting
      requires p.mp >= 0.0 || p.mp >= players[charId].mp
      modifies `players
      ensures Inv() && players == old(players)[charId := p]
    {
      hide SpawnsOk, Beating, StancesOk, Chained;
      players := players[charId := p];
      CastsOkPlayers(old(players), players, Queued(), castSeq, log);
    }

    method SetNpcHp(id: int, hp: real)
      requires Inv() && id in npcs
      modifies `npcs
      ensures Inv() && npcs == old(npcs)[id := old(npcs)[id].(hp := hp)]
    {
      hide DueWork, HeapOrdered, CastsOk, SpawnsOk, Beating, StancesOk, Chained, Staged;
      npcs := npcs[id := npcs[id].(hp := hp)];
      SpawnsOkNpcHp(old(npcs), npcs, spawnInfo, templates, Queued(), lastNpcId, diedAt, loose);
    }

    // ---------- Combat ----------

    /** The first real swing dealt, or a hit taken, draws the weapon. */
    method EnterCombatStance(charId: int)
      requires Staged()
      modifies `inCombat, `stances
      ensures Staged() && inCombat == if charId in players then old(inCombat) + {charId} else old(inCombat)
      ensures stances == old(stances)
        + if charId in players && charId !in old(inCombat) then [Began(charId, charId in combat)] else []
    {
      hide StancesOk;
      if charId !in players || charId in inCombat { return; }
      StanceBegins(inCombat, combat.Keys, stances, charId);
      inCombat, stances := inCombat + {charId}, stances + [Began(charId, charId in combat)];
    }

    /** The same of a player who was hit. */
    method DrawWeapon(charId: int)
      requires Driven()
      modifies `inCombat, `stances
      ensures Driven() && inCombat == if charId in players then old(inCombat) + {charId} else old(inCombat)
      ensures stances == old(stances)
        + if charId in players && charId !in old(inCombat) then [Began(charId, charId in combat)] else []
    {
      hide Beating, StancesOk, Chained;
      EnterCombatStance(charId);
    }

    /** Death ends the stance at once, and so does a fresh state. */
    method ClearCombatStance(charId: int)
      requires Driven()
      modifies `inCombat, `stances
      ensures Driven() && inCombat == old(inCombat) - {charId} && stances == old(stances) + [Cleared(charId)]
    {
      hide Beating, StancesOk, Chained;
      StanceClears(inCombat, combat.Keys, stances, charId);
      inCombat, stances := inCombat - {charId}, stances + [Cleared(charId)];
    }

    /** A living player other than the attacker, or a living, attackable NPC. */
    predicate CanBeAttacked(charId: int, target: int) reads `players, `npcs {
      if target in players then players[target].hp > 0.0 && target != charId
      else target in npcs && !npcs[target].dead && npcs[target].attackable
    }

    predicate AlreadyAttacking(charId: int, target: int) reads `combat {
      charId in combat && combat[charId].autoAttacking && combat[charId].target == target
    }

    /** An attack that stops needs no next swing, but an end of its stance; stopped before, it keeps that end too. */
    method EndAttack(charId: int, ghost now: Time)
      requires Inv() && now <= clock && Beating(Driving().(combat := combat - {charId}), Queued())
      requires Swung(combat, clock) && Staged()
      requires Chained(Queued(), doubled) && (charId in combat && !combat[charId].autoAttacking ==> Driven())
      modifies `clock, `combat, `stoppedAt, events
      ensures Inv() && Driven() && Progress(now, 0)
      ensures combat == Stopped(old(combat), charId) && AttackEnded(charId, old(Held()), Held())
      ensures old(Queued()) <= Queued()
      ensures stoppedAt == if charId in old(combat) && old(combat)[charId].autoAttacking
        then old(stoppedAt)[charId := clock] else old(stoppedAt)
    {
      hide DueWork, Inv, Beating, StancesOk, Chained, Swung;
      if charId !in combat {
        assert Driving().(combat := combat - {charId}) == Driving() by { assert combat - {charId} == combat; }
        return;
      }
      QueueStanceEnd(charId, now);
    }

    method QueueStanceEnd(charId: int, ghost now: Time)
      requires Inv() && now <= clock && Beating(Driving().(combat := combat - {charId}), Queued())
      requires Swung(combat, clock) && Staged() && charId in combat
      requires Chained(Queued(), doubled) && (!combat[charId].autoAttacking ==> Driven())
      modifies `clock, `combat, `stoppedAt, events
      ensures Inv() && Driven() && Progress(now, 0)
      ensures combat == old(combat)[charId := old(combat)[charId].(autoAttacking := false)]
      ensures Queued() == old(Queued()) + multiset{CombatStanceTimeout(clock + 15_000_000_000, charId)}
      ensures old(clock) <= clock
      ensures stoppedAt == if old(combat)[charId].autoAttacking
        then old(stoppedAt)[charId := clock] else old(stoppedAt)
    {
      hide DueWork, Inv, Beating, Staged, Chained, Swung;
      var t := Now();
      Schedule(CombatStanceTimeout(t + COMBAT_STANCE_TIMEOUT, charId), now);
      if combat[charId].autoAttacking {
        BeatingStopped(Driving(), old(Queued()), charId, t);
        stoppedAt := stoppedAt[charId := t];
      } else {
        assert combat[charId := combat[charId].(autoAttacking := false)] == combat;
      }
      SetCombat(charId, combat[charId].(autoAttacking := false));
    }

    /** Updates an attack, under way or stopped, in place. */
    method SetCombat(who: int, c: Combat)
      requires who in combat && Swung(combat, clock) && Staged()
      requires c.lastAttack <= clock || c.lastAttack == combat[who].lastAttack
      modifies `combat
      ensures combat == old(combat)[who := c] && combat - {who} == old(combat) - {who}
      ensures Swung(combat, clock) && Staged()
    {
      hide StancesOk, Swung;
      SwungUpdated(combat, who, c, clock);
      combat := combat[who := c];
      assert combat.Keys == old(combat).Keys;
      assert combat - {who} == old(combat) - {who};
    }

    method StopAttacker(charId: int, ghost now: Time)
      requires Inv() && Driven() && now <= clock
      modifies `clock, `combat, `stoppedAt, events
      ensures Inv() && Driven() && Progress(now, 0)
      ensures combat == Stopped(old(combat), charId) && AttackEnded(charId, old(Held()), Held())
      ensures old(Queued()) <= Queued()
    {
      hide DueWork, HeapOrdered, CastsOk, SpawnsOk, Beating, StancesOk, Chained, Staged, AttackEnded;
      BeatingFewer(Driving().(combat := combat - {charId}), Driving(), Queued());
      EndAttack(charId, now);
    }

    method StopIfAttacking(charId: int, ghost now: Time)
      requires Inv() && Driven() && now <= clock
      modifies `clock, `combat, `stoppedAt, events
      ensures Inv() && Driven() && Progress(now, 0)
      ensures combat == Stopped(old(combat), charId) && AttackAbandoned(charId, old(Held()), Held())
      ensures old(Queued()) <= Queued()
    {
      hide DueWork, Inv, Driven, AttackEnded;
      if charId in combat && combat[charId].autoAttacking { StopAttacker(charId, now); }
    }

    method StopAllAttackersOnTarget(target: int, ghost now: Time)
      requires Inv() && Driven() && now <= clock
      modifies `clock, `combat, `stoppedAt, events
      ensures Inv() && Driven() && Progress(now, 0) && combat.Keys == old(combat).Keys
      ensures forall who :: who in combat ==> combat[who] == Released(old(combat)[who], target)
      ensures AllReleased(old(combat), combat, target) && old(Queued()) <= Queued()
    {
      hide DueWork, Inv, Driven, AttackEnded;
      var todo := combat.Keys;
      while todo != {}
        invariant Inv() && Driven() && Progress(now, 0) && now <= clock
        invariant todo <= combat.Keys == old(combat).Keys && old(Queued()) <= Queued()
        invariant forall who :: who in combat ==>
          combat[who] == if who in todo then old(combat)[who] else Released(old(combat)[who], target)
      {
        ghost var next := Pick(todo);
        var charId :| charId in todo;
        todo := todo - {charId};
        if combat[charId].target == target { StopIfAttacking(charId, now); }
      }
    }

    method StopAllNpcAttacksOnPlayer(charId: int)
      modifies `npcCombat
      ensures npcCombat == LeftAlone(old(npcCombat), charId)
      ensures old(Driven()) ==> Driven()
    {
      hide DueWork, HeapOrdered, CastsOk, SpawnsOk, Beating, StancesOk, Chained, Staged;
      ghost var d := Driving();
      npcCombat := map n | n in npcCombat && npcCombat[n] != charId :: npcCombat[n];
      if old(Driven()) { BeatingFewer(Driving(), d, Queued()); }
    }

    method StopNpcAttack(npc: int)
      modifies `npcCombat
      ensures npcCombat == old(npcCombat) - {npc} && (old(Driven()) ==> Driven())
    {
      hide Beating, StancesOk, Chained;
      ghost var d := Driving();
      npcCombat := npcCombat - {npc};
      if old(Driven()) { BeatingFewer(Driving(), d, Queued()); }
    }

    method StartNpcAttack(npc: int, charId: int, ghost now: Time)
      requires Inv() && Driven() && now <= clock
      modifies `clock, `npcCombat, events
      ensures Inv() && Driven() && Progress(now, 1)
      ensures npcCombat == if npc in npcs && !npcs[npc].dead && npcs[npc].attackable
        then old(npcCombat)[npc := charId] else old(npcCombat)
      ensures NpcTurned(npc, charId, old(Held()), Held())
    {
      hide DueWork, Inv, Driven;
      if npc in npcCombat && npcCombat[npc] == charId { return; }
      if npc !in npcs || npcs[npc].dead || !npcs[npc].attackable { return; }
      TurnNpc(npc, charId, now);
    }

    /** The NPC's first swing comes within 500 ms. */
    method TurnNpc(npc: int, charId: int, ghost now: Time)
      requires Inv() && Driven() && now <= clock
      modifies `clock, `npcCombat, events
      ensures Inv() && Driven() && Progress(now, 1) && npcCombat == old(npcCombat)[npc := charId]
      ensures exists e: Event ::
        && e.NpcNextAttack? && e.npc == npc && e.charId == charId && clock <= e.at < clock + 500_000_000
        && Queued() == old(Queued()) + multiset{e}
    {
      hide DueWork, Inv, Beating, Swung, Chained, Staged;
      ghost var d, q := Driving(), Queued();
      BeatingFewer(d.(npcCombat := npcCombat - {npc}), d, q);
      npcCombat := npcCombat[npc := charId];
      var delay: int := *;
      var t := Now();
      var e := NpcNextAttack(t + (delay % 500) * MILLISECOND, npc, charId);
      Schedule(e, now);
      BeatingNpc(d, q, npc, charId, e);
    }

    /** A level-up restores HP and MP to their new maxima; the EXP shares decide who levels, and to which maxima. */
    method AwardExp(levelUps: map<int, (int, nat)>)
      requires Inv()
      modifies `players
      ensures Inv() && Awarded(old(players), players)
      ensures forall who :: who in players ==> players[who] == if who in levelUps
        then FilledUp(old(players)[who], levelUps[who].0, levelUps[who].1) else old(players)[who]
    {
      hide DueWork, HeapOrdered, CastsOk, SpawnsOk, Beating, StancesOk, Chained, Staged;
      var todo := players.Keys;
      while todo != {}
        invariant Inv() && todo <= players.Keys == old(players).Keys
        invariant forall who :: who in players ==> players[who] == if who in todo || who !in levelUps
          then old(players)[who] else FilledUp(old(players)[who], levelUps[who].0, levelUps[who].1)
      {
        ghost var next := Pick(todo);
        var p :| p in todo;
        todo := todo - {p};
        if p in levelUps {
          var maxHp, maxMp := if levelUps[p].0 < 1 then 1 else levelUps[p].0, levelUps[p].1;
          SetPlayer(p, players[p].(maxHp := maxHp, maxMp := maxMp, hp := maxHp as real, mp := maxMp as real));
        }
      }
    }

    /** By one clock reading, the corpse decays in 7 s and the spawn point respawns in 60 s. */
    method QueueDeath(id: int, ghost now: Time)
      requires Inv() && Driven() && now <= clock && id in npcs
      modifies `clock, `npcs, `diedAt, events
      ensures Inv() && Driven() && Progress(now, 0)
      ensures npcs == old(npcs)[id := old(npcs)[id].(dead := true, hp := 0.0)]
      ensures Queued() == old(Queued())
        + multiset{CorpseDecay(clock + CORPSE_DECAY_DELAY, id)} + multiset{Respawn(clock + RESPAWN_DELAY, id)}
    {
      hide DueWork, HeapOrdered, CastsOk, SpawnsOk, Driven;
      ghost var q := Queued();
      var t := Now();
      ScheduleDeath(id, t, now);
      MarkDead(id, q, t);
    }

    method MarkDead(id: int, ghost q: multiset<Event>, ghost t: Time)
      requires HeapOrdered(events.items) && CastsOk(players, Queued(), castSeq, log) && id in npcs
      requires SpawnsOk(npcs, spawnInfo, templates, q, lastNpcId, diedAt, loose)
      requires Queued() == q
        + multiset{CorpseDecay(t + CORPSE_DECAY_DELAY, id)} + multiset{Respawn(t + RESPAWN_DELAY, id)}
      modifies `npcs, `diedAt
      ensures Inv() && npcs == old(npcs)[id := old(npcs)[id].(dead := true, hp := 0.0)]
    {
      hide HeapOrdered, CastsOk, SpawnsOk;
      SpawnsOkDeath(npcs, spawnInfo, templates, q, Queued(), lastNpcId, diedAt, loose, id, t);
      npcs := npcs[id := npcs[id].(dead := true, hp := 0.0)];
      diedAt := diedAt[id := t];
    }

    method ScheduleDeath(id: int, t: Time, ghost now: Time)
      requires Inv() && Driven() && now <= t
      modifies events
      ensures HeapOrdered(events.items) && CastsOk(players, Queued(), castSeq, log) && Driven() && Progress(now, 0)
      ensures Queued() == old(Queued())
        + multiset{CorpseDecay(t + CORPSE_DECAY_DELAY, id)} + multiset{Respawn(t + RESPAWN_DELAY, id)}
    {
      hide DueWork, HeapOrdered, CastsOk, SpawnsOk, Beating, StancesOk, Chained, Staged;
      events.Schedule(CorpseDecay(t + CORPSE_DECAY_DELAY, id));
      ChainedOther(old(Queued()), CorpseDecay(t + CORPSE_DECAY_DELAY, id), doubled);
      ghost var q := Queued();
      events.Schedule(Respawn(t + RESPAWN_DELAY, id));
      ChainedOther(q, Respawn(t + RESPAWN_DELAY, id), doubled);
      BeatingMore(Driving(), old(Queued()), Queued());
      CastsOkQueue(players, old(Queued()), Queued(), castSeq, log);
    }

    method HandleNpcDeath(id: int, ghost now: Time)
      requires Inv() && Driven() && now <= clock && id in npcs
      modifies `clock, `combat, `stoppedAt, `npcCombat, `npcs, `players, `diedAt, events
      ensures Inv() && Driven() && Progress(now, 0)
      ensures npcs == old(npcs)[id := old(npcs)[id].(dead := true, hp := 0.0)]
      ensures Awarded(old(players), players) && NpcKilled(id, old(Held()), Held())
    {
      hide DueWork, Inv, Driven, AllReleased, Awarded, NpcKilled;
      LetGo(id, now);
      ghost var b := Held();
      QueueDeath(id, now);
      KilledNpc(id, old(Held()), b, Held());
    }

    /** The attacks on the NPC and its own stop, and its attackers are rewarded. */
    method LetGo(id: int, ghost now: Time)
      requires Inv() && Driven() && now <= clock
      modifies `clock, `combat, `stoppedAt, `npcCombat, `players, events
      ensures Inv() && Driven() && Progress(now, 0) && AttackersLetGo(id, old(Held()), Held())
    {
      hide DueWork, Inv, Driven, AllReleased, Awarded;
      StopAllAttackersOnTarget(id, now);
      StopNpcAttack(id);
      var levelUps := *;  // the attackers whose share raises their level
      AwardExp(levelUps);
    }

    method DealDamageToNpc(id: int, attacker: int, damage: int, ghost now: Time)
      requires Inv() && Driven() && now <= clock && id in npcs
      modifies `clock, `combat, `stoppedAt, `npcCombat, `npcs, `players, `diedAt, events
      ensures Inv() && Driven() && Progress(now, 1)
      ensures npcs == old(npcs)[id := DeadWithoutHp(Wounded(old(npcs)[id], damage))]
      ensures Awarded(old(players), players) && (npcs[id].hp > 0.0 ==> players == old(players))
      ensures NpcHurt(id, damage, old(Held()), Held())
    {
      hide DueWork, Inv, Driven, NpcTurned, NpcKilled, NpcHurt, Awarded;
      WoundNpc(id, damage, now);
      ghost var wounded := Held();
      DieWithoutHp(id, now);
      DamagedNpc(id, damage, old(Held()), wounded, Held());
    }

    /** Takes the hit points, and has the NPC turn on whom it hates most. */
    method WoundNpc(id: int, damage: int, ghost now: Time)
      requires Inv() && Driven() && now <= clock && id in npcs
      modifies `clock, `npcCombat, `npcs, events
      ensures Inv() && Driven() && Progress(now, 1)
      ensures npcs == old(npcs)[id := Wounded(old(npcs)[id], damage)]
      ensures exists who :: NpcTurned(id, who, old(Held()).(npcs := npcs), Held())
    {
      hide DueWork, Inv, Driven, NpcTurned;
      var hp := npcs[id].hp - damage as real;
      SetNpcHp(id, if hp < 0.0 then 0.0 else hp);
      assert Held() == old(Held()).(npcs := npcs);
      var mostHated := *;  // the top of the hate list, which rolls and shares decide
      StartNpcAttack(id, mostHated, now);
      assert NpcTurned(id, mostHated, old(Held()).(npcs := npcs), Held());
    }

    /** An NPC without hit points dies, even one that is dead already. */
    method DieWithoutHp(id: int, ghost now: Time)
      requires Inv() && Driven() && now <= clock && id in npcs && npcs[id].hp >= 0.0
      modifies `clock, `combat, `stoppedAt, `npcCombat, `npcs, `players, `diedAt, events
      ensures Inv() && Driven() && Progress(now, 0)
      ensures npcs == old(npcs)[id := DeadWithoutHp(old(npcs)[id])]
      ensures Awarded(old(players), players) && (npcs[id].hp > 0.0 ==> players == old(players))
      ensures if old(npcs)[id].hp > 0.0 then Held() == old(Held()) else NpcKilled(id, old(Held()), Held())
    {
      hide DueWork, Inv, Driven, NpcKilled;
      if npcs[id].hp <= 0.0 {
        HandleNpcDeath(id, now);
      } else {
        assert npcs[id := npcs[id]] == npcs;
      }
    }

    method HandlePlayerDeath(charId: int, ghost now: Time)
      requires Inv() && Driven() && now <= clock && charId in players
      modifies `clock, `combat, `stoppedAt, `npcCombat, `players, `inCombat, `stances, events
      ensures Inv() && Driven() && Progress(now, 0)
      ensures players == old(players)[charId := old(players)[charId].(hp := 0.0)]
      ensures combat == Stopped(old(combat), charId) && npcCombat == LeftAlone(old(npcCombat), charId)
      ensures inCombat == old(inCombat) - {charId} && PlayerKilled(charId, old(Held()), Held())
    {
      hide DueWork, Inv, Driven, AttackEnded;
      SetPlayer(charId, players[charId].(hp := 0.0));
      StopAllNpcAttacksOnPlayer(charId);
      ghost var b := Held();
      StopAttacker(charId, now);
      ghost var m := Held();
      ClearCombatStance(charId);
      EndedBesides(charId, b, m, b.(inCombat := inCombat), Held());
    }

    /** The hit points a living player loses, and its death without any left. */
    method HurtPlayer(charId: int, damage: int, ghost now: Time)
      requires Inv() && Driven() && now <= clock && charId in players && players[charId].hp > 0.0
      modifies `clock, `combat, `stoppedAt, `npcCombat, `players, `inCombat, `stances, events
      ensures Inv() && Driven() && Progress(now, 0)
      ensures players == old(players)[charId := Damaged(old(players)[charId], damage)]
      ensures inCombat == if players[charId].hp > 0.0 then old(inCombat) else old(inCombat) - {charId}
      ensures players[charId].hp > 0.0 ==> stances == old(stances)
      ensures if players[charId].hp > 0.0 then combat == old(combat) && npcCombat == old(npcCombat)
        else combat == Stopped(old(combat), charId) && npcCombat == LeftAlone(old(npcCombat), charId)
      ensures PlayerHurt(charId, damage, {}, old(Held()), Held())
    {
      hide DueWork, Inv, Driven;
      var hp := players[charId].hp - damage as real;
      SetPlayer(charId, players[charId].(hp := if hp < 0.0 then 0.0 else hp));
      if players[charId].hp <= 0.0 {
        HandlePlayerDeath(charId, now);
      }
    }

    /** Player against player: both enter the combat stance, unless the victim is dead already. */
    method DealDamageToPlayer(charId: int, attacker: int, damage: int, ghost now: Time)
      requires Inv() && Driven() && now <= clock && charId in players
      modifies `clock, `combat, `stoppedAt, `npcCombat, `players, `inCombat, `stances, events
      ensures Inv() && Driven() && Progress(now, 0)
      ensures players == old(players)[charId := Damaged(old(players)[charId], damage)]
      ensures inCombat == if old(players)[charId].hp <= 0.0 then old(inCombat)
        else old(inCombat) + {attacker, charId} * players.Keys - if players[charId].hp > 0.0 then {} else {charId}
      ensures PlayerHurt(charId, damage, {attacker, charId}, old(Held()), Held())
    {
      hide DueWork, Inv, Driven, PlayerHurt;
      NoHarmToTheDead(charId, damage, {attacker, charId}, Held());
      assert players[charId := players[charId]] == players;
      if players[charId].hp <= 0.0 { return; }
      DrawBoth(attacker, charId);
      HurtPlayer(charId, damage, now);
      ArmedAndHurt(charId, damage, {attacker, charId}, old(Held()), Held());
    }

    method DrawBoth(attacker: int, charId: int)
      requires Driven()
      modifies `inCombat, `stances
      ensures Driven() && inCombat == old(inCombat) + {attacker, charId} * players.Keys && old(stances) <= stances
    {
      hide Driven;
      DrawWeapon(attacker);
      DrawWeapon(charId);
    }

    /** Vitals restored to a living player, clamped to their maxima; the dead are not healed. */
    method HandleRestoreStats(charId: int, hpGain: int, mpGain: int, cpGain: int)
      requires Inv()
      modifies `players
      ensures Inv() && LogGrows()
      ensures players == if charId in old(players)
        then old(players)[charId := Restored(old(players)[charId], hpGain, mpGain, cpGain)] else old(players)
      ensures ObeyedAnyway(RestoreStats(charId, hpGain, mpGain, cpGain), old(Held()), Held())
    {
      hide SpawnsOk, Beating, StancesOk, Chained;
      if charId !in players { return; }
      assert players[charId := players[charId]] == players;
      if players[charId].hp <= 0.0 { return; }
      var p := players[charId];
      if hpGain > 0 { p := p.(hp := MinReal(p.hp + hpGain as real, p.maxHp as real)); }
      if mpGain > 0 { p := p.(mp := MinReal(p.mp + mpGain as real, p.maxMp as real)); }
      if cpGain > 0 { p := p.(cp := if p.cp + cpGain > p.maxCp then p.maxCp else p.cp + cpGain); }
      SetPlayer(charId, p);
    }

    // ---------- Skills ----------

    /** Stops the player's attack and clears its target. A cast in progress goes on. */
    method HandleTeleport(charId: int, ghost now: Time)
      requires Inv() && Driven() && now <= clock
      modifies `clock, `combat, `stoppedAt, `players, events
      ensures Inv() && Driven() && Progress(now, 0) && LogGrows()
      ensures players == if charId in old(players)
        then old(players)[charId := old(players)[charId].(target := 0)] else old(players)
      ensures combat == if charId in old(players) then Stopped(old(combat), charId) else old(combat)
      ensures ObeyedAnyway(Command.Teleport(charId), old(Held()), Held())
    {
      hide DueWork, Inv, Driven, LogGrows, AttackEnded;
      if charId !in players {
        LogKept();
        return;
      }
      StopAttacker(charId, now);
      ghost var m := Held();
      AttackEndsOnly(charId, old(Held()), m);
      SetPlayer(charId, players[charId].(target := 0));
      EndedBesides(charId, old(Held()), m, old(Held()).(players := players), Held());
      LogKept();
    }

    /** Positions, stats and dice, whatever they are. */
    method Draw() returns (luck: Chance)
      ensures luck.rolls.Valid()
    {
      var inReach: bool, speed, hit: bool, damage, checks: Checks := *, *, *, *, *;
      var respawnPoint: bool := *;
      var magic: nat, physical: nat, drain: nat :| true;
      luck := Chance(inReach, speed, hit, damage, checks, Rolls(respawnPoint, magic + 1, physical + 1, drain + 1));
    }

    /** Sums the powers of a skill's effects; an Escape ends the list early. */
    method Gather(effects: seq<ScopedEffect>) returns (p: Powers, escape: Option<bool>)
      ensures (p, escape) == Gathered(effects)
    {
      p, escape := NO_POWERS, None;
      for i := 0 to |effects|
        invariant escape.None? && (p, None) == Gathered(effects[..i])
      {
        assert effects[..i + 1][..i] == effects[..i];
        if effects[i].Counts() {
          match effects[i].effect
          case Escape(town) =>
            EscapeEnds(effects, i);
            escape := Some(town);
            return;
          case Heal(power) => p := p.(hp := p.hp + power);
          case ManaHeal(power) => p := p.(mp := p.mp + power);
          case CpHeal(power) => p := p.(cp := p.cp + power);
          case MagicAttack(power) => p := p.(magic := p.magic + power);
          case PhysicalAttack(power) => p := p.(physical := p.physical + power);
          case HpDrain(power) => p := p.(drain := p.drain + power);
          case OtherEffect =>
        }
      }
      assert effects[..|effects|] == effects;
    }

    /**
     The instant effects of a skill. Buffs take no part here; an Escape suppresses all others. Players and NPCs
     change exactly as computed, but for those whom an NPC's death levels up.
     */
    method ApplySkillEffects(caster: int, target: int, skill: Skill, rolls: Rolls, ghost now: Time)
      requires Inv() && Driven() && now <= clock && caster in players && rolls.Valid()
      modifies `clock, `combat, `stoppedAt, `npcCombat, `npcs, `players, `diedAt, `inCombat, `stances, events
      ensures Inv() && Driven() && Progress(now, if skill.IsBuff() then 0 else 3) && SameCasts(old(players), players)
      ensures SkillDone(old(players), old(npcs), players, npcs, caster, target, skill, rolls)
      ensures SkillHappened(skill, caster, target, rolls, old(Held()), Held())
      ensures skill.IsBuff() ==> Held() == old(Held())
    {
      hide DueWork, Inv, Driven, Gathered, Soothed, SkillDone, FoughtOut;
      if skill.IsBuff() {
        NothingDone(players, npcs, caster, target, skill, rolls);
        return;
      }
      TakeEffect(caster, target, skill, rolls, now);
    }

    method TakeEffect(caster: int, target: int, skill: Skill, rolls: Rolls, ghost now: Time)
      requires Inv() && Driven() && now <= clock && caster in players && rolls.Valid() && !skill.IsBuff()
      modifies `clock, `combat, `stoppedAt, `npcCombat, `npcs, `players, `diedAt, `inCombat, `stances, events
      ensures Inv() && Driven() && Progress(now, 3) && SameCasts(old(players), players)
      ensures SkillDone(old(players), old(npcs), players, npcs, caster, target, skill, rolls)
      ensures var (p, escape) := Gathered(skill.effects);
        FoughtOut(p, escape, caster, target, rolls,
                  old(Held()).(players := Soothed(old(players), caster, target, p, escape, rolls)), Held())
    {
      hide DueWork, Inv, Driven, Gathered, Soothed, Harmed, Struck, Drained, PlayerFoughtOut, NpcFoughtOut;
      var p, escape := Gather(skill.effects);
      Soothe(caster, target, p, escape, rolls, now);
      if escape.None? && p.Damages() { ApplyDamage(caster, target, p, rolls, now); }
    }

    /** What of a skill moves its caster or restores its target. */
    method Soothe(caster: int, target: int, p: Powers, escape: Option<bool>, rolls: Rolls, ghost now: Time)
      requires Inv() && Driven() && now <= clock && caster in players
      modifies `clock, `combat, `stoppedAt, `players, events
      ensures Inv() && Driven() && Progress(now, 0) && SameCasts(old(players), players)
      ensures players == Soothed(old(players), caster, target, p, escape, rolls)
      ensures combat == if escape == Some(true) && rolls.respawnPoint then Stopped(old(combat), caster) else old(combat)
      ensures escape.None? ==> Held() == old(Held()).(players := players)
    {
      hide DueWork, Inv, Driven, ObeyedAnyway;
      if escape.Some? {
        if escape.value && rolls.respawnPoint { HandleTeleport(caster, now); }
      } else if p.hp > 0 || p.mp > 0 || p.cp > 0 {
        HandleRestoreStats(target, p.hp, p.mp, p.cp);
      }
    }

    /** One hit on a living player; a draining one heals the caster, if it lives. */
    method HitPlayer(caster: int, target: int, p: Powers, rolls: Rolls, ghost now: Time)
      requires Inv() && Driven() && now <= clock && caster in players && target in players && target != caster
      modifies `clock, `combat, `stoppedAt, `npcCombat, `players, `inCombat, `stances, events
      ensures Inv() && Driven() && Progress(now, 0) && SameCasts(old(players), players)
      ensures players == Harmed(old(players), caster, target, p, rolls)
      ensures PlayerFoughtOut(caster, target, old(Held()), Held())
    {
      hide DueWork, Inv, Driven, ObeyedAnyway, PlayerHurt, PlayerFoughtOut, SameCasts, Damaged, Restored;
      HarmedSameCasts(players, caster, target, p, rolls);
      NoFightWithTheDead(caster, target, Held());
      if players[target].hp <= 0.0 { return; }
      var total := 0;
      if p.magic > 0 { total := total + rolls.magic; }
      if p.physical > 0 { total := total + rolls.physical; }
      if p.drain > 0 { total := total + rolls.drain; }
      DealDamageToPlayer(target, caster, total, now);
      ghost var m := Held();
      HurtAndFoughtOut(caster, target, total, old(Held()), m);
      if p.drain > 0 && players[caster].hp > 0.0 { HandleRestoreStats(caster, rolls.drain / 2, 0, 0); }
      FoughtOutBesides(caster, target, old(Held()), m, Held());
    }

    /** What of a skill does damage: to a player, or to an NPC that is not dead. */
    method ApplyDamage(caster: int, target: int, p: Powers, rolls: Rolls, ghost now: Time)
      requires Inv() && Driven() && now <= clock && caster in players && p.Damages() && rolls.Valid()
      modifies `clock, `combat, `stoppedAt, `npcCombat, `npcs, `players, `diedAt, `inCombat, `stances, events
      ensures Inv() && Driven() && Progress(now, 3) && SameCasts(old(players), players)
      ensures if target in old(players) && target != caster
        then npcs == old(npcs) && players == Harmed(old(players), caster, target, p, rolls)
        else if target in old(npcs) && !old(npcs)[target].dead
          then npcs == old(npcs)[target := Struck(old(npcs)[target], p, rolls)]
            && Awarded(Drained(old(players), caster, p, rolls), players)
            && (npcs[target].hp > 0.0 ==> players == Drained(old(players), caster, p, rolls))
        else npcs == old(npcs) && players == old(players)
      ensures FoughtOut(p, None, caster, target, rolls, old(Held()), Held())
    {
      hide DueWork, Inv, Driven, Harmed, Struck, Drained, PlayerFoughtOut, NpcFoughtOut;
      if target in players && target != caster {
        HitPlayer(caster, target, p, rolls, now);
        return;
      }
      if target !in npcs || npcs[target].dead { return; }
      ApplyNpcDamage(caster, target, p, rolls, now);
      DrainedSameCasts(old(players), players, caster, p, rolls);
    }

    /** Up to three hits on one NPC. A kill by the first does not stop the others. */
    method ApplyNpcDamage(caster: int, target: int, p: Powers, rolls: Rolls, ghost now: Time)
      requires Inv() && Driven() && now <= clock && caster in players && target in npcs
      requires p.Damages() && rolls.Valid()
      modifies `clock, `combat, `stoppedAt, `npcCombat, `npcs, `players, `diedAt, events
      ensures Inv() && Driven() && Progress(now, 3)
      ensures npcs == old(npcs)[target := Struck(old(npcs)[target], p, rolls)]
      ensures Awarded(Drained(old(players), caster, p, rolls), players)
      ensures npcs[target].hp > 0.0 ==> players == Drained(old(players), caster, p, rolls)
      ensures NpcFoughtOut(target, old(Held()), Held())
    {
      hide DueWork, Inv, Driven, Pierced, Wounded, DeadWithoutHp, Awarded, NpcFoughtOut;
      ghost var n := npcs[target];
      StrikeNpc(caster, target, p, rolls, now);
      if p.drain > 0 {
        ghost var struck, mid := Held(), players;
        AwardedSameCasts(old(players), mid);
        DrainNpc(caster, target, p, rolls, now);
        AwardedDrained(old(players), mid, caster, p, rolls);
        AwardedTwice(Drained(old(players), caster, p, rolls), Drained(mid, caster, p, rolls), players);
        WoundsHurt(Pierced(n, p, rolls), rolls.drain);
        if p.magic > 0 || p.physical > 0 { FoughtOutTwice(target, old(Held()), struck, Held()); }
      }
    }

    /** The parts of a skill that drain nothing. */
    method StrikeNpc(caster: int, target: int, p: Powers, rolls: Rolls, ghost now: Time)
      requires Inv() && Driven() && now <= clock && caster in players && target in npcs && rolls.Valid()
      modifies `clock, `combat, `stoppedAt, `npcCombat, `npcs, `players, `diedAt, events
      ensures Inv() && Driven() && Progress(now, 2)
      ensures npcs == old(npcs)[target := Pierced(old(npcs)[target], p, rolls)]
      ensures Awarded(old(players), players) && (npcs[target].hp > 0.0 ==> players == old(players))
      ensures if p.magic > 0 || p.physical > 0 then NpcFoughtOut(target, old(Held()), Held()) else Held() == old(Held())
    {
      hide DueWork, Inv, Driven, Wounded, DeadWithoutHp, Awarded, NpcHurt, NpcFoughtOut;
      ghost var n := npcs[target];
      assert npcs == npcs[target := n];
      NobodyAwarded(players);
      if p.magic > 0 {
        DealDamageToNpc(target, caster, rolls.magic, now);
        HurtFoughtOut(target, rolls.magic, old(Held()), Held());
      }
      ghost var pierced, mid, a := Held(), players, npcs[target];
      assert Progress(now, 1);
      if p.physical > 0 {
        DealDamageToNpc(target, caster, rolls.physical, now);
        AwardedTwice(old(players), mid, players);
        WoundsHurt(a, rolls.physical);
        HurtFoughtOut(target, rolls.physical, pierced, Held());
        if p.magic > 0 { FoughtOutTwice(target, old(Held()), pierced, Held()); }
      }
    }

    /** Half of what is drained heals a caster that lives. */
    method DrainNpc(caster: int, target: int, p: Powers, rolls: Rolls, ghost now: Time)
      requires Inv() && Driven() && now <= clock && caster in players && target in npcs && p.drain > 0
      modifies `clock, `combat, `stoppedAt, `npcCombat, `npcs, `players, `diedAt, events
      ensures Inv() && Driven() && Progress(now, 1)
      ensures npcs == old(npcs)[target := DeadWithoutHp(Wounded(old(npcs)[target], rolls.drain))]
      ensures Awarded(Drained(old(players), caster, p, rolls), players)
      ensures npcs[target].hp > 0.0 ==> players == Drained(old(players), caster, p, rolls)
      ensures NpcFoughtOut(target, old(Held()), Held())
    {
      hide DueWork, Inv, Driven, ObeyedAnyway, Restored, NpcHurt;
      DealDamageToNpc(target, caster, rolls.drain, now);
      HurtFoughtOut(target, rolls.drain, old(Held()), Held());
      AwardedDrained(old(players), players, caster, p, rolls);
      if players[caster].hp > 0.0 { HandleRestoreStats(caster, rolls.drain / 2, 0, 0); }
    }

    /** Runs towards the target and retries on arrival; a repeated key press does not start a second run. */
    method StartCastApproach(cmd: CastRequest, target: int, ghost now: Time)
      requires Inv() && Driven() && now <= clock
      modifies `clock, `combat, `stoppedAt, `castPending, `interactPending, events
      ensures Inv() && Driven() && Progress(now, 0)
      ensures castPending == if cmd.charId in old(castPending) && old(castPending)[cmd.charId].skillId == cmd.skillId
        then old(castPending) else old(castPending)[cmd.charId := cmd]
      ensures ApproachBegun(cmd, target, old(Held()), Held())
    {
      hide DueWork, Inv, Driven;
      if cmd.charId in castPending && castPending[cmd.charId].skillId == cmd.skillId { return; }
      BeginApproach(cmd, target, now);
    }

    method BeginApproach(cmd: CastRequest, target: int, ghost now: Time)
      requires Inv() && Driven() && now <= clock
      modifies `clock, `combat, `stoppedAt, `castPending, `interactPending, events
      ensures Inv() && Driven() && Progress(now, 0) && castPending == old(castPending)[cmd.charId := cmd]
      ensures RunBegun(cmd, target, old(Held()), Held())
    {
      hide DueWork, Inv, Driven, AttackAbandoned;
      StopIfAttacking(cmd.charId, now);
      ghost var c := Held();
      StopTalkApproach(cmd.charId);
      ScheduleApproach(cmd, target, now);
      RunIsBegun(cmd, target, old(Held()), c, Held());
    }

    method StopTalkApproach(charId: int)
      modifies `interactPending
      ensures interactPending == old(interactPending) - {charId} && (old(Driven()) ==> Driven())
    {
      hide DueWork, HeapOrdered, CastsOk, SpawnsOk, Beating, StancesOk, Chained, Staged;
      ghost var d := Driving();
      interactPending := interactPending - {charId};
      if old(Driven()) { BeatingFewer(Driving(), d, Queued()); }
    }

    method StopCastApproach(charId: int)
      modifies `castPending
      ensures castPending == old(castPending) - {charId} && (old(Driven()) ==> Driven())
    {
      hide DueWork, HeapOrdered, CastsOk, SpawnsOk, Beating, StancesOk, Chained, Staged;
      ghost var d := Driving();
      castPending := castPending - {charId};
      if old(Driven()) { BeatingFewer(Driving(), d, Queued()); }
    }

    method ScheduleApproach(cmd: CastRequest, target: int, ghost now: Time)
      requires Inv() && Driven() && now <= clock
      modifies `clock, `castPending, events
      ensures Inv() && Driven() && Progress(now, 0) && castPending == old(castPending)[cmd.charId := cmd]
      ensures Queued() == old(Queued()) + multiset{CastApproach(clock + 300_000_000, cmd.charId, target, cmd)}
    {
      hide DueWork, Inv, Beating, Swung, Chained, Staged;
      ghost var d, q := Driving(), Queued();
      BeatingFewer(d.(castPending := castPending - {cmd.charId}), d, q);
      castPending := castPending[cmd.charId := cmd];
      var t := Now();
      var e := CastApproach(t + 300 * MILLISECOND, cmd.charId, target, cmd);
      Schedule(e, now);
      BeatingCast(d, q, cmd.charId, cmd, e);
    }

    /** The target a cast applies to: the caster, its current target, or 0 when nothing is valid. */
    function CastTarget(caster: int, p: Player, skill: Skill): int {
      if skill.selfTarget then caster
      else if p.target != 0 then p.target
      else if !skill.offensive then caster
      else 0
    }

    /** Whoever is there, lives, casts nothing and knows the skill goes on with it. */
    method HandleCastRequest(cmd: CastRequest, checks: Checks, speed: int, rolls: Rolls, ghost now: Time)
      requires Inv() && Driven() && now <= clock && rolls.Valid()
      modifies `clock, `castSeq, `combat, `stoppedAt, `npcCombat, `npcs, `players, `castPending, `interactPending,
        `diedAt, `log, `inCombat, `stances, events
      ensures Inv() && Driven() && Progress(now, 4) && npcs == old(npcs)
      ensures log.applied == old(log).applied && log.dropped == old(log).dropped && IssuedKept()
      ensures castSeq == old(castSeq) || castSeq !in old(log).issued
      ensures RequestDone(skills, cmd, checks, speed, old(Held()), Held())
    {
      hide DueWork, Inv, Driven, SkillRequested;
      var who := cmd.charId;
      if who !in players || players[who].hp <= 0.0 || players[who].casting.Some? { return; }
      var level := if cmd.skillId in players[who].knownSkills then players[who].knownSkills[cmd.skillId] else 0;
      if level <= 0 || (cmd.skillId, level) !in skills { return; }
      RequestSkill(cmd, level, skills[(cmd.skillId, level)], checks, speed, rolls, now);
    }

    /** The skill has to be castable, off reuse, and aimed at something in range that may be attacked if need be. */
    method RequestSkill(cmd: CastRequest, level: int, skill: Skill, checks: Checks, speed: int, rolls: Rolls,
                        ghost now: Time)
      requires Inv() && Driven() && now <= clock && rolls.Valid()
      requires cmd.charId in players && players[cmd.charId].casting.None?
      modifies `clock, `castSeq, `combat, `stoppedAt, `npcCombat, `npcs, `players, `castPending, `interactPending,
        `diedAt, `log, `inCombat, `stances, events
      ensures Inv() && Driven() && Progress(now, 4) && npcs == old(npcs)
      ensures log.applied == old(log).applied && log.dropped == old(log).dropped && IssuedKept()
      ensures castSeq == old(castSeq) || castSeq !in old(log).issued
      ensures SkillRequested(cmd, level, skill, checks, speed, old(Held()), Held())
    {
      hide DueWork, Inv, Driven, ApproachBegun, TargetReached;
      var who := cmd.charId;
      if !skill.IsActive() && !skill.IsToggle() { return; }
      if skill.IsToggle() && checks.toggledOff { return; }
      if checks.onReuse { return; }
      var target := CastTarget(who, players[who], skill);
      if target == 0 { return; }
      if !(skill.castRange <= 0 || target == who || checks.inRange) {
        StartCastApproach(cmd, target, now);
        return;
      }
      StopCastApproach(who);
      CastInRange(cmd, level, skill, target, checks, speed, rolls, now);
    }

    /** A hostile skill at a player asks for its flags first. */
    method CastInRange(cmd: CastRequest, level: int, skill: Skill, target: int, checks: Checks, speed: int,
                       rolls: Rolls, ghost now: Time)
      requires Inv() && Driven() && now <= clock && cmd.charId in players && players[cmd.charId].casting.None?
      requires (skill.IsActive() || skill.IsToggle()) && rolls.Valid()
      modifies `clock, `castSeq, `combat, `stoppedAt, `npcCombat, `npcs, `players, `diedAt, `log, `inCombat, `stances,
        events
      ensures Inv() && Driven() && Progress(now, 4) && npcs == old(npcs)
      ensures log.applied == old(log).applied && log.dropped == old(log).dropped && IssuedKept()
      ensures castSeq == old(castSeq) || castSeq !in old(log).issued
      ensures TargetReached(cmd, level, skill, target, checks, speed, old(Held()), Held())
    {
      hide DueWork, Inv, Driven, CastBegun;
      if skill.offensive && target != cmd.charId && target in players && !checks.pvpAllowed { return; }
      BeginCast(cmd, level, skill, target, speed, rolls, now);
    }

    /** Behind the guards: the mana check for both costs, the first payment, then a toggle's effects or a timed cast. */
    method BeginCast(cmd: CastRequest, level: int, skill: Skill, target: int, speed: int, rolls: Rolls,
                     ghost now: Time)
      requires Inv() && Driven() && now <= clock && cmd.charId in players && players[cmd.charId].casting.None?
      requires (skill.IsActive() || skill.IsToggle()) && rolls.Valid()
      modifies `clock, `castSeq, `combat, `stoppedAt, `npcCombat, `npcs, `players, `diedAt, `log, `inCombat, `stances,
        events
      ensures Inv() && Driven() && Progress(now, 4) && npcs == old(npcs)
      ensures log.applied == old(log).applied && log.dropped == old(log).dropped && IssuedKept()
      ensures old(players[cmd.charId]).mp.Floor < skill.mpConsume1 + skill.mpConsume2 ==>
        Held() == old(Held())
      ensures old(players[cmd.charId]).mp.Floor >= skill.mpConsume1 + skill.mpConsume2 ==>
        var paid := old(players[cmd.charId]).(mp := old(players[cmd.charId]).mp - skill.mpConsume1 as real);
        if skill.IsToggle() then Held() == old(Held()).(players := old(players)[cmd.charId := paid])
        else CastBegun(cmd, level, skill, target, speed, old(Held()), Held())
      ensures castSeq == old(castSeq) || castSeq !in old(log).issued
    {
      hide DueWork, Inv, Driven, CastTime, CastBegun, SkillDone, SkillHappened;
      var who := cmd.charId;
      if players[who].mp.Floor < skill.mpConsume1 + skill.mpConsume2 { return; }
      SetPlayer(who, players[who].(mp := players[who].mp - skill.mpConsume1 as real));
      if skill.IsToggle() {
        ApplySkillEffects(who, target, skill, rolls, now);
        return;
      }
      ghost var c := Held();
      TimeCast(cmd, level, skill, target, speed, now);
      CastIsBegun(cmd, level, skill, target, speed, old(Held()), c, Held());
    }

    /** The hit is due when the cast time is over, which the caster's speed decides. */
    method TimeCast(cmd: CastRequest, level: int, skill: Skill, target: int, speed: int, ghost now: Time)
      requires Inv() && Driven() && now <= clock && cmd.charId in players && players[cmd.charId].casting.None?
      modifies `clock, `castSeq, `players, `log, events
      ensures Inv() && Driven() && Progress(now, 4) && castSeq !in old(log).issued
      ensures CastTimed(cmd, level, skill, target, speed, old(Held()), Held())
    {
      hide DueWork, Inv, Driven, CastTime;
      var hitTime := CastTime(skill.hitTime, speed);
      var t := Now();
      IssueCast(cmd.charId, cmd.skillId, level, target, t + hitTime, now);
    }

    /** Issues the next cast id and schedules the hit that carries it. */
    method IssueCast(who: int, skillId: int, level: int, target: int, hitAt: Time, ghost now: Time)
      requires Inv() && Driven() && now <= hitAt && who in players && players[who].casting.None?
      modifies `castSeq, `players, `log, events
      ensures Inv() && Driven() && Progress(now, 4)
      ensures castSeq == old(castSeq) + 1 && castSeq !in old(log).issued
      ensures players == old(players)[who := old(players)[who].(casting := Some(Cast(castSeq, skillId, level, target)))]
      ensures log == old(log).(issued := old(log).issued[castSeq := Issue(hitAt, who)])
      ensures Queued() == old(Queued()) + multiset{CastHit(hitAt, who, castSeq)}
    {
      hide DueWork, HeapOrdered, CastsOk, SpawnsOk, Driven;
      QueueCastHit(CastHit(hitAt, who, castSeq + 1), now);
      CastStarted(players, old(Queued()), castSeq, log, who,
                  players[who].(casting := Some(Cast(castSeq + 1, skillId, level, target))), hitAt);
      castSeq := castSeq + 1;
      players := players[who := players[who].(casting := Some(Cast(castSeq, skillId, level, target)))];
      log := log.(issued := log.issued[castSeq := Issue(hitAt, who)]);
    }

    method QueueCastHit(e: Event, ghost now: Time)
      requires Inv() && Driven() && e.CastHit? && now <= e.at
      modifies events
      ensures HeapOrdered(events.items) && SpawnsOk(npcs, spawnInfo, templates, Queued(), lastNpcId, diedAt, loose)
      ensures Driven() && Progress(now, 4) && Queued() == old(Queued()) + multiset{e}
    {
      hide DueWork, HeapOrdered, CastsOk, SpawnsOk, Beating, StancesOk, Chained, Staged;
      events.Schedule(e);
      ChainedOther(old(Queued()), e, doubled);
      BeatingMore(Driving(), old(Queued()), Queued());
      SpawnsOkQueue(npcs, spawnInfo, templates, old(Queued()), Queued(), lastNpcId, diedAt, loose);
    }

    /** Interrupts a cast in progress; its queued hit stays and will find nothing to do. */
    method AbortCast(who: int)
      requires Inv() && who in players
      modifies `players, `log
      ensures Inv() && players == old(players)[who := old(players)[who].(casting := None)]
      ensures log == Dropped(old(log), old(players)[who].casting)
    {
      hide DueWork, Inv, MpOk;
      CutCast(who, players[who := players[who].(casting := None)]);
    }

    /** One player changes or goes; the cast it had in progress is on record as cut. */
    method CutCast(who: int, after: map<int, Player>)
      requires Inv() && forall q :: q in after && q != who ==> q in players && after[q] == players[q]
      requires who in after ==>
        after[who].casting.None? && (after[who].mp >= 0.0 || (who in players && after[who].mp == players[who].mp))
      modifies `players, `log
      ensures Inv() && players == after
      ensures log == Dropped(old(log), if who in old(players) then old(players)[who].casting else None)
    {
      hide DueWork, HeapOrdered, CastsOk, SpawnsOk;
      CastDropped(players, after, Queued(), castSeq, log, who);
      log := Dropped(log, if who in players then players[who].casting else None);
      players := after;
    }

    // ---------- Events ----------

    /** What executing a popped event may do to the history of casts: at most run the cast it carries. */
    twostate predicate LogStep(e: Event) reads `castSeq, `log, `loose, `doubled {
      && loose == old(loose) && doubled == old(doubled) && IssuedKept() && log.dropped == old(log).dropped
      && (log.applied == old(log).applied
          || (e.CastHit? && HitLands(old(players), e) && log.applied == old(log).applied + multiset{e.castId}))
    }

    twostate lemma StepGrows(e: Event)
      requires LogStep(e) && old(stances) <= stances
      ensures LogGrows() && doubled == old(doubled)
    {}

    /** A stale hit changes nothing; one that lands runs the cast it finds, once. */
    method ExecuteCastHit(e: Event, luck: Chance, ghost now: Time)
      requires e.CastHit? && InvWith(Queued() + multiset{e}) && Driven() && now <= clock
      requires luck.rolls.Valid()
      modifies `clock, `combat, `stoppedAt, `npcCombat, `npcs, `players, `diedAt, `log, `inCombat, `stances, events
      ensures Inv() && Driven() && Progress(now, 3) && LogStep(e)
      ensures log.applied != old(log).applied <==> Lands(skills, old(players), e)
      ensures Happened(skills, e, luck, old(Held()), Held())
    {
      hide DueWork, Inv, Driven, SkillDone, SkillHappened, Happened;
      var cast := CompleteCast(e);
      ghost var m := Held();
      if cast.Some? {
        LandCast(e.charId, cast.value.target, skills[(cast.value.skillId, cast.value.level)], luck.rolls, now);
      }
      HitIsDone(skills, e, luck, old(Held()), m, Held());
    }

    /** The hit ends the cast it finds in progress; the cast is to be applied if it lands. */
    method CompleteCast(e: Event) returns (cast: Option<Cast>)
      requires e.CastHit? && InvWith(Queued() + multiset{e})
      modifies `players, `log
      ensures Inv()
      ensures players == if HitLands(old(players), e)
        then old(players)[e.charId := old(players)[e.charId].(casting := None)] else old(players)
      ensures cast.Some? <==> Lands(skills, old(players), e)
      ensures cast.Some? ==> cast == old(players)[e.charId].casting
      ensures log == if cast.Some? then old(log).(applied := old(log).applied + multiset{e.castId}) else old(log)
    {
      hide CastsOk, SpawnsOk;
      SpawnsOkQueue(npcs, spawnInfo, templates, Queued() + multiset{e}, Queued(), lastNpcId, diedAt, loose);
      var who := e.charId;
      if !HitLands(players, e) {
        StaleHitPopped(players, Queued(), e, castSeq, log);
        return None;
      }
      cast := players[who].casting;
      HitLanded(players, Queued(), e, castSeq, log);
      players := players[who := players[who].(casting := None)];
      if players[who].hp <= 0.0 || (cast.value.skillId, cast.value.level) !in skills { return None; }
      log := log.(applied := log.applied + multiset{e.castId});
    }

    /** The hit of a timed cast: a second MP cost when there is enough left, then the effects. */
    method LandCast(who: int, target: int, skill: Skill, rolls: Rolls, ghost now: Time)
      requires Inv() && Driven() && now <= clock && who in players && rolls.Valid()
      modifies `clock, `combat, `stoppedAt, `npcCombat, `npcs, `players, `diedAt, `inCombat, `stances, events
      ensures Inv() && Driven() && Progress(now, 3) && SameCasts(old(players), players)
      ensures var paid := old(players)[who := Paid(old(players)[who], skill.mpConsume2)];
        && SkillDone(paid, old(npcs), players, npcs, who, target, skill, rolls)
        && SkillHappened(skill, who, target, rolls, old(Held()).(players := paid), Held())
    {
      hide DueWork, Inv, Driven, SkillDone, SkillHappened;
      if skill.mpConsume2 > 0 && players[who].mp.Floor >= skill.mpConsume2 {
        SetPlayer(who, players[who].(mp := players[who].mp - skill.mpConsume2 as real));
      }
      assert players == old(players)[who := Paid(old(players)[who], skill.mpConsume2)];
      ApplySkillEffects(who, target, skill, rolls, now);
    }

    /** An approach that cannot go on is given up. */
    method GiveUpCast(e: Event)
      requires e.CastApproach? && Inv() && DrivenWithout(e)
      modifies `castPending
      ensures Inv() && Driven() && Held() == old(Held()).(castPending := old(castPending) - {e.charId})
    {
      hide DueWork, Inv, Chained, Staged;
      ChainedFewer(Queued() + multiset{e}, Queued(), doubled);
      castPending := castPending - {e.charId};
    }

    method ExecuteCastApproach(e: Event, luck: Chance, ghost now: Time)
      requires e.CastApproach? && Inv() && DrivenWithout(e) && now <= clock
      requires luck.rolls.Valid()
      modifies `clock, `castSeq, `combat, `stoppedAt, `npcCombat, `npcs, `players, `castPending, `interactPending,
        `diedAt, `log, `inCombat, `stances, events
      ensures Inv() && Driven() && Progress(now, 4)
      ensures log.applied == old(log).applied && log.dropped == old(log).dropped && IssuedKept()
      ensures Happened(skills, e, luck, old(Held()), Held())
    {
      hide DueWork, HeapOrdered, CastsOk, SpawnsOk, Beating, StancesOk, Chained, Staged, RequestDone, Happened;
      ChainedFewer(Queued() + multiset{e}, Queued(), doubled);
      var who := e.charId;
      if who !in castPending || castPending[who].skillId != e.cmd.skillId {
        ApproachEnds(skills, e, luck, old(Held()), Held());
        return;
      }
      if who !in players || players[who].hp <= 0.0 || players[who].casting.Some?
         || (e.target != who && players[who].target != e.target) {
        GiveUpCast(e);
        ApproachEnds(skills, e, luck, old(Held()), Held());
        return;
      }
      var level := if e.cmd.skillId in players[who].knownSkills then players[who].knownSkills[e.cmd.skillId] else 0;
      if (e.cmd.skillId, level) !in skills {
        GiveUpCast(e);
        ApproachEnds(skills, e, luck, old(Held()), Held());
        return;
      }
      if !(skills[(e.cmd.skillId, level)].castRange <= 0 || e.target == who || luck.inReach) {
        RetryCast(e, now);
        ApproachGoesOn(skills, e, luck, old(Held()), Held());
        return;
      }
      ArriveToCast(e, luck, now);
      ArrivedRequest(skills, e, luck, old(Held()), Held());
    }

    /** On arrival the approach ends, and the request is made. */
    method ArriveToCast(e: Event, luck: Chance, ghost now: Time)
      requires e.CastApproach? && Inv() && DrivenWithout(e) && now <= clock
      requires luck.rolls.Valid()
      modifies `clock, `castSeq, `combat, `stoppedAt, `npcCombat, `npcs, `players, `castPending, `interactPending,
        `diedAt, `log, `inCombat, `stances, events
      ensures Inv() && Driven() && Progress(now, 4)
      ensures log.applied == old(log).applied && log.dropped == old(log).dropped && IssuedKept()
      ensures RequestDone(skills, e.cmd, luck.checks, luck.speed,
                          old(Held()).(castPending := old(castPending) - {e.charId}), Held())
    {
      hide DueWork, HeapOrdered, CastsOk, SpawnsOk, Beating, StancesOk, Chained, Staged, RequestDone;
      ChainedFewer(Queued() + multiset{e}, Queued(), doubled);
      castPending := castPending - {e.charId};
      assert Held() == old(Held()).(castPending := old(castPending) - {e.charId});
      HandleCastRequest(e.cmd, luck.checks, luck.speed, luck.rolls, now);
    }

    /** Still out of range: the approach is checked again 400 ms later. */
    method RetryCast(e: Event, ghost now: Time)
      requires e.CastApproach? && Inv() && DrivenWithout(e) && now <= clock
      requires e.charId in castPending && castPending[e.charId].skillId == e.cmd.skillId
      modifies `clock, events
      ensures Inv() && Driven() && Progress(now, 0)
      ensures Queued() == old(Queued()) + multiset{CastApproach(clock + 400 * MILLISECOND, e.charId, e.target, e.cmd)}
    {
      hide DueWork, Inv, Beating, Swung, Chained, Staged;
      ChainedFewer(Queued() + multiset{e}, Queued(), doubled);
      var t := Now();
      var retry := CastApproach(t + 400 * MILLISECOND, e.charId, e.target, e.cmd);
      Schedule(retry, now);
      BeatingCast(Driving(), old(Queued()), e.charId, castPending[e.charId], retry);
      assert castPending[e.charId := castPending[e.charId]] == castPending;
    }

    method RetryTalk(e: Event, ghost now: Time)
      requires e.InteractApproach? && Inv() && DrivenWithout(e) && now <= clock
      requires e.charId in interactPending && interactPending[e.charId] == e.target
      modifies `clock, events
      ensures Inv() && Driven() && Progress(now, 0)
      ensures Queued() == old(Queued()) + multiset{InteractApproach(clock + 400 * MILLISECOND, e.charId, e.target)}
    {
      hide DueWork, Inv, Beating, Swung, Chained, Staged;
      ChainedFewer(Queued() + multiset{e}, Queued(), doubled);
      var t := Now();
      var retry := InteractApproach(t + 400 * MILLISECOND, e.charId, e.target);
      Schedule(retry, now);
      BeatingTalk(Driving(), old(Queued()), e.charId, e.target, retry);
      assert interactPending[e.charId := e.target] == interactPending;
    }

    method RetrySwing(e: Event, ghost now: Time)
      requires e.NextAttack? && Inv() && DrivenWithout(e) && now <= clock
      requires e.charId in combat && combat[e.charId].autoAttacking && combat[e.charId].target == e.target
      modifies `clock, events
      ensures Inv() && Driven() && Progress(now, 0)
      ensures Queued() == old(Queued()) + multiset{NextAttack(clock + 400 * MILLISECOND, e.charId, e.target)}
    {
      hide DueWork, Inv, Beating, Swung, Chained, Staged;
      var t := Now();
      QueueNextSwing(e, t + 400 * MILLISECOND, now);
    }

    method GiveUpTalk(e: Event)
      requires e.InteractApproach? && Inv() && DrivenWithout(e)
      modifies `interactPending
      ensures Inv() && Driven() && Held() == old(Held()).(interactPending := old(interactPending) - {e.charId})
    {
      hide DueWork, Inv, Chained, Staged;
      ChainedFewer(Queued() + multiset{e}, Queued(), doubled);
      interactPending := interactPending - {e.charId};
    }

    method ExecuteInteractApproach(e: Event, luck: Chance, ghost now: Time)
      requires e.InteractApproach? && Inv() && DrivenWithout(e) && now <= clock
      modifies `clock, `interactPending, events
      ensures Inv() && Driven() && Progress(now, 0)
      ensures Happened(skills, e, luck, old(Held()), Held())
    {
      hide DueWork, Inv, Beating, Chained, Staged, Swung;
      var who := e.charId;
      var pending := who in interactPending && interactPending[who] == e.target;
      assert !pending ==> Driven();
      hide Driven, DrivenWithout;
      if e.target !in npcs || npcs[e.target].dead || who !in players || players[who].target != e.target {
        if pending { GiveUpTalk(e); }
        return;
      }
      if !pending { return; }
      if !luck.inReach {
        RetryTalk(e, now);
        assert Held() == old(Held()).(clock := clock, queued := Queued());
        return;
      }
      GiveUpTalk(e);
    }

    method ExecuteNextAttack(e: Event, luck: Chance, ghost now: Time)
      requires e.NextAttack? && Inv() && DrivenWithout(e) && now <= clock
      modifies `clock, `combat, `stoppedAt, `inCombat, `stances, events
      ensures Inv() && Driven() && Progress(now, 0)
      ensures !Beats(old(Driving()), e) ==> combat == old(combat) && Queued() == old(Queued())
      ensures Beats(old(Driving()), e) ==>
        && e.charId in combat && combat == old(combat)[e.charId := combat[e.charId]]
        && combat[e.charId].target == e.target
        && combat[e.charId].autoAttacking ==
             (e.charId in players && if e.target in players
               then players[e.target].hp > 0.0 else e.target in npcs && !npcs[e.target].dead)
      ensures Beats(old(Driving()), e) && combat[e.charId].autoAttacking ==>
        (OneChain(old(Queued()) + multiset{e}, e.charId, e.target) ==> OneChain(Queued(), e.charId, e.target))
      ensures Happened(skills, e, luck, old(Held()), Held())
    {
      hide DueWork, HeapOrdered, CastsOk, SpawnsOk, Beating, StancesOk, Chained, Staged, OneChain;
      ChainedFewer(Queued() + multiset{e}, Queued(), doubled);
      var who := e.charId;
      if !AlreadyAttacking(who, e.target) { return; }
      var gone := if e.target in players then players[e.target].hp <= 0.0
                  else e.target !in npcs || npcs[e.target].dead;
      if gone || who !in players {
        EndAttack(who, now);
        return;
      }
      GoOnAttacking(e, luck, now);
    }

    /** Out of reach, the swing is tried again later; in reach, it happens. One swing replaces the fired one. */
    method GoOnAttacking(e: Event, luck: Chance, ghost now: Time)
      requires e.NextAttack? && Inv() && DrivenWithout(e) && now <= clock
      requires AlreadyAttacking(e.charId, e.target) && e.charId in players
      modifies `clock, `combat, `inCombat, `stances, events
      ensures Inv() && Driven() && Progress(now, 0) && AlreadyAttacking(e.charId, e.target)
      ensures combat == old(combat)[e.charId := combat[e.charId]]
      ensures OneChain(old(Queued()) + multiset{e}, e.charId, e.target) ==> OneChain(Queued(), e.charId, e.target)
      ensures if luck.inReach then SwingMade(e, luck.speed, luck.hit, luck.damage, old(Held()), Held())
        else SwingPutOff(e, old(Held()), Held())
    {
      hide DueWork, Inv, Beating, StancesOk, Chained, Staged, Swung, OneChain, CalcAttackSpeed;
      var who := e.charId;
      if !luck.inReach {
        PutOffSwing(e, now);
        assert combat[who := combat[who]] == combat;
        return;
      }
      Swing(e, luck.speed, luck.hit, luck.damage, now);
      ghost var ms := CalcAttackSpeed(luck.speed);
      ghost var hits := HitOf(e, clock, ms, luck.hit, luck.damage);
      ChainGoesOn(old(Queued()), hits, who, e.target, e.at, clock + ms * 1_000_000);
    }

    method PutOffSwing(e: Event, ghost now: Time)
      requires e.NextAttack? && Inv() && DrivenWithout(e) && now <= clock
      requires AlreadyAttacking(e.charId, e.target)
      modifies `clock, events
      ensures Inv() && Driven() && Progress(now, 0) && SwingPutOff(e, old(Held()), Held())
      ensures OneChain(old(Queued()) + multiset{e}, e.charId, e.target) ==> OneChain(Queued(), e.charId, e.target)
    {
      hide DueWork, Inv, Driven, Beating, StancesOk, Chained, Staged, Swung, OneChain;
      RetrySwing(e, now);
      ChainGoesOn(old(Queued()), multiset{}, e.charId, e.target, e.at, clock + 400 * MILLISECOND);
      assert old(Queued()) + multiset{} == old(Queued());
    }

    /** A swing that hits lands after half the interval; the next one follows after all of it. */
    method Swing(e: Event, pAtkSpd: int, hit: bool, damage: int, ghost now: Time)
      requires e.NextAttack? && Inv() && DrivenWithout(e) && now <= clock
      requires AlreadyAttacking(e.charId, e.target) && e.charId in players
      modifies `clock, `combat, `inCombat, `stances, events
      ensures Inv() && Driven() && Progress(now, 0)
      ensures SwingMade(e, pAtkSpd, hit, damage, old(Held()), Held())
    {
      hide DueWork, Inv, Beating, Chained, Staged, Swung, CalcAttackSpeed, HitOf, NextOf;
      var ms := CalcAttackSpeed(pAtkSpd);
      var t := BeginSwing(e.charId);
      QueueSwing(e, t, ms, hit, damage, now);
      assert Held() == old(Held()).(clock := clock, combat := combat, inCombat := inCombat, queued := Queued());
    }

    /** The weapon is drawn, and the swing is the last one as of now. */
    method BeginSwing(who: int) returns (t: Time)
      requires who in combat && who in players
      requires Beating(Driving().(combat := combat - {who}), Queued()) && Swung(combat, clock) && Staged()
      modifies `clock, `combat, `inCombat, `stances
      ensures Beating(Driving().(combat := combat - {who}), Queued()) && Swung(combat, clock) && Staged()
      ensures old(clock) <= clock == t && old(stances) <= stances
      ensures combat == old(combat)[who := old(combat)[who].(lastAttack := clock)]
      ensures inCombat == old(inCombat) + {who}
    {
      hide Beating, StancesOk, Chained, Swung;
      EnterCombatStance(who);
      t := Now();
      SetCombat(who, combat[who].(lastAttack := t));
    }

    method QueueSwing(e: Event, t: Time, ms: int, hit: bool, damage: int, ghost now: Time)
      requires Inv() && now <= t && ms >= 100 && e.NextAttack? && AlreadyAttacking(e.charId, e.target)
      requires Beating(Driving().(combat := combat - {e.charId}), Queued()) && Swung(combat, clock) && Staged()
      requires Chained(Queued() + multiset{e}, doubled)
      modifies events
      ensures Inv() && Driven() && Progress(now, 0)
      ensures Queued() == old(Queued()) + HitOf(e, t, ms, hit, damage) + multiset{NextOf(e, t, ms)}
    {
      hide DueWork, Inv, Driven, Beating, Swung, Chained, Staged;
      assert Queued() + multiset{} == Queued();
      if hit { QueueHit(e, t + (ms / 2) * MILLISECOND, damage, now); }
      BeatingMore(Driving().(combat := combat - {e.charId}), old(Queued()), Queued());
      QueueNextSwing(e, t + ms * MILLISECOND, now);
    }

    /** The next swing takes the place of the one that fired. */
    method QueueNextSwing(e: Event, at: Time, ghost now: Time)
      requires Inv() && now < at && e.NextAttack? && AlreadyAttacking(e.charId, e.target)
      requires Beating(Driving().(combat := combat - {e.charId}), Queued()) && Swung(combat, clock) && Staged()
      requires Chained(Queued() + multiset{e}, doubled)
      modifies events
      ensures Inv() && Driven() && Progress(now, 0)
      ensures Queued() == old(Queued()) + multiset{NextAttack(at, e.charId, e.target)}
    {
      hide DueWork, Inv, Beating, Swung, Chained, Staged;
      var next := NextAttack(at, e.charId, e.target);
      Schedule(next, now);
      BeatingSwings(Driving(), old(Queued()), e.charId, combat[e.charId], next);
      ChainedNext(old(Queued()), e, at, doubled);
      assert combat[e.charId := combat[e.charId]] == combat;
    }

    method QueueHit(e: Event, at: Time, damage: int, ghost now: Time)
      requires Inv() && now < at && e.NextAttack? && Chained(Queued() + multiset{e}, doubled)
      modifies events
      ensures Inv() && Progress(now, 0)
      ensures Queued() == old(Queued()) + multiset{Hit(at, e.charId, e.target, damage)}
      ensures Chained(Queued() + multiset{e}, doubled)
    {
      hide DueWork, HeapOrdered, CastsOk, SpawnsOk, Chained;
      var hit := Hit(at, e.charId, e.target, damage);
      ChainedOther(Queued() + multiset{e}, hit, doubled);
      Schedule(hit, now);
      assert Queued() + multiset{e} == old(Queued()) + multiset{e} + multiset{hit};
    }

    method ExecuteHit(e: Event, ghost now: Time)
      requires e.Hit? && Inv() && Driven() && now <= clock
      modifies `clock, `combat, `stoppedAt, `npcCombat, `npcs, `players, `diedAt, `inCombat, `stances, events
      ensures Inv() && Driven() && Progress(now, 1)
      ensures e.target in old(players) ==>
        npcs == old(npcs) && players == old(players)[e.target := Damaged(old(players)[e.target], e.damage)]
      ensures e.target !in old(players) ==>
        npcs == if e.target in old(npcs) && !old(npcs)[e.target].dead
          then old(npcs)[e.target := DeadWithoutHp(Wounded(old(npcs)[e.target], e.damage))] else old(npcs)
      ensures HappenedAnyway(e, old(Held()), Held())
    {
      hide DueWork, Inv, Driven, PlayerHurt, NpcHurt;
      if e.target in players {
        DealDamageToPlayer(e.target, e.charId, e.damage, now);
      } else if e.target in npcs && !npcs[e.target].dead {
        DealDamageToNpc(e.target, e.charId, e.damage, now);
      }
    }

    method ExecuteNpcNextAttack(e: Event, luck: Chance, ghost now: Time)
      requires e.NpcNextAttack? && Inv() && DrivenWithout(e) && now <= clock
      modifies `clock, `npcCombat, events
      ensures Inv() && Driven() && Progress(now, 0)
      ensures Happened(skills, e, luck, old(Held()), Held())
    {
      hide DueWork, HeapOrdered, CastsOk, SpawnsOk, Beating, StancesOk, Chained, Staged;
      ChainedFewer(Queued() + multiset{e}, Queued(), doubled);
      if e.npc !in npcCombat || npcCombat[e.npc] != e.charId { return; }
      if e.npc !in npcs || npcs[e.npc].dead || e.charId !in players || players[e.charId].hp <= 0.0 || !luck.inReach {
        npcCombat := npcCombat - {e.npc};
        return;
      }
      SwingNpc(e, luck.speed, luck.hit, luck.damage, now);
    }

    method SwingNpc(e: Event, pAtkSpd: int, hit: bool, damage: int, ghost now: Time)
      requires e.NpcNextAttack? && Inv() && DrivenWithout(e) && now <= clock
      requires e.npc in npcCombat && npcCombat[e.npc] == e.charId
      modifies `clock, events
      ensures Inv() && Driven() && Progress(now, 0) && NpcSwingMade(e, pAtkSpd, hit, damage, old(Held()), Held())
    {
      hide DueWork, Inv, Beating, Chained, Staged, Swung, CalcAttackSpeed;
      ChainedFewer(Queued() + multiset{e}, Queued(), doubled);
      assert Without(Driving(), e) == Driving().(npcCombat := npcCombat - {e.npc});
      hide Without, DrivenWithout, Beats;
      var ms := CalcAttackSpeed(pAtkSpd);
      var t := Now();
      QueueNpcSwing(e.npc, e.charId, t, ms, hit, damage, now);
      assert Held() == old(Held()).(clock := clock, queued := Queued());
    }

    method QueueNpcSwing(npc: int, charId: int, t: Time, ms: int, hit: bool, damage: int, ghost now: Time)
      requires Inv() && now <= t && ms >= 100 && npc in npcCombat && npcCombat[npc] == charId
      requires Beating(Driving().(npcCombat := npcCombat - {npc}), Queued()) && Swung(combat, clock) && Staged()
      requires Chained(Queued(), doubled)
      modifies events
      ensures Inv() && Driven() && Progress(now, 0)
      ensures Queued() == old(Queued())
        + (if hit then multiset{NpcHit(t + ms / 2 * 1_000_000, npc, charId, damage)} else multiset{})
        + multiset{NpcNextAttack(t + ms * 1_000_000, npc, charId)}
    {
      hide DueWork, Inv, Beating, Swung, Chained, Staged;
      if hit {
        Schedule(NpcHit(t + (ms / 2) * MILLISECOND, npc, charId, damage), now);
      }
      ghost var d, q := Driving(), Queued();
      BeatingMore(d.(npcCombat := npcCombat - {npc}), old(Queued()), q);
      var next := NpcNextAttack(t + ms * MILLISECOND, npc, charId);
      Schedule(next, now);
      BeatingNpc(d, q, npc, charId, next);
      assert npcCombat[npc := charId] == npcCombat;
    }

    method ExecuteNpcHit(e: Event, ghost now: Time)
      requires e.NpcHit? && Inv() && Driven() && now <= clock
      modifies `clock, `combat, `stoppedAt, `npcCombat, `players, `inCombat, `stances, events
      ensures Inv() && Driven() && Progress(now, 0)
      ensures players == if e.charId in old(players)
        then old(players)[e.charId := Damaged(old(players)[e.charId], e.damage)] else old(players)
      ensures inCombat == if e.charId !in players || old(players)[e.charId].hp <= 0.0 then old(inCombat)
        else if players[e.charId].hp > 0.0 then old(inCombat) + {e.charId} else old(inCombat) - {e.charId}
      ensures e.charId in players && players[e.charId].hp > 0.0 && e.charId !in old(inCombat) ==>
        stances == old(stances) + [Began(e.charId, e.charId in old(combat))]
      ensures HappenedAnyway(e, old(Held()), Held())
    {
      hide DueWork, Inv, Driven, PlayerHurt;
      if e.charId !in players { return; }
      NoHarmToTheDead(e.charId, e.damage, {e.charId}, Held());
      assert players[e.charId := players[e.charId]] == players;
      if players[e.charId].hp <= 0.0 { return; }
      DrawWeapon(e.charId);
      assert inCombat == old(inCombat) + {e.charId} * players.Keys;
      HurtPlayer(e.charId, e.damage, now);
      ArmedAndHurt(e.charId, e.damage, {e.charId}, old(Held()), Held());
    }

    /** A case of a stance that never ends by itself: an NPC hits, without killing, a player who has not attacked. */
    method HitWithoutAttack(e: Event, ghost now: Time)
      requires e.NpcHit? && Inv() && Driven() && now <= clock && e.charId in players
      requires e.charId !in combat && e.charId !in inCombat && players[e.charId].hp > e.damage as real > 0.0
      modifies `clock, `combat, `stoppedAt, `npcCombat, `players, `inCombat, `stances, events
      ensures Inv() && Driven() && e.charId in inCombat && Stuck(stances, e.charId)
    {
      hide DueWork, Inv, Driven, InStance, Stuck;
      BegunStuck(stances, e.charId);
      ExecuteNpcHit(e, now);
    }

    method ExecuteCorpseDecay(e: Event)
      requires e.CorpseDecay? && InvWith(Queued() + multiset{e})
      modifies `npcs
      ensures Inv() && npcs == old(npcs) - {e.objectId} && HappenedAnyway(e, old(Held()), Held())
    {
      hide DueWork, HeapOrdered, CastsOk, SpawnsOk, Beating, StancesOk, Chained, Staged;
      CastsOkQueue(players, Queued() + multiset{e}, Queued(), castSeq, log);
      Decayed(npcs, spawnInfo, templates, Queued(), e, lastNpcId, diedAt, loose);
      npcs := npcs - {e.objectId};
    }

    /** A new NPC under a new id takes over the record of its spawn point; the corpse is already gone. */
    method ExecuteRespawn(e: Event)
      requires e.Respawn? && InvWith(Queued() + multiset{e})
      requires forall x :: x in Queued() ==> e.at <= x.at
      modifies `npcs, `spawnInfo, `lastNpcId
      ensures Inv() && SameRecords(old(spawnInfo), spawnInfo)
      ensures e.objectId !in old(npcs)
      ensures if e.objectId in old(spawnInfo) then
          && lastNpcId == old(lastNpcId) + 1 && lastNpcId !in old(npcs) && lastNpcId !in old(spawnInfo)
          && lastNpcId in npcs && npcs == old(npcs)[lastNpcId := npcs[lastNpcId]]
          && !npcs[lastNpcId].dead && npcs[lastNpcId].spawn == old(spawnInfo)[e.objectId]
          && spawnInfo == (old(spawnInfo) - {e.objectId})[lastNpcId := npcs[lastNpcId].spawn]
        else lastNpcId == old(lastNpcId) && npcs == old(npcs) && spawnInfo == old(spawnInfo)
      ensures HappenedAnyway(e, old(Held()), Held())
    {
      hide DueWork, HeapOrdered, CastsOk, SpawnsOk, Beating, StancesOk, Chained, Staged;
      CastsOkQueue(players, Queued() + multiset{e}, Queued(), castSeq, log);
      CorpseGoneByRespawn(npcs, spawnInfo, templates, Queued(), e, lastNpcId, diedAt, loose);
      if e.objectId !in spawnInfo {
        RespawnSkipped(npcs, spawnInfo, templates, Queued(), e, lastNpcId, diedAt, loose);
        return;
      }
      KnownTemplate(npcs, spawnInfo, templates, Queued() + multiset{e}, lastNpcId, diedAt, loose, e.objectId);
      if spawnInfo[e.objectId].templateId !in templates { assert false; }
      var info := spawnInfo[e.objectId];
      var hp, attackable := *, *;
      var npc := Npc(info, false, hp, attackable);
      NextIdIsFresh(npcs, spawnInfo, templates, Queued() + multiset{e}, lastNpcId, diedAt, loose);
      Respawned(npcs, spawnInfo, templates, Queued(), e, lastNpcId, diedAt, loose, npc);
      lastNpcId := lastNpcId + 1;
      spawnInfo := (spawnInfo - {e.objectId})[lastNpcId := info];
      npcs := npcs[lastNpcId := npc];
    }

    method ExecuteCombatStanceTimeout(e: Event)
      requires e.CombatStanceTimeout? && Inv() && DrivenWithout(e) && e.at <= clock
      modifies `clock, `combat, `inCombat, `stances
      ensures Inv() && Driven() && old(clock) <= clock && old(stances) <= stances
      ensures HappenedAnyway(e, old(Held()), Held())
    {
      hide DueWork, Inv, Beating, Staged, Chained, Swung;
      ChainedFewer(Queued() + multiset{e}, Queued(), doubled);
      if e.charId !in combat || combat[e.charId].autoAttacking { return; }
      CheckStance(e.charId);
    }

    /** A stance with a swing within the last 15 s goes on. */
    method CheckStance(who: int)
      requires who in combat && Chained(Queued(), doubled)
      requires Beating(Driving().(combat := combat - {who}), Queued()) && Swung(combat, clock) && Staged()
      requires combat[who].lastAttack + 15_000_000_000 > clock ==> Driven()
      modifies `clock, `combat, `inCombat, `stances
      ensures Driven() && old(clock) <= clock && old(stances) <= stances
      ensures if clock - old(combat)[who].lastAttack < 15_000_000_000 then Held() == old(Held()).(clock := clock)
        else Held() == old(Held()).(clock := clock, combat := old(combat) - {who}, inCombat := old(inCombat) - {who})
    {
      hide Beating, Staged, Chained, Swung;
      var t := Now();
      if t - combat[who].lastAttack < COMBAT_STANCE_TIMEOUT { return; }
      EndStance(who);
    }

    /** The record of the attack goes together with the flag. */
    method EndStance(who: int)
      requires Beating(Driving().(combat := combat - {who}), Queued()) && Swung(combat, clock) && Staged()
      requires Chained(Queued(), doubled)
      modifies `combat, `inCombat, `stances
      ensures Driven() && old(stances) <= stances
      ensures combat == old(combat) - {who} && inCombat == old(inCombat) - {who}
    {
      hide Beating, StancesOk, Chained;
      StanceTimesOut(inCombat, combat.Keys, stances, who);
      inCombat, stances := inCombat - {who}, stances + [TimedOut(who)];
      combat := combat - {who};
    }

    /** What is no heartbeat is not missed. */
    lemma NoHeartbeat(e: Event)
      requires DrivenWithout(e) && !Beats(Driving(), e)
      ensures Driven()
    {}

    /** Executes an event neither invariant speaks of. */
    method ExecuteNeutral(e: Event, luck: Chance, ghost now: Time)
      requires Inv() && DrivenWithout(e) && Neutral(e) && e.at <= now <= clock
      requires luck.rolls.Valid()
      modifies `clock, `castSeq, `combat, `stoppedAt, `npcCombat, `npcs, `players, `castPending, `interactPending,
        `diedAt, `log, `inCombat, `stances, events
      ensures Inv() && Driven() && Progress(now, Rank(e) - 1)
      ensures log.applied == old(log).applied && log.dropped == old(log).dropped && IssuedKept()
      ensures Happened(skills, e, luck, old(Held()), Held())
    {
      hide DueWork, Inv, Driven, DrivenWithout, Happened;
      if e.CastApproach? {
        ExecuteCastApproach(e, luck, now);
      } else if e.InteractApproach? {
        ExecuteInteractApproach(e, luck, now);
      } else {
        ExecuteCombatEvent(e, luck, now);
      }
    }

    method ExecuteCombatEvent(e: Event, luck: Chance, ghost now: Time)
      requires Inv() && DrivenWithout(e) && e.at <= now <= clock
      requires Neutral(e) && !e.CastApproach? && !e.InteractApproach?
      modifies `clock, `combat, `stoppedAt, `npcCombat, `npcs, `players, `diedAt, `inCombat, `stances, events
      ensures Inv() && Driven() && Progress(now, Rank(e) - 1) && Happened(skills, e, luck, old(Held()), Held())
    {
      hide DueWork, Inv, Driven, DrivenWithout, Happened, HappenedAnyway;
      match e {
        case NextAttack(_, _, _) => ExecuteNextAttack(e, luck, now);
        case Hit(_, _, _, _) =>
          NoHeartbeat(e);
          ExecuteHit(e, now);
          HasHappened(skills, e, luck, old(Held()), Held());
        case NpcNextAttack(_, _, _) => ExecuteNpcNextAttack(e, luck, now);
        case NpcHit(_, _, _, _) =>
          NoHeartbeat(e);
          ExecuteNpcHit(e, now);
          HasHappened(skills, e, luck, old(Held()), Held());
        case CombatStanceTimeout(_, _) =>
          ExecuteCombatStanceTimeout(e);
          HasHappened(skills, e, luck, old(Held()), Held());
      }
    }

    /** Executes a popped event. What it schedules is due now only with a lower rank than its own. */
    method Execute(e: Event, ghost now: Time) returns (ghost luck: Chance)
      requires InvWith(Queued() + multiset{e}) && DrivenWithout(e) && e.at <= now <= clock
      requires forall x :: x in Queued() ==> e.at <= x.at
      modifies this, events
      ensures Inv() && Driven() && Progress(now, Rank(e) - 1) && LogStep(e)
      ensures SameRecords(old(spawnInfo), spawnInfo)
      ensures luck.rolls.Valid() && Happened(skills, e, luck, old(Held()), Held())
    {
      hide DueWork, Inv, InvWith, Driven, DrivenWithout, Lands, Happened, HappenedAnyway, Held, Copies;
      var chance := Draw();
      luck := chance;
      if Neutral(e) {
        ForgetNeutral(e);
        ExecuteNeutral(e, chance, now);
      } else if e.CastHit? {
        NoHeartbeat(e);
        ExecuteCastHit(e, chance, now);
      } else {
        NoHeartbeat(e);
        ExecuteSpawnEvent(e);
        HasHappened(skills, e, luck, old(Held()), Held());
      }
    }

    /** An event neither invariant speaks of can be taken off the queue. */
    lemma ForgetNeutral(e: Event)
      requires InvWith(Queued() + multiset{e}) && Neutral(e)
      ensures Inv()
    {
      CastsOkQueue(players, Queued() + multiset{e}, Queued(), castSeq, log);
      SpawnsOkQueue(npcs, spawnInfo, templates, Queued() + multiset{e}, Queued(), lastNpcId, diedAt, loose);
    }

    method ExecuteSpawnEvent(e: Event)
      requires InvWith(Queued() + multiset{e}) && (e.Respawn? || e.CorpseDecay?)
      requires forall x :: x in Queued() ==> e.at <= x.at
      modifies `npcs, `spawnInfo, `lastNpcId
      ensures Inv() && SameRecords(old(spawnInfo), spawnInfo) && HappenedAnyway(e, old(Held()), Held())
    {
      hide DueWork, HeapOrdered, CastsOk, SpawnsOk, Beating, StancesOk, Chained, Staged, HappenedAnyway;
      if e.Respawn? { ExecuteRespawn(e); } else { ExecuteCorpseDecay(e); }
    }

    // ---------- Commands ----------

    /** An attack was accepted: its first swing is queued, and its chain is single exactly if no other swing was. */
    twostate predicate AttackBegun(charId: int, target: int)
      reads `clock, `combat, `stances, `doubled, events
    {
      && combat == old(combat)[charId := Combat(true, target, clock)]
      && Queued() == old(Queued()) + multiset{NextAttack(clock, charId, target)}
      && stances == old(stances) + [Attacked(charId)]
      && (OneChain(Queued(), charId, target) <==> !SwingQueued(old(Queued()), charId, target))
      && doubled == if SwingQueued(old(Queued()), charId, target)
        then old(doubled) + {(charId, target)} else old(doubled)
    }

    /** Whether a player may be attacked is decided by flags and karma; an NPC that can be attacked always may. */
    method HandleAttackRequest(charId: int, target: int, force: bool, luck: Chance)
      requires Inv() && Driven()
      modifies `clock, `combat, `stances, `doubled, events
      ensures Inv() && Driven() && old(clock) <= clock && LogGrows()
      ensures if combat == old(combat) then Queued() == old(Queued()) && doubled == old(doubled) else
        && charId in players && CanBeAttacked(charId, target) && !old(AlreadyAttacking(charId, target))
        && AttackBegun(charId, target)
      ensures charId in players && CanBeAttacked(charId, target) && target !in players ==>
        AlreadyAttacking(charId, target)
      ensures Obeyed(skills, AttackRequest(charId, target, force), luck, old(Held()), Held())
    {
      hide DueWork, Inv, Driven, OneChain, SwingQueued;
      if charId !in players || !CanBeAttacked(charId, target) { return; }
      if target in players && !luck.checks.pvpAllowed { return; }
      if AlreadyAttacking(charId, target) { return; }
      StartAttack(charId, target);
    }

    method StartAttack(charId: int, target: int)
      requires Inv() && Driven()
      modifies `clock, `combat, `stances, `doubled, events
      ensures Inv() && Driven() && old(clock) <= clock && AttackBegun(charId, target)
    {
      hide DueWork, Inv, Beating, StancesOk, Chained, Swung, OneChain, SwingQueued;
      ghost var q, fighters := Queued(), combat.Keys;
      QueueFirstSwing(charId, target);
      StanceAttacks(inCombat, fighters, stances, charId);
      ChainedAttack(q, charId, target, clock, doubled);
      ChainBegins(q, charId, target, clock);
      assert combat.Keys == fighters + {charId};
      stances := stances + [Attacked(charId)];
      doubled := if SwingQueued(q, charId, target) then doubled + {(charId, target)} else doubled;
    }

    method QueueFirstSwing(charId: int, target: int)
      requires Inv() && Beating(Driving(), Queued()) && Swung(combat, clock)
      modifies `clock, `combat, events
      ensures Inv() && Beating(Driving(), Queued()) && Swung(combat, clock) && old(clock) <= clock
      ensures combat == old(combat)[charId := Combat(true, target, clock)]
      ensures Queued() == old(Queued()) + multiset{NextAttack(clock, charId, target)}
    {
      hide DueWork, Inv, Beating, Swung, Driven;
      ghost var d, q := Driving(), Queued();
      BeatingFewer(d.(combat := combat - {charId}), d, q);
      var t := Now();
      SwungUpdated(combat, charId, Combat(true, target, t), t);
      combat := combat[charId := Combat(true, target, t)];
      Schedule(NextAttack(t, charId, target), t);
      BeatingSwings(d, q, charId, combat[charId], NextAttack(t, charId, target));
    }

    /** A case of two chains at once: attack, cancel, and attack again before the first swing fires. */
    method AttackCancelAttack(charId: int, target: int, luck: Chance)
      requires Inv() && Driven() && charId in players && charId !in combat
      requires target !in players && CanBeAttacked(charId, target)
      modifies `clock, `combat, `stoppedAt, `stances, `doubled, events
      ensures Inv() && Driven() && AlreadyAttacking(charId, target) && !OneChain(Queued(), charId, target)
    {
      hide DueWork, HeapOrdered, CastsOk, SpawnsOk, Beating, StancesOk, Chained, Staged, OneChain, Obeyed;
      HandleAttackRequest(charId, target, false, luck);
      ghost var first := NextAttack(clock, charId, target);
      StopAttacker(charId, clock);
      assert first in Queued() && IsSwing(first, charId, target);
      HandleAttackRequest(charId, target, false, luck);
    }

    method HandleInteractRequest(charId: int, target: int)
      requires Inv() && Driven()
      modifies `clock, `combat, `stoppedAt, `interactPending, events
      ensures Inv() && Driven() && old(clock) <= clock && LogGrows()
      ensures ObeyedAnyway(InteractRequest(charId, target), old(Held()), Held())
    {
      hide DueWork, Inv, Driven, LogGrows, TalkBegun;
      if target !in npcs || npcs[target].dead || npcs[target].attackable {
        LogKept();
        return;
      }
      if charId in interactPending && interactPending[charId] == target {
        LogKept();
        return;
      }
      if charId !in players {
        LogKept();
        return;
      }
      BeginTalk(charId, target);
      LogKept();
    }

    /** An attack is given up for it. */
    method BeginTalk(charId: int, target: int)
      requires Inv() && Driven()
      modifies `clock, `combat, `stoppedAt, `interactPending, events
      ensures Inv() && Driven() && old(clock) <= clock && TalkBegun(charId, target, old(Held()), Held())
    {
      hide DueWork, Inv, Driven, AttackAbandoned;
      StopIfAttacking(charId, clock);
      ghost var c := Held();
      ScheduleTalk(charId, target);
      TalkIsBegun(charId, target, old(Held()), c, Held());
    }

    method ScheduleTalk(charId: int, target: int)
      requires Inv() && Driven()
      modifies `clock, `interactPending, events
      ensures Inv() && Driven() && old(clock) <= clock
      ensures interactPending == old(interactPending)[charId := target]
      ensures Queued() == old(Queued()) + multiset{InteractApproach(clock + 300 * MILLISECOND, charId, target)}
    {
      hide DueWork, Inv, Beating, Swung, Chained, Staged;
      ghost var d, q := Driving(), Queued();
      BeatingFewer(d.(interactPending := interactPending - {charId}), d, q);
      interactPending := interactPending[charId := target];
      var t := Now();
      var e := InteractApproach(t + 300 * MILLISECOND, charId, target);
      Schedule(e, t);
      BeatingTalk(d, q, charId, target, e);
    }

    /** A player enters under a fresh state; a cast of an earlier state under the same id is cut short. */
    method HandleEnterWorld(c: Command)
      requires Inv() && Driven() && c.EnterWorld?
      modifies `players, `log, `inCombat, `stances
      ensures Inv() && Driven() && LogGrows() && ObeyedAnyway(c, old(Held()), Held())
    {
      hide DueWork, Inv, Driven, LogGrows;
      var p := Player(c.hp as real, c.maxHp, c.mp as real, c.maxMp, c.cp, c.maxCp, None, 0, c.knownSkills);
      CutCast(c.charId, players[c.charId := p]);
      ClearCombatStance(c.charId);
      LogCut(c.charId);
    }

    /** The disconnect command. A restart that is refused sends it too, and the player stays in the world. */
    method HandleDisconnect(charId: int)
      requires Inv() && Driven()
      modifies `clock, `combat, `stoppedAt, `npcCombat, `castPending, `interactPending, events
      ensures Inv() && Driven() && old(clock) <= clock && LogGrows()
      ensures ObeyedAnyway(Disconnect(charId), old(Held()), Held())
    {
      hide DueWork, Inv, Driven, LogGrows, AttackEnded, ObeyedAnyway;
      StopAttacker(charId, clock);
      ghost var m := Held();
      DropPursuits(charId);
      HasDisconnected(charId, old(Held()), m, Held());
      LogKept();
    }

    /** Nobody who is gone approaches anything, or is attacked. */
    method DropPursuits(charId: int)
      requires Inv() && Driven()
      modifies `npcCombat, `castPending, `interactPending
      ensures Inv() && Driven()
      ensures Held() == old(Held()).(
        interactPending := old(interactPending) - {charId}, castPending := old(castPending) - {charId},
        npcCombat := LeftAlone(old(npcCombat), charId))
    {
      hide DueWork, Inv, Driven, LeftAlone;
      StopTalkApproach(charId);
      StopCastApproach(charId);
      StopAllNpcAttacksOnPlayer(charId);
    }

    /** The player is removed from the world. */
    method RemovePlayer(charId: int)
      requires Inv() && Driven()
      modifies `players, `log, `inCombat, `stances
      ensures Inv() && players == old(players) - {charId} && LogGrows()
      ensures Driven() && inCombat == old(inCombat) - {charId} && old(stances) <= stances
      ensures log == CutShort(old(Held()), charId) && ObeyedAnyway(LeaveWorld(charId), old(Held()), Held())
    {
      hide DueWork, Inv, Driven, LogGrows;
      CutCast(charId, players - {charId});
      ClearCombatStance(charId);
      LogCut(charId);
    }

    method HandleMoveToLocation(charId: int)
      requires Inv() && Driven()
      modifies `clock, `combat, `stoppedAt, `players, `castPending, `interactPending, `log, events
      ensures Inv() && Driven() && old(clock) <= clock && LogGrows()
      ensures ObeyedAnyway(MoveToLocation(charId), old(Held()), Held())
    {
      hide DueWork, Inv, Driven, AttackAbandoned, CutShort, ObeyedAnyway;
      StopIfAttacking(charId, clock);
      ghost var m := Held();
      DropApproaches(charId);
      HasMovedAway(charId, old(Held()), m, Held());
    }

    /** A ground move ends both kinds of approaches, and a cast in progress. */
    method DropApproaches(charId: int)
      requires Inv() && Driven()
      modifies `players, `castPending, `interactPending, `log
      ensures Inv() && Driven() && LogGrows()
      ensures Held() == old(Held()).(
        interactPending := old(interactPending) - {charId}, castPending := old(castPending) - {charId},
        log := CutShort(old(Held()), charId),
        players := if charId in old(players) then old(players)[charId := old(players)[charId].(casting := None)]
          else old(players))
    {
      hide DueWork, Inv, Driven, LogGrows;
      StopTalkApproach(charId);
      StopCastApproach(charId);
      if charId in players { AbortCast(charId); }
      LogCut(charId);
    }

    method HandleRevive(charId: int)
      requires Inv() && Driven()
      modifies `clock, `combat, `stoppedAt, `players, events
      ensures Inv() && Driven() && old(clock) <= clock && LogGrows()
      ensures ObeyedAnyway(Revive(charId), old(Held()), Held())
    {
      hide DueWork, Inv, Driven, LogGrows, ObeyedAnyway;
      NobodyRevived(charId, Held());
      if charId !in players {
        LogKept();
        return;
      }
      SetPlayer(charId, players[charId].(hp := players[charId].maxHp as real));
      ghost var c := Held();
      HandleTeleport(charId, clock);
      HasRevived(charId, old(Held()), c, Held());
      LogKept();
    }

    method HandleItemSkillCast(charId: int, skillId: int, level: int, luck: Chance)
      requires Inv() && Driven() && luck.rolls.Valid()
      modifies `clock, `combat, `stoppedAt, `npcCombat, `npcs, `players, `diedAt, `inCombat, `stances, events
      ensures Inv() && Driven() && old(clock) <= clock && old(stances) <= stances
      ensures charId !in old(players) || old(players)[charId].hp <= 0.0 || (skillId, level) !in skills ==>
        players == old(players) && npcs == old(npcs)
      ensures charId in old(players) && old(players)[charId].hp > 0.0 && (skillId, level) in skills ==>
        SkillDone(old(players), old(npcs), players, npcs, charId, charId, skills[(skillId, level)], luck.rolls)
      ensures Obeyed(skills, ItemSkillCast(charId, skillId, level), luck, old(Held()), Held())
    {
      hide DueWork, Inv, Driven, SkillDone, SkillHappened;
      if charId !in players || players[charId].hp <= 0.0 || (skillId, level) !in skills { return; }
      ApplySkillEffects(charId, charId, skills[(skillId, level)], luck.rolls, clock);
    }

    /** A trainer that teaches the skill raises its level, never lowers it. */
    method HandleLearnSkill(charId: int, skillId: int, level: int, taught: bool)
      requires Inv() && Driven()
      modifies `players
      ensures Inv() && Driven() && LogGrows()
      ensures players == if charId in old(players) && taught && Level(old(players)[charId], skillId) < level
        then old(players)[charId := Taught(old(players)[charId], skillId, level)] else old(players)
      ensures ObeyedAnyway(LearnSkill(charId, skillId, level, taught), old(Held()), Held())
    {
      hide DueWork, Inv, Driven, LogGrows;
      if charId !in players || !taught || Level(players[charId], skillId) >= level {
        LogKept();
        return;
      }
      SetPlayer(charId, Taught(players[charId], skillId, level));
      LogKept();
    }

    method HandleCancelAttack(charId: int)
      requires Inv() && Driven()
      modifies `clock, `combat, `stoppedAt, events
      ensures Inv() && Driven() && old(clock) <= clock && old(stances) <= stances && LogGrows()
      ensures ObeyedAnyway(CancelAttack(charId), old(Held()), Held())
    {
      hide DueWork, Inv, Driven, LogGrows, AttackEnded;
      StopAttacker(charId, clock);
      LogKept();
    }

    method ProcessCommand(c: Command) returns (ghost luck: Chance)
      requires Inv() && Driven()
      modifies this, events
      ensures Inv() && Driven() && old(clock) <= clock && LogGrows() && spawnInfo == old(spawnInfo)
      ensures luck.rolls.Valid() && Obeyed(skills, c, luck, old(Held()), Held())
    {
      hide DueWork, Inv, Driven, AttackBegun, Obeyed, ObeyedAnyway;
      var chance := Draw();
      luck := chance;
      if Risky(c) {
        ProcessRisky(c, chance);
      } else {
        ProcessPresence(c);
        HasObeyed(skills, c, luck, old(Held()), Held());
      }
    }

    /** Attacks and the use of skills, the player's own or an item's. */
    method ProcessRisky(c: Command, luck: Chance)
      requires Inv() && Driven() && Risky(c) && luck.rolls.Valid()
      modifies `clock, `castSeq, `combat, `stoppedAt, `npcCombat, `npcs, `players, `castPending, `interactPending,
        `diedAt, `log, `inCombat, `stances, `doubled, events
      ensures Inv() && Driven() && old(clock) <= clock && LogGrows()
      ensures Obeyed(skills, c, luck, old(Held()), Held())
    {
      hide DueWork, Inv, Driven, RequestDone, SkillDone, Obeyed;
      if c.AttackRequest? {
        HandleAttackRequest(c.charId, c.target, c.force, luck);
      } else if c.CastSkill? {
        HandleCastRequest(c.cmd, c.checks, luck.speed, luck.rolls, clock);
        CastRequested(skills, c.cmd, c.checks, luck, old(Held()), Held());
      } else {
        HandleItemSkillCast(c.charId, c.skillId, c.level, luck);
      }
    }

    /** Commands about where a player is, whom it goes to, and how it fares. */
    method HandleSetTarget(charId: int, target: int)
      requires Inv() && Driven()
      modifies `players
      ensures Inv() && Driven() && ObeyedAnyway(SetTarget(charId, target), old(Held()), Held()) && LogGrows()
    {
      hide DueWork, Inv, Driven, LogGrows;
      if charId in players { SetPlayer(charId, players[charId].(target := target)); }
      LogKept();
    }

    method ProcessPresence(c: Command)
      requires Inv() && Driven() && !Risky(c)
      modifies `clock, `combat, `stoppedAt, `npcCombat, `players, `castPending, `interactPending, `log, `inCombat,
        `stances, events
      ensures Inv() && Driven() && old(clock) <= clock && LogGrows()
      ensures ObeyedAnyway(c, old(Held()), Held())
    {
      hide DueWork, Inv, Driven, LogGrows, ObeyedAnyway;
      match c {
        case EnterWorld(_, _, _, _, _, _, _, _) => HandleEnterWorld(c);
        case InteractRequest(who, target) => HandleInteractRequest(who, target);
        case CancelAttack(who) => HandleCancelAttack(who);
        case Disconnect(who) => HandleDisconnect(who);
        case LeaveWorld(who) => RemovePlayer(who);
        case MoveToLocation(who) => HandleMoveToLocation(who);
        case SetTarget(who, target) => HandleSetTarget(who, target);
        case Teleport(who) => HandleTeleport(who, clock);
        case Revive(who) => HandleRevive(who);
        case RestoreStats(who, hpGain, mpGain, cpGain) => HandleRestoreStats(who, hpGain, mpGain, cpGain);
        case LearnSkill(who, skillId, level, taught) => HandleLearnSkill(who, skillId, level, taught);
        case Unrelated =>
          Unobeyed(Held());
          LogKept();
      }
    }

    // ---------- Regeneration and effects ----------

    /** Every living player gains, up to its maxima. */
    method RegenPlayers(gains: map<int, Gain>)
      requires Inv() && Driven()
      modifies `players
      ensures Inv() && Driven() && players == RegeneratedAll(old(players), gains)
    {
      hide DueWork, Inv, Driven;
      var todo := players.Keys;
      while todo != {}
        invariant Inv() && Driven() && todo <= players.Keys == old(players).Keys
        invariant forall who :: who in players ==> players[who] == if who in todo || who !in gains
          then old(players)[who] else Regenerated(old(players)[who], gains[who])
      {
        ghost var next := Pick(todo);
        var who :| who in todo;
        todo := todo - {who};
        if who in gains && players[who].hp > 0.0 {
          var p, g := players[who], gains[who];
          var cp := if p.cp + g.cp > p.maxCp then p.maxCp else p.cp + g.cp;
          SetPlayer(who, p.(hp := MinReal(p.hp + g.hp, p.maxHp as real), mp := MinReal(p.mp + g.mp, p.maxMp as real),
                            cp := cp));
        }
      }
      SamePlayers(players, RegeneratedAll(old(players), gains));
    }

    /** One round of an effect's ticks: gains restore, a loss of hit points stops at one. */
    method FireTicks(r: Round)
      requires Inv() && Driven()
      modifies `players
      ensures Inv() && Driven()
      ensures players == if r.charId in old(players)
        then old(players)[r.charId := Ticked(old(players)[r.charId], r)] else old(players)
    {
      hide DueWork, Inv, Driven, ObeyedAnyway;
      if r.charId !in players { return; }
      assert players[r.charId := players[r.charId]] == players;
      if players[r.charId].hp <= 0.0 { return; }
      HandleRestoreStats(r.charId, if r.hp > 0 then r.hp else 0, if r.mp > 0 then r.mp else 0, 0);
      if r.hp < 0 {
        SetPlayer(r.charId, players[r.charId].(hp := MaxReal(1.0, players[r.charId].hp + r.hp as real)));
      }
    }

    /** The rounds of ticks that are due; nobody dies of them, and no cast is touched. */
    method ServeEffects(rounds: seq<Round>)
      requires Inv() && Driven()
      modifies `players
      ensures Inv() && Driven() && SameCasts(old(players), players)
      ensures forall who :: who in players && old(players)[who].hp > 0.0 && players[who].maxHp > 0 ==>
        players[who].hp > 0.0
      ensures players == RoundsServed(old(players), rounds)
    {
      hide DueWork, Inv, Driven;
      for i := 0 to |rounds|
        invariant Inv() && Driven() && SameCasts(old(players), players)
        invariant forall who :: who in players && old(players)[who].hp > 0.0 && players[who].maxHp > 0 ==>
          players[who].hp > 0.0
        invariant players == RoundsServed(old(players), rounds[..i])
      {
        FireTicks(rounds[i]);
        assert rounds[..i + 1][..i] == rounds[..i];
      }
      assert rounds[..|rounds|] == rounds;
    }

    // ---------- The tick and the run ----------

    ghost predicate InTimeOrder(executed: seq<Event>) {
      forall i, j :: 0 <= i < j < |executed| ==> executed[i].at <= executed[j].at
    }

    method DrainCommands(pending: seq<Command>) returns (ghost trace: seq<View>)
      requires Inv() && Driven()
      modifies this, events
      ensures Inv() && Driven() && old(clock) <= clock && LogGrows() && spawnInfo == old(spawnInfo)
      ensures AllObeyed(skills, pending, trace) && trace[0] == old(Held()) && trace[|pending|] == Held()
    {
      hide DueWork, Inv, Driven, Obeyed;
      trace := [Held()];
      for i := 0 to |pending|
        invariant Inv() && Driven() && old(clock) <= clock && LogGrows() && spawnInfo == old(spawnInfo)
        invariant AllObeyed(skills, pending[..i], trace) && trace[0] == old(Held()) && trace[i] == Held()
      {
        ghost var was := Held();
        ghost var luck := ProcessCommand(pending[i]);
        assert ObeyedSomehow(skills, pending[i], was, Held());
        OneMoreObeyed(skills, pending, i, trace, Held());
        trace := trace + [Held()];
      }
      assert pending[..|pending|] == pending;
    }

    /** Pops and executes the earliest event. The work left for this tick shrinks, whatever it schedules. */
    method ExecuteNext(ghost now: Time) returns (e: Event)
      requires Inv() && Driven() && now <= clock
      requires events.items != [] && exists x :: x in events.items && x.at <= now
      modifies this, events
      ensures Inv() && Driven() && old(clock) <= clock && LogGrows() && doubled == old(doubled)
      ensures SameRecords(old(spawnInfo), spawnInfo)
      ensures e in old(events.items) && e.at <= now && Work(now) < old(Work(now))
      ensures forall x :: x in events.items ==> e.at <= x.at
      ensures Executed(skills, e, now, old(Held()), Held())
    {
      hide Work, Rank, LogStep, Inv, InvWith, Driven, DrivenWithout, Copies, Happened, Executed;
      assert old(Held()).queued == Queued();
      e := PopNext(now);
      hide Held;
      label Popped:
      ghost var luck := Execute(e, now);
      StepGrows@Popped(e);
      ExecutedBy(skills, e, luck, now, old(Held()), Held());
    }

    /** The earliest event leaves the queue; whatever it was the heartbeat of misses it until it is executed. */
    method PopNext(ghost now: Time) returns (e: Event)
      requires Inv() && Driven() && events.items != [] && exists x :: x in events.items && x.at <= now
      modifies events
      ensures InvWith(Queued() + multiset{e}) && DrivenWithout(e) && e in old(events.items) && e.at <= now
      ensures Held() == old(Held()).(queued := old(Queued()) - multiset{e})
      ensures (forall x :: x in old(Queued()) ==> e.at <= x.at) && forall x :: x in Queued() ==> x in old(Queued())
      ensures Work(now) + Rank(e) == old(Work(now))
    {
      hide DueWork, HeapOrdered, CastsOk, SpawnsOk, Beating, StancesOk, Chained, Staged, Happened;
      var popped := events.PopEvent();
      e := popped.value;
      assert e in old(Queued()) && e in old(events.items);
      forall x | x in old(Queued()) ensures e.at <= x.at { assert x in old(events.items); }
      assert Queued() + multiset{e} == old(Queued());
      assert Queued() == old(Queued()) - multiset{e};
      BeatingPopped(Driving(), Queued(), e);
      ChainedFewer(old(Queued()), Queued(), doubled);
    }

    /** Every event that was due has its effect, one after the other. */
    method ExecuteDueEvents(now: Time) returns (executed: seq<Event>, ghost trace: seq<View>)
      requires Inv() && Driven() && now <= clock
      modifies this, events
      ensures Inv() && Driven() && old(clock) <= clock && LogGrows() && doubled == old(doubled)
      ensures SameRecords(old(spawnInfo), spawnInfo)
      ensures InTimeOrder(executed) && forall e :: e in executed ==> e.at <= now
      ensures forall e :: e in events.items ==> e.at > now
      ensures AllHappened(skills, executed, now, trace) && trace[0] == old(Held()) && trace[|executed|] == Held()
    {
      hide DueWork, HeapOrdered, CastsOk, SpawnsOk, Driven, Copies, Executed;
      executed, trace := [], [Held()];
      while true
        invariant Inv() && Driven() && old(clock) <= clock && LogGrows() && doubled == old(doubled)
        invariant SameRecords(old(spawnInfo), spawnInfo)
        invariant InTimeOrder(executed) && forall e :: e in executed ==> e.at <= now
        invariant executed != [] ==> forall e :: e in events.items ==> executed[|executed| - 1].at <= e.at
        invariant AllHappened(skills, executed, now, trace)
        invariant trace[0] == old(Held()) && trace[|executed|] == Held()
        decreases Work(now)
      {
        var next := events.Peek();
        if next.None? || next.value.at > now { break; }
        var e := ExecuteNext(now);
        OneMoreHappened(skills, executed, now, trace, e, Held());
        executed, trace := executed + [e], trace + [Held()];
      }
    }

    method DrainAndExecute(pending: seq<Command>) returns (now: Time, executed: seq<Event>)
      requires Inv() && Driven()
      modifies this, events
      ensures Inv() && Driven() && old(clock) <= now <= clock && LogGrows()
      ensures SameRecords(old(spawnInfo), spawnInfo)
      ensures InTimeOrder(executed) && forall e :: e in executed ==> e.at <= now
      ensures forall e :: e in events.items ==> e.at > now
      ensures TickRun(skills, pending, old(Held()), Held())
    {
      hide DueWork, Inv, Driven, Copies, AllObeyed, AllHappened, TickRun;
      ghost var t := DrainCommands(pending);
      now := Now();
      ghost var u;
      executed, u := ExecuteDueEvents(now);
      TickIsRun(skills, pending, t, executed, u, now);
    }

    /**
     One tick: drains the pending commands, fixes `now`, and executes events until none is due.
     It ends although handlers schedule more events, and runs them in time order even so.
     */
    method ExecuteTick(pending: seq<Command>) returns (now: Time, executed: seq<Event>)
      requires Inv() && Driven()
      modifies this, events
      ensures Inv() && Driven() && old(clock) <= now <= clock && LogGrows()
      ensures SameRecords(old(spawnInfo), spawnInfo)
      ensures InTimeOrder(executed) && forall e :: e in executed ==> e.at <= now
      ensures forall e :: e in events.items ==> e.at > now
      ensures forall who :: who in players && players[who].casting.Some? ==>
        players[who].casting.value.id in log.issued && log.issued[players[who].casting.value.id].hitAt > now
      ensures forall who :: who in combat ==> Ending(Driving(), Queued(), who, now)
      ensures forall who :: who in inCombat ==> (Ending(Driving(), Queued(), who, now) <==> !Stuck(stances, who))
      ensures DeathsSettled(npcs, spawnInfo, diedAt, now)
      ensures TickRun(skills, pending, old(Held()), Held())
    {
      hide DueWork, HeapOrdered, CastsOk, SpawnsOk, Beating, StancesOk, Chained, AllObeyed, AllHappened;
      now, executed := DrainAndExecute(pending);
      CastsSettled(players, Queued(), castSeq, log, now);
      StancesSettled(Driving(), Queued(), inCombat, stances, now);
      SpawnsSettled(npcs, spawnInfo, templates, Queued(), lastNpcId, diedAt, loose, now);
    }

    /** One command, one tick, or one of the rounds that follow some ticks. */
    method Serve(input: Input)
      requires Inv() && Driven()
      modifies this, events
      ensures Inv() && Driven() && old(clock) <= clock && LogGrows()
      ensures SameRecords(old(spawnInfo), spawnInfo) && Served(skills, input, old(Held()), Held())
    {
      hide DueWork, Inv, Driven, Copies, Obeyed, TickRun, RegeneratedAll, RoundsServed;
      match input {
        case Command(c) => ghost var luck := ProcessCommand(c);
        case Tick(pending) => var now, executed := ExecuteTick(pending);
        case Regenerate(gains) => RegenPlayers(gains);
        case ServeEffects(rounds) => ServeEffects(rounds);
      }
    }

    /**
     The loop's run: any interleaving of commands, ticks and rounds. Once the world's spawns are registered,
     no two living NPCs ever share a record.
     */
    method Run(inputs: seq<Input>) returns (ghost trace: seq<View>)
      requires Inv() && Driven()
      modifies this, events
      ensures Inv() && Driven() && old(clock) <= clock && LogGrows()
      ensures SameRecords(old(spawnInfo), spawnInfo)
      ensures loose == {} ==> forall info :: Living(npcs, info) <= Copies(spawnInfo, info)
      ensures Chained(Queued(), doubled)
      ensures AllServed(skills, inputs, trace) && trace[0] == old(Held()) && trace[|inputs|] == Held()
    {
      hide DueWork, HeapOrdered, CastsOk, SpawnsOk, Beating, StancesOk, Chained, Staged, Served;
      trace := [Held()];
      for i := 0 to |inputs|
        invariant Inv() && Driven() && old(clock) <= clock && LogGrows()
        invariant SameRecords(old(spawnInfo), spawnInfo)
        invariant AllServed(skills, inputs[..i], trace) && trace[0] == old(Held()) && trace[i] == Held()
      {
        Serve(inputs[i]);
        OneMoreServed(skills, inputs, i, trace, Held());
        trace := trace + [Held()];
      }
      assert inputs[..|inputs|] == inputs;
      if loose == {} {
        forall info ensures Living(npcs, info) <= Copies(spawnInfo, info) {
          NoSharedRecord(npcs, spawnInfo, templates, Queued(), lastNpcId, diedAt, info);
        }
      }
    }
  }
}
