/**
 The values the game loop keeps about players, NPCs and spawn points, and the two invariants
 that tie them to the queued events: one for casts, one for spawns.
 */
module LoopState {
  import opened Events
  import opened Skills
  import opened Wrappers

  // ---------- Actors ----------

  datatype Cast = Cast(id: int, skillId: int, level: int, target: int)

  datatype Player = Player(
    hp: real, maxHp: nat, mp: real, maxMp: nat, cp: int, maxCp: nat,
    casting: Option<Cast>, target: int, knownSkills: map<int, int>)

  datatype SpawnInfo = SpawnInfo(templateId: int, position: (int, int, int), heading: int)

  datatype Npc = Npc(spawn: SpawnInfo, dead: bool, hp: real, attackable: bool)

  datatype Combat = Combat(autoAttacking: bool, target: int, lastAttack: Time)

  const CORPSE_DECAY_DELAY: Time := 7 * SECOND
  const RESPAWN_DELAY: Time := 60 * SECOND
  const COMBAT_STANCE_TIMEOUT: Time := 15 * SECOND

  // ---------- Casts ----------

  /** What a timed cast is bound to when it starts: when its hit is due, and whose it is. */
  datatype Issue = Issue(hitAt: Time, caster: int)

  /** The history of casts: bindings by cast id, the ids whose effects ran, the ids cut short. */
  datatype CastLog = CastLog(issued: map<int, Issue>, applied: multiset<int>, dropped: set<int>)

  ghost predicate LogOk(seqNo: int, log: CastLog) {
    && 0 <= seqNo
    && (forall id :: id in log.issued ==> 1 <= id <= seqNo)
    && (forall id :: id in log.applied ==> id in log.issued && log.applied[id] == 1)
    && (forall id :: id in log.dropped ==> id in log.issued && id !in log.applied)
  }

  /** A queued cast hit is the one its id was issued with, and is queued once. */
  ghost predicate HitOk(e: Event, queued: multiset<Event>, log: CastLog) {
    e.CastHit? && e in queued ==>
      e.castId in log.issued && log.issued[e.castId] == Issue(e.at, e.charId) && queued[e] == 1
  }

  ghost predicate HitsOk(queued: multiset<Event>, log: CastLog) {
    forall e :: e in queued ==> HitOk(e, queued, log)
  }

  /** A player who is casting waits for a queued hit, and the cast has neither run nor been cut short. */
  ghost predicate CasterOk(who: int, p: Player, queued: multiset<Event>, log: CastLog) {
    p.casting.Some? ==>
      var id := p.casting.value.id;
      && id in log.issued && log.issued[id].caster == who
      && CastHit(log.issued[id].hitAt, who, id) in queued
      && id !in log.applied && id !in log.dropped
  }

  ghost predicate CastersOk(players: map<int, Player>, queued: multiset<Event>, log: CastLog) {
    forall who :: who in players ==> CasterOk(who, players[who], queued, log)
  }

  ghost predicate MpOk(players: map<int, Player>) {
    forall who :: who in players ==> players[who].mp >= 0.0
  }

  ghost predicate CastsOk(players: map<int, Player>, queued: multiset<Event>, seqNo: int, log: CastLog) {
    LogOk(seqNo, log) && HitsOk(queued, log) && CastersOk(players, queued, log) && MpOk(players)
  }

  // ---------- Spawns ----------

  /** How many spawn points hold the given record. */
  ghost function Copies(spawnInfo: map<int, SpawnInfo>, info: SpawnInfo): nat { |Holders(spawnInfo, info)| }

  ghost function Holders(spawnInfo: map<int, SpawnInfo>, info: SpawnInfo): set<int> {
    set id | id in spawnInfo && spawnInfo[id] == info
  }

  /** How many living NPCs carry it. */
  ghost function Living(npcs: map<int, Npc>, info: SpawnInfo): nat {
    |set id | id in npcs && !npcs[id].dead && npcs[id].spawn == info|
  }

  ghost predicate SameRecords(a: map<int, SpawnInfo>, b: map<int, SpawnInfo>) {
    forall info :: Copies(a, info) == Copies(b, info)
  }

  lemma RekeyedRecord(a: map<int, SpawnInfo>, oldId: int, newId: int)
    requires oldId in a && newId !in a
    ensures SameRecords(a, (a - {oldId})[newId := a[oldId]])
  {
    forall info { RekeyedCopies(a, oldId, newId, info); }
  }

  lemma RekeyedCopies(a: map<int, SpawnInfo>, oldId: int, newId: int, info: SpawnInfo)
    requires oldId in a && newId !in a
    ensures Copies(a, info) == Copies((a - {oldId})[newId := a[oldId]], info)
  {
    hide Holders;
    RekeyedHolders(a, oldId, newId, info);
    if a[oldId] == info { ReplacedMember(Holders(a, info), oldId, newId); }
  }

  lemma RekeyedHolders(a: map<int, SpawnInfo>, oldId: int, newId: int, info: SpawnInfo)
    requires oldId in a && newId !in a
    ensures Holders((a - {oldId})[newId := a[oldId]], info)
      == if a[oldId] == info then Holders(a, info) - {oldId} + {newId} else Holders(a, info)
    ensures oldId in Holders(a, info) <==> a[oldId] == info
    ensures newId !in Holders(a, info)
  {}

  lemma ReplacedMember(s: set<int>, x: int, y: int)
    requires x in s && y !in s
    ensures |s - {x} + {y}| == |s|
  {}

  /** A queued decay or respawn is about an NPC that died; its corpse, if still there, decays first. */
  ghost predicate DeathOk(e: Event, npcs: map<int, Npc>, queued: multiset<Event>, lastId: int) {
    e in queued && (e.Respawn? || e.CorpseDecay?) ==>
      && e.objectId <= lastId
      && (e.objectId in npcs ==> npcs[e.objectId].dead)
      && (e.Respawn? && e.objectId in npcs ==>
            CorpseDecay(e.at - RESPAWN_DELAY + CORPSE_DECAY_DELAY, e.objectId) in queued)
  }

  ghost predicate DeathsOk(npcs: map<int, Npc>, queued: multiset<Event>, lastId: int) {
    forall e :: e in queued ==> DeathOk(e, npcs, queued, lastId)
  }

  /**
   An NPC in the world carries its spawn point's record, and a living one holds a spawn point, unless it
   is one of those never registered; a corpse has its decay queued.
   */
  ghost predicate NpcOk(id: int, npcs: map<int, Npc>, spawnInfo: map<int, SpawnInfo>,
                        queued: multiset<Event>, lastId: int, diedAt: map<int, Time>, loose: set<int>)
    requires id in npcs
  {
    && id <= lastId
    && (id in spawnInfo ==> npcs[id].spawn == spawnInfo[id])
    && (npcs[id].dead || id in spawnInfo || id in loose)
    && (npcs[id].dead ==> id in diedAt && CorpseDecay(diedAt[id] + CORPSE_DECAY_DELAY, id) in queued)
  }

  /** A spawn point is of a known template, and has a living NPC or a queued respawn. */
  ghost predicate SpawnPointOk(id: int, npcs: map<int, Npc>, spawnInfo: map<int, SpawnInfo>, templates: set<int>,
                               queued: multiset<Event>, lastId: int, diedAt: map<int, Time>, loose: set<int>)
    requires id in spawnInfo
  {
    && id <= lastId
    && spawnInfo[id].templateId in templates
    && ((id in npcs && !npcs[id].dead) || (id in diedAt && Respawn(diedAt[id] + RESPAWN_DELAY, id) in queued))
  }

  ghost predicate SpawnsOk(npcs: map<int, Npc>, spawnInfo: map<int, SpawnInfo>, templates: set<int>,
                           queued: multiset<Event>, lastId: int, diedAt: map<int, Time>, loose: set<int>)
  {
    && DeathsOk(npcs, queued, lastId)
    && (forall id :: id in npcs ==> NpcOk(id, npcs, spawnInfo, queued, lastId, diedAt, loose))
    && (forall id :: id in npcs && id in loose ==> npcs[id].spawn.templateId in templates)
    && (forall id :: id in spawnInfo ==> SpawnPointOk(id, npcs, spawnInfo, templates, queued, lastId, diedAt, loose))
  }

  /** No two living NPCs share a record: those with one are at most as many as the spawn points that hold it. */
  lemma NoSharedRecord(npcs: map<int, Npc>, spawnInfo: map<int, SpawnInfo>, templates: set<int>,
                       queued: multiset<Event>, lastId: int, diedAt: map<int, Time>, info: SpawnInfo)
    requires SpawnsOk(npcs, spawnInfo, templates, queued, lastId, diedAt, {})
    ensures Living(npcs, info) <= Copies(spawnInfo, info)
  {
    var living := set id | id in npcs && !npcs[id].dead && npcs[id].spawn == info;
    var points := Holders(spawnInfo, info);
    forall id | id in living ensures id in points { assert NpcOk(id, npcs, spawnInfo, queued, lastId, diedAt, {}); }
    SmallerSubset(living, points);
  }

  lemma {:induction false} SmallerSubset(a: set<int>, b: set<int>)
    requires a <= b
    ensures |a| <= |b|
  {
    assert b == a + (b - a);
  }

  // ---------- Heartbeats ----------

  ghost predicate IsSwing(e: Event, who: int, target: int) { e.NextAttack? && e.charId == who && e.target == target }

  ghost predicate SwingQueued(q: multiset<Event>, who: int, target: int) {
    exists e :: e in q && IsSwing(e, who, target)
  }

  /** A stance timeout is queued 15 s after the attack stopped, and no swing came after that stop. */
  ghost predicate StanceEnds(q: multiset<Event>, who: int, lastAttack: Time, stoppedAt: map<int, Time>) {
    && who in stoppedAt && lastAttack <= stoppedAt[who]
    && CombatStanceTimeout(stoppedAt[who] + COMBAT_STANCE_TIMEOUT, who) in q
  }

  ghost predicate NpcSwingQueued(q: multiset<Event>, npc: int, who: int) {
    exists e :: e in q && e.NpcNextAttack? && e.npc == npc && e.charId == who
  }

  ghost predicate CastRetryQueued(q: multiset<Event>, who: int, skillId: int) {
    exists e :: e in q && e.CastApproach? && e.charId == who && e.cmd.skillId == skillId
  }

  ghost predicate TalkRetryQueued(q: multiset<Event>, who: int, target: int) {
    exists e :: e in q && e.InteractApproach? && e.charId == who && e.target == target
  }

  /** Attacking, a player has its next swing queued; no longer attacking, the end of its stance. */
  ghost predicate CombatBeats(q: multiset<Event>, who: int, c: Combat, stoppedAt: map<int, Time>) {
    if c.autoAttacking then SwingQueued(q, who, c.target) else StanceEnds(q, who, c.lastAttack, stoppedAt)
  }

  /** What the loop drives by heartbeats: attacks, when they stopped, NPC attacks, and approaches to cast or to talk. */
  datatype Drives = Drives(
    combat: map<int, Combat>, stoppedAt: map<int, Time>, npcCombat: map<int, int>,
    castPending: map<int, CastRequest>, interactPending: map<int, int>)

  /** Nothing gets stuck: whatever is under way has its next event queued. */
  ghost predicate Beating(d: Drives, q: multiset<Event>) {
    && (forall who :: who in d.combat ==> CombatBeats(q, who, d.combat[who], d.stoppedAt))
    && (forall npc :: npc in d.npcCombat ==> NpcSwingQueued(q, npc, d.npcCombat[npc]))
    && (forall who :: who in d.castPending ==> CastRetryQueued(q, who, d.castPending[who].skillId))
    && (forall who :: who in d.interactPending ==> TalkRetryQueued(q, who, d.interactPending[who]))
  }

  /** No swing lies in the future. */
  ghost predicate Swung(combat: map<int, Combat>, clock: Time) {
    forall who :: who in combat ==> combat[who].lastAttack <= clock
  }

  lemma SwungUpdated(combat: map<int, Combat>, who: int, c: Combat, clock: Time)
    requires Swung(combat, clock)
    requires c.lastAttack <= clock || (who in combat && c.lastAttack == combat[who].lastAttack)
    ensures Swung(combat[who := c], clock)
  {}

  lemma BeatingMore(d: Drives, q: multiset<Event>, r: multiset<Event>)
    requires Beating(d, q) && forall e :: e in q ==> e in r
    ensures Beating(d, r)
  {
    forall who | who in d.combat ensures CombatBeats(r, who, d.combat[who], d.stoppedAt) {
      assert CombatBeats(q, who, d.combat[who], d.stoppedAt);
    }
    forall npc | npc in d.npcCombat ensures NpcSwingQueued(r, npc, d.npcCombat[npc]) {
      assert NpcSwingQueued(q, npc, d.npcCombat[npc]);
    }
    forall who | who in d.castPending ensures CastRetryQueued(r, who, d.castPending[who].skillId) {
      assert CastRetryQueued(q, who, d.castPending[who].skillId);
    }
    forall who | who in d.interactPending ensures TalkRetryQueued(r, who, d.interactPending[who]) {
      assert TalkRetryQueued(q, who, d.interactPending[who]);
    }
  }

  /** An attack stops, and the end of the stance is queued. */
  lemma BeatingStopped(d: Drives, q: multiset<Event>, who: int, t: Time)
    requires who in d.combat && Swung(d.combat, t) && Beating(d.(combat := d.combat - {who}), q)
    ensures Beating(d.(combat := d.combat[who := d.combat[who].(autoAttacking := false)],
                       stoppedAt := d.stoppedAt[who := t]),
                    q + multiset{CombatStanceTimeout(t + COMBAT_STANCE_TIMEOUT, who)})
  {
    var rest, after, r := d.combat - {who}, d.combat[who := d.combat[who].(autoAttacking := false)],
      q + multiset{CombatStanceTimeout(t + COMBAT_STANCE_TIMEOUT, who)};
    BeatingMore(d.(combat := rest), q, r);
    forall w | w in after ensures CombatBeats(r, w, after[w], d.stoppedAt[who := t]) {
      assert w != who ==> CombatBeats(r, w, rest[w], d.stoppedAt);
    }
  }

  /** An attack begins or goes on, and its next swing is queued. */
  lemma BeatingSwings(d: Drives, q: multiset<Event>, who: int, c: Combat, e: Event)
    requires Beating(d.(combat := d.combat - {who}), q)
    requires c.autoAttacking && e.NextAttack? && e.charId == who && e.target == c.target
    ensures Beating(d.(combat := d.combat[who := c]), q + multiset{e})
  {
    var rest, after, r := d.combat - {who}, d.combat[who := c], q + multiset{e};
    BeatingMore(d.(combat := rest), q, r);
    assert e in r;
    forall w | w in after ensures CombatBeats(r, w, after[w], d.stoppedAt) {
      assert w != who ==> CombatBeats(r, w, rest[w], d.stoppedAt);
    }
  }

  lemma BeatingNpc(d: Drives, q: multiset<Event>, npc: int, who: int, e: Event)
    requires Beating(d.(npcCombat := d.npcCombat - {npc}), q)
    requires e.NpcNextAttack? && e.npc == npc && e.charId == who
    ensures Beating(d.(npcCombat := d.npcCombat[npc := who]), q + multiset{e})
  {
    var rest, after, r := d.npcCombat - {npc}, d.npcCombat[npc := who], q + multiset{e};
    BeatingMore(d.(npcCombat := rest), q, r);
    assert e in r;
    forall n | n in after ensures NpcSwingQueued(r, n, after[n]) { assert n != npc ==> NpcSwingQueued(r, n, rest[n]); }
  }

  lemma BeatingCast(d: Drives, q: multiset<Event>, who: int, cmd: CastRequest, e: Event)
    requires Beating(d.(castPending := d.castPending - {who}), q)
    requires e.CastApproach? && e.charId == who && e.cmd.skillId == cmd.skillId
    ensures Beating(d.(castPending := d.castPending[who := cmd]), q + multiset{e})
  {
    var rest, after, r := d.castPending - {who}, d.castPending[who := cmd], q + multiset{e};
    BeatingMore(d.(castPending := rest), q, r);
    assert e in r;
    forall w | w in after ensures CastRetryQueued(r, w, after[w].skillId) {
      assert w != who ==> CastRetryQueued(r, w, rest[w].skillId);
    }
  }

  lemma BeatingTalk(d: Drives, q: multiset<Event>, who: int, target: int, e: Event)
    requires Beating(d.(interactPending := d.interactPending - {who}), q)
    requires e.InteractApproach? && e.charId == who && e.target == target
    ensures Beating(d.(interactPending := d.interactPending[who := target]), q + multiset{e})
  {
    var rest, after, r := d.interactPending - {who}, d.interactPending[who := target], q + multiset{e};
    BeatingMore(d.(interactPending := rest), q, r);
    assert e in r;
    forall w | w in after ensures TalkRetryQueued(r, w, after[w]) {
      assert w != who ==> TalkRetryQueued(r, w, rest[w]);
    }
  }

  /** What is under way no longer needs no heartbeat. */
  ghost predicate Fewer(c: Drives, d: Drives) {
    && c.stoppedAt == d.stoppedAt
    && (forall who :: who in c.combat ==> who in d.combat && c.combat[who] == d.combat[who])
    && (forall npc :: npc in c.npcCombat ==> npc in d.npcCombat && c.npcCombat[npc] == d.npcCombat[npc])
    && (forall who :: who in c.castPending ==> who in d.castPending && c.castPending[who] == d.castPending[who])
    && (forall who :: who in c.interactPending ==>
      who in d.interactPending && c.interactPending[who] == d.interactPending[who])
  }

  lemma BeatingFewer(c: Drives, d: Drives, q: multiset<Event>)
    requires Beating(d, q) && Fewer(c, d)
    ensures Beating(c, q)
  {}

  /** What a popped event may have been the heartbeat of. */
  function Without(d: Drives, e: Event): Drives {
    match e
    case NextAttack(_, who, _) => d.(combat := d.combat - {who})
    case CombatStanceTimeout(_, who) => d.(combat := d.combat - {who})
    case NpcNextAttack(_, npc, _) => d.(npcCombat := d.npcCombat - {npc})
    case CastApproach(_, who, _, _) => d.(castPending := d.castPending - {who})
    case InteractApproach(_, who, _) => d.(interactPending := d.interactPending - {who})
    case _ => d
  }

  /** Whether a popped event is a heartbeat of what is under way. */
  predicate Beats(d: Drives, e: Event) {
    match e
    case NextAttack(_, who, target) => who in d.combat && d.combat[who].autoAttacking && d.combat[who].target == target
    case CombatStanceTimeout(at, who) =>
      && who in d.combat && !d.combat[who].autoAttacking && who in d.stoppedAt
      && d.combat[who].lastAttack <= d.stoppedAt[who] && at == d.stoppedAt[who] + COMBAT_STANCE_TIMEOUT
    case NpcNextAttack(_, npc, who) => npc in d.npcCombat && d.npcCombat[npc] == who
    case CastApproach(_, who, _, cmd) => who in d.castPending && d.castPending[who].skillId == cmd.skillId
    case InteractApproach(_, who, target) => who in d.interactPending && d.interactPending[who] == target
    case _ => false
  }

  /** Popping an event stops at most what it was the heartbeat of. */
  lemma BeatingPopped(d: Drives, q: multiset<Event>, e: Event)
    requires Beating(d, q + multiset{e})
    ensures Beating(Without(d, e), q) && (!Beats(d, e) ==> Beating(d, q))
  {
    var all := q + multiset{e};
    forall who | who in d.combat && !(Beats(d, e) && (e.NextAttack? || e.CombatStanceTimeout?) && e.charId == who)
      ensures CombatBeats(q, who, d.combat[who], d.stoppedAt)
    {
      assert CombatBeats(all, who, d.combat[who], d.stoppedAt);
    }
    forall npc | npc in d.npcCombat && !(Beats(d, e) && e.NpcNextAttack? && e.npc == npc)
      ensures NpcSwingQueued(q, npc, d.npcCombat[npc])
    {
      assert NpcSwingQueued(all, npc, d.npcCombat[npc]);
    }
    forall who | who in d.castPending && !(Beats(d, e) && e.CastApproach? && e.charId == who)
      ensures CastRetryQueued(q, who, d.castPending[who].skillId)
    {
      assert CastRetryQueued(all, who, d.castPending[who].skillId);
    }
    forall who | who in d.interactPending && !(Beats(d, e) && e.InteractApproach? && e.charId == who)
      ensures TalkRetryQueued(q, who, d.interactPending[who])
    {
      assert TalkRetryQueued(all, who, d.interactPending[who]);
    }
  }

  // ---------- Swing chains ----------

  /** One attacker has at most one swing at the target queued, and so one chain of swings. */
  ghost predicate OneChain(q: multiset<Event>, who: int, target: int) {
    forall e, f :: e in q && f in q && IsSwing(e, who, target) && IsSwing(f, who, target) ==> e == f && q[e] == 1
  }

  /** One more swing makes a single chain exactly when none was queued. */
  lemma ChainBegins(q: multiset<Event>, who: int, target: int, t: Time)
    ensures OneChain(q + multiset{NextAttack(t, who, target)}, who, target) <==> !SwingQueued(q, who, target)
  {
    var swing := NextAttack(t, who, target);
    var r := q + multiset{swing};
    assert IsSwing(swing, who, target) && swing in r;
    if SwingQueued(q, who, target) {
      var e :| e in q && IsSwing(e, who, target);
      assert e in r;
      assert e == swing ==> r[e] >= 2;
    } else {
      assert forall e :: e in r && IsSwing(e, who, target) ==> e == swing;
    }
  }

  /** A single chain stays one when its swing fires and queues the next, with or without a hit. */
  lemma ChainGoesOn(q: multiset<Event>, hits: multiset<Event>, who: int, target: int, t: Time, next: Time)
    requires forall e :: e in hits ==> !IsSwing(e, who, target)
    ensures OneChain(q + multiset{NextAttack(t, who, target)}, who, target)
      <==> OneChain(q + hits + multiset{NextAttack(next, who, target)}, who, target)
  {
    ChainBegins(q, who, target, t);
    ChainBegins(q + hits, who, target, next);
    assert forall e :: e in q ==> e in q + hits;
  }

  /** Every attacker has one chain at every target it was not let attack anew with a swing still queued. */
  ghost predicate Chained(q: multiset<Event>, doubled: set<(int, int)>) {
    forall who, target :: (who, target) !in doubled ==> OneChain(q, who, target)
  }

  lemma ChainedFewer(q: multiset<Event>, r: multiset<Event>, doubled: set<(int, int)>)
    requires Chained(q, doubled) && r <= q
    ensures Chained(r, doubled)
  {
    forall who, target | (who, target) !in doubled ensures OneChain(r, who, target) {
      assert OneChain(q, who, target);
      assert forall e :: e in r ==> e in q && r[e] <= q[e];
    }
  }

  lemma ChainedOther(q: multiset<Event>, e: Event, doubled: set<(int, int)>)
    requires Chained(q, doubled) && !e.NextAttack?
    ensures Chained(q + multiset{e}, doubled)
  {
    forall who, target | (who, target) !in doubled ensures OneChain(q + multiset{e}, who, target) {
      assert OneChain(q, who, target);
      assert forall f :: f in q + multiset{e} && IsSwing(f, who, target) ==> f in q;
    }
  }

  lemma ChainedAttack(q: multiset<Event>, who: int, target: int, t: Time, doubled: set<(int, int)>)
    requires Chained(q, doubled)
    ensures Chained(q + multiset{NextAttack(t, who, target)},
                    if SwingQueued(q, who, target) then doubled + {(who, target)} else doubled)
  {
    var swing := NextAttack(t, who, target);
    ChainBegins(q, who, target, t);
    forall w, x | (w, x) !in doubled && !(w == who && x == target) ensures OneChain(q + multiset{swing}, w, x) {
      assert OneChain(q, w, x);
      assert forall f :: f in q + multiset{swing} && IsSwing(f, w, x) ==> f in q;
    }
  }

  lemma ChainedNext(q: multiset<Event>, fired: Event, next: Time, doubled: set<(int, int)>)
    requires fired.NextAttack? && Chained(q + multiset{fired}, doubled)
    ensures Chained(q + multiset{NextAttack(next, fired.charId, fired.target)}, doubled)
  {
    var who, target, all := fired.charId, fired.target, q + multiset{fired};
    ChainBegins(q, who, target, fired.at);
    ChainBegins(q, who, target, next);
    forall w, x | (w, x) !in doubled ensures OneChain(q + multiset{NextAttack(next, who, target)}, w, x) {
      assert OneChain(all, w, x);
      assert w != who || x != target ==>
        forall f :: f in q + multiset{NextAttack(next, who, target)} && IsSwing(f, w, x) ==> f in all;
    }
  }

  // ---------- Combat stances ----------

  /** The history of combat stances: begun with or without an attack of one's own, attacks accepted, and ends. */
  datatype Stance = Began(who: int, fighting: bool) | Attacked(who: int) | TimedOut(who: int) | Cleared(who: int)

  /** The last beginning of the player's stance has no end yet. */
  ghost predicate InStance(log: seq<Stance>, who: int) {
    log != [] &&
    var last := log[|log| - 1];
    if last.who == who && !last.Attacked? then last.Began? else InStance(log[..|log| - 1], who)
  }

  /** The stance began without an attack of the player's own, and none was accepted since. */
  ghost predicate Stuck(log: seq<Stance>, who: int) {
    log != [] &&
    var last := log[|log| - 1];
    if last.who == who then last.Began? && !last.fighting else Stuck(log[..|log| - 1], who)
  }

  /** The flags are those of the history, and exactly the stuck stances have no attack, under way or stopped. */
  ghost predicate StancesOk(inCombat: set<int>, fighters: set<int>, log: seq<Stance>) {
    && (forall who :: who in inCombat <==> InStance(log, who))
    && (forall who :: who in inCombat ==> (who in fighters <==> !Stuck(log, who)))
  }

  lemma StanceBegins(inCombat: set<int>, fighters: set<int>, log: seq<Stance>, who: int)
    requires StancesOk(inCombat, fighters, log)
    ensures StancesOk(inCombat + {who}, fighters, log + [Began(who, who in fighters)])
  {
    assert (log + [Began(who, who in fighters)])[..|log|] == log;
  }

  lemma StanceAttacks(inCombat: set<int>, fighters: set<int>, log: seq<Stance>, who: int)
    requires StancesOk(inCombat, fighters, log)
    ensures StancesOk(inCombat, fighters + {who}, log + [Attacked(who)])
  {
    assert (log + [Attacked(who)])[..|log|] == log;
  }

  lemma StanceTimesOut(inCombat: set<int>, fighters: set<int>, log: seq<Stance>, who: int)
    requires StancesOk(inCombat, fighters, log)
    ensures StancesOk(inCombat - {who}, fighters - {who}, log + [TimedOut(who)])
  {
    assert (log + [TimedOut(who)])[..|log|] == log;
  }

  lemma StanceClears(inCombat: set<int>, fighters: set<int>, log: seq<Stance>, who: int)
    requires StancesOk(inCombat, fighters, log)
    ensures StancesOk(inCombat - {who}, fighters, log + [Cleared(who)])
  {
    assert (log + [Cleared(who)])[..|log|] == log;
  }

  /** A hit on a player who does not attack begins a stuck stance. */
  lemma BegunStuck(log: seq<Stance>, who: int)
    ensures InStance(log + [Began(who, false)], who) && Stuck(log + [Began(who, false)], who)
  {}

  /** A stuck stance stays stuck until the player attacks, dies, or enters the world anew. */
  lemma {:induction false} StuckStays(log: seq<Stance>, more: seq<Stance>, who: int)
    requires InStance(log, who) && Stuck(log, who) && forall k :: 0 <= k < |more| ==> more[k].who != who
    ensures InStance(log + more, who) && Stuck(log + more, who)
  {
    if more == [] {
      assert log + more == log;
    } else {
      StuckStays(log, more[..|more| - 1], who);
      assert (log + more)[..|log + more| - 1] == log + more[..|more| - 1];
    }
  }

  // ---------- What scheduling and executing leave alone ----------

  /** Events neither invariant speaks of. */
  predicate Neutral(e: Event) { !e.CastHit? && !e.Respawn? && !e.CorpseDecay? }

  lemma CastsOkQueue(players: map<int, Player>, a: multiset<Event>, b: multiset<Event>, seqNo: int, log: CastLog)
    requires CastsOk(players, a, seqNo, log)
    requires forall e: Event :: e.CastHit? ==> a[e] == b[e]
    ensures CastsOk(players, b, seqNo, log)
  {
    forall e | e in b ensures HitOk(e, b, log) { assert e.CastHit? ==> HitOk(e, a, log); }
    forall who | who in players ensures CasterOk(who, players[who], b, log) {
      assert CasterOk(who, players[who], a, log);
    }
  }

  lemma SpawnsOkQueue(npcs: map<int, Npc>, spawnInfo: map<int, SpawnInfo>, templates: set<int>,
                      a: multiset<Event>, b: multiset<Event>, lastId: int, diedAt: map<int, Time>, loose: set<int>)
    requires SpawnsOk(npcs, spawnInfo, templates, a, lastId, diedAt, loose)
    requires forall e: Event :: e.Respawn? || e.CorpseDecay? ==> a[e] == b[e]
    ensures SpawnsOk(npcs, spawnInfo, templates, b, lastId, diedAt, loose)
  {
    forall e | e in b ensures DeathOk(e, npcs, b, lastId) {
      assert e.Respawn? || e.CorpseDecay? ==> DeathOk(e, npcs, a, lastId);
    }
    forall id | id in npcs ensures NpcOk(id, npcs, spawnInfo, b, lastId, diedAt, loose) {
      assert NpcOk(id, npcs, spawnInfo, a, lastId, diedAt, loose);
    }
    forall id | id in spawnInfo ensures SpawnPointOk(id, npcs, spawnInfo, templates, b, lastId, diedAt, loose) {
      assert SpawnPointOk(id, npcs, spawnInfo, templates, a, lastId, diedAt, loose);
    }
  }

  /** Changing anything about players but what they cast, and keeping MP non-negative, keeps casts well-bound. */
  lemma CastsOkPlayers(a: map<int, Player>, b: map<int, Player>, queued: multiset<Event>, seqNo: int, log: CastLog)
    requires CastsOk(a, queued, seqNo, log) && MpOk(b)
    requires forall who :: who in b && b[who].casting.Some? ==> who in a && b[who].casting == a[who].casting
    ensures CastsOk(b, queued, seqNo, log)
  {
    forall who | who in b ensures CasterOk(who, b[who], queued, log) {
      if who in a { assert CasterOk(who, a[who], queued, log); }
    }
  }

  /** An NPC losing HP neither dies nor moves by that alone. */
  lemma SpawnsOkNpcHp(a: map<int, Npc>, b: map<int, Npc>, spawnInfo: map<int, SpawnInfo>, templates: set<int>,
                      queued: multiset<Event>, lastId: int, diedAt: map<int, Time>, loose: set<int>)
    requires SpawnsOk(a, spawnInfo, templates, queued, lastId, diedAt, loose) && a.Keys == b.Keys
    requires forall id :: id in a ==> b[id] == a[id].(hp := b[id].hp)
    ensures SpawnsOk(b, spawnInfo, templates, queued, lastId, diedAt, loose)
  {
    forall e | e in queued ensures DeathOk(e, b, queued, lastId) { assert DeathOk(e, a, queued, lastId); }
    forall id | id in b ensures NpcOk(id, b, spawnInfo, queued, lastId, diedAt, loose) {
      assert NpcOk(id, a, spawnInfo, queued, lastId, diedAt, loose);
    }
    forall id | id in spawnInfo ensures SpawnPointOk(id, b, spawnInfo, templates, queued, lastId, diedAt, loose) {
      assert SpawnPointOk(id, a, spawnInfo, templates, queued, lastId, diedAt, loose);
    }
  }

  lemma DeathsOkDeath(npcs: map<int, Npc>, a: multiset<Event>, b: multiset<Event>, lastId: int, id: int, t: Time)
    requires DeathsOk(npcs, a, lastId) && id in npcs && id <= lastId
    requires b == a + multiset{CorpseDecay(t + CORPSE_DECAY_DELAY, id)} + multiset{Respawn(t + RESPAWN_DELAY, id)}
    ensures DeathsOk(npcs[id := npcs[id].(dead := true, hp := 0.0)], b, lastId)
  {
    var npcs' := npcs[id := npcs[id].(dead := true, hp := 0.0)];
    forall e | e in b ensures DeathOk(e, npcs', b, lastId) {
      assert e in a ==> DeathOk(e, npcs, a, lastId);
    }
  }

  /** An NPC dies, perhaps again: its decay and its respawn are queued together. */
  lemma SpawnsOkDeath(npcs: map<int, Npc>, spawnInfo: map<int, SpawnInfo>, templates: set<int>,
                      a: multiset<Event>, b: multiset<Event>, lastId: int, diedAt: map<int, Time>, loose: set<int>,
                      id: int, t: Time)
    requires SpawnsOk(npcs, spawnInfo, templates, a, lastId, diedAt, loose) && id in npcs
    requires b == a + multiset{CorpseDecay(t + CORPSE_DECAY_DELAY, id)} + multiset{Respawn(t + RESPAWN_DELAY, id)}
    ensures SpawnsOk(npcs[id := npcs[id].(dead := true, hp := 0.0)], spawnInfo, templates, b, lastId,
                     diedAt[id := t], loose)
  {
    var npcs', diedAt' := npcs[id := npcs[id].(dead := true, hp := 0.0)], diedAt[id := t];
    assert NpcOk(id, npcs, spawnInfo, a, lastId, diedAt, loose);
    DeathsOkDeath(npcs, a, b, lastId, id, t);
    forall n | n in npcs' ensures NpcOk(n, npcs', spawnInfo, b, lastId, diedAt', loose) {
      NpcOkDeath(n, npcs, spawnInfo, a, b, lastId, diedAt, loose, id, t);
    }
    forall s | s in spawnInfo ensures SpawnPointOk(s, npcs', spawnInfo, templates, b, lastId, diedAt', loose) {
      SpawnPointOkDeath(s, npcs, spawnInfo, templates, a, b, lastId, diedAt, loose, id, t);
    }
  }

  lemma NpcOkDeath(n: int, npcs: map<int, Npc>, spawnInfo: map<int, SpawnInfo>, a: multiset<Event>, b: multiset<Event>,
                   lastId: int, diedAt: map<int, Time>, loose: set<int>, id: int, t: Time)
    requires n in npcs && NpcOk(n, npcs, spawnInfo, a, lastId, diedAt, loose) && id in npcs && a <= b
    requires CorpseDecay(t + CORPSE_DECAY_DELAY, id) in b
    ensures NpcOk(n, npcs[id := npcs[id].(dead := true, hp := 0.0)], spawnInfo, b, lastId, diedAt[id := t], loose)
  {}

  lemma SpawnPointOkDeath(s: int, npcs: map<int, Npc>, spawnInfo: map<int, SpawnInfo>, templates: set<int>,
                          a: multiset<Event>, b: multiset<Event>, lastId: int, diedAt: map<int, Time>, loose: set<int>,
                          id: int, t: Time)
    requires s in spawnInfo && SpawnPointOk(s, npcs, spawnInfo, templates, a, lastId, diedAt, loose)
    requires id in npcs && a <= b && Respawn(t + RESPAWN_DELAY, id) in b
    ensures SpawnPointOk(s, npcs[id := npcs[id].(dead := true, hp := 0.0)], spawnInfo, templates, b, lastId,
                         diedAt[id := t], loose)
  {}

  // ---------- What is settled once nothing queued is due ----------

  ghost predicate AllLater(queued: multiset<Event>, now: Time) { forall e :: e in queued ==> e.at > now }

  lemma CastsSettled(players: map<int, Player>, queued: multiset<Event>, seqNo: int, log: CastLog, now: Time)
    requires CastsOk(players, queued, seqNo, log) && AllLater(queued, now)
    ensures forall who :: who in players && players[who].casting.Some? ==>
      players[who].casting.value.id in log.issued && log.issued[players[who].casting.value.id].hitAt > now
  {
    forall who | who in players && players[who].casting.Some?
      ensures players[who].casting.value.id in log.issued && log.issued[players[who].casting.value.id].hitAt > now
    {
      assert CasterOk(who, players[who], queued, log);
    }
  }

  /** A stance that ends by itself: its attack goes on, or has stopped less than 15 s ago with the timeout queued. */
  ghost predicate Ending(d: Drives, queued: multiset<Event>, who: int, now: Time) {
    && who in d.combat
    && if d.combat[who].autoAttacking then SwingQueued(queued, who, d.combat[who].target)
       else who in d.stoppedAt && now < d.stoppedAt[who] + COMBAT_STANCE_TIMEOUT
            && CombatStanceTimeout(d.stoppedAt[who] + COMBAT_STANCE_TIMEOUT, who) in queued
  }

  /** With nothing due, exactly the stances that are not stuck will end. */
  lemma StancesSettled(d: Drives, queued: multiset<Event>, inCombat: set<int>, log: seq<Stance>, now: Time)
    requires Beating(d, queued) && AllLater(queued, now) && StancesOk(inCombat, d.combat.Keys, log)
    ensures forall who :: who in d.combat ==> Ending(d, queued, who, now)
    ensures forall who :: who in inCombat ==> (Ending(d, queued, who, now) <==> !Stuck(log, who))
  {
    forall who | who in d.combat ensures Ending(d, queued, who, now) {
      assert CombatBeats(queued, who, d.combat[who], d.stoppedAt);
    }
  }

  /**
   A case of a timeout that comes too early: the attack stopped after a second, went on, and stopped again after
   ten. The first timeout finds a swing of 7 s ago and is not missed, since the other one is queued.
   */
  lemma EarlyTimeout()
    ensures var d := Drives(map[1 := Combat(false, 2, 9 * SECOND)], map[1 := 10 * SECOND], map[], map[], map[]);
      var early, later := CombatStanceTimeout(16 * SECOND, 1), CombatStanceTimeout(25 * SECOND, 1);
      && early.at - d.combat[1].lastAttack < COMBAT_STANCE_TIMEOUT
      && Beating(d, multiset{early, later}) && !Beats(d, early) && Beating(d, multiset{later})
  {}

  /** No corpse is left that died 7 s ago, and no spawn point is empty that died 60 s ago. */
  ghost predicate DeathsSettled(npcs: map<int, Npc>, spawnInfo: map<int, SpawnInfo>, diedAt: map<int, Time>,
                                now: Time) {
    && (forall id :: id in npcs && npcs[id].dead ==> id in diedAt && now < diedAt[id] + CORPSE_DECAY_DELAY)
    && (forall id :: id in spawnInfo && !(id in npcs && !npcs[id].dead) ==>
          id in diedAt && now < diedAt[id] + RESPAWN_DELAY)
  }

  lemma SpawnsSettled(npcs: map<int, Npc>, spawnInfo: map<int, SpawnInfo>, templates: set<int>,
                      queued: multiset<Event>, lastId: int, diedAt: map<int, Time>, loose: set<int>, now: Time)
    requires SpawnsOk(npcs, spawnInfo, templates, queued, lastId, diedAt, loose) && AllLater(queued, now)
    ensures DeathsSettled(npcs, spawnInfo, diedAt, now)
  {
    forall id | id in npcs && npcs[id].dead ensures id in diedAt && now < diedAt[id] + CORPSE_DECAY_DELAY {
      assert NpcOk(id, npcs, spawnInfo, queued, lastId, diedAt, loose);
    }
    forall id | id in spawnInfo && !(id in npcs && !npcs[id].dead)
      ensures id in diedAt && now < diedAt[id] + RESPAWN_DELAY
    {
      assert SpawnPointOk(id, npcs, spawnInfo, templates, queued, lastId, diedAt, loose);
    }
  }

  // ---------- Steps of a cast ----------

  lemma CastStarted(players: map<int, Player>, queued: multiset<Event>, seqNo: int, log: CastLog,
                    who: int, p: Player, hitAt: Time)
    requires CastsOk(players, queued, seqNo, log) && who in players && p.mp >= players[who].mp
    requires p.casting.Some? && p.casting.value.id == seqNo + 1
    ensures CastsOk(players[who := p], queued + multiset{CastHit(hitAt, who, seqNo + 1)}, seqNo + 1,
                    log.(issued := log.issued[seqNo + 1 := Issue(hitAt, who)]))
    ensures seqNo + 1 !in log.issued
  {
    var id := seqNo + 1;
    var queued' := queued + multiset{CastHit(hitAt, who, id)};
    var log' := log.(issued := log.issued[id := Issue(hitAt, who)]);
    forall e | e in queued' ensures HitOk(e, queued', log') { assert e in queued ==> HitOk(e, queued, log); }
    var after := players[who := p];
    forall q | q in after ensures CasterOk(q, after[q], queued', log') {
      assert q in players && CasterOk(q, players[q], queued, log);
    }
  }

  /** A cast cut short: by an abort, by leaving the world, or by a fresh entry under the same id. */
  function Dropped(log: CastLog, casting: Option<Cast>): CastLog {
    if casting.Some? then log.(dropped := log.dropped + {casting.value.id}) else log
  }

  lemma CastDropped(a: map<int, Player>, b: map<int, Player>, queued: multiset<Event>, seqNo: int, log: CastLog,
                    who: int)
    requires CastsOk(a, queued, seqNo, log)
    requires who in b ==> b[who].casting.None? && (b[who].mp >= 0.0 || (who in a && b[who].mp == a[who].mp))
    requires forall q :: q in b && q != who ==> q in a && b[q] == a[q]
    ensures CastsOk(b, queued, seqNo, Dropped(log, if who in a then a[who].casting else None))
  {
    var log' := Dropped(log, if who in a then a[who].casting else None);
    if who in a { assert CasterOk(who, a[who], queued, log); }
    forall e | e in queued ensures HitOk(e, queued, log') { assert HitOk(e, queued, log); }
    forall q | q in b ensures CasterOk(q, b[q], queued, log') {
      if q != who { assert CasterOk(q, a[q], queued, log); }
    }
  }

  /** Whether a popped hit still finds its own cast in progress. */
  predicate HitLands(players: map<int, Player>, e: Event)
    requires e.CastHit?
  {
    e.charId in players && players[e.charId].casting.Some? && players[e.charId].casting.value.id == e.castId
  }

  /** A stale hit can be forgotten: nobody waits for it. */
  lemma StaleHitPopped(players: map<int, Player>, queued: multiset<Event>, e: Event, seqNo: int, log: CastLog)
    requires e.CastHit? && CastsOk(players, queued + multiset{e}, seqNo, log) && !HitLands(players, e)
    ensures CastsOk(players, queued, seqNo, log)
  {
    var all := queued + multiset{e};
    assert HitOk(e, all, log);
    forall x | x in queued ensures HitOk(x, queued, log) { assert HitOk(x, all, log); }
    forall q | q in players ensures CasterOk(q, players[q], queued, log) {
      assert CasterOk(q, players[q], all, log);
    }
  }

  /** A landing hit ends its cast, and may run its effects: it never ran before and was not cut short. */
  lemma HitLanded(players: map<int, Player>, queued: multiset<Event>, e: Event, seqNo: int, log: CastLog)
    requires e.CastHit? && CastsOk(players, queued + multiset{e}, seqNo, log) && HitLands(players, e)
    ensures CastsOk(players[e.charId := players[e.charId].(casting := None)], queued, seqNo, log)
    ensures CastsOk(players[e.charId := players[e.charId].(casting := None)], queued, seqNo,
                    log.(applied := log.applied + multiset{e.castId}))
    ensures e.castId !in log.applied && e.castId !in log.dropped
  {
    var all := queued + multiset{e};
    var after := players[e.charId := players[e.charId].(casting := None)];
    var ran := log.(applied := log.applied + multiset{e.castId});
    assert HitOk(e, all, log) && CasterOk(e.charId, players[e.charId], all, log);
    forall x | x in queued ensures HitOk(x, queued, log) && HitOk(x, queued, ran) { assert HitOk(x, all, log); }
    forall q | q in after ensures CasterOk(q, after[q], queued, log) && CasterOk(q, after[q], queued, ran) {
      assert CasterOk(q, players[q], all, log);
    }
  }

  /** Casting never wedges: a casting player has exactly one queued hit carrying its cast id. */
  lemma ExactlyOneHitQueued(players: map<int, Player>, items: seq<Event>, seqNo: int, log: CastLog, who: int)
    requires CastsOk(players, multiset(items), seqNo, log)
    requires who in players && players[who].casting.Some?
    ensures exists i ::
      && 0 <= i < |items| && items[i].CastHit? && items[i].castId == players[who].casting.value.id
      && items[i].charId == who
      && forall j :: 0 <= j < |items| && items[j].CastHit? && items[j].castId == items[i].castId ==> j == i
  {
    var id := players[who].casting.value.id;
    assert CasterOk(who, players[who], multiset(items), log);
    var hit := CastHit(log.issued[id].hitAt, who, id);
    assert hit in items;
    var i :| 0 <= i < |items| && items[i] == hit;
    forall j | 0 <= j < |items| && items[j].CastHit? && items[j].castId == id ensures j == i {
      assert items[j] in multiset(items) && HitOk(items[j], multiset(items), log) && HitOk(hit, multiset(items), log);
      if j != i { TwoOccurrences(items, i, j); }
    }
  }

  lemma TwoOccurrences(items: seq<Event>, i: nat, j: nat)
    requires i < |items| && j < |items| && i != j && items[i] == items[j]
    ensures multiset(items)[items[i]] >= 2
  {
    var a, b := if i < j then i else j, if i < j then j else i;
    assert items == items[..b] + items[b..];
    assert items[a] in items[..b] && items[b] in items[b..];
  }

  // ---------- Steps of a death ----------

  lemma Decayed(npcs: map<int, Npc>, spawnInfo: map<int, SpawnInfo>, templates: set<int>, queued: multiset<Event>,
                e: Event, lastId: int, diedAt: map<int, Time>, loose: set<int>)
    requires e.CorpseDecay? && SpawnsOk(npcs, spawnInfo, templates, queued + multiset{e}, lastId, diedAt, loose)
    ensures SpawnsOk(npcs - {e.objectId}, spawnInfo, templates, queued, lastId, diedAt, loose)
  {
    var all, npcs' := queued + multiset{e}, npcs - {e.objectId};
    assert DeathOk(e, npcs, all, lastId);
    forall x | x in queued ensures DeathOk(x, npcs', queued, lastId) { assert DeathOk(x, npcs, all, lastId); }
    forall id | id in npcs' ensures NpcOk(id, npcs', spawnInfo, queued, lastId, diedAt, loose) {
      assert NpcOk(id, npcs, spawnInfo, all, lastId, diedAt, loose);
    }
    forall id | id in spawnInfo ensures SpawnPointOk(id, npcs', spawnInfo, templates, queued, lastId, diedAt, loose) {
      assert SpawnPointOk(id, npcs, spawnInfo, templates, all, lastId, diedAt, loose);
    }
  }

  /** A respawn runs when it is the earliest event, so the corpse's own, earlier decay has already run. */
  lemma CorpseGoneByRespawn(npcs: map<int, Npc>, spawnInfo: map<int, SpawnInfo>, templates: set<int>,
                            queued: multiset<Event>,
                            e: Event, lastId: int, diedAt: map<int, Time>, loose: set<int>)
    requires e.Respawn? && SpawnsOk(npcs, spawnInfo, templates, queued + multiset{e}, lastId, diedAt, loose)
    requires forall x :: x in queued ==> e.at <= x.at
    ensures e.objectId !in npcs
  {
    var decay := CorpseDecay(e.at - RESPAWN_DELAY + CORPSE_DECAY_DELAY, e.objectId);
    assert DeathOk(e, npcs, queued + multiset{e}, lastId);
    assert decay !in queued && decay != e;
  }

  /** The template of a spawn point is known. */
  lemma KnownTemplate(npcs: map<int, Npc>, spawnInfo: map<int, SpawnInfo>, templates: set<int>, queued: multiset<Event>,
                      lastId: int, diedAt: map<int, Time>, loose: set<int>, id: int)
    requires SpawnsOk(npcs, spawnInfo, templates, queued, lastId, diedAt, loose) && id in spawnInfo
    ensures spawnInfo[id].templateId in templates
  {
    assert SpawnPointOk(id, npcs, spawnInfo, templates, queued, lastId, diedAt, loose);
  }

  /** The id a respawn takes next is new, both among the NPCs and among the spawn points. */
  lemma NextIdIsFresh(npcs: map<int, Npc>, spawnInfo: map<int, SpawnInfo>, templates: set<int>, queued: multiset<Event>,
                      lastId: int, diedAt: map<int, Time>, loose: set<int>)
    requires SpawnsOk(npcs, spawnInfo, templates, queued, lastId, diedAt, loose)
    ensures lastId + 1 !in npcs && lastId + 1 !in spawnInfo
  {
    var next := lastId + 1;
    assert next in npcs ==> NpcOk(next, npcs, spawnInfo, queued, lastId, diedAt, loose);
    assert next in spawnInfo ==> SpawnPointOk(next, npcs, spawnInfo, templates, queued, lastId, diedAt, loose);
  }

  /** A respawn with no record to act on, because an earlier one took it. */
  lemma RespawnSkipped(npcs: map<int, Npc>, spawnInfo: map<int, SpawnInfo>, templates: set<int>,
                       queued: multiset<Event>,
                       e: Event, lastId: int, diedAt: map<int, Time>, loose: set<int>)
    requires e.Respawn? && SpawnsOk(npcs, spawnInfo, templates, queued + multiset{e}, lastId, diedAt, loose)
    requires e.objectId !in spawnInfo
    ensures SpawnsOk(npcs, spawnInfo, templates, queued, lastId, diedAt, loose)
  {
    var all := queued + multiset{e};
    forall x | x in queued ensures DeathOk(x, npcs, queued, lastId) { assert DeathOk(x, npcs, all, lastId); }
    forall id | id in npcs ensures NpcOk(id, npcs, spawnInfo, queued, lastId, diedAt, loose) {
      assert NpcOk(id, npcs, spawnInfo, all, lastId, diedAt, loose);
    }
    forall id | id in spawnInfo ensures SpawnPointOk(id, npcs, spawnInfo, templates, queued, lastId, diedAt, loose) {
      assert SpawnPointOk(id, npcs, spawnInfo, templates, all, lastId, diedAt, loose);
    }
  }

  lemma Respawned(npcs: map<int, Npc>, spawnInfo: map<int, SpawnInfo>, templates: set<int>, queued: multiset<Event>,
                  e: Event, lastId: int, diedAt: map<int, Time>, loose: set<int>, npc: Npc)
    requires e.Respawn? && SpawnsOk(npcs, spawnInfo, templates, queued + multiset{e}, lastId, diedAt, loose)
    requires e.objectId in spawnInfo && e.objectId !in npcs && !npc.dead && npc.spawn == spawnInfo[e.objectId]
    ensures SpawnsOk(npcs[lastId + 1 := npc], (spawnInfo - {e.objectId})[lastId + 1 := npc.spawn], templates, queued,
                     lastId + 1, diedAt, loose)
    ensures SameRecords(spawnInfo, (spawnInfo - {e.objectId})[lastId + 1 := npc.spawn])
  {
    var all, last := queued + multiset{e}, lastId + 1;
    var npcs', spawnInfo' := npcs[last := npc], (spawnInfo - {e.objectId})[last := npc.spawn];
    assert last in spawnInfo ==> SpawnPointOk(last, npcs, spawnInfo, templates, all, lastId, diedAt, loose);
    RekeyedRecord(spawnInfo, e.objectId, last);
    forall x | x in queued ensures DeathOk(x, npcs', queued, last) { assert DeathOk(x, npcs, all, lastId); }
    forall id | id in npcs' ensures NpcOk(id, npcs', spawnInfo', queued, last, diedAt, loose) {
      assert id != last ==> NpcOk(id, npcs, spawnInfo, all, lastId, diedAt, loose);
    }
    forall id | id in spawnInfo' ensures SpawnPointOk(id, npcs', spawnInfo', templates, queued, last, diedAt, loose) {
      assert id != last ==> SpawnPointOk(id, npcs, spawnInfo, templates, all, lastId, diedAt, loose);
    }
  }

  // ---------- Numbers the handlers use ----------

  function MinReal(a: real, b: real): (r: real)
    ensures r <= a && r <= b && (r == a || r == b)
  {
    if a > b then b else a
  }

  function MaxReal(a: real, b: real): (r: real)
    ensures r >= a && r >= b && (r == a || r == b)
  {
    if a < b then b else a
  }

  /** A living player loses hit points, down to none. */
  function Damaged(p: Player, damage: int): Player {
    if p.hp <= 0.0 then p else p.(hp := MaxReal(0.0, p.hp - damage as real))
  }

  /** An NPC loses hit points, down to none. */
  function Wounded(n: Npc, damage: int): Npc { n.(hp := MaxReal(0.0, n.hp - damage as real)) }

  function DeadWithoutHp(n: Npc): Npc { n.(dead := n.dead || n.hp == 0.0) }

  /** A living player gains hit points, mana and CP, up to its maxima. */
  function Restored(p: Player, hpGain: int, mpGain: int, cpGain: int): Player {
    if p.hp <= 0.0 then p else
    var a := if hpGain > 0 then p.(hp := MinReal(p.hp + hpGain as real, p.maxHp as real)) else p;
    var b := if mpGain > 0 then a.(mp := MinReal(a.mp + mpGain as real, a.maxMp as real)) else a;
    if cpGain > 0 then b.(cp := if b.cp + cpGain > b.maxCp then b.maxCp else b.cp + cpGain) else b
  }

  type Amount = r: real | r >= 0.0

  datatype Gain = Gain(hp: Amount, mp: Amount, cp: nat)

  /** Regeneration of a living player, up to its maxima. */
  ghost function Regenerated(p: Player, g: Gain): Player {
    if p.hp <= 0.0 then p else
    p.(hp := if p.hp + g.hp <= p.maxHp as real then p.hp + g.hp else p.maxHp as real,
       mp := if p.mp + g.mp <= p.maxMp as real then p.mp + g.mp else p.maxMp as real,
       cp := if p.cp + g.cp <= p.maxCp then p.cp + g.cp else p.maxCp)
  }

  ghost function RegeneratedAll(players: map<int, Player>, gains: map<int, Gain>): map<int, Player> {
    map who | who in players :: if who in gains then Regenerated(players[who], gains[who]) else players[who]
  }

  lemma SamePlayers(a: map<int, Player>, b: map<int, Player>)
    requires a.Keys == b.Keys && forall who :: who in a ==> a[who] == b[who]
    ensures a == b
  {
    assert forall who :: who in b ==> b[who] == a[who];
  }

  /** The sums of an effect's ticks. */
  datatype Round = Round(charId: int, hp: int, mp: int)

  /** A round on a living player: gains restore, a loss of hit points stops at one, a loss of mana does nothing. */
  function Ticked(p: Player, r: Round): Player {
    if p.hp <= 0.0 then p else
    var q := Restored(p, if r.hp > 0 then r.hp else 0, if r.mp > 0 then r.mp else 0, 0);
    if r.hp < 0 then q.(hp := MaxReal(1.0, q.hp + r.hp as real)) else q
  }

  function Level(p: Player, skillId: int): int { if skillId in p.knownSkills then p.knownSkills[skillId] else 0 }

  function Taught(p: Player, skillId: int, level: int): Player {
    p.(knownSkills := p.knownSkills[skillId := level])
  }

  /** The second cost of a cast, taken if there is enough; it does not decide about the effects. */
  function Paid(p: Player, cost: nat): Player {
    if cost > 0 && p.mp.Floor >= cost then p.(mp := p.mp - cost as real) else p
  }

  /** What effects, reuse timers, positions and flags decide about a cast request. */
  datatype Checks = Checks(toggledOff: bool, onReuse: bool, inRange: bool, pvpAllowed: bool)

  // ---------- What a skill does ----------

  /** A town escape with a respawn point drops the caster's target; without an escape a player target is restored. */
  function Soothed(players: map<int, Player>, caster: int, target: int, p: Powers, escape: Option<bool>,
                   rolls: Rolls): map<int, Player>
    requires caster in players
  {
    if escape == Some(true) && rolls.respawnPoint then players[caster := players[caster].(target := 0)]
    else if escape == None && (p.hp > 0 || p.mp > 0 || p.cp > 0) && target in players
    then players[target := Restored(players[target], p.hp, p.mp, p.cp)]
    else players
  }

  /** A living player takes the damage of all parts at once. */
  function Harmed(players: map<int, Player>, caster: int, target: int, p: Powers, rolls: Rolls): map<int, Player>
    requires caster in players && target in players
  {
    if players[target].hp <= 0.0 then players
    else Drained(players[target := Damaged(players[target], rolls.Damage(p))], caster, p, rolls)
  }

  /** Half of what was drained heals a caster that lives. */
  function Drained(players: map<int, Player>, caster: int, p: Powers, rolls: Rolls): map<int, Player>
    requires caster in players
  {
    if p.drain > 0 && players[caster].hp > 0.0
    then players[caster := Restored(players[caster], rolls.drain / 2, 0, 0)] else players
  }

  /** The heal is half of what was drained, rounded down, unless the maximum stops it. */
  lemma DrainHealsHalf(players: map<int, Player>, caster: int, p: Powers, rolls: Rolls)
    requires caster in players && 0.0 < players[caster].hp <= players[caster].maxHp as real
    requires p.drain > 0 && rolls.Valid()
    ensures var after := Drained(players, caster, p, rolls);
      && after == players[caster := players[caster].(hp := after[caster].hp)]
      && var gain := after[caster].hp - players[caster].hp;
        && gain >= 0.0
        && (after[caster].hp == players[caster].maxHp as real || gain + gain == rolls.drain as real
            || gain + gain + 1.0 == rolls.drain as real)
  {}

  /** An NPC takes the parts one after the other; dying of one does not spare it the next. */
  function Struck(n: Npc, p: Powers, rolls: Rolls): Npc {
    var a := Pierced(n, p, rolls);
    if p.drain > 0 then DeadWithoutHp(Wounded(a, rolls.drain)) else a
  }

  /** The same of the parts that drain nothing. */
  function Pierced(n: Npc, p: Powers, rolls: Rolls): Npc {
    var a := if p.magic > 0 then DeadWithoutHp(Wounded(n, rolls.magic)) else n;
    if p.physical > 0 then DeadWithoutHp(Wounded(a, rolls.physical)) else a
  }

  lemma WoundsHurt(n: Npc, damage: int)
    requires damage >= 0
    ensures DeadWithoutHp(Wounded(n, damage)).hp > 0.0 ==> n.hp > 0.0
  {}

  ghost predicate Hurts(p: Powers) { p.magic > 0 || p.physical > 0 || p.drain > 0 }

  /** A skill that does damage does it to a player other than the caster, or else to an NPC that is not dead. */
  ghost predicate HitsNpc(players: map<int, Player>, npcs: map<int, Npc>, caster: int, target: int, skill: Skill) {
    && skill.operateType !in {A2, A3, A4, DA2, Toggle} && Gathered(skill.effects).1.None?
    && Hurts(Gathered(skill.effects).0)
    && !(target in players && target != caster) && target in npcs && !npcs[target].dead
  }

  /** The players after a skill, but for awards. */
  ghost function PlayersAfter(players: map<int, Player>, npcs: map<int, Npc>, caster: int, target: int, skill: Skill,
                        rolls: Rolls): map<int, Player>
    requires caster in players
  {
    if skill.operateType in {A2, A3, A4, DA2, Toggle} then players else
    var (p, escape) := Gathered(skill.effects);
    var soothed := Soothed(players, caster, target, p, escape, rolls);
    if HitsNpc(players, npcs, caster, target, skill) then Drained(soothed, caster, p, rolls)
    else if escape.None? && Hurts(p) && target in players && target != caster
    then Harmed(soothed, caster, target, p, rolls) else soothed
  }

  ghost function NpcsAfter(players: map<int, Player>, npcs: map<int, Npc>, caster: int, target: int, skill: Skill,
                     rolls: Rolls): map<int, Npc> {
    if HitsNpc(players, npcs, caster, target, skill)
    then npcs[target := Struck(npcs[target], Gathered(skill.effects).0, rolls)] else npcs
  }

  /** What a skill does to players and NPCs; an NPC that dies of it may level up anybody. */
  ghost predicate SkillDone(players: map<int, Player>, npcs: map<int, Npc>, after: map<int, Player>,
                            npcsAfter: map<int, Npc>, caster: int, target: int, skill: Skill, rolls: Rolls)
    requires caster in players
  {
    && npcsAfter == NpcsAfter(players, npcs, caster, target, skill, rolls)
    && var computed := PlayersAfter(players, npcs, caster, target, skill, rolls);
      if HitsNpc(players, npcs, caster, target, skill) && npcsAfter[target].hp <= 0.0
      then Awarded(computed, after) else after == computed
  }

  /** A damaging skill takes hit points from exactly its target: a living player is left with fewer. */
  lemma HarmTakesHitPoints(players: map<int, Player>, caster: int, target: int, p: Powers, rolls: Rolls)
    requires caster in players && target in players && caster != target && p.Damages() && rolls.Valid()
    requires players[target].hp > 0.0
    ensures var after := Harmed(players, caster, target, p, rolls);
      && 0.0 <= after[target].hp < players[target].hp
      && (players[caster].hp <= players[caster].maxHp as real ==> after[caster].hp >= players[caster].hp)
      && after.Keys == players.Keys && forall who :: who in players && who != caster && who != target ==>
        after[who] == players[who]
  {}

  /** One player's attack stops. */
  function Stopped(combat: map<int, Combat>, who: int): map<int, Combat> {
    if who in combat then combat[who := combat[who].(autoAttacking := false)] else combat
  }

  /** The NPC attacks on one player stop. */
  function LeftAlone(npcCombat: map<int, int>, who: int): map<int, int> {
    map n | n in npcCombat && npcCombat[n] != who :: npcCombat[n]
  }

  /** A case of a second cost that nobody pays: the mana was lost during the cast, and the heal comes all the same. */
  lemma UnpaidHeal()
    ensures var skill := Skill(A1, true, false, 0, 0, 5, 1000, [ScopedEffect(GeneralScope, Heal(10))]);
      var p := Player(1.0, 100, 0.0, 100, 0, 0, None, 0, map[]);
      var after := PlayersAfter(map[1 := Paid(p, skill.mpConsume2)], map[], 1, 1, skill, Rolls(false, 1, 1, 1));
      after[1] == p.(hp := 11.0)
  {
    var heal := ScopedEffect(GeneralScope, Heal(10));
    assert [heal][..0] == [];
    assert Gathered([heal]) == (NO_POWERS.(hp := 10), None);
  }

  /** An attacker of the given target stops. */
  function Released(c: Combat, target: int): Combat { if c.target == target then c.(autoAttacking := false) else c }

  // ---------- Awards ----------

  /** A level-up gives new maxima of hit points, at least one, and of mana, and fills both up. */
  ghost predicate Refilled(p: Player, q: Player) {
    q.maxHp >= 1 && q == p.(maxHp := q.maxHp, maxMp := q.maxMp, hp := q.maxHp as real, mp := q.maxMp as real)
  }

  /** A level-up by its new maxima. */
  ghost function FilledUp(p: Player, maxHp: int, maxMp: nat): Player {
    if maxHp < 1 then p.(maxHp := 1, hp := 1.0, maxMp := maxMp, mp := maxMp as real)
    else p.(maxHp := maxHp, hp := maxHp as real, maxMp := maxMp, mp := maxMp as real)
  }

  /** Some players may have levelled up, and nothing else has changed. */
  ghost predicate Awarded(a: map<int, Player>, b: map<int, Player>) {
    a.Keys == b.Keys && forall who :: who in a ==> b[who] == a[who] || Refilled(a[who], b[who])
  }

  lemma NobodyAwarded(a: map<int, Player>)
    ensures Awarded(a, a)
  {}

  lemma AwardedTwice(a: map<int, Player>, b: map<int, Player>, c: map<int, Player>)
    requires Awarded(a, b) && Awarded(b, c)
    ensures Awarded(a, c)
  {
    forall who | who in a ensures c[who] == a[who] || Refilled(a[who], c[who]) {
      assert b[who] == a[who] || Refilled(a[who], b[who]);
      assert c[who] == b[who] || Refilled(b[who], c[who]);
    }
  }

  /** Levelled up or not, a caster heals by what it drains. */
  lemma AwardedDrained(a: map<int, Player>, b: map<int, Player>, caster: int, p: Powers, rolls: Rolls)
    requires Awarded(a, b) && caster in a
    ensures Awarded(Drained(a, caster, p, rolls), Drained(b, caster, p, rolls))
  {}

  lemma DrainedSameCasts(a: map<int, Player>, b: map<int, Player>, caster: int, p: Powers, rolls: Rolls)
    requires caster in a && Awarded(Drained(a, caster, p, rolls), b)
    ensures SameCasts(a, b)
  {}

  lemma HarmedSameCasts(players: map<int, Player>, caster: int, target: int, p: Powers, rolls: Rolls)
    requires caster in players && target in players
    ensures SameCasts(players, Harmed(players, caster, target, p, rolls))
  {}

  lemma AwardedSameCasts(a: map<int, Player>, b: map<int, Player>)
    requires Awarded(a, b)
    ensures SameCasts(a, b)
  {}

  /** Every player casts what it cast before. */
  ghost predicate SameCasts(a: map<int, Player>, b: map<int, Player>) {
    a.Keys == b.Keys && forall who :: who in a ==> a[who].casting == b[who].casting
  }

  /** The time between swings: 500000 / pAtkSpd milliseconds, floored at 100 (combat.go). */
  function CalcAttackSpeed(pAtkSpd: int): (ms: int)
    ensures ms >= 100
  {
    var ms := 500000 / (if pAtkSpd <= 0 then 1 else pAtkSpd);
    if ms < 100 then 100 else ms
  }

  lemma QuotientNotNegative(a: real, b: real)
    requires a >= 0.0 && b > 0.0
    ensures a / b >= 0.0
  {}

  /** Cast duration: (hitTime / speed) * 333 ms, truncated, at least 500 ms when hitTime > 500. */
  function CastTime(hitTime: int, speed: int): (d: Time)
    ensures d >= 0
    ensures hitTime <= 0 ==> d == 0
    ensures hitTime > 500 ==> d >= 500 * MILLISECOND
  {
    if hitTime <= 0 then 0 else
    var s := if speed < 1 then 1 else speed;
    QuotientNotNegative(hitTime as real, s as real);
    var ms := (hitTime as real / s as real) * 333.0;
    var ms' := if ms < 500.0 && hitTime > 500 then 500.0 else ms;
    ms'.Floor * MILLISECOND
  }

  lemma QuotientExact(n: int, d: int, q: int)
    requires d > 0 && q == n / d
    ensures q * d <= n < (q + 1) * d
  {
    assert n == q * d + n % d;
  }

  lemma ProductsOrdered(a: int, b: int, d: int)
    requires a <= b && d > 0
    ensures a * d <= b * d
  {}

  /** The whole number of milliseconds, rounded down, but for the floor. */
  lemma AttackSpeedExact(pAtkSpd: int)
    ensures var ms, speed := CalcAttackSpeed(pAtkSpd), if pAtkSpd < 1 then 1 else pAtkSpd;
      if 100 * speed > 500_000 then ms == 100 else ms * speed <= 500_000 < (ms + 1) * speed
  {
    var speed := if pAtkSpd < 1 then 1 else pAtkSpd;
    var q := 500_000 / speed;
    QuotientExact(500_000, speed, q);
    if q < 100 { ProductsOrdered(q + 1, 100, speed); } else { ProductsOrdered(100, q, speed); }
  }

  /** Whole milliseconds of 333 hit times a speed, rounded down; a long hit time takes 500 ms at least. */
  lemma CastTimeExact(hitTime: int, speed: int) returns (ms: int)
    requires hitTime > 0
    ensures CastTime(hitTime, speed) == ms * 1_000_000
    ensures var n, s := 333.0 * hitTime as real, if speed < 1 then 1.0 else speed as real;
      if hitTime > 500 && n < 500.0 * s then ms == 500 else 0.0 <= n - ms as real * s < s
  {
    var s := if speed < 1 then 1.0 else speed as real;
    var r := hitTime as real / s * 333.0;
    ms := if r < 500.0 && hitTime > 500 then 500 else r.Floor;
    assert CastTime(hitTime, speed) == ms * 1_000_000;
    hide CastTime;
    Scaled(hitTime as real, s, r);
    QuotientClamped(333.0 * hitTime as real, s, r, hitTime > 500, ms);
  }

  lemma QuotientClamped(n: real, s: real, r: real, long: bool, ms: int)
    requires s > 0.0 && r * s == n && ms == if r < 500.0 && long then 500 else r.Floor
    ensures if long && n < 500.0 * s then ms == 500 else 0.0 <= n - ms as real * s < s
  {
    Clamped(n, r, s, long, ms);
  }

  /** Products by name, which keeps their arithmetic out of the reasoning about orders. */
  ghost function Times(a: real, b: real): real { a * b }

  lemma Clamped(n: real, r: real, s: real, long: bool, ms: int)
    requires s > 0.0 && Times(r, s) == n && ms == if r < 500.0 && long then 500 else r.Floor
    ensures if long && n < Times(500.0, s) then ms == 500 else 0.0 <= n - Times(ms as real, s) < s
  {
    hide Times;
    Ordered(r, 500.0, s);
    if !(long && r < 500.0) { RoundedDown(ms as real, r, s); }
  }

  lemma RoundedDown(low: real, r: real, s: real)
    requires s > 0.0 && low <= r < low + 1.0
    ensures 0.0 <= Times(r, s) - Times(low, s) < s
  {
    Ordered(low, r, s);
    Ordered(r - low, 1.0, s);
    assert Times(r - low, s) == Times(r, s) - Times(low, s);
  }

  lemma Scaled(a: real, s: real, ms: real)
    requires s > 0.0 && ms == (a / s) * 333.0
    ensures ms * s == 333.0 * a
  {}

  lemma Ordered(a: real, b: real, s: real)
    requires s > 0.0
    ensures a < b <==> Times(a, s) < Times(b, s)
    ensures a <= b <==> Times(a, s) <= Times(b, s)
  {}
}
