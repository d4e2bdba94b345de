# L2Go server: a model in Dafny

This project models five connected parts of the L2Go game server and proves what each of them keeps
over every run.

- **The game loop** (`Events`, `EventQueue`, `Skills`, `LoopState`, `LoopEffects`, `GameLoop`): a heap of timed
  events, casts, combat, NPC deaths and respawns. What each event and each command does is written out in
  `LoopEffects`, and every run of the loop is proved to be such steps one after the other. A tick ends although handlers schedule more events, because a
  weighted count of due events shrinks. A casting player has exactly one queued hit, a cast applies at most
  once and never after it was cut, cast ids are never reused, and the multiset of spawn records never changes.
  Every attack, NPC attack and approach under way has its next event queued; after every tick no corpse or
  empty spawn point is older than its delay allows, and a combat stance is sure to end exactly unless it began
  without an attack of the player's own and none was accepted since.
- **Visibility and regions** (`Visibility`, `Regions`): who is spawned on whose client, with hysteresis
  between two radii, and reference counts of the active cells. Over every run all ties are in order but those of
  ids that a missing removal, a missing disconnect or a second entry has made loose.
- **The world registry** (`Geometry`, `WorldRegistry`, `TargetIndex`): the packed-cell grid and the reverse
  target index, each against a plain scan.
- **Effects and stats** (`Effects`, `Stats`, `BuffLoop`): stacking rules on a list changed in place, derived
  modifiers, the memo of computed stats, and sweeps over tracked players against sweeps over all.
- **The wire** (`Bytewise`, `Words`, `Feistel`, `KeySchedule`, `Blocks`, `Checksum`, `XorPass`, `PassExact`,
  `Frames`, `InitFrame`, `Transport`, `Blowfish`, `Packet`): the cipher, the checksum, the running-key pass, the
  frames between the servers and to the client, and the typed packets.
- **The inventory** (`Items`, `Stock`, `ItemReuse`, `Inventory`): equipping with slot conflicts, consumables
  and their rewards, the change list sent to the client, and reuse cooldowns. Over every run the amounts of
  all items balance against the uses that consumed, and the client's copy is its character's items.

Code that updates state in place is modelled by classes whose methods are proved against functions on
values; the properties are lemmas about those functions and invariants of the classes. Positions, rolls and
stats that only pick branches in the game loop are nondeterministic choices there. The clock is a parameter
or an integer whose readings never decrease. Packets sent matter only where a client's view is at stake:
`Visibility` keeps what each client shows. The modules of the wire are written for any type of words and
bytes that obeys the laws stated in them, which keeps single bits out of the proofs; `Words` proves the laws
of 32-bit words, and `Blowfish` puts in the real round function and keys. The heap operations follow
`container/heap` of Go's standard library, which the queue calls.

Where the code does not keep what its comments or its design suggest, the model follows the code and proves
exactly when it does, or what it does instead, with a case of it:

- A combat stance ends by itself exactly if the player had an attack, under way or lately stopped, when it began,
  or had one accepted since. An NPC's hit on a player who does not attack begins a stance that no timeout ends;
  while it lasts, logging out and restarting are refused (`LoopState.StancesSettled`,
  `GameLoop.Loop.HitWithoutAttack`).
- A restart that is refused has already sent the disconnect command, and the player stays. Its effects and flag
  are then swept no longer, exactly if it has any, until it takes a new one (`BuffLoop.Loop.HandleDisconnect`,
  `BuffLoop.LostExactly`, `BuffLoop.Loop.RefusedRestart`). It sees others that do not see it, exactly if it knew
  any, until a reconcile puts each of its ties in order (`Visibility.Loop.HandleDisconnect`,
  `Visibility.Loop.Reconcile`, `Visibility.Loop.RefusedRestart`).
- A return to the lobby removes the player without the disconnect command: others go on knowing it, exactly if they
  did, and are not sent it again when it comes back (`Visibility.Loop.HandleLobby`,
  `Visibility.Loop.LobbyAndBack`). The sweeps of effects and flags are none the worse for it
  (`BuffLoop.Loop.LeaveToLobby`).
- A live id that is added to the world again is known by players it does not know, exactly if it knew any
  (`Visibility.Loop.HandleJoin`, `Visibility.Loop.JoinWithoutLeaving`).
- A recast that is turned away by a stronger effect has already displaced its own former instance, and the
  stats are not rebuilt. This happens only for a skill whose abnormal type differs by level
  (`Stats.BuffedModsOk`, `Stats.SpoilingExample`).
- An attack has a single chain of swings exactly if no swing at the same target was still queued when it began;
  attacking, cancelling and attacking again makes two. Over every run no other attacker has more than one
  (`LoopState.ChainBegins`, `GameLoop.Loop.AttackCancelAttack`, `GameLoop.Loop.Run`).
- A stance timeout that finds a recent swing is not rescheduled, although a comment says so; a later one is
  always queued already, so the stance still ends (`LoopState.StancesSettled`, `LoopState.EarlyTimeout`).
- Full armour excludes leg armour except for leg armour put on second (`Items.SuitsAfterEquip`,
  `Items.LegsUnderSuit`).
- The award of an NPC's death does not ask whether a player lives: whom it levels up is alive again, and nothing
  else in a tick brings a dead player back (`LoopEffects.RaisedByLevelUp`, `LoopEffects.RaisedByLevelUpOnly`).
- A lack of mana for the second cost of a cast does not cancel its effects (`GameLoop.Loop.LandCast`,
  `LoopState.UnpaidHeal`).
- Items of one reuse group wait for each other only if the later item has a delay of its own
  (`Inventory.GroupSpacingExact`, `Inventory.UndelayedGroupExample`).
- An empty packet sent by `SendStatic` comes back with the random key in it (`Blowfish.FirstPacket`,
  `Blowfish.EmptyFirstPacket`).
- The pass backwards undoes the running-key pass, from 12 bytes on, exactly for sizes of whole words
  (`Blowfish.PassRestoresExactly`, `Blowfish.ZerosNotRestored`).
- A frame that does not fit a 16-bit length is not received as sent (`Frames.PacketRoundTrip`,
  `Frames.LongPacketLost`).
- The login server's `GameServer.Receive` hands on the four checksum bytes, the game server's `Receive` does
  not (`Transport.ServersAgree`).
- `SetPlayerTarget` indexes a target even for a player that is not in the world, so that adding the player
  later leaves an indexed target it does not have (`WorldRegistry.Registry.AddPlayer`,
  `WorldRegistry.Registry.TargetBeforeEntry`).
- The grid query is exact although cell keys collide beyond 32 bits: the distance is checked again
  (`WorldRegistry.PackRegionCollides`, `WorldRegistry.Registry.GetPlayersInRange`).

## Model

| member | source | states |
|---|---|---|
| `EventQueue.Queue.Schedule` | internal/gameserver/gameloop/eventqueue.go:47-49 | the heap holds one event more, stays ordered, and the work due grows by exactly what the event can cause |
| `EventQueue.Queue.Peek` | internal/gameserver/gameloop/eventqueue.go:52-57 | none exactly when the queue is empty, otherwise an event no later than any other |
| `EventQueue.Queue.PopEvent` | internal/gameserver/gameloop/eventqueue.go:60-65 | takes out one event of least time and keeps the rest as the same multiset, in heap order |
| `EventQueue.Queue.Up` | internal/gameserver/gameloop/eventqueue.go:47-49 | sift-up mends the one spot where the heap order is broken and keeps the contents |
| `EventQueue.Queue.Down` | internal/gameserver/gameloop/eventqueue.go:60-65 | sift-down mends the root and keeps the contents |
| `EventQueue.RootIsEarliest` | internal/gameserver/gameloop/eventqueue.go:23-25 | parent-child order makes the root the earliest of all events |
| `Events.DueWorkPermuted` | internal/gameserver/gameloop/gameloop.go:319-329 | the work still due in a tick depends on what is queued, not on its order in the heap |
| `Events.NoDueWork` | internal/gameserver/gameloop/gameloop.go:319-329 | no work due means exactly that nothing queued is due |
| `GameLoop.Loop.Execute` | internal/gameserver/gameloop/gameloop.go:319-329 | every kind of event has its effect, written out relative to the state before, with everything it does not name unchanged: a hit takes its damage from a living target and kills it without hit points, a swing, a retry, a decay, a respawn and a timeout do exactly theirs, a cast that lands is applied; what the handler schedules is later than `now` or of lower rank; all invariants hold |
| `GameLoop.Loop.ExecuteNext` | internal/gameserver/gameloop/gameloop.go:319-329 | takes an earliest event that is due off the queue, and it has its effect on what is left; the work due strictly shrinks and nothing queued is earlier than it |
| `GameLoop.Loop.PopNext` | internal/gameserver/gameloop/gameloop.go:322-327 | exactly one event leaves the queue, an earliest one; only what it is the heartbeat of waits for its execution |
| `GameLoop.Loop.ExecuteDueEvents` | internal/gameserver/gameloop/gameloop.go:319-329 | the loop ends although handlers schedule more; every event that ran was due, an earliest one, and had its effect on the state its predecessor left, mid-tick ones included; nothing due is left |
| `GameLoop.Loop.ExecuteTick` | internal/gameserver/gameloop/gameloop.go:307-330 | a tick obeys the pending commands one by one, reads the clock, and then executes what is due one by one, each with its effect; afterwards no queued event is due, every cast in progress still waits for a hit, an in-combat player's stance is sure to end exactly if it is not stuck, no corpse outlives its death by 7 seconds, and no spawn point is empty 60 seconds after a death |
| `GameLoop.Loop.Run` | internal/gameserver/gameloop/gameloop.go:187-304 | over any interleaving of commands, ticks, regeneration and effect rounds: each has its effect on the state the one before left, and all invariants hold: issued cast ids with what they were issued for, the spawn records as a multiset, a next event queued for every attack, NPC attack and approach under way, one chain of swings per attacker and target unless an attack was accepted anew with a swing still queued, and never more living NPCs with a record than spawn points that hold it |
| `GameLoop.Loop.Serve` | internal/gameserver/gameloop/gameloop.go:205-253 | a command is obeyed, a tick runs, regeneration and effect rounds reach exactly the living players they are for |
| `GameLoop.Loop.ProcessCommand` | internal/gameserver/gameloop/gameloop.go:372-409 | every kind of command has its effect, written out relative to the state before, with everything it does not name unchanged; it keeps the cast, spawn, stance and heartbeat invariants; the histories only grow, and no spawn record changes |
| `GameLoop.Loop.DrainCommands` | internal/gameserver/gameloop/gameloop.go:308-316 | the pending commands are obeyed one by one, each on the state the one before left |
| `LoopState.CalcAttackSpeed` | internal/gameserver/gameloop/combat.go:7-16 | swings are at least 100 ms apart whatever the attack speed, the floor the tick's termination rests on |
| `LoopState.AttackSpeedExact` | internal/gameserver/gameloop/combat.go:7-16 | the time between swings is 500000 ms by the attack speed, rounded down, or 100 ms if that is less |
| `LoopState.CastTime` | internal/gameserver/gameloop/cast.go:181-198 | a cast takes no negative time, none for hit time zero, and at least 500 ms for hit times over 500 |
| `LoopState.CastTimeExact` | internal/gameserver/gameloop/cast.go:181-198 | the cast time is 333 ms times the hit time by the speed, rounded down to milliseconds; 500 ms if that is less and the hit time is over 500 |
| `GameLoop.Loop.HandleCastRequest` | internal/gameserver/gameloop/cast.go:22-164 | the guards are tried in their order, and what each of them lets happen, or prevents, is said exactly: nothing, an approach, a toggle that only pays, or a timed cast with its first cost paid, a new id and a queued hit; earlier ids stay as issued |
| `LoopEffects.RequestAdmitted` | internal/gameserver/gameloop/cast.go:22-164 | a timed cast begins if and only if the guards admit it: known castable skill, not on reuse, living idle caster, valid target in range that may be attacked, mana for both costs; a toggle pays under the same guards; otherwise no player changes |
| `LoopEffects.RequestRefused` | internal/gameserver/gameloop/cast.go:45-112 | a request that the guards turn away changes no player, no NPC and no history of casts |
| `GameLoop.Loop.RequestSkill` | internal/gameserver/gameloop/cast.go:57-112 | a known skill that is passive, toggled off, on reuse or without a target does nothing; one out of range begins an approach; any other ends the approach and is cast if the target may be attacked |
| `GameLoop.Loop.BeginCast` | internal/gameserver/gameloop/cast.go:108-164 | without mana for both costs nothing changes; with it a toggle pays and casts nothing, and any other skill pays its first cost and begins its cast |
| `GameLoop.Loop.TimeCast` | internal/gameserver/gameloop/cast.go:135-163 | the cast has a new id, and its hit is queued for when its cast time is over |
| `GameLoop.Loop.IssueCast` | internal/gameserver/gameloop/cast.go:138-163 | the id is new to the whole history and bound to one hit time and caster |
| `GameLoop.Loop.AbortCast` | internal/gameserver/gameloop/cast.go:263-270 | the caster is idle, and the cut cast is on record as one that never applies |
| `GameLoop.Loop.ExecuteCastHit` | internal/gameserver/gameloop/cast.go:281-315 | a hit whose cast was aborted or superseded changes nothing; otherwise the cast ends, and applies, this once, exactly if its caster lives and its skill exists: the second cost is taken if there is mana for it, and players, NPCs, attacks and stances change exactly as the skill says, but for whom an NPC's death levels up |
| `GameLoop.Loop.CompleteCast` | internal/gameserver/gameloop/cast.go:281-297 | the hit ends the cast it finds, and applies it exactly if it lands |
| `GameLoop.Loop.LandCast` | internal/gameserver/gameloop/cast.go:299-314 | the second cost is taken if there is mana for it, and the effects follow either way: on exactly the players and NPCs the skill says, but for whom an NPC's death levels up |
| `LoopState.UnpaidHeal` | internal/gameserver/gameloop/cast.go:299-311 | a heal comes although nobody has the mana for its second cost |
| `GameLoop.Loop.StartCastApproach` | internal/gameserver/gameloop/cast.go:205-227 | a repeated request for the same skill changes nothing; any other becomes the pending one, gives up an attack or an approach to talk, and is checked first after 300 ms |
| `GameLoop.Loop.ExecuteCastApproach` | internal/gameserver/gameloop/events.go:28-84 | a superseded approach changes nothing at all, one of a caster who is gone, dead, busy or aims elsewhere only ends; out of range it is checked again after 400 ms, and an arrival ends it and makes the request |
| `GameLoop.Loop.ArriveToCast` | internal/gameserver/gameloop/events.go:78-83 | on arrival the approach is over and the request is handled as if it had just come in |
| `GameLoop.Loop.Gather` | internal/gameserver/gameloop/cast.go:329-354 | the powers are the sums over the effects of general or self scope before the first Escape, which suppresses everything else |
| `Skills.GatheredSums` | internal/gameserver/gameloop/cast.go:329-354 | without an Escape that counts, each sum is over the effects of its own kind in general or self scope: heals for hit points, mana and CP apart, and magical, physical and draining power apart |
| `Skills.EscapeEnds` | internal/gameserver/gameloop/cast.go:334-340 | nothing behind the first Escape that counts has any effect, whatever it is |
| `GameLoop.Loop.ApplySkillEffects` | internal/gameserver/gameloop/cast.go:321-421 | effects start no cast; a buff changes nothing here, a town escape with a respawn point drops the caster's target and ends its attack, restoring reaches players, and damage takes hit points of exactly the target: a living player, or else an NPC that is not dead, dying of one part not sparing it the next; whom it kills is attacked no longer; a drain heals its caster; only an NPC's death changes anything more, by filling up whom it levels up |
| `LoopState.AwardedDrained` | internal/gameserver/gameloop/cast.go:413-420 | whether or not the kill levels anybody up, a caster heals by what it drains |
| `LoopState.DrainHealsHalf` | internal/gameserver/gameloop/cast.go:396-420 | a draining caster gains half of what it drained, rounded down, up to its maximum |
| `GameLoop.Loop.AwardExp` | internal/gameserver/gameloop/experience.go:61-108 | whoever levels up gets new maxima and full hit points and mana; nothing else changes |
| `LoopState.HarmTakesHitPoints` | internal/gameserver/gameloop/cast.go:372-400 | a damaging skill leaves its living target with fewer hit points and never a negative number, costs its caster none, and touches nobody else |
| `GameLoop.Loop.HandleItemSkillCast` | internal/gameserver/gameloop/restore.go:56-79 | an item's skill takes effect at once on its living user, exactly as a cast on itself would |
| `LoopState.CastStarted` | internal/gameserver/gameloop/cast.go:138-163 | a new id keeps every cast bound to exactly one queued hit |
| `LoopState.HitLanded` | internal/gameserver/gameloop/cast.go:281-290 | a landing hit's cast has neither applied nor been cut, and may now apply |
| `LoopState.StaleHitPopped` | internal/gameserver/gameloop/cast.go:281-285 | nobody waits for a stale hit |
| `LoopState.CastDropped` | internal/gameserver/gameloop/cast.go:263-270 | an aborted or departed caster's cast never applies later |
| `LoopState.ExactlyOneHitQueued` | internal/gameserver/gameloop/cast.go:159-163 | casting never wedges: a casting player has exactly one queued hit with its cast id |
| `GameLoop.Loop.RegisterWorldSpawns` | internal/gameserver/gameloop/gameloop.go:174-184 | every NPC loaded becomes a spawn point with its own record |
| `GameLoop.Loop.QueueDeath` | internal/gameserver/gameloop/gameloop.go:641-677 | by one reading of the clock exactly the decay and the later respawn are queued, also for an NPC that is dead already |
| `GameLoop.Loop.DealDamageToNpc` | internal/gameserver/gameloop/events.go:398-430 | a wound that leaves hit points takes exactly the damage, and the NPC turns on somebody within 500 ms; any other kills: by one reading of the clock the decay is queued 7 s and the respawn 60 s later, all attacks on the NPC and its own stop, and players change by its death's awards only |
| `GameLoop.Loop.LetGo` | internal/gameserver/gameloop/gameloop.go:650-657 | exactly the attacks on the dead NPC stop, it attacks nobody, and nothing leaves the queue |
| `GameLoop.Loop.ExecuteHit` | internal/gameserver/gameloop/events.go:373-392 | a living target player loses exactly the damage, down to zero, with both weapons drawn, and dies without hit points; an NPC that is not dead loses it and is dead at zero; nothing else takes damage |
| `GameLoop.Loop.ExecuteCorpseDecay` | internal/gameserver/gameloop/events.go:488-505 | the corpse is gone and the spawn point still has its respawn |
| `GameLoop.Loop.ExecuteRespawn` | internal/gameserver/gameloop/events.go:440-478 | the corpse is already gone; exactly one living NPC with a new id takes over the record, or, if an earlier respawn took it, nothing changes |
| `GameLoop.Loop.ExecuteCombatStanceTimeout` | internal/gameserver/gameloop/events.go:515-558 | the attack's record and the in-combat flag go exactly when the attack has stopped and the last swing is 15 seconds ago, and nothing else changes; a timeout that comes too early is never the last one |
| `LoopState.EarlyTimeout` | internal/gameserver/gameloop/events.go:515-558 | a timeout that finds a swing of 7 seconds ago is not missed: the later one is queued |
| `GameLoop.Loop.EnterCombatStance` | internal/gameserver/gameloop/gameloop.go:603-618 | a player in the world is then in combat; the history gains a beginning, with or without an attack of its own, exactly if it was not |
| `GameLoop.Loop.HitWithoutAttack` | internal/gameserver/gameloop/npc_combat.go:171-208 | an NPC's hit on a player who has not attacked begins a stance that no queued event ends |
| `LoopState.StanceBegins` | internal/gameserver/gameloop/gameloop.go:611-618 | a beginning keeps the flags and the stuck stances as the history has them |
| `LoopState.StanceAttacks` | internal/gameserver/gameloop/gameloop.go:412-480 | an accepted attack does too: a stuck stance is stuck no longer |
| `LoopState.StanceTimesOut` | internal/gameserver/gameloop/events.go:519-540 | so does a timeout, which takes the attack's record along |
| `LoopState.StanceClears` | internal/gameserver/gameloop/npc_combat.go:221-224 | so does a death |
| `LoopState.BegunStuck` | internal/gameserver/gameloop/npc_combat.go:176-179 | a hit on a player who does not attack begins a stuck stance |
| `LoopState.StuckStays` | internal/gameserver/gameloop/gameloop.go:621-633 | it stays stuck, whatever happens to others, until that player attacks, dies or enters anew |
| `LoopState.SpawnsOkDeath` | internal/gameserver/gameloop/gameloop.go:641-677 | a death, even a second one, keeps every spawn point alive or due to respawn |
| `LoopState.Decayed` | internal/gameserver/gameloop/events.go:488-505 | a decay removes corpses only |
| `LoopState.CorpseGoneByRespawn` | internal/gameserver/gameloop/events.go:440-478 | the earliest event being a respawn, its corpse has decayed |
| `LoopState.Respawned` | internal/gameserver/gameloop/events.go:440-472 | the new NPC holds the record of the old id, and the multiset of records is the same |
| `LoopState.RespawnSkipped` | internal/gameserver/gameloop/events.go:446-449 | a second respawn, which finds no record, leaves every spawn point alive or due to respawn |
| `LoopState.KnownTemplate` | internal/gameserver/service.go:328-346 | every spawn point is of a known template, since only NPCs with a template are spawned and respawns keep the record |
| `LoopState.NoSharedRecord` | internal/gameserver/gameloop/gameloop.go:174-182 | living NPCs with one record are at most as many as the spawn points that hold it |
| `GameLoop.Loop.StopAttacker` | internal/gameserver/gameloop/gameloop.go:621-638 | exactly this attack stops, and exactly the end of its stance is queued, for 15 s later; whatever else is under way keeps its next event |
| `GameLoop.Loop.HandleCancelAttack` | internal/gameserver/gameloop/gameloop.go:521-523 | exactly this attack stops, with the end of its stance queued |
| `GameLoop.Loop.StopAllAttackersOnTarget` | internal/gameserver/gameloop/gameloop.go:687-723 | exactly the attackers of this target stop, and nothing leaves the queue |
| `GameLoop.Loop.ExecuteNextAttack` | internal/gameserver/gameloop/events.go:174-361 | a swing of a cancelled or retargeted attack changes nothing; without attacker or living target the attack ends and its stance is to end 15 s later; otherwise it is tried again after 400 ms, or the weapon is drawn, the hit queued for half the attack time and the next swing for all of it; a single chain of swings stays single |
| `GameLoop.Loop.StartNpcAttack` | internal/gameserver/gameloop/npc_combat.go:233-259 | a living, attackable NPC that is not on the player already turns on it, and its first swing comes within 500 ms |
| `GameLoop.Loop.ExecuteNpcNextAttack` | internal/gameserver/gameloop/npc_combat.go:29-159 | a swing at a former target changes nothing; the NPC gives up, as it must without a living player, or swings: the hit comes after half the attack time and the next swing after all of it |
| `GameLoop.Loop.ExecuteNpcHit` | internal/gameserver/gameloop/npc_combat.go:171-208 | a landed NPC hit draws the weapon of a living player and takes exactly its damage, down to zero; without hit points the player is dead, out of its stance and attacked by no NPC |
| `LoopEffects.OnlyHitsHurt` | internal/gameserver/gameloop/gameloop.go:319-329 | no event takes hit points from a player, but a melee hit at it, an NPC's hit at it, or a cast; an award may change its maximum and fill it up |
| `LoopEffects.UnhitUnhurt` | internal/gameserver/gameloop/gameloop.go:319-329 | over the events of a tick, however many, a player that no hit is at and while no cast lands has no fewer hit points at the end, unless a level-up has filled it up on the way |
| `LoopEffects.RaisedByLevelUpOnly` | internal/gameserver/gameloop/events.go:373-430 | an event brings a dead player back to life only by the death of an NPC that levels it up |
| `LoopEffects.RaisedByLevelUp` | internal/gameserver/gameloop/experience.go:49-86 | and that happens: the award of an NPC's death levels up a dead player and fills it up |
| `GameLoop.Loop.HurtPlayer` | internal/gameserver/gameloop/npc_combat.go:181-207 | exactly the damage is taken, down to zero; without hit points, and only then, the player leaves the stance and attacks by and on it stop |
| `GameLoop.Loop.StopAllNpcAttacksOnPlayer` | internal/gameserver/gameloop/npc_combat.go:280-286 | exactly the NPCs on this player stop |
| `GameLoop.Loop.DealDamageToPlayer` | internal/gameserver/gameloop/pvp.go:105-131 | a living player loses exactly the damage, down to zero, and both sides enter the stance, which the dead leave again; a dead one loses nothing |
| `GameLoop.Loop.HandlePlayerDeath` | internal/gameserver/gameloop/npc_combat.go:211-230 | death keeps the player in the world with no hit points, stops its attack and exactly the NPC attacks on it, ends its stance, and does not cut a cast |
| `GameLoop.Loop.HandleRestoreStats` | internal/gameserver/gameloop/restore.go:13-48 | gains of hit points, mana and CP stop at the maxima and never reach the dead |
| `GameLoop.Loop.HandleAttackRequest` | internal/gameserver/gameloop/gameloop.go:412-480 | an accepted request queues the first swing of its attack; NPCs that can be attacked are never refused; the chain it starts is single exactly if no swing at the target was still queued |
| `GameLoop.Loop.StartAttack` | internal/gameserver/gameloop/gameloop.go:452-480 | the first swing is queued, and its chain is single exactly if no swing of this attacker at the target still was |
| `GameLoop.Loop.HandleMoveToLocation` | internal/gameserver/gameloop/gameloop.go:527-543 | a ground move ends an attack going on, both approaches and a cast in progress, which is on record as cut |
| `GameLoop.Loop.HandleDisconnect` | internal/gameserver/gameloop/gameloop.go:546-570 | the command ends the attack, both approaches and all NPC attacks on the player, and touches nothing else here |
| `GameLoop.Loop.RemovePlayer` | internal/gameserver/registry/world.go:242-278 | the player is gone, its cast is on record as cut, and its stance is over |
| `GameLoop.Loop.HandleTeleport` | internal/gameserver/gameloop/teleport.go:21-62 | the player's attack stops and its target is dropped; a cast in progress goes on |
| `GameLoop.Loop.HandleRevive` | internal/gameserver/gameloop/teleport.go:67-81 | full hit points, then the teleport: the attack stops and the target is dropped |
| `GameLoop.Loop.HandleLearnSkill` | internal/gameserver/gameloop/skilllearn.go:75-107 | a skill that is taught is known at the higher level from then on, and no level ever drops |
| `GameLoop.Loop.RegenPlayers` | internal/gameserver/gameloop/regen.go:18-46 | every living player gains up to its maxima, the dead nothing |
| `GameLoop.Loop.ServeEffects` | internal/gameserver/gameloop/buff.go:162-219 | rounds of ticks reach exactly the players they are for, one after the other; they kill nobody and touch no cast |
| `GameLoop.Loop.FireTicks` | internal/gameserver/gameloop/buff.go:201-234 | gains restore up to the maxima, a loss of hit points stops at one, a loss of mana does nothing |
| `Visibility.Loop.Reconcile` | internal/gameserver/gameloop/visibility.go:51-108 | the player then knows exactly those within the watch radius, and of those it knew the ones within the forget radius; those it watches learn of it, those it drops forget it, and no client is shown a player it already shows; a loose player is tied again exactly if each of its ties is put in order |
| `Visibility.ReconciledTies` | internal/gameserver/gameloop/visibility.go:51-108 | a reconcile puts a tie in order exactly if it is within the watch radius, mutual already, or held by the reconciled player alone and beyond the forget radius |
| `Visibility.Tightened` | internal/gameserver/gameloop/visibility.go:51-108 | a player need not count as loose exactly if its ties to the others are mutual, within the forget radius, and complete within the watch radius |
| `Visibility.OnlyTies` | internal/gameserver/gameloop/visibility.go:51-108 | whatever happens to the ties of one player leaves all others in order |
| `Visibility.Loop.DespawnFrom` | internal/gameserver/gameloop/visibility.go:114-127 | takes the player off exactly the viewers' sets and forgets them in turn |
| `Visibility.Loop.HandleMoved` | internal/gameserver/gameloop/gameloop.go:585-601 | a move and its reconciliation keep symmetry, the forget bound and the watch guarantee, and make nobody loose |
| `Visibility.Loop.HandleEntered` | internal/gameserver/gameloop/gameloop.go:575-578 | the same of an arrival |
| `Visibility.Loop.HandleJoin` | internal/gameserver/handlers/client/character.go:211-213 | an added player starts with an empty known-set; it counts as loose exactly if someone still knows its id, which for a live, tied id means that it knew someone |
| `Visibility.Loop.JoinWithoutLeaving` | internal/gameserver/registry/world.go:189-209 | a live id added again is known by players it does not know |
| `Visibility.Loop.HandleTeleport` | internal/gameserver/gameloop/teleport.go:46-61 | the player knows nobody, those within the forget radius forget it, and it arrives unreconciled; only someone out of range whose tie was loose still knows it |
| `Visibility.VanishedFromAll` | internal/gameserver/gameloop/teleport.go:43-58 | where nobody is loose, that is everyone |
| `Visibility.Loop.HandleLeft` | internal/gameserver/gameloop/gameloop.go:546-570 | nobody knows a player that left: the disconnect command, then the removal from the world; it is loose no longer |
| `Visibility.Loop.HandleDisconnect` | internal/gameserver/gameloop/visibility.go:114-127 | everyone else forgets the player, whose own known-set stays: it gets loose exactly if it knew someone that is not loose; an id that is not in the world is loose no longer |
| `Visibility.Loop.RefusedRestart` | internal/gameserver/handlers/client/logout.go:127-144 | after a restart that is refused, the player sees someone who does not see it |
| `Visibility.Loop.HandleLobby` | internal/gameserver/handlers/client/character.go:265-277 | a removal without the disconnect command leaves the player in others' known-sets: it gets loose exactly if someone knew it |
| `Visibility.Loop.LobbyAndBack` | internal/gameserver/handlers/client/character.go:265-277 | who comes back from the lobby is known already, and so is not spawned again |
| `Visibility.Loop.SpawnTo` | internal/gameserver/gameloop/visibility.go:40-44 | called only for players the client does not show yet |
| `Visibility.Loop.Perform` | internal/gameserver/gameloop/gameloop.go:345-361 | each step has its effect on the world and on the known-sets, written out on their values; it keeps what the clients show equal to the known-sets, and the known-sets of all but loose players mutual, within the forget radius, and complete within the watch radius but for arrivals; only the step's own id can get loose, and nobody unless the step strands it |
| `Visibility.Loop.Run` | internal/gameserver/gameloop/gameloop.go:345-361 | over every run the known-sets are what the steps make of them one after the other, and so is what the clients show; ties that are not in order concern loose ids only, and only ids with a step of their own get loose |
| `Visibility.Loop.RunUntilStranded` | internal/gameserver/gameloop/gameloop.go:345-361 | until a disconnect without a removal, or a removal without a disconnect, of someone who knows others, nobody is loose and all ties are in order |
| `Visibility.ReconciledConsistent` | internal/gameserver/gameloop/visibility.go:51-108 | reconciling mends whatever a move of a player that is not loose broke |
| `Visibility.ReconcileIdempotent` | internal/gameserver/gameloop/visibility.go:51-108 | a second reconciliation changes nothing |
| `Visibility.Hysteresis` | internal/gameserver/gameloop/visibility.go:51-108 | a mutual pair with the reconciled player knows each other within the watch radius, does not beyond the forget radius, and stays as it is in between; other pairs stay as they are, and the pair stays mutual |
| `Visibility.RadiiExact` | internal/gameserver/gameloop/visibility.go:51-108 | after a reconcile the player knows another exactly if their squared distance is below the square of 3401, or it knew it and the squared distance is below the square of 3901 |
| `Visibility.NoFlicker` | internal/gameserver/gameloop/visibility.go:51-108 | over any moves that stay between the radii a mutual pair is never spawned or despawned, whoever else is loose |
| `WorldRegistry.Registry.GetPlayersInRange` | internal/gameserver/registry/world.go:440-471 | exactly the players whose squared distance is below the square of the radius plus one, each once, negative coordinates and colliding cell keys included |
| `WorldRegistry.Registry.GetNpcsInRange` | internal/gameserver/registry/world.go:527-559 | the same of NPCs |
| `WorldRegistry.Registry.AddPlayer` | internal/gameserver/registry/world.go:189-240 | the player stands in its cell; the grid stays tight exactly for a new id, and targets stay coherent exactly if none is indexed for it |
| `WorldRegistry.Registry.UpdatePlayerPosition` | internal/gameserver/registry/world.go:320-358 | the player is listed where it stands, and nowhere it left |
| `WorldRegistry.Registry.RemovePlayer` | internal/gameserver/registry/world.go:243-278 | off the grid, and out of the target index both ways; everybody else's target stays |
| `WorldRegistry.Registry.SetPlayerTarget` | internal/gameserver/registry/world.go:380-390 | the index follows, also for a player that is not in the world |
| `WorldRegistry.Registry.AddNpc` | internal/gameserver/registry/world.go:476-494 | the NPC stands in its cell |
| `WorldRegistry.Registry.RemoveNpc` | internal/gameserver/registry/world.go:497-515 | off the grid, and nobody's indexed target; all other targets stay |
| `WorldRegistry.Registry.Perform` | internal/gameserver/registry/world.go:189-515 | each step has its effect on players, NPCs and the index of targets, written out on their values, and keeps the grid tight and the index coherent |
| `WorldRegistry.Registry.Run` | internal/gameserver/registry/world.go:189-515 | over every run of additions under fresh ids and retargets of live players, the registry does what the steps say one after the other, the grid lists everyone exactly where it stands, and an indexed target is the player's own, or none |
| `WorldRegistry.Registry.TargetBeforeEntry` | internal/gameserver/registry/world.go:380-390 | a target set before the player is added stays indexed although the player has none |
| `WorldRegistry.Registry.NearbyRegions` | internal/gameserver/registry/world.go:708-722 | the keys of exactly the cells the search square touches |
| `WorldRegistry.InRangeIsVisited` | internal/gameserver/registry/world.go:708-729 | whoever is within the truncated distance stands in a visited cell |
| `WorldRegistry.PackRegionInjective` | internal/gameserver/registry/world.go:680-682 | 32-bit cells have different keys |
| `WorldRegistry.PackRegionValue` | internal/gameserver/registry/world.go:680-682 | a cell's key is a 64-bit integer with the row above and the column's low 32 bits below |
| `WorldRegistry.PackRegionCollides` | internal/gameserver/registry/world.go:680-682 | beyond 32 bits, keys collide exactly when both coordinates agree modulo 2 to the 32 |
| `Geometry.ISqrt` | internal/gameserver/registry/world.go:725-729 | the integer square root, what truncating the float root gives on the map |
| `Geometry.Distance` | internal/gameserver/registry/world.go:725-729 | the straight distance on the ground rounded down: its square is at most the sum of the squared differences, and the square of the next integer is more |
| `Geometry.WithinRadius` | internal/gameserver/registry/world.go:725-729 | within a radius means that the squared distance is below the square of the radius plus one |
| `Geometry.WithinBox` | internal/gameserver/registry/world.go:725-729 | the truncated distance bounds both coordinate differences |
| `Geometry.TruncDivMonotone` | internal/gameserver/registry/world.go:685-687 | Go's truncating division is monotone across zero |
| `TargetIndex.Index.Set` | internal/gameserver/registry/targetindex.go:30-59 | both maps agree after a retarget or an untarget, and no empty set is kept |
| `TargetIndex.Index.DropTarget` | internal/gameserver/registry/targetindex.go:65-79 | exactly those who aimed at the object lose their target |
| `TargetIndex.Index.TargetersOf` | internal/gameserver/registry/targetindex.go:84-97 | exactly those whose current target is the object, each once |
| `Regions.ActiveRegions.UpdatePlayerRegions` | internal/gameserver/gameloop/regions.go:48-59 | every cell's count is the number of players whose block holds it; across a cell boundary exactly the new block is active and held as of now, and the rest of the old one was held until now; nothing changes within a cell |
| `Regions.ActiveRegions.LeavePlayerRegions` | internal/gameserver/gameloop/regions.go:63-70 | the counts stay exact after a player leaves, and exactly its cells were held until now |
| `Regions.ActiveRegions.ActivateBlock` | internal/gameserver/gameloop/regions.go:73-85 | each of the nine cells counts one more, is active, and is held as of now; no other cell changes |
| `Regions.ActiveRegions.DeactivateBlock` | internal/gameserver/gameloop/regions.go:90-103 | each of the nine cells counts one less and was held until now: the clamp at zero never fires; no other cell changes |
| `Regions.ActiveRegions.DeactivateStaleRegions` | internal/gameserver/gameloop/regions.go:108-115 | exactly the cells without players that were last held more than 30 s ago go, and none that a player still holds |
| `Regions.ActiveRegions.SurroundingKeys` | internal/gameserver/gameloop/regions.go:32-40 | nine different keys, those of the 3x3 block |
| `Regions.CellKeyInjective` | internal/gameserver/gameloop/regions.go:27-29 | different cells have different string keys, negative coordinates included |
| `Regions.CellOf` | internal/gameserver/gameloop/regions.go:21-24 | cells of 1000 by 1000, those along the axes reaching to both sides of zero |
| `Regions.HoldersAdded` | internal/gameserver/gameloop/regions.go:48-59 | entering a block adds one holder to exactly its cells |
| `Regions.HoldersRemoved` | internal/gameserver/gameloop/regions.go:63-70 | leaving a block takes one holder from exactly its cells, each of which had one |
| `Effects.CharEffectList.Add` | internal/gameserver/models/buff.go:80-97 | false exactly when another skill's effect of the same type with a strictly higher level is active; the former instance of the skill is gone even then |
| `Effects.CharEffectList.RemoveSkill` | internal/gameserver/models/buff.go:100-107 | exactly the skill's instance goes, in order, and the answer says whether there was one |
| `Effects.CharEffectList.RemoveExpired` | internal/gameserver/models/buff.go:110-122 | exactly the effects with an expiry that has come go, toggles stay; the in-place filter leaves the others and returns the expired ones, both in order |
| `Effects.CharEffectList.RemoveAt` | internal/gameserver/models/buff.go:151-153 | the splice closes the gap in place |
| `Effects.CharEffectList.AllMods` | internal/gameserver/models/buff.go:125-131 | the modifiers of all active effects, in order |
| `Effects.AddedStacked` | internal/gameserver/models/buff.go:80-97 | no two active effects share a skill or a type, whether the new one is taken or not |
| `Effects.SplitByExpiry` | internal/gameserver/models/buff.go:110-122 | kept and expired effects together are the former ones, as multisets |
| `Effects.FilterInOrder` | internal/gameserver/models/buff.go:110-122 | an effect stays before exactly those it was before |
| `Effects.OneOfType` | internal/gameserver/models/buff.go:86-92 | the first effect of a type decides whether a new one is blocked |
| `Stats.BuffedModsOk` | internal/gameserver/gameloop/buff.go:78-94 | after a cast the modifiers in force match the effects exactly unless a stronger effect turned it away after its own former instance, with modifiers, was removed |
| `Stats.OneTypeNeverSpoils` | internal/gameserver/gameloop/buff.go:78-94 | that cannot happen where each skill has one abnormal type |
| `Stats.SpoilingExample` | internal/gameserver/models/buff.go:80-97 | it does happen with a skill whose type differs by level |
| `Stats.ModsOfFilter` | internal/gameserver/models/buff.go:125-131 | dropping effects keeps the modifiers exactly if those dropped have none |
| `Stats.TickedAllKeeps` | internal/gameserver/gameloop/buff.go:201-234 | ticks change vitals and their own schedule only, and kill nobody |
| `Stats.ServedKeeps` | internal/gameserver/gameloop/buff.go:157-198 | a round of service keeps stacking, the memo and the modifiers in order, and touches no flag |
| `Stats.ServedExpiry` | internal/gameserver/gameloop/buff.go:185-198 | a round of service ends exactly the effects whose expiry has come; one without an expiry stays |
| `BuffLoop.LastingStays` | internal/gameserver/gameloop/buff.go:157-198 | an effect without an expiry stays through every step but its removal, its replacement, its dispel, and the departure or fresh entry of its player |
| `BuffLoop.LastingForever` | internal/gameserver/gameloop/buff.go:157-198 | and so through every run without such a step |
| `Stats.SweepKeepsAttackability` | internal/gameserver/gameloop/pvp.go:18-29 | the flag sweep changes nothing an attacker can observe from then on |
| `BuffLoop.AfterKeeps` | internal/gameserver/gameloop/buff.go:78-125 | every step keeps memos and stacking, of lost players too; coherence of modifiers survives every step exactly but the spoiling cast |
| `BuffLoop.StatCoherence` | internal/gameserver/registry/world.go:108-140 | over every run with one type per skill, disconnects and lobby returns included: the modifiers are passive, equipment and active effects', and a valid memo equals a fresh computation |
| `BuffLoop.LostExactly` | internal/gameserver/gameloop/gameloop.go:546-557 | over every run, the sweeps leave out exactly those whom a disconnect lost with an effect on them, and who have since neither taken an effect, nor been rid of the last, nor left or entered |
| `BuffLoop.NobodyLost` | internal/gameserver/gameloop/buff.go:155-198 | unless a disconnect strands a player that stays, the sweeps miss nobody |
| `BuffLoop.Loop.ComputePlayerStats` | internal/gameserver/gameloop/gameloop.go:755-762 | what it returns is a fresh computation's result, from the memo or not |
| `BuffLoop.Loop.RebuildStatMods` | internal/gameserver/registry/world.go:128-140 | the modifiers are the three parts in order and the memo is dropped |
| `BuffLoop.Loop.ApplyBuff` | internal/gameserver/gameloop/buff.go:78-94 | a target that is away, or a skill without modifiers and ticks, changes nothing; whoever takes the effect is tracked, and only then |
| `BuffLoop.Loop.ToggleOff` | internal/gameserver/gameloop/buff.go:108-119 | the effect goes, the modifiers follow, and exactly a player left without effects is untracked |
| `BuffLoop.Loop.RefreshEquipment` | internal/gameserver/handlers/client/equipment.go:200-203 | the equipment's modifiers are replaced, the modifiers in force are those of all three sources again, and the memo is dropped |
| `BuffLoop.Loop.EnterWorld` | internal/gameserver/handlers/client/world.go:523-526 | a state without effects, flag or memo; the modifiers in force are those of passive skills and equipment |
| `BuffLoop.Loop.HandleDisconnect` | internal/gameserver/gameloop/gameloop.go:546-570 | the player is tracked no longer: nobody is lost to the sweeps exactly unless a player that stays has an effect or a flag |
| `BuffLoop.Loop.RefusedRestart` | internal/gameserver/handlers/client/logout.go:127-144 | after a restart that is refused, an expired effect survives the sweep |
| `BuffLoop.Loop.LeaveWorld` | internal/gameserver/gameloop/gameloop.go:546-570 | a player that leaves takes its tracking along, and is lost no longer |
| `BuffLoop.Loop.LeaveToLobby` | internal/gameserver/handlers/client/character.go:265-277 | a removal without the disconnect command leaves the id tracked, and loses nobody |
| `BuffLoop.Loop.ApplyLevelUp` | internal/gameserver/gameloop/experience.go:111-152 | maxima as computed from the new level, full vitals, no memo of the old level; modifiers and effects stay as they are |
| `Stats.LevelledUp` | internal/gameserver/gameloop/experience.go:111-152 | the maxima are those of a fresh computation at the new level, at least one hit point; the vitals are full, no memo of the old level is left, and the modifiers stay in force |
| `Stats.LevelUpRefreshes` | internal/gameserver/gameloop/experience.go:111-152 | whoever asks after a level-up gets the stats of the new level, even if a memo of the old one was valid |
| `BuffLoop.Loop.SetPvPFlag` | internal/gameserver/gameloop/pvp.go:59-70 | flagged for 120 s, to the nanosecond, and tracked |
| `BuffLoop.Loop.ExpirePvPFlags` | internal/gameserver/gameloop/pvp.go:78-98 | sweeping the tracked players leaves all but the lost as sweeping all players would, and tracked is still exactly who has a flag and was tracked |
| `BuffLoop.Loop.ServiceBuffs` | internal/gameserver/gameloop/buff.go:157-198 | the same of ticks and expiry, after the flags; a sweep loses and finds nobody |
| `BuffLoop.SweptTracked` | internal/gameserver/gameloop/buff.go:162-170 | whoever is neither tracked nor lost has nothing to sweep |
| `BuffLoop.Loop.FireBuffTicks` | internal/gameserver/gameloop/buff.go:201-219 | gains restore up to the maxima, a loss of hit points stops at one, a loss of mana does nothing |
| `BuffLoop.Loop.HandleRestoreStats` | internal/gameserver/gameloop/restore.go:13-48 | gains stop at the maxima and never reach the dead; the player is told |
| `BuffLoop.Loop.Run` | internal/gameserver/gameloop/buff.go:155-198 | over any run, the loop with its memos and tracked sets does what the steps say without them, and loses to its sweeps exactly whom they say |
| `Feistel.DecryptInvertsEncrypt` | pkg/crypt/blowfish/block.go:115-159 | decryption inverts encryption for every P-array, any round function and any self-cancelling combination |
| `Feistel.RoundsInverse` | pkg/crypt/blowfish/block.go:115-159 | the rounds, run backwards on crossed halves, undo themselves |
| `Feistel.EncryptBlock` | pkg/crypt/blowfish/block.go:115-136 | the unrolled statements are the network's rounds |
| `Feistel.DecryptBlock` | pkg/crypt/blowfish/block.go:138-159 | the same with the subkeys in reverse |
| `KeySchedule.Cipher.ExpandKey` | pkg/crypt/blowfish/block.go:28-65 | the tables in place become the expanded ones |
| `KeySchedule.Cipher.MixKey` | pkg/crypt/blowfish/block.go:28-43 | every subkey is combined with the next four key bytes, cyclically |
| `Blowfish.PushedNumber` | pkg/crypt/blowfish/block.go:28-43 | a key byte is pushed in at the bottom: 256 times the word plus the byte, modulo 2 to the 32 |
| `Blowfish.KeyWordBytes` | pkg/crypt/blowfish/block.go:28-43 | the word a subkey is mixed with is four key bytes, the most significant first, starting over at the end of the key |
| `Blowfish.KeysTell` | pkg/crypt/blowfish/block.go:28-43 | two keys give the same mixed subkeys exactly if all bytes that are read are the same |
| `Blowfish.EveryKeyByteTells` | pkg/crypt/blowfish/block.go:28-43 | no byte of a usable key is ignored: two keys of one length that differ in a byte give different mixed subkeys |
| `Blowfish.BoxesByDigits` | pkg/crypt/blowfish/block.go:115-135 | the round function looks up the four digits of the word in base 256, the highest in the first box |
| `KeySchedule.Cipher.constructor` | pkg/crypt/blowfish/cipher.go:32-40 | a valid cipher with the expanded tables |
| `Blocks.DecryptInvertsEncrypt` | pkg/crypt/blowfish/block.go:115-159 | the same under the expanded tables, whatever the S-boxes |
| `Blocks.BlockRoundTrip` | pkg/crypt/blowfish/cipher.go:69-89 | a block of bytes comes back, with little-endian words at both ends |
| `Blocks.Encrypt` | pkg/crypt/blowfish/cipher.go:69-77 | writes the encrypted block behind what is already written |
| `Blocks.Decrypt` | pkg/crypt/blowfish/cipher.go:81-89 | writes the decrypted block behind what is already written |
| `Blocks.BlocksRoundTrip` | pkg/crypt/crypt.go:133-177 | a buffer of any number of blocks comes back |
| `Blocks.BlowfishEncrypt` | pkg/crypt/crypt.go:156-177 | fails exactly on keys of the wrong length and on broken blocks, otherwise encrypts block by block |
| `Blocks.BlowfishDecrypt` | pkg/crypt/crypt.go:133-154 | fails exactly on keys of the wrong length and on broken blocks, otherwise decrypts block by block |
| `Blocks.CipherRoundTrip` | pkg/crypt/crypt.go:133-177 | what one side encrypts, the other decrypts under the same key |
| `Bytewise.Numeral.SubUndoesAdd` | pkg/crypt/crypt.go:211-279 | on words of four bytes, wrap-around subtraction undoes wrap-around addition |
| `Bytewise.Codec.BytesOfWordsOf` | pkg/crypt/crypt.go:206-218 | loading and storing all words of a buffer gives it back |
| `Bytewise.Codec.WordsOfBytesOf` | pkg/crypt/crypt.go:206-218 | storing and loading words gives them back |
| `Words.Uint32Valid` | pkg/crypt/blowfish/cipher.go:69-89 | the laws of byte order, addition and exclusive or hold of 32-bit words |
| `Blowfish.MachineValid` | pkg/crypt/crypt.go:11-22 | the real bytes and keys meet every law the transports rely on |
| `Checksum.Sum` | pkg/crypt/crypt.go:104-117 | the exclusive or of all words but the last, left to right |
| `Checksum.ChecksumOfWord` | pkg/crypt/crypt.go:104-117 | the checksum of one word is the word |
| `Checksum.ChecksumTells` | pkg/crypt/crypt.go:104-117 | a changed word changes the checksum |
| `Checksum.AppendChecksum` | pkg/crypt/crypt.go:95-126 | only the last word changes, to the checksum; short or uneven buffers are left alone |
| `Checksum.VerifyChecksum` | pkg/crypt/crypt.go:25-56 | true exactly if there is more than a checksum and it is the checksum of the rest |
| `Checksum.AppendedVerifies` | pkg/crypt/crypt.go:25-126 | what was appended verifies, unless the checksum is all there is |
| `Checksum.CorruptionShows` | pkg/crypt/crypt.go:25-56 | a buffer that verifies verifies no longer once one word of it is changed |
| `XorPass.DecodeInvertsEncode` | pkg/crypt/crypt.go:198-293 | from the final key alone the receiver recovers the words and the initial key |
| `XorPass.EncXORPass` | pkg/crypt/crypt.go:198-227 | for every offset, size and key: the words are encoded in place and the final key stands behind them |
| `XorPass.DecXORPass` | pkg/crypt/crypt.go:232-293 | the words are decoded in place, backwards, and the key's place is cleared; sizes up to 8 are left alone |
| `XorPass.DecodedEncoded` | pkg/crypt/crypt.go:198-293 | for any words, anywhere in any buffer, everything is restored but the four key bytes, which become zero |
| `XorPass.CountExact` | pkg/crypt/crypt.go:199-241 | from 12 bytes on, both passes meet at the same key position exactly for sizes of whole words |
| `Blowfish.PassRestoresExactly` | pkg/crypt/crypt.go:198-293 | for any buffer, offset, key and size from 12 bytes on, the pass backwards restores everything but the key's four bytes exactly if the size is of whole words |
| `Blowfish.ZerosNotRestored` | pkg/crypt/crypt.go:198-293 | over zeros of any other size a byte of the key stays behind |
| `PassExact.WholeWordsRestored` | pkg/crypt/crypt.go:198-293 | whole words come back under any codec that obeys the laws, wherever they are in the buffer |
| `PassExact.KeyByteStays` | pkg/crypt/crypt.go:235-241 | of broken words the receiver looks for the key in the wrong place, and its last byte is not cleared |
| `PassExact.PassAndBack` | pkg/crypt/crypt.go:198-293 | the two passes in place do what the laws are about |
| `Frames.UnframedFramed` | internal/loginserver/transport/gameserver.go:134-140 | a framed body comes back whole exactly if its length fits 16 bits, otherwise never as many bytes |
| `Frames.OpenedSealed` | internal/loginserver/transport/gameserver.go:39-148 | the padded, checksummed packet is what the other side opens, exactly if it fits |
| `Frames.PacketRoundTrip` | internal/gameserver/transport/loginserver.go:111-170 | same opcode, same payload, at most seven zero bytes behind it: exactly if the frame fits its 16-bit length |
| `Frames.LongPacketLost` | internal/gameserver/transport/loginserver.go:111-170 | 65524 bytes of payload do not come back |
| `Frames.KeptIsStrippedAndChecksum` | internal/loginserver/transport/gameserver.go:95-104 | the login server's reader hands on the checksum bytes as well |
| `Transport.ServersAgree` | internal/gameserver/transport/loginserver.go:59-178 | both directions between the servers, under any key of 1 to 56 bytes that both hold |
| `Transport.SealPacket` | internal/loginserver/transport/gameserver.go:106-140 | padding loop, checksum, cipher and length make the sealed frame |
| `Transport.GameServer.Send` | internal/loginserver/transport/gameserver.go:106-148 | writes the sealed frame under the key in force, or nothing if that is no key |
| `Transport.GameServer.Receive` | internal/loginserver/transport/gameserver.go:39-104 | a frame that comes in whole is accepted exactly when it opens, and handed on with its checksum |
| `Transport.LoginServerConnection.Send` | internal/gameserver/transport/loginserver.go:59-103 | writes the sealed frame exactly while connected and with a usable key |
| `Transport.LoginServerConnection.Receive` | internal/gameserver/transport/loginserver.go:106-178 | however the bytes arrive: accepted exactly when the frame opens, what follows is left, and the connection closes exactly when the stream ends early |
| `Transport.LoginServerConnection.SetBlowfishKey` | internal/gameserver/transport/loginserver.go:53-56 | reading and writing change keys together |
| `Transport.Socket.ReadFull` | internal/gameserver/transport/loginserver.go:111-141 | reads exactly the bytes asked for, in whatever pieces they come |
| `Transport.Socket.ReadFrame` | internal/stressclient/lsconn.go:29-43 | the body of the next frame, however its bytes arrive |
| `InitFrame.PassUndone` | internal/stressclient/lsconn.go:56-57 | the pass is undone exactly if there was a packet to pass over, or the key was all zero |
| `InitFrame.InitRoundTrip` | internal/loginserver/transport/client.go:166-191 | the client gets the packet and zero bytes exactly if the frame fits and the packet is not empty or the key is zero |
| `Blowfish.FirstPacket` | internal/stressclient/lsconn.go:47-58 | the same for the real words and keys, with a random 32-bit key the client never learns |
| `Blowfish.EmptyFirstPacket` | internal/loginserver/transport/client.go:166-191 | an empty packet under any first key but zero does not come back |
| `Transport.Client.SendStatic` | internal/loginserver/transport/client.go:166-207 | writes the padded, passed and encrypted packet |
| `Transport.RecvInit` | internal/stressclient/lsconn.go:47-58 | what the client makes of the stream |
| `Packet.PacketRoundTrip` | pkg/l2pkt/writer.go:24-59 | any fields come back under the same schema, with what follows left, exactly if no string contains U+0000 |
| `Packet.PacketCutShort` | pkg/l2pkt/reader.go:37-120 | every proper prefix of a packet underflows |
| `Packet.FieldRoundTrip` | pkg/l2pkt/reader.go:37-124 | the same of one field |
| `Packet.StringRoundTrip` | pkg/l2pkt/reader.go:104-124 | a string comes back exactly if it has no U+0000, surrogate pairs included |
| `Packet.DecodeInvertsEncode` | pkg/l2pkt/reader.go:122-123 | UTF-16 decoding inverts encoding for all strings of scalar values (sections 2.1 and 2.2 of RFC 2781) |
| `Packet.LoneSurrogate` | pkg/l2pkt/reader.go:122-123 | a surrogate without its other half reads as U+FFFD and the rest of the string is read as it is |
| `Packet.ValueOfLittleEndian` | pkg/l2pkt/reader.go:67-92 | little-endian bytes give the number back |
| `Packet.SignedUnsigned` | pkg/l2pkt/reader.go:76-92 | two's complement gives the signed number back |
| `Packet.Writer.WriteS` | pkg/l2pkt/writer.go:50-59 | appends the units and a zero unit, one by one |
| `Packet.Writer.WriteD` | pkg/l2pkt/writer.go:31-31 | appends the four bytes of a signed number |
| `Packet.Writer.WriteQ` | pkg/l2pkt/writer.go:47-47 | appends the eight bytes of a signed number |
| `Packet.Reader.ReadS` | pkg/l2pkt/reader.go:104-124 | the string before the first zero unit; an underflow has consumed the units there were |
| `Packet.Reader.ReadD` | pkg/l2pkt/reader.go:76-83 | the signed number, or an underflow that consumes nothing |
| `Packet.Reader.ReadQ` | pkg/l2pkt/reader.go:85-92 | the signed number, or an underflow that consumes nothing |
| `Packet.Reader.ReadH` | pkg/l2pkt/reader.go:67-74 | the unsigned number, or an underflow that consumes nothing |
| `Packet.Reader.ReadC` | pkg/l2pkt/reader.go:58-65 | the byte, or an underflow that consumes nothing |
| `Packet.Reader.ReadB` | pkg/l2pkt/reader.go:37-45 | the bytes, or an underflow that consumes nothing |
| `Items.EquippedKeeps` | internal/gameserver/usecase/inventory.go:440-540 | one item per slot, an empty left hand beside a two-handed weapon, all items kept, and the item in its slot |
| `Items.SlotOfBodyPart` | internal/gameserver/models/item.go:138-195 | every body part that has a slot has the one with its code, gloves and feet apart, and the others have none |
| `Items.HandsAfterEquip` | internal/gameserver/usecase/inventory.go:450-516 | whichever hand is filled, a two-handed weapon never shares |
| `Items.EmptiedKeeps` | internal/gameserver/usecase/inventory.go:405-437 | emptying slots keeps the paperdoll in order and all items, and the slots are empty |
| `Items.EmptiedRows` | internal/gameserver/usecase/inventory.go:405-437 | whatever was in an emptied slot is in the inventory, in no slot; every other row is as it was |
| `Items.ReplayOwned` | internal/gameserver/usecase/inventory.go:434-436 | a client that takes over additions, changes and removals has the server's items of its character |
| `Items.OthersUntouched` | internal/gameserver/usecase/inventory.go:434-436 | one character's changes are no news of another's items |
| `Items.OthersKept` | internal/gameserver/usecase/inventory.go:434-436 | nobody else's item is changed, added or removed by what concerns one character |
| `Items.PaperdollKept` | internal/gameserver/usecase/extractablehandler.go:110-151 | what puts nothing on the paperdoll keeps it in order, whatever it does to numbers |
| `Inventory.InventoryUseCase.EquipItem` | internal/gameserver/usecase/inventory.go:440-540 | exactly the conflicting slots are emptied, each item of them back in the inventory, and the item is on the paperdoll in its slot; the change list replays to the new state |
| `Inventory.InventoryUseCase.ClearConflicts` | internal/gameserver/usecase/inventory.go:450-516 | which slots conflict: both hands, chest and legs, the free one of two slots, or the shield against a two-handed weapon |
| `Inventory.InventoryUseCase.FindDualSlot` | internal/gameserver/usecase/inventory.go:556-584 | the second slot exactly if the first is taken and the second free |
| `Inventory.InventoryUseCase.UnequipItem` | internal/gameserver/usecase/inventory.go:405-437 | exactly the item of the slot goes back to the inventory, in no slot, and the change list says so |
| `Inventory.InventoryUseCase.UnequipSlotIfOccupied` | internal/gameserver/usecase/inventory.go:543-553 | the slot is empty, with an empty change list if it was |
| `Inventory.InventoryUseCase.UnequipBySlot` | internal/gameserver/usecase/inventory.go:377-402 | succeeds exactly if the body part has a slot and something is in it, which then is in the inventory, in no slot |
| `Inventory.InventoryUseCase.UseItem` | internal/gameserver/usecase/inventory.go:112-189 | the verdict of the guards in their order; of equipment exactly what moves, of a consumable exactly the units taken and the rewards given; exactly what cooldown is armed, and a change list that replays |
| `Inventory.InventoryUseCase.UseNonEquipItem` | internal/gameserver/usecase/inventory.go:191-264 | only a handler that consumed changes anything: the change of the used stack, then one change per reward, and the cooldown, which outlives a stack that was used up |
| `Inventory.InventoryUseCase.Consume` | internal/gameserver/usecase/itemskillhandler.go:102-119 | the units go from the stack, and the stack with its last unit; nothing else changes in number |
| `Inventory.InventoryUseCase.GiveReward` | internal/gameserver/usecase/extractablehandler.go:110-151 | exactly the reward is gained: in the largest plain stack, or one new stack, or one new item per unit |
| `Inventory.InventoryUseCase.GiveRewards` | internal/gameserver/usecase/extractablehandler.go:60-80 | the same of all rewards in order; new items have new ids, and nobody's other amounts change |
| `Inventory.InventoryUseCase.FindStackableItem` | internal/gameserver/repo/postgres_items.go:421-454 | the largest stack in the inventory that is neither enchanted nor augmented, or none exactly if there is none |
| `Inventory.InventoryUseCase.Create` | internal/gameserver/repo/postgres_items.go:101-128 | a row under an id that never stood for anything |
| `Inventory.InventoryUseCase.Handle` | internal/gameserver/usecase/extractablehandler.go:47-90 | the used stack loses its units before the rewards are given, and the books say both |
| `Inventory.InventoryUseCase.ToggleEquipped` | internal/gameserver/usecase/inventory.go:168-188 | putting on or taking off moves items and changes none in number |
| `Inventory.InventoryUseCase.CoolingFor` | internal/gameserver/usecase/inventory.go:158-166 | a use is held back exactly while the instance, or its group, is within the cooldown of an earlier use |
| `Inventory.InventoryUseCase.Perform` | internal/gameserver/usecase/inventory.go:112-402 | a use that the guards let through does exactly what its item or handler does and arms its cooldown, one that they refuse does nothing; taking off empties exactly the slot; a relog forgets exactly the character's cooldowns |
| `Inventory.InventoryUseCase.Run` | internal/gameserver/usecase/inventory.go:112-189 | over every run in time order each action has its effect on the state the one before left; the paperdoll is in order, uses are spaced by their cooldowns, the client's copy equals its character's items, and everyone's amount of every item is what it was, less the units consumed, plus the rewards for them; without consuming uses each item is what it was but for its place |
| `Stock.AmountApplied` | internal/gameserver/usecase/inventory.go:232-246 | a change told to the client changes the amounts by its own difference |
| `Stock.AmountConserved` | internal/gameserver/usecase/inventory.go:405-540 | moving items about changes no amount |
| `Stock.AmountTaken` | internal/gameserver/usecase/extractablehandler.go:92-108 | taking units off a stack takes exactly those, also when the row goes |
| `Stock.GrantedMore` | internal/gameserver/usecase/extractablehandler.go:60-80 | one reward more is granted on what the former ones left |
| `Inventory.ReadyByStamps` | internal/gameserver/registry/itemreuse.go:55-87 | the stamps' answers are those of the whole history of uses |
| `Inventory.GroupSpacingExact` | internal/gameserver/usecase/inventory.go:158-166 | within a group a later use waits for an earlier one's cooldown exactly if the later item has a delay of its own |
| `Inventory.UndelayedGroupExample` | internal/gameserver/usecase/inventory.go:158-166 | an item without a delay is usable right after another of its group |
| `Inventory.SpacedMore` | internal/gameserver/usecase/inventory.go:251-261 | a use that was ready is spaced from all before it |
| `ItemReuse.Registry.Add` | internal/gameserver/registry/itemreuse.go:39-51 | the stamps are those of the history with this use; delays that are not positive leave none |
| `ItemReuse.Registry.RemainingByItem` | internal/gameserver/registry/itemreuse.go:55-66 | the remaining time, or zero |
| `ItemReuse.Registry.RemainingByGroup` | internal/gameserver/registry/itemreuse.go:71-87 | the longest remaining time in the group, zero outside groups |
| `ItemReuse.Registry.Clear` | internal/gameserver/registry/itemreuse.go:91-95 | a relog forgets one character's cooldowns and no other's |
| `GameLoop.Loop.EndAttack` | internal/gameserver/gameloop/gameloop.go:621-638 | the attack stops; the end of its stance is queued and nothing becomes due, also for an attack that had no next swing left |
| `GameLoop.Loop.GoOnAttacking` | internal/gameserver/gameloop/events.go:203-217 | in reach or not, one next swing takes the place of the one that fired |
| `GameLoop.Loop.Swing` | internal/gameserver/gameloop/events.go:339-361 | the hit lands after half the attack time, the next swing follows after all of it, and nothing else is queued |
| `GameLoop.Loop.QueueNpcSwing` | internal/gameserver/gameloop/npc_combat.go:139-156 | exactly the next swing and, on a hit, the earlier hit are queued |
| `GameLoop.Loop.ExecuteInteractApproach` | internal/gameserver/gameloop/events.go:97-163 | a superseded approach changes nothing; one to an NPC that is gone, dead or no longer the target only ends; any other ends on arrival or is checked again after 400 ms |
| `GameLoop.Loop.HandleInteractRequest` | internal/gameserver/gameloop/gameloop.go:484-518 | a living NPC that is not for attacking, and that the player is not on the way to already, is approached: an attack is given up, and the first check comes after 300 ms |
| `GameLoop.Loop.AttackCancelAttack` | internal/gameserver/gameloop/intention.go:56-89 | attacking, cancelling and attacking again before the first swing fires leaves two chains of swings |
| `LoopState.ChainBegins` | internal/gameserver/gameloop/intention.go:56-89 | one more swing makes a single chain exactly if none was queued |
| `LoopState.ChainGoesOn` | internal/gameserver/gameloop/events.go:203-217 | a fired swing and the one it queues leave the chain as single or double as it was |
| `LoopState.ChainedAttack` | internal/gameserver/gameloop/intention.go:77-89 | an accepted attack makes a second chain at most for this attacker and target, and only if a swing at it was queued |
| `LoopState.ChainedNext` | internal/gameserver/gameloop/events.go:352-358 | a swing that fires and queues the next makes no second chain for anybody |
| `LoopState.BeatingPopped` | internal/gameserver/gameloop/gameloop.go:319-329 | popping an event takes the heartbeat of at most one thing under way, and of none if the event is stale |
| `LoopState.BeatingStopped` | internal/gameserver/gameloop/gameloop.go:621-638 | a stopped attack has a timeout queued that ends its stance 15 seconds after the stop |
| `LoopState.BeatingSwings` | internal/gameserver/gameloop/gameloop.go:475-479 | an attack that begins or goes on has its next swing queued, and everything else keeps its own next event |
| `LoopState.BeatingCast` | internal/gameserver/gameloop/cast.go:205-227 | a pending cast approach has its next check queued |
| `LoopState.BeatingTalk` | internal/gameserver/gameloop/events.go:128-144 | so has an approach to talk |
| `LoopState.BeatingNpc` | internal/gameserver/gameloop/npc_combat.go:233-259 | so has an NPC's attack its next swing |
| `LoopState.StancesSettled` | internal/gameserver/gameloop/events.go:515-558 | with nothing due, an in-combat player's stance goes on with its attack or ends within 15 seconds of the stop, exactly if it did not begin without an attack of the player's own or one was accepted since |
| `LoopState.SpawnsSettled` | internal/gameserver/gameloop/gameloop.go:655-671 | with nothing due, every corpse is younger than 7 seconds, and an empty spawn point's death than 60 |
| `LoopState.CastsSettled` | internal/gameserver/gameloop/cast.go:159-163 | with nothing due, every cast in progress still waits for its hit |
| `LoopState.NextIdIsFresh` | internal/gameserver/gameloop/events.go:452-470 | the id a respawn takes is no NPC's and no spawn point's |
| `Items.SuitsAfterEquip` | internal/gameserver/usecase/inventory.go:466-515 | full armour excludes leg armour after an equip exactly unless a leg piece was put on under full armour |
| `Items.LegsUnderSuit` | internal/gameserver/usecase/inventory.go:466-515 | leg armour put on under full armour is such a case |
| `Items.SuitsOkEmptied` | internal/gameserver/usecase/inventory.go:405-437 | taking things off never puts leg armour under full armour |

## Left out

- Sockets beyond the order in which bytes arrive, databases, data packs, metrics, logging and configuration.
- Races between connection handlers and the loop: positions move in loop steps only.
- RSA, password hashing and random key generation; the keys and the key of the running-key pass are parameters.
- The digits of pi that Blowfish's tables start from: every result holds for any start-up tables.
- The repository's errors: in the model every query and update of the item table succeeds, so no handler fails halfway.
- Float rounding: hit points, mana and modifiers are real numbers, the grid distance is an integer square root.
- Overflow of durations, of experience points and of NPC object ids.
- The hate list, experience shares and damage formulas: who is hated most, who levels up and how much damage is done are arbitrary in `GameLoop`.
- Skill reuse timers in `GameLoop`: whether a skill is on reuse is arbitrary there.
- The two halves of `handleNPCDeath` are not observed apart: the dead flag is set after the attackers have stopped.
- At most one death per NPC under skills with several kinds of damage: the code does not keep it, and `LoopState.SpawnsOkDeath` covers the second death.
- Which item handler does what, and its dice: a handler fails, declines, or consumes any number of units for any rewards.
- Charged shots, and the automatic use of shots.
- Recipe books, enchanting, and every other way to gain, lose or trade items.
- What regeneration gives by level, and which ticks are due, in `GameLoop`: the gains and the rounds are parameters there; effects are in `BuffLoop`.
- GameLoop.Loop.ExecuteTick: does not move players along their paths; distances are arbitrary in `GameLoop`, and moves are in `Visibility`.
- GameLoop.Loop.ProcessCommand: a dispel (it is in `BuffLoop`), a report of a position (in `Visibility`), chat and lists of skills to learn change nothing there, since positions and effects are not kept there; whether a trainer teaches a skill is a parameter.
- GameLoop.Loop.ApplySkillEffects: does not say who levels up when an NPC dies of it, because experience shares are left out.
- NPC spawns without a template: loading skips them, so the loop starts with known templates only.
- The system messages of refused uses; the reason for the refusal is kept.
- `VerifyChecksumClient` and the login server's receiving end for clients.
- `ReadF` and `WriteF`: they are `ReadQ` and `WriteQ` on the bits of a float.
- Salted key schedules.
- NPC visibility, item drops, chat, trade, clans and the database layouts.
