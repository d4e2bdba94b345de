/** Skill templates: what the effects of a skill add up to. */
module Skills {
  import opened Wrappers

  datatype OperateType = A1 | A2 | A3 | A4 | CA1 | CA5 | DA1 | DA2 | Toggle | Passive

  datatype Effect =
    | Escape(town: bool)
    | Heal(power: int)
    | ManaHeal(power: int)
    | CpHeal(power: int)
    | MagicAttack(power: int)
    | PhysicalAttack(power: int)
    | HpDrain(power: int)
    | OtherEffect

  datatype Scope =
    | GeneralScope | PassiveScope | SelfScope | StartScope | EndScope | PveScope | PvpScope | ChannelingScope

  datatype ScopedEffect = ScopedEffect(scope: Scope, effect: Effect) {
    /** Instant effects are those of general or self scope. */
    predicate Counts() { scope.GeneralScope? || scope.SelfScope? }
  }

  datatype Skill = Skill(
    operateType: OperateType, selfTarget: bool, offensive: bool, castRange: int,
    mpConsume1: nat, mpConsume2: nat, hitTime: int, effects: seq<ScopedEffect>)
  {
    predicate IsActive() { !operateType.Toggle? && !operateType.Passive? }

    predicate IsToggle() { operateType.Toggle? }

    /** Continuous skills and toggles put a lasting effect on their target, and nothing else. */
    predicate IsBuff() { operateType in {A2, A4, DA2, A3} || IsToggle() }
  }

  /** The summed powers of a skill's effects. */
  datatype Powers = Powers(hp: int, mp: int, cp: int, magic: int, physical: int, drain: int) {
    predicate Damages() { magic > 0 || physical > 0 || drain > 0 }
  }

  const NO_POWERS := Powers(0, 0, 0, 0, 0, 0)

  /** What rolls, stats and positions decide: whether an escape finds a respawn point, and the damage of each part. */
  datatype Rolls = Rolls(respawnPoint: bool, magic: int, physical: int, drain: int) {
    /** Every damage formula gives at least one. */
    predicate Valid() { magic >= 1 && physical >= 1 && drain >= 1 }

    function Damage(p: Powers): int {
      (if p.magic > 0 then magic else 0) + (if p.physical > 0 then physical else 0) + (if p.drain > 0 then drain else 0)
    }
  }

  /** One effect more. */
  function Added(p: Powers, e: Effect): Powers
    requires !e.Escape?
  {
    match e
    case Heal(power) => p.(hp := p.hp + power)
    case ManaHeal(power) => p.(mp := p.mp + power)
    case CpHeal(power) => p.(cp := p.cp + power)
    case MagicAttack(power) => p.(magic := p.magic + power)
    case PhysicalAttack(power) => p.(physical := p.physical + power)
    case HpDrain(power) => p.(drain := p.drain + power)
    case OtherEffect => p
  }

  /** The sums over the effects that count, and what the first Escape among them is for, if there is one. */
  function Gathered(effects: seq<ScopedEffect>): (Powers, Option<bool>) {
    if effects == [] then (NO_POWERS, None) else
    var (p, escape) := Gathered(effects[..|effects| - 1]);
    var last := effects[|effects| - 1];
    if escape.Some? || last.scope !in {GeneralScope, SelfScope} then (p, escape)
    else if last.effect.Escape? then (p, Some(last.effect.town))
    else (Added(p, last.effect), None)
  }

  /** Nothing behind the first Escape counts. */
  lemma {:induction false} EscapeEnds(effects: seq<ScopedEffect>, i: nat)
    requires i < |effects| && effects[i].Counts() && effects[i].effect.Escape? && Gathered(effects[..i]).1.None?
    ensures Gathered(effects) == (Gathered(effects[..i]).0, Some(effects[i].effect.town))
    decreases |effects|
  {
    if i < |effects| - 1 {
      var front := effects[..|effects| - 1];
      assert front[..i] == effects[..i];
      EscapeEnds(front, i);
    }
  }

  // ---------- The sums one by one ----------

  /** What an effect adds to the restored hit points, mana and CP, and to the powers of the three kinds of damage. */
  ghost function Healing(e: Effect): int { if e.Heal? then e.power else 0 }
  ghost function ManaHealing(e: Effect): int { if e.ManaHeal? then e.power else 0 }
  ghost function CpHealing(e: Effect): int { if e.CpHeal? then e.power else 0 }
  ghost function Magic(e: Effect): int { if e.MagicAttack? then e.power else 0 }
  ghost function Physical(e: Effect): int { if e.PhysicalAttack? then e.power else 0 }
  ghost function Draining(e: Effect): int { if e.HpDrain? then e.power else 0 }

  /** The sum over the effects of general or self scope. */
  ghost function Total(effects: seq<ScopedEffect>, power: Effect -> int): int {
    if effects == [] then 0 else
    var last := effects[|effects| - 1];
    Total(effects[..|effects| - 1], power)
      + if last.scope.GeneralScope? || last.scope.SelfScope? then power(last.effect) else 0
  }

  /** Without an Escape that counts, every power goes to its own sum, and to no other. */
  lemma {:induction false} GatheredSums(effects: seq<ScopedEffect>)
    requires forall s :: s in effects && s.scope in {GeneralScope, SelfScope} ==> !s.effect.Escape?
    ensures Gathered(effects).1 == None
    ensures Gathered(effects).0.hp == Total(effects, Healing) && Gathered(effects).0.mp == Total(effects, ManaHealing)
    ensures Gathered(effects).0.cp == Total(effects, CpHealing) && Gathered(effects).0.magic == Total(effects, Magic)
    ensures Gathered(effects).0.physical == Total(effects, Physical)
    ensures Gathered(effects).0.drain == Total(effects, Draining)
  {
    if effects != [] { GatheredSums(effects[..|effects| - 1]); }
  }
}
