/**
 The timed events of the game loop and the measure its tick terminates by.

 Times and durations are integers in nanoseconds, the resolution of Go's clock.
 */
module Events {
  type Time = int

  const MILLISECOND: Time := 1_000_000
  const SECOND: Time := 1_000_000_000

  /** A cast request: the part of the command an approach carries along. */
  datatype CastRequest = CastRequest(charId: int, skillId: int, ctrl: bool)

  datatype Event =
    | CastApproach(at: Time, charId: int, target: int, cmd: CastRequest)
    | InteractApproach(at: Time, charId: int, target: int)
    | NextAttack(at: Time, charId: int, target: int)
    | Hit(at: Time, charId: int, target: int, damage: int)
    | NpcNextAttack(at: Time, npc: int, charId: int)
    | NpcHit(at: Time, npc: int, charId: int, damage: int)
    | CastHit(at: Time, charId: int, castId: int)
    | Respawn(at: Time, objectId: int)
    | CorpseDecay(at: Time, objectId: int)
    | CombatStanceTimeout(at: Time, charId: int)

  /**
   How many due events an event can still cause within one tick, itself included. An NPC swing
   only schedules later events; a hit can start one NPC swing without delay; a cast can deal
   three kinds of damage; an approach that arrives can start a cast whose hit is due at once.
   */
  function Rank(e: Event): nat {
    match e
    case CastApproach(_, _, _, _) => 5
    case CastHit(_, _, _) => 4
    case Hit(_, _, _, _) => 2
    case _ => 1
  }

  /** Events later than the tick's fixed `now` do not count. */
  function DueRank(e: Event, now: Time): nat {
    if e.at <= now then Rank(e) else 0
  }

  ghost function DueWork(s: seq<Event>, now: Time): nat {
    if s == [] then 0 else DueRank(s[0], now) + DueWork(s[1..], now)
  }

  lemma {:induction false} DueWorkConcat(a: seq<Event>, b: seq<Event>, now: Time)
    ensures DueWork(a + b, now) == DueWork(a, now) + DueWork(b, now)
  {
    if a == [] {
      assert a + b == b;
    } else {
      assert (a + b)[1..] == a[1..] + b;
      DueWorkConcat(a[1..], b, now);
    }
  }

  lemma DueWorkWithout(s: seq<Event>, i: nat, now: Time)
    requires i < |s|
    ensures multiset(s[..i] + s[i + 1..]) == multiset(s) - multiset{s[i]}
    ensures DueWork(s, now) == DueRank(s[i], now) + DueWork(s[..i] + s[i + 1..], now)
  {
    var front, back := s[..i], s[i + 1..];
    assert s == front + ([s[i]] + back);
    DueWorkConcat(front, [s[i]] + back, now);
    DueWorkConcat(front, back, now);
  }

  /** The work left is a property of what is queued, not of the order the heap keeps it in. */
  lemma {:induction false} DueWorkPermuted(a: seq<Event>, b: seq<Event>, now: Time)
    requires multiset(a) == multiset(b)
    ensures DueWork(a, now) == DueWork(b, now)
  {
    if a == [] {
      assert |multiset(b)| == 0;
    } else {
      assert a[0] in multiset(b);
      var i :| 0 <= i < |b| && b[i] == a[0];
      DueWorkWithout(b, i, now);
      assert multiset(a[1..]) == multiset(a) - multiset{a[0]} by { assert a == [a[0]] + a[1..]; }
      DueWorkPermuted(a[1..], b[..i] + b[i + 1..], now);
    }
  }

  lemma DueWorkAdded(s: seq<Event>, e: Event, t: seq<Event>, now: Time)
    requires multiset(t) == multiset(s) + multiset{e}
    ensures DueWork(t, now) == DueWork(s, now) + DueRank(e, now)
  {
    DueWorkPermuted(t, [e] + s, now);
    assert ([e] + s)[1..] == s;
  }

  /** A sequence whose due work is zero holds nothing that is due. */
  lemma {:induction false} NoDueWork(s: seq<Event>, now: Time)
    ensures DueWork(s, now) == 0 <==> forall e :: e in s ==> e.at > now
  {
    if s != [] {
      NoDueWork(s[1..], now);
      assert s == [s[0]] + s[1..];
    }
  }
}
