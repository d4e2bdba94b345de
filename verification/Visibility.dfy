/**
 Player-to-player visibility: who is spawned on whose client. Players appear within the watch
 radius and disappear past the larger forget radius; between the two nothing changes.

 A disconnect that is not followed by a removal, and a removal without a disconnect, leave ties that
 only one side knows of. They are told apart by a set of loose ids: a tie of any two others is in order.
 */
module Visibility {
  import opened Geometry
  import opened WorldRegistry
  import opened Wrappers

  const WATCH_RADIUS: nat := 3400
  const FORGET_RADIUS: nat := WATCH_RADIUS + 500
  const TELEPORT_Z_OFFSET := 5

  type Players = map<int, Player>
  type Known = map<int, set<int>>

  // ---------- The protocol on sets ----------

  ghost predicate Within(players: Players, a: int, b: int, radius: nat) {
    a in players && b in players && Distance(players[a].position, players[b].position) <= radius
  }

  ghost function PairsWithin(players: Players, radius: nat): set<(int, int)> {
    set a, b | a in players && b in players && Within(players, a, b, radius) :: (a, b)
  }

  /** The pairs of players within the watch and within the forget radius. */
  datatype Ranges = Ranges(ids: set<int>, watch: set<(int, int)>, forget: set<(int, int)>) {
    ghost predicate Valid() {
      && watch <= forget
      && (forall a, b :: (a, b) in watch ==> (b, a) in watch)
      && (forall a, b :: (a, b) in forget ==> (b, a) in forget && a in ids && b in ids)
    }
  }

  ghost function RangesOf(players: Players): Ranges {
    Ranges(players.Keys, PairsWithin(players, WATCH_RADIUS), PairsWithin(players, FORGET_RADIUS))
  }

  lemma RangesValid(players: Players)
    ensures RangesOf(players).Valid()
  {
    forall a, b | a in players && b in players
      ensures Distance(players[a].position, players[b].position) == Distance(players[b].position, players[a].position)
    {
      DistanceSymmetric(players[a].position, players[b].position);
    }
  }

  predicate Knows(known: Known, a: int, b: int) { a in known && b in known[a] }

  /** Everyone in the world has a known-set, and nobody knows itself. */
  ghost predicate Proper(ids: set<int>, known: Known) {
    known.Keys == ids && forall a :: !Knows(known, a, a)
  }

  /** The ties of two players that are not loose are mutual, and so are about players in the world. */
  ghost predicate Mutual(ids: set<int>, known: Known, loose: set<int>) {
    Proper(ids, known) && forall a, b :: Knows(known, a, b) && a !in loose && b !in loose ==> Knows(known, b, a)
  }

  /**
   Pairs that know each other are within the forget radius, and pairs within the watch radius know
   each other, save for players whose arrival has not been reconciled, loose ones, and those named by `skip`.
   */
  ghost predicate Consistent(r: Ranges, known: Known, arriving: set<int>, loose: set<int>, skip: set<int>) {
    && Mutual(r.ids, known, loose)
    && (forall a, b :: Knows(known, a, b) && a !in loose + skip && b !in loose + skip ==> (a, b) in r.forget)
    && (forall a, b :: (a, b) in r.watch && a in known && a != b && {a, b} !! arriving + loose + skip ==>
          Knows(known, a, b))
  }

  /** The ties between one player and those that are not loose are in order. */
  ghost predicate TiesOk(r: Ranges, known: Known, arriving: set<int>, loose: set<int>, c: int) {
    forall b :: b !in loose && b != c ==>
      && (Knows(known, c, b) <==> Knows(known, b, c))
      && (Knows(known, c, b) ==> (c, b) in r.forget && (b, c) in r.forget)
      && ((c, b) in r.watch && c !in arriving && b !in arriving && c in known ==> Knows(known, c, b))
  }

  /** The hysteresis rule: whom c knows after being reconciled. */
  ghost function NextKnown(r: Ranges, known: Known, c: int): set<int>
    requires c in known
  {
    set o | o in r.ids && o != c && ((c, o) in r.watch || (o in known[c] && (c, o) in r.forget))
  }

  /** Reconciling c: those within the watch radius learn of it, and those it forgets forget it. */
  ghost function Reconciled(r: Ranges, known: Known, c: int): Known
    requires c in known
  {
    map a | a in known ::
      if a == c then NextKnown(r, known, c)
      else if (c, a) in r.watch then known[a] + {c}
      else if a in known[c] && (c, a) !in r.forget then known[a] - {c}
      else known[a]
  }

  // ---------- Ties of one player ----------

  /** A step that only touches the ties of c leaves all others as they are. */
  lemma OnlyTies(before: Ranges, after: Ranges, known: Known, next: Known, arriving: set<int>, arriving': set<int>,
                 loose: set<int>, c: int)
    requires Consistent(before, known, arriving, loose, {c}) && Proper(after.ids, next)
    requires before.ids - {c} == after.ids - {c}
    requires forall a :: a in next && a != c ==> a in known && next[a] - {c} == known[a] - {c}
    requires forall a, b :: a != c && b != c ==>
      ((a, b) in before.watch <==> (a, b) in after.watch) && ((a, b) in before.forget <==> (a, b) in after.forget)
    requires arriving - {c} == arriving' - {c}
    ensures Consistent(after, next, arriving', loose + {c}, {})
  {
    forall a, b | a != c && b != c && a in next ensures Knows(next, a, b) <==> Knows(known, a, b) {
      assert b in next[a] <==> b in next[a] - {c};
    }
    forall a | a != c ensures a in next <==> a in known { assert a in next <==> a in after.ids - {c}; }
    forall a | a != c ensures a in arriving <==> a in arriving' { assert a in arriving <==> a in arriving - {c}; }
  }

  /** A player need not count as loose exactly if its ties are in order. */
  lemma Tightened(r: Ranges, known: Known, arriving: set<int>, loose: set<int>, c: int)
    requires r.Valid() && Consistent(r, known, arriving, loose + {c}, {})
    ensures Consistent(r, known, arriving, loose - {c}, {}) <==> TiesOk(r, known, arriving, loose, c)
  {
    if Consistent(r, known, arriving, loose - {c}, {}) {
      forall b | b !in loose && b != c
        ensures Knows(known, c, b) <==> Knows(known, b, c)
        ensures Knows(known, c, b) ==> (c, b) in r.forget && (b, c) in r.forget
      {}
    }
  }

  lemma SameLoose(r: Ranges, known: Known, arriving: set<int>, loose: set<int>, other: set<int>)
    requires Consistent(r, known, arriving, loose, {}) && loose == other
    ensures Consistent(r, known, arriving, other, {})
  {}

  // ---------- Reconciling ----------

  lemma ReconciledProper(r: Ranges, known: Known, c: int)
    requires Proper(r.ids, known) && c in known
    ensures Proper(r.ids, Reconciled(r, known, c))
  {
    var k := Reconciled(r, known, c);
    forall a ensures !Knows(k, a, a) { assert !Knows(known, a, a); }
  }

  lemma ReconciledOnlyTies(r: Ranges, known: Known, arriving: set<int>, loose: set<int>, c: int)
    requires c in r.ids && Consistent(r, known, arriving, loose, {c})
    ensures Consistent(r, Reconciled(r, known, c), arriving - {c}, loose + {c}, {})
  {
    ReconciledProper(r, known, c);
    OnlyTies(r, r, known, Reconciled(r, known, c), arriving, arriving - {c}, loose, c);
  }

  /** A tie that a reconcile puts in order: within the watch radius, mutual already, or one c alone has, and drops. */
  ghost predicate Heals(r: Ranges, known: Known, c: int, b: int) {
    (c, b) in r.watch || (Knows(known, c, b) <==> Knows(known, b, c)) || (Knows(known, c, b) && (c, b) !in r.forget)
  }

  /** After a reconcile the ties of c are in order exactly if each was put in order. */
  lemma ReconciledTies(r: Ranges, known: Known, arriving: set<int>, loose: set<int>, c: int)
    requires r.Valid() && c in r.ids && Proper(r.ids, known)
    ensures TiesOk(r, Reconciled(r, known, c), arriving - {c}, loose, c)
      <==> forall b :: b in r.ids && b !in loose && b != c ==> Heals(r, known, c, b)
  {
    forall b | b != c { ReconciledTie(r, known, c, b); }
    var k := Reconciled(r, known, c);
    if TiesOk(r, k, arriving - {c}, loose, c) {
      forall b | b in r.ids && b !in loose && b != c ensures Heals(r, known, c, b) {
        assert Knows(k, c, b) <==> Knows(k, b, c);
      }
    }
  }

  lemma ReconciledTie(r: Ranges, known: Known, c: int, b: int)
    requires r.Valid() && c in r.ids && Proper(r.ids, known) && b != c
    ensures var k := Reconciled(r, known, c);
      && (Knows(k, c, b) <==> (c, b) in r.watch || (Knows(known, c, b) && (c, b) in r.forget))
      && (Knows(k, b, c) <==>
            (c, b) in r.watch || (Knows(known, b, c) && !(Knows(known, c, b) && (c, b) !in r.forget)))
  {}

  /** Reconciling mends whatever a move of a player that is not loose broke. */
  lemma ReconciledConsistent(r: Ranges, known: Known, c: int, arriving: set<int>, loose: set<int>)
    requires r.Valid() && c in r.ids && c !in loose && Consistent(r, known, arriving, loose, {c})
    ensures Consistent(r, Reconciled(r, known, c), arriving - {c}, loose, {})
  {
    ReconciledOnlyTies(r, known, arriving, loose, c);
    ReconciledTies(r, known, arriving, loose, c);
    Tightened(r, Reconciled(r, known, c), arriving - {c}, loose, c);
    SameLoose(r, Reconciled(r, known, c), arriving - {c}, loose - {c}, loose);
  }

  /** Reconciling twice changes nothing the second time: no packet is sent for an unchanged world. */
  lemma ReconcileIdempotent(r: Ranges, known: Known, c: int)
    requires r.Valid() && c in r.ids && Proper(r.ids, known)
    ensures Reconciled(r, Reconciled(r, known, c), c) == Reconciled(r, known, c)
  {
    var once := Reconciled(r, known, c);
    var twice := Reconciled(r, once, c);
    assert NextKnown(r, once, c) == once[c];
    forall a | a in known ensures twice[a] == once[a] {}
  }

  /** Someone who learned of everyone in W, and they of it. */
  ghost function Watching(known: Known, c: int, w: set<int>): Known {
    map a | a in known :: if a == c then known[a] + w else if a in w then known[a] + {c} else known[a]
  }

  /** Someone who forgot everyone in D, and they it. */
  ghost function Dropping(known: Known, c: int, d: set<int>): Known {
    map a | a in known :: if a == c then known[a] - d else if a in d then known[a] - {c} else known[a]
  }

  function Link(known: Known, a: int, b: int): Known
    requires a in known && b in known && a != b
  {
    known[a := known[a] + {b}][b := known[b] + {a}]
  }

  /** The other side may be gone from the world. */
  function Unlink(known: Known, a: int, b: int): Known
    requires a in known && a != b
  {
    if b in known then known[a := known[a] - {b}][b := known[b] - {a}] else known[a := known[a] - {b}]
  }

  lemma WatchingNobody(known: Known, c: int)
    ensures Watching(known, c, {}) == known == Dropping(known, c, {})
  {
    var w, d := Watching(known, c, {}), Dropping(known, c, {});
    forall a | a in known ensures w[a] == known[a] == d[a] {}
  }

  lemma LinkWatches(known: Known, c: int, w: set<int>, o: int)
    requires c in known && o in known && o != c
    ensures Link(Watching(known, c, w), c, o) == Watching(known, c, w + {o})
  {
    var a, b := Link(Watching(known, c, w), c, o), Watching(known, c, w + {o});
    forall i | i in known ensures a[i] == b[i] {}
  }

  lemma UnlinkDrops(known: Known, c: int, d: set<int>, o: int)
    requires c in known && o != c
    ensures Unlink(Dropping(known, c, d), c, o) == Dropping(known, c, d + {o})
  {
    var a, b := Unlink(Dropping(known, c, d), c, o), Dropping(known, c, d + {o});
    forall i | i in known ensures a[i] == b[i] {}
  }

  /** What the two range queries of a reconcile amount to. */
  lemma QueriesReconcile(players: Players, known: Known, c: int, watched: seq<int>, kept: seq<int>)
    requires c in players && Proper(players.Keys, known)
    requires forall id :: id in watched <==> Within(players, c, id, WATCH_RADIUS)
    requires forall id :: id in kept <==> Within(players, c, id, FORGET_RADIUS)
    ensures var w, k := (set id | id in watched && id != c), (set id | id in kept && id != c);
      Dropping(Watching(known, c, w), c, (known[c] + w) - k) == Reconciled(RangesOf(players), known, c)
  {
    var w, k := (set id | id in watched && id != c), (set id | id in kept && id != c);
    var r := RangesOf(players);
    forall o ensures (c, o) in r.watch <==> o in watched ensures (c, o) in r.forget <==> o in kept {}
    assert !Knows(known, c, c);
    var a, b := Dropping(Watching(known, c, w), c, (known[c] + w) - k), Reconciled(r, known, c);
    forall i | i in known ensures a[i] == b[i] {}
  }

  /**
   Within the watch radius a reconciled player's mutual ties are there, beyond the forget radius they are not,
   and in between they stay as they are; pairs without it stay as they are anyway.
   */
  lemma Hysteresis(r: Ranges, known: Known, c: int, a: int, b: int)
    requires r.Valid() && Proper(r.ids, known) && c in r.ids && a in r.ids && b in r.ids && a != b
    requires Knows(known, a, b) <==> Knows(known, b, a)
    ensures var after := Reconciled(r, known, c);
      && (Knows(after, a, b) <==> Knows(after, b, a))
      && if c == a || c == b
         then (Knows(after, a, b) <==> (a, b) in r.watch || (Knows(known, a, b) && (a, b) in r.forget))
         else (Knows(after, a, b) <==> Knows(known, a, b))
  {
    assert (a, b) in r.watch <==> (b, a) in r.watch;
    assert (a, b) in r.forget <==> (b, a) in r.forget;
    if c == a { ReconciledTie(r, known, a, b); }
    if c == b { ReconciledTie(r, known, b, a); }
  }

  // ---------- Moves ----------

  function Placed(players: Players, id: int, position: Position): Players
    requires id in players
  {
    players[id := players[id].(position := position)]
  }

  /** The world and the known-sets after a player moves and is reconciled. */
  ghost function AfterMove(players: Players, known: Known, c: int, to: Position): (Players, Known)
    requires c in players && known.Keys == players.Keys
  {
    var moved := Placed(players, c, to);
    (moved, Reconciled(RangesOf(moved), known, c))
  }

  /** After every one of the moves the pair stands between the two radii. */
  ghost predicate StaysInBand(players: Players, known: Known, moves: seq<(int, Position)>, a: int, b: int)
    requires known.Keys == players.Keys && forall m :: m in moves ==> m.0 in players
  {
    moves == [] ||
    var (moved, next) := AfterMove(players, known, moves[0].0, moves[0].1);
    !Within(moved, a, b, WATCH_RADIUS) && Within(moved, a, b, FORGET_RADIUS)
    && StaysInBand(moved, next, moves[1..], a, b)
  }

  ghost function AfterMoves(players: Players, known: Known, moves: seq<(int, Position)>): Known
    requires known.Keys == players.Keys && forall m :: m in moves ==> m.0 in players
  {
    if moves == [] then known else
    var (moved, next) := AfterMove(players, known, moves[0].0, moves[0].1);
    AfterMoves(moved, next, moves[1..])
  }

  /** No flicker: however often players move, a mutual pair that stays in the band neither appears nor disappears. */
  lemma {:induction false} NoFlicker(players: Players, known: Known, moves: seq<(int, Position)>, a: int, b: int)
    requires Proper(players.Keys, known) && forall m :: m in moves ==> m.0 in players
    requires a in players && b in players && a != b && StaysInBand(players, known, moves, a, b)
    requires Knows(known, a, b) <==> Knows(known, b, a)
    ensures Knows(AfterMoves(players, known, moves), a, b) <==> Knows(known, a, b)
  {
    if moves != [] {
      var c := moves[0].0;
      var (moved, next) := AfterMove(players, known, c, moves[0].1);
      RangesValid(moved);
      ReconciledProper(RangesOf(moved), known, c);
      Hysteresis(RangesOf(moved), known, c, a, b);
      NoFlicker(moved, next, moves[1..], a, b);
    }
  }

  lemma SameRanges(before: Players, after: Players, c: int)
    requires before.Keys - {c} == after.Keys - {c}
    requires forall a :: a in before && a in after && a != c ==> before[a].position == after[a].position
    ensures forall a, b :: a != c && b != c ==>
      && ((a, b) in RangesOf(before).watch <==> (a, b) in RangesOf(after).watch)
      && ((a, b) in RangesOf(before).forget <==> (a, b) in RangesOf(after).forget)
  {
    forall a | a != c ensures a in before <==> a in after { assert a in before.Keys - {c} <==> a in after.Keys - {c}; }
    assert forall a, b, r :: a != c && b != c ==> (Within(before, a, b, r) <==> Within(after, a, b, r));
  }

  /** After a move only the mover's own distances are unchecked. */
  lemma MovedConsistent(before: Players, after: Players, known: Known, arriving: set<int>, loose: set<int>, c: int)
    requires before.Keys == after.Keys && Consistent(RangesOf(before), known, arriving, loose, {})
    requires forall a :: a in before && a != c ==> before[a].position == after[a].position
    ensures Consistent(RangesOf(after), known, arriving, loose, {c})
  {
    SameRanges(before, after, c);
  }

  lemma SamePositionsConsistent(before: Players, after: Players, known: Known, arriving: set<int>, loose: set<int>)
    requires before.Keys == after.Keys && Consistent(RangesOf(before), known, arriving, loose, {})
    requires forall a :: a in before ==> before[a].position == after[a].position
    ensures Consistent(RangesOf(after), known, arriving, loose, {})
  {
    assert forall a, b, r :: Within(before, a, b, r) <==> Within(after, a, b, r);
    assert RangesOf(before) == RangesOf(after);
  }

  lemma AbsentConsistent(r: Ranges, known: Known, arriving: set<int>, loose: set<int>, c: int)
    requires r.Valid() && c !in r.ids && Consistent(r, known, arriving, loose, {c})
    ensures Consistent(r, known, arriving - {c}, loose, {})
  {
    forall a | a !in loose && c !in loose ensures !Knows(known, a, c) {}
  }

  // ---------- Arrivals and departures ----------

  /** The known-sets when the players in `ids` forget c. */
  ghost function Forgotten(known: Known, c: int, ids: set<int>): Known {
    map a | a in known :: if a in ids && a != c then known[a] - {c} else known[a]
  }

  lemma ForgottenNext(known: Known, c: int, ids: set<int>, v: int)
    requires v in known
    ensures var f := Forgotten(known, c, ids);
      Forgotten(known, c, ids + {v}) == if v == c then f else f[v := f[v] - {c}]
  {
    var f, g := Forgotten(known, c, ids), Forgotten(known, c, ids + {v});
    var h := if v == c then f else f[v := f[v] - {c}];
    forall i | i in known ensures g[i] == h[i] {}
  }

  /** That all who have c in view forget it is as good as that everyone does. */
  lemma ForgottenByViewers(known: Known, c: int, viewers: set<int>)
    requires forall v :: v in viewers <==> v != c && Knows(known, v, c)
    ensures Forgotten(known, c, viewers) == Forgotten(known, c, known.Keys)
  {
    var f, g := Forgotten(known, c, viewers), Forgotten(known, c, known.Keys);
    forall a | a in known ensures f[a] == g[a] {
      if a != c && a !in viewers { assert known[a] == known[a] - {c}; }
    }
  }

  lemma OnlyOneLoose(a: set<int>, b: set<int>, c: int)
    requires b - {c} == a - {c}
    ensures forall id :: id in b && id !in a ==> id == c
  {
    forall id | id in b && id !in a ensures id == c { assert id !in a - {c}; }
  }

  /** A player that knows some other player. */
  ghost predicate KnowsOthers(known: Known, loose: set<int>, c: int) {
    exists b :: b !in loose && b != c && Knows(known, c, b)
  }

  /** A player that some other player knows. */
  ghost predicate KnownToOthers(known: Known, loose: set<int>, c: int) {
    exists b :: b !in loose && b != c && Knows(known, b, c)
  }

  /** After a disconnect nobody knows the player: its ties are in order if it knows nobody that is not loose. */
  lemma DisconnectedTies(r: Ranges, known: Known, arriving: set<int>, loose: set<int>, c: int)
    requires r.Valid() && Consistent(r, known, arriving, loose, {})
    ensures Proper(r.ids, Forgotten(known, c, known.Keys))
    ensures c !in known ==> TiesOk(r, Forgotten(known, c, known.Keys), arriving, loose, c)
    ensures c in known && c !in loose ==>
      (TiesOk(r, Forgotten(known, c, known.Keys), arriving, loose, c) <==> !KnowsOthers(known, loose, c))
  {
    var f := Forgotten(known, c, known.Keys);
    forall a ensures !Knows(f, a, a) { assert !Knows(known, a, a); }
    forall b | b != c ensures !Knows(f, b, c) && (Knows(f, c, b) <==> Knows(known, c, b)) {}
    if KnowsOthers(known, loose, c) {
      var b :| b !in loose && b != c && Knows(known, c, b);
      assert Knows(f, c, b) && !Knows(f, b, c);
    }
  }

  lemma ForgottenOnlyTies(r: Ranges, known: Known, arriving: set<int>, loose: set<int>, c: int)
    requires r.Valid() && Consistent(r, known, arriving, loose, {})
    ensures Consistent(r, Forgotten(known, c, known.Keys), arriving, loose + {c}, {})
  {
    DisconnectedTies(r, known, arriving, loose, c);
    OnlyTies(r, r, known, Forgotten(known, c, known.Keys), arriving, arriving, loose, c);
  }

  /** A player is removed from the world, and its own known-set with it. */
  lemma RemovedOnlyTies(players: Players, known: Known, arriving: set<int>, loose: set<int>, c: int)
    requires Consistent(RangesOf(players), known, arriving, loose, {})
    ensures Consistent(RangesOf(players - {c}), known - {c}, arriving - {c}, loose + {c}, {})
    ensures TiesOk(RangesOf(players - {c}), known - {c}, arriving - {c}, loose, c) <==> !KnownToOthers(known, loose, c)
  {
    var r, k := RangesOf(players - {c}), known - {c};
    assert (players - {c}).Keys == players.Keys - {c} == k.Keys;
    forall a ensures !Knows(k, a, a) { assert !Knows(known, a, a); }
    SameRanges(players, players - {c}, c);
    OnlyTies(RangesOf(players), r, known, k, arriving, arriving - {c}, loose, c);
    forall b | b != c ensures !Knows(k, c, b) && (Knows(k, b, c) <==> Knows(known, b, c)) {}
  }

  /** A player is added, with an empty known-set. */
  lemma JoinedOnlyTies(before: Players, after: Players, known: Known, arriving: set<int>, loose: set<int>, c: int)
    requires Consistent(RangesOf(before), known, arriving, loose, {}) && c in after
    requires before.Keys - {c} == after.Keys - {c}
    requires forall a :: a in before && a in after && a != c ==> before[a].position == after[a].position
    ensures Consistent(RangesOf(after), known[c := {}], arriving + {c}, loose + {c}, {})
    ensures TiesOk(RangesOf(after), known[c := {}], arriving + {c}, loose, c) <==> !KnownToOthers(known, loose, c)
  {
    var k := known[c := {}];
    forall a ensures !Knows(k, a, a) { assert !Knows(known, a, a); }
    assert after.Keys == k.Keys by {
      forall a | a != c ensures a in after <==> a in before {
        assert a in before.Keys - {c} <==> a in after.Keys - {c};
      }
    }
    SameRanges(before, after, c);
    OnlyTies(RangesOf(before), RangesOf(after), known, k, arriving, arriving + {c}, loose, c);
    forall b | b != c ensures !Knows(k, c, b) && (Knows(k, b, c) <==> Knows(known, b, c)) {}
  }

  /** Whoever is not loose is known to others exactly if it knows others. */
  lemma KnownIfKnowing(r: Ranges, known: Known, arriving: set<int>, loose: set<int>, c: int)
    requires Consistent(r, known, arriving, loose, {}) && c !in loose
    ensures KnownToOthers(known, loose, c) <==> KnowsOthers(known, loose, c)
  {
    if KnowsOthers(known, loose, c) {
      var b :| b !in loose && b != c && Knows(known, c, b);
      assert Knows(known, b, c);
    }
    if KnownToOthers(known, loose, c) {
      var b :| b !in loose && b != c && Knows(known, b, c);
      assert Knows(known, c, b);
    }
  }

  /** The known-sets after a player vanished from its surroundings, its own emptied. */
  ghost function Vanished(players: Players, known: Known, c: int): Known {
    map a | a in known ::
      if a == c then {} else if Within(players, c, a, FORGET_RADIUS) then known[a] - {c} else known[a]
  }

  lemma VanishedForgotten(players: Players, known: Known, c: int, viewers: set<int>)
    requires c in known && forall id :: id in viewers <==> Within(players, c, id, FORGET_RADIUS)
    ensures Forgotten(known, c, viewers)[c := {}] == Vanished(players, known, c)
  {
    var a, b := Forgotten(known, c, viewers)[c := {}], Vanished(players, known, c);
    forall i | i in known ensures a[i] == b[i] {}
  }

  /** Its ties are then in order, exactly unless someone out of range still knows it: and that only if it was loose. */
  lemma VanishedTies(players: Players, known: Known, arriving: set<int>, loose: set<int>, c: int)
    requires c in players && Consistent(RangesOf(players), known, arriving, loose, {})
    ensures var k := Vanished(players, known, c);
      && Consistent(RangesOf(players), k, arriving + {c}, loose + {c}, {})
      && (TiesOk(RangesOf(players), k, arriving + {c}, loose, c) <==> !KnownToOthers(k, loose, c))
      && (c !in loose ==> !KnownToOthers(k, loose, c))
  {
    var r, k := RangesOf(players), Vanished(players, known, c);
    forall a ensures !Knows(k, a, a) { assert !Knows(known, a, a); }
    OnlyTies(r, r, known, k, arriving, arriving + {c}, loose, c);
    if c !in loose {
      forall b | b !in loose && b != c && Knows(known, b, c) ensures Within(players, c, b, FORGET_RADIUS) {
        assert Knows(known, c, b) && (c, b) in r.forget;
      }
    }
  }

  /** Nobody's ties but those within its surroundings are cut: all of them, if nobody is loose. */
  lemma VanishedFromAll(players: Players, known: Known, arriving: set<int>, c: int)
    requires c in players && Consistent(RangesOf(players), known, arriving, {}, {})
    ensures Vanished(players, known, c) == Forgotten(known, c, known.Keys)[c := {}]
  {
    var a, b := Vanished(players, known, c), Forgotten(known, c, known.Keys)[c := {}];
    forall i | i != c && Knows(known, i, c) ensures Within(players, c, i, FORGET_RADIUS) {
      assert Knows(known, c, i) && (c, i) in RangesOf(players).forget;
    }
    forall i | i in known ensures a[i] == b[i] {
      if i != c && !Within(players, c, i, FORGET_RADIUS) { assert known[i] - {c} == known[i]; }
    }
  }

  lemma ConsistentProper(r: Ranges, known: Known, arriving: set<int>, loose: set<int>, skip: set<int>)
    requires Consistent(r, known, arriving, loose, skip)
    ensures Proper(r.ids, known)
  {}

  lemma WatchingSelf(known: Known, c: int, w: set<int>)
    requires c in known && c !in known[c] && c !in w
    ensures var k := Watching(known, c, w); k.Keys == known.Keys && k[c] == known[c] + w
  {}

  lemma ForgottenKeys(known: Known, c: int, ids: set<int>)
    ensures Forgotten(known, c, ids).Keys == known.Keys
  {}

  lemma VanishedKeys(players: Players, known: Known, c: int)
    requires c in known
    ensures var k := Vanished(players, known, c); c in k && k[c] == {}
  {}

  /** Targets do not matter to who is near. */
  lemma VanishedSame(before: Players, after: Players, known: Known, c: int)
    requires before.Keys == after.Keys && forall a :: a in before ==> before[a].position == after[a].position
    ensures Vanished(before, known, c) == Vanished(after, known, c)
  {
    assert forall a, b, r :: Within(before, a, b, r) <==> Within(after, a, b, r);
    var k, l := Vanished(before, known, c), Vanished(after, known, c);
    forall i | i in known ensures k[i] == l[i] {}
  }

  /** A reconcile keeps the ties of whoever is not loose in order. */
  lemma StaysTied(r: Ranges, known: Known, arriving: set<int>, loose: set<int>, c: int)
    requires r.Valid() && c in r.ids && c !in loose && Consistent(r, known, arriving, loose, {c})
    ensures forall b :: b in r.ids && b !in loose && b != c ==> Heals(r, known, c, b)
  {}

  /** Whoever knows nobody and counts as arriving may stand anywhere. */
  lemma UnseenConsistent(r: Ranges, known: Known, arriving: set<int>, loose: set<int>, c: int)
    requires Consistent(r, known, arriving, loose, {c}) && c in known && known[c] == {} && c in arriving
    ensures Consistent(r, known, arriving, loose, {})
  {
    forall a | a !in loose && c !in loose ensures !Knows(known, a, c) { assert !Knows(known, c, a); }
  }

  datatype Step =
    | Join(id: int, position: Position)
    | Entered(id: int)
    | Moved(id: int, position: Position, serverDriven: bool)
    | Teleported(id: int, dest: Position)
    | Disconnected(id: int)
    | ReturnedToLobby(id: int)
    | Left(id: int)

  /** What a step does to the world and to the known-sets; an unknown id is passed over. */
  ghost function StepTaken(players: Players, known: Known, step: Step): (Players, Known) {
    match step
    case Join(id, position) =>
      var k := if id in players then Forgotten(known, id, known.Keys) else known;
      (players[id := Player(position, 0)], k[id := {}])
    case Entered(id) => (players, Refreshed(players, known, id))
    case Moved(id, position, serverDriven) =>
      var moved := if id in players && !serverDriven then Placed(players, id, position) else players;
      (moved, Refreshed(moved, known, id))
    case Teleported(id, dest) =>
      if id in players && id in known
      then (players[id := Player(Position(dest.x, dest.y, dest.z + 5), 0)], Vanished(players, known, id))
      else (players, known)
    case Disconnected(id) => (players, Forgotten(known, id, known.Keys))
    case ReturnedToLobby(id) => (players - {id}, known - {id})
    case Left(id) => (players - {id}, Forgotten(known, id, known.Keys) - {id})
  }

  ghost function Refreshed(players: Players, known: Known, c: int): Known {
    if c in players && c in known then Reconciled(RangesOf(players), known, c) else known
  }

  ghost function StepsTaken(players: Players, known: Known, steps: seq<Step>): (Players, Known) {
    if steps == [] then (players, known) else
    var (p, k) := StepsTaken(players, known, steps[..|steps| - 1]);
    StepTaken(p, k, steps[|steps| - 1])
  }

  /** In units of the map: within 3400 players see each other, beyond 3900 they do not, each rounded down. */
  lemma RadiiExact(players: Players, known: Known, c: int, b: int)
    requires Proper(players.Keys, known) && c in players && b in players && b != c
    ensures var after := Reconciled(RangesOf(players), known, c);
      var dx, dy := players[c].position.x - players[b].position.x, players[c].position.y - players[b].position.y;
      Knows(after, c, b) <==>
        dx * dx + dy * dy < 3401 * 3401 || (Knows(known, c, b) && dx * dx + dy * dy < 3901 * 3901)
  {
    hide Distance;
    var p, q := players[c].position, players[b].position;
    WithinRadius(p, q, WATCH_RADIUS);
    WithinRadius(p, q, FORGET_RADIUS);
    RangesValid(players);
    ReconciledTie(RangesOf(players), known, c, b);
    assert (c, b) in RangesOf(players).watch <==> Within(players, c, b, WATCH_RADIUS);
    assert (c, b) in RangesOf(players).forget <==> Within(players, c, b, FORGET_RADIUS);
  }

  lemma LoginKeepsKeys(players: Players, id: int, p: Player)
    ensures (players - {id})[id := p] == players[id := p]
  {}

  lemma LoginForgets(known: Known, id: int)
    ensures (known - {id})[id := {}] == known[id := {}]
  {}

  /** A disconnect of a player that stays, or a removal without a disconnect, of someone who knows others. */
  predicate Strands(known: Known, step: Step) {
    (step.Disconnected? || step.ReturnedToLobby?) && step.id in known && known[step.id] != {}
  }

  class Loop {
    const world: Registry
    var known: Known

    /** The players each client shows: what CharInfo and DeleteObject packets made of it. */
    ghost var shown: Known
    /** Players added or teleported whose arrival has not been reconciled yet. */
    ghost var arriving: set<int>
    /** Ids whose ties to the others are not in order. */
    ghost var loose: set<int>

    ghost predicate InvExcept(skip: set<int>) reads this, world, world.targets {
      && world.Valid()
      && shown == known
      && Consistent(RangesOf(world.players), known, arriving, loose, skip)
    }

    /** The protocol's invariant. */
    ghost predicate Inv() reads this, world, world.targets { InvExcept({}) }

    constructor ()
      ensures Inv() && known == map[] && loose == {}
      ensures fresh(world) && fresh(world.targets)
    {
      world := new Registry();
      known, shown, arriving, loose := map[], map[], {}, {};
    }

    /** After a step on c, it counts as loose exactly if its ties are not in order. */
    ghost method Settle(c: int)
      requires world.Valid() && shown == known
      requires Consistent(RangesOf(world.players), known, arriving, loose + {c}, {})
      modifies `loose
      ensures Inv()
      ensures loose == if TiesOk(RangesOf(world.players), known, arriving, old(loose), c)
        then old(loose) - {c} else old(loose) + {c}
    {
      hide Consistent, TiesOk;
      RangesValid(world.players);
      Tightened(RangesOf(world.players), known, arriving, loose, c);
      loose := if TiesOk(RangesOf(world.players), known, arriving, loose, c) then loose - {c} else loose + {c};
    }

    // ---------- Packets ----------

    /** CharInfo: only ever sent to a client that does not show the player yet. */
    method SpawnTo(viewer: int, spawned: int)
      requires viewer in shown && spawned !in shown[viewer]
      modifies `shown
      ensures shown == old(shown)[viewer := old(shown)[viewer] + {spawned}]
    {
      shown := shown[viewer := shown[viewer] + {spawned}];
    }

    /** DeleteObject: harmless to a client that does not show the player. */
    method DeleteFrom(viewer: int, gone: int)
      requires viewer in shown
      modifies `shown
      ensures shown == old(shown)[viewer := old(shown)[viewer] - {gone}]
    {
      shown := shown[viewer := shown[viewer] - {gone}];
    }

    // ---------- Reconciling ----------

    /** Shows the two players to each other, sending only what is not shown yet. */
    method LinkPair(c: int, other: int)
      requires shown == known && c in known && other in known && c != other
      modifies `known, `shown
      ensures shown == known == Link(old(known), c, other)
    {
      assert forall a, b :: a in known && b in known[a] ==> known[a] == known[a] + {b};
      if other !in known[c] {
        SpawnTo(c, other);
        known := known[c := known[c] + {other}];
      }
      if c !in known[other] {
        SpawnTo(other, c);
        known := known[other := known[other] + {c}];
      }
    }

    method UnlinkPair(c: int, other: int)
      requires shown == known && c in known && c != other
      modifies `known, `shown
      ensures shown == known == Unlink(old(known), c, other)
    {
      DeleteFrom(c, other);
      known := known[c := known[c] - {other}];
      if other in known {
        DeleteFrom(other, c);
        known := known[other := known[other] - {c}];
      }
    }

    /** Entering range: each side is spawned to the other exactly once. */
    method SpawnWatched(c: int, watched: seq<int>)
      requires shown == known && c in known && forall id :: id in watched ==> id in known
      modifies `known, `shown
      ensures shown == known == Watching(old(known), c, set id | id in watched && id != c)
    {
      hide Watching, Link;
      ghost var w := {};
      WatchingNobody(known, c);
      for i := 0 to |watched|
        invariant shown == known == Watching(old(known), c, w) && known.Keys == old(known).Keys
        invariant w == set id | id in watched[..i] && id != c
      {
        if watched[i] != c {
          LinkWatches(old(known), c, w, watched[i]);
          LinkKeys(known, c, watched[i]);
          LinkPair(c, watched[i]);
          w := w + {watched[i]};
        }
      }
      assert watched[..|watched|] == watched;
    }

    lemma LinkKeys(k: Known, a: int, b: int)
      requires a in k && b in k && a != b
      ensures Link(k, a, b).Keys == k.Keys
    {}

    /** Leaving range: whoever is not kept is despawned, each side from the other. */
    method DespawnUnkept(c: int, keep: set<int>)
      requires shown == known && c in known && c !in known[c]
      modifies `known, `shown
      ensures shown == known == Dropping(old(known), c, old(known)[c] - keep)
    {
      hide Unlink;
      ghost var d := {};
      WatchingNobody(known, c);
      var todo := known[c];
      while todo != {}
        invariant shown == known == Dropping(old(known), c, d)
        invariant d <= old(known)[c] - keep <= d + todo && todo <= old(known)[c]
        decreases todo
      {
        ghost var next := Pick(todo);
        var id :| id in todo;
        todo := todo - {id};
        if id !in keep {
          UnlinkDrops(old(known), c, d, id);
          UnlinkPair(c, id);
          d := d + {id};
        }
      }
      assert d == old(known)[c] - keep;
    }

    /** Brings c's visibility up to date, both ways, after c moved or arrived. */
    method Reconcile(c: int)
      requires InvExcept({c})
      modifies `known, `shown, `arriving, `loose
      ensures Inv() && arriving == old(arriving) - {c}
      ensures c !in world.players ==> known == old(known) && loose == old(loose)
      ensures c in world.players ==>
        && known == Reconciled(RangesOf(world.players), old(known), c)
        && loose == if forall b :: b in world.players && b !in old(loose) && b != c ==>
                        Heals(RangesOf(world.players), old(known), c, b)
                     then old(loose) - {c} else old(loose) + {c}
      ensures c !in old(loose) ==> loose == old(loose)
    {
      hide Consistent, TiesOk, Reconciled, Heals;
      ghost var r := RangesOf(world.players);
      RangesValid(world.players);
      if c in world.players {
        ConsistentProper(r, known, arriving, loose, {c});
        RunQueries(c);
        arriving := arriving - {c};
        ReconciledOnlyTies(r, old(known), old(arriving), loose, c);
        ReconciledTies(r, old(known), old(arriving), loose, c);
        if c !in loose { StaysTied(r, old(known), old(arriving), loose, c); }
        Settle(c);
      } else {
        AbsentConsistent(r, known, arriving, loose, c);
        arriving := arriving - {c};
      }
    }

    method RunQueries(c: int)
      requires world.Valid() && shown == known && c in world.players && Proper(world.players.Keys, known)
      modifies `known, `shown
      ensures shown == known == Reconciled(RangesOf(world.players), old(known), c)
    {
      hide Reconciled, Watching, Dropping;
      assert !Knows(known, c, c);
      var center := world.players[c].position;
      var kept := world.GetPlayersInRange(center, FORGET_RADIUS);
      var watched := world.GetPlayersInRange(center, WATCH_RADIUS);
      QueriesReconcile(world.players, known, c, watched, kept);
      SpawnWatched(c, watched);
      WatchingSelf(old(known), c, set id | id in watched && id != c);
      DespawnUnkept(c, set id | id in kept && id != c);
    }

    // ---------- Steps ----------

    /** AddPlayer: fresh known-sets. An id that others still know comes back with ties that only they know of. */
    method HandleJoin(id: int, position: Position)
      requires Inv()
      modifies world`players, world`regions, `known, `shown, `arriving, `loose
      ensures Inv() && world.players == old(world.players)[id := Player(position, 0)]
      ensures known == old(known)[id := {}] && arriving == old(arriving) + {id}
      ensures loose == if KnownToOthers(old(known), old(loose), id) then old(loose) + {id} else old(loose) - {id}
      ensures id !in old(loose) ==>
        (id in loose <==> KnowsOthers(old(known), old(loose), id))
    {
      hide Consistent, TiesOk, KnownToOthers, KnowsOthers;
      ConsistentProper(RangesOf(world.players), known, arriving, loose, {});
      if id !in loose { KnownIfKnowing(RangesOf(world.players), known, arriving, loose, id); }
      world.AddPlayer(id, position);
      known := known[id := {}];
      shown := shown[id := {}];
      arriving := arriving + {id};
      JoinedOnlyTies(old(world.players), world.players, old(known), old(arriving), loose, id);
      Settle(id);
    }

    /** The position reported by a client, unless the loop itself drives the movement; then reconcile. */
    method HandleMoved(id: int, position: Position, serverDriven: bool)
      requires Inv()
      modifies world`players, world`regions, `known, `shown, `arriving, `loose
      ensures Inv() && arriving == old(arriving) - {id} && loose - {id} == old(loose) - {id}
      ensures id in old(world.players) && !serverDriven ==>
        (world.players, known) == AfterMove(old(world.players), old(known), id, position)
      ensures id !in old(loose) ==> loose == old(loose)
      ensures (world.players, known) == StepTaken(old(world.players), old(known), Moved(id, position, serverDriven))
    {
      hide Consistent, Reconciled, Heals;
      ConsistentProper(RangesOf(world.players), known, arriving, loose, {});
      if !serverDriven { world.UpdatePlayerPosition(id, position); }
      MovedConsistent(old(world.players), world.players, known, arriving, loose, id);
      Reconcile(id);
    }

    /** The client is ready: whoever joined or was teleported is reconciled where it stands. */
    method HandleEntered(id: int)
      requires Inv()
      modifies `known, `shown, `arriving, `loose
      ensures Inv() && arriving == old(arriving) - {id} && loose - {id} == old(loose) - {id}
      ensures id in world.players ==> known == Reconciled(RangesOf(world.players), old(known), id)
      ensures id !in old(loose) ==> loose == old(loose)
      ensures (world.players, known) == StepTaken(old(world.players), old(known), Entered(id))
    {
      hide Consistent, Reconciled, Heals;
      ConsistentProper(RangesOf(world.players), known, arriving, loose, {});
      MovedConsistent(world.players, world.players, known, arriving, loose, id);
      Reconcile(id);
    }

    /** Drops c from the view of the given players. */
    method DespawnFrom(c: int, viewers: seq<int>)
      requires shown == known && forall v :: v in viewers ==> v in known
      modifies `known, `shown
      ensures shown == known == Forgotten(old(known), c, set v | v in viewers)
    {
      ghost var done := {};
      assert known == Forgotten(known, c, {});
      for i := 0 to |viewers|
        invariant shown == known == Forgotten(old(known), c, done)
        invariant done == set v | v in viewers[..i]
      {
        var v := viewers[i];
        ForgottenNext(old(known), c, done, v);
        if v != c {
          DeleteFrom(v, c);
          known := known[v := known[v] - {c}];
        }
        done := done + {v};
      }
      assert viewers[..|viewers|] == viewers;
    }

    /** The surroundings forget the player, and its own client unloads its area. */
    method Decay(id: int)
      requires Inv() && id in world.players
      modifies `known, `shown, `arriving, `loose
      ensures Inv() && known == Vanished(world.players, old(known), id) && arriving == old(arriving) + {id}
      ensures loose == if KnownToOthers(known, old(loose), id) then old(loose) + {id} else old(loose) - {id}
      ensures id !in old(loose) ==> loose == old(loose)
    {
      hide Consistent, TiesOk, KnownToOthers, Forgotten, Vanished;
      ConsistentProper(RangesOf(world.players), known, arriving, loose, {});
      var viewers := world.GetPlayersInRange(world.players[id].position, FORGET_RADIUS);
      VanishedForgotten(world.players, known, id, set v | v in viewers);
      VanishedTies(world.players, known, arriving, loose, id);
      DespawnFrom(id, viewers);
      known := known[id := {}];
      shown := shown[id := {}];
      arriving := arriving + {id};
      Settle(id);
    }

    method ClearTarget(id: int)
      requires Inv() && id in world.players
      modifies world`players, world.targets
      ensures Inv() && world.players == old(world.players)[id := old(world.players)[id].(targetId := 0)]
    {
      world.SetPlayerTarget(id, 0);
      SamePositionsConsistent(old(world.players), world.players, known, arriving, loose);
    }

    /** Puts a player who knows nobody, and counts as arriving, anywhere. */
    method PlaceUnseen(id: int, dest: Position)
      requires Inv() && id in world.players && id in known && known[id] == {} && id in arriving
      modifies world`players, world`regions
      ensures Inv() && world.players == old(world.players)[id := old(world.players)[id].(position := dest)]
    {
      hide Consistent;
      world.UpdatePlayerPosition(id, dest);
      MovedConsistent(old(world.players), world.players, known, arriving, loose, id);
      UnseenConsistent(RangesOf(world.players), known, arriving, loose, id);
    }

    /** Clears the target, decays the player and moves it; its arrival is reconciled later. */
    method HandleTeleport(id: int, dest: Position)
      requires Inv()
      modifies world`players, world`regions, world.targets, `known, `shown, `arriving, `loose
      ensures Inv() && loose - {id} == old(loose) - {id}
      ensures id in old(world.players) ==>
        && known == Vanished(old(world.players), old(known), id) && arriving == old(arriving) + {id}
        && world.players == old(world.players)[id := Player(dest.(z := dest.z + TELEPORT_Z_OFFSET), 0)]
        && (id in loose <==> KnownToOthers(known, old(loose), id))
      ensures id !in old(loose) ==> loose == old(loose)
      ensures old(loose) == {} && id in old(world.players) ==>
        known == Forgotten(old(known), id, old(known).Keys)[id := {}]
      ensures (world.players, known) == StepTaken(old(world.players), old(known), Teleported(id, dest))
    {
      hide Consistent, KnownToOthers, Vanished, Forgotten;
      if id !in world.players { return; }
      ConsistentProper(RangesOf(world.players), known, arriving, loose, {});
      if loose == {} { VanishedFromAll(world.players, known, arriving, id); }
      ClearTarget(id);
      VanishedSame(old(world.players), world.players, known, id);
      Decay(id);
      VanishedKeys(world.players, old(known), id);
      PlaceUnseen(id, dest.(z := dest.z + TELEPORT_Z_OFFSET));
    }

    /**
     The disconnect command takes the player out of everyone else's view, but leaves its own known-set. A restart
     that is refused sends it too, and the player stays: its ties are then in order exactly if it knew nobody
     but loose ones.
     */
    method HandleDisconnect(id: int)
      requires Inv()
      modifies `known, `shown, `loose
      ensures Inv() && shown == known == Forgotten(old(known), id, old(known).Keys)
      ensures loose - {id} == old(loose) - {id} && (id !in known ==> id !in loose)
      ensures id in known && id !in old(loose) ==>
        loose == if KnowsOthers(old(known), old(loose), id) then old(loose) + {id} else old(loose)
      ensures old(loose) == {} && !Strands(old(known), Disconnected(id)) ==> loose == {}
      ensures (world.players, known) == StepTaken(old(world.players), old(known), Disconnected(id))
    {
      hide Consistent, TiesOk, Forgotten;
      RangesValid(world.players);
      var viewers := KnownBy(id);
      DespawnFrom(id, viewers);
      ForgottenByViewers(old(known), id, set v | v in viewers);
      ForgottenOnlyTies(RangesOf(world.players), old(known), arriving, loose, id);
      DisconnectedTies(RangesOf(world.players), old(known), arriving, loose, id);
      ForgottenKeys(old(known), id, old(known).Keys);
      Settle(id);
    }

    /** A case: after a refused restart the player sees someone who does not see it. */
    method RefusedRestart(id: int, b: int)
      requires Inv() && loose == {} && Knows(known, id, b)
      modifies `known, `shown, `loose
      ensures Inv() && id in loose && Knows(known, id, b) && !Knows(known, b, id)
    {
      assert b != id && KnowsOthers(known, loose, id);
      HandleDisconnect(id);
    }

    /** A case: a live id that joins without having left is known by players it does not know. */
    method JoinWithoutLeaving(id: int, b: int, position: Position)
      requires Inv() && loose == {} && Knows(known, id, b)
      modifies world`players, world`regions, `known, `shown, `arriving, `loose
      ensures Inv() && id in loose && Knows(known, b, id) && !Knows(known, id, b)
    {
      assert b != id && KnowsOthers(known, loose, id) && Knows(known, b, id);
      HandleJoin(id, position);
    }

    /** A case: whoever returns to the lobby and enters again is known from the start, and so is not spawned. */
    method LobbyAndBack(id: int, b: int, position: Position)
      requires Inv() && loose == {} && Knows(known, b, id)
      modifies world`players, world`regions, world.targets, `known, `shown, `arriving, `loose
      ensures Inv() && id in loose && b in shown && id in shown[b] && id in known && known[id] == {}
      ensures world.players == old(world.players)[id := Player(position, 0)]
    {
      assert b != id && KnownToOthers(known, loose, id);
      HandleLobby(id);
      assert KnownToOthers(known, loose, id) by { assert b !in loose && Knows(known, b, id); }
      HandleJoin(id, position);
    }

    /** The player is removed from the world without the disconnect command, as on a return to the lobby. */
    method HandleLobby(id: int)
      requires Inv()
      modifies world`players, world`regions, world.targets, `known, `shown, `arriving, `loose
      ensures Inv() && world.players == old(world.players) - {id} && arriving == old(arriving) - {id}
      ensures known == old(known) - {id}
      ensures loose == if KnownToOthers(old(known), old(loose), id) then old(loose) + {id} else old(loose) - {id}
      ensures old(loose) == {} && !Strands(old(known), ReturnedToLobby(id)) ==> loose == {}
      ensures (world.players, known) == StepTaken(old(world.players), old(known), ReturnedToLobby(id))
    {
      hide RangesOf, Consistent, TiesOk, KnownToOthers, Stepped, Forgotten, Vanished;
      if id !in loose { KnownIfKnowing(RangesOf(world.players), known, arriving, loose, id); }
      world.RemovePlayer(id);
      known := known - {id};
      shown := shown - {id};
      arriving := arriving - {id};
      RemovedOnlyTies(old(world.players), old(known), old(arriving), loose, id);
      Settle(id);
    }

    /** The player leaves: the disconnect command, then the removal from the world. */
    method HandleLeft(id: int)
      requires Inv()
      modifies world`players, world`regions, world.targets, `known, `shown, `arriving, `loose
      ensures Inv() && world.players == old(world.players) - {id} && arriving == old(arriving) - {id}
      ensures known == Forgotten(old(known), id, old(known).Keys) - {id} && loose == old(loose) - {id}
      ensures (world.players, known) == StepTaken(old(world.players), old(known), Left(id))
    {
      hide Consistent;
      HandleDisconnect(id);
      assert !KnownToOthers(known, loose, id);
      HandleLobby(id);
    }

    /** The players that have c in view. */
    method KnownBy(c: int) returns (viewers: seq<int>)
      ensures forall v :: v in viewers <==> v != c && Knows(known, v, c)
    {
      viewers := [];
      var todo := known.Keys;
      while todo != {}
        invariant todo <= known.Keys
        invariant forall v :: v in viewers <==> v in known.Keys - todo && v != c && c in known[v]
      {
        ghost var next := Pick(todo);
        var v :| v in todo;
        todo := todo - {v};
        if v != c && c in known[v] { viewers := viewers + [v]; }
      }
    }

    // ---------- Runs ----------

    /**
     One step of the loop. A login of a live id kicks the old session first. No other id gets loose, or has its ties
     put in order.
     */
    method Perform(step: Step)
      requires Inv()
      modifies world`players, world`regions, world.targets, `known, `shown, `arriving, `loose
      ensures Inv() && loose - {step.id} == old(loose) - {step.id}
      ensures old(loose) == {} && !Strands(old(known), step) ==> loose == {}
      ensures (world.players, known) == StepTaken(old(world.players), old(known), step)
    {
      hide Consistent, Reconciled, Heals, KnownToOthers, KnowsOthers, Forgotten, Vanished, StepTaken;
      match step {
        case Join(id, position) => HandleLogin(id, position);
        case Entered(id) => HandleEntered(id);
        case Moved(id, position, serverDriven) => HandleMoved(id, position, serverDriven);
        case Teleported(id, dest) => HandleTeleport(id, dest);
        case Disconnected(id) => HandleDisconnect(id);
        case ReturnedToLobby(id) => HandleLobby(id);
        case Left(id) => HandleLeft(id);
      }
    }

    method HandleLogin(id: int, position: Position)
      requires Inv()
      modifies world`players, world`regions, world.targets, `known, `shown, `arriving, `loose
      ensures Inv() && loose - {id} == old(loose) - {id}
      ensures id !in old(loose) ==> loose == old(loose)
      ensures (world.players, known) == StepTaken(old(world.players), old(known), Join(id, position))
    {
      hide Consistent, KnownToOthers, Forgotten;
      LoginForgets(Forgotten(known, id, known.Keys), id);
      LoginKeepsKeys(world.players, id, Player(position, 0));
      if id in world.players { HandleLeft(id); }
      ConsistentProper(RangesOf(world.players), known, arriving, loose, {});
      HandleJoin(id, position);
    }

    /** The invariant holds over every run. */
    method Run(steps: seq<Step>)
      requires Inv()
      modifies world`players, world`regions, world.targets, `known, `shown, `arriving, `loose
      ensures Inv()
      ensures forall id :: id in loose && id !in old(loose) ==> exists s :: s in steps && s.id == id
      ensures (world.players, known) == StepsTaken(old(world.players), old(known), steps)
    {
      for n := 0 to |steps|
        invariant Inv()
        invariant forall id :: id in loose && id !in old(loose) ==> exists s :: s in steps[..n] && s.id == id
        invariant (world.players, known) == StepsTaken(old(world.players), old(known), steps[..n])
      {
        hide Consistent, StepTaken;
        ghost var was := loose;
        Perform(steps[n]);
        OnlyOneLoose(was, loose, steps[n].id);
        assert steps[..n + 1] == steps[..n] + [steps[n]] && steps[..n + 1][..n] == steps[..n];
      }
      assert steps[..|steps|] == steps;
    }

    /** Nobody is loose, and so all ties are in order, until a step strands someone. */
    method RunUntilStranded(steps: seq<Step>) returns (n: nat)
      requires Inv() && loose == {}
      modifies world`players, world`regions, world.targets, `known, `shown, `arriving, `loose
      ensures Inv() && loose == {} && n <= |steps| && (n < |steps| ==> Strands(known, steps[n]))
      ensures (world.players, known) == StepsTaken(old(world.players), old(known), steps[..n])
    {
      n := 0;
      while n < |steps| && !Strands(known, steps[n])
        invariant Inv() && loose == {} && n <= |steps|
        invariant (world.players, known) == StepsTaken(old(world.players), old(known), steps[..n])
      {
        hide Consistent, StepTaken;
        Perform(steps[n]);
        assert steps[..n + 1][..n] == steps[..n];
        n := n + 1;
      }
    }
  }
}
