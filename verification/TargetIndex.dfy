/**
 The reverse index of who targets what: each targeter's current target, and for every target the
 set of its targeters. 0 means no target.
 */
module TargetIndex {
  import opened Wrappers

  class Index {
    var current: map<int, int>
    var targeters: map<int, set<int>>

    /** The two maps are inverse to each other, and no empty set is stored. */
    ghost predicate Valid() reads this {
      && (forall c :: c in current ==> current[c] != 0 && current[c] in targeters && c in targeters[current[c]])
      && (forall t :: t in targeters ==> targeters[t] != {})
      && (forall t, c :: t in targeters && c in targeters[t] ==> c in current && current[c] == t)
    }

    constructor ()
      ensures Valid() && current == map[]
    {
      current, targeters := map[], map[];
    }

    method Set(targeter: int, newTarget: int)
      requires Valid()
      modifies this
      ensures Valid()
      ensures current == if newTarget == 0 then old(current) - {targeter} else old(current)[targeter := newTarget]
    {
      var oldTarget := if targeter in current then current[targeter] else 0;
      if oldTarget == newTarget { return; }
      if oldTarget != 0 {
        if oldTarget in targeters {
          targeters := targeters[oldTarget := targeters[oldTarget] - {targeter}];
          if targeters[oldTarget] == {} { targeters := targeters - {oldTarget}; }
        }
      }
      if newTarget != 0 {
        var s := if newTarget in targeters then targeters[newTarget] else {};
        targeters := targeters[newTarget := s + {targeter}];
        current := current[targeter := newTarget];
      } else {
        current := current - {targeter};
      }
    }

    /** The object leaves the world: nobody targets it any more. */
    method DropTarget(objectId: int)
      requires Valid()
      modifies this
      ensures Valid()
      ensures current == map c | c in old(current) && old(current)[c] != objectId :: old(current)[c]
    {
      if objectId !in targeters {
        assert forall c :: c in current ==> current[c] != objectId;
        return;
      }
      var todo := targeters[objectId];
      while todo != {}
        invariant targeters == old(targeters) && todo <= targeters[objectId]
        invariant current == map c | c in old(current) && c !in targeters[objectId] - todo :: old(current)[c]
      {
        ghost var next := Pick(todo);
        var charId :| charId in todo;
        todo := todo - {charId};
        if charId in current && current[charId] == objectId { current := current - {charId}; }
      }
      targeters := targeters - {objectId};
      assert forall c :: c in old(current) ==>
        (c in old(targeters)[objectId] <==> old(current)[c] == objectId);
    }

    /** Exactly the targeters of an object, each once. */
    method TargetersOf(objectId: int) returns (r: seq<int>)
      requires Valid()
      ensures forall c :: c in r <==> c in current && current[c] == objectId
      ensures forall i, j :: 0 <= i < j < |r| ==> r[i] != r[j]
    {
      if objectId !in targeters { return []; }
      var todo := targeters[objectId];
      r := [];
      while todo != {}
        invariant todo <= targeters[objectId]
        invariant forall c :: c in r <==> c in targeters[objectId] - todo
        invariant forall i, j :: 0 <= i < j < |r| ==> r[i] != r[j]
      {
        ghost var next := Pick(todo);
        var id :| id in todo;
        todo := todo - {id};
        r := r + [id];
      }
    }
  }
}
