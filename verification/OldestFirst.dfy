/**
 The workers' batch query, `ORDER BY time ASC LIMIT n` over the rows that
 qualify: what it may answer, and which rows it reaches.
 */
module OldestFirst {

  type Id = nat

  predicate Distinct(ids: seq<Id>) { forall i, j :: 0 <= i < j < |ids| ==> ids[i] != ids[j] }

  /** The oldest of the qualifying rows, given by their times, up to the limit; any of those that tie. */
  ghost predicate IsAnswer(times: map<Id, int>, limit: nat, ids: seq<Id>) {
    && Distinct(ids) && |ids| <= limit
    && (forall i :: 0 <= i < |ids| ==> ids[i] in times)
    && (forall i, j :: 0 <= i < j < |ids| ==> times[ids[i]] <= times[ids[j]])
    && (forall id :: id in times && id !in ids ==>
         |ids| == limit && forall i :: 0 <= i < |ids| ==> times[ids[i]] <= times[id])
  }

  function Older(times: map<Id, int>, t: int): set<Id> { set id | id in times && times[id] < t }

  /** The other rows that are not younger than g. */
  function NotYounger(times: map<Id, int>, g: Id): set<Id>
    requires g in times
  {
    set id | id in times && id != g && times[id] <= times[g]
  }

  predicate DistinctTimes(times: map<Id, int>) {
    forall a, b :: a in times && b in times && times[a] == times[b] ==> a == b
  }

  lemma {:induction false} SubsetCount(a: set<Id>, b: set<Id>)
    requires a <= b
    ensures |a| <= |b|
  {
    if a != {} {
      var x :| x in a;
      SubsetCount(a - {x}, b - {x});
    }
  }

  function Elements(ids: seq<Id>): set<Id> { set id | id in ids }

  lemma {:induction false} DistinctCount(ids: seq<Id>)
    requires Distinct(ids)
    ensures |Elements(ids)| == |ids|
  {
    if ids != [] {
      var n := |ids| - 1;
      DistinctCount(ids[..n]);
      assert ids == ids[..n] + [ids[n]];
      assert Elements(ids) == Elements(ids[..n]) + {ids[n]};
      assert ids[n] !in ids[..n];
    }
  }

  /** Whoever is selected has nothing older left out. */
  lemma SelectedBeforeYounger(times: map<Id, int>, limit: nat, ids: seq<Id>, g: Id, out: Id)
    requires IsAnswer(times, limit, ids) && g in ids && out in times && out !in ids
    ensures g in times && times[g] <= times[out] && |ids| == limit
  {
    var i :| 0 <= i < |ids| && ids[i] == g;
  }

  /**
   A row is selected only if fewer rows than the limit are older, and if fewer
   others than the limit are not younger; where no two share a time, if and
   only if.
   */
  lemma WhenSelected(times: map<Id, int>, limit: nat, ids: seq<Id>, g: Id)
    requires IsAnswer(times, limit, ids) && g in times
    ensures g in ids ==> |Older(times, times[g])| < limit
    ensures |NotYounger(times, g)| < limit ==> g in ids
    ensures DistinctTimes(times) ==> (g in ids <==> |Older(times, times[g])| < limit)
  {
    DistinctCount(ids);
    if g in ids {
      forall id | id in Older(times, times[g]) ensures id in Elements(ids) - {g} {
        if id !in ids { SelectedBeforeYounger(times, limit, ids, g, id); }
      }
      SubsetCount(Older(times, times[g]), Elements(ids) - {g});
    } else {
      forall id | id in Elements(ids) ensures id in NotYounger(times, g) {
        SelectedBeforeYounger(times, limit, ids, id, g);
      }
      SubsetCount(Elements(ids), NotYounger(times, g));
      if DistinctTimes(times) {
        assert NotYounger(times, g) == Older(times, times[g]);
      }
      FullWhenLeftOut(times, limit, ids, g);
    }
  }

  lemma FullWhenLeftOut(times: map<Id, int>, limit: nat, ids: seq<Id>, g: Id)
    requires IsAnswer(times, limit, ids) && g in times && g !in ids
    ensures |ids| == limit
  {
  }

  lemma {:induction false} Oldest(times: map<Id, int>, ids: set<Id>) returns (x: Id)
    requires ids != {} && ids <= times.Keys
    ensures x in ids && forall id :: id in ids ==> times[x] <= times[id]
  {
    x :| x in ids;
    if ids != {x} {
      var y := Oldest(times, ids - {x});
      if times[y] < times[x] { x := y; }
    }
  }

  /** The query always has an answer. */
  lemma {:induction false} AnswerExists(times: map<Id, int>, limit: nat) returns (ids: seq<Id>)
    ensures IsAnswer(times, limit, ids)
  {
    if limit == 0 {
      ids := [];
    } else {
      ids := AnswerExists(times, limit - 1);
      var rest := times.Keys - Elements(ids);
      if rest == {} {
        forall id | id in times ensures id in ids {
          assert id !in rest;
        }
      } else {
        var x := Oldest(times, rest);
        OneMore(times, limit - 1, ids, x);
        ids := ids + [x];
      }
    }
  }

  lemma OneMore(times: map<Id, int>, limit: nat, ids: seq<Id>, x: Id)
    requires IsAnswer(times, limit, ids) && x in times && x !in ids
    requires forall id :: id in times && id !in ids ==> times[x] <= times[id]
    ensures IsAnswer(times, limit + 1, ids + [x])
  {
    var more := ids + [x];
    assert |ids| == limit;
    forall id | id in times && id !in more ensures id !in ids && times[x] <= times[id] {
      assert id in ids ==> id in more;
    }
    forall i | 0 <= i < |ids| ensures ids[i] != x && times[ids[i]] <= times[x] {
    }
  }
}
