/** The turn scheduler: an owning list of creatures plus an ordered set of the
    same creatures, built lazily, whose first element is the creature to move next.

    The ordered set (a balanced tree in the program) is modelled by the
    sequence of its elements in iteration order, kept strictly sorted. */
module Scheduling {
  import opened Entities

  /** The comparator of the ordered set on (local time, unique id) pairs: the
      earlier local time first, and among equal local times the larger unique
      id first. */
  predicate BeforeAt(timeA: real, idA: int, timeB: real, idB: int)
  {
    timeA < timeB || (timeA == timeB && idA > idB)
  }

  /** The comparator applied to two creatures as they stand. */
  predicate Before(a: Creature, b: Creature)
    reads a`localTime, b`localTime
  {
    BeforeAt(a.localTime, a.uniqueId, b.localTime, b.uniqueId)
  }

  /** The comparator is a strict total order on creatures with distinct ids. */
  lemma BeforeIsStrictTotalOrder(a: Creature, b: Creature, c: Creature)
    ensures !Before(a, a)
    ensures Before(a, b) ==> !Before(b, a)
    ensures Before(a, b) && Before(b, c) ==> Before(a, c)
    ensures a.uniqueId != b.uniqueId ==> Before(a, b) || Before(b, a)
  {
  }

  /** The iteration order of an ordered set under `Before`. */
  ghost predicate StrictlySorted(q: seq<Creature>)
    reads q`localTime
  {
    forall i, j :: 0 <= i < j < |q| ==> Before(q[i], q[j])
  }

  class TimeQueue {
    /** The owning list, in insertion order. */
    var creatures: seq<Creature>
    /** The elements of the ordered set in iteration order (empty until built). */
    var queue: seq<Creature>
    /** Whether the ordered set has been built yet. */
    var queueBuilt: bool

    ghost predicate Valid()
      reads this, queue`localTime
    {
      && (forall i, j :: 0 <= i < j < |creatures| ==> creatures[i].uniqueId != creatures[j].uniqueId)
      && (queueBuilt ==> StrictlySorted(queue) && forall c :: c in queue ==> c in creatures)
      && (!queueBuilt ==> queue == [])
    }

    /** The creatures of the owning list. */
    ghost function Members(): set<Creature>
      reads this`creatures
    {
      set c | c in creatures
    }

    /** The creatures the ordered set holds; before it is built, it is going to
        hold the whole owning list. */
    ghost function Scheduled(): set<Creature>
      reads this
    {
      if queueBuilt then set c | c in queue else Members()
    }

    /** Outside a beforeUpdateTime/afterUpdateTime bracket the ordered set and
        the owning list hold the same creatures. */
    ghost predicate Consistent()
      reads this
    {
      Scheduled() == Members()
    }

    /** A queue restored from a save: only the owning list is saved, and the
        ordered set is built on first use. */
    constructor (saved: seq<Creature>)
      requires forall i, j :: 0 <= i < j < |saved| ==> saved[i].uniqueId != saved[j].uniqueId
      ensures Valid() && Consistent()
      ensures creatures == saved && !queueBuilt
    {
      creatures := saved;
      queue := [];
      queueBuilt := false;
    }

    /** Inserts into the ordered set; an element already there is kept once. */
    method Insert(c: Creature)
      requires queueBuilt && StrictlySorted(queue)
      requires forall d :: d in queue && d != c ==> d.uniqueId != c.uniqueId
      modifies this`queue
      ensures StrictlySorted(queue)
      ensures forall d :: d in queue <==> d in old(queue) || d == c
      ensures (set d | d in queue) == (set d | d in old(queue)) + {c}
    {
      var p := 0;
      while p < |queue| && Before(queue[p], c)
        invariant 0 <= p <= |queue|
        invariant forall k :: 0 <= k < p ==> Before(queue[k], c)
      {
        p := p + 1;
      }
      if p < |queue| && queue[p] == c {
        return;
      }
      forall k | p <= k < |queue|
        ensures Before(c, queue[k])
      {
        assert Before(queue[p], queue[k]) || k == p;
      }
      queue := queue[..p] + [c] + queue[p..];
    }

    /** Erases from the ordered set; erasing an absent element does nothing. */
    method Erase(c: Creature)
      requires queueBuilt && StrictlySorted(queue)
      modifies this`queue
      ensures StrictlySorted(queue)
      ensures forall d :: d in queue <==> d in old(queue) && d != c
      ensures (set d | d in queue) == (set d | d in old(queue)) - {c}
    {
      var p := 0;
      while p < |queue| && queue[p] != c
        invariant 0 <= p <= |queue|
        invariant forall k :: 0 <= k < p ==> queue[k] != c
      {
        p := p + 1;
      }
      if p < |queue| {
        forall k | 0 <= k < |queue| && k != p
          ensures queue[k] != c
        {
          assert k < p ==> Before(queue[k], queue[p]);
          assert p < k ==> Before(queue[p], queue[k]);
        }
        queue := queue[..p] + queue[p + 1..];
      }
    }

    /** getQueue: builds the ordered set from the owning list on first use. */
    method GetQueue()
      requires Valid()
      modifies this`queue, this`queueBuilt
      ensures Valid() && queueBuilt
      ensures Scheduled() == old(Scheduled())
      ensures old(queueBuilt) ==> queue == old(queue)
    {
      if !queueBuilt {
        queue := [];
        queueBuilt := true;
        var i := 0;
        while i < |creatures|
          invariant 0 <= i <= |creatures|
          invariant queueBuilt && StrictlySorted(queue)
          invariant forall d :: d in queue <==> d in creatures[..i]
        {
          Insert(creatures[i]);
          assert creatures[..i + 1] == creatures[..i] + [creatures[i]];
          i := i + 1;
        }
        assert creatures[..i] == creatures;
        assert (set d | d in queue) == Members();
      }
    }

    /** addCreature: the creature joins the ordered set and the end of the owning list. */
    method AddCreature(c: Creature)
      requires Valid()
      requires forall d :: d in creatures ==> d.uniqueId != c.uniqueId
      modifies this`queue, this`queueBuilt, this`creatures
      ensures Valid() && queueBuilt
      ensures creatures == old(creatures) + [c]
      ensures Scheduled() == old(Scheduled()) + {c}
    {
      GetQueue();
      Insert(c);
      creatures := creatures + [c];
    }

    /** removeCreature: takes a member out of both structures and hands it back;
        a creature that is not a member is a fatal failure (the result is null). */
    method RemoveCreature(c: Creature) returns (r: Creature?)
      requires Valid()
      modifies this`queue, this`queueBuilt, this`creatures
      ensures Valid()
      ensures r == null <==> c !in old(creatures)
      ensures r == null ==> creatures == old(creatures) && Scheduled() == old(Scheduled())
      ensures r != null ==> r == c && queueBuilt && Scheduled() == old(Scheduled()) - {c}
      ensures c !in creatures && forall d :: d in creatures ==> d in old(creatures)
      ensures r != null ==> exists i :: 0 <= i < |old(creatures)| && old(creatures)[i] == c
                              && creatures == old(creatures)[..i] + old(creatures)[i + 1..]
    {
      var i := 0;
      while i < |creatures|
        invariant 0 <= i <= |creatures|
        invariant forall k :: 0 <= k < i ==> creatures[k] != c
      {
        if creatures[i] == c {
          GetQueue();
          Erase(c);
          ghost var before := creatures;
          creatures := creatures[..i] + creatures[i + 1..];
          forall d | d in queue
            ensures d in creatures
          {
            var k :| 0 <= k < |before| && before[k] == d;
            assert k != i;
            if k < i {
              assert creatures[k] == d;
            } else {
              assert creatures[k - 1] == d;
            }
          }
          return c;
        }
        i := i + 1;
      }
      return null;
    }

    /** getAllCreatures: the owning list, in insertion order. */
    method GetAllCreatures() returns (r: seq<Creature>)
      ensures r == creatures
    {
      r := creatures;
    }

    /** getNextCreature: null exactly when there are no creatures, otherwise the
        first element of the ordered set, which precedes every other one. */
    method GetNextCreature() returns (r: Creature?)
      requires Valid()
      requires creatures != [] ==> Scheduled() != {}
      modifies this`queue, this`queueBuilt
      ensures Valid() && Scheduled() == old(Scheduled())
      ensures r == null <==> creatures == []
      ensures r != null ==> r in Scheduled() && forall d :: d in Scheduled() && d != r ==> Before(r, d)
    {
      if |creatures| == 0 {
        return null;
      }
      GetQueue();
      assert queue != [] by {
        var d :| d in Scheduled();
      }
      r := queue[0];
      forall d | d in Scheduled() && d != r
        ensures Before(r, d)
      {
        var k :| 0 <= k < |queue| && queue[k] == d;
      }
    }

    /** beforeUpdateTime: the creature leaves the ordered set while its time changes. */
    method BeforeUpdateTime(c: Creature)
      requires Valid()
      modifies this`queue, this`queueBuilt
      ensures Valid() && queueBuilt
      ensures Scheduled() == old(Scheduled()) - {c}
    {
      GetQueue();
      Erase(c);
    }

    /** afterUpdateTime: the creature re-enters the ordered set at the place its
        new local time gives it. */
    method AfterUpdateTime(c: Creature)
      requires Valid() && c in creatures
      modifies this`queue, this`queueBuilt
      ensures Valid() && queueBuilt
      ensures Scheduled() == old(Scheduled()) + {c}
    {
      GetQueue();
      Insert(c);
    }
  }
}
