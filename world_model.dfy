/** The world model: the step loop that hands turns to creatures in schedule
    order and fires the global tick, the registry of dead creatures, and the
    direct links between levels. */
module World {
  import opened Wrappers
  import opened Entities
  import opened Scheduling

  datatype StairDirection = Up | Down

  function Opposite(d: StairDirection): (r: StairDirection)
    ensures r != d
  {
    match d
    case Up => Down
    case Down => Up
  }

  lemma OppositeIsInvolution(d: StairDirection)
    ensures Opposite(Opposite(d)) == d
  {
  }

  /** The program's stair keys form an enumeration; the model only compares them. */
  type StairKey = nat

  /** The key of the level-link table: a stair direction and key on a source level. */
  datatype LinkKey = LinkKey(dir: StairDirection, key: StairKey, from: Level)

  /** Where a level change puts the creature: on `level`, at the stair of the
      given direction and key. */
  datatype Landing = Landing(level: Level, dir: StairDirection, key: StairKey)

  /** The table after addLink(dir, key, l1, l2): the two entries of the pair are
      written and every other entry is kept. */
  function WithLink(links: map<LinkKey, Level>, dir: StairDirection, key: StairKey, l1: Level, l2: Level)
    : (r: map<LinkKey, Level>)
    ensures r.Keys == links.Keys + {LinkKey(dir, key, l1), LinkKey(Opposite(dir), key, l2)}
    ensures r[LinkKey(dir, key, l1)] == l2
    ensures r[LinkKey(Opposite(dir), key, l2)] == l1
    ensures forall k :: (k in links && k != LinkKey(dir, key, l1) && k != LinkKey(Opposite(dir), key, l2))
                          ==> r[k] == links[k]
  {
    links[LinkKey(dir, key, l1) := l2][LinkKey(Opposite(dir), key, l2) := l1]
  }

  /** Every link can be walked back: taking the same key in the opposite
      direction from the target leads to the source. */
  ghost predicate LinksSymmetric(links: map<LinkKey, Level>)
  {
    forall k :: k in links ==>
      var back := LinkKey(Opposite(k.dir), k.key, links[k]);
      back in links && links[back] == k.from
  }

  /** Adding a link whose two entries are new keeps every link walkable back. */
  lemma WithLinkKeepsSymmetry(links: map<LinkKey, Level>, dir: StairDirection, key: StairKey, l1: Level, l2: Level)
    requires LinksSymmetric(links)
    requires LinkKey(dir, key, l1) !in links && LinkKey(Opposite(dir), key, l2) !in links
    ensures LinksSymmetric(WithLink(links, dir, key, l1, l2))
  {
    var r := WithLink(links, dir, key, l1, l2);
    forall k | k in r
      ensures LinkKey(Opposite(k.dir), k.key, r[k]) in r && r[LinkKey(Opposite(k.dir), k.key, r[k])] == k.from
    {
      OppositeIsInvolution(k.dir);
      if k == LinkKey(dir, key, l1) || k == LinkKey(Opposite(dir), key, l2) {
        OppositeIsInvolution(dir);
      } else {
        var back := LinkKey(Opposite(k.dir), k.key, links[k]);
        assert back in links && links[back] == k.from;
      }
    }
  }

  /** Overwriting an existing link can leave the old partner entry pointing at a
      level that no longer links back. */
  lemma OverwrittenLinkBreaksSymmetry(a: Level, b: Level, c: Level)
    requires b != c
    ensures var links := WithLink(map[], Down, 0, a, b);
            LinksSymmetric(links) && !LinksSymmetric(WithLink(links, Down, 0, a, c))
  {
    var links := WithLink(map[], Down, 0, a, b);
    var links' := WithLink(links, Down, 0, a, c);
    assert LinkKey(Up, 0, b) in links';
    assert links'[LinkKey(Down, 0, a)] == c;
  }

  /** The collective's own flag, when a collective exists. */
  datatype CollectiveFlags = CollectiveFlags(turnBased: bool)

  /** What a creature's turn did, as far as the step loop can see: its next
      turn's time, whether it died, and whether the player still controls it. */
  datatype Move = Move(newTime: real, dies: bool, staysPlayer: bool)

  /** Why update stopped. */
  datatype UpdateResult =
    | ReachedHorizon   // the next creature's time is past the requested time
    | Unpossessed      // the moving creature stopped being the player
    | NoMoreCreatures  // the program fails a CHECK here
    | MovesExhausted   // the supplied turns ran out

  /** A turn handed out by the step loop: the creature that was due, its time,
      and whether it was the player and dead when its turn came. */
  datatype Turn = Turn(creature: Creature, time: real, wasPlayer: bool, wasDead: bool)

  /** The move of a turn unpossesses the player: the creature was alive and the
      player, and the move hands it back to its AI. */
  predicate Unpossesses(t: Turn, m: Move)
  {
    !t.wasDead && t.wasPlayer && !m.staysPlayer
  }

  /** The creatures the turns killed, in turn order: a turn kills its creature
      when the creature was alive and its move (the k-th) dies. */
  function Died(turns: seq<Turn>, moves: seq<Move>): seq<Creature>
    requires |turns| <= |moves|
  {
    if turns == [] then []
    else
      var k := |turns| - 1;
      Died(turns[..k], moves) + (if !turns[k].wasDead && moves[k].dies then [turns[k].creature] else [])
  }

  /** The time of the last world tick after the turns, starting from `last0`:
      a turn ticks when it is at least one unit past the last tick. */
  function LastTickAfter(last0: real, turns: seq<Turn>): real
  {
    if turns == [] then last0
    else
      var last := LastTickAfter(last0, turns[..|turns| - 1]);
      var time := turns[|turns| - 1].time;
      if time >= last + 1.0 then time else last
  }

  /** The times of the world ticks the turns fire, in order. */
  function TickTimes(last0: real, turns: seq<Turn>): seq<real>
  {
    if turns == [] then []
    else
      var last := LastTickAfter(last0, turns[..|turns| - 1]);
      var time := turns[|turns| - 1].time;
      TickTimes(last0, turns[..|turns| - 1]) + (if time >= last + 1.0 then [time] else [])
  }

  /** Every turn was due by `totalTime` and taken by a creature of `queued0`. */
  predicate TurnsDue(turns: seq<Turn>, totalTime: real, queued0: set<Creature>)
  {
    forall k :: 0 <= k < |turns| ==> turns[k].time <= totalTime && turns[k].creature in queued0
  }

  /** None of the first `n` turns unpossessed the player. */
  predicate NoneUnpossess(turns: seq<Turn>, moves: seq<Move>, n: nat)
    requires n <= |turns| <= |moves|
  {
    forall k :: 0 <= k < n ==> !Unpossesses(turns[k], moves[k])
  }

  /** A turn due by `totalTime` extends the due turns, and the turns still
      unpossess no one exactly when the new one does not. */
  lemma TurnsDueAppended(turns: seq<Turn>, t: Turn, moves: seq<Move>, totalTime: real, queued0: set<Creature>)
    requires |turns| < |moves| && TurnsDue(turns, totalTime, queued0) && NoneUnpossess(turns, moves, |turns|)
    requires t.time <= totalTime && t.creature in queued0
    ensures TurnsDue(turns + [t], totalTime, queued0)
    ensures var u := turns + [t]; |u| == |turns| + 1 && u[|u| - 1] == t
    ensures NoneUnpossess(turns + [t], moves, |turns + [t]| - 1)
    ensures NoneUnpossess(turns + [t], moves, |turns + [t]|) <==> !Unpossesses(t, moves[|turns + [t]| - 1])
  {
    assert forall k :: 0 <= k < |turns| ==> (turns + [t])[k] == turns[k];
  }

  /** The last tick after the turns is the latest tick they fired, or the
      starting one when they fired none. */
  lemma {:induction false} LastTickIsLatestTick(last0: real, turns: seq<Turn>)
    ensures var fired := TickTimes(last0, turns);
            LastTickAfter(last0, turns) == if fired == [] then last0 else fired[|fired| - 1]
  {
    if turns != [] {
      LastTickIsLatestTick(last0, turns[..|turns| - 1]);
    }
  }

  /** Turns due by `totalTime` fire their ticks by `totalTime`, and the last
      tick never goes back. */
  lemma {:induction false} TicksWithin(last0: real, turns: seq<Turn>, totalTime: real, queued0: set<Creature>)
    requires TurnsDue(turns, totalTime, queued0)
    ensures LastTickAfter(last0, turns) >= last0
    ensures forall k :: 0 <= k < |TickTimes(last0, turns)| ==> TickTimes(last0, turns)[k] <= totalTime
  {
    if turns != [] {
      var init := turns[..|turns| - 1];
      assert TurnsDue(init, totalTime, queued0) by {
        forall k | 0 <= k < |init|
          ensures init[k].time <= totalTime && init[k].creature in queued0
        {
          assert init[k] == turns[k];
        }
      }
      TicksWithin(last0, init, totalTime, queued0);
      assert turns[|turns| - 1].time <= totalTime;
    }
  }

  /** One more turn extends the dead and the ticks by what that
      turn alone contributes. */
  lemma TurnAppended(turns: seq<Turn>, t: Turn, moves: seq<Move>, last0: real)
    requires |turns| < |moves|
    ensures Died(turns + [t], moves) ==
              Died(turns, moves) + (if !t.wasDead && moves[|turns|].dies then [t.creature] else [])
    ensures var last := LastTickAfter(last0, turns);
            && LastTickAfter(last0, turns + [t]) == (if t.time >= last + 1.0 then t.time else last)
            && TickTimes(last0, turns + [t]) == TickTimes(last0, turns) + (if t.time >= last + 1.0 then [t.time] else [])
  {
    assert (turns + [t])[..|turns|] == turns;
  }

  /** What the step loop reads of a creature: the time of its next turn,
      whether the player controls it, and whether it is dead. */
  datatype Attrs = Attrs(time: real, player: bool, dead: bool)

  /** The scheduler as the step loop sees it, over a fixed set of creatures:
      which of them are queued, and the attributes of each. */
  datatype Snapshot = Snapshot(queued: set<Creature>, attrs: map<Creature, Attrs>)

  /** `t` is the turn the loop hands out in state `s`: its creature is queued
      and comes before every other queued creature in the scheduler's order, it
      is due by `totalTime`, and the turn records the creature's time, player
      flag and death as they stand. */
  predicate IsNext(s: Snapshot, t: Turn, totalTime: real)
  {
    var c := t.creature;
    && c in s.queued && c in s.attrs
    && s.attrs[c] == Attrs(t.time, t.wasPlayer, t.wasDead)
    && t.time <= totalTime
    && forall d :: d in s.queued && d != c ==>
         d in s.attrs && BeforeAt(t.time, c.uniqueId, s.attrs[d].time, d.uniqueId)
  }

  /** The state after turn `t` with move `m`: a live creature takes the move's
      time, stays the player only if it was and the move keeps it so, is dead
      exactly when the move kills it, and then leaves the queue; a turn of a
      dead creature, or of one the state does not hold, changes nothing. */
  function ApplyTurn(s: Snapshot, t: Turn, m: Move): (r: Snapshot)
    ensures r.queued <= s.queued && r.attrs.Keys == s.attrs.Keys
    ensures forall d :: d in s.attrs && d != t.creature ==> r.attrs[d] == s.attrs[d]
  {
    if t.wasDead || t.creature !in s.attrs then s
    else
      var c := t.creature;
      Snapshot(if m.dies then s.queued - {c} else s.queued,
               s.attrs[c := Attrs(m.newTime, t.wasPlayer && m.staysPlayer, m.dies)])
  }

  /** The state the turns leave, starting from `s0`, the k-th taken with move k. */
  function Replay(s0: Snapshot, turns: seq<Turn>, moves: seq<Move>): (r: Snapshot)
    requires |turns| <= |moves|
    ensures r.attrs.Keys == s0.attrs.Keys
  {
    if turns == [] then s0
    else
      var k := |turns| - 1;
      ApplyTurn(Replay(s0, turns[..k], moves), turns[k], moves[k])
  }

  /** Every turn is the one the loop hands out in the state the earlier turns left. */
  predicate InScheduleOrder(s0: Snapshot, turns: seq<Turn>, moves: seq<Move>, totalTime: real)
    requires |turns| <= |moves|
  {
    turns == [] ||
    var k := |turns| - 1;
    InScheduleOrder(s0, turns[..k], moves, totalTime) && IsNext(Replay(s0, turns[..k], moves), turns[k], totalTime)
  }

  /** A turn handed out next extends the schedule by one turn and the replay by its move. */
  lemma ScheduleExtended(s0: Snapshot, turns: seq<Turn>, t: Turn, moves: seq<Move>, totalTime: real)
    requires |turns| < |moves| && InScheduleOrder(s0, turns, moves, totalTime)
    requires IsNext(Replay(s0, turns, moves), t, totalTime)
    ensures InScheduleOrder(s0, turns + [t], moves, totalTime)
    ensures Replay(s0, turns + [t], moves) == ApplyTurn(Replay(s0, turns, moves), t, moves[|turns|])
  {
    assert (turns + [t])[..|turns|] == turns;
  }

  /** In any state at most one turn is next: the scheduler's order leaves no tie. */
  lemma NextIsUnique(s: Snapshot, t1: Turn, t2: Turn, totalTime: real)
    requires IsNext(s, t1, totalTime) && IsNext(s, t2, totalTime)
    ensures t1 == t2
  {
  }

  /** The moves decide the turns: two runs of the loop from the same state
      with the same moves hand out the same turns. */
  lemma {:induction false} ScheduleIsDeterministic(s0: Snapshot, u1: seq<Turn>, u2: seq<Turn>, moves: seq<Move>,
                                                   totalTime: real)
    requires |u1| == |u2| <= |moves|
    requires InScheduleOrder(s0, u1, moves, totalTime) && InScheduleOrder(s0, u2, moves, totalTime)
    ensures u1 == u2
  {
    if u1 != [] {
      var k := |u1| - 1;
      ScheduleIsDeterministic(s0, u1[..k], u2[..k], moves, totalTime);
      NextIsUnique(Replay(s0, u1[..k], moves), u1[k], u2[k], totalTime);
      assert u1 == u1[..k] + [u1[k]] && u2 == u2[..k] + [u2[k]];
    }
  }

  /** A creature that took none of the turns has the attributes it started with. */
  lemma {:induction false} ReplayKeepsNonMovers(s0: Snapshot, turns: seq<Turn>, moves: seq<Move>, c: Creature)
    requires |turns| <= |moves| && c in s0.attrs
    requires forall k :: 0 <= k < |turns| ==> turns[k].creature != c
    ensures c in Replay(s0, turns, moves).attrs && Replay(s0, turns, moves).attrs[c] == s0.attrs[c]
  {
    if turns != [] {
      var k := |turns| - 1;
      ReplayKeepsNonMovers(s0, turns[..k], moves, c);
    }
  }

  /** The turns only take creatures out of the queue, and a queued creature
      leaves it exactly when one of the turns killed it. */
  lemma {:induction false} ReplayDequeuesTheDead(s0: Snapshot, turns: seq<Turn>, moves: seq<Move>)
    requires |turns| <= |moves| && s0.queued <= s0.attrs.Keys
    ensures Replay(s0, turns, moves).queued <= s0.queued
    ensures forall c :: c in s0.queued ==> (c in Replay(s0, turns, moves).queued <==> c !in Died(turns, moves))
  {
    if turns != [] {
      var k := |turns| - 1;
      ReplayDequeuesTheDead(s0, turns[..k], moves);
    }
  }

  /** Every creature of `attrs` has, on the heap, the attributes `attrs` gives it. */
  ghost predicate AttrsMirrored(attrs: map<Creature, Attrs>)
    reads attrs.Keys`localTime, attrs.Keys`isPlayer, attrs.Keys`dead
  {
    forall d :: d in attrs ==> attrs[d] == Attrs(d.localTime, d.isPlayer, d.dead)
  }

  /** Each tick fires at least one time unit after the previous one. */
  ghost predicate TicksSpaced(ticks: seq<real>)
  {
    forall i :: 0 < i < |ticks| ==> ticks[i - 1] + 1.0 <= ticks[i]
  }

  class Model {
    const timeQueue: TimeQueue
    /** The time of the last global tick. */
    var lastTick: real
    /** Creatures taken out of the time queue, in order of death. */
    var deadCreatures: seq<Creature>
    var levelLinks: map<LinkKey, Level>
    var collective: Option<CollectiveFlags>
    /** The times at which the global tick fired, oldest first. */
    ghost var ticks: seq<real>

    ghost predicate Valid()
      reads this, timeQueue, timeQueue.queue`localTime
    {
      && timeQueue.Valid() && timeQueue.Consistent()
      && TicksSpaced(ticks)
      && (ticks != [] ==> ticks[|ticks| - 1] == lastTick)
    }

    /** A model with no creatures; the initial tick time and the collective are given. */
    constructor (initialLastTick: real, col: Option<CollectiveFlags>)
      ensures Valid() && fresh(timeQueue)
      ensures timeQueue.creatures == [] && deadCreatures == [] && levelLinks == map[]
      ensures lastTick == initialLastTick && collective == col && ticks == []
    {
      timeQueue := new TimeQueue([]);
      lastTick := initialLastTick;
      deadCreatures := [];
      levelLinks := map[];
      collective := col;
      ticks := [];
    }

    /** isTurnBased: only a collective that plays in real time makes the game
        not turn based. */
    function IsTurnBased(): (r: bool)
      reads this
      ensures collective.None? ==> r
      ensures !r <==> collective.Some? && !collective.value.turnBased
    {
      collective.None? || collective.value.turnBased
    }

    /** addCreature: schedules the creature one time unit after the current
        time; a creature that is not on a level is a fatal failure. */
    method AddCreature(c: Creature, currentTime: real) returns (ok: bool)
      requires Valid()
      requires forall d :: d in timeQueue.creatures ==> d.uniqueId != c.uniqueId
      modifies c`localTime, timeQueue
      ensures Valid()
      ensures c.localTime == currentTime + 1.0
      ensures ok <==> c.level != null
      ensures ok ==> timeQueue.creatures == old(timeQueue.creatures) + [c]
      ensures !ok ==> timeQueue.creatures == old(timeQueue.creatures)
    {
      assert c !in timeQueue.queue;
      c.localTime := currentTime + 1.0;
      if c.level == null {
        return false;
      }
      timeQueue.AddCreature(c);
      ok := true;
    }

    /** removeCreature: moves a creature from the time queue to the dead list;
        a creature that is not in the queue is a fatal failure. */
    method RemoveCreature(c: Creature) returns (ok: bool)
      requires Valid()
      modifies this`deadCreatures, timeQueue
      ensures Valid()
      ensures ok <==> c in old(timeQueue.creatures)
      ensures ok ==> (deadCreatures == old(deadCreatures) + [c]
                      && |timeQueue.creatures| == |old(timeQueue.creatures)| - 1
                      && timeQueue.Members() == old(timeQueue.Members()) - {c})
      ensures forall d :: d in timeQueue.creatures ==> d in old(timeQueue.creatures)
      ensures !ok ==> deadCreatures == old(deadCreatures) && timeQueue.creatures == old(timeQueue.creatures)
    {
      var r := timeQueue.RemoveCreature(c);
      if r == null {
        return false;
      }
      deadCreatures := deadCreatures + [r];
      ok := true;
    }

    /** One turn of the creature `c`, whose effect `m` is decided by its own AI:
        its time changes inside the scheduler's update bracket, it may stop
        being the player, and it may die and leave the queue. */
    method MakeMove(c: Creature, m: Move)
      requires Valid() && c in timeQueue.creatures
      modifies this`deadCreatures, timeQueue, c`localTime, c`isPlayer, c`dead
      ensures Valid()
      ensures c.localTime == m.newTime && c.dead == (old(c.dead) || m.dies)
      ensures c.isPlayer == (old(c.isPlayer) && m.staysPlayer)
      ensures m.dies ==> (deadCreatures == old(deadCreatures) + [c]
                          && timeQueue.Members() == old(timeQueue.Members()) - {c})
      ensures !m.dies ==> deadCreatures == old(deadCreatures) && timeQueue.creatures == old(timeQueue.creatures)
      ensures forall d :: d in timeQueue.creatures ==> d in old(timeQueue.creatures)
    {
      timeQueue.BeforeUpdateTime(c);
      assert c !in timeQueue.queue;
      c.localTime := m.newTime;
      timeQueue.AfterUpdateTime(c);
      c.isPlayer := c.isPlayer && m.staysPlayer;
      if m.dies {
        c.dead := true;
        var removed := RemoveCreature(c);
      }
    }

    /** One pass of update's loop: the earliest creature is taken; if it is due
        after `totalTime` the pass stops; otherwise the global tick fires when
        the creature's time is at least one unit past the previous tick, and a
        creature that is alive takes its turn `m`. None means the loop goes on.
        `turn` records the turn handed out, if any. */
    method Step(totalTime: real, m: Move, ghost s: Snapshot)
      returns (stop: Option<UpdateResult>, ghost turn: Option<Turn>)
      requires Valid() && Mirrors(s)
      modifies this`lastTick, this`ticks, this`deadCreatures, timeQueue
      modifies timeQueue.Members()`localTime, timeQueue.Members()`isPlayer, timeQueue.Members()`dead
      ensures Valid()
      ensures old(deadCreatures) <= deadCreatures
      ensures forall d :: d in timeQueue.creatures ==> d in old(timeQueue.creatures)
      ensures old(ticks) <= ticks && lastTick >= old(lastTick)
      ensures forall k :: |old(ticks)| <= k < |ticks| ==> ticks[k] <= totalTime
      ensures stop != Some(MovesExhausted)
      ensures stop == Some(NoMoreCreatures) <==> old(timeQueue.creatures) == []
      ensures turn.Some? <==> stop.None? || stop == Some(Unpossessed)
      ensures stop == Some(NoMoreCreatures) || stop == Some(ReachedHorizon) ==>
                && timeQueue.creatures == old(timeQueue.creatures) && ticks == old(ticks)
                && lastTick == old(lastTick) && deadCreatures == old(deadCreatures)
      ensures stop == Some(ReachedHorizon) ==>
                timeQueue.creatures != [] && forall d :: d in timeQueue.creatures ==> d.localTime > totalTime
      ensures turn.Some? ==>
                var t := turn.value;
                && t.creature in old(timeQueue.creatures) && IsNext(s, t, totalTime)
                && (stop == Some(Unpossessed) <==> Unpossesses(t, m))
                && TurnTaken(t, m, old(lastTick), old(ticks), old(deadCreatures), old(timeQueue.creatures))
                && Mirrors(ApplyTurn(s, t, m))
      ensures turn.None? ==> Mirrors(s)
    {
      assert timeQueue.creatures != [] ==> timeQueue.creatures[0] in timeQueue.Members();
      var c := timeQueue.GetNextCreature();
      if c == null {
        return Some(NoMoreCreatures), None;
      }
      var time := c.localTime;
      if time > totalTime {
        forall d | d in timeQueue.creatures
          ensures d.localTime > totalTime
        {
          assert d in timeQueue.Scheduled();
          assert d == c || Before(c, d);
        }
        return Some(ReachedHorizon), None;
      }
      assert c in timeQueue.Members();
      turn := Some(Turn(c, time, c.isPlayer, c.dead));
      assert IsNext(s, turn.value, totalTime) by {
        forall d | d in s.queued && d != c
          ensures BeforeAt(time, c.uniqueId, s.attrs[d].time, d.uniqueId)
        {
          assert d in timeQueue.Scheduled() && Before(c, d);
        }
      }
      var unpossessed := TakeTurn(c, totalTime, m, s);
      if unpossessed {
        return Some(Unpossessed), turn;
      }
      return None, turn;
    }

    /** The state after the turn `t` with move `m`, given the tick time, the
        ticks, the dead list and the queued creatures before it: the tick fired
        exactly when the turn's time is at least one unit past the last tick; a
        live creature's time, player flag and death follow the move, and a death
        moves it to the dead list; a dead creature is left as it was. */
    ghost predicate TurnTaken(t: Turn, m: Move, lastTick0: real, ticks0: seq<real>,
                              dead0: seq<Creature>, queued0: seq<Creature>)
      reads this, timeQueue, t.creature
    {
      var c := t.creature;
      && lastTick == (if t.time >= lastTick0 + 1.0 then t.time else lastTick0)
      && ticks == ticks0 + (if t.time >= lastTick0 + 1.0 then [t.time] else [])
      && (!t.wasDead ==>
            && c.localTime == m.newTime && c.isPlayer == (t.wasPlayer && m.staysPlayer) && c.dead == m.dies
            && (m.dies ==> deadCreatures == dead0 + [c] && c !in timeQueue.creatures)
            && (!m.dies ==> deadCreatures == dead0 && timeQueue.creatures == queued0))
      && (t.wasDead ==>
            && c.localTime == t.time && c.isPlayer == t.wasPlayer && c.dead
            && deadCreatures == dead0 && timeQueue.creatures == queued0)
    }

    /** The global tick at `time`: it fires when `time` is at least one unit
        past the last tick, and then becomes the last tick. */
    method TickIfDue(time: real)
      requires Valid()
      modifies this`lastTick, this`ticks
      ensures Valid()
      ensures lastTick == (if time >= old(lastTick) + 1.0 then time else old(lastTick))
      ensures ticks == old(ticks) + (if time >= old(lastTick) + 1.0 then [time] else [])
    {
      if time >= lastTick + 1.0 {
        // every creature and every ticking square ticks here, then the collective
        lastTick := time;
        ticks := ticks + [time];
      }
    }

    /** The rest of a pass once the earliest creature `c` is due by
        `totalTime`: the global tick when one unit has passed since the last,
        then the creature's turn if it is alive. The result says whether the
        player's creature was unpossessed. */
    method TakeTurn(c: Creature, totalTime: real, m: Move, ghost s: Snapshot) returns (unpossessed: bool)
      requires Valid() && c in timeQueue.creatures && c.localTime <= totalTime && Mirrors(s)
      modifies this`lastTick, this`ticks, this`deadCreatures, timeQueue, c`localTime, c`isPlayer, c`dead
      ensures Valid()
      ensures old(deadCreatures) <= deadCreatures
      ensures forall d :: d in timeQueue.creatures ==> d in old(timeQueue.creatures)
      ensures old(ticks) <= ticks && lastTick >= old(lastTick)
      ensures forall k :: |old(ticks)| <= k < |ticks| ==> ticks[k] <= totalTime
      ensures unpossessed <==> !old(c.dead) && old(c.isPlayer) && !m.staysPlayer
      ensures TurnTaken(Turn(c, old(c.localTime), old(c.isPlayer), old(c.dead)), m,
                        old(lastTick), old(ticks), old(deadCreatures), old(timeQueue.creatures))
      ensures Mirrors(ApplyTurn(s, Turn(c, old(c.localTime), old(c.isPlayer), old(c.dead)), m))
    {
      TickIfDue(c.localTime);
      unpossessed := false;
      if !c.dead {
        var wasPlayer := c.isPlayer;
        ghost var others := s.attrs - {c};
        assert AttrsMirrored(others);
        MakeMove(c, m);
        unpossessed := wasPlayer && !c.isPlayer;
        assert AttrsMirrored(others);
        assert timeQueue.Members() == (if m.dies then s.queued - {c} else s.queued);
        assert c in s.attrs && s.queued <= s.attrs.Keys;
        assert c.localTime == m.newTime && c.dead == m.dies && c.isPlayer == (wasPlayer && m.staysPlayer);
        MirrorsAfterMove(s, Turn(c, old(c.localTime), wasPlayer, false), m);
      }
    }

    /** The dead list, the ticks and the last tick are what the `turns` taken
        with `moves` made of `dead0`, `ticks0` and `last0`, and no creature the
        turns killed is still queued. */
    ghost predicate History(turns: seq<Turn>, moves: seq<Move>, last0: real, ticks0: seq<real>, dead0: seq<Creature>)
      reads this, timeQueue
    {
      && |turns| <= |moves|
      && deadCreatures == dead0 + Died(turns, moves)
      && ticks == ticks0 + TickTimes(last0, turns)
      && lastTick == LastTickAfter(last0, turns)
      && forall c :: c in Died(turns, moves) ==> c !in timeQueue.creatures
    }

    /** The history grows by one turn: if the dead list, the ticks and the last
        tick before the turn (`dead1`, `ticks1`, `last1`, with `queued1`
        queued) were what `turns` made of `dead0`, `ticks0` and `last0`, then
        after the turn `t` with the next move they are what `turns + [t]`
        makes of them. */
    lemma HistoryExtended(turns: seq<Turn>, t: Turn, moves: seq<Move>, last0: real, ticks0: seq<real>,
                          dead0: seq<Creature>, last1: real, ticks1: seq<real>, dead1: seq<Creature>,
                          queued1: seq<Creature>)
      requires |turns| < |moves|
      requires last1 == LastTickAfter(last0, turns) && ticks1 == ticks0 + TickTimes(last0, turns)
      requires dead1 == dead0 + Died(turns, moves)
      requires forall c :: c in Died(turns, moves) ==> c !in queued1
      requires forall d :: d in timeQueue.creatures ==> d in queued1
      requires TurnTaken(t, moves[|turns|], last1, ticks1, dead1, queued1)
      ensures History(turns + [t], moves, last0, ticks0, dead0)
    {
      TurnAppended(turns, t, moves, last0);
    }

    /** The scheduler state over the creatures `keys`, as it stands. */
    ghost function SnapshotOf(keys: set<Creature>): (s: Snapshot)
      reads timeQueue`creatures, keys`localTime, keys`isPlayer, keys`dead
      ensures s.queued == timeQueue.Members() && s.attrs.Keys == keys
    {
      Snapshot(set c | c in timeQueue.creatures, map c | c in keys :: Attrs(c.localTime, c.isPlayer, c.dead))
    }

    /** The heap holds the scheduler state `s`: the queued creatures are
        those of `s`, and every creature of `s` has the attributes `s` gives it. */
    ghost predicate Mirrors(s: Snapshot)
      reads timeQueue`creatures, s.attrs.Keys`localTime, s.attrs.Keys`isPlayer, s.attrs.Keys`dead
    {
      && timeQueue.Members() == s.queued && s.queued <= s.attrs.Keys
      && AttrsMirrored(s.attrs)
    }

    /** A live creature's own move, with every other creature of `s` as it
        was, leaves the heap holding the state the turn makes of `s`. */
    lemma MirrorsAfterMove(s: Snapshot, t: Turn, m: Move)
      requires t.creature in s.attrs && !t.wasDead && s.queued <= s.attrs.Keys
      requires AttrsMirrored(s.attrs - {t.creature})
      requires t.creature.localTime == m.newTime && t.creature.dead == m.dies
      requires t.creature.isPlayer == (t.wasPlayer && m.staysPlayer)
      requires timeQueue.Members() == if m.dies then s.queued - {t.creature} else s.queued
      ensures Mirrors(ApplyTurn(s, t, m))
    {
      var r := ApplyTurn(s, t, m);
      forall d | d in r.attrs
        ensures r.attrs[d] == Attrs(d.localTime, d.isPlayer, d.dead)
      {
        if d != t.creature {
          assert d in s.attrs - {t.creature};
        }
      }
    }

    /** Where update's loop stands after `turns`, relative to the state it
        started from (`last0`, `ticks0`, `dead0`, and the scheduler state
        `s0`): the history of the turns, every turn due and taken by a
        creature that was queued, no creature added to the queue, every turn
        the one the scheduler hands out next, and the creatures' state the
        replay of the turns. */
    ghost predicate Progress(turns: seq<Turn>, moves: seq<Move>, totalTime: real, last0: real, ticks0: seq<real>,
                             dead0: seq<Creature>, s0: Snapshot)
      reads this, timeQueue, s0.attrs.Keys
    {
      && History(turns, moves, last0, ticks0, dead0)
      && TurnsDue(turns, totalTime, s0.queued)
      && (forall d :: d in timeQueue.creatures ==> d in s0.queued)
      && InScheduleOrder(s0, turns, moves, totalTime)
      && Mirrors(Replay(s0, turns, moves))
    }

    /** How update's loop ended, given the turns it handed out: the queue is
        empty when no creature was left; when the horizon was reached some
        creature is queued and every queued one is due after `totalTime`; the
        player was unpossessed by the last turn and by no earlier one, and by
        none when the loop ended otherwise; every move was used when the moves
        ran out, and one was left over when the loop stopped for lack of a
        creature or at the horizon. */
    ghost predicate Outcome(result: UpdateResult, turns: seq<Turn>, moves: seq<Move>, totalTime: real)
      reads this, timeQueue, timeQueue.creatures
    {
      && |turns| <= |moves|
      && (result == NoMoreCreatures ==> timeQueue.creatures == [])
      && (result == ReachedHorizon ==>
            timeQueue.creatures != [] && forall d :: d in timeQueue.creatures ==> d.localTime > totalTime)
      && (result != Unpossessed ==> NoneUnpossess(turns, moves, |turns|))
      && (result == Unpossessed ==>
            && turns != [] && NoneUnpossess(turns, moves, |turns| - 1)
            && Unpossesses(turns[|turns| - 1], moves[|turns| - 1]))
      && (result == MovesExhausted ==> |turns| == |moves|)
      && (result == ReachedHorizon || result == NoMoreCreatures ==> |turns| < |moves|)
    }

    /** One pass of update's loop with move `i`, `turns` being the turns taken
        so far: the turn handed out, if any, extends the progress. */
    method Pass(totalTime: real, moves: seq<Move>, i: nat, ghost turns: seq<Turn>, ghost last0: real,
                ghost ticks0: seq<real>, ghost dead0: seq<Creature>, ghost s0: Snapshot)
      returns (stop: Option<UpdateResult>, ghost turns': seq<Turn>)
      requires Valid() && i == |turns| < |moves| && NoneUnpossess(turns, moves, i)
      requires s0.queued <= s0.attrs.Keys
      requires Progress(turns, moves, totalTime, last0, ticks0, dead0, s0)
      modifies this`lastTick, this`ticks, this`deadCreatures, timeQueue
      modifies timeQueue.Members()`localTime, timeQueue.Members()`isPlayer, timeQueue.Members()`dead
      ensures Valid()
      ensures Progress(turns', moves, totalTime, last0, ticks0, dead0, s0)
      ensures stop != Some(MovesExhausted)
      ensures stop.None? ==> |turns'| == i + 1 && NoneUnpossess(turns', moves, |turns'|)
      ensures stop.Some? ==> Outcome(stop.value, turns', moves, totalTime)
    {
      ghost var last1, ticks1, dead1, queued1 := lastTick, ticks, deadCreatures, timeQueue.creatures;
      ghost var turn;
      stop, turn := Step(totalTime, moves[i], Replay(s0, turns, moves));
      turns' := turns;
      if turn.Some? {
        var t := turn.value;
        ScheduleExtended(s0, turns, t, moves, totalTime);
        TurnsDueAppended(turns, t, moves, totalTime, s0.queued);
        HistoryExtended(turns, t, moves, last0, ticks0, dead0, last1, ticks1, dead1, queued1);
        turns' := turns + [t];
      } else {
        assert stop.Some? && stop != Some(Unpossessed) && stop != Some(MovesExhausted);
        assert stop.value.NoMoreCreatures? || stop.value.ReachedHorizon?;
      }
    }

    /** update: hands out turns in schedule order until the next creature is due
        after `totalTime` or the player's creature is unpossessed. `moves` are
        the turns the creatures' AI takes, in order; `turns` records the turns
        handed out, the k-th with move k. */
    method Update(totalTime: real, moves: seq<Move>) returns (result: UpdateResult, ghost turns: seq<Turn>)
      requires Valid()
      modifies this`lastTick, this`ticks, this`deadCreatures, timeQueue
      modifies timeQueue.Members()`localTime, timeQueue.Members()`isPlayer, timeQueue.Members()`dead
      ensures Valid()
      ensures old(deadCreatures) <= deadCreatures
      ensures forall d :: d in timeQueue.creatures ==> d in old(timeQueue.creatures)
      ensures old(ticks) <= ticks && lastTick >= old(lastTick)
      ensures forall k :: |old(ticks)| <= k < |ticks| ==> ticks[k] <= totalTime
      ensures Outcome(result, turns, moves, totalTime)
      ensures Progress(turns, moves, totalTime, old(lastTick), old(ticks), old(deadCreatures),
                       old(SnapshotOf(timeQueue.Members())))
    {
      var i := 0;
      turns := [];
      while i < |moves|
        invariant 0 <= i <= |moves| && |turns| == i
        invariant Valid() && NoneUnpossess(turns, moves, i)
        invariant forall d :: d in timeQueue.creatures ==> d in old(timeQueue.creatures)
        invariant Progress(turns, moves, totalTime, old(lastTick), old(ticks), old(deadCreatures),
                           old(SnapshotOf(timeQueue.Members())))
      {
        var stop;
        stop, turns := Pass(totalTime, moves, i, turns, old(lastTick), old(ticks), old(deadCreatures),
                            old(SnapshotOf(timeQueue.Members())));
        if stop.Some? {
          TicksWithin(old(lastTick), turns, totalTime, old(timeQueue.Members()));
          return stop.value, turns;
        }
        i := i + 1;
      }
      TicksWithin(old(lastTick), turns, totalTime, old(timeQueue.Members()));
      return MovesExhausted, turns;
    }

    /** addLink: writes the link and its way back. */
    method AddLink(dir: StairDirection, key: StairKey, l1: Level, l2: Level)
      modifies this`levelLinks
      ensures levelLinks == WithLink(old(levelLinks), dir, key, l1, l2)
    {
      levelLinks := levelLinks[LinkKey(dir, key, l1) := l2];
      levelLinks := levelLinks[LinkKey(Opposite(dir), key, l2) := l1];
    }

    /** changeLevel(dir, key, c): the creature takes the stair to the linked
        level and lands there at the stair of the opposite direction; the player
        marker follows the player. A missing link is a fatal failure (the
        program dereferences a null level). */
    method ChangeLevel(dir: StairDirection, key: StairKey, c: Creature) returns (r: Option<Landing>)
      requires c.level != null
      modifies c`level, c.level`player, levelLinks.Values
      ensures var k := LinkKey(dir, key, old(c.level));
              && (r.None? <==> k !in levelLinks)
              && (r.Some? ==> r.value == Landing(levelLinks[k], Opposite(dir), key) && c.level == levelLinks[k])
      ensures r.None? ==> c.level == old(c.level) && old(c.level).player == old(c.level.player)
      ensures r.Some? && c.isPlayer ==>
                r.value.level.player == c && (old(c.level) != r.value.level ==> old(c.level).player == null)
      ensures r.Some? && !c.isPlayer ==>
                old(c.level).player == old(c.level.player) && r.value.level.player == old(r.value.level.player)
      ensures forall l :: l in old(levelLinks.Values) && l != old(c.level) && (r.None? || l != r.value.level) ==>
                l.player == old(l.player)
    {
      var current := c.level;
      var k := LinkKey(dir, key, current);
      if k !in levelLinks {
        return None;
      }
      var target := levelLinks[k];
      c.level := target;
      if c.isPlayer {
        current.player := null;
        target.player := c;
      }
      r := Some(Landing(target, Opposite(dir), key));
    }

    /** changeLevel(target, position, c): the creature moves to a given level;
        the player marker follows the player. */
    method ChangeLevelTo(target: Level, c: Creature)
      requires c.level != null
      modifies c`level, c.level`player, target`player
      ensures c.level == target
      ensures c.isPlayer ==> target.player == c && (old(c.level) != target ==> old(c.level).player == null)
      ensures !c.isPlayer ==> target.player == old(target.player) && old(c.level).player == old(c.level.player)
    {
      var current := c.level;
      c.level := target;
      if c.isPlayer {
        current.player := null;
        target.player := c;
      }
    }
  }
}
