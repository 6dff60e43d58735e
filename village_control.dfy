/** The village's control loop: counters fed by kills and thefts, cancellation
    of attacks that lost too many members or were paid off, and the decision to
    launch a new raid against the player's collective. Randomness is modelled by
    nondeterministic choice within the ranges the program draws from; the
    world's state that the program queries is passed in as `Surroundings`. */
module Village {
  import opened Wrappers
  import opened VillageTriggers

  type CreatureId = int
  type ItemId = int
  type TeamId = nat

  /** What an attacking team sets out to do. */
  datatype Behaviour = KillLeader | KillMembers(count: int) | StealGold | CampAndSpawn

  /** A task assigned to a member of the collective. */
  datatype Task = Attack(behaviour: Behaviour) | Chore

  datatype Team = Team(id: TeamId, members: seq<CreatureId>)

  /** A ransom demand: a factor of the enemy's gold and a minimum amount. */
  datatype RansomTerms = RansomTerms(factor: real, minimum: int)

  /** The configuration of a hostile village. */
  datatype Villain = Villain(
    minPopulation: nat,
    minTeamSize: nat,
    triggers: seq<Trigger>,
    behaviour: Behaviour,
    ransom: Option<RansomTerms>)

  /** The attack announced to the enemy collective. */
  datatype CollectiveAttack = CollectiveAttack(attackers: seq<CreatureId>, ransom: Option<int>)

  /** isEnemy: a creature of the enemy collective, when there is one. */
  predicate IsEnemy(enemyCreatures: Option<seq<CreatureId>>, c: CreatureId)
  {
    enemyCreatures.Some? && c in enemyCreatures.value
  }

  // ---------------------------------------------------------------------------
  // Teams

  ghost predicate DistinctIds(ts: seq<Team>)
  {
    forall i, j :: 0 <= i < j < |ts| ==> ts[i].id != ts[j].id
  }

  /** The teams left after cancelling every team whose id is in `ids`, in order. */
  function WithoutTeams(ts: seq<Team>, ids: set<TeamId>): seq<Team>
  {
    if ts == [] then []
    else if ts[0].id in ids then WithoutTeams(ts[1..], ids)
    else [ts[0]] + WithoutTeams(ts[1..], ids)
  }

  /** Cancelling keeps exactly the other teams, and keeps their ids distinct. */
  lemma {:induction false} WithoutTeamsKeepsTheOthers(ts: seq<Team>, ids: set<TeamId>)
    ensures forall t :: t in WithoutTeams(ts, ids) <==> t in ts && t.id !in ids
    ensures DistinctIds(ts) ==> DistinctIds(WithoutTeams(ts, ids))
  {
    if ts != [] {
      WithoutTeamsKeepsTheOthers(ts[1..], ids);
      assert ts == [ts[0]] + ts[1..];
      if DistinctIds(ts) {
        assert DistinctIds(ts[1..]);
        forall t | t in ts[1..]
          ensures t.id != ts[0].id
        {
          var k :| 0 <= k < |ts[1..]| && ts[1..][k] == t;
          assert ts[k + 1] == t;
        }
      }
    }
  }

  /** Cancelling one set of teams and then another is cancelling both. */
  lemma {:induction false} WithoutTeamsTwice(ts: seq<Team>, a: set<TeamId>, b: set<TeamId>)
    ensures WithoutTeams(WithoutTeams(ts, a), b) == WithoutTeams(ts, a + b)
  {
    if ts != [] {
      WithoutTeamsTwice(ts[1..], a, b);
      if ts[0].id !in a {
        var w := WithoutTeams(ts[1..], a);
        assert ([ts[0]] + w)[0] == ts[0] && ([ts[0]] + w)[1..] == w;
      }
    }
  }

  /** The size a team was launched with; the program's map lookup inserts 0
      for a team it never recorded. */
  function SizeOf(sizes: map<TeamId, nat>, id: TeamId): nat
  {
    if id in sizes then sizes[id] else 0
  }

  /** A team is called back once fewer than half (rounded up) of its initial
      members remain, or when its last member is seriously wounded. */
  predicate ShouldCancel(t: Team, initialSize: nat, wounded: set<CreatureId>)
  {
    |t.members| < (initialSize + 1) / 2 || (|t.members| == 1 && t.members[0] in wounded)
  }

  /** The teams considerCancellingAttack calls back, in order. */
  function Cancelled(ts: seq<Team>, sizes: map<TeamId, nat>, wounded: set<CreatureId>): seq<Team>
  {
    if ts == [] then []
    else
      var last := ts[|ts| - 1];
      Cancelled(ts[..|ts| - 1], sizes, wounded)
        + (if ShouldCancel(last, SizeOf(sizes, last.id), wounded) then [last] else [])
  }

  /** The teams called back are exactly the teams that should be. */
  lemma {:induction false} CancelledAreTheNonViable(ts: seq<Team>, sizes: map<TeamId, nat>, wounded: set<CreatureId>)
    ensures forall t :: t in Cancelled(ts, sizes, wounded) <==> t in ts && ShouldCancel(t, SizeOf(sizes, t.id), wounded)
  {
    if ts != [] {
      CancelledAreTheNonViable(ts[..|ts| - 1], sizes, wounded);
      assert ts == ts[..|ts| - 1] + [ts[|ts| - 1]];
    }
  }

  function TeamIds(ts: seq<Team>): set<TeamId>
  {
    if ts == [] then {} else TeamIds(ts[..|ts| - 1]) + {ts[|ts| - 1].id}
  }

  /** The ids of the teams are exactly the ids of their members. */
  lemma {:induction false} TeamIdsAreTheIds(ts: seq<Team>)
    ensures forall t :: t in ts ==> t.id in TeamIds(ts)
    ensures forall id :: id in TeamIds(ts) ==> exists t :: t in ts && t.id == id
  {
    if ts != [] {
      TeamIdsAreTheIds(ts[..|ts| - 1]);
      assert ts == ts[..|ts| - 1] + [ts[|ts| - 1]];
    }
  }

  /** Everyone who belongs to one of the teams. */
  function MembersOf(ts: seq<Team>): set<CreatureId>
  {
    if ts == [] then {}
    else
      var last := ts[|ts| - 1];
      assert ts == ts[..|ts| - 1] + [last];
      MembersOf(ts[..|ts| - 1]) + Elements(last.members)
  }

  function Elements<T>(s: seq<T>): set<T>
  {
    set x | x in s
  }

  lemma {:induction false} WithoutNoTeams(ts: seq<Team>)
    ensures WithoutTeams(ts, {}) == ts
  {
    if ts != [] {
      WithoutNoTeams(ts[1..]);
      assert ts == [ts[0]] + ts[1..];
    }
  }

  lemma {:induction false} WithoutEveryTeam(ts: seq<Team>, ids: set<TeamId>)
    requires forall t :: t in ts ==> t.id in ids
    ensures WithoutTeams(ts, ids) == []
  {
    if ts != [] {
      WithoutEveryTeam(ts[1..], ids);
    }
  }

  lemma AppendTeam(ts: seq<Team>, t: Team)
    ensures TeamIds(ts + [t]) == TeamIds(ts) + {t.id}
    ensures MembersOf(ts + [t]) == MembersOf(ts) + Elements(t.members)
  {
    assert (ts + [t])[..|ts|] == ts;
  }

  lemma CancelledStep(all: seq<Team>, i: nat, sizes: map<TeamId, nat>, wounded: set<CreatureId>)
    requires i < |all|
    ensures ShouldCancel(all[i], SizeOf(sizes, all[i].id), wounded) ==>
              Cancelled(all[..i + 1], sizes, wounded) == Cancelled(all[..i], sizes, wounded) + [all[i]]
    ensures !ShouldCancel(all[i], SizeOf(sizes, all[i].id), wounded) ==>
              Cancelled(all[..i + 1], sizes, wounded) == Cancelled(all[..i], sizes, wounded)
  {
    assert all[..i + 1][..i] == all[..i];
  }

  /** The state of considerCancellingAttack after the first i teams of
      `all`: the teams called back so far are `gone`, they are removed from
      `teams` and their members released from `taskMap`, and every team looked
      at has a size recorded in `recorded` (0 when there was none). */
  ghost predicate AttritionState(all: seq<Team>, i: nat, sizes: map<TeamId, nat>, wounded: set<CreatureId>,
                                 tasks: map<CreatureId, Task>, gone: seq<Team>,
                                 teams: seq<Team>, taskMap: map<CreatureId, Task>, recorded: map<TeamId, nat>)
  {
    && i <= |all|
    && gone == Cancelled(all[..i], sizes, wounded)
    && teams == WithoutTeams(all, TeamIds(gone))
    && taskMap == tasks - MembersOf(gone)
    && recorded.Keys == sizes.Keys + TeamIds(all[..i])
    && (forall id :: SizeOf(recorded, id) == SizeOf(sizes, id))
  }

  /** How the state of considerCancellingAttack advances by one team. */
  lemma AttritionStateStep(all: seq<Team>, i: nat, sizes: map<TeamId, nat>, wounded: set<CreatureId>,
                           tasks: map<CreatureId, Task>, gone: seq<Team>,
                           teams: seq<Team>, taskMap: map<CreatureId, Task>,
                           recorded: map<TeamId, nat>, recorded': map<TeamId, nat>)
    requires i < |all| && AttritionState(all, i, sizes, wounded, tasks, gone, teams, taskMap, recorded)
    requires recorded'.Keys == recorded.Keys + {all[i].id}
    requires forall id :: SizeOf(recorded', id) == SizeOf(recorded, id)
    ensures ShouldCancel(all[i], SizeOf(sizes, all[i].id), wounded) ==>
              AttritionState(all, i + 1, sizes, wounded, tasks, gone + [all[i]],
                             WithoutTeams(teams, {all[i].id}), taskMap - Elements(all[i].members), recorded')
    ensures !ShouldCancel(all[i], SizeOf(sizes, all[i].id), wounded) ==>
              AttritionState(all, i + 1, sizes, wounded, tasks, gone, teams, taskMap, recorded')
  {
    var team := all[i];
    CancelledStep(all, i, sizes, wounded);
    assert all[..i + 1] == all[..i] + [team];
    AppendTeam(all[..i], team);
    assert recorded'.Keys == sizes.Keys + TeamIds(all[..i + 1]);
    if ShouldCancel(team, SizeOf(sizes, team.id), wounded) {
      CancelStep(all, i, sizes, wounded, tasks, gone);
    }
  }

  /** The part of AttritionStateStep where the team is called back. */
  lemma CancelStep(all: seq<Team>, i: nat, sizes: map<TeamId, nat>, wounded: set<CreatureId>,
                   tasks: map<CreatureId, Task>, gone: seq<Team>)
    requires i < |all| && ShouldCancel(all[i], SizeOf(sizes, all[i].id), wounded)
    requires gone == Cancelled(all[..i], sizes, wounded)
    ensures gone + [all[i]] == Cancelled(all[..i + 1], sizes, wounded)
    ensures WithoutTeams(WithoutTeams(all, TeamIds(gone)), {all[i].id}) == WithoutTeams(all, TeamIds(gone + [all[i]]))
    ensures tasks - MembersOf(gone) - Elements(all[i].members) == tasks - MembersOf(gone + [all[i]])
  {
    CancelledStep(all, i, sizes, wounded);
    WithoutTeamsTwice(all, TeamIds(gone), {all[i].id});
    AppendTeam(gone, all[i]);
    ReleaseTwice(tasks, MembersOf(gone), Elements(all[i].members));
  }

  /** Releasing two groups of creatures one after the other is releasing both. */
  lemma ReleaseTwice(tasks: map<CreatureId, Task>, a: set<CreatureId>, b: set<CreatureId>)
    ensures tasks - a - b == tasks - (a + b)
  {
  }

  /** How the state of onRansomPaid advances by one team. */
  lemma RansomStep(all: seq<Team>, i: nat)
    requires i < |all|
    ensures WithoutTeams(all, TeamIds(all[..i + 1])) == WithoutTeams(WithoutTeams(all, TeamIds(all[..i])), {all[i].id})
    ensures MembersOf(all[..i + 1]) == MembersOf(all[..i]) + Elements(all[i].members)
  {
    assert all[..i + 1] == all[..i] + [all[i]];
    AppendTeam(all[..i], all[i]);
    WithoutTeamsTwice(all, TeamIds(all[..i]), {all[i].id});
  }

  /** The teams that survive considerCancellingAttack. */
  function AfterAttrition(ts: seq<Team>, sizes: map<TeamId, nat>, wounded: set<CreatureId>): seq<Team>
  {
    WithoutTeams(ts, TeamIds(Cancelled(ts, sizes, wounded)))
  }

  /** With distinct ids, a team survives attrition exactly when it is not
      called back. */
  lemma SurvivorsAreExactlyTheViable(ts: seq<Team>, sizes: map<TeamId, nat>, wounded: set<CreatureId>)
    requires DistinctIds(ts)
    ensures forall t :: t in AfterAttrition(ts, sizes, wounded) <==> t in ts && !ShouldCancel(t, SizeOf(sizes, t.id), wounded)
  {
    var gone := Cancelled(ts, sizes, wounded);
    CancelledAreTheNonViable(ts, sizes, wounded);
    WithoutTeamsKeepsTheOthers(ts, TeamIds(gone));
    TeamIdsAreTheIds(gone);
    forall t | t in ts && !ShouldCancel(t, SizeOf(sizes, t.id), wounded)
      ensures t.id !in TeamIds(gone)
    {
      forall u | u in gone
        ensures u.id != t.id
      {
        var i :| 0 <= i < |ts| && ts[i] == t;
        var j :| 0 <= j < |ts| && ts[j] == u;
        assert i != j;
      }
    }
  }

  /** A team of six reduced to two is called back; one reduced to five is kept;
      a lone seriously wounded member is called back. */
  lemma AttritionExamples(id: TeamId, a: CreatureId, b: CreatureId, c: CreatureId, d: CreatureId, e: CreatureId)
    ensures ShouldCancel(Team(id, [a, b]), 6, {})
    ensures !ShouldCancel(Team(id, [a, b, c, d, e]), 6, {})
    ensures ShouldCancel(Team(id, [a]), 1, {a})
    ensures !ShouldCancel(Team(id, [a]), 1, {})
  {
  }

  /** The attackers are a prefix of a permutation of the fighters, hence
      fighters themselves, and without repetition when the fighters have none. */
  lemma {:induction false} PrefixOfPermutation(perm: seq<CreatureId>, fighters: seq<CreatureId>, k: nat)
    requires multiset(perm) == multiset(fighters) && k <= |perm|
    ensures forall x :: x in perm[..k] ==> x in fighters
    ensures (forall i, j :: 0 <= i < j < |fighters| ==> fighters[i] != fighters[j]) ==>
              forall i, j :: 0 <= i < j < k ==> perm[i] != perm[j]
  {
    forall x | x in perm[..k]
      ensures x in fighters
    {
      assert x in multiset(perm);
    }
    if forall i, j :: 0 <= i < j < |fighters| ==> fighters[i] != fighters[j] {
      forall i, j | 0 <= i < j < k
        ensures perm[i] != perm[j]
      {
        if perm[i] == perm[j] {
          var x := perm[i];
          assert perm == perm[..j] + perm[j..];
          assert multiset(perm) == multiset(perm[..j]) + multiset(perm[j..]);
          assert x in multiset(perm[..j]) && x in multiset(perm[j..]);
          assert multiset(perm)[x] >= 2;
          DistinctCountsOnce(fighters, x);
          assert false;
        }
      }
    }
  }

  lemma {:induction false} DistinctCountsOnce(s: seq<CreatureId>, x: CreatureId)
    requires forall i, j :: 0 <= i < j < |s| ==> s[i] != s[j]
    ensures multiset(s)[x] <= 1
  {
    if s != [] {
      DistinctCountsOnce(s[1..], x);
      assert s == [s[0]] + s[1..];
      if s[0] == x {
        assert x !in s[1..];
      }
    }
  }

  /** The fighters standing in the village's territory, in order. */
  function InTerritory(fighters: seq<CreatureId>, territory: set<CreatureId>): (r: seq<CreatureId>)
    ensures forall x :: x in r <==> x in fighters && x in territory
    ensures |r| <= |fighters|
  {
    if fighters == [] then []
    else (if fighters[0] in territory then [fighters[0]] else []) + InTerritory(fighters[1..], territory)
  }

  /** canPerformAttack: an inactive village may always attack; an active one
      only in a single-model game or when it lives in the main model. */
  function CanPerformAttack(currentlyActive: bool, singleModel: bool, onMainModel: bool): (r: bool)
    ensures !currentlyActive ==> r
    ensures r && currentlyActive ==> singleModel || onMainModel
  {
    !currentlyActive || singleModel || onMainModel
  }

  /** The ransom launchAttack demands: a random share of the enemy's gold,
      truncated to an integer, but never less than the configured minimum. */
  function RansomDemand(terms: RansomTerms, hisGold: int, draw: real): (r: int)
    ensures r >= terms.minimum
    ensures r == terms.minimum || r == TruncateToInt(draw * hisGold as real)
    ensures r >= TruncateToInt(draw * hisGold as real)
  {
    var share := TruncateToInt(draw * hisGold as real);
    if share < terms.minimum then terms.minimum else share
  }

  /** The ransom launchAttack attaches to an attack on an enemy holding hisGold:
      present exactly when the villain asks for one and the enemy can pay its
      minimum, and then the demand for some draw of the share between 0.6 and
      1.5 times the villain's factor. */
  ghost predicate RansomPosted(terms: Option<RansomTerms>, hisGold: int, ransom: Option<int>)
  {
    && (ransom.Some? <==> terms.Some? && hisGold >= terms.value.minimum)
    && (ransom.Some? ==>
          exists draw :: Within(terms.value.factor * 0.6, draw, terms.value.factor * 1.5)
                         && ransom.value == RansomDemand(terms.value, hisGold, draw))
  }

  /** The world around the village as the update step queries it. */
  datatype Surroundings = Surroundings(
    enemy: Option<EnemySignals>,
    selfDanger: DangerLevel,
    wounded: set<CreatureId>,
    enemyInTerritory: bool,
    singleModel: bool,
    onMainModel: bool,
    fighters: seq<CreatureId>,
    territory: set<CreatureId>)

  /** The outcomes of the two chance rolls of the update step. */
  datatype Rolls = Rolls(updateRoll: bool, attackRoll: bool)

  /** The fighters eligible for a raid: in a single-model game only those in
      the territory. */
  function AvailableFighters(s: Surroundings): seq<CreatureId>
  {
    if s.singleModel then InTerritory(s.fighters, s.territory) else s.fighters
  }

  /** A draw of Random.getDouble(lo, hi). */
  predicate Within(lo: real, x: real, hi: real)
  {
    lo <= x <= hi
  }

  function Min(a: int, b: int): int
  {
    if a < b then a else b
  }

  /** Looking at one more picked item: it is stolen exactly when the village
      still owns it, that is, when it was owned and not seen before. */
  lemma TheftStep(owned: set<ItemId>, items: seq<ItemId>, i: nat)
    requires i < |items|
    ensures Elements(items[..i + 1]) == Elements(items[..i]) + {items[i]}
    ensures items[i] in owned - Elements(items[..i]) ==>
              |owned * Elements(items[..i + 1])| == |owned * Elements(items[..i])| + 1
    ensures items[i] !in owned - Elements(items[..i]) ==>
              owned * Elements(items[..i + 1]) == owned * Elements(items[..i])
  {
    assert items[..i + 1] == items[..i] + [items[i]];
    var seen := Elements(items[..i]);
    if items[i] in owned && items[i] !in seen {
      assert owned * (seen + {items[i]}) == owned * seen + {items[i]};
    }
  }

  /** `after` gives every one of `cs` the task `task` and keeps every other
      creature's task (or its lack of one) from `before`. */
  ghost predicate TasksAssigned(before: map<CreatureId, Task>, after: map<CreatureId, Task>, cs: seq<CreatureId>, task: Task)
  {
    && (forall c :: c in cs ==> c in after && after[c] == task)
    && (forall c :: c !in cs ==> (c in after <==> c in before))
    && (forall c :: c !in cs && c in after ==> after[c] == before[c])
  }

  /** A raid as update sends it out: the attackers `a` are a prefix of a
      permutation of the available fighters, at least the minimum team size,
      leaving at least the minimum population of the `population` members at
      home; they form the only team, with id `id`, and each has the villain's
      attack task while every other creature keeps its task from `tasks0`. */
  ghost predicate TeamSent(a: seq<CreatureId>, fighters: seq<CreatureId>, v: Villain, population: nat, id: TeamId,
                           tasks0: map<CreatureId, Task>, tasks: map<CreatureId, Task>, teams: seq<Team>)
  {
    && v.minTeamSize <= |a| <= |fighters|
    && |a| + v.minPopulation <= population
    && (exists perm: seq<CreatureId> :: multiset(perm) == multiset(fighters) && |a| <= |perm| && a == perm[..|a|])
    && teams == [Team(id, a)]
    && TasksAssigned(tasks0, tasks, a, Attack(v.behaviour))
  }

  // ---------------------------------------------------------------------------
  // The collective's team and task registry

  class Collective {
    var creatures: seq<CreatureId>
    var teams: seq<Team>
    var tasks: map<CreatureId, Task>
    var nextTeamId: TeamId

    ghost predicate Valid()
      reads this
    {
      DistinctIds(teams) && forall t :: t in teams ==> t.id < nextTeamId
    }

    constructor (members: seq<CreatureId>)
      ensures Valid()
      ensures creatures == members && teams == [] && tasks == map[] && nextTeamId == 0
    {
      creatures := members;
      teams := [];
      tasks := map[];
      nextTeamId := 0;
    }

    predicate HasTask(c: CreatureId)
      reads this
    {
      c in tasks
    }

    /** A new persistent team with a fresh id, appended to the teams. */
    method CreatePersistent(members: seq<CreatureId>) returns (id: TeamId)
      requires Valid()
      modifies this`teams, this`nextTeamId
      ensures Valid()
      ensures id == old(nextTeamId) && teams == old(teams) + [Team(id, members)]
      ensures nextTeamId == old(nextTeamId) + 1
      ensures id !in TeamIds(old(teams))
    {
      TeamIdsAreTheIds(teams);
      id := nextTeamId;
      teams := teams + [Team(id, members)];
      nextTeamId := nextTeamId + 1;
    }

    method Cancel(id: TeamId)
      requires Valid()
      modifies this`teams
      ensures Valid()
      ensures teams == WithoutTeams(old(teams), {id})
    {
      WithoutTeamsKeepsTheOthers(teams, {id});
      teams := WithoutTeams(teams, {id});
    }

    method CancelTask(c: CreatureId)
      modifies this`tasks
      ensures tasks == old(tasks) - {c}
    {
      tasks := tasks - {c};
    }

    /** cancelTask for each of the given creatures, in order. */
    method CancelTasks(cs: seq<CreatureId>)
      modifies this`tasks
      ensures tasks == old(tasks) - Elements(cs)
    {
      var j := 0;
      while j < |cs|
        invariant 0 <= j <= |cs|
        invariant tasks == old(tasks) - Elements(cs[..j])
      {
        assert cs[..j + 1] == cs[..j] + [cs[j]];
        CancelTask(cs[j]);
        j := j + 1;
      }
      assert cs[..j] == cs;
    }

    /** Cancels a team after releasing its members from their tasks. */
    method CallBack(team: Team)
      requires Valid()
      modifies this`teams, this`tasks
      ensures Valid()
      ensures teams == WithoutTeams(old(teams), {team.id})
      ensures tasks == old(tasks) - Elements(team.members)
    {
      CancelTasks(team.members);
      Cancel(team.id);
    }

    method SetTask(c: CreatureId, task: Task)
      modifies this`tasks
      ensures tasks == old(tasks)[c := task]
    {
      tasks := tasks[c := task];
    }
  }

  // ---------------------------------------------------------------------------
  // The village control

  class VillageControl {
    const collective: Collective
    var villain: Option<Villain>
    var victims: real
    var stolenItemCount: int
    var myItems: set<ItemId>
    var maxEnemyPower: DangerLevel
    var entries: bool
    var attackSizes: map<TeamId, nat>

    ghost predicate Valid()
      reads this, collective
    {
      && collective.Valid()
      && (villain.Some? && villain.value.ransom.Some? ==> 0.0 <= villain.value.ransom.value.factor)
    }

    /** The village starts with no grievances and owns the items lying in its territory. */
    constructor (col: Collective, v: Option<Villain>, territoryItems: set<ItemId>)
      requires col.Valid()
      requires v.Some? && v.value.ransom.Some? ==> 0.0 <= v.value.ransom.value.factor
      ensures Valid()
      ensures collective == col && villain == v && myItems == territoryItems
      ensures victims == 0.0 && stolenItemCount == 0 && maxEnemyPower == 0.0 && !entries && attackSizes == map[]
    {
      collective := col;
      villain := v;
      victims := 0.0;
      stolenItemCount := 0;
      myItems := territoryItems;
      maxEnemyPower := 0.0;
      entries := false;
      attackSizes := map[];
    }

    /** The signals the triggers read, from this village's counters. */
    function Signals(s: Surroundings): VillageSignals
      reads this
    {
      VillageSignals(s.enemy, s.selfDanger, maxEnemyPower, victims, stolenItemCount, entries)
    }

    /** onOtherKilled: a creature of the village's tribe killed by the enemy
        counts as a small fraction of a victim. */
    method OnOtherKilled(victimOfOurTribe: bool, killer: CreatureId, enemyCreatures: Option<seq<CreatureId>>)
      modifies this`victims
      ensures victims == old(victims) + (if victimOfOurTribe && IsEnemy(enemyCreatures, killer) then 0.15 else 0.0)
    {
      if victimOfOurTribe && IsEnemy(enemyCreatures, killer) {
        victims := victims + 0.15;
      }
    }

    /** onMemberKilled: a member killed by the enemy counts as one victim. */
    method OnMemberKilled(killer: CreatureId, enemyCreatures: Option<seq<CreatureId>>)
      modifies this`victims
      ensures victims == old(victims) + (if IsEnemy(enemyCreatures, killer) then 1.0 else 0.0)
    {
      if IsEnemy(enemyCreatures, killer) {
        victims := victims + 1.0;
      }
    }

    /** onPickupEvent: an enemy picking up, inside the territory, items the
        village owns steals each of them once, when the village reacts to thefts. */
    method OnPickupEvent(whoInTerritory: bool, who: CreatureId, enemyCreatures: Option<seq<CreatureId>>, items: seq<ItemId>)
      modifies this`stolenItemCount, this`myItems
      ensures var watched := whoInTerritory && IsEnemy(enemyCreatures, who) && villain.Some? && StolenItems in villain.value.triggers;
              if watched then
                && stolenItemCount == old(stolenItemCount) + |old(myItems) * Elements(items)|
                && myItems == old(myItems) - Elements(items)
              else
                stolenItemCount == old(stolenItemCount) && myItems == old(myItems)
    {
      if whoInTerritory && IsEnemy(enemyCreatures, who) && villain.Some? && StolenItems in villain.value.triggers {
        ghost var owned := myItems;
        ghost var count := stolenItemCount;
        var i := 0;
        while i < |items|
          invariant 0 <= i <= |items|
          invariant stolenItemCount == count + |owned * Elements(items[..i])|
          invariant myItems == owned - Elements(items[..i])
        {
          TheftStep(owned, items, i);
          if items[i] in myItems {
            stolenItemCount := stolenItemCount + 1;
            myItems := myItems - {items[i]};
          }
          i := i + 1;
        }
        assert items[..i] == items;
      }
    }

    /** One team of considerCancellingAttack: its launch size is looked up
        (recorded as 0 when missing) and the team is called back when it lost
        too many members. */
    method ConsiderTeam(team: Team, wounded: set<CreatureId>) returns (cancelled: bool)
      requires Valid()
      modifies collective`teams, collective`tasks, this`attackSizes
      ensures Valid()
      ensures cancelled == ShouldCancel(team, SizeOf(old(attackSizes), team.id), wounded)
      ensures attackSizes.Keys == old(attackSizes).Keys + {team.id}
      ensures forall id :: SizeOf(attackSizes, id) == SizeOf(old(attackSizes), id)
      ensures cancelled ==> collective.teams == WithoutTeams(old(collective.teams), {team.id})
                            && collective.tasks == old(collective.tasks) - Elements(team.members)
      ensures !cancelled ==> collective.teams == old(collective.teams) && collective.tasks == old(collective.tasks)
    {
      if team.id !in attackSizes {
        attackSizes := attackSizes[team.id := 0];
      }
      var members := team.members;
      cancelled := |members| < (attackSizes[team.id] + 1) / 2 || (|members| == 1 && members[0] in wounded);
      if cancelled {
        collective.CallBack(team);
      }
    }

    /** The state of considerCancellingAttack after the first i teams of
        `all`, as AttritionState describes it. */
    ghost predicate AttritionProgress(all: seq<Team>, i: nat, sizes: map<TeamId, nat>, wounded: set<CreatureId>,
                                      tasks: map<CreatureId, Task>, gone: seq<Team>)
      reads this, collective
    {
      Valid() && AttritionState(all, i, sizes, wounded, tasks, gone, collective.teams, collective.tasks, attackSizes)
    }

    /** One iteration of considerCancellingAttack. */
    method AttritionIteration(all: seq<Team>, i: nat, ghost sizes: map<TeamId, nat>, wounded: set<CreatureId>,
                              ghost tasks: map<CreatureId, Task>, ghost gone: seq<Team>)
      returns (ghost gone': seq<Team>)
      requires i < |all| && AttritionProgress(all, i, sizes, wounded, tasks, gone)
      modifies collective`teams, collective`tasks, this`attackSizes
      ensures AttritionProgress(all, i + 1, sizes, wounded, tasks, gone')
    {
      ghost var teams := collective.teams;
      ghost var taskMap := collective.tasks;
      ghost var recorded := attackSizes;
      var cancelled := ConsiderTeam(all[i], wounded);
      AttritionStateStep(all, i, sizes, wounded, tasks, gone, teams, taskMap, recorded, attackSizes);
      gone' := if cancelled then gone + [all[i]] else gone;
    }

    /** considerCancellingAttack: calls back every team that lost too many
        members, releasing its members from their tasks. */
    method ConsiderCancellingAttack(wounded: set<CreatureId>)
      requires Valid()
      modifies collective`teams, collective`tasks, this`attackSizes
      ensures Valid()
      ensures collective.teams == AfterAttrition(old(collective.teams), old(attackSizes), wounded)
      ensures collective.tasks == old(collective.tasks) - MembersOf(Cancelled(old(collective.teams), old(attackSizes), wounded))
      ensures attackSizes.Keys == old(attackSizes).Keys + TeamIds(old(collective.teams))
      ensures forall id :: SizeOf(attackSizes, id) == SizeOf(old(attackSizes), id)
    {
      var all := collective.teams;
      ghost var sizes := attackSizes;
      ghost var tasks := collective.tasks;
      ghost var gone: seq<Team> := [];
      WithoutNoTeams(all);
      assert all[..0] == [];
      assert TeamIds(all[..0]) == {};
      var i := 0;
      while i < |all|
        invariant AttritionProgress(all, i, sizes, wounded, tasks, gone)
      {
        gone := AttritionIteration(all, i, sizes, wounded, tasks, gone);
        i := i + 1;
      }
      assert all[..i] == all;
    }

    /** onRansomPaid: every team is called back and its members released. */
    method OnRansomPaid()
      requires Valid()
      modifies collective`teams, collective`tasks
      ensures Valid()
      ensures collective.teams == []
      ensures collective.tasks == old(collective.tasks) - MembersOf(old(collective.teams))
    {
      var all := collective.teams;
      ghost var tasks := collective.tasks;
      WithoutNoTeams(all);
      assert all[..0] == [];
      assert TeamIds(all[..0]) == {};
      var i := 0;
      while i < |all|
        invariant i <= |all|
        invariant RansomProgress(all, i, tasks)
      {
        RansomIteration(all, i, tasks);
        i := i + 1;
      }
      assert all[..i] == all;
      TeamIdsAreTheIds(all);
      WithoutEveryTeam(all, TeamIds(all));
    }

    /** The state of onRansomPaid after the first i teams of `all`. */
    ghost predicate RansomProgress(all: seq<Team>, i: nat, tasks: map<CreatureId, Task>)
      reads this, collective
    {
      && i <= |all|
      && Valid()
      && collective.teams == WithoutTeams(all, TeamIds(all[..i]))
      && collective.tasks == tasks - MembersOf(all[..i])
    }

    /** One iteration of onRansomPaid. */
    method RansomIteration(all: seq<Team>, i: nat, ghost tasks: map<CreatureId, Task>)
      requires i < |all| && RansomProgress(all, i, tasks)
      modifies collective`teams, collective`tasks
      ensures RansomProgress(all, i + 1, tasks)
    {
      collective.CallBack(all[i]);
      RansomStep(all, i);
      ReleaseTwice(tasks, MembersOf(all[..i]), Elements(all[i].members));
    }

    /** checkEntries: an enemy of the tribe inside the territory is remembered
        once the village has an ENTRY trigger. */
    method CheckEntries(enemyInTerritory: bool)
      modifies this`entries
      ensures entries == (old(entries) || (villain.Some? && enemyInTerritory && Entry in villain.value.triggers))
    {
      if villain.Some? {
        var triggers := villain.value.triggers;
        var i := 0;
        while i < |triggers|
          invariant 0 <= i <= |triggers|
          invariant entries == (old(entries) || (enemyInTerritory && Entry in triggers[..i]))
        {
          assert triggers[..i + 1] == triggers[..i] + [triggers[i]];
          if triggers[i].Entry? && enemyInTerritory {
            entries := true;
          }
          i := i + 1;
        }
        assert triggers[..i] == triggers;
      }
    }

    /** launchAttack: the attackers form a new active team tasked with the
        villain's behaviour, whose size is recorded, and the enemy is told of
        the attack and of a ransom demand when the villain asks for one and the
        enemy can pay the minimum. Nothing happens without an enemy. */
    method LaunchAttack(attackers: seq<CreatureId>, enemy: Option<EnemySignals>) returns (posted: Option<CollectiveAttack>)
      requires Valid() && villain.Some?
      modifies collective`teams, collective`nextTeamId, collective`tasks, this`attackSizes
      ensures Valid()
      ensures posted.None? <==> enemy.None?
      ensures enemy.None? ==> unchanged(collective) && attackSizes == old(attackSizes)
      ensures enemy.Some? ==>
                var id := old(collective.nextTeamId);
                var v := villain.value;
                && id !in TeamIds(old(collective.teams))
                && posted.value.attackers == attackers
                && collective.teams == old(collective.teams) + [Team(id, attackers)]
                && attackSizes == old(attackSizes)[id := |attackers|]
                && collective.nextTeamId == id + 1
                && TasksAssigned(old(collective.tasks), collective.tasks, attackers, Attack(v.behaviour))
                && RansomPosted(v.ransom, enemy.value.gold, posted.value.ransom)
                && (posted.value.ransom.Some? ==> posted.value.ransom.value >= v.ransom.value.minimum)
    {
      if enemy.None? {
        return None;
      }
      var v := villain.value;
      var ransom: Option<int> := None;
      var hisGold := enemy.value.gold;
      if v.ransom.Some? && hisGold >= v.ransom.value.minimum {
        var terms := v.ransom.value;
        assert Within(terms.factor * 0.6, terms.factor, terms.factor * 1.5);
        var draw: real :| Within(terms.factor * 0.6, draw, terms.factor * 1.5);
        ransom := Some(RansomDemand(terms, hisGold, draw));
        assert ransom.value == RansomDemand(terms, hisGold, draw);
      }
      assert RansomPosted(v.ransom, hisGold, ransom);
      posted := Some(CollectiveAttack(attackers, ransom));
      var team := collective.CreatePersistent(attackers);
      var i := 0;
      ghost var tasks := collective.tasks;
      while i < |attackers|
        invariant 0 <= i <= |attackers|
        invariant collective.Valid() && collective.teams == old(collective.teams) + [Team(team, attackers)]
        invariant collective.nextTeamId == old(collective.nextTeamId) + 1
        invariant attackSizes == old(attackSizes) && team == old(collective.nextTeamId)
        invariant forall c :: c in attackers[..i] ==> c in collective.tasks && collective.tasks[c] == Attack(v.behaviour)
        invariant forall c :: c !in attackers[..i] ==> (c in collective.tasks <==> c in tasks)
        invariant forall c :: c !in attackers[..i] && c in collective.tasks ==> collective.tasks[c] == tasks[c]
      {
        assert attackers[..i + 1] == attackers[..i] + [attackers[i]];
        collective.SetTask(attackers[i], Attack(v.behaviour));
        i := i + 1;
      }
      assert attackers[..i] == attackers;
      attackSizes := attackSizes[team := |attackers|];
    }

    /** The first team is called back when one of its members has no task left. */
    method CancelIdleFirstTeam()
      requires Valid() && collective.teams != []
      modifies collective`teams
      ensures Valid()
      ensures var first := old(collective.teams)[0];
              collective.teams == if exists c :: c in first.members && !collective.HasTask(c)
                                  then WithoutTeams(old(collective.teams), {first.id})
                                  else old(collective.teams)
    {
      var team := collective.teams[0];
      var j := 0;
      while j < |team.members|
        invariant 0 <= j <= |team.members|
        invariant forall k :: 0 <= k < j ==> collective.HasTask(team.members[k])
      {
        if !collective.HasTask(team.members[j]) {
          assert team.members[j] in team.members;
          collective.Cancel(team.id);
          return;
        }
        j := j + 1;
      }
    }

    /** The bookkeeping that opens update: attrition, entries and the enemy's
        peak power. */
    method Housekeeping(s: Surroundings)
      requires Valid()
      modifies collective`teams, collective`tasks
      modifies this`attackSizes, this`entries, this`maxEnemyPower
      ensures Valid()
      ensures collective.teams == AfterAttrition(old(collective.teams), old(attackSizes), s.wounded)
      ensures collective.tasks == old(collective.tasks) - MembersOf(Cancelled(old(collective.teams), old(attackSizes), s.wounded))
      ensures maxEnemyPower == if s.enemy.Some? then Max(old(maxEnemyPower), s.enemy.value.danger) else old(maxEnemyPower)
      ensures maxEnemyPower >= old(maxEnemyPower)
      ensures entries == (old(entries) || (villain.Some? && s.enemyInTerritory && Entry in villain.value.triggers))
      ensures forall t :: SizeOf(attackSizes, t) == SizeOf(old(attackSizes), t)
      ensures collective.nextTeamId == old(collective.nextTeamId)
    {
      ConsiderCancellingAttack(s.wounded);
      CheckEntries(s.enemyInTerritory);
      if s.enemy.Some? {
        maxEnemyPower := Max(maxEnemyPower, s.enemy.value.danger);
      }
    }

    /** The village may consider an attack this turn: it is allowed to attack,
        the update roll succeeded and it has a villain configuration. */
    ghost predicate MayAttack(currentlyActive: bool, s: Surroundings, rolls: Rolls)
      reads this
    {
      CanPerformAttack(currentlyActive, s.singleModel, s.onMainModel) && rolls.updateRoll && villain.Some?
    }

    /** Everything update checks before it launches an attack: the village may
        attack, the combined probability is positive and its roll succeeded,
        and there are enough fighters and members. */
    ghost predicate AttackDue(currentlyActive: bool, s: Surroundings, rolls: Rolls)
      reads this, collective
    {
      && MayAttack(currentlyActive, s, rolls)
      && var v := villain.value;
         var p := CombinedProbability(v.triggers, Signals(s));
         && p.Ok? && p.value > 0.0 && rolls.attackRoll
         && |AvailableFighters(s)| >= v.minTeamSize
         && |collective.creatures| >= v.minPopulation + v.minTeamSize
    }

    /** The raid decision of update, taken when no team exists: when the village
        may attack and both rolls succeed, a prefix of a permutation of the
        available fighters is sent out, of a size drawn between the minimum team
        size and what the fighters and the home population allow. An attack is
        launched exactly when all of update's conditions hold and there is an
        enemy. */
    method ConsiderAttack(currentlyActive: bool, s: Surroundings, rolls: Rolls) returns (r: Outcome<Option<CollectiveAttack>>)
      requires Valid() && collective.teams == []
      modifies collective`teams, collective`nextTeamId, collective`tasks, this`attackSizes
      ensures Valid()
      ensures r.Fatal? <==> MayAttack(currentlyActive, s, rolls) && CombinedProbability(villain.value.triggers, Signals(s)).Fatal?
      ensures r.Ok? && r.value.Some? <==> AttackDue(currentlyActive, s, rolls) && s.enemy.Some?
      ensures r.Ok? && r.value.Some? ==>
                var a := r.value.value.attackers;
                var id := old(collective.nextTeamId);
                && TeamSent(a, AvailableFighters(s), villain.value, |collective.creatures|, id,
                            old(collective.tasks), collective.tasks, collective.teams)
                && attackSizes == old(attackSizes)[id := |a|]
                && RansomPosted(villain.value.ransom, s.enemy.value.gold, r.value.value.ransom)
      ensures !(r.Ok? && r.value.Some?) ==>
                && collective.teams == [] && collective.tasks == old(collective.tasks)
                && attackSizes == old(attackSizes)
    {
      var allMembers := collective.creatures;
      var updateFreq := 0.1;
      if CanPerformAttack(currentlyActive, s.singleModel, s.onMainModel) && rolls.updateRoll && villain.Some? {
        var v := villain.value;
        var p := GetAttackProbability(v.triggers, Signals(s));
        if p.Fatal? {
          return Fatal(p.message);
        }
        var prob := p.value / updateFreq;
        assert prob > 0.0 <==> p.value > 0.0;
        if prob > 0.0 && rolls.attackRoll {
          var fighters := AvailableFighters(s);
          if |fighters| >= v.minTeamSize && |allMembers| >= v.minPopulation + v.minTeamSize {
            var posted := SendTeam(fighters, s.enemy);
            return Ok(posted);
          }
        }
      }
      return Ok(None);
    }

    /** The launch at the end of update: a prefix of a random permutation of
        the fighters, of a random size between the minimum team size and what
        the fighters and the home population allow, is sent out. */
    method SendTeam(fighters: seq<CreatureId>, enemy: Option<EnemySignals>) returns (posted: Option<CollectiveAttack>)
      requires Valid() && villain.Some? && collective.teams == []
      requires |fighters| >= villain.value.minTeamSize
      requires |collective.creatures| >= villain.value.minPopulation + villain.value.minTeamSize
      modifies collective`teams, collective`nextTeamId, collective`tasks, this`attackSizes
      ensures Valid()
      ensures posted.None? <==> enemy.None?
      ensures posted.None? ==>
                && collective.teams == [] && collective.tasks == old(collective.tasks)
                && attackSizes == old(attackSizes)
      ensures posted.Some? ==>
                var a := posted.value.attackers;
                var id := old(collective.nextTeamId);
                && TeamSent(a, fighters, villain.value, |collective.creatures|, id,
                            old(collective.tasks), collective.tasks, collective.teams)
                && attackSizes == old(attackSizes)[id := |a|]
                && RansomPosted(villain.value.ransom, enemy.value.gold, posted.value.ransom)
    {
      var v := villain.value;
      var allMembers := collective.creatures;
      var perm: seq<CreatureId> :| multiset(perm) == multiset(fighters);
      var size :| v.minTeamSize <= size < Min(|fighters|, |allMembers| - v.minPopulation) + 1;
      assert |perm| == |fighters| by {
        assert |multiset(perm)| == |perm| && |multiset(fighters)| == |fighters|;
      }
      assert size < Min(|fighters|, |allMembers| - v.minPopulation) + 1;
      assert size <= |fighters| && size <= |allMembers| - v.minPopulation;
      posted := LaunchAttack(perm[..size], enemy);
    }

    /** update: after the bookkeeping, an existing team only has its first team
        checked for idle members and no raid is considered; otherwise the raid
        decision is taken. The result is the attack announced to the enemy, or a
        fatal failure of the trigger check. */
    method Update(currentlyActive: bool, s: Surroundings, rolls: Rolls) returns (r: Outcome<Option<CollectiveAttack>>)
      requires Valid()
      modifies collective`teams, collective`nextTeamId, collective`tasks
      modifies this`attackSizes, this`entries, this`maxEnemyPower
      ensures Valid()
      ensures collective.creatures == old(collective.creatures)
      ensures maxEnemyPower == if s.enemy.Some? then Max(old(maxEnemyPower), s.enemy.value.danger) else old(maxEnemyPower)
      ensures entries == (old(entries) || (villain.Some? && s.enemyInTerritory && Entry in villain.value.triggers))
      ensures var survivors := AfterAttrition(old(collective.teams), old(attackSizes), s.wounded);
              var released := old(collective.tasks) - MembersOf(Cancelled(old(collective.teams), old(attackSizes), s.wounded));
              survivors != [] ==>
                && r == Ok(None)
                && collective.tasks == released
                && collective.teams == if exists c :: c in survivors[0].members && c !in released
                                       then WithoutTeams(survivors, {survivors[0].id})
                                       else survivors
      ensures var survivors := AfterAttrition(old(collective.teams), old(attackSizes), s.wounded);
              survivors == [] ==>
                && (r.Fatal? <==> MayAttack(currentlyActive, s, rolls) && CombinedProbability(villain.value.triggers, Signals(s)).Fatal?)
                && (r.Ok? && r.value.Some? <==> AttackDue(currentlyActive, s, rolls) && s.enemy.Some?)
      ensures var released := old(collective.tasks) - MembersOf(Cancelled(old(collective.teams), old(attackSizes), s.wounded));
              r.Ok? && r.value.Some? ==>
                var a := r.value.value.attackers;
                var id := old(collective.nextTeamId);
                && AfterAttrition(old(collective.teams), old(attackSizes), s.wounded) == []
                && TeamSent(a, AvailableFighters(s), villain.value, |collective.creatures|, id,
                            released, collective.tasks, collective.teams)
                && SizeOf(attackSizes, id) == |a|
                && RansomPosted(villain.value.ransom, s.enemy.value.gold, r.value.value.ransom)
                && forall t :: t != id ==> SizeOf(attackSizes, t) == SizeOf(old(attackSizes), t)
      ensures var survivors := AfterAttrition(old(collective.teams), old(attackSizes), s.wounded);
              var released := old(collective.tasks) - MembersOf(Cancelled(old(collective.teams), old(attackSizes), s.wounded));
              survivors == [] && !(r.Ok? && r.value.Some?) ==>
                collective.teams == [] && collective.tasks == released
      ensures !(r.Ok? && r.value.Some?) ==> forall t :: SizeOf(attackSizes, t) == SizeOf(old(attackSizes), t)
    {
      Housekeeping(s);
      if collective.teams != [] {
        CancelIdleFirstTeam();
        return Ok(None);
      }
      r := ConsiderAttack(currentlyActive, s, rolls);
    }
  }
}
