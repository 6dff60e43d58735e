# KeeperRL scheduling, world and village core in Dafny

This project models the turn-scheduling and raid-decision core of KeeperRL, a
dungeon-keeper game:

- **Scheduling** (`time_queue.dfy`). `TimeQueue` owns every creature of a
  model in a list, and keeps a lazily built ordered set of them keyed by
  (local time ascending, unique id descending). It hands out the earliest
  creature and brackets every change of a creature's time with an erase and a
  re-insert.
- **World** (`world_model.dfy`). The `Model` runs the world's update loop:
  - it asks the queue for the earliest creature and stops at the time horizon;
  - it fires a world tick once time has moved a whole unit past the last tick;
  - it lets a live creature move, and stops when the player's creature is
    unpossessed.

  It also keeps the stair links between levels, written in symmetric pairs, and
  moves creatures (and the player marker) between levels.
- **Village triggers** (`village_triggers.dfy`). The pure trigger functions of
  a village controller turn what the village has seen (power balance, victims,
  population, gold, thefts, entries, rooms) into probabilities. The attack
  probability is the maximum of them.
- **Village** (`village_control.dfy`). `VillageControl` keeps the village's
  grievance counters and runs its raid lifecycle:
  - it launches a team with an optional ransom demand;
  - it cancels teams worn down by attrition;
  - it recalls every team when the ransom is paid;
  - it gates a new attack on the triggers and on the size of the population.

  `Collective` is the village's team and task registry as these operations use
  it.
- **Main loop** (`main_loop.dfy`). These are the save-file helpers of the main
  menu: version compatibility, save suffixes and paths, removal of non-ASCII
  characters, the description of a downloadable game, the list of games
  offered for download, and the choice of a save file.
- **Sharing** (`file_sharing.dfy`). These are the string and queue logic of
  the file-sharing client:
  - URL space escaping and the receive callback;
  - parsing of the game list;
  - the `k=v&...` event parameters and the bounded retry of event uploads;
  - the results of an upload, a listing and a download, including the early
    returns when the ONLINE option is off.

`wrappers.dfy` holds `Option` and `Outcome` (a value, or a fatal error with its
message). `entities.dfy` holds the `Creature` and `Level` objects the scheduler
and the world share.

The effects the core cannot see are parameters of the model:

- a creature's move (`Move`: new time, death, whether it stays the player);
- the random rolls and draws (`Rolls`, and nondeterministic choices bounded by
  the ranges of the draws);
- the state of the world around a village (`Surroundings`);
- the network (`network: string -> Transfer`, `network: nat -> Attempt`);
- number parsing and formatting (`toInt`, `plural`, `decimal`);
- file system results (`fileOpens`).

## Model

| member | source | states |
|---|---|---|
| Scheduling.BeforeIsStrictTotalOrder | time_queue.cpp:38-40 | the queue order (earlier time first, on a tie the larger unique id first) is irreflexive, asymmetric and transitive, and it is total on creatures with distinct ids |
| Scheduling.TimeQueue.constructor | time_queue.cpp:22-25 | a queue restored from a saved creature list holds that list and has no ordered set yet (built lazily) |
| Scheduling.TimeQueue.Insert | time_queue.cpp:41-42 | inserting into the ordered set keeps it strictly sorted and adds exactly that creature |
| Scheduling.TimeQueue.Erase | time_queue.cpp:52 | erasing from the ordered set keeps it strictly sorted and removes exactly that creature |
| Scheduling.TimeQueue.GetQueue | time_queue.cpp:36-45 | the lazy build inserts every listed creature, so afterwards the ordered set holds exactly the list's members; an already built set is left as it is |
| Scheduling.TimeQueue.AddCreature | time_queue.cpp:29-32 | the list grows by the creature at its end and the scheduled set by exactly that creature |
| Scheduling.TimeQueue.RemoveCreature | time_queue.cpp:47-57 | a listed creature is removed from both the list and the ordered set and returned; the remaining creatures stay listed; an unlisted creature is the failure case (null, nothing changes) |
| Scheduling.TimeQueue.GetAllCreatures | time_queue.cpp:59-61 | returns the creatures in list (insertion) order |
| Scheduling.TimeQueue.GetNextCreature | time_queue.cpp:63-68 | null exactly when there are no creatures; otherwise a scheduled creature that comes before every other scheduled creature |
| Scheduling.TimeQueue.BeforeUpdateTime | time_queue.cpp:70-72 | the creature leaves the ordered set and nothing else does |
| Scheduling.TimeQueue.AfterUpdateTime | time_queue.cpp:74-76 | the creature re-enters the ordered set at its new time, which restores the membership the bracket began with |
| World.Opposite | model.cpp:289 | the opposite stair direction differs from the direction |
| World.OppositeIsInvolution | model.cpp:288-289 | taking the opposite twice gives the direction back |
| World.WithLink | model.cpp:287-290 | the link map gains (dir, key, l1) to l2 and (opposite dir, key, l2) to l1, and no other entry changes |
| World.WithLinkKeepsSymmetry | model.cpp:287-290 | adding a link to a map in which every link can be walked back leaves every link walkable back, provided it overwrites no existing key |
| World.OverwrittenLinkBreaksSymmetry | model.cpp:287-290 | relinking an existing stair to another level leaves a link that cannot be walked back |
| World.Model.constructor | model.cpp:80 | a new model has an empty queue, no dead creatures and no links |
| World.Model.IsTurnBased | model.cpp:12-14 | true without a collective, otherwise exactly the collective's turn-based flag |
| World.Model.AddCreature | model.cpp:63-67 | the creature's time becomes current time + 1 and it is queued exactly when it stands on a level (the failure case leaves the queue unchanged) |
| World.Model.RemoveCreature | model.cpp:69-71 | a queued creature leaves the queue (one fewer) and is appended to the dead list; an unqueued one is the failure case and changes nothing |
| World.Model.MakeMove | model.cpp:47-49 | the move sets the creature's time, death and player flag, and a death moves it to the dead list |
| World.Model.TakeTurn | model.cpp:31-51 | a tick fires exactly when the creature's time is at least one past the last tick, and the last tick becomes that time; a live creature then takes the move: its time becomes the move's time, it stays the player only if it was the player and the move keeps it so, and it is dead and gone from the queue exactly when the move kills it; a dead creature changes nothing; the result says the live creature was the player and stopped being it; a heap that held a scheduler state before the turn holds the state ApplyTurn makes of it afterwards |
| World.Model.Step | model.cpp:25-59 | no creature is the fatal case; the horizon stops the step with nothing moved, the heap still holding the given scheduler state, and every creature beyond the horizon; otherwise the turn handed out is the next one of the given scheduler state (its creature queued, before every other queued creature in the queue order, due within the horizon, recorded with its time, player flag and death), it has the effects of TakeTurn, the heap afterwards holds exactly the state ApplyTurn makes of the given one (so every other queued creature keeps its attributes), and the step reports Unpossessed exactly when that creature was a live player the move unpossesses; only the time, player flag and death of queued creatures are in its frame, so no creature changes level |
| World.LastTickIsLatestTick | model.cpp:31-40 | the last tick after a run of turns is the latest tick they fired, or the starting one when none fired |
| World.TicksWithin | model.cpp:28-40 | turns due by the horizon fire their ticks by the horizon, and the last tick never goes back |
| World.Model.HistoryExtended | model.cpp:31-50 | one more turn extends the dead list and the ticks by exactly what that turn contributes: its creature when a live creature's move kills it, its time when it is a whole unit past the last tick |
| World.Model.Pass | model.cpp:25-59 | one pass of the loop: a turn handed out is the next one of the scheduler state the earlier turns left, extends the recorded turns, is due by the horizon, is taken by a creature queued when the loop began, keeps the dead list and ticks equal to what the recorded turns made of them, and leaves the heap holding the replay of all turns from the starting state; a stop reports the loop's outcome |
| World.Model.Update | model.cpp:16-61 | the loop hands out one turn per move, each the next one of the scheduler (the earliest queued creature in the state the earlier turns left, due by the horizon), and the creatures' times, player flags, deaths and queue membership afterwards are the replay of those turns from the starting state; the dead list afterwards is the old one followed by the creatures the turns killed, in turn order; the ticks are the old ones followed by the times of the turns that came a whole unit after the previous tick, and the last tick is the last of those (or the old one); no creature joins the queue and every new tick is within the horizon; it reports Unpossessed exactly when the last turn unpossessed the player and no earlier one did; MovesExhausted only after every move was used; the horizon and an empty queue stop it with a move left over, with every queued creature beyond the horizon in the first case and no creature in the second; only the time, player flag and death of queued creatures are in its frame |
| World.ApplyTurn | model.cpp:44-49 | a turn only takes creatures out of the queue and changes the attributes of its own creature alone; the set of creatures described stays the same |
| World.Replay | model.cpp:16-61 | replaying turns keeps the set of creatures described |
| World.ScheduleExtended | model.cpp:25-59 | a turn that is next in the state the earlier turns left extends the schedule, and the replay by exactly that turn's move |
| World.NextIsUnique | time_queue.cpp:38-40 | in a scheduler state at most one turn is next, because the queue order (time, then unique id) leaves no tie |
| World.ScheduleIsDeterministic | model.cpp:16-61 | two runs of the loop from the same state with the same moves and the same number of turns hand out the same turns |
| World.ReplayKeepsNonMovers | model.cpp:44-49 | a creature that took none of the turns keeps the time, player flag and death it started with |
| World.ReplayDequeuesTheDead | model.cpp:44-49 | the turns only take creatures out of the queue, and a queued creature leaves it exactly when one of the turns killed it |
| World.Model.TickIfDue | model.cpp:31-40 | the tick fires exactly when the time is at least one unit past the last tick; the last tick becomes that time and the time is appended to the ticks, otherwise both stay |
| World.Model.MirrorsAfterMove | model.cpp:44-49 | when a live creature's attributes follow its move, every other creature of a scheduler state keeps its attributes and the queue loses the creature exactly when it died, the heap holds the state ApplyTurn makes of it |
| World.Model.AddLink | model.cpp:287-290 | the link map becomes the symmetric pair update of WithLink |
| World.Model.ChangeLevel | model.cpp:292-301 | the creature lands on the linked level, arriving by the opposite direction and the same key; the player marker moves from the old level to the target exactly when the creature is the player, and no other level's marker changes |
| World.Model.ChangeLevelTo | model.cpp:303-310 | the creature lands on the given level; the player marker moves only for the player |
| VillageTriggers.PowerClosenessFun | village_control.cpp:224-237 | the closeness of the two powers is a probability, and 0 when either power is 0 |
| VillageTriggers.PowerCurveInUnit | village_control.cpp:227-236 | every piece of the curve lies in [0, 1] |
| VillageTriggers.PowerCurveLandmarks | village_control.cpp:227-236 | the curve is 1 at equal power, 0.5 at ratio 2, and never above its value at equal power |
| VillageTriggers.PowerCurveRisesToParity | village_control.cpp:229-232 | below equal power the curve does not decrease |
| VillageTriggers.PowerCurveFallsPastParity | village_control.cpp:233-236 | beyond equal power the curve does not increase |
| VillageTriggers.PowerCurveVanishes | village_control.cpp:235-236 | for a large enough ratio the curve drops below any positive bound |
| VillageTriggers.VictimsFun | village_control.cpp:239-250 | a value in {0, 0.1, 0.3, 0.7, 1}, 0 exactly when there are no victims |
| VillageTriggers.VictimsFunMonotone | village_control.cpp:239-250 | more victims never lower the value |
| VillageTriggers.PopulationFun | village_control.cpp:252-264 | a value in {0, 0.1, 0.3, 0.6, 1}, 0 exactly below the minimum population (for a positive minimum) |
| VillageTriggers.PopulationFunMonotone | village_control.cpp:252-264 | a larger population never lowers the value |
| VillageTriggers.GoldFun | village_control.cpp:266-278 | a value in {0, 0.1, 0.3, 0.6, 1}, 0 exactly below the minimum gold (for a positive minimum) |
| VillageTriggers.GoldFunMonotone | village_control.cpp:266-278 | more gold never lowers the value |
| VillageTriggers.StolenItemsFun | village_control.cpp:280-285 | 1 when anything was stolen, 0 exactly when nothing was |
| VillageTriggers.GetRoomProb | village_control.cpp:287-293 | the known rooms give a probability in (0, 0.001]; any other square is fatal |
| VillageTriggers.GetFinishOffProb | village_control.cpp:295-300 | nonzero exactly when the village is no stronger than the enemy's peak and the enemy is below half of it; then in (0.25, 1] |
| VillageTriggers.FinishOffGrowsAsEnemyWeakens | village_control.cpp:295-300 | a weaker enemy never lowers the finish-off value |
| VillageTriggers.TruncateToInt | village_control.cpp:325 | the victim count, a real, is converted to an integer by truncation toward zero |
| VillageTriggers.GetTriggerValue | village_control.cpp:302-344 | every trigger except a room gives a value in [0, 0.05]; without an enemy every trigger gives 0 |
| VillageTriggers.RoomBuiltInRange | village_control.cpp:315-317 | a room trigger is fatal exactly for a square that is not a known room; otherwise it is the number of such rooms times the room's weight, at most 0.001 per room, and it stays a probability exactly up to 1000 thrones or 8000 rooms of another kind |
| VillageTriggers.TriggerValues | village_control.cpp:348-349 | one value per trigger, in trigger order |
| VillageTriggers.MaxFoldFailsOnUncombinable | village_control.cpp:348-351 | the fold succeeds exactly when every value is a probability |
| VillageTriggers.MaxFoldIsMaximum | village_control.cpp:347-355 | a successful fold is a probability at least every value, 0 for no values, and equal to one of the values otherwise |
| VillageTriggers.MaxFoldFatalPersists | village_control.cpp:350 | the first out-of-range value decides the fold: nothing after it matters |
| VillageTriggers.CombinedIsMaximum | village_control.cpp:346-356 | the attack probability succeeds exactly when every trigger value is a probability, and is then their maximum (0 without triggers) |
| VillageTriggers.CombinationIsNotASum | village_control.cpp:346-356 | a theft trigger worth 1/300 and an entry trigger worth 1/20 combine to 1/20, their maximum, not their sum |
| VillageTriggers.GetAttackProbability | village_control.cpp:346-356 | the loop computes the maximum fold of the trigger values |
| Village.WithoutTeamsKeepsTheOthers | village_control.cpp:118 | cancelling teams removes exactly the teams with those ids and keeps ids distinct |
| Village.CancelledAreTheNonViable | village_control.cpp:114-115 | a team is cancelled exactly when it has fewer than half (rounded up) of its initial size, or is one seriously wounded member |
| Village.SurvivorsAreExactlyTheViable | village_control.cpp:111-121 | after attrition the remaining teams are exactly the viable ones |
| Village.AttritionExamples | village_control.cpp:114-115 | a team of 6 worn down to 2 is cancelled, to 5 is kept; a sole wounded member is cancelled |
| Village.PrefixOfPermutation | village_control.cpp:201-203 | a prefix of a permutation of the fighters holds only fighters, without duplicates when the fighters have none |
| Village.InTerritory | village_control.cpp:193-195 | keeps exactly the fighters standing in the territory |
| Village.CanPerformAttack | village_control.cpp:169-172 | an inactive village may always attack; an active one only in a single-model game or on the main model |
| Village.RansomDemand | village_control.cpp:96-100 | the demand is the larger of the configured minimum and the truncated share of the enemy's gold: at least both, and equal to one of them |
| Village.Collective.CreatePersistent | village_control.cpp:102 | a new team with a fresh id and exactly the attackers is appended |
| Village.Collective.Cancel | village_control.cpp:118 | the team with that id is removed and no other |
| Village.Collective.CancelTask | village_control.cpp:116-117 | the creature loses its task, and no other creature does |
| Village.Collective.CancelTasks | village_control.cpp:116-117 | exactly the given creatures lose their tasks |
| Village.Collective.CallBack | village_control.cpp:116-118 | the team's members lose their tasks and the team is removed |
| Village.Collective.SetTask | village_control.cpp:105-106 | the creature's task becomes the given one |
| Village.VillageControl.constructor | village_control.cpp:46-50 | the village owns the items in its territory and starts with zero counters and no attack sizes |
| Village.VillageControl.OnOtherKilled | village_control.cpp:63-67 | a victim of the village's tribe killed by an enemy adds 0.15 victims, otherwise nothing |
| Village.VillageControl.OnMemberKilled | village_control.cpp:69-72 | an enemy killing a member adds 1 victim, otherwise nothing |
| Village.VillageControl.OnPickupEvent | village_control.cpp:74-89 | an enemy in the territory picking up items, with a theft trigger configured, adds exactly the number of owned items picked and disowns them; otherwise nothing changes |
| Village.VillageControl.ConsiderTeam | village_control.cpp:113-119 | one team is cancelled, with its members' tasks, exactly when it is not viable; its attack size is read with an entry of 0 created when missing |
| Village.VillageControl.ConsiderCancellingAttack | village_control.cpp:111-121 | the teams become the viable ones and exactly the members of the cancelled teams lose their tasks |
| Village.VillageControl.OnRansomPaid | village_control.cpp:123-130 | every team is cancelled and every member loses its task |
| Village.VillageControl.CheckEntries | village_control.cpp:159-167 | the entry flag is set once an enemy is in the territory and an entry trigger is configured, and it is never cleared |
| Village.VillageControl.LaunchAttack | village_control.cpp:91-109 | without an enemy nothing happens; otherwise a new team of exactly the attackers is created with their attack task and recorded size, and a ransom is demanded exactly when configured and the enemy can pay the minimum, and it is then the larger of the minimum and the truncated product of the enemy's gold with some draw between 0.6 and 1.5 times the configured factor (so never below the minimum) |
| Village.VillageControl.CancelIdleFirstTeam | village_control.cpp:181-188 | the first team is cancelled exactly when one of its members has no task |
| Village.VillageControl.Housekeeping | village_control.cpp:175-179 | attrition, the entry check and the running maximum of enemy power, in that order |
| Village.VillageControl.ConsiderAttack | village_control.cpp:189-204 | a fatal trigger value is reported exactly when the village may attack (permission, the update roll, a villain) and the combined probability is fatal; a team is sent exactly when it may attack, the probability is positive, the attack roll succeeds, there are enough fighters and population, and there is an enemy; the team is then the only team, a prefix of a permutation of the available fighters, at least the minimum team size and leaving the minimum population, each member has the attack task, its size is recorded and its ransom is the one LaunchAttack demands of the enemy; otherwise teams, tasks and sizes stay as they were |
| Village.VillageControl.SendTeam | village_control.cpp:196-203 | with enough fighters and population, a team is sent exactly when there is an enemy, drawn as a prefix of a permutation of the fighters within the size bounds, with its attack tasks, recorded size and the ransom LaunchAttack demands |
| Village.VillageControl.Update | village_control.cpp:174-207 | after attrition, a surviving team blocks any attack: the result is no attack, the cancelled teams' members lose their tasks, and the first survivor is also cancelled when one of its members has no task; with no survivor the fatal result and the sending of a team hold exactly under the conditions of ConsiderAttack, and a sent team is the only team with its attack tasks and recorded size, announced with the ransom LaunchAttack demands; enemy power is a running maximum, entries stay set and the members are unchanged |
| MainLoop.OnlyTheCurrentVersionIsCompatible | main_loop.cpp:59-63 | a save version is compatible exactly when it is 800 |
| MainLoop.GetSaveSuffix | main_loop.cpp:65-73 | every suffix is a dot and three letters |
| MainLoop.SuffixesAreDistinct | main_loop.cpp:65-73 | the five save types have five distinct suffixes |
| MainLoop.KeepAsciiIsAscii | main_loop.cpp:109-116 | the kept string has only ASCII characters, and an ASCII string is kept whole |
| MainLoop.KeepAsciiIsIdempotent | main_loop.cpp:113-116 | stripping twice is stripping once |
| MainLoop.KeepAsciiKeepsExactlyTheAscii | main_loop.cpp:109-116 | a character is kept exactly when it occurs and is ASCII |
| MainLoop.KeepAsciiDistributes | main_loop.cpp:113-116 | stripping keeps the order: stripping a concatenation concatenates the stripped parts |
| MainLoop.StripNonAscii | main_loop.cpp:113-116 | the in-place erase-remove leaves exactly the ASCII characters in order |
| MainLoop.GetSavePath | main_loop.cpp:163-165 | the path is the user path, a slash, the stripped identifier and a four-character suffix |
| MainLoop.SavePathsAreDistinct | main_loop.cpp:163-165 | two save types give the same path exactly when they are the same type; the path does not change when the identifier is already stripped |
| MainLoop.GameDescIsEmptyExactlyWhenUnplayed | main_loop.cpp:199-204 | the description is empty exactly when the game was never played, otherwise it ends in " killed" |
| MainLoop.FindFile | main_loop.cpp:240-243 | the inner search finds a file of that name exactly when one is listed |
| MainLoop.GetDownloadOptions | main_loop.cpp:235-251 | one title, then one menu entry and one file marked for download per compatible game not already listed, in game order |
| MainLoop.DownloadsAreNewAndDistinct | main_loop.cpp:235-251 | every offered game is compatible and not already listed, and no two offered games share a file name |
| MainLoop.CompatibleGamesAreOffered | main_loop.cpp:235-251 | after the loop every compatible game's file is listed |
| MainLoop.ChooseSaveFile | main_loop.cpp:253-264 | no options give none; otherwise the choice is a listed file exactly when the user chose |
| Sharing.DataFun | file_sharing.cpp:37-41 | exactly size times nmemb characters are appended and that count is returned |
| Sharing.EscapeUrl | file_sharing.cpp:43-46 | no space remains, a string without spaces is unchanged, and each space adds two characters |
| Sharing.UnescapeInvertsEscape | file_sharing.cpp:43-46 | for a string without '%', decoding "%20" back to a space recovers it |
| Sharing.EscapeDistributes | file_sharing.cpp:43-46 | escaping works character by character |
| Sharing.ParseGames | file_sharing.cpp:167-184 | the loop emits the records of ParsedGames, or fails when they fail |
| Sharing.ParsedGamesDistributes | file_sharing.cpp:167-184 | records come out in line order, and the list parses exactly when both parts do |
| Sharing.ParseFailureSticks | file_sharing.cpp:180-181 | once a line fails to parse, no further lines make the list parse |
| Sharing.ParseFailsOnUnreadableNumber | file_sharing.cpp:174-181 | parsing fails exactly when some line of at least six fields has one of its four numbers unreadable |
| Sharing.RecordsComeFromLongLines | file_sharing.cpp:174-181 | each record comes from a line of at least six fields, there are no more records than lines, and short lines give none |
| Sharing.ParamsAreJoinedFields | file_sharing.cpp:134-139 | the loop's string is the "k=v" fields joined by "&", empty exactly for no data |
| Sharing.BuildParams | file_sharing.cpp:134-139 | the parameters are the fields joined by "&" with no leading "&", empty exactly for no data |
| Sharing.Attempts | file_sharing.cpp:140-148 | a negative try count makes no attempt; otherwise between 1 and tries + 1 attempts |
| Sharing.FailuresUseEveryTry | file_sharing.cpp:140-148 | when every attempt fails, exactly tries + 1 attempts are made |
| Sharing.RetryStopsAtFirstSuccess | file_sharing.cpp:140-148 | retrying stops right after the first delivery |
| Sharing.EventAttempts | file_sharing.cpp:126-151 | an event is never sent offline, and at most six times online |
| Sharing.CurlUpload | file_sharing.cpp:79-89 | an upload succeeds exactly when the transfer starts, has no error and the server replies nothing; a transfer that cannot start reports "Failed to initialize libcurl" |
| Sharing.FileSharing.constructor | file_sharing.cpp:10-12 | the client keeps its URL and starts with an empty upload queue |
| Sharing.FileSharing.Upload | file_sharing.cpp:93-105 | offline nothing is reported; online the result of uploading to the escaped page URL, upload2.php for a retired game and upload_site.php for a site |
| Sharing.FileSharing.UploadHighscores | file_sharing.cpp:107-112 | online a scores upload is queued, offline nothing |
| Sharing.FileSharing.UploadGameEventImpl | file_sharing.cpp:131-133 | an event is queued exactly while its try count is not negative |
| Sharing.FileSharing.UploadGameEvent | file_sharing.cpp:126-129 | online the event is queued with five retries, offline nothing |
| Sharing.FileSharing.RunEventJob | file_sharing.cpp:134-150 | the job sends the joined parameters and, after a failed attempt, re-queues the event with one try fewer |
| Sharing.FileSharing.DownloadHighscores | file_sharing.cpp:153-165 | the empty string offline or when no transfer starts; otherwise the body received from highscores2.php |
| Sharing.FileSharing.ListGames | file_sharing.cpp:186-206 | no list exactly when offline or the transfer to get_games2.php does not start or reports an error; a fatal parse error exactly when it succeeds and a number in the body cannot be read; otherwise the list is the parsed games of the body received from that page |
| Sharing.FileSharing.Download | file_sharing.cpp:271-302 | offline "Downloading not enabled!"; success exactly when online, the file opens and the transfer starts without error; the errors are reported in the code's order with its messages |

## Left out

- Scheduling.TimeQueue.RemoveCreature: the fatal failure on a creature that is not listed is modelled as a null result that changes nothing, not as an abort.
- World.Model.Step: the fatal check on an empty queue is modelled as the `NoMoreCreatures` result, not as an abort.
- World.Model.AddCreature: the `CHECK` at model.cpp:65 that aborts when the creature stands on no level is modelled as a failure result (`ok == false`) that leaves the queue unchanged.
- World.Model.Step: one `localTime` field of a creature stands for both `getTime`/`setTime` and the `getLocalTime` that orders the queue; `timeQueue.getCurrentTime()` is not part of this model, so their agreement is assumed.
- World.Model.Step and World.Model.Update: a move changes only the moving creature; the real `makeMove` may add or remove other creatures, which the statement that no other creature joins the queue does not cover.
- World.Model.ChangeLevel: a missing link is a crash in the code (a null level is created and then used); the model returns `None` and changes nothing.
- World.Model.Update: the model runs on a finite sequence of moves and reports `MovesExhausted` when it runs out, so it does not capture an unbounded run of the loop.
- The creature tick, the square ticks, the collective's `render`, `processInput`, `tick` and `update`, and the check that a live creature stands on its square are effects of code that is not part of this model; a tick is recorded as the time at which it fired.
- The timing of `getCurrentTime` and the initial `lastTick` are parameters, because their definitions are not part of this model.
- Level content generation, quests, `conquered`, `gameOver` and highscores are not modelled: they are content, presentation and file I/O.
- `makeMove`, `landCreature`, danger levels and territory scans are oracles or parameters: their code is not part of this model.
- Village.VillageControl.LaunchAttack: the transfer of the attackers to the enemy's model, `activate` and `freeTeamMembers` are not modelled. The ransom draw is a nondeterministic real in the range of `Random.getDouble`. A non-negative ransom factor is assumed in `Valid`.
- Village.VillageControl.ConsiderAttack: the rolls are booleans, and the team size and permutation are nondeterministic choices within the ranges of `Random.get` and `Random.permutation`; the probabilities of the draws are not modelled.
- `considerWelcomeMessage`, `getTriggers`, the leader message of `onPickupEvent`, the debug output and `getAttackTask`'s task construction are not modelled: they are messages and presentation, or build tasks outside this model.
- The counters of `VillageControl` start at zero and the Villain's minimum population and team size are natural numbers; village_control.h is not part of this model.
- The trigger functions use `real` arithmetic: IEEE rounding, infinities and NaN are not modelled, except that a zero minimum in `populationFun` and `goldFun` falls through to the last branch as the division by zero does.
- main_loop.cpp's directory scanning, Boost save and load, `getSaveVersion`, `getSaveOptions` (file I/O and sorting), `playGame`, `doWithSplash`, the menus and world generation are I/O and are not modelled.
- MainLoop.GetGameDesc: `getPlural` and `toString` are parameters; only the empty case and the " killed" suffix are stated.
- MainLoop.IsNonAscii: `char` is signed in the code; the model tests the character code, which gives the same answer.
- MainLoop.ChooseSaveFile: the user's menu choice is a parameter.
- Sharing: every curl call is an oracle. The progress callback and its atomic cancel flag, the upload queue worker (`uploadingLoop`) and its concurrency, and `parseSites`/`listSites` (Boost deserialisation) are not modelled.
- Sharing.DataFun: the `size_t` wrap-around of `size * nmemb` is not modelled.
- Sharing.ParseGames: lines arrive already split at commas, and the 100-character `getline` buffer is not modelled. `fromString<int>` is the `toInt` parameter; a `None` from it stands for the `ParsingException` it throws, which `parseGames` does not catch.
- Sharing.Record: the order of the `GameInfo` fields is assumed; file_sharing.h is not part of this model.
- Sharing.BuildParams: a `GameEvent` is a sequence of key/value pairs in the map's iteration order.
- Sharing.FileSharing.ListGames: `return {}` on an optional gives an empty optional, which the model writes as `Ok(None)`. The uncaught `ParsingException` is modelled as the fatal result `Fatal("ParsingException")`.
- Sharing.CurlUpload: a nonempty server reply counts as an upload error, as in the code.
- Sharing.FileSharing.Download: the removal of a partly written file after a failed transfer is file I/O and is not modelled.
