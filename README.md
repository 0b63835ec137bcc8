# Flying Spear — a Dafny model of the game logic

Flying Spear is a small pygame prototype. The player charges a spear by
holding the mouse button and throws it at targets. The longer the charge,
the faster and longer the spear. A thrown spear first decelerates from its
impulse, then flies at a steady speed along its heading. The repository
holds the main game (`app/Game.py` with `Spear.py`, `app/Enemie.py`,
`app/Character.py`) and several standalone prototypes:

- `test_3.py`: a training range with one spear and ten dummies.
- `test_2.py`: a spear thrown under gravity, with a charge zoom.
- `test_1.py`: a fixed-size particle pool.
- `test_4.py`: a spear built from components.

The root `Enemie.py` and `Character.py` are the one-shot target and the
avatar of the earlier root version.

This project models each of those as Dafny, one module per source file:

| Dafny file / module | models |
|---|---|
| `settings.dfy` `AppSettings`, `RootSettings` | the constants of `app/settings.py` and `settings.py` |
| `geometry.dfy` `Geometry` | shared vocabulary: headings (cosine/sine pairs), distance tests without square roots, Python's `int()`, counting flags |
| `character.dfy` `Avatar`, `RootAvatar` | `app/Character.py`, `Character.py` |
| `spear.dfy` `SpearLifecycle` | `Spear.py`: charging, throwing, the deceleration to steady flight |
| `enemy.dfy` `HitPointEnemy` | `app/Enemie.py`: hit points, collision and damage |
| `game.dfy` `Encounter` | `app/Game.py`: events, waves of enemies, the per-frame spear loop with removal while iterating |
| `oneshot.dfy` `OneShotEnemy` | `Enemie.py` |
| `training.dfy` `TrainingRange` | `test_3.py` |
| `gravity.dfy` `GravityPrototype` | `test_2.py` |
| `particles.dfy` `ParticlePool` | `test_1.py`'s `ParticleSystem` |
| `components.dfy` `ComponentSpear` | `test_4.py` |

Objects whose fields the game updates in place are classes, for example
spears, enemies, the character, the game and the particle arrays. Pure
computations are functions, for example the charged speed, the velocity
after n frames and the damage a component list deals. What the code reads
from the outside world is passed in as a parameter:

- the clock (`now`);
- the cursor, as the heading toward it;
- random draws, constrained to their ranges;
- key and mouse events.

`Spear.py` reads `SPEAR_IMPULSE`, a constant that only `app/settings.py`
defines, so the spear of the main game uses `app/settings.py`: maximum
speed 60, impulse 4.5, charge time 1.5 s, spear height 50. The root
`Enemie.py` and `test_3.py` use the root `settings.py`: maximum speed 50,
dummy radius 20. `test_2.py` and `test_4.py` define their own constants.

In `test_3.py`, `handle_events` returns the single value `False` on a quit
event, but the caller unpacks two values. The script therefore ends with an
error at the first quit event. `TrainingRange.Range.HandleEvents` reports
this as its `crashed` result.

In `app/Game.py`, the spear loop can remove a spear twice in one frame. It
is removed once for a hit (line 158). It is removed again if it is thrown
and off screen after that frame's flight step (line 163). The second
`list.remove` raises, and the frame ends there. `Encounter.Game.StepSpear`
returns `crashed` exactly in that case. `Encounter.Game.SpearLoop` and
`Encounter.Game.Update` return `crashed` exactly when some spear of the
list was destroyed by a hit in this frame and was also thrown, off screen
and removed. The loop visits no spear after that.

The spear loop runs over `self.spears` while removing from it, so after a
removal Python's list iterator skips the next spear. The model keeps the
walk over the list as a ghost record and proves which spears are visited
(`Encounter.VisitOrder`). Each visited spear takes one `Tick` of
aim, charge and flight. Its `destroyed` flag is set exactly when it
`Strikes` a live enemy. Every spear that is not visited keeps all its
fields.

The enemies are followed through the loop as a trace of their states, one
entry per spear of the list the loop began with (`Encounter.Game.Fought`). A
visited spear, in its state after its Tick, checks the enemies in list
order as the earlier spears left them. The first live enemy in its reach
(`Encounter.FirstStrike`) takes the spear's charge value as damage, with
hp clamped at 0 (`Encounter.Resolve`). No other enemy changes, and a spear
that was not visited changes none. The character's `enemies_killed` rises
inside the loop, by one for each kill, as in the source.

The events of a tick are followed the same way. `Encounter.Plan` gives the
spear states after a batch of events: a press appends a new charging spear
next to the character, and a release launches the spear that is last in
the list at that moment. `Encounter.Planned` gives the same state spear by
spear.

## Model

| member | source | states |
|---|---|---|
| Avatar.Character.constructor | app/Character.py:8-49 | stores the position, zero kills, the circle centre at the position and the character radius |
| Avatar.Character.Move | app/Character.py:54-56 | the position moves by exactly (dx, dy); kills and circle untouched |
| RootAvatar.Character.constructor | Character.py:6-8 | stores the given position |
| RootAvatar.Character.Move | Character.py:10-12 | the position moves by exactly (dx, dy) |
| RootAvatar.MoveTwice | Character.py:10-12 | two moves add up to one move by the summed deltas |
| SpearLifecycle.ChargedSpeed | Spear.py:110 | the charged speed lies in [1, 60], is 60 from the full charge time on and 1 for very short charges |
| SpearLifecycle.ChargedLength | Spear.py:111 | the length never falls below the spear height and is at least four heights at full charge |
| SpearLifecycle.ChargeValue | Spear.py:112 | the charge value is the truncated percentage of the charge time, capped at 100 and reaching 100 at full charge |
| SpearLifecycle.ChargeMonotone | Spear.py:107-112 | speed, length and charge value never decrease with longer charging |
| SpearLifecycle.ThrowVelocity | Spear.py:123-127 | the throw velocity points along the aim (no component across it) with speed times the impulse along it |
| SpearLifecycle.ThrowMagnitude | Spear.py:123-127 | the throw velocity has magnitude speed times the impulse |
| SpearLifecycle.NextVelocity | Spear.py:129-137 | for a non-negative speed, a step of the velocity rule strictly lowers the larger component while decaying, and a velocity that no longer decays stays that way |
| SpearLifecycle.DecayShrinks | Spear.py:131-134 | scaling by 0.9 lowers the larger component of a velocity still faster than a non-negative speed |
| SpearLifecycle.SteadySettled | Spear.py:135-137 | no component of the steady velocity exceeds a non-negative speed |
| SpearLifecycle.SteadyIsFixedPoint | Spear.py:129-137 | the steady velocity has magnitude equal to the speed and an update leaves it unchanged |
| SpearLifecycle.SteadyPersists | Spear.py:129-137 | once steady, any number of updates keep the steady velocity |
| SpearLifecycle.PowBound | Spear.py:131-134 | after n decelerations the factor 0.9^n is at most 1/(1 + n/9) |
| SpearLifecycle.ReachesSteady | Spear.py:129-137 | when 0.9^n times the largest component is within the speed, n + 1 updates reach the steady velocity |
| SpearLifecycle.DecayEnds | Spear.py:129-137 | from any velocity and a positive speed, the deceleration ends: a computable number of updates reaches the steady velocity |
| SpearLifecycle.Launch | Spear.py:123-127 | a throw sets `thrown` and the throw velocity of the spear's heading and speed, and changes no other field |
| SpearLifecycle.Charged | Spear.py:107-117 | charging never moves, turns or destroys the spear nor changes its clock; without a running clock nothing changes; with one, speed and charge value follow the elapsed time and the spear is thrown afterwards exactly when it was already or the charge time has elapsed |
| SpearLifecycle.Flown | Spear.py:129-143 | a spear that is not both thrown and intact does not change; otherwise only position and velocity change, and the spear moves by its new velocity |
| SpearLifecycle.Tick | Spear.py:107-143 | one tick of a spear: without a running clock an unthrown spear only turns; with one, speed, length and charge value follow the elapsed time and it is thrown exactly at full charge; an unthrown spear stays put; a spear thrown this tick takes its first flight step from the throw velocity; an intact flying spear takes one step of the velocity rule and keeps its aim, speed, length and charge value; `destroyed` and the clock never change |
| SpearLifecycle.FlightFollowsRule | Spear.py:129-143 | n ticks of flight give the velocity of n steps of the velocity rule and change only position and velocity |
| SpearLifecycle.SpearSettles | Spear.py:129-143 | a thrown, intact spear with positive speed reaches the steady velocity of its heading after a computable number of ticks |
| SpearLifecycle.Spear.constructor | Spear.py:11-24 | a new spear sits 30 right of and 30 above the character, with speed 10, no velocity, not thrown, not destroyed and no charge start |
| SpearLifecycle.Spear.StartCharging | Spear.py:104-105 | the charge start becomes the current time |
| SpearLifecycle.Spear.Aim | Spear.py:119-121 | the heading becomes the heading toward the cursor; no other field changes |
| SpearLifecycle.Spear.Charge | Spear.py:107-117 | without a running clock nothing changes; otherwise speed, length and charge value follow the charge functions and the spear is thrown with the throw velocity once the charge time has elapsed, and otherwise keeps its thrown state and velocity; the whole new state is `Charged` of the old one |
| SpearLifecycle.Spear.Throw | Spear.py:123-127 | the spear is thrown with the throw velocity of its heading and speed; no other field changes |
| SpearLifecycle.Spear.Update | Spear.py:129-143 | a flying spear takes the next velocity and moves by it; a spear that is not flying does not change; the whole new state is `Flown` of the old one |
| SpearLifecycle.Spear.Destroy | Spear.py:152-154 | the spear is destroyed |
| SpearLifecycle.FullChargeFlight | Spear.py:107-137 | a full charge gives speed 60 and value 100, a throw of magnitude 270, and steady flight after a bounded number of updates |
| HitPointEnemy.HpAfterHit | app/Enemie.py:27-31 | hp after a hit is never negative, is 0 exactly when the damage reaches the hp, and otherwise is hp minus the damage |
| HitPointEnemy.DamageScenarios | app/Enemie.py:27-31 | an overkill clamps to 0 and a partial hit subtracts the damage |
| HitPointEnemy.Struck | app/Enemie.py:27-32 | a hit never leaves negative hp nor raises it for a non-negative damage; the enemy is killed afterwards exactly when it was already or its hp reached 0, and it turns grey exactly at 0 hp |
| HitPointEnemy.Reaches | app/Enemie.py:23-25 | a spear in reach is within radius plus half its length of the enemy's centre on each axis |
| HitPointEnemy.Enemie.constructor | app/Enemie.py:6-13 | stores position and hp, the dummy radius, alive and in the dummy colour |
| HitPointEnemy.Enemie.CheckCollision | app/Enemie.py:21-34 | a hit is reported exactly when a live enemy meets a thrown, intact spear within radius plus half the spear length; it then takes the charge value as damage, destroys the spear, and dies at 0 hp; otherwise nothing changes |
| Encounter.AxisDelta | app/Game.py:137-145 | the later key of a pair wins: d over a, s over w; no key gives 0 |
| Encounter.RemoveFirst | app/Game.py:158 | `list.remove` fails exactly when the item is absent, and otherwise drops one occurrence |
| Encounter.RemoveFirstAt | app/Game.py:158 | removing the item found first at index i cuts out exactly index i |
| Encounter.WalkStep | app/Game.py:151-163 | one step of a for-loop over a list keeps the record of which items were visited, whether or not the item was removed |
| Encounter.WalkCut | app/Game.py:151-163 | removing the current item makes the loop skip the item after it |
| Encounter.WalkDone | app/Game.py:151-163 | once the loop has run off the list, an item was visited exactly when it is the first or the item before it was not both visited and removed |
| Encounter.CreateEnemies | app/Game.py:109-110 | a wave is ten fresh, distinct, living enemies at the drawn positions with the drawn hp |
| Encounter.Recruits | app/Game.py:109-110 | the states of a fresh wave: one per draw, none killed, each with its drawn hp |
| Encounter.Game.constructor | app/Game.py:50-70 | the game runs with a fresh wave, no spears and the character at its start position with no kills |
| Encounter.Drawn | app/Game.py:125-129 | a pressed spear starts unthrown and intact, with charge value 0, its clock started at the press |
| Encounter.Handled | app/Game.py:121-132 | one event adds a spear exactly when it is a press; every spear keeps its state except the last one on a release, which is then thrown |
| Encounter.Plan | app/Game.py:121-132 | after a batch the list holds one more spear per press |
| Encounter.PlanPlaces | app/Game.py:121-132 | events move no spear: an old spear keeps its position and aim, and each spear a press adds starts intact, 30 right of and 30 above the character |
| Encounter.Planned | app/Game.py:121-132 | spear k is thrown after a batch exactly when a release threw it or it was an old spear already thrown; a spear a press added is intact and charges from the time of its press |
| Encounter.Game.HandleEvent | app/Game.py:121-132 | quit stops the game and changes no spear; a press appends one fresh spear in its `Drawn` state (30 right of and 30 above the character, aimed at the cursor, speed 10, no velocity, length 50, charge value 0, not thrown, not destroyed, clock started at the press) and leaves the other spears unchanged; a release throws the last spear, if there is one, and changes nothing else of it or of any other spear; the spear states after the event are `Handled` of those before |
| Encounter.Game.Press | app/Game.py:125-129 | a press appends exactly one fresh spear, in its `Drawn` state next to the character, aimed at the cursor and charging from the press; the spears before it stay in place and unchanged |
| Encounter.Game.Release | app/Game.py:130-132 | a release with no spear changes nothing; otherwise the last spear is thrown with the throw velocity of its heading and speed, its state becomes `Launch` of the old one, and no other spear changes |
| Encounter.QuitIn | app/Game.py:123-124 | a batch contains a quit event exactly when some event of it is a quit |
| Encounter.Presses | app/Game.py:125-129 | the presses of a batch, in order: one per mouse-down, each an event of the batch |
| Encounter.Thrown | app/Game.py:130-132 | the list indices a batch throws all exist in the list after the batch: each release throws the spear that is then last |
| Encounter.PlannedStep | app/Game.py:121-132 | one more event: a press adds its `Drawn` spear at the end, a release launches the spear then last, and every other spear keeps its `Planned` state |
| Encounter.PlanIsPlanned | app/Game.py:121-132 | the spear states after a batch, handled event by event, are the `Planned` state of each spear: an old spear, or the spear its press drew, launched exactly when a release threw it |
| Encounter.NoReleaseNoThrow | app/Game.py:130-132 | a batch without a release throws no spear |
| Encounter.PressThenRelease | app/Game.py:125-132 | a press followed at once by a release throws the spear that press added, which leaves with the throw impulse of its `Drawn` state |
| Encounter.Game.HandleNext | app/Game.py:121-132 | one turn of the event loop carries the spear states from the `Plan` of the events before it to the `Plan` including the event, and stops the game exactly on a quit |
| Encounter.Game.Events | app/Game.py:121-132 | one spear is appended per press and the existing spears stay in place; the new spears are fresh; the spear states after the batch are `Plan` of the events applied to those before it, so each spear ends `Planned`; the game stops exactly when a quit event arrives |
| Encounter.Game.AdvanceSpear | app/Game.py:152-155 | the spear's new state is `SpearLifecycle.Tick` of its old state, aimed at the cursor from its old position: an unthrown spear aims and charges and is thrown once the charge time has elapsed; a thrown spear keeps its speed; `destroyed` is untouched |
| Encounter.FirstFrom | app/Game.py:156-161 | the first live enemy in reach at index j or later, or none: no live enemy in reach lies before it |
| Encounter.FirstStrike | app/Game.py:156-161 | a spear hits only when thrown and intact, and then the first live enemy in its reach, with none before it; without a hit, no live enemy is in reach of a thrown, intact spear |
| Encounter.Resolve | app/Game.py:156-161 | only the enemy `FirstStrike` picks changes: its hp drops by the charge value, clamped at 0, and it is killed exactly when its hp reaches 0 |
| Encounter.Strikes | app/Game.py:156-161 | a spear strikes exactly when it is thrown and intact and some live enemy is in its reach |
| Encounter.ResolveOnlyStruck | app/Enemie.py:21-34 | resolving a strike changes only the enemy `FirstStrike` picks, and never a killed enemy |
| Encounter.Game.ResolveHit | app/Game.py:156-161 | the result is `FirstStrike` of the spear on the enemies as they were; only that enemy changes: it was alive and in reach, takes the charge value as damage with hp clamped at 0, and dies at 0; the spear is destroyed; the character's kill count rises by one exactly when that enemy dies; without a hit nothing changes |
| Encounter.Game.ScoreHit | app/Game.py:156-161 | a hit happens exactly when the spear `Strikes` a live enemy in the state before the call; a hit destroys the spear and changes no other field of it, a miss changes nothing; the enemies' new states are `Resolve` of the old ones; the kill count and the character's counter rise by the same amount, at most one, and only on a hit |
| Encounter.Game.CullSpear | app/Game.py:158-163 | the spear at index i leaves the list exactly when it was hit or is thrown and out of bounds, and then only that index is cut; the second removal fails exactly when it was hit and is also thrown and out of bounds |
| Encounter.Game.StepSpear | app/Game.py:151-163 | one loop body: the spear takes its Tick; `hit` holds exactly when the ticked spear `Strikes` a live enemy, and then the spear is destroyed; the enemies' new states are `Resolve` of the old ones against the ticked spear; the spear leaves the list exactly when hit or thrown and out of bounds; `crashed` exactly when both; kills are counted |
| Encounter.Game.MoveCharacter | app/Game.py:136-146 | the character moves by the axis deltas scaled by speed and frame time |
| Encounter.Game.BeginTick | app/Game.py:134-149 | the character moves by the axis deltas; a fully killed wave is replaced by a fresh one and the kill count of the enemies restarts at 0; otherwise the enemies stay |
| Encounter.Game.RespawnIfCleared | app/Game.py:148-149 | a fully killed wave is replaced by a fresh one; otherwise the enemies stay |
| Encounter.Game.Visit | app/Game.py:151-163 | one visit of the spear loop: the visited spear is the next one of the original list not yet visited; its new state is its Tick with `destroyed` set exactly on a hit; the enemies' new states are `Resolve` of the old ones against the ticked spear; it stays in the list exactly when it neither hit nor is thrown and out of bounds; the visit fails exactly when both; no other spear of the original list changes and no other spear leaves the list |
| Encounter.SweptStep | app/Game.py:151-163 | one visit keeps the per-spear record `Swept`: the visited spear took its Tick, every other spear keeps its recorded state |
| Encounter.Game.TrackedVisit | app/Game.py:151-163 | a visit keeps the loop state `Progress`, counts its kills, and on failure names the spear that was destroyed by its hit and then found thrown and out of bounds; the enemies' new states are `Resolve` of the old ones against the visited spear's Tick, and the spear is destroyed exactly when it already was or `FirstStrike` finds an enemy |
| Encounter.TraceStep | app/Game.py:151-163 | one visit extends the trace of enemy states: the visited spear resolves its strike against the states the earlier spears left, and the states from there on are the result |
| Encounter.TraceKeepsDead | app/Enemie.py:21-34 | a killed enemy keeps its state for the rest of the loop |
| Encounter.NoLateStrike | app/Game.py:151-163 | a visited spear that stayed intact strikes nothing among the enemies as the loop leaves them |
| Encounter.OnlyStruckChange | app/Game.py:156-161 | an enemy whose state changed during the loop was the first live enemy in reach of some visited spear, which was destroyed by that hit |
| Encounter.Game.FoughtVisit | app/Game.py:151-163 | a visit keeps `Progress` and extends the trace `Fought`, so the enemies' states after it are those the visited spear's strike leaves |
| Encounter.Game.PassedAtEnd | app/Game.py:151-163 | when the loop stops, at the end of the list or at a crash, its record gives `Passed` |
| Encounter.Game.SpearLoop | app/Game.py:151-163 | `Passed` over the list the loop began with: every removed spear was hit or lost; a spear after a removed one is skipped and, without a crash, exactly those are skipped; unvisited spears stay in the list with all their fields; visited spears took their Tick, and those still in the list were not hit and are not thrown and out of bounds; the loop crashed exactly when some spear was destroyed by a hit this frame and was also thrown and off screen; `Fought`: a trace of the enemies' states from the start, in which each visited spear, in its ticked state, strikes the first live enemy in its reach as the earlier spears left the enemies, is destroyed exactly then, and an unvisited spear changes nothing; the enemy kill count and `enemies_killed` both rise by the returned kills |
| Encounter.Game.Update | app/Game.py:134-163 | one frame: movement, respawn, then the spear loop with everything `Passed` states about the spears and `Fought` about the enemies, whose trace starts from the new wave after a respawn and from the old enemies otherwise; the character's kill count rises by the enemies killed this frame and never drops; a double removal is reported as a crash exactly when it happens |
| OneShotEnemy.Enemie.constructor | Enemie.py:6-11 | stores the position, the dummy radius, not hit, in the dummy colour |
| OneShotEnemy.Enemie.CheckCollision | Enemie.py:16-25 | a hit is reported exactly when an unhit target meets a thrown, intact spear within radius plus half the spear length; it marks the target, recolours it and destroys the spear |
| OneShotEnemy.SecondCallMisses | Enemie.py:16-25 | a target that was hit never reports a second hit |
| TrainingRange.ChargedSpeed | test_3.py:175 | the speed is proportional to the charge time up to 50, capped at 50, positive for a positive charge time |
| TrainingRange.ChargedSpeedMonotone | test_3.py:172-179 | the speed never decreases with longer charging |
| TrainingRange.ThrowVelocity | test_3.py:184-188 | the throw velocity has magnitude four times the speed |
| TrainingRange.Launch | test_3.py:184-188 | a throw sets `thrown` and four times the speed along the heading, and changes no other field |
| TrainingRange.Charged | test_3.py:172-179 | charging never moves, turns or destroys the spear nor changes its clock; without a running clock nothing changes; with one, speed and charge value follow the elapsed time and the spear is thrown afterwards exactly when it was already or the charge time has elapsed |
| TrainingRange.FullCharge | test_3.py:172-179 | a full charge gives speed 50 and charge value 100 |
| TrainingRange.FullChargeFlight | test_3.py:184-203 | a full-charge throw decelerates to steady flight at speed 50 |
| TrainingRange.StandingThrow | test_3.py:184-203 | a spear released before charging has speed 0 and never moves |
| TrainingRange.Tick | test_3.py:172-203 | one frame of the training spear: the same cases as `SpearLifecycle.Tick`, with the range's uncapped-below speed and a throw at four times the speed |
| TrainingRange.Spear.constructor | test_3.py:107-119 | a new spear sits 30 right of and 30 above the character with angle 0, speed 0 and no charge |
| TrainingRange.Spear.StartCharging | test_3.py:169-170 | the charge start becomes the current time |
| TrainingRange.Spear.Aim | test_3.py:181-182 | the heading becomes the heading toward the cursor; no other field changes |
| TrainingRange.Spear.Charge | test_3.py:172-179 | without a running clock nothing changes; otherwise speed, length and charge value follow the charge, and the spear is thrown with the throw velocity once the charge time has elapsed, and otherwise keeps its thrown state and velocity; the whole new state is `TrainingRange.Charged` of the old one |
| TrainingRange.Spear.Throw | test_3.py:184-188 | the spear is thrown with four times its speed along its heading; no other field changes |
| TrainingRange.Spear.Update | test_3.py:190-203 | a flying spear takes the next velocity and moves by it; otherwise nothing changes; the whole new state is `SpearLifecycle.Flown` of the old one |
| TrainingRange.Spear.Destroy | test_3.py:216-218 | the spear is destroyed |
| TrainingRange.Dummy.constructor | test_3.py:84-89 | stores the position, the dummy radius, not hit, in the dummy colour |
| TrainingRange.Reaches | test_3.py:94-104 | a spear in reach is within its speed plus the dummy radius of the dummy's centre on each axis |
| TrainingRange.Dummy.CheckCollision | test_3.py:94-104 | a hit is reported exactly when an unhit dummy meets a thrown, intact spear within the spear's speed plus the radius; it marks and recolours the dummy and destroys the spear |
| TrainingRange.CreateDummies | test_3.py:259 | ten fresh, distinct, unhit dummies at the drawn spots |
| TrainingRange.Press | test_3.py:231-239 | a left press creates a charging spear only when none is held; a held spear keeps its start; a thrown spear ignores further events |
| TrainingRange.Replay | test_3.py:231-239 | replaying events keeps a held spear's start and leaves a thrown spear alone |
| TrainingRange.ReplayNeedsPress | test_3.py:234-236 | a spear appears only if some event is a left press |
| TrainingRange.ClickThrowsUncharged | test_3.py:234-239 | a press then a release throws a spear that was never charged |
| TrainingRange.NetAxis | test_3.py:243-250 | opposite keys cancel; a single key moves one step its way |
| TrainingRange.Range.constructor | test_3.py:258-260 | the character at the screen centre, ten unhit dummies, no spear |
| TrainingRange.Range.Dispatch | test_3.py:231-239 | one non-quit event updates the spear as the grip function says, creating a fresh charging spear on a left press with none held and throwing it on release |
| TrainingRange.Range.HandleEvents | test_3.py:228-252 | the call fails exactly when a quit event is present; otherwise the spear follows the replay of the events and the character moves by the net key deltas |
| TrainingRange.Range.RespawnIfCleared | test_3.py:271-273 | a fully hit set of dummies is replaced by ten unhit ones; otherwise the dummies stay |
| TrainingRange.Range.Sweep | test_3.py:274-280 | on a hit, the dummy hit was unhit and in reach of the thrown, intact spear, and every dummy before it was hit already or out of reach; it turns hit and blue and the spear is destroyed and dropped; without a hit, the spear is kept unchanged and, if it was thrown and intact, no unhit dummy is in its reach; all other dummies are unchanged |
| TrainingRange.Range.StrikePass | test_3.py:274-280 | the first unhit dummy in reach of the thrown, intact spear is hit and the spear destroyed and dropped; every dummy before it was hit already or out of reach; without a hit the spear is unchanged and no unhit dummy is in reach; all others are unchanged; the hit count rises by exactly one on a hit |
| TrainingRange.Range.Strike | test_3.py:271-280 | respawn then the dummy loop: the first dummy that is unhit after the respawn and in reach of the thrown spear is hit; the spear is then destroyed and dropped, otherwise kept unchanged; every other dummy keeps its post-respawn state; the hit count restarts at 0 on a respawn and rises by one per hit |
| TrainingRange.Range.Fly | test_3.py:285-298 | the spear's new state is `TrainingRange.Tick` of its old state: an unthrown spear aims and, with a running clock, charges and is thrown exactly at full charge; a flying spear takes one step of the velocity rule; a thrown spear outside the screen is dropped exactly then |
| TrainingRange.Range.Frame | test_3.py:271-298 | one frame: respawn, strike, fly; which dummy is hit is as in `Strike`, against the dummies after the respawn; the hit count is reset by a respawn and rises by one per hit; without a hit, the spear's new state is its `Tick`; a kept spear is the same spear and never lost |
| GravityPrototype.ChargedSpeed | test_2.py:61 | the speed is proportional to the charge time up to 25 and capped at 25 |
| GravityPrototype.ZoomLevel | test_2.py:117-118 | the zoom grows from 1 to 1.1 over the charge time and stays at 1.1 |
| GravityPrototype.ZoomMonotone | test_2.py:117-118 | the zoom never decreases with longer charging |
| GravityPrototype.Fall | test_2.py:74-79 | one gravity step moves by the velocity before the pull, keeps the horizontal velocity and adds the gravity constant to the vertical one |
| GravityPrototype.FallClosedForm | test_2.py:74-79 | after n updates the velocity has gained n/2 downward and the position is the closed-form parabola |
| GravityPrototype.FallsOff | test_2.py:74-79 | every thrown spear eventually falls below the screen, so it is always discarded |
| GravityPrototype.Tick | test_2.py:57-79 | one frame of the gravity spear: without a running clock an unthrown spear only turns; with one, speed and length follow the elapsed time and it is thrown exactly at full charge, at its charged speed along the aim, falling its first tick at once; a thrown spear keeps aim, speed and length and falls one tick; an unthrown spear stays put |
| GravityPrototype.Launch | test_2.py:69-72 | a throw sets `thrown` and a velocity of magnitude equal to the speed, and changes neither position nor any other field |
| GravityPrototype.Charged | test_2.py:57-64 | charging never moves or turns the spear nor changes its clock; without a running clock nothing changes; with one, the speed follows the elapsed time and the spear is thrown afterwards exactly when it was already or the charge time has elapsed |
| GravityPrototype.Flown | test_2.py:74-79 | an unthrown spear does not change; a thrown one changes only its body, keeping the horizontal velocity and gaining the gravity constant downward |
| GravityPrototype.Spear.constructor | test_2.py:43-52 | stores the position, angle 0, speed 0, no velocity, not thrown, no charge start |
| GravityPrototype.Spear.StartCharging | test_2.py:54-55 | the charge start becomes the current time |
| GravityPrototype.Spear.Aim | test_2.py:66-67 | the heading becomes the heading toward the cursor; no other field changes |
| GravityPrototype.Spear.Charge | test_2.py:57-64 | without a running clock nothing changes; otherwise speed and length follow the charge and the spear is thrown with the throw velocity once the charge time has elapsed, and otherwise keeps its thrown state and velocity; the whole new state is `GravityPrototype.Charged` of the old one |
| GravityPrototype.Spear.Throw | test_2.py:69-72 | the spear is thrown with velocity of magnitude equal to its speed along its heading; no other field changes |
| GravityPrototype.Spear.Update | test_2.py:74-79 | a thrown spear takes one gravity step; an unthrown one does not change |
| GravityPrototype.FirstPress | test_2.py:102-108 | finds the first mouse press, or reports that there is none |
| GravityPrototype.Pressed | test_2.py:106-108 | the spear of a first press starts unthrown, at rest, with speed 0 and its clock started at the press, on the screen |
| GravityPrototype.Prototype.constructor | test_2.py:95-99 | running, no spear, zoom 1 |
| GravityPrototype.Held | test_2.py:102-108 | a spear already held stays; without one, a spear is held after the events exactly when some event is a press |
| GravityPrototype.Prototype.Events | test_2.py:102-108 | the loop stops exactly when a quit arrives; the first press creates a charging spear at (130, 470) when none exists; the spear held afterwards is `Held` of the one before |
| GravityPrototype.Prototype.Advance | test_2.py:113-123 | the spear's new state is `GravityPrototype.Tick` of its old state: an unthrown spear aims and, with a running clock, charges and is thrown exactly at full charge; a thrown spear falls one tick; the zoom follows the charge; the spear is discarded, resetting the zoom, exactly when thrown and below or right of the screen |
| GravityPrototype.Dropped | test_2.py:121-123 | only a thrown spear is discarded, and every thrown spear below the screen is |
| GravityPrototype.Prototype.Frame | test_2.py:100-123 | one frame of events and spear handling: with no spear held after the events nothing happens; otherwise the spear is discarded exactly when its `Tick` is `Dropped`, and a kept spear's whole state is that `Tick`; the zoom matches the charge while charging, is 1 after a discard and unchanged when no spear is held |
| ParticlePool.Jitter | test_1.py:60 | the jittered velocity differs from the given one by less than 0.01 per component |
| ParticlePool.Step | test_1.py:67-68 | a particle moves by its velocity times the frame time, and stays put with no velocity or no time |
| ParticlePool.FirstDead | test_1.py:56-57 | finds the lowest dead slot, or reports that all are alive |
| ParticlePool.FirstDeadAt | test_1.py:56-65 | a dead slot with only live slots before it is the one emission chooses |
| ParticlePool.ParticleSystem.constructor | test_1.py:47-53 | zero positions and velocities, white colours, every slot dead with lifetime 0 |
| ParticlePool.ParticleSystem.Emit | test_1.py:55-65 | only the lowest dead slot changes, to the given position, jittered velocity, ember colour and drawn lifetime; a full pool does not change; the live count grows by at most one and stays within the capacity |
| ParticlePool.ParticleSystem.Update | test_1.py:67-71 | live slots move, age and fade with alpha equal to lifetime; dead slots keep their data; a slot stays alive exactly when it was alive and its lifetime is positive; the live count never grows |
| ComponentSpear.Spawn | test_4.py:61-65 | a multiplier m adds m - 1 spears, none below 2; an elemental component adds none |
| ComponentSpear.Dealt | test_4.py:72-73 | an elemental component deals its damage; a multiplier deals none |
| ComponentSpear.Spawned | test_4.py:38-40 | a list of multipliers of at least 2 spawns at least one spear per component |
| ComponentSpear.Damage | test_4.py:38-40 | components that deal no negative damage deal no negative damage together |
| ComponentSpear.EffectsAdd | test_4.py:38-40 | the spawns and damage of a concatenated component list are the sums of its parts |
| ComponentSpear.EffectsOfKind | test_4.py:38-40 | only multipliers spawn and only elemental components damage |
| ComponentSpear.LoadoutEffects | test_4.py:85-87 | the player's loadout spawns two copies and deals one damage per hit |
| ComponentSpear.Enemy.constructor | test_4.py:43-46 | stores the position and starts at hp 3 |
| ComponentSpear.Enemy.TakeDamage | test_4.py:52-53 | hp drops by exactly the damage, without a floor |
| ComponentSpear.Spear.constructor | test_4.py:23-26 | stores the position with no components |
| ComponentSpear.Spear.AddComponent | test_4.py:28-29 | appends exactly one component at the end |
| ComponentSpear.Spear.Update | test_4.py:31-33 | fails exactly when the spear has a component, since no component kind has an update |
| ComponentSpear.Spear.OnHit | test_4.py:38-40 | the target loses the summed damage; the arena keeps its spears and gains, at the end, the spawned number of fresh, distinct copies with the same position and components |
| ComponentSpear.Multiply | test_4.py:61-65 | appends m - 1 fresh, distinct copies of the hitting spear, none when m is below 2 |
| ComponentSpear.Arena.constructor | test_4.py:82-87 | no flying spears; the player's spear at (400, 550) with the loadout |
| ComponentSpear.Arena.Steer | test_4.py:99-107 | each held arrow key moves the player's spear five pixels; opposite keys cancel |
| ComponentSpear.Arena.Fire | test_4.py:109-112 | appends a fresh component-less spear at the player's position; the updates fail exactly when a flying spear has a component, so a plain arena stays plain and never fails |
| ComponentSpear.PlainHit | test_4.py:38-40 | a hit by a component-less spear changes neither the target nor the spear list |

## Left out

- Rendering is not modelled. This covers moderngl shaders, buffers and textures, pygame drawing and fonts, `calculate_position`, `update_buffer`, `draw`, `draw_ui`, `draw_charge_indicator`, `apply_zoom` and `surf_to_texture`. It has no game logic.
- `main.py` and `app/utils.py` are not part of this model. They only set up rendering.
- Event polling, key state, `clock.tick` and `clock.get_time` are inputs: events are sequences, keys are flag records, and the frame time is a real parameter `dt`, which the source computes as `clock.get_time() / 10`.
- `time.time()` is the parameter `now`. `destroy_time` and its one-second display window are left out, because only drawing reads them.
- In `test_2.py`, the main loop reads the clock once inside `charge` and once more for the zoom. Both readings are the same `now` here.
- The random draws are inputs constrained to their ranges: enemy and dummy positions, enemy hp, particle jitter and particle lifetimes.
- `math.atan2`, `math.cos` and `math.sin` are replaced by a unit heading toward the cursor. Degree and radian conversion is not modelled.
- Floating-point rounding and numpy's float32 are not modelled. The model computes in exact reals.
- Distance checks compare squared distances instead of calling `math.sqrt`. For a non-negative reach the two are equivalent.
- `test_3.py` sets `zoom_level` on a throw but never reads it, so the model does not keep it.
- `test_4.py`'s enemy–spear collision loop is not modelled. It uses `pygame.Rect.colliderect` and removes items from the lists it is iterating. The same for-loop-with-removal pattern is modelled in `Encounter.Game.SpearLoop`.
- `test_1.py`'s player animation and the script loops around the pool are not modelled.
- `app/Game.py`'s `run` loop and its `sys.exit` are not modelled. One frame is `Encounter.Game.Events` followed by `Encounter.Game.Update`.
