# VinuDrop in Dafny

VinuDrop is a browser merge game on VinuChain. Orbs fall into a box. Two orbs of the same level that touch fuse into one orb of the next level, and the player scores for the merge. An orb resting on the danger line for two seconds ends the game. A revive removes the upper half of the orbs. A laser strike removes one orb. The board is saved every second and restored on reload.

Around the game sit:
- a score submission endpoint and a leaderboard endpoint;
- two countdowns to the next leaderboard reset;
- the deployment configuration, which reads the deployer key out of `.env.local`;
- a script that writes the economy contract's address into `.env.local`.

This project models those parts, one Dafny module per source file:

| module | models |
|---|---|
| `Levels` | the constants and the orb level table |
| `GameStore` | the persisted game store, as a class whose methods update its fields |
| `Vfx` | the visual-effects store |
| `World` | the bodies of the physics world as values: ids, removal, merging, revive, snapshot and restore, pointer geometry, the danger-line timer |
| `PhysicsScene` | the board component, as a class that owns the bodies and runs the engine's event handlers |
| `SubmitScore`, `LeaderboardRoute` | the two HTTP handlers |
| `MidnightCountdown`, `LeaderboardTimer` | the two countdowns |
| `HardhatConfig`, `UpdateEnv` | the key loader and the address update script |
| `Text`, `Wrappers` | the JavaScript string operations the core uses (`toString`, `padStart`, `indexOf`, `trim`), plus `split` and digit parsing, used to read the produced faces back; and `Option` |

Inputs from outside the code are parameters:
- clock readings (`now`, `t0`, `t1`);
- the random next level, which must be below 5;
- fresh UUIDs;
- physics positions after a step;
- collision pairs;
- database outcomes;
- file contents.

Behaviour of the code worth knowing:
- The scene destructures `triggerShake`, `laserMode`, `toggleLaserMode` and `shakeTrigger` from the game store, which defines none of them (see `PhysicsScene.Scene.Fuse` under "Left out").
- The score endpoint checks only that `score` and `wallet` are truthy, and stores `proof` unchecked (app/api/submit-score/route.ts:15-26).
- One danger timer is shared by all orbs.
- A revive with no orbs returns before it clears the game-over flag. A revive does not restart the stopped runner.
- `isGameOver` is not persisted. A drop does not check `isGameOver`.
- A pair whose body was already removed earlier in the same event still merges and scores. Pairs carry bodies, and there is no presence check.
- The midnight hook's `isReset` never holds once it has mounted (`NeverResetAfterMount`).
- The leaderboard timer's literal "Refresing..." is kept as spelled.

## Model

| member | source | states |
|---|---|---|
| Levels.LevelCount | lib/constants.ts:7-19 | there are eleven orb levels, 0 to 10 |
| Levels.AdjacentLevels | lib/constants.ts:8-18 | each level's radius is larger than the level below it, and its score is twice that level's |
| Levels.RadiusIncreasing | lib/constants.ts:8-18 | radius strictly increases with level |
| Levels.ScoreIsPowerOfTwo | lib/constants.ts:8-18 | the score of level l is 2^(l+1) |
| Levels.EveryOrbFits | lib/constants.ts:1-18 | every orb has positive radius and is at most as wide as the 600-unit board |
| Levels.ScorePositive | lib/constants.ts:8-18 | every merge scores something |
| GameStore.Max | store/gameStore.ts:66 | `Math.max`: an upper bound of both arguments that equals one of them |
| GameStore.Store.constructor | store/gameStore.ts:49-59 | the defaults: all counters 0, no username, not over, no saved orbs, a fresh game id |
| GameStore.Store.Rehydrate | store/gameStore.ts:109-117 | a store rebuilt from persisted state has exactly that persisted part; the rest are defaults |
| GameStore.Store.Partialize | store/gameStore.ts:109-117 | the persisted subset is score, high score, username, shakes, strikes and saved orbs, and nothing else; `Rehydrate` of it gives it back (`ReloadKeepsPersisted`) |
| GameStore.Store.SetSavedOrbs | store/gameStore.ts:61 | replaces the saved orbs |
| GameStore.Store.SetScore | store/gameStore.ts:64-67 | sets the score; the high score becomes the maximum of the old high score and the new score |
| GameStore.Store.AddScore | store/gameStore.ts:68-74 | adds the points; the high score tracks the maximum and never decreases |
| GameStore.Store.SetHighScore | store/gameStore.ts:75 | overwrites the high score, unchecked |
| GameStore.Store.SetUsername | store/gameStore.ts:76 | sets the username |
| GameStore.Store.SetGameOver | store/gameStore.ts:77 | sets the flag, and the persisted part is unchanged |
| GameStore.Store.SetNextOrbLevel | store/gameStore.ts:78 | sets the next level, and the persisted part is unchanged |
| GameStore.Store.ResetGame | store/gameStore.ts:79-85 | score 0, not over, no saved orbs, new next level below 5, new game id; high score, username, shakes and strikes kept |
| GameStore.Store.AddShakes | store/gameStore.ts:87 | adds to the shakes; non-negative stays non-negative for non-negative amounts |
| GameStore.Store.UseShake | store/gameStore.ts:88-95 | succeeds iff a shake is left, and then uses exactly one |
| GameStore.Store.AddStrikes | store/gameStore.ts:96 | adds to the strikes |
| GameStore.Store.UseStrike | store/gameStore.ts:97-104 | succeeds iff a strike is left, and then uses exactly one |
| GameStore.Store.TriggerRevive | store/gameStore.ts:105 | the trigger becomes the clock reading, and the persisted part is unchanged |
| GameStore.ReloadKeepsPersisted | store/gameStore.ts:107-117 | a reload keeps what is persisted and resets `isGameOver` and `nextOrbLevel` |
| Vfx.StampAll | store/vfxStore.ts:23-32 | each spawned effect keeps its fields, gets the next id and the spawn time |
| Vfx.Stamp | store/vfxStore.ts:23-30 | a spawned effect is the caller's spec with an id and the clock reading added, every other field as passed |
| Vfx.StampAllSnoc | store/vfxStore.ts:23-32 | stamping one more effect appends one stamped effect with the next id |
| Vfx.StampAllConcat | store/vfxStore.ts:23-32 | stamping two batches in a row equals stamping them as one batch |
| Vfx.StampAllExtend | store/vfxStore.ts:23-32 | appending a second stamped batch to a store equals appending the combined batch |
| Vfx.WithoutId | store/vfxStore.ts:33-35 | `filter(e => e.id !== id)`: the effects kept are exactly those with another id |
| Vfx.RemoveLength | store/vfxStore.ts:33-35 | removal drops exactly the effects carrying that id |
| Vfx.RemoveKeepsOrder | store/vfxStore.ts:33-35 | removal works effect by effect and keeps order |
| Vfx.RemoveAbsent | store/vfxStore.ts:33-35 | removing an id nobody carries changes nothing |
| Vfx.RemoveIdempotent | store/vfxStore.ts:33-35 | removing twice is removing once |
| Vfx.VfxStore.constructor | store/vfxStore.ts:22 | starts with no effects |
| Vfx.VfxStore.Spawn | store/vfxStore.ts:23-32 | appends the effect stamped with the next id and the time; every id stays below the counter |
| Vfx.VfxStore.Remove | store/vfxStore.ts:33-35 | the effects become those without that id |
| Vfx.SpawnThenRemove | store/vfxStore.ts:23-35 | an effect spawned and then removed by its own id leaves the list as it was |
| World.Without | components/game/PhysicsScene.tsx:180 | `World.remove`: the bodies kept are exactly those whose id is not removed |
| World.WithoutUnique | components/game/PhysicsScene.tsx:180 | removal keeps ids unique |
| World.WithoutSize | components/game/PhysicsScene.tsx:180 | removal shrinks the world by exactly the number of removed ids present |
| World.WithoutValid | components/game/PhysicsScene.tsx:180 | removal keeps the world invariant |
| World.AppendFresh | components/game/PhysicsScene.tsx:189 | adding a body with the engine's next id keeps the world invariant |
| World.RemoveOne | components/game/PhysicsScene.tsx:322 | removing one body shrinks the world by one, and only that body goes |
| World.Fixtures | components/game/PhysicsScene.tsx:157-161 | ground, left wall, right wall and then the sensor: consecutive ids, none an orb, none levelled |
| World.MountedBoardValid | components/game/PhysicsScene.tsx:121-161 | the mounted board has consecutive ids and satisfies the world invariant |
| World.Moved | components/game/PhysicsScene.tsx:287-289 | an engine step moves only non-static bodies and changes nothing but positions |
| World.MovedValid | components/game/PhysicsScene.tsx:287-289 | a step keeps the world invariant |
| World.Fused | components/game/PhysicsScene.tsx:176-189 | the new orb has the next level and its radius, sits at the midpoint, and takes the next id |
| World.ParticleColor | components/game/PhysicsScene.tsx:205 | the colour is never blank: the table's entry for a level in the table, `#fff` past its end |
| World.MergeEffects | components/game/PhysicsScene.tsx:201-219 | an explosion in the level's particle colour and a floater with the `+points` text, both at the merge point, then a flash exactly when the new level is 8 or more |
| World.MergePair | components/game/PhysicsScene.tsx:166-226 | one pair: two orbs of equal level below 10 become one orb of the next level at their midpoint, with the level's points and the merge effects; two level-10 orbs vanish for twice the points; any other pair changes nothing (proved in `MergeShift`, `FuseEqualPair`, `FuseTopPair`, `UnequalPairIgnored`) |
| World.ResolvePairs | components/game/PhysicsScene.tsx:162-228 | the pairs of one event, in the order the engine lists them, each handled on the result of those before (proved in `ResolveStep`, `ResolveConcat`, `ResolveKeepsValid`) |
| World.FloaterTextReadsBack | components/game/PhysicsScene.tsx:213 | the floater text is "+" and the decimal digits of the merged level's score |
| World.MergeShift | components/game/PhysicsScene.tsx:166-229 | a merge adds its points and effects on top of those already gathered |
| World.ResolveStep | components/game/PhysicsScene.tsx:166-229 | handling one more pair of the event is one more merge on the result so far |
| World.UnequalPairIgnored | components/game/PhysicsScene.tsx:171 | a pair that is not two orbs of one level changes nothing |
| World.FuseEqualPair | components/game/PhysicsScene.tsx:175-194 | two orbs below the top level become one new orb; the rest stay; the player scores the lower level's points |
| World.FuseTopPair | components/game/PhysicsScene.tsx:222-227 | two top-level orbs vanish and score double, with no new orb and no effects |
| World.StalePairStillFuses | components/game/PhysicsScene.tsx:166-189 | a pair whose body an earlier merge removed still creates an orb and scores |
| World.FusedValid | components/game/PhysicsScene.tsx:180-189 | removing the pair and adding the new orb keeps the world invariant |
| World.MergeKeepsValid | components/game/PhysicsScene.tsx:171-227 | any merge keeps the invariant, and points and the id counter never go down |
| World.ResolveKeepsValid | components/game/PhysicsScene.tsx:166-229 | a whole collision event keeps the invariant |
| World.ResolveConcat | components/game/PhysicsScene.tsx:166-229 | handling pairs in two batches equals handling them in one |
| World.InsertByY | components/game/PhysicsScene.tsx:67 | insertion adds exactly the one body and keeps every other body |
| World.InsertKeepsSorted | components/game/PhysicsScene.tsx:67 | inserting into a list sorted by height keeps it sorted |
| World.SortByY | components/game/PhysicsScene.tsx:67 | the sort is a permutation, sorted by ascending y |
| World.SortByYStable | components/game/PhysicsScene.tsx:67 | the sort is stable: the bodies at any one height keep their relative order |
| World.Orbs | components/game/PhysicsScene.tsx:60 | keeps exactly the bodies that are neither static nor the sensor |
| World.OrbsUnique | components/game/PhysicsScene.tsx:60 | the orbs have unique ids |
| World.SortUnique | components/game/PhysicsScene.tsx:67 | sorting keeps ids unique |
| World.RemovedFacts | components/game/PhysicsScene.tsx:69-70 | the removed bodies are the first floor(n/2) of the sorted orbs, all orbs of the world |
| World.ReviveRemoved | components/game/PhysicsScene.tsx:60-70 | the halving takes ⌊n/2⌋ of the n orbs, and only orbs of the world |
| World.Revived | components/game/PhysicsScene.tsx:60-75 | the world without the removed orbs (proved in `ReviveRemovesHalf`, `ReviveRemovesTopmost`, `ReviveKeepsStatic`, `ReviveWithoutOrbs`) |
| World.ReviveRemovesHalf | components/game/PhysicsScene.tsx:69-75 | a revive removes floor(n/2) of n orbs and nothing else |
| World.PrefixAbove | components/game/PhysicsScene.tsx:67-70 | in a list sorted by y, the slice's bodies sit no lower than any body outside it |
| World.ReviveRemovesTopmost | components/game/PhysicsScene.tsx:64-75 | every removed orb is at least as high as every orb that stays |
| World.ReviveKeepsStatic | components/game/PhysicsScene.tsx:60-75 | walls, ground and sensor survive a revive |
| World.ReviveWithoutOrbs | components/game/PhysicsScene.tsx:62 | with no orbs the world is unchanged |
| World.WithoutNothing | components/game/PhysicsScene.tsx:73-75 | removing no ids changes nothing |
| World.WithoutUnion | components/game/PhysicsScene.tsx:73-75 | removing body by body equals removing them all at once |
| World.RemoveStep | components/game/PhysicsScene.tsx:73-75 | one more iteration of the removal loop removes one more id of the list |
| World.RemoveNone | components/game/PhysicsScene.tsx:73 | before the loop nothing has been removed |
| World.WithoutConcat | components/game/PhysicsScene.tsx:73-75 | removal distributes over concatenation |
| World.Restored | components/game/PhysicsScene.tsx:125-135 | each saved orb becomes a dynamic orb with its position, radius and level, taking consecutive ids |
| World.Snapshot | components/game/PhysicsScene.tsx:273-281 | the x, y, radius and level of every orb with a level, in world order; restoring a snapshot and saving it again gives the same list (proved in `SnapshotOfRestored`, `RestoreRoundTrip`) |
| World.RestoredSnoc | components/game/PhysicsScene.tsx:127-135 | restoring one more saved orb appends one body |
| World.SnapshotConcat | components/game/PhysicsScene.tsx:273-281 | the save is taken body by body in world order |
| World.SnapshotWellFormed | components/game/PhysicsScene.tsx:274-281 | saved radii are never 0 and saved levels are in the table |
| World.SnapshotOfRestored | components/game/PhysicsScene.tsx:125-135 | saving what was just restored gives back the saved list |
| World.RestoreThenSave | components/game/PhysicsScene.tsx:121-161 | saving a freshly mounted board gives back the saved list |
| World.SnapshotSkipsStatic | components/game/PhysicsScene.tsx:275 | walls and sensor are never saved |
| World.RestoreRoundTrip | components/game/PhysicsScene.tsx:270-284 | save, reload and save again gives the same list |
| World.ClampX | components/game/PhysicsScene.tsx:337 | the drop x stays within [r, 600 - r], and an x already inside is kept |
| World.FirstTarget | components/game/PhysicsScene.tsx:316-318 | the first orb under the pointer, and no earlier orb is under it |
| World.HitBy | components/game/PhysicsScene.tsx:316-318 | a point hits a body when it lies on the body's disc |
| World.DroppedOrb | components/game/PhysicsScene.tsx:337-349 | the dropped orb has the next level, sits at y 50 and lies fully inside the box |
| World.AfterActive | components/game/PhysicsScene.tsx:242-266 | one collisionActive event: contact arms an unarmed timer at the event's time and leaves an armed one alone; no contact clears it |
| World.AfterEvents | components/game/PhysicsScene.tsx:242-266 | a run of collisionActive events, one after another (proved in `ContactKeepsStart`, `GapRestartsTimer`, `EventsConcat`) |
| World.Expired | components/game/PhysicsScene.tsx:255-258 | the armed timer has run GAME_OVER_TIME by the given time |
| World.ContactKeepsStart | components/game/PhysicsScene.tsx:253-259 | during uninterrupted contact the timer keeps its first start time |
| World.GapRestartsTimer | components/game/PhysicsScene.tsx:260-264 | one event without contact clears the timer, so contact after it starts anew |
| World.EventsConcat | components/game/PhysicsScene.tsx:242-266 | the timer after two runs of events is the timer after their concatenation |
| PhysicsScene.Scene.Mount | components/game/PhysicsScene.tsx:116-161 | restores the saved orbs unless the game is over, adds the fixtures and sensor, starts running with dropping enabled |
| PhysicsScene.Scene.RestoreOrbs | components/game/PhysicsScene.tsx:127-135 | one orb per saved orb, in order, with consecutive engine ids, exactly as `Restored` reads the save back |
| PhysicsScene.Scene.MergeOne | components/game/PhysicsScene.tsx:166-228 | one pair changes bodies, score, high score and effects as `MergePair` says |
| PhysicsScene.Scene.Fuse | components/game/PhysicsScene.tsx:175-220 | removes the pair, adds the fused orb, adds the score, spawns the effects |
| PhysicsScene.Scene.Vanish | components/game/PhysicsScene.tsx:222-227 | removes a top-level pair and adds double the score |
| PhysicsScene.Scene.SpawnMergeEffects | components/game/PhysicsScene.tsx:200-220 | spawns explosion and floater, plus a flash when the new level is 8 or more |
| PhysicsScene.Scene.OnCollisionStart | components/game/PhysicsScene.tsx:163-230 | the whole event equals `ResolvePairs` over its pairs, and the world invariant is kept |
| PhysicsScene.Scene.TouchingSensor | components/game/PhysicsScene.tsx:244-251 | true iff some pair involves the sensor |
| PhysicsScene.Scene.OnCollisionActive | components/game/PhysicsScene.tsx:242-266 | arms the timer on first contact, leaves it while armed, clears it without contact |
| PhysicsScene.Scene.OnDangerTimeout | components/game/PhysicsScene.tsx:255-258 | when the armed timer expires, the game is over and the runner stops; otherwise nothing changes |
| PhysicsScene.Scene.Step | components/game/PhysicsScene.tsx:287-289 | bodies move only while the runner runs |
| PhysicsScene.Scene.SaveTick | components/game/PhysicsScene.tsx:270-284 | skips when the game is over, otherwise saves the snapshot |
| PhysicsScene.Scene.OnRevive | components/game/PhysicsScene.tsx:53-80 | does nothing without a trigger or without orbs; otherwise removes the top half and clears game over |
| PhysicsScene.Scene.ToggleLaserMode | components/game/PhysicsScene.tsx:323-328 | flips laser mode |
| PhysicsScene.Scene.PointerDown | components/game/PhysicsScene.tsx:306-360 | laser mode: first orb under the pointer removed if a strike is left, mode toggled on a hit; drop mode: only when allowed, a clamped orb, next level drawn, drops blocked for 500 ms |
| PhysicsScene.Scene.OnDropTimeout | components/game/PhysicsScene.tsx:357-359 | after 500 ms dropping is allowed again |
| SubmitScore.GameScores.Insert | app/api/submit-score/route.ts:22-26 | appends the row, or fails and leaves the table as it was |
| SubmitScore.Truthy | app/api/submit-score/route.ts:15 | JavaScript truthiness of a body field: absent, null, false, zero and the empty string are falsy, everything else truthy |
| SubmitScore.Accepts | app/api/submit-score/route.ts:15-17 | the guard lets a body through exactly when `score` and `wallet` are both truthy |
| SubmitScore.RowFor | app/api/submit-score/route.ts:22-26 | the row inserted is the wallet and the score as sent, with the proof under `metadata` |
| SubmitScore.Post | app/api/submit-score/route.ts:10-35 | bad or null JSON gives 500; a falsy score or wallet gives 400; a failed insert gives 500; otherwise one row is added and the request succeeds |
| SubmitScore.BodyFields | app/api/submit-score/route.ts:12 | destructuring reads back the fields the body was built with |
| SubmitScore.ZeroScoreRefused | app/api/submit-score/route.ts:15-17 | a score of 0, or no score, is refused |
| SubmitScore.EmptyWalletRefused | app/api/submit-score/route.ts:15-17 | an empty wallet, or no wallet, is refused |
| SubmitScore.AnyTruthyScoreAccepted | app/api/submit-score/route.ts:15-26 | any non-zero score with a non-empty wallet is stored as sent, with no check on the proof |
| SubmitScore.NonObjectRefused | app/api/submit-score/route.ts:12-17 | a JSON value that is not an object has no fields and is refused |
| LeaderboardRoute.ViewFor | app/api/leaderboard/route.ts:13-18 | exactly "weekly", "monthly" and "all_time" pick their views; everything else reads the daily view |
| LeaderboardRoute.Get | app/api/leaderboard/route.ts:10-32 | a query error gives 500; otherwise the first 50 rows of the chosen view |
| LeaderboardRoute.Limited | app/api/leaderboard/route.ts:20-23 | a prefix of the view, with min(n, 50) rows |
| LeaderboardRoute.DefaultIsDaily | app/api/leaderboard/route.ts:13-15 | a missing or empty period reads the daily view |
| LeaderboardRoute.UnknownPeriodIsDaily | app/api/leaderboard/route.ts:15-18 | an unknown period reads the daily view |
| MidnightCountdown.NextUtcMidnight | hooks/useTimeUntilUtcMidnight.ts:21-25 | a UTC midnight strictly after the reading, at most a day ahead |
| MidnightCountdown.CalculateTimeLeft | hooks/useTimeUntilUtcMidnight.ts:15-29 | the clamped difference, positive whenever the two clock reads are in order |
| MidnightCountdown.Split3 | hooks/useTimeUntilUtcMidnight.ts:47-51 | hours, minutes below 60 and seconds below 60 add up to the whole seconds |
| MidnightCountdown.Format | hooks/useTimeUntilUtcMidnight.ts:47-56 | the face is the three padded fields of `Split3` (reading it back is `FormatReadsBack`) |
| MidnightCountdown.FormatReadsBack | hooks/useTimeUntilUtcMidnight.ts:47-56 | the face reads back as those fields, each at least two digits wide |
| MidnightCountdown.Countdown.constructor | hooks/useTimeUntilUtcMidnight.ts:11-12 | starts at 0, not mounted |
| MidnightCountdown.Countdown.Mount | hooks/useTimeUntilUtcMidnight.ts:31-34 | marks the hook mounted and takes the first reading |
| MidnightCountdown.Countdown.Tick | hooks/useTimeUntilUtcMidnight.ts:37-40 | one tick takes a new reading |
| MidnightCountdown.Countdown.Result | hooks/useTimeUntilUtcMidnight.ts:58-67 | the placeholder before mount; afterwards the face, `isReset` iff nothing is left, and the whole seconds |
| MidnightCountdown.NeverResetAfterMount | hooks/useTimeUntilUtcMidnight.ts:63-67 | with ordered clock reads, a mounted hook never reports `isReset` |
| LeaderboardTimer.MidnightOf | components/leaderboard/LeaderboardTimer.tsx:24 | the midnight that starts the day containing the reading |
| LeaderboardTimer.UtcDay | components/leaderboard/LeaderboardTimer.tsx:31 | a weekday 0 to 6 |
| LeaderboardTimer.DaysUntilMonday | components/leaderboard/LeaderboardTimer.tsx:35 | the least k from 1 to 7 that lands on a Monday |
| LeaderboardTimer.NextReset | components/leaderboard/LeaderboardTimer.tsx:23-41 | tomorrow's UTC midnight for the day, the next Monday's for the week, the calendar's rollover for month and year (proved in `DailyIsNextMidnight`, `WeeklyIsNextMonday`) |
| LeaderboardTimer.DeadDiffAgrees | components/leaderboard/LeaderboardTimer.tsx:32 | the unused `diff` computes the same days |
| LeaderboardTimer.MondayAndSunday | components/leaderboard/LeaderboardTimer.tsx:35 | a Monday waits a full week, a Sunday one day |
| LeaderboardTimer.UtcDayShift | components/leaderboard/LeaderboardTimer.tsx:36 | adding k whole days moves the weekday on by k |
| LeaderboardTimer.DailyIsNextMidnight | components/leaderboard/LeaderboardTimer.tsx:26-27 | the daily reset is the next UTC midnight |
| LeaderboardTimer.WeeklyIsNextMonday | components/leaderboard/LeaderboardTimer.tsx:28-36 | the weekly reset is the first Monday midnight after the reading, at most seven days ahead |
| LeaderboardTimer.Decompose | components/leaderboard/LeaderboardTimer.tsx:49-52 | days, hours below 24, minutes and seconds below 60, summing to the difference less its milliseconds |
| LeaderboardTimer.LongForm | components/leaderboard/LeaderboardTimer.tsx:54-56 | the unpadded "{d}d {h}h {m}m {s}s" face (reading it back is `LongFormReadsBack`) |
| LeaderboardTimer.TimerText | components/leaderboard/LeaderboardTimer.tsx:43-57 | "Refresing..." once the reset has passed, the long face with a day or more to go, the clock face otherwise (proved in `TimerTextMeaning`) |
| LeaderboardTimer.SplitLong | components/leaderboard/LeaderboardTimer.tsx:55 | the long form splits at its spaces into four unit fields |
| LeaderboardTimer.LongFormReadsBack | components/leaderboard/LeaderboardTimer.tsx:55 | the long form reads back as the numbers it was made from |
| LeaderboardTimer.TimerTextMeaning | components/leaderboard/LeaderboardTimer.tsx:43-57 | "Refresing..." when due; otherwise either long or clock form, reading back as a decomposition within a second of the difference |
| LeaderboardTimer.CalculateTimeLeft | components/leaderboard/LeaderboardTimer.tsx:14-58 | the text for the reset instant built step by step, compared with the later clock reading |
| HardhatConfig.LineFrom | hardhat.config.js:18-19 | the prefix up to the first line feed, or everything |
| HardhatConfig.FileKey | hardhat.config.js:13-22 | the trimmed rest of the line after the first `DEPLOYER_PRIVATE_KEY=`, when there is one and it is not empty; a key found is non-empty and has no white space at either end (see also `FileKeyShape`, `KeyLineReadsBack`, `MarkerFirstAt`) |
| HardhatConfig.LoadDeployerKey | hardhat.config.js:8-32 | the variable is set from the file only when a non-empty trimmed key is found; otherwise it keeps its value |
| HardhatConfig.FileKeyShape | hardhat.config.js:13-22 | a loaded key is non-empty, one line, trimmed |
| HardhatConfig.TrimmedLine | hardhat.config.js:20 | trimming keeps a line free of line feeds and leaves no outer white space |
| HardhatConfig.NoKeyKeepsEnvironment | hardhat.config.js:13-29 | no marker, or only white space after it, loads nothing |
| HardhatConfig.KeyLineReadsBack | hardhat.config.js:13-22 | a `DEPLOYER_PRIVATE_KEY=<key>` line after text without the marker loads `<key>` |
| HardhatConfig.MarkerFirstAt | hardhat.config.js:13 | `indexOf` finds the marker where it first occurs |
| HardhatConfig.Accounts | hardhat.config.js:43 | `[key]` for a non-empty variable, `[]` otherwise |
| HardhatConfig.ConfigFor | hardhat.config.js:37-51 | solidity 0.8.19; vinu at chain 207 and vinu_testnet at chain 206, with their URLs; both use the same accounts |
| HardhatConfig.LoadedKeyIsTheAccount | hardhat.config.js:43-48 | after a load, both networks deploy from exactly the loaded key |
| UpdateEnv.FirstValuedFrom | scripts/update_env.js:12 | the leftmost match of `KEY=.+` from a position on |
| UpdateEnv.FirstValued | scripts/update_env.js:12 | the leftmost match of `KEY=.+` |
| UpdateEnv.LineEnd | scripts/update_env.js:12 | where the greedy `.+` stops: the first line terminator or the end |
| UpdateEnv.ReplaceAssignment | scripts/update_env.js:12 | the first assignment with a value has its value, up to the end of the line, replaced by the address; the text before and after is kept, and text without one is returned as it was (proved in `RewriteKeepsRest`, `ReplaceAtFirst`) |
| UpdateEnv.EnvUpdate | scripts/update_env.js:11-15 | a key present is rewritten in place, an absent key is appended on a line of its own (proved in `AbsentKeyAppends`, `RewriteKeepsRest`, `UpdateSetsValue`, `UpdateIdempotent`) |
| UpdateEnv.UpdateEnvFile | scripts/update_env.js:7-21 | writes nothing without the file, otherwise the updated text |
| UpdateEnv.NewAddressIsPlain | scripts/update_env.js:5 | the written address is one non-empty line with no `$` pattern |
| UpdateEnv.AbsentKeyAppends | scripts/update_env.js:13-15 | without the key, the old text is kept and the assignment appended on its own line |
| UpdateEnv.EmptyValueUnchanged | scripts/update_env.js:11-12 | with the key present but never followed by a value, the text is unchanged |
| UpdateEnv.RewriteKeepsRest | scripts/update_env.js:11-12 | a rewrite keeps everything before the first valued assignment and everything from its line end on |
| UpdateEnv.AppendedIsFirst | scripts/update_env.js:14 | the appended assignment is the first valued one and holds the address |
| UpdateEnv.RewrittenIsFirst | scripts/update_env.js:12 | the rewritten assignment stays the first valued one and holds the address |
| UpdateEnv.UpdateSetsValue | scripts/update_env.js:11-15 | after the update, the first valued assignment holds exactly the address |
| UpdateEnv.ReplaceAtFirst | scripts/update_env.js:11-12 | a text whose first assignment already holds the address is unchanged |
| UpdateEnv.UpdateIdempotent | scripts/update_env.js:11-15 | running the script twice writes the same text as running it once |
| Text.NatToString | components/leaderboard/LeaderboardTimer.tsx:55 | decimal digits without a leading zero |
| Text.ParseNatToString | components/leaderboard/LeaderboardTimer.tsx:55 | the digits read back as the number |
| Text.Pad2 | components/leaderboard/LeaderboardTimer.tsx:57 | `padStart(2, '0')`: at least two digits, exactly two below 100, same value |
| Text.PadStart2 | components/leaderboard/LeaderboardTimer.tsx:57 | `padStart(2, '0')` on a string |
| Text.PadStart2Shape | components/leaderboard/LeaderboardTimer.tsx:57 | zeros go in front of the string, only as many as bring it to two characters, and the string itself is kept |
| Text.Split | hooks/useTimeUntilUtcMidnight.ts:55 | the reader of the colon-separated faces: at least one part, and no part contains the separator |
| Text.ClockRoundTrip | hooks/useTimeUntilUtcMidnight.ts:54-55 | "HH:MM:SS" splits into its padded fields and reads back |
| Text.IndexOf | hardhat.config.js:13 | `indexOf`: an occurrence with no earlier one, or none at all |
| Text.IndexOfFrom | hardhat.config.js:13 | the first occurrence at or after the start position, or none when there is none |
| Text.TrimShape | hardhat.config.js:20 | `trim` keeps a contiguous middle and drops only white space around it |
| Text.TrimEmpty | hardhat.config.js:20-21 | the trimmed text is empty iff every character is white space |
| Text.Trim | hardhat.config.js:20 | the result is no longer than the input and neither starts nor ends with white space (`TrimShape`: it is the middle of the input with only white space around it) |

## Left out

- Physics: gravity, contact resolution and restitution belong to the engine. A step is a parameter: new positions, and the pairs of each collision event.
- Bodies: walls, ground and sensor are kept as bodies of radius 0. Their rectangle extents are not modelled.
- `World.FirstTarget`: a point hits an orb when it lies in the orb's disk. Matter's polygon test for circles is approximated by the disk.
- The shake effect (components/game/PhysicsScene.tsx:83-99) is left out. It applies random forces, which are engine physics.
- Audio, rendering, theme and the page components are left out.
- Unmount cleanup (components/game/PhysicsScene.tsx:292-302) and the interval timers are left out. Timer callbacks are methods the caller invokes with the clock reading.
- `PhysicsScene.Scene.Mount`: the source throws on a saved level above 10 when it restores a board, because it reads `ORB_LEVELS[level].color`. The model requires saved levels in the table only when a board is restored.
- `PhysicsScene.Scene.Fuse`, `PhysicsScene.Scene.ToggleLaserMode`: the scene reads `triggerShake`, `laserMode`, `toggleLaserMode` and `shakeTrigger` from the game store (components/game/PhysicsScene.tsx:21-32), but store/gameStore.ts:11-43 defines none of them. The model keeps `laserMode` as a boolean on the scene and treats `triggerShake(1)` (components/game/PhysicsScene.tsx:197) as doing nothing. As written, that call would throw a TypeError after `World.add` and `addScore`, so a merge below level 10 would spawn no effects and the rest of the event's pairs would be skipped.
- `PhysicsScene.Scene.SpawnMergeEffects`: all spawns of one event share one `now`. Effect ids come from a counter, not from random UUIDs.
- `PhysicsScene.Scene.PointerDown`: the alert on a missing strike and the drop sound are left out. The pointer position relative to the canvas is a parameter.
- `GameStore.Store.ResetGame`, `GameStore.Store.constructor`: the random level and the UUID are parameters.
- Persistence: the browser `localStorage` round trip is modelled as `Partialize` and `Rehydrate`. Hydration timing is left out.
- `SubmitScore.Post`: JSON numbers are `real`. A body that is not valid JSON is `None`. Network and database I/O are a `fails` flag.
- `LeaderboardRoute.Get`: each view's rows, in database order, are an input map.
- `LeaderboardTimer.CalculateTimeLeft`: the monthly and yearly rollovers of the calendar (`setUTCMonth`, `setUTCFullYear`) are an input. The first-of-month and first-of-year instants are not computed. The component's state and interval are left out, as are the unused `utcNow` and `d`.
- `HardhatConfig.LoadDeployerKey`: the file system is an `Option<string>`, and the console logs are left out.
- `UpdateEnv.ReplaceAssignment`: `$` patterns in a replacement string are not interpreted. The script's fixed address contains none (`NewAddressIsPlain`).
- `UpdateEnv.UpdateEnvFile`: the file write and the console logs are left out.
- Numbers are mathematical integers and reals. JavaScript doubles do not overflow at the scores and times this code reaches.
