# ChronoSelect round engine in Dafny

ChronoSelect is a "finger chooser" web app. Everyone puts a finger on the
screen. After a short countdown the app picks one winner (chooser mode),
splits the players into two colour teams (team-split mode), or runs a race
of circles to the top of the screen (race mode). All of this lives in one
React component, `src/components/chrono-select.tsx`. This project models
that component's round engine and proves properties of it:

- `types.dfy` (module `Types`): the constants, the `Player` record, the game
  states and the modes.
- `contacts.dfy` (module `Contacts`): the player registry, a JavaScript
  `Map<number, Player>`. Insertion order matters to the shuffle, the lineup
  and the finisher order, so the registry is an insertion-ordered sequence
  of keys next to a `map`. It also holds the updaters that pointer-down,
  pointer-move and pointer-up apply to it.
- `random.dfy` (module `RandomUtil`):
  - `getDistinctHue`, a reject-and-resample loop with a 50-attempt failsafe;
  - `shuffleArray`, the Fisher–Yates shuffle, as a loop over an array that
    it swaps in place.
- `resolve.dfy` (module `Resolve`):
  - the RESULT resolvers (one winner in chooser mode; a split at ceil(n/2)
    in team-split mode);
  - the race lineup;
  - the start speeds.
- `frame.dfy` (module `Frame`): the state half of one `animate` frame.
  - In RESULT, winners grow and losers fade.
  - In a race:
    - racers move and their speed is clamped to [0.1, 4];
    - players that finish are detected, sorted, and given consecutive ranks;
    - the RACE_FINISH timeout is scheduled.
  - Otherwise players breathe.

  The three loops of `animate` are methods proved against the function
  `Frame`. Lemmas about that function state the per-player rules and the
  rank invariants.
- `session.dfy` (module `Session`): the component as a class.
  - Its fields are the React state (players, gameState, countdown,
    gameMode) and the refs (nextPlayerId, isMouseDown, the timer handles).
  - There is one method per event handler and per timer callback.
  - A React render runs the effects whose dependencies changed. The model keys
    them on gameState and the player count (see Finding 3).
  - The class invariant ties every state-bound timer to the state it
    belongs to.

Randomness is supplied as arguments:
- `Math.random()` draws are reals in [0, 1): a sequence for a shuffle or a
  hue search, and a per-player map for the draws of a frame or of the start
  speeds;
- `Math.sin` is a function parameter;
- the window size is a pair of parameters.

A timer is a pending flag, or a count for timeouts whose handle is lost.
Its callback is a method that may run only while the timer is pending.
Numbers are modelled as `real`.

In two places the component does something other than what its design
suggests. The model follows the code:
- A team-split contact starts with hue 0 and saturation 0
  (`src/components/chrono-select.tsx:304-306`), not with a distinct hue.
- A loser that has faded out in RESULT is not removed from the registry.
  `newPlayers` is a copy of the registry, so the loser's previous entry stays
  (`src/components/chrono-select.tsx:150-152`).

## Model

| member | source | states |
|---|---|---|
| Types.NewPlayer | src/components/chrono-select.tsx:308-318 | a new contact record: given id, position, hue, saturation and phase, no outcome, no rank, opacity 1, at rest, both sizes BASE_CIRCLE_SIZE |
| Contacts.Set | src/components/chrono-select.tsx:308 | Map.set: the entry is replaced, an existing key keeps its place in the iteration order, a new key goes last, and every key stays listed exactly once |
| Contacts.Delete | src/components/chrono-select.tsx:349 | Map.delete: the key leaves both the entries and the iteration order, and the order keeps every other key once |
| Contacts.Values | src/components/chrono-select.tsx:302 | Array.from(map.values()) lists the entries in insertion order |
| Contacts.SizeIsKeyCount | src/components/chrono-select.tsx:299 | the Map's size equals its number of keys |
| Contacts.AddContact | src/components/chrono-select.tsx:298-322 | a registry holding MAX_TOUCHES or more is returned unchanged; otherwise the key id is set to the new player, the other entries are unchanged, and the registry stays valid |
| Contacts.MoveContact | src/components/chrono-select.tsx:326-336 | only x and y of an existing id change; an absent id leaves the registry unchanged; keys and order are kept |
| Contacts.RemoveContact | src/components/chrono-select.tsx:347-352 | exactly the key id is removed, the other entries are unchanged, and the size drops by one if and only if id was present |
| Contacts.RemoveUndoesAdd | src/components/chrono-select.tsx:338-353 | lifting a contact that was just added gives back exactly the registry from before the press |
| RandomUtil.TooCloseIsCircular | src/components/chrono-select.tsx:28-31 | two hues in [0, 360) are too close exactly when a copy of one, shifted by -360, 0 or +360, is within 30 degrees of the other |
| RandomUtil.TooCloseSymmetric | src/components/chrono-select.tsx:28-31 | the closeness test is symmetric |
| RandomUtil.DistinctHueFromSpec | src/components/chrono-select.tsx:33-39 | the loop stops at the first sample that is far enough from every hue, or after the 51st sample; every earlier sample was too close; it reaches the failsafe exactly when the first 50 samples were all too close |
| RandomUtil.DistinctHueRange | src/components/chrono-select.tsx:34 | the returned hue lies in [0, 360) |
| RandomUtil.DistinctHueOfNone | src/components/chrono-select.tsx:532 | with no existing hues, the first sample is accepted |
| RandomUtil.GetDistinctHue | src/components/chrono-select.tsx:23-42 | it draws between 1 and 51 samples and returns the last one drawn, times 360; if it stops before the failsafe, that hue is at least 30 degrees of circular distance from every existing hue; every earlier sample was too close |
| RandomUtil.PickIndex | src/components/chrono-select.tsx:52 | Math.floor(u * n) is an index below n |
| RandomUtil.ScaledSampleBelow | src/components/chrono-select.tsx:52 | u * n lies in [0, n) for a draw u in [0, 1) |
| RandomUtil.SwapPermutes | src/components/chrono-select.tsx:56-58 | a swap permutes the elements |
| RandomUtil.FisherYatesFromPermutes | src/components/chrono-select.tsx:50-59 | the remaining swaps of the shuffle keep the length and the multiset of elements |
| RandomUtil.FisherYatesPermutes | src/components/chrono-select.tsx:45-62 | the shuffle is a permutation of its input |
| RandomUtil.ShuffleArray | src/components/chrono-select.tsx:45-62 | the in-place loop over a fresh copy computes the shuffle; the result has the input's length and multiset; the input sequence is a value and stays unchanged |
| RandomUtil.SwapInPlace | src/components/chrono-select.tsx:56-58 | the destructuring swap exchanges exactly two cells of the array |
| Resolve.ShuffledIds | src/components/chrono-select.tsx:527-528 | the shuffled player list holds every registered id exactly once |
| Resolve.ChooserResolve | src/components/chrono-select.tsx:557-564 | every player becomes winner if and only if it is the drawn one, loser otherwise, with no team; keys and order are kept |
| Resolve.ChooserResolveSplits | src/components/chrono-select.tsx:557-564 | the winners are exactly the drawn player and the losers exactly all the others |
| Resolve.ChooserOutcome | src/components/chrono-select.tsx:550-566 | with n >= 1 players: exactly one winner, n - 1 losers, isLoser == !isWinner and no team for everyone, nothing else changed |
| Resolve.TeamSplitResolve | src/components/chrono-select.tsx:536-548 | a player joins team A with hue A if its id is among the first ceil(n/2) shuffled players, team B with hue B otherwise; nobody wins or loses; saturation 90 |
| Resolve.SplitMembers | src/components/chrono-select.tsx:530 | a listed id is in the second slice if and only if it is not in the first |
| Resolve.TeamSplitHalves | src/components/chrono-select.tsx:527-549 | team A is the set of ids in the first ceil(n/2) places of the shuffle, team B the set of ids in the rest |
| Resolve.HalvesCard | src/components/chrono-select.tsx:529-530 | the two slices of a list without repeats hold mid and n - mid distinct ids |
| Resolve.TeamSplitCounts | src/components/chrono-select.tsx:527-549 | team A has ceil(n/2) members and team B floor(n/2) |
| Resolve.TeamSplitOutcome | src/components/chrono-select.tsx:527-549 | the teams are disjoint and cover all n players, with sizes ceil(n/2) and floor(n/2), so they differ by 0 or 1; everyone has exactly one team, is neither winner nor loser, and carries its team's hue |
| Resolve.ResolvedRoundDropsReset | src/components/chrono-select.tsx:517-519 | after either resolver every player carries an outcome, so the effect's re-run finds the guard closed and arms no reset timeout (Finding 1, as written) |
| Resolve.LineUp | src/components/chrono-select.tsx:466-482 | the i-th player in insertion order moves to slot i of the start row at y = height - BASE_CIRCLE_SIZE; nothing else changes |
| Resolve.SlotsSpanRow | src/components/chrono-select.tsx:467-469 | the slots run from 10% to 90% of the width in equal steps |
| Resolve.LineUpPositions | src/components/chrono-select.tsx:475-480 | player i of the insertion order sits at slot i |
| Resolve.LineUpSpacing | src/components/chrono-select.tsx:466-482 | the first player is at 10% of the width and the last at 90% (the first, if alone); neighbours are one spacing apart; only x and y change |
| Resolve.StartVelocities | src/components/chrono-select.tsx:496-504 | every player gets a start speed; keys and order are kept |
| Resolve.StartVelocitiesRange | src/components/chrono-select.tsx:496-504 | every start speed lies in [0.5, 1.5) and only vy changes |
| Frame.StepPlayer | src/components/chrono-select.tsx:114-148 | a player races if and only if the state is RACING and it has no rank yet; only a racer can finish; id and rank are untouched |
| Frame.StepResult | src/components/chrono-select.tsx:114-152 | the per-player update keeps the id and the rank |
| Frame.CountRankedCard | src/components/chrono-select.tsx:105-108 | counting through a list of distinct keys counts the ranked ones |
| Frame.CountRankedIsRankedIds | src/components/chrono-select.tsx:105-108 | finishedRacerCount is the number of ranked players |
| Frame.CountFinished | src/components/chrono-select.tsx:105-108 | the counting loop returns the number of ranked players |
| Frame.FinishersFacts | src/components/chrono-select.tsx:110-141 | the pushed records are exactly the players whose step finished, each once, each the snapped record of its own step |
| Frame.UpdatePlayers | src/components/chrono-select.tsx:110-153 | the forEach sets every key to its stepped player, counts the racers, and collects the finishers in insertion order |
| Frame.InsertPermutes | src/components/chrono-select.tsx:158 | inserting adds exactly the inserted record |
| Frame.InsertSorted | src/components/chrono-select.tsx:158 | inserting into a sorted list keeps it sorted |
| Frame.InsertIds | src/components/chrono-select.tsx:158 | inserting a new id keeps the ids distinct and adds exactly that id |
| Frame.SortFinishersPermutes | src/components/chrono-select.tsx:158 | the sort is a permutation of the finishers |
| Frame.SortFinishersSorted | src/components/chrono-select.tsx:158 | the sort orders the finishers by ascending key |
| Frame.SortFinishersIds | src/components/chrono-select.tsx:158 | the sorted finishers have the same ids, each once |
| Frame.InsertStable | src/components/chrono-select.tsx:158 | inserting into a sorted list puts the record behind every record with the same key |
| Frame.SortFinishersStable | src/components/chrono-select.tsx:158 | the sort is stable, as `Array.prototype.sort` is: for every key, the records with that key keep their relative order |
| Frame.Frame | src/components/chrono-select.tsx:104-177 | a frame never adds or removes a key and keeps the iteration order |
| Frame.SortedFinisherIds | src/components/chrono-select.tsx:140-158 | the sorted finisher ids are distinct and are exactly the players whose step finished |
| Frame.SortedFinisherSteps | src/components/chrono-select.tsx:140-158 | every sorted record is the finishing record of a registered player |
| Frame.FrameOrder | src/components/chrono-select.tsx:155-167 | the finish order lists each player that finished this frame exactly once, and no one else |
| Frame.FrameOrderAscending | src/components/chrono-select.tsx:155-158 | the finish order is ascending in the sort key of each player's step |
| Frame.FrameEntry | src/components/chrono-select.tsx:110-167 | each entry after the frame is its stepped player, and a finisher of this frame also gets a rank: the already ranked count + 1 + its place in the finish order |
| Frame.FrameFinished | src/components/chrono-select.tsx:160-167 | the j-th finisher of this frame gets rank (already ranked) + 1 + j |
| Frame.FrameUnfinished | src/components/chrono-select.tsx:150-152 | a player that did not finish ends as its stepped player, or as it was if it faded out |
| Frame.FrameKeepsRank | src/components/chrono-select.tsx:163 | a player with a rank is never re-ranked |
| Frame.FrameRace | src/components/chrono-select.tsx:122-141 | an unranked racer either moves up by vy and ends with vy in [0.1, 4] and no rank, or reaches the line, snaps to size/2 with vy 0, and is ranked |
| Frame.FrameResult | src/components/chrono-select.tsx:117-152 | in RESULT a winner grows by 1.0765; a loser shrinks to 0.9 and fades by 0.05, and once its opacity would reach 0 its previous entry stays |
| Frame.FrameBreathes | src/components/chrono-select.tsx:142-148 | outside the race and result branches the phase advances by 0.06 in COUNTDOWN and 0.02 otherwise, and only phase and size change |
| Frame.FrameRanksAdvance | src/components/chrono-select.tsx:155-171 | the finishers of the frame, unranked before, get the ranks after the ones already given, in finish order; every other rank stays |
| Frame.FrameNewRanks | src/components/chrono-select.tsx:160-167 | each finisher of the frame was unranked and gets (already ranked) + 1 + its place in the finish order |
| Frame.FrameOldRanks | src/components/chrono-select.tsx:160-167 | every player outside the finish order keeps its rank |
| Frame.RanksAdvanceCount | src/components/chrono-select.tsx:160-170 | the ranked set grows by exactly the new finishers, which were not ranked before |
| Frame.RanksAdvanceConsecutive | src/components/chrono-select.tsx:160-170 | if the ranks were 1..k without repeats, after the frame they are 1..k' without repeats |
| Frame.FrameRankedIds | src/components/chrono-select.tsx:155-171 | the frame's ranked players are the previously ranked ones plus this frame's finishers |
| Frame.FrameRanksConsecutive | src/components/chrono-select.tsx:155-171 | a frame keeps the assigned ranks exactly 1..k, each used once |
| Frame.SameRanksConsecutive | src/components/chrono-select.tsx:466-504 | a registry with the same keys and ranks as one whose ranks are 1..k keeps that property (the lineup and the start speeds touch no rank) |
| Frame.AddUnrankedConsecutive | src/components/chrono-select.tsx:276-285 | adding an unranked player under a new key keeps the ranks 1..k |
| Frame.RanksAdvanceAllRanked | src/components/chrono-select.tsx:170-173 | finishedRacerCount equals the size if and only if every player is ranked |
| Frame.FrameSchedule | src/components/chrono-select.tsx:173-175 | RACE_FINISH is scheduled if and only if the state is RACING, someone raced this frame, there are players, and all of them are ranked |
| Frame.RankFinishers | src/components/chrono-select.tsx:160-167 | the rank loop keeps every key, never changes a set rank, touches only finishers, and gives the j-th finisher rank finishedRacerCount + 1 + j |
| Frame.AnimateFrame | src/components/chrono-select.tsx:104-178 | the frame's three loops compute Frame with finishers sorted by crossing point (Finding 2, corrected) |
| Frame.TwoFinishersPushed | src/components/chrono-select.tsx:122-141 | in the two-player example, the players cross at 62 and 62.5 and are pushed snapped to 65 and 63 |
| Frame.SnappedSortMisranks | src/components/chrono-select.tsx:137-158 | sorting the snapped records ranks the player that crossed second first; sorting by crossing point ranks them as they crossed (Finding 2, as written) |
| Session.Rendered | src/components/chrono-select.tsx:400-509 | a render re-runs the effects whose dependencies changed: a state change restarts the interval exactly in COUNTDOWN, arms the finish reset exactly in RACE_FINISH, and cancels the result reset; a change of state or count re-arms the pre-countdown exactly when its condition holds (Finding 3, corrected: the effects are keyed on gameState, not on the sound callbacks) |
| Session.RenderedUnbound | src/components/chrono-select.tsx:400-509 | a render that ends in a state no timer is bound to leaves the pre-countdown, the interval and both reset timers cancelled |
| Session.RearmedTimerNeverFires | src/components/chrono-select.tsx:426-456 | a timer whose effect re-runs on every frame, with frames less than a period apart, never fires (Finding 3, as written) |
| Session.KeptTimerFires | src/components/chrono-select.tsx:436-449 | a timer that frames leave alone fires once per full period of elapsed time: n firings take n periods and the next is less than a period away (Finding 3, corrected) |
| Session.EmptyRaceRegistry | src/components/chrono-select.tsx:603-607 | an empty registry meets the race-mode registry invariant, so the mode may switch to race |
| Session.AddKeepsRaceRegistry | src/components/chrono-select.tsx:276-285 | the player a creation timer adds under the counter's next id keeps the ranks 1..k and every key below the counter |
| Session.SameKeysRaceRegistry | src/components/chrono-select.tsx:466-504 | the lineup and the start speeds keep the race-mode registry invariant |
| Session.FrameKeepsRaceRegistry | src/components/chrono-select.tsx:155-171 | a frame keeps the race-mode registry invariant |
| Session.ChronoSelect.constructor | src/components/chrono-select.tsx:66-83 | the first render: no players, IDLE, countdown 3, chooser mode, id counter 0, no timers |
| Session.ChronoSelect.ResetGame | src/components/chrono-select.tsx:88-100 | empty registry, IDLE, ids from 0, every held timer handle cancelled; the whole new state is stated |
| Session.ChronoSelect.PointerDown | src/components/chrono-select.tsx:248-324 | the whole new state (PressedDown): in RESULT or RACE_FINISH a reset; in race mode a creation timer in IDLE or RACE_WAITING and nothing else; a full registry unchanged; otherwise the registry is AddContact of the new player, the state WAITING and the timers the render's; counter, countdown, mode and mouse flag kept |
| Session.ChronoSelect.AddTouch | src/components/chrono-select.tsx:298-322 | the new player has a distinct hue and saturation 90 in chooser mode, and hue 0 and saturation 0 in team-split mode; the state becomes WAITING and the timers are the render's; the whole new state is stated |
| Session.ChronoSelect.PointerMove | src/components/chrono-select.tsx:326-336 | disabled in race mode; otherwise only x and y of an existing id change; the whole new state is stated |
| Session.ChronoSelect.PointerUp | src/components/chrono-select.tsx:338-353 | the whole new state (LiftedUp): the creation timer is cancelled; ignored in RESULT and race mode; otherwise the registry is RemoveContact of id, IDLE follows when it is empty, and the timers are the render's; counter, countdown, mode and mouse flag kept |
| Session.ChronoSelect.MouseDown | src/components/chrono-select.tsx:356-360 | only the main button counts; it sets the mouse flag and leaves the state PressedDown gives for the mouse contact |
| Session.ChronoSelect.MouseMove | src/components/chrono-select.tsx:362-365 | the mouse contact moves only while held and outside race mode; the whole new state is stated |
| Session.ChronoSelect.MouseUp | src/components/chrono-select.tsx:367-371 | a held mouse is released once, clearing the flag and leaving the state LiftedUp gives for the mouse contact; otherwise nothing changes |
| Session.ChronoSelect.ContextMenu | src/components/chrono-select.tsx:392-395 | a right click resets a game that has players and does nothing otherwise; the whole new state is stated |
| Session.ChronoSelect.ChangeMode | src/components/chrono-select.tsx:603-607 | the mode changes only while nobody touches; the whole new state is stated |
| Session.ChronoSelect.PreCountdownFires | src/components/chrono-select.tsx:403-407 | the countdown starts at 3 with its interval running and no other state-bound timer pending; the whole new state is stated |
| Session.ChronoSelect.CountdownTick | src/components/chrono-select.tsx:436-449 | the count drops by one; the tick that would reach 0 stops the interval and enters RESULT, which resolves the round and keeps a reset timer pending (Finding 1, corrected), or resets an empty game; the whole new state is stated in each case |
| Session.ChronoSelect.ResolveRound | src/components/chrono-select.tsx:513-572 | the guard and the three branches of the RESULT effect: a reset on an empty map, the team split or the chooser round, then a pending reset timer |
| Session.ChronoSelect.ResultResetFires | src/components/chrono-select.tsx:569 | the RESULT reset timer resets the game; the whole new state is stated |
| Session.ChronoSelect.CreationTimerFires | src/components/chrono-select.tsx:258-289 | RACE_WAITING, the id counter advances even when the registry is full, a player with a distinct hue is added if there is room, the race start timer is re-armed and no state-bound timer is pending; the whole new state is stated |
| Session.ChronoSelect.RaceStartFires | src/components/chrono-select.tsx:460-491 | with players, RACE_READY lines them up and arms the ready timer; the handle of a still pending one is lost and that timer stays pending; the whole new state is stated |
| Session.ChronoSelect.RaceReadyFires | src/components/chrono-select.tsx:492-505 | RACING with every start speed in [0.5, 1.5), and the tracked ready timer cancelled; the whole new state is stated |
| Session.ChronoSelect.AnimationFrame | src/components/chrono-select.tsx:103-181 | the registry becomes the frame's result with finishers sorted by crossing point (Finding 2, corrected), and a RACE_FINISH timeout is added exactly when the frame schedules one; the whole new state is stated |
| Session.ChronoSelect.RaceFinishFires | src/components/chrono-select.tsx:506-509 | RACE_FINISH, with its reset timer armed; the whole new state is stated |
| Session.ChronoSelect.FinishResetFires | src/components/chrono-select.tsx:507 | the RACE_FINISH reset timer resets the game; the whole new state is stated |

Every session method keeps `ChronoSelect.Invariant`:
- the registry is valid and holds at most MAX_TOUCHES players;
- the countdown interval is pending exactly in COUNTDOWN, where 1 <= countdown <= 3;
- the pre-countdown timeout is pending exactly in WAITING, outside race mode, with at least two players;
- the RACE_FINISH reset timer is pending exactly in RACE_FINISH;
- the RESULT reset timer is pending only in RESULT;
- the tracked RACE_READY timer is never pending during a race;
- in race mode, the ranks given so far are 1..k for the k ranked players, each used once, and every key is an id the counter has already handed out.

## Left out

- Canvas drawing, canvas resizing and `requestAnimationFrame`: presentation and browser scheduling. `AnimationFrame` is one event per frame.
- The size computed from `Math.sin`: `sin` is an uninterpreted function parameter. The model has no floating point: numbers are `real`.
- Sound (`useSound`, Tone.js) and `navigator.vibrate`: output only.
- The sound callbacks are new functions on every render (`src/hooks/use-sound.ts:56-88` builds them without memoisation), and `animate` renders on every frame. As written, the countdown, race and RESULT effects therefore re-run after every frame (Finding 3). The model keys these effects on gameState, as intended. Session.Rendered, Session.ChronoSelect.CountdownTick, Session.ChronoSelect.RaceStartFires, Session.ChronoSelect.RaceReadyFires, Session.ChronoSelect.RaceFinishFires and Session.ChronoSelect.FinishResetFires rely on this. Besides the timers of Finding 3, the per-frame re-runs also do the following, and the model leaves them out:
  - in RACE_READY, the players are lined up again and a new RACE_READY timeout is armed each frame; the earlier timeouts keep running;
  - in RACING, every start speed is drawn again each frame.
- Session.ChronoSelect.RaceStartFires: arms one RACE_READY timeout, not one per frame (see the line above).
- The inactivity prompt, the settings popover and the JSX: UI only.
- `public/sw.js`, `src/app/page.tsx`, `src/components/service-worker-registrar.tsx` and `src/components/finger-prompt-animation.tsx`: not part of the round engine.
- Touch batches: `handleTouchStart`, `handleTouchMove` and `handleTouchEnd` loop over `changedTouches` and call the pointer handlers inside one React batch. Those calls see the gameState of the last render. The model runs one pointer event per render.
- Session.ChronoSelect.CreationTimerFires: an earlier creation timer for the same contact has its handle overwritten in `playerCreationTimers` (line 291). That timer still fires, but the model keeps at most one creation timer per contact.
- Session.ChronoSelect.PreCountdownFires: the callback tests the `players` captured when the effect ran. The model tests the current size instead. The effect re-runs on every change of the count, so the two are equal.
- Frame.SortFinishers: `Array.prototype.sort` is modelled as an insertion sort. `Frame.SortFinishersStable` shows that it is stable, as the ECMAScript sort is required to be.
- The `Math.random()` draws of a frame are one `Draw` per player: the draw against 5% and the boost draw. That boost draw is taken only when the first draw is below 0.05.
- `window.innerWidth`/`innerHeight` are the `width` and `height` parameters of `LineUp`.
- The `Player` type is taken from the fields built at `src/components/chrono-select.tsx:308-318`, because `src/lib/types.ts` does not declare it.

## Findings

| source | as written | input that shows it | evidently intended | confidence | as-written member | corrected member |
|---|---|---|---|---|---|---|
| src/components/chrono-select.tsx:513-572 | the RESULT effect depends on `players`, and its own `setPlayers` re-runs it: the cleanup cancels the 10 s reset timeout, and the re-run returns at the `shouldRun` guard without arming a new one | any chooser or team-split round with n >= 1 players: after resolution every player has an outcome, so no reset timer is pending | RESULT resets the game by itself after 10 s | not executed | Resolve.ResolvedRoundDropsReset | Session.ChronoSelect.CountdownTick |
| src/components/chrono-select.tsx:137-158 | finishers are sorted by `y` after `y` was set to `size / 2`, so the sort compares sizes, not where each player crossed the line | player 0 (size 130, y 66, vy 4) crosses at 62 and player 1 (size 126, y 63.5, vy 1) crosses at 62.5, in the same frame; the snapped sort ranks player 1 first | rank by the furthest crossing point, the lowest y before the snap | not executed | Frame.SnappedSortMisranks | Frame.AnimateFrame |
| src/components/chrono-select.tsx:426-456 | the countdown effect lists `playTick`, and the race effect (lines 459-511) lists the other sound callbacks. `useSound` returns new callbacks on every render (`src/hooks/use-sound.ts:56-88`), and every animation frame renders, because `setPlayers` returns a new `Map`. Each frame therefore clears the countdown interval and the RACE_FINISH reset timeout and arms them again | any COUNTDOWN with frames less than 1000 ms apart: the interval never ticks, the count stays at 3 and RESULT is never reached; in RACE_FINISH the 10 s reset never fires | the effects re-run only when gameState changes, so the count falls once a second and RACE_FINISH resets after 10 s | not executed | Session.RearmedTimerNeverFires | Session.KeptTimerFires |
