// The ChronoSelect component as a state machine: its React state (players,
// gameState, countdown, gameMode), its refs (nextPlayerId, isMouseDown and the
// timer handles) and the event handlers and timer callbacks that change them.
//
// A timer is a pending flag (or a count, for timeouts whose handle is lost);
// its callback is a method that may run only while it is pending. A React
// render runs the effects whose dependencies changed; the model keys them on
// gameState and on the player count, and each handler ends with that step.
// The sound callbacks some effects also list are new on every render, which
// as written re-runs those effects every frame (see RearmedTimerNeverFires);
// the model follows the evident intent. Math.random() draws and the window
// size are arguments.

module Session {
  import opened Types
  import opened Contacts
  import opened RandomUtil
  import opened Resolve
  import opened Frame

  /** MOUSE_IDENTIFIER: the contact id the mouse uses. */
  const MouseIdentifier: int := -1

  /** The saturation of a chooser, race or team player; team-split contacts start grey. */
  const FullSaturation: real := 90.0

  /**
   * The timers of the component.
   *   preCountdown       PRE_COUNTDOWN_DELAY timeout of the pre-countdown effect
   *   countdownInterval  the one-second interval of the countdown effect
   *   raceStart          RACE_START_DELAY timeout armed when a race player is created
   *   raceReady          RACE_READY_DELAY timeout whose handle is kept in raceReadyTimerId
   *   raceReadyStray     RACE_READY_DELAY timeouts whose handle was overwritten
   *   creations          PLAYER_CREATION_DELAY timeouts, by contact id, with the contact's position
   *   resultReset        the 10 s reset timeout of the RESULT effect
   *   finishReset        the 10 s reset timeout of the RACE_FINISH effect
   *   raceFinish         500 ms timeouts set by animate, whose handles are never kept
   */
  datatype Timers = Timers(
    preCountdown: bool,
    countdownInterval: bool,
    raceStart: bool,
    raceReady: bool,
    raceReadyStray: nat,
    creations: map<int, (real, real)>,
    resultReset: bool,
    finishReset: bool,
    raceFinish: nat)

  const NoTimers: Timers := Timers(false, false, false, false, 0, map[], false, false, 0)

  /**
   * The timers after resetGame: every handle it holds is cleared; RACE_READY
   * timeouts whose handle was overwritten and the RACE_FINISH timeouts of
   * animate were never held, so they stay pending.
   */
  function AfterReset(t: Timers): Timers {
    NoTimers.(raceReadyStray := t.raceReadyStray, raceFinish := t.raceFinish)
  }

  /** The condition under which the pre-countdown effect arms its timeout. */
  predicate PreCountdownArmed(mode: Mode, count: nat, state: GameState) {
    mode != Race && count >= 2 && state == Waiting
  }

  /**
   * The timers after a render whose effects saw prevState and prevCount last
   * time: a change of gameState runs the cleanups of the countdown, race and
   * RESULT effects and the bodies that need no draws (the interval starts on
   * COUNTDOWN, the reset timeout on RACE_FINISH); a change of gameState or of
   * the player count re-runs the pre-countdown effect.
   */
  function Rendered(t: Timers, prevState: GameState, prevCount: nat, state: GameState, count: nat, mode: Mode): (r: Timers)
    ensures r.raceStart == t.raceStart && r.raceReady == t.raceReady && r.raceReadyStray == t.raceReadyStray
    ensures r.creations == t.creations && r.raceFinish == t.raceFinish
    ensures state == prevState && count == prevCount ==> r == t
    ensures state != prevState ==>
      && (r.countdownInterval <==> state == Countdown)
      && (r.finishReset <==> state == RaceFinish)
      && !r.resultReset
    ensures state != prevState || count != prevCount ==> (r.preCountdown <==> PreCountdownArmed(mode, count, state))
  {
    var t1 := if state != prevState
      then t.(countdownInterval := state == Countdown, resultReset := false, finishReset := state == RaceFinish)
      else t;
    if state != prevState || count != prevCount then t1.(preCountdown := PreCountdownArmed(mode, count, state)) else t1
  }

  /**
   * A render that leaves the component in a state no timer is bound to (not
   * COUNTDOWN, WAITING or RACE_FINISH) leaves every state-bound timer
   * cancelled, provided none was pending if the state did not change.
   */
  lemma RenderedUnbound(t: Timers, prevState: GameState, prevCount: nat, state: GameState, count: nat, mode: Mode)
    requires state !in {Countdown, Waiting, RaceFinish}
    requires state == prevState ==> !t.preCountdown && !t.countdownInterval && !t.resultReset && !t.finishReset
    ensures Rendered(t, prevState, prevCount, state, count, mode)
      == t.(preCountdown := false, countdownInterval := false, resultReset := false, finishReset := false)
  {
  }

  // ---------------------------------------------------------------------------
  // The registry in race mode

  /**
   * In race mode every player was created by a creation timeout under an id
   * the counter handed out, and the ranks given so far are consecutive.
   */
  ghost predicate RaceRegistry(c: Contacts, nextId: nat) {
    && RanksConsecutive(c)
    && (forall k :: k in c.entries ==> 0 <= k < nextId)
  }

  /** The registry holds to RaceRegistry whenever the mode is race. */
  ghost predicate RaceRegistryIn(mode: Mode, c: Contacts, nextId: nat) {
    mode == Race ==> RaceRegistry(c, nextId)
  }

  lemma EmptyRaceRegistry(c: Contacts, nextId: nat, mode: Mode)
    requires Valid(c) && Size(c) == 0
    ensures RaceRegistryIn(mode, c, nextId)
  {
    SizeIsKeyCount(c);
    assert c.entries.Keys == {};
  }

  /** Adding the player with the counter's next id keeps the registry a race registry. */
  lemma AddKeepsRaceRegistry(c: Contacts, r: Contacts, nextId: nat, mode: Mode)
    requires Valid(c) && RaceRegistryIn(mode, c, nextId)
    requires Size(c) >= MaxTouches ==> r == c
    requires Size(c) < MaxTouches ==>
      && r.entries.Keys == c.entries.Keys + {nextId} && r.entries[nextId].rank == None
      && (forall k :: k in c.entries && k != nextId ==> r.entries[k] == c.entries[k])
    ensures RaceRegistryIn(mode, r, nextId + 1)
  {
    if mode == Race && Size(c) < MaxTouches {
      AddUnrankedConsecutive(c, r, nextId);
    }
  }

  /** A registry with the same keys and ranks is a race registry as well. */
  lemma SameKeysRaceRegistry(c: Contacts, r: Contacts, nextId: nat, mode: Mode)
    requires RaceRegistryIn(mode, c, nextId)
    requires r.entries.Keys == c.entries.Keys
    requires forall id :: id in c.entries ==> r.entries[id].rank == c.entries[id].rank
    ensures RaceRegistryIn(mode, r, nextId)
  {
    if mode == Race {
      SameRanksConsecutive(c, r);
    }
  }

  /** A frame keeps a race registry. */
  lemma FrameKeepsRaceRegistry(c: Contacts, state: GameState, draws: map<int, Draw>, sin: real -> real, nextId: nat, mode: Mode)
    requires Valid(c) && DrawsCover(c, draws) && RaceRegistryIn(mode, c, nextId)
    ensures RaceRegistryIn(mode, Frame.Frame(c, state, draws, sin, CrossingY).players, nextId)
  {
    if mode == Race {
      FrameRanksConsecutive(c, state, draws, sin, CrossingY);
    }
  }

  // ---------------------------------------------------------------------------
  // Effects that list the sound callbacks

  /** The total of a sequence of gaps between animation frames, in ms. */
  function Sum(gaps: seq<nat>): nat {
    if gaps == [] then 0 else gaps[0] + Sum(gaps[1..])
  }

  /**
   * How many times a timer of period d fires (an interval every d ms; a
   * timeout fires at all exactly when the count is positive) when it was armed
   * age ms before the first of the given frame gaps, each shorter than d.
   * rearm says whether the render after every frame re-runs the effect that
   * owns the timer, whose cleanup clears it and whose body arms it anew.
   */
  function Firings(age: nat, gaps: seq<nat>, d: nat, rearm: bool): nat
    requires age < d
    requires forall i :: 0 <= i < |gaps| ==> gaps[i] < d
    decreases |gaps|
  {
    if gaps == [] then 0
    else
      var elapsed := age + gaps[0];
      var fired := if elapsed >= d then 1 else 0;
      var carry := if elapsed >= d then elapsed - d else elapsed;
      fired + Firings(if rearm then 0 else carry, gaps[1..], d, rearm)
  }

  /**
   * As written: the countdown effect (period 1000 ms) and the race effect in
   * RACE_FINISH (the 10 s reset) list the sound callbacks of useSound, which
   * are new on every render, and animate renders on every frame. Each frame
   * therefore clears the timer and arms it again, and while frames come less
   * than a period apart it never fires: the count stays at 3 and the finish
   * never resets by itself.
   */
  lemma {:induction false} RearmedTimerNeverFires(gaps: seq<nat>, d: nat)
    requires d > 0
    requires forall i :: 0 <= i < |gaps| ==> gaps[i] < d
    ensures Firings(0, gaps, d, true) == 0
    decreases |gaps|
  {
    if gaps != [] {
      RearmedTimerNeverFires(gaps[1..], d);
    }
  }

  /**
   * As intended (and as the model's Rendered keys the effects, on gameState
   * alone): a timer that frames leave alone fires once per full period of
   * elapsed time, so n firings take n periods and the next one is less than
   * a period away.
   */
  lemma {:induction false} KeptTimerFires(age: nat, gaps: seq<nat>, d: nat)
    requires age < d
    requires forall i :: 0 <= i < |gaps| ==> gaps[i] < d
    ensures Firings(age, gaps, d, false) * d <= age + Sum(gaps) < Firings(age, gaps, d, false) * d + d
    decreases |gaps|
  {
    if gaps != [] {
      var elapsed := age + gaps[0];
      var carry := if elapsed >= d then elapsed - d else elapsed;
      var n := Firings(carry, gaps[1..], d, false);
      KeptTimerFires(carry, gaps[1..], d);
      assert Sum(gaps) == gaps[0] + Sum(gaps[1..]);
      if elapsed >= d {
        assert (n + 1) * d == n * d + d;
      }
    }
  }

  class ChronoSelect {
    var players: Contacts
    var gameState: GameState
    var countdown: int
    var gameMode: Mode
    var nextPlayerId: nat
    var isMouseDown: bool
    var timers: Timers

    /**
     * The registry is valid and within MAX_TOUCHES, and the timers the
     * effects tie to a state are pending exactly while it holds: the interval
     * in COUNTDOWN, which has 1..3 steps left; the pre-countdown timeout in
     * WAITING outside race mode with two players or more; the RACE_FINISH
     * reset timeout in RACE_FINISH. The RESULT reset timeout is pending only
     * in RESULT, and the tracked RACE_READY timeout never during a race, since
     * entering RACING cancels it. In race mode the ranks handed out are
     * 1..k for the k ranked players, each once, and every key is an id the
     * counter has already handed out.
     */
    ghost predicate Invariant()
      reads this
    {
      && Valid(players) && Size(players) <= MaxTouches
      && (timers.countdownInterval <==> gameState == Countdown)
      && (gameState == Countdown ==> 1 <= countdown <= CountdownSeconds)
      && (timers.preCountdown <==> PreCountdownArmed(gameMode, Size(players), gameState))
      && (timers.resultReset ==> gameState == Result)
      && (timers.finishReset <==> gameState == RaceFinish)
      && (timers.raceReady ==> gameState != Racing)
      && RaceRegistryIn(gameMode, players, nextPlayerId)
    }

    /** The component's first render: no players, IDLE, chooser mode, no timers. */
    constructor ()
      ensures Invariant()
      ensures players == Empty && gameState == Idle && countdown == CountdownSeconds && gameMode == Chooser
      ensures nextPlayerId == 0 && !isMouseDown && timers == NoTimers
    {
      players := Empty;
      gameState := Idle;
      countdown := CountdownSeconds;
      gameMode := Chooser;
      nextPlayerId := 0;
      isMouseDown := false;
      timers := NoTimers;
    }

    /**
     * resetGame: an empty registry, IDLE, player ids from 0 again, and every
     * timer cancelled except those whose handles were never kept.
     */
    method ResetGame()
      modifies this
      ensures Invariant()
      ensures players == Empty && gameState == Idle && nextPlayerId == 0
      ensures timers == AfterReset(old(timers))
      ensures countdown == old(countdown) && gameMode == old(gameMode) && isMouseDown == old(isMouseDown)
    {
      players := Empty;
      gameState := Idle;
      nextPlayerId := 0;
      timers := AfterReset(timers);
    }

    /** The render after gameState or the player count may have changed; see Rendered. */
    method Render(prevState: GameState, prevCount: nat)
      modifies this
      ensures timers == Rendered(old(timers), prevState, prevCount, gameState, Size(players), gameMode)
      ensures countdown == if gameState != prevState && gameState == Countdown then CountdownSeconds else old(countdown)
      ensures players == old(players) && gameState == old(gameState) && gameMode == old(gameMode)
      ensures nextPlayerId == old(nextPlayerId) && isMouseDown == old(isMouseDown)
    {
      timers := Rendered(timers, prevState, prevCount, gameState, Size(players), gameMode);
      if gameState != prevState && gameState == Countdown {
        countdown := CountdownSeconds;
      }
    }

    // -------------------------------------------------------------------------
    // Pointer handlers

    /**
     * The state handlePointerDown(x, y, id) leaves, all of it except
     * isMouseDown, which it does not touch. In RESULT or RACE_FINISH a touch
     * resets the game. In race mode it only arms the creation timeout of this
     * contact, in IDLE or RACE_WAITING. Otherwise a full registry stays as it
     * is; if there is room, the key id is set to a new player (a distinct hue
     * and saturation 90 in chooser mode, hue 0 and saturation 0 in team-split
     * mode), the state becomes WAITING and the render follows.
     */
    twostate predicate PressedDown(x: real, y: real, id: int, hueDraws: seq<real>, phaseDraw: real)
      reads this`players, this`gameState, this`countdown, this`gameMode, this`nextPlayerId, this`timers
    {
      && Valid(old(players)) && MaxHueAttempts < |hueDraws|
      && gameMode == old(gameMode) && countdown == old(countdown)
      && (old(gameState) in {Result, RaceFinish} ==>
            && players == Empty && gameState == Idle && nextPlayerId == 0
            && timers == AfterReset(old(timers)))
      && (old(gameState) !in {Result, RaceFinish} && gameMode == Race ==>
            && players == old(players) && gameState == old(gameState) && nextPlayerId == old(nextPlayerId)
            && timers == (if old(gameState) in {Idle, RaceWaiting}
                          then old(timers).(creations := old(timers.creations)[id := (x, y)])
                          else old(timers)))
      && (old(gameState) !in {Result, RaceFinish} && gameMode != Race && Size(old(players)) >= MaxTouches ==>
            && players == old(players) && gameState == old(gameState) && nextPlayerId == old(nextPlayerId)
            && timers == old(timers))
      && (old(gameState) !in {Result, RaceFinish} && gameMode != Race && Size(old(players)) < MaxTouches ==>
            && players == AddContact(old(players), id, x, y,
                 if gameMode == Chooser then DistinctHue(Hues(Values(old(players))), hueDraws).0 else 0.0,
                 if gameMode == Chooser then FullSaturation else 0.0,
                 phaseDraw * TwoPi)
            && gameState == Waiting && nextPlayerId == old(nextPlayerId)
            && timers == Rendered(old(timers), old(gameState), Size(old(players)), Waiting, Size(players), gameMode))
    }

    /** handlePointerDown; the new state is PressedDown. */
    method PointerDown(x: real, y: real, id: int, hueDraws: seq<real>, phaseDraw: real)
      requires Invariant() && MaxHueAttempts < |hueDraws|
      modifies this
      ensures Invariant()
      ensures PressedDown(x, y, id, hueDraws, phaseDraw)
      ensures isMouseDown == old(isMouseDown)
    {
      if gameState == Result || gameState == RaceFinish {
        ResetGame();
        return;
      }
      if gameMode == Race {
        if gameState == Idle || gameState == RaceWaiting {
          timers := timers.(creations := timers.creations[id := (x, y)]);
        }
        return;
      }
      if Size(players) >= MaxTouches {
        return;
      }
      AddTouch(x, y, id, hueDraws, phaseDraw);
    }

    /**
     * The player-creating updater of handlePointerDown outside race mode,
     * with room left: the key id gets a new player, the state becomes
     * WAITING, and the render re-runs the effects keyed on the state and
     * the count.
     */
    method AddTouch(x: real, y: real, id: int, hueDraws: seq<real>, phaseDraw: real)
      requires Invariant() && MaxHueAttempts < |hueDraws|
      requires gameMode != Race && gameState !in {Result, RaceFinish} && Size(players) < MaxTouches
      modifies this
      ensures Invariant()
      ensures players == AddContact(old(players), id, x, y,
             if gameMode == Chooser then DistinctHue(Hues(Values(old(players))), hueDraws).0 else 0.0,
             if gameMode == Chooser then FullSaturation else 0.0,
             phaseDraw * TwoPi)
      ensures gameState == Waiting
      ensures timers == Rendered(old(timers), old(gameState), Size(old(players)), Waiting, Size(players), gameMode)
      ensures countdown == old(countdown)
      ensures gameMode == old(gameMode) && isMouseDown == old(isMouseDown) && nextPlayerId == old(nextPlayerId)
    {
      var prevState, prevCount := gameState, Size(players);
      var hue, saturation := 0.0, 0.0;
      if gameMode == Chooser {
        var attempts;
        hue, attempts := GetDistinctHue(Hues(Values(players)), hueDraws);
        saturation := FullSaturation;
      }
      players := AddContact(players, id, x, y, hue, saturation, phaseDraw * TwoPi);
      gameState := Waiting;
      Render(prevState, prevCount);
    }

    /** handlePointerMove: outside race mode only x and y of an existing entry change. */
    method PointerMove(x: real, y: real, id: int)
      requires Invariant()
      modifies this
      ensures Invariant()
      ensures gameMode == Race ==> players == old(players)
      ensures gameMode != Race ==> players == MoveContact(old(players), id, x, y)
      ensures players.order == old(players).order && players.entries.Keys == old(players).entries.Keys
      ensures id !in old(players).entries ==> players == old(players)
      ensures forall k :: k in players.entries && k != id ==> players.entries[k] == old(players).entries[k]
      ensures gameState == old(gameState) && timers == old(timers) && countdown == old(countdown)
      ensures gameMode == old(gameMode) && nextPlayerId == old(nextPlayerId) && isMouseDown == old(isMouseDown)
    {
      if gameMode == Race {
        return;
      }
      players := MoveContact(players, id, x, y);
    }

    /**
     * The state handlePointerUp(id) leaves, all of it except isMouseDown,
     * which it does not touch: the contact's pending creation is cancelled;
     * then, in RESULT or race mode, nothing else happens; otherwise the
     * entry id is deleted, an empty registry sends the state to IDLE, and the
     * render follows.
     */
    twostate predicate LiftedUp(id: int)
      reads this`players, this`gameState, this`countdown, this`gameMode, this`nextPlayerId, this`timers
    {
      && Valid(old(players))
      && gameMode == old(gameMode) && nextPlayerId == old(nextPlayerId) && countdown == old(countdown)
      && (old(gameState) == Result || gameMode == Race ==>
            && players == old(players) && gameState == old(gameState)
            && timers == old(timers).(creations := old(timers.creations) - {id}))
      && (old(gameState) != Result && gameMode != Race ==>
            && players == RemoveContact(old(players), id)
            && gameState == (if Size(players) == 0 then Idle else old(gameState))
            && timers == Rendered(old(timers).(creations := old(timers.creations) - {id}),
                                  old(gameState), Size(old(players)), gameState, Size(players), gameMode))
    }

    /** handlePointerUp; the new state is LiftedUp. */
    method PointerUp(id: int)
      requires Invariant()
      modifies this
      ensures Invariant()
      ensures LiftedUp(id)
      ensures isMouseDown == old(isMouseDown)
    {
      timers := timers.(creations := timers.creations - {id});
      if gameState == Result || gameMode == Race {
        return;
      }
      var prevState, prevCount := gameState, Size(players);
      players := RemoveContact(players, id);
      if Size(players) == 0 {
        gameState := Idle;
      }
      Render(prevState, prevCount);
    }

    /**
     * handleMouseDown: only the main button counts; it marks the mouse as
     * held and presses the mouse contact. (The flag is set after the press
     * here; the press neither reads nor writes it, so the order is immaterial.)
     */
    method MouseDown(button: int, x: real, y: real, hueDraws: seq<real>, phaseDraw: real)
      requires Invariant() && MaxHueAttempts < |hueDraws|
      modifies this
      ensures Invariant()
      ensures button != 0 ==> unchanged(this)
      ensures button == 0 ==> isMouseDown && PressedDown(x, y, MouseIdentifier, hueDraws, phaseDraw)
    {
      if button != 0 {
        return;
      }
      PointerDown(x, y, MouseIdentifier, hueDraws, phaseDraw);
      isMouseDown := true;
    }

    /** handleMouseMove: moves the mouse contact while the button is held, outside race mode. */
    method MouseMove(x: real, y: real)
      requires Invariant()
      modifies this
      ensures Invariant()
      ensures players == if old(isMouseDown) && gameMode != Race then MoveContact(old(players), MouseIdentifier, x, y)
                         else old(players)
      ensures gameState == old(gameState) && timers == old(timers) && countdown == old(countdown)
      ensures gameMode == old(gameMode) && nextPlayerId == old(nextPlayerId) && isMouseDown == old(isMouseDown)
    {
      if !isMouseDown || gameMode == Race {
        return;
      }
      PointerMove(x, y, MouseIdentifier);
    }

    /**
     * handleMouseUp (also onMouseLeave): releases a held mouse once and lifts
     * its contact. (The flag is cleared after the lift here; the lift neither
     * reads nor writes it.)
     */
    method MouseUp()
      requires Invariant()
      modifies this
      ensures Invariant()
      ensures !old(isMouseDown) ==> unchanged(this)
      ensures old(isMouseDown) ==> !isMouseDown && LiftedUp(MouseIdentifier)
    {
      if !isMouseDown {
        return;
      }
      PointerUp(MouseIdentifier);
      isMouseDown := false;
    }

    /** handleContextMenu: a right click resets a game that has players. */
    method ContextMenu()
      requires Invariant()
      modifies this
      ensures Invariant()
      ensures Size(old(players)) == 0 ==> unchanged(this)
      ensures Size(old(players)) > 0 ==>
        players == Empty && gameState == Idle && nextPlayerId == 0
        && timers == AfterReset(old(timers))
      ensures countdown == old(countdown) && gameMode == old(gameMode) && isMouseDown == old(isMouseDown)
    {
      if Size(players) > 0 {
        ResetGame();
      }
    }

    /**
     * The mode radio group: the mode can be changed only while nobody is
     * touching; the pre-countdown effect then re-runs and, with no players,
     * leaves its timeout cancelled.
     */
    method ChangeMode(mode: Mode)
      requires Invariant()
      modifies this
      ensures Invariant()
      ensures Size(players) == 0 ==> gameMode == mode
      ensures Size(players) > 0 ==> gameMode == old(gameMode)
      ensures Size(players) == 0 && mode != old(gameMode) ==> timers == old(timers).(preCountdown := false)
      ensures Size(players) > 0 || mode == old(gameMode) ==> timers == old(timers)
      ensures players == old(players) && gameState == old(gameState) && countdown == old(countdown)
      ensures nextPlayerId == old(nextPlayerId) && isMouseDown == old(isMouseDown)
    {
      if Size(players) == 0 && mode != gameMode {
        EmptyRaceRegistry(players, nextPlayerId, mode);
        gameMode := mode;
        timers := timers.(preCountdown := false);
      }
    }

    // -------------------------------------------------------------------------
    // Chooser and team-split rounds

    /**
     * The pre-countdown timeout fires: with two players or more (which the
     * effect established when it armed the timeout) the countdown begins at
     * COUNTDOWN_SECONDS.
     */
    method PreCountdownFires()
      requires Invariant() && timers.preCountdown
      modifies this
      ensures Invariant()
      ensures gameState == Countdown && countdown == CountdownSeconds
      ensures timers == old(timers).(preCountdown := false, countdownInterval := true,
                                     resultReset := false, finishReset := false)
      ensures players == old(players) && gameMode == old(gameMode)
      ensures nextPlayerId == old(nextPlayerId) && isMouseDown == old(isMouseDown)
    {
      timers := timers.(preCountdown := false);
      if Size(players) >= 2 {
        var prevState, prevCount := gameState, Size(players);
        gameState := Countdown;
        Render(prevState, prevCount);
      }
    }

    /**
     * One tick of the countdown interval: the count goes down by one; the
     * tick that would reach 0 stops the interval, sets the count to 0 and
     * enters RESULT, where the RESULT effect resolves the round and arms its
     * reset timeout (or resets, with no players).
     */
    method CountdownTick(shuffleDraws: seq<real>, hueDrawsA: seq<real>, hueDrawsB: seq<real>)
      requires Invariant() && timers.countdownInterval
      requires MaxTouches <= |shuffleDraws| && AllSamples(shuffleDraws)
      requires MaxHueAttempts < |hueDrawsA| && MaxHueAttempts < |hueDrawsB|
      modifies this
      ensures Invariant()
      ensures countdown == old(countdown) - 1
      ensures gameMode == old(gameMode) && isMouseDown == old(isMouseDown)
      ensures old(countdown) > 1 ==>
        && gameState == Countdown && timers == old(timers)
        && players == old(players) && nextPlayerId == old(nextPlayerId)
      ensures old(countdown) == 1 && (gameMode == Race || !ShouldRun(old(players))) ==>
        && gameState == Result && players == old(players) && nextPlayerId == old(nextPlayerId)
        && timers == old(timers).(countdownInterval := false)
      ensures old(countdown) == 1 && gameMode != Race && ShouldRun(old(players)) && Size(old(players)) > 0 ==>
        && gameState == Result && nextPlayerId == old(nextPlayerId)
        && timers == old(timers).(countdownInterval := false, resultReset := true)
        && (gameMode == Chooser ==> players == ChooserRound(old(players), shuffleDraws))
        && (gameMode == TeamSplit ==>
              var hueA := DistinctHue([], hueDrawsA).0;
              players == TeamSplitRound(old(players), shuffleDraws, hueA, DistinctHue([hueA], hueDrawsB).0))
      ensures old(countdown) == 1 && gameMode != Race && Size(old(players)) == 0 ==>
        && players == Empty && gameState == Idle && nextPlayerId == 0
        && timers == AfterReset(old(timers))
    {
      var newCount := countdown - 1;
      if newCount > 0 {
        countdown := newCount;
        return;
      }
      countdown := 0;
      timers := timers.(countdownInterval := false);
      var prevState, prevCount := gameState, Size(players);
      gameState := Result;
      Render(prevState, prevCount);
      ResolveRound(shuffleDraws, hueDrawsA, hueDrawsB);
    }

    /**
     * The RESULT effect on entering RESULT outside race mode, with its guard
     * open: no players means resetGame; otherwise the round is resolved (a
     * shuffle, then a split at ceil(n/2) with two distinct team hues, or the
     * head of the shuffle as the one winner) and the 10 s reset timeout is
     * armed and kept until it fires or the state changes.
     */
    method ResolveRound(shuffleDraws: seq<real>, hueDrawsA: seq<real>, hueDrawsB: seq<real>)
      requires Valid(players) && Size(players) <= MaxTouches && gameState == Result
      requires MaxTouches <= |shuffleDraws| && AllSamples(shuffleDraws)
      requires MaxHueAttempts < |hueDrawsA| && MaxHueAttempts < |hueDrawsB|
      modifies this
      ensures Valid(players) && Size(players) <= MaxTouches
      ensures gameMode == Race || !ShouldRun(old(players)) ==> unchanged(this)
      ensures gameMode != Race && ShouldRun(old(players)) && Size(old(players)) == 0 ==>
        players == Empty && gameState == Idle && nextPlayerId == 0
        && timers == AfterReset(old(timers)) && countdown == old(countdown)
      ensures gameMode != Race && ShouldRun(old(players)) && Size(old(players)) > 0 ==>
        && gameState == Result && timers == old(timers).(resultReset := true)
        && countdown == old(countdown) && nextPlayerId == old(nextPlayerId)
        && (gameMode == Chooser ==> players == ChooserRound(old(players), shuffleDraws))
        && (gameMode == TeamSplit ==>
              var hueA := DistinctHue([], hueDrawsA).0;
              players == TeamSplitRound(old(players), shuffleDraws, hueA, DistinctHue([hueA], hueDrawsB).0))
      ensures gameMode == old(gameMode) && isMouseDown == old(isMouseDown)
    {
      if gameMode == Race || !ShouldRun(players) {
        return;
      }
      if Size(players) == 0 {
        ResetGame();
        return;
      }
      if gameMode == TeamSplit {
        var hueA, attemptsA := GetDistinctHue([], hueDrawsA);
        var hueB, attemptsB := GetDistinctHue([hueA], hueDrawsB);
        players := TeamSplitRound(players, shuffleDraws, hueA, hueB);
      } else {
        players := ChooserRound(players, shuffleDraws);
      }
      timers := timers.(resultReset := true);
    }

    /** The RESULT reset timeout fires. */
    method ResultResetFires()
      requires Invariant() && timers.resultReset
      modifies this
      ensures Invariant()
      ensures players == Empty && gameState == Idle && nextPlayerId == 0
      ensures timers == AfterReset(old(timers))
      ensures countdown == old(countdown) && gameMode == old(gameMode) && isMouseDown == old(isMouseDown)
    {
      ResetGame();
    }

    // -------------------------------------------------------------------------
    // Race rounds

    /**
     * A creation timeout fires: the state becomes RACE_WAITING, the race
     * start timeout is re-armed, and the next player id is taken (even when
     * the registry is full) for a player with a distinct hue, if there is
     * room. The render cancels nothing that is pending, since no timer bound
     * to a state can be pending on the way from IDLE or RACE_WAITING.
     */
    method CreationTimerFires(id: int, hueDraws: seq<real>, phaseDraw: real)
      requires Invariant() && id in timers.creations && MaxHueAttempts < |hueDraws|
      modifies this
      ensures Invariant()
      ensures nextPlayerId == old(nextPlayerId) + 1 && gameState == RaceWaiting
      ensures players == AddContact(old(players), old(nextPlayerId),
                                    old(timers.creations)[id].0, old(timers.creations)[id].1,
                                    DistinctHue(Hues(Values(old(players))), hueDraws).0, FullSaturation,
                                    phaseDraw * TwoPi)
      ensures timers == old(timers).(raceStart := true, creations := old(timers.creations) - {id},
                                     preCountdown := false, countdownInterval := false,
                                     resultReset := false, finishReset := false)
      ensures countdown == old(countdown) && gameMode == old(gameMode) && isMouseDown == old(isMouseDown)
    {
      var (x, y) := timers.creations[id];
      var prevState, prevCount := gameState, Size(players);
      gameState := RaceWaiting;
      var newId := nextPlayerId;
      nextPlayerId := nextPlayerId + 1;
      var hue, attempts := GetDistinctHue(Hues(Values(players)), hueDraws);
      ghost var before := players;
      players := AddContact(players, newId, x, y, hue, FullSaturation, phaseDraw * TwoPi);
      AddKeepsRaceRegistry(before, players, newId, gameMode);
      timers := timers.(raceStart := true, creations := timers.creations - {id});
      RenderedUnbound(timers, prevState, prevCount, gameState, Size(players), gameMode);
      Render(prevState, prevCount);
    }

    /**
     * The race start timeout fires: with players, the state becomes
     * RACE_READY, whose effect lines the players up along the bottom of a
     * width x height window and arms the RACE_READY timeout (the handle of
     * one still pending is overwritten, and that one keeps running).
     */
    method RaceStartFires(width: real, height: real)
      requires Invariant() && timers.raceStart
      modifies this
      ensures Invariant()
      ensures Size(old(players)) == 0 || old(gameState) == RaceReady ==>
        && players == old(players) && gameState == old(gameState)
        && timers == old(timers).(raceStart := false)
      ensures Size(old(players)) > 0 && old(gameState) != RaceReady ==>
        && gameState == RaceReady
        && players == LineUp(old(players), width, height)
        && timers == old(timers).(raceStart := false, raceReady := true,
             raceReadyStray := old(timers.raceReadyStray) + (if old(timers.raceReady) then 1 else 0),
             preCountdown := false, countdownInterval := false, resultReset := false, finishReset := false)
      ensures countdown == old(countdown) && gameMode == old(gameMode)
      ensures nextPlayerId == old(nextPlayerId) && isMouseDown == old(isMouseDown)
    {
      timers := timers.(raceStart := false);
      if Size(players) == 0 || gameState == RaceReady {
        return;
      }
      var prevState, prevCount := gameState, Size(players);
      gameState := RaceReady;
      RenderedUnbound(timers, prevState, prevCount, gameState, Size(players), gameMode);
      Render(prevState, prevCount);
      var stray := if timers.raceReady then timers.raceReadyStray + 1 else timers.raceReadyStray;
      ghost var before := players;
      players := LineUp(players, width, height);
      SameKeysRaceRegistry(before, players, nextPlayerId, gameMode);
      timers := timers.(raceReady := true, raceReadyStray := stray);
    }

    /**
     * A RACE_READY timeout fires (the tracked one, or one whose handle was
     * lost): the state becomes RACING, whose effect cancels the tracked
     * timeout and gives every player a start speed in [0.5, 1.5).
     */
    method RaceReadyFires(stray: bool, speedDraws: map<int, real>)
      requires Invariant()
      requires if stray then timers.raceReadyStray > 0 else timers.raceReady
      requires forall id :: id in players.entries ==> id in speedDraws && IsSample(speedDraws[id])
      modifies this
      ensures Invariant()
      ensures gameState == Racing
      ensures timers == old(timers).(raceReady := false,
                                     raceReadyStray := old(timers.raceReadyStray) - (if stray then 1 else 0),
                                     preCountdown := false, countdownInterval := false,
                                     resultReset := false, finishReset := false)
      ensures old(gameState) != Racing ==> players == StartVelocities(old(players), speedDraws)
      ensures old(gameState) == Racing ==> players == old(players)
      ensures forall id :: id in players.entries && old(gameState) != Racing ==> 0.5 <= players.entries[id].vy < 1.5
      ensures countdown == old(countdown) && gameMode == old(gameMode)
      ensures nextPlayerId == old(nextPlayerId) && isMouseDown == old(isMouseDown)
    {
      timers := if stray then timers.(raceReadyStray := timers.raceReadyStray - 1) else timers.(raceReady := false);
      if gameState == Racing {
        return;
      }
      var prevState, prevCount := gameState, Size(players);
      gameState := Racing;
      RenderedUnbound(timers, prevState, prevCount, gameState, Size(players), gameMode);
      Render(prevState, prevCount);
      StartVelocitiesRange(players, speedDraws);
      ghost var before := players;
      players := StartVelocities(players, speedDraws);
      SameKeysRaceRegistry(before, players, nextPlayerId, gameMode);
      timers := timers.(raceReady := false);
    }

    /**
     * One animation frame (the state half of animate): the registry becomes
     * the frame's result with finishers sorted by where they crossed the
     * line, and a RACE_FINISH timeout is added when the frame asks for one.
     */
    method AnimationFrame(draws: map<int, Draw>, sin: real -> real)
      requires Invariant() && DrawsCover(players, draws)
      modifies this
      ensures Invariant()
      ensures players == Frame.Frame(old(players), gameState, draws, sin, CrossingY).players
      ensures timers.raceFinish ==
        old(timers.raceFinish) + (if Frame.Frame(old(players), gameState, draws, sin, CrossingY).scheduleFinish then 1 else 0)
      ensures timers == old(timers).(raceFinish := timers.raceFinish)
      ensures gameState == old(gameState) && gameMode == old(gameMode) && countdown == old(countdown)
      ensures nextPlayerId == old(nextPlayerId) && isMouseDown == old(isMouseDown)
    {
      var next, scheduleFinish := AnimateFrame(players, gameState, draws, sin);
      FrameKeepsRaceRegistry(players, gameState, draws, sin, nextPlayerId, gameMode);
      players := next;
      if scheduleFinish {
        timers := timers.(raceFinish := timers.raceFinish + 1);
      }
    }

    /** A RACE_FINISH timeout fires: the state becomes RACE_FINISH, which arms its reset timeout. */
    method RaceFinishFires()
      requires Invariant() && timers.raceFinish > 0
      modifies this
      ensures Invariant()
      ensures gameState == RaceFinish
      ensures timers == old(timers).(raceFinish := old(timers.raceFinish) - 1, finishReset := true,
                                     preCountdown := false, countdownInterval := false, resultReset := false)
      ensures players == old(players) && gameMode == old(gameMode) && nextPlayerId == old(nextPlayerId)
      ensures countdown == old(countdown) && isMouseDown == old(isMouseDown)
    {
      timers := timers.(raceFinish := timers.raceFinish - 1);
      var prevState, prevCount := gameState, Size(players);
      gameState := RaceFinish;
      Render(prevState, prevCount);
    }

    /** The RACE_FINISH reset timeout fires. */
    method FinishResetFires()
      requires Invariant() && timers.finishReset
      modifies this
      ensures Invariant()
      ensures players == Empty && gameState == Idle && nextPlayerId == 0
      ensures timers == AfterReset(old(timers))
      ensures countdown == old(countdown) && gameMode == old(gameMode) && isMouseDown == old(isMouseDown)
    {
      ResetGame();
    }
  }
}
