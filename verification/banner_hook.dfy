/** The startup banner's hook (`useStartupBanner`) as a state machine. React's
    scheduling becomes explicit events: a commit runs the effects whose
    dependencies changed, a timer firing is an event, and so is the close click.
    `localStorage` is one boolean (the dismissal key is present or not). */
module StartupBannerHook {
  import opened Wrappers

  /** The number of statistics the rotation cycles through (the literal 4 of the
      rotation timer, matching the four entries of the default table). */
  const StatCount: nat := 4

  datatype Hook = Hook(
    isVisible: bool,
    currentStat: nat,
    wasDismissedBefore: bool,
    initialized: bool,          // isInitializedRef
    showTimer: bool,            // a show timeout is pending
    statTimer: bool,            // a rotation interval is registered
    timerEffectDep: Option<bool>, // the wasDismissedBefore the timer effect last ran with
    stored: bool)               // the dismissal key is in localStorage

  datatype Event =
    | Commit        // React commits a render: the init effect (guarded) and, when its dependency changed, the timer effect
    | StrictRemount // StrictMode's second invocation: every cleanup, then the committed render's effect bodies again
    | ShowFires     // the show timeout elapses
    | RotationTick  // the rotation interval elapses
    | Close         // `handleClose`
    | Unmount       // every cleanup

  /** The first render: hidden, first statistic, not dismissed, no timers. */
  function Initial(stored: bool): (h: Hook)
    ensures !h.isVisible && h.currentStat == 0 && !h.wasDismissedBefore
    ensures !h.showTimer && !h.statTimer && !h.initialized
    ensures h.stored == stored
  {
    Hook(false, 0, false, false, false, false, None, stored)
  }

  /** The rotation step `(prev + 1) % 4`. */
  function NextStat(i: nat): (j: nat)
    ensures j < StatCount
    ensures i + 1 < StatCount ==> j == i + 1
    ensures i + 1 == StatCount ==> j == 0
  {
    (i + 1) % StatCount
  }

  /** The body of the init effect: at most once, read the dismissal key. */
  function InitEffect(h: Hook): (g: Hook)
    ensures h.initialized ==> g == h
    ensures g.initialized
    ensures !h.initialized ==> g.wasDismissedBefore == h.stored
    ensures g.isVisible == h.isVisible && g.currentStat == h.currentStat && g.stored == h.stored
    ensures g.showTimer == h.showTimer && g.statTimer == h.statTimer
    ensures g.timerEffectDep == h.timerEffectDep
  {
    if h.initialized then h
    else h.(initialized := true, wasDismissedBefore := h.stored)
  }

  /** The cleanup of the timer effect: cancel both timers. */
  function Cleanup(h: Hook): (g: Hook)
    ensures !g.showTimer && !g.statTimer
    ensures g.isVisible == h.isVisible && g.currentStat == h.currentStat
    ensures g.wasDismissedBefore == h.wasDismissedBefore && g.stored == h.stored
    ensures g.initialized == h.initialized && g.timerEffectDep == h.timerEffectDep
  {
    h.(showTimer := false, statTimer := false)
  }

  /** The body of the timer effect, run with the `wasDismissedBefore` of the
      render being committed: nothing when dismissed, else arm the show timeout. */
  function TimerEffect(h: Hook, dismissed: bool): (g: Hook)
    ensures g.showTimer <==> h.showTimer || !dismissed
    ensures g.timerEffectDep == Some(dismissed)
    ensures dismissed ==> g == h.(timerEffectDep := Some(true))
    ensures g.statTimer == h.statTimer && g.isVisible == h.isVisible && g.currentStat == h.currentStat
    ensures g.wasDismissedBefore == h.wasDismissedBefore && g.stored == h.stored
    ensures g.initialized == h.initialized
  {
    if dismissed then h.(timerEffectDep := Some(dismissed))
    else h.(showTimer := true, timerEffectDep := Some(dismissed))
  }

  function Step(h: Hook, e: Event): (g: Hook)
    ensures !h.isVisible && g.isVisible ==> e == ShowFires && h.showTimer
    ensures g.statTimer && !h.statTimer ==> e == ShowFires && h.showTimer && g.isVisible
    ensures g.currentStat != h.currentStat ==> e == RotationTick && h.statTimer
    ensures h.wasDismissedBefore && h.stored ==> g.wasDismissedBefore
    ensures h.stored ==> g.stored
    ensures e == Close ==> !g.isVisible && g.wasDismissedBefore && g.stored
    ensures e == Unmount ==> !g.showTimer && !g.statTimer
    // a commit re-runs the timer effect only when the rendered dependency changed
    ensures e == Commit ==> g.timerEffectDep == Some(h.wasDismissedBefore)
    ensures e == Commit && h.timerEffectDep != Some(h.wasDismissedBefore) ==>
              !g.statTimer && (g.showTimer <==> !h.wasDismissedBefore)
    ensures e == Commit && h.timerEffectDep == Some(h.wasDismissedBefore) ==>
              g.showTimer == h.showTimer && g.statTimer == h.statTimer
    // StrictMode replays the committed render's effects, not the current state's
    ensures e == StrictRemount && h.timerEffectDep.Some? ==>
              g.timerEffectDep == h.timerEffectDep && !g.statTimer && (g.showTimer <==> !h.timerEffectDep.value)
    ensures e == StrictRemount && h.timerEffectDep.None? ==> g == h
    // a pending show timeout shows the banner and starts the rotation interval
    ensures e == ShowFires && h.showTimer ==> g == h.(isVisible := true, showTimer := false, statTimer := true)
    ensures e == RotationTick && h.statTimer ==> g == h.(currentStat := NextStat(h.currentStat))
    ensures (e == ShowFires && !h.showTimer) || (e == RotationTick && !h.statTimer) ==> g == h
    ensures e == Unmount ==> g == h.(showTimer := false, statTimer := false)
  {
    match e
    case Commit =>
      var rendered := h.wasDismissedBefore;
      var h1 := InitEffect(h);
      if h.timerEffectDep == Some(rendered) then h1 else TimerEffect(Cleanup(h1), rendered)
    case StrictRemount =>
      // the re-run effect closes over the value of the last committed render
      if h.timerEffectDep.None? then h
      else TimerEffect(InitEffect(Cleanup(h)), h.timerEffectDep.value)
    case ShowFires =>
      if h.showTimer then h.(isVisible := true, showTimer := false, statTimer := true) else h
    case RotationTick =>
      if h.statTimer then h.(currentStat := NextStat(h.currentStat)) else h
    case Close =>
      h.(isVisible := false, wasDismissedBefore := true, stored := true)
    case Unmount =>
      Cleanup(h)
  }

  function Run(h: Hook, events: seq<Event>): Hook
    decreases |events|
  {
    if |events| == 0 then h else Run(Step(h, events[0]), events[1..])
  }

  /** The facts every reachable state keeps. */
  predicate Inv(h: Hook) {
    && h.currentStat < StatCount
    // a show timeout and a rotation interval are never live together: the show
    // timeout has fired or been cleared before a rotation interval exists
    && !(h.showTimer && h.statTimer)
    // rotation runs only once the banner has been shown
    && (h.statTimer ==> h.isVisible || h.wasDismissedBefore)
    && (h.currentStat != 0 ==> h.isVisible || h.wasDismissedBefore)
    // a dismissal is always backed by the stored key
    && (h.wasDismissedBefore ==> h.stored)
    // once the timer effect has seen the dismissal, no timer is live
    && (h.timerEffectDep == Some(true) ==> h.wasDismissedBefore && !h.showTimer && !h.statTimer)
  }

  lemma InitialInv(stored: bool)
    ensures Inv(Initial(stored))
  {
  }

  lemma StepInv(h: Hook, e: Event)
    requires Inv(h)
    ensures Inv(Step(h, e))
  {
  }

  lemma {:induction false} RunInv(h: Hook, events: seq<Event>)
    requires Inv(h)
    ensures Inv(Run(h, events))
    decreases |events|
  {
    if |events| > 0 {
      StepInv(h, events[0]);
      RunInv(Step(h, events[0]), events[1..]);
    }
  }

  /** Every state reachable from the first render keeps the invariant; in
      particular the statistic index stays within the four-entry table. */
  lemma ReachableInv(stored: bool, events: seq<Event>)
    ensures Inv(Run(Initial(stored), events))
    ensures Run(Initial(stored), events).currentStat < StatCount
  {
    InitialInv(stored);
    RunInv(Initial(stored), events);
  }

  /** `n` rotation steps from `i`. */
  function Rotate(i: nat, n: nat): nat
    decreases n
  {
    if n == 0 then i else NextStat(Rotate(i, n - 1))
  }

  /** Rotating `n` times moves the index `n` places round the table. */
  lemma {:induction false} RotateIsModular(i: nat, n: nat)
    requires i < StatCount
    ensures Rotate(i, n) == (i + n) % StatCount
    decreases n
  {
    if n > 0 {
      RotateIsModular(i, n - 1);
    }
  }

  /** One step first, then `n` more, is `n + 1` steps. */
  lemma {:induction false} RotateShift(i: nat, n: nat)
    ensures Rotate(NextStat(i), n) == Rotate(i, n + 1)
    decreases n
  {
    if n > 0 {
      RotateShift(i, n - 1);
    }
  }

  /** `n` ticks of a live rotation interval move the index by `Rotate`. */
  lemma {:induction false} TicksRotate(h: Hook, n: nat)
    requires h.statTimer
    ensures Run(h, seq(n, _ => RotationTick)).currentStat == Rotate(h.currentStat, n)
    decreases n
  {
    var ts := seq(n, _ => RotationTick);
    if n > 0 {
      var g := Step(h, RotationTick);
      assert ts[0] == RotationTick;
      assert ts[1..] == seq(n - 1, _ => RotationTick);
      TicksRotate(g, n - 1);
      RotateShift(h.currentStat, n - 1);
    }
  }

  /** Four rotations bring the index back to where it started. */
  lemma RotateFourIsIdentity(i: nat)
    requires i < StatCount
    ensures Rotate(i, StatCount) == i
  {
    RotateIsModular(i, StatCount);
  }

  /** `handleClose` hides the banner, records the dismissal and persists the key;
      a second call changes nothing. */
  lemma CloseIdempotent(h: Hook)
    ensures Step(Step(h, Close), Close) == Step(h, Close)
    ensures !Step(h, Close).isVisible && Step(h, Close).wasDismissedBefore && Step(h, Close).stored
  {
  }

  /** After a close, the commit it causes re-runs the timer effect, whose cleanup
      cancels both timers and whose body returns early: no timer survives. */
  lemma CloseThenCommitCancelsTimers(h: Hook)
    requires Inv(h)
    ensures var g := Step(Step(h, Close), Commit);
      !g.showTimer && !g.statTimer && g.timerEffectDep == Some(true)
  {
  }

  /** A hook whose timer effect has seen the dismissal stays quiet for good: no
      timer is armed again and the banner is never visible again, whatever
      happens. */
  lemma {:induction false} DismissedStaysQuiet(h: Hook, events: seq<Event>)
    requires Inv(h) && h.timerEffectDep == Some(true) && !h.isVisible
    ensures var g := Run(h, events);
      g.wasDismissedBefore && !g.isVisible && !g.showTimer && !g.statTimer
    decreases |events|
  {
    if |events| > 0 {
      var g := Step(h, events[0]);
      StepInv(h, events[0]);
      assert g.timerEffectDep == Some(true);
      DismissedStaysQuiet(g, events[1..]);
    }
  }

  /** Whether the banner draws anything: `wasDismissedBefore || !isVisible`
      returns null. Without a stored key, drawing is the same as being visible,
      and once the timer effect has seen the dismissal nothing is drawn. */
  predicate Renders(h: Hook)
    ensures Renders(h) ==> h.isVisible
    ensures Inv(h) && !h.stored ==> (Renders(h) <==> h.isVisible)
    ensures Inv(h) && h.timerEffectDep == Some(true) ==> !Renders(h)
  {
    !h.wasDismissedBefore && h.isVisible
  }

  /** With the dismissal key stored before mount, every state either has read
      the key (and so is dismissed) or has not yet been initialised (and so is
      hidden). */
  predicate StoredBeforeMount(h: Hook) {
    && h.stored
    && (h.initialized ==> h.wasDismissedBefore)
    && (!h.initialized ==> !h.isVisible && !h.showTimer)
  }

  /** If the key is stored when the page loads, the banner never renders, in any
      order of commits, timers and remounts. */
  lemma {:induction false} StoredKeyNeverRenders(h: Hook, events: seq<Event>)
    requires StoredBeforeMount(h)
    ensures StoredBeforeMount(Run(h, events))
    ensures !Renders(Run(h, events))
    decreases |events|
  {
    if |events| > 0 {
      var g := Step(h, events[0]);
      assert StoredBeforeMount(g);
      StoredKeyNeverRenders(g, events[1..]);
    }
  }

  /** The first commit's timer effect still sees the initial `false`, so with the
      key stored the show timeout is armed and may fire before the commit that
      cancels it: `isVisible` turns true while the render gate keeps the banner
      hidden. StrictMode's re-run of that commit's effects arms the timeout
      again, with the same outcome. */
  lemma StoredKeyMayStillSetVisible()
    ensures var h := Run(Initial(true), [Commit, ShowFires]);
      h.isVisible && h.wasDismissedBefore && !Renders(h)
    ensures var h := Run(Initial(true), [Commit, Commit]);
      !h.showTimer && !h.statTimer && h.wasDismissedBefore
    ensures var h := Run(Initial(true), [Commit, StrictRemount]);
      h.showTimer && h.wasDismissedBefore
    ensures var h := Run(Initial(true), [Commit, StrictRemount, ShowFires]);
      h.isVisible && h.statTimer && !Renders(h)
  {
    var h1 := Step(Initial(true), Commit);
    assert h1.showTimer && h1.wasDismissedBefore && h1.timerEffectDep == Some(false);
    assert [Commit, ShowFires][1..] == [ShowFires];
    assert [Commit, Commit][1..] == [Commit];
    assert [Commit, StrictRemount][1..] == [StrictRemount];
    var h2 := Step(h1, StrictRemount);
    assert h2.showTimer;
    assert [Commit, StrictRemount, ShowFires][1..] == [StrictRemount, ShowFires];
    assert [StrictRemount, ShowFires][1..] == [ShowFires];
  }

  /** The init effect's body runs at most once: invoking the effect again, as
      StrictMode does, leaves the state it read alone. */
  lemma InitRunsOnce(h: Hook, stored: bool)
    requires h.initialized
    ensures InitEffect(h.(stored := stored)) == h.(stored := stored)
    ensures InitEffect(InitEffect(h)) == InitEffect(h)
  {
  }
}
