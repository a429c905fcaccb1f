/** The viewport-gated chart (`LazyPriceChart`): the day's prices are requested
    from the data hook only once the chart scrolls into view, and only while the
    hook holds nothing, is not loading and has never completed a load. */
module LazyPriceChart {

  /** What the effect reads: `inView` from the intersection observer, and
      `todayPrices.length`, `isLoading` and whether `lastUpdated` is set from the
      data hook. */
  datatype Inputs = Inputs(inView: bool, priceCount: nat, isLoading: bool, hasLastUpdated: bool)

  /** The condition under which the effect calls `loadToday()`: the container is
      in view and the data hook is not busy. */
  predicate ShouldLoad(i: Inputs)
    ensures ShouldLoad(i) <==> i.inView && !Busy(i)
  {
    i.inView && i.priceCount == 0 && !i.isLoading && !i.hasLastUpdated
  }

  /** The data hook has something to show for today, or is getting it. */
  predicate Busy(i: Inputs) {
    i.isLoading || i.hasLastUpdated || i.priceCount > 0
  }

  datatype View = PriceChart | Placeholder

  /** The chart is mounted iff the container is in view; otherwise the
      "Preparando gráfico" placeholder takes its place. A load is only ever
      requested while the chart itself is on screen. */
  function Render(i: Inputs): (v: View)
    ensures v == PriceChart <==> i.inView
    ensures v == Placeholder <==> !i.inView
    ensures ShouldLoad(i) ==> v == PriceChart
  {
    if i.inView then PriceChart else Placeholder
  }

  /** The chart's inputs together with how many times it has called `loadToday`. */
  datatype Chart = Chart(inputs: Inputs, requests: nat)

  datatype Event =
    | Effect                                                   // the effect runs
    | ViewChange(inView: bool)                                 // the observer reports
    | StoreChange(priceCount: nat, isLoading: bool, hasLastUpdated: bool) // the data hook re-renders

  /** One run of the effect. A request marks the hook as loading, which is what
      `loadToday` is taken to do before the effect can run again. A request is
      made exactly when the container is in view, no prices are held, no load is
      in flight and none has completed. */
  function RunEffect(c: Chart): (d: Chart)
    ensures d.requests == c.requests + 1 <==> (c.inputs.inView && c.inputs.priceCount == 0
                                               && !c.inputs.isLoading && !c.inputs.hasLastUpdated)
    ensures d.requests == c.requests || d.requests == c.requests + 1
    ensures c.inputs.isLoading ==> d == c
    ensures c.inputs.hasLastUpdated ==> d == c
    ensures !c.inputs.inView || c.inputs.priceCount > 0 ==> d == c
    ensures !ShouldLoad(d.inputs) && d.inputs.inView == c.inputs.inView
  {
    if ShouldLoad(c.inputs) then Chart(c.inputs.(isLoading := true), c.requests + 1) else c
  }

  /** One event. Only an effect run can request a load, and only through the
      gate; a busy data hook stays busy until the store itself changes. */
  function Step(c: Chart, e: Event): (d: Chart)
    ensures d.requests == c.requests + 1 <==> e.Effect? && ShouldLoad(c.inputs)
    ensures d.requests == c.requests || d.requests == c.requests + 1
    ensures !e.StoreChange? && Busy(c.inputs) ==> Busy(d.inputs)
    ensures e.ViewChange? ==> d == c.(inputs := c.inputs.(inView := e.inView))
    ensures e.StoreChange? ==> d == c.(inputs := Inputs(c.inputs.inView, e.priceCount, e.isLoading, e.hasLastUpdated))
    ensures e.StoreChange? ==> (Busy(d.inputs) <==> e.isLoading || e.hasLastUpdated || e.priceCount > 0)
  {
    match e
    case Effect => RunEffect(c)
    case ViewChange(v) => c.(inputs := c.inputs.(inView := v))
    case StoreChange(n, l, u) => c.(inputs := Inputs(c.inputs.inView, n, l, u))
  }

  function Run(c: Chart, events: seq<Event>): Chart
    decreases |events|
  {
    if |events| == 0 then c else Run(Step(c, events[0]), events[1..])
  }

  /** How many times the data hook returns to holding nothing, not loading and never loaded. */
  function BlankResets(events: seq<Event>): nat
    decreases |events|
  {
    if |events| == 0 then 0
    else
      var e := events[0];
      var blank := e.StoreChange? && !Busy(Inputs(false, e.priceCount, e.isLoading, e.hasLastUpdated));
      (if blank then 1 else 0) + BlankResets(events[1..])
  }

  /** A load in flight or a completed load blocks every further request, however
      many times the effect runs and however the view changes: each request after
      the first needs the data hook to have gone blank again. */
  lemma {:induction false} RequestsNeedBlankStore(c: Chart, events: seq<Event>)
    ensures Run(c, events).requests <= c.requests + (if Busy(c.inputs) then 0 else 1) + BlankResets(events)
    decreases |events|
  {
    if |events| > 0 {
      RequestsNeedBlankStore(Step(c, events[0]), events[1..]);
    }
  }

  /** From a blank store, a session in which the data hook never goes blank again
      requests the day's prices at most once. */
  lemma AtMostOneLoad(c: Chart, events: seq<Event>)
    requires c.requests == 0
    requires BlankResets(events) == 0
    ensures Run(c, events).requests <= 1
  {
    RequestsNeedBlankStore(c, events);
  }

  /** Running the effect twice in succession requests at most one load. */
  lemma EffectTwiceLoadsOnce(c: Chart)
    ensures RunEffect(RunEffect(c)).requests <= c.requests + 1
    ensures RunEffect(RunEffect(c)) == RunEffect(c)
  {
  }
}
