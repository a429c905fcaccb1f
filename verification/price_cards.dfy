/** The three price cards of the dashboard (`PriceCardsClient`): the live card's
    (hour, price) that an hourly timer keeps re-reading from the day's list, and
    the hour badges and captions of all three cards. The lowest, highest and
    percentage facts arrive precomputed from the server and are only passed
    through. */
module PriceCards {
  import opened Wrappers
  import opened Text

  /** One entry of the day's list (`ElectricityPrice`): an hour and its price. */
  datatype PricePoint = PricePoint(hour: int, price: real)

  /** The facts computed on the server (`PriceCardServerData`). */
  datatype ServerData = ServerData(
    current: PricePoint,
    lowest: PricePoint,
    highest: PricePoint,
    nextHourPercent: Option<real>,
    lowestHighestPercent: Option<real>,
    highestCurrentPercent: Option<real>)

  /** `prices.find(p => p.hour === h)`, given as the index of the entry found. */
  function FindHour(prices: seq<PricePoint>, h: int): (r: Option<nat>)
    ensures r.Some? ==> r.value < |prices| && prices[r.value].hour == h
    ensures r.Some? ==> forall j :: 0 <= j < r.value ==> prices[j].hour != h
    ensures r.None? <==> forall j :: 0 <= j < |prices| ==> prices[j].hour != h
  {
    if |prices| == 0 then None
    else if prices[0].hour == h then Some(0)
    else
      match FindHour(prices[1..], h)
      case None => None
      case Some(i) => Some(i + 1)
  }

  /** `updatePrice` at clock hour `h`: the shown hour becomes `h` whether or not
      the list covers it, and the shown price is that of the first entry for `h`
      in list order, or 0 when there is none (an empty list included). */
  function Refresh(prices: seq<PricePoint>, h: int): (shown: PricePoint)
    ensures shown.hour == h
    ensures (forall j :: 0 <= j < |prices| ==> prices[j].hour != h) ==> shown.price == 0.0
    ensures forall i :: 0 <= i < |prices| && prices[i].hour == h
                        && (forall j :: 0 <= j < i ==> prices[j].hour != h)
                        ==> shown.price == prices[i].price
  {
    match FindHour(prices, h)
    case Some(i) => PricePoint(h, prices[i].price)
    case None => PricePoint(h, 0.0)
  }

  /** The live card's component state: the list the effect last captured, the
      (hour, price) on screen, and whether the hourly interval is registered. */
  datatype Cards = Cards(prices: seq<PricePoint>, shown: PricePoint, intervalLive: bool)

  /** What reaches the component. A timer tick and an effect run each carry the
      clock hour `new Date().getHours()` read at that moment; the interval is a
      fixed period started at mount, not aligned to the hour boundary. */
  datatype Event =
    | Mount(hour: int)                                // first run of the effect
    | Tick(hour: int)                                 // the interval fires
    | NewPrices(prices: seq<PricePoint>, hour: int)   // `dailyPrices` changed: cleanup, then re-run
    | Teardown                                        // unmount: the cleanup clears the interval

  /** The state of the first render, before any effect has run: the server's
      current (hour, price), no interval yet. */
  function Initial(server: ServerData, prices: seq<PricePoint>): (c: Cards)
    ensures c.shown.hour == server.current.hour && c.shown.price == server.current.price
    ensures !c.intervalLive
  {
    Cards(prices, server.current, false)
  }

  /** One run of the effect over `prices`: refresh at once, then register the
      interval. The effect leaves the card showing the clock hour, in step with
      the list it captured. */
  function RunEffect(prices: seq<PricePoint>, h: int): (d: Cards)
    ensures d.prices == prices && d.intervalLive
    ensures d.shown.hour == h && Synced(d)
  {
    Cards(prices, Refresh(prices, h), true)
  }

  function Step(c: Cards, e: Event): (d: Cards)
    ensures e.Teardown? ==> !d.intervalLive && d.shown == c.shown && d.prices == c.prices
    ensures e.Tick? && !c.intervalLive ==> d == c
    ensures !e.NewPrices? ==> d.prices == c.prices
    ensures d != c ==> d.intervalLive || e.Teardown?
    ensures (e.Mount? || e.NewPrices? || (e.Tick? && c.intervalLive)) ==> d.shown.hour == e.hour
    ensures e.Mount? ==> d == Cards(c.prices, Refresh(c.prices, e.hour), true)
    ensures e.NewPrices? ==> d == Cards(e.prices, Refresh(e.prices, e.hour), true)
    ensures e.Tick? && c.intervalLive ==> d == c.(shown := Refresh(c.prices, e.hour))
  {
    match e
    case Mount(h) => RunEffect(c.prices, h)
    case NewPrices(p, h) => RunEffect(p, h)
    case Tick(h) => if c.intervalLive then c.(shown := Refresh(c.prices, h)) else c
    case Teardown => c.(intervalLive := false)
  }

  function Run(c: Cards, events: seq<Event>): Cards
    decreases |events|
  {
    if |events| == 0 then c else Run(Step(c, events[0]), events[1..])
  }

  /** The shown (hour, price) is what a refresh over the current list would show
      for the shown hour: the display never reflects a list the effect no longer holds. */
  predicate Synced(c: Cards) {
    c.shown == Refresh(c.prices, c.shown.hour)
  }

  /** Mounting refreshes at once: the server's value is replaced by the list's
      entry for the clock hour before the first tick. */
  lemma MountRefreshesImmediately(server: ServerData, prices: seq<PricePoint>, h: int)
    ensures Step(Initial(server, prices), Mount(h)).shown == Refresh(prices, h)
    ensures Step(Initial(server, prices), Mount(h)).intervalLive
  {
  }

  /** Every state reachable from the first render either still shows the server's
      value with no interval registered, or is synchronised with its list. */
  lemma {:induction false} RunKeepsDisplaySynced(server: ServerData, c: Cards, events: seq<Event>)
    requires Synced(c) || (c.shown == server.current && !c.intervalLive)
    ensures var d := Run(c, events); Synced(d) || (d.shown == server.current && !d.intervalLive)
    decreases |events|
  {
    if |events| > 0 {
      var c' := Step(c, events[0]);
      assert Synced(c') || (c'.shown == server.current && !c'.intervalLive);
      RunKeepsDisplaySynced(server, c', events[1..]);
    }
  }

  /** A tick depends only on the list and the clock hour, not on what was shown before. */
  lemma TickForgetsHistory(c1: Cards, c2: Cards, h: int)
    requires c1.intervalLive && c2.intervalLive && c1.prices == c2.prices
    ensures Step(c1, Tick(h)).shown == Step(c2, Tick(h)).shown
  {
  }

  function Ticks(h: int, n: nat): (ts: seq<Event>)
    ensures |ts| == n
    ensures forall k :: 0 <= k < n ==> ts[k] == Tick(h)
  {
    seq(n, _ => Tick(h))
  }

  /** Any number of ticks within the same clock hour leave the state as the first
      of them left it. */
  lemma {:induction false} TicksInSameHourIdempotent(c: Cards, h: int, n: nat)
    ensures Run(c, Ticks(h, n + 1)) == Step(c, Tick(h))
    decreases n
  {
    var ts := Ticks(h, n + 1);
    var c' := Step(c, Tick(h));
    assert Step(c', Tick(h)) == c';
    if n == 0 {
      assert Run(c', ts[1..]) == c';
    } else {
      assert ts[1..] == Ticks(h, n);
      TicksInSameHourIdempotent(c', h, n - 1);
    }
  }

  predicate NoEffectRun(events: seq<Event>) {
    forall k :: 0 <= k < |events| ==> events[k].Tick? || events[k].Teardown?
  }

  /** After teardown the interval is gone: however many ticks or further
      teardowns arrive, nothing on the card changes. */
  lemma {:induction false} TeardownStopsRefresh(c: Cards, events: seq<Event>)
    requires NoEffectRun(events)
    ensures Run(Step(c, Teardown), events) == Step(c, Teardown)
    decreases |events|
  {
    if |events| > 0 {
      var d := Step(c, Teardown);
      assert Step(d, events[0]) == d;
      assert NoEffectRun(events[1..]);
      TeardownStopsRefresh(c, events[1..]);
    }
  }

  datatype CardKind = Current | Lowest | Highest

  /** A card as far as its hour badge is concerned: which card it is, its subtitle
      line and the percentage it forwards. */
  datatype Card = Card(kind: CardKind, subtitle: string, percent: Option<real>)

  const LiveCaption: string := "Hora actual"
  const Caption: string := "Hora"

  /** The subtitle line of a card: its caption, ": ", then the hour label. */
  function Subtitle(caption: string, hour: int): (r: string)
    ensures |r| >= |caption| + 2 && r[..|caption|] == caption && r[|caption|..|caption| + 2] == ": "
  {
    caption + ": " + HourLabel(hour)
  }

  /** `cardsData`: the live card labelled with the shown hour, the other two with
      the server's lowest and highest hours. */
  function BuildCards(server: ServerData, shown: PricePoint): (cards: seq<Card>)
    ensures |cards| == 3
    ensures cards[0].kind == Current && cards[1].kind == Lowest && cards[2].kind == Highest
    ensures cards[0].percent == server.nextHourPercent
    ensures cards[1].percent == server.lowestHighestPercent
    ensures cards[2].percent == server.highestCurrentPercent
  {
    [ Card(Current, Subtitle(LiveCaption, shown.hour), server.nextHourPercent),
      Card(Lowest, Subtitle(Caption, server.lowest.hour), server.lowestHighestPercent),
      Card(Highest, Subtitle(Caption, server.highest.hour), server.highestCurrentPercent) ]
  }

  /** `hourText`: built directly for the live card, recovered from the subtitle
      with `split(': ')[1]` for the other two (absent when there is no such piece). */
  function HourText(card: Card, currentHour: int): (r: Option<string>)
    ensures card.kind == Current ==> r.Some?
    ensures card.kind != Current ==> (r.None? <==> Free(card.subtitle, ": "))
  {
    SplitWholeIffFree(card.subtitle, ": ");
    if card.kind == Current then Some(HourLabel(currentHour))
    else At(Split(card.subtitle, ": "), 1)
  }

  /** `subtitle.split(': ')[0]`, the caption shown before the badge. */
  function CaptionOf(card: Card): (r: string)
    ensures |r| <= |card.subtitle| && r == card.subtitle[..|r|]
    ensures Free(card.subtitle, ": ") ==> r == card.subtitle
  {
    SplitWholeIffFree(card.subtitle, ": ");
    Split(card.subtitle, ": ")[0]
  }

  /** Splitting a subtitle on ": " gives back exactly its caption and its label. */
  lemma SubtitleSplitsIntoCaptionAndLabel(caption: string, hour: int)
    requires ':' !in caption
    ensures Split(Subtitle(caption, hour), ": ") == [caption, HourLabel(hour)]
  {
    HourLabelHasNoSpace(hour);
    SplitCaption(caption, HourLabel(hour));
  }

  /** A lowest or highest card whose subtitle was built for `hour` shows that
      hour's label in its badge and "Hora" as its caption. */
  lemma RecoveredBadge(kind: CardKind, hour: int, percent: Option<real>, currentHour: int)
    requires kind != Current
    ensures HourText(Card(kind, Subtitle(Caption, hour), percent), currentHour) == Some(HourLabel(hour))
    ensures CaptionOf(Card(kind, Subtitle(Caption, hour), percent)) == Caption
  {
    assert ':' !in Caption;
    SubtitleSplitsIntoCaptionAndLabel(Caption, hour);
  }

  /** The live card builds its badge from the shown hour and keeps "Hora actual"
      as its caption. */
  lemma LiveBadge(hour: int, percent: Option<real>)
    ensures HourText(Card(Current, Subtitle(LiveCaption, hour), percent), hour) == Some(HourLabel(hour))
    ensures CaptionOf(Card(Current, Subtitle(LiveCaption, hour), percent)) == LiveCaption
  {
    assert ':' !in LiveCaption;
    SubtitleSplitsIntoCaptionAndLabel(LiveCaption, hour);
  }

  /** Every card's badge shows the label of the hour it is about, and every
      caption is the text before ": " in its subtitle. */
  lemma CardsShowTheirHours(server: ServerData, shown: PricePoint)
    ensures var cards := BuildCards(server, shown);
      && HourText(cards[0], shown.hour) == Some(HourLabel(shown.hour))
      && HourText(cards[1], shown.hour) == Some(HourLabel(server.lowest.hour))
      && HourText(cards[2], shown.hour) == Some(HourLabel(server.highest.hour))
      && CaptionOf(cards[0]) == LiveCaption
      && CaptionOf(cards[1]) == Caption
      && CaptionOf(cards[2]) == Caption
  {
    var cards := BuildCards(server, shown);
    assert cards[0] == Card(Current, Subtitle(LiveCaption, shown.hour), server.nextHourPercent);
    assert cards[1] == Card(Lowest, Subtitle(Caption, server.lowest.hour), server.lowestHighestPercent);
    assert cards[2] == Card(Highest, Subtitle(Caption, server.highest.hour), server.highestCurrentPercent);
    LiveBadge(shown.hour, server.nextHourPercent);
    RecoveredBadge(Lowest, server.lowest.hour, server.lowestHighestPercent, shown.hour);
    RecoveredBadge(Highest, server.highest.hour, server.highestCurrentPercent, shown.hour);
  }
}
