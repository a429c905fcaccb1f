# Luzzia dashboard and startup banner: a Dafny model

This project models the parts of the Luzzia front end that hold logic rather than markup:

- **The price cards** (`PriceCardsClient`). The live card shows an (hour, price) pair. It starts from the server's precomputed value. Each time the hourly interval fires, it re-reads the clock hour and looks that hour up in the day's price list: the first entry for that hour gives the price, and no entry gives 0. Each card's hour badge is built as `"HH:00"`. For the lowest and highest cards, the badge is recovered from the subtitle with `split(': ')[1]`.
- **The lazy chart** (`LazyPriceChart`). The day's prices are requested only when the chart is in view, no prices are held, no load is in flight and no load has completed. The chart itself is mounted only while it is in view.
- **The startup banner** (`useStartupBanner` and `StartupBanner`). It has a dismissal flag backed by `localStorage`. A show timeout makes the banner visible. A rotation interval then cycles the statistic index through `(i + 1) % 4`. The init effect runs only once. The timer effect's cleanup cancels both timers, and the component has a render gate, an icon lookup and a close click.

React's scheduling is modelled as explicit events. An effect run, a timer firing, a dependency change, a close and a teardown are each an event on an immutable state record. Each state machine has a `Step` function and a `Run` over event sequences. Its invariants are proved over every trace.

Files:

| file | module | models |
|---|---|---|
| `wrappers.dfy` | `Wrappers` | `Option`, and array indexing that yields `undefined` past the end |
| `text.dfy` | `Text` | `toString`, `padStart`, `indexOf`, `split`/`join` and the hour label |
| `price_cards.dfy` | `PriceCards` | `src/components/dashboard/cards/PriceCardsClient.tsx` |
| `lazy_price_chart.dfy` | `LazyPriceChart` | `src/components/dashboard/charts/LazyPriceChart.tsx` |
| `banner_hook.dfy` | `StartupBannerHook` | `src/hooks/useStartupBanner.ts` |
| `startup_banner.dfy` | `StartupBanner` | `src/components/marketing/StartupBanner.tsx`, `src/config/startup-banner.config.ts` |

Behaviour of the code that a reader might expect to be otherwise (the model follows the code):

- The hourly refresh is a fixed `setInterval` started at mount, so it is not aligned to the hour boundary. Each tick carries the clock hour it reads.
- No day-rollover refetch exists in this code: a tick only re-reads the hour.
- A clock hour missing from the day's list is shown as a real price of 0 (`0.0000 €/kWh`); nothing marks it as unavailable (`PriceCards.Refresh`).
- With the dismissal key stored, the first commit's timer effect still sees the initial `false` and arms the show timeout. The following commit cancels it. Under StrictMode, the re-run of the first commit's effects closes over that same `false` and arms the timeout again. If the timeout fires first, `isVisible` becomes true, but the render gate still draws nothing (`StartupBannerHook.StoredKeyMayStillSetVisible`, `StartupBannerHook.StoredKeyNeverRenders`).

## Model

| member | source | states |
|---|---|---|
| `PriceCards.FindHour` | src/components/dashboard/cards/PriceCardsClient.tsx:23 | `find` by hour returns the index of the first entry with that hour, and no index exactly when no entry has it |
| `PriceCards.Refresh` | src/components/dashboard/cards/PriceCardsClient.tsx:20-25 | after a refresh at hour h the shown hour is h whether or not h is listed; the price is that of the first entry for h in list order, or 0 when none has it (the empty list included) |
| `PriceCards.Initial` | src/components/dashboard/cards/PriceCardsClient.tsx:16-17 | before any effect runs, the card shows the server's current hour and price and no interval exists |
| `PriceCards.RunEffect` | src/components/dashboard/cards/PriceCardsClient.tsx:27-28 | one run of the effect captures the given list, registers the interval and shows the clock hour in step with that list (`Synced`) |
| `PriceCards.Step` | src/components/dashboard/cards/PriceCardsClient.tsx:19-30 | a mount runs the effect over the list it holds and a new list runs it over that list, each showing the refresh at the event's hour with the interval live; a live tick replaces only the shown (hour, price) by the refresh over the captured list; a tick with no live interval changes nothing; teardown clears the interval and keeps what is shown; only a new list replaces the list |
| `PriceCards.MountRefreshesImmediately` | src/components/dashboard/cards/PriceCardsClient.tsx:27-28 | the effect refreshes at once on mount, before any tick, and registers the interval |
| `PriceCards.RunKeepsDisplaySynced` | src/components/dashboard/cards/PriceCardsClient.tsx:19-30 | over any sequence of mounts, ticks, list changes and teardowns, the card either still shows the server value with no interval, or shows exactly what a refresh over the current list gives for the shown hour |
| `PriceCards.TickForgetsHistory` | src/components/dashboard/cards/PriceCardsClient.tsx:20-26 | a tick's result depends only on the list and the clock hour, not on what was shown before |
| `PriceCards.TicksInSameHourIdempotent` | src/components/dashboard/cards/PriceCardsClient.tsx:20-28 | any number of ticks within one clock hour leave the same state as the first one |
| `PriceCards.TeardownStopsRefresh` | src/components/dashboard/cards/PriceCardsClient.tsx:28-29 | after teardown, no tick changes anything |
| `PriceCards.Subtitle` | src/components/dashboard/cards/PriceCardsClient.tsx:37-53 | a subtitle starts with the caption followed by ": ", and ends with the hour label; split on ": " it gives back exactly the caption and the label when the caption has no colon (`PriceCards.SubtitleSplitsIntoCaptionAndLabel`) |
| `PriceCards.BuildCards` | src/components/dashboard/cards/PriceCardsClient.tsx:32-57 | three cards (live, lowest, highest) in that order, each forwarding its own server percentage |
| `PriceCards.SubtitleSplitsIntoCaptionAndLabel` | src/components/dashboard/cards/PriceCardsClient.tsx:70 | splitting "caption: label" on ": " yields exactly the caption and the hour label |
| `PriceCards.RecoveredBadge` | src/components/dashboard/cards/PriceCardsClient.tsx:45 | for the lowest and highest cards, element 1 of the split subtitle is the label of the hour the subtitle was built for, and element 0 is "Hora" |
| `PriceCards.CardsShowTheirHours` | src/components/dashboard/cards/PriceCardsClient.tsx:70-111 | every card's badge is the label of its own hour (shown, lowest, highest); captions are "Hora actual", "Hora", "Hora" |
| `PriceCards.HourText` | src/components/dashboard/cards/PriceCardsClient.tsx:70 | the live card always has a badge; a lowest or highest card has none exactly when its subtitle holds no ": " |
| `PriceCards.CaptionOf` | src/components/dashboard/cards/PriceCardsClient.tsx:111 | the caption is a prefix of the subtitle, and the whole subtitle when it holds no ": " |
| `Text.NatToString` | src/components/dashboard/cards/PriceCardsClient.tsx:37 | decimal rendering is non-empty, all digits, single-digit exactly below 10, and without a leading zero |
| `Text.NatToStringValue` | src/components/dashboard/cards/PriceCardsClient.tsx:37 | the digits `NatToString` writes denote the number given, read most significant digit first |
| `Text.IntToString` | src/components/dashboard/cards/PriceCardsClient.tsx:37 | `toString` of an integer below 10^21 in magnitude is non-empty, holds no space or colon, starts with '-' exactly for negatives, and is all digits otherwise or after the sign |
| `Text.IntToStringValue` | src/components/dashboard/cards/PriceCardsClient.tsx:37 | the digits of `toString` denote the number itself, or after the minus sign its magnitude |
| `Text.PadStart` | src/components/dashboard/cards/PriceCardsClient.tsx:37 | `padStart` reaches the target length, keeps the original as a suffix, and fills only with the pad character |
| `Text.HourLabel` | src/components/dashboard/cards/PriceCardsClient.tsx:37 | the badge text `hour.toString().padStart(2, '0') + ":00"`; its lemmas give, for hours 0..99, exactly two digits then ":00" that parse back to the hour, distinct labels for distinct hours, and never a space |
| `Text.HourLabelDigits` | src/components/dashboard/cards/PriceCardsClient.tsx:37 | the label of an hour below 100 is its tens digit, its units digit, then ":00" |
| `Text.HourLabelRoundTrip` | src/components/dashboard/cards/PriceCardsClient.tsx:37 | the label of an hour below 100 is five characters long and parses back to that hour |
| `Text.ParsedLabelIsCanonical` | src/components/dashboard/cards/PriceCardsClient.tsx:37 | any string that parses as an hour label is that hour's label, so distinct hours get distinct labels |
| `Text.SevenAndThirteen` | src/components/dashboard/cards/PriceCardsClient.tsx:37 | 7 is labelled "07:00" and 13 is labelled "13:00" |
| `Text.HourLabelHasNoSpace` | src/components/dashboard/cards/PriceCardsClient.tsx:37 | an hour label never contains a space, so ": " never occurs inside it |
| `Wrappers.At` | src/components/dashboard/cards/PriceCardsClient.tsx:70 | reading an array at an index gives the element when the index is in range and nothing (`undefined`) past the end |
| `Text.IndexOf` | src/components/dashboard/cards/PriceCardsClient.tsx:70 | `indexOf` returns the first occurrence of the separator, and nothing exactly when it does not occur |
| `Text.Split` | src/components/dashboard/cards/PriceCardsClient.tsx:70 | `split` yields at least one piece, and its first piece is a prefix of the string |
| `Text.SplitWholeIffFree` | src/components/dashboard/cards/PriceCardsClient.tsx:70 | `split` leaves the string as its only piece exactly when the separator does not occur in it |
| `Text.Join` | src/components/dashboard/cards/PriceCardsClient.tsx:70-111 | `join` starts with the first part; joined back with the separator, the pieces of a split give the string (`Text.SplitJoin`) |
| `Text.SplitJoin` | src/components/dashboard/cards/PriceCardsClient.tsx:70 | joining the pieces of a split with the separator gives the original string back |
| `Text.SplitPiecesAreClean` | src/components/dashboard/cards/PriceCardsClient.tsx:111 | no piece of a split contains the separator |
| `Text.SplitCaption` | src/components/dashboard/cards/PriceCardsClient.tsx:111 | a colon-free caption, ": ", then a space-free text splits into exactly [caption, text] |
| `LazyPriceChart.RunEffect` | src/components/dashboard/charts/LazyPriceChart.tsx:23-26 | a load is requested iff in view, no prices, not loading and never loaded; no request while loading, once loaded, out of view or with prices; afterwards the gate is closed |
| `LazyPriceChart.Render` | src/components/dashboard/charts/LazyPriceChart.tsx:31-40 | the chart is mounted iff in view, otherwise the placeholder is shown; whenever a load is requested the chart (not the placeholder) is on screen |
| `LazyPriceChart.ShouldLoad` | src/components/dashboard/charts/LazyPriceChart.tsx:24 | the load gate is open exactly when the container is in view and the data hook is neither holding prices, loading, nor done |
| `LazyPriceChart.Step` | src/components/dashboard/charts/LazyPriceChart.tsx:23-27 | only an effect run through an open gate adds a request, and by one; a busy data hook stays busy until the store itself changes; a view change sets only the view, a store change installs exactly the event's count, loading flag and completion flag and keeps the view |
| `LazyPriceChart.RequestsNeedBlankStore` | src/components/dashboard/charts/LazyPriceChart.tsx:24 | over any mix of effect runs, view changes and store updates, every request after the first needs the data store to have returned to blank |
| `LazyPriceChart.AtMostOneLoad` | src/components/dashboard/charts/LazyPriceChart.tsx:24 | if the store never goes blank again, the day is requested at most once |
| `LazyPriceChart.EffectTwiceLoadsOnce` | src/components/dashboard/charts/LazyPriceChart.tsx:24 | running the effect twice in succession requests at most one load, the second run being a no-op |
| `StartupBannerHook.Initial` | src/hooks/useStartupBanner.ts:13-15 | the first render is hidden, shows statistic 0, is not dismissed, and has no timers |
| `StartupBannerHook.NextStat` | src/hooks/useStartupBanner.ts:68 | a rotation step stays below 4, advances by one, and wraps 3 to 0 |
| `StartupBannerHook.InitEffect` | src/hooks/useStartupBanner.ts:27-35 | the init body runs only when not yet initialised, and then only reads the stored key into `wasDismissedBefore` and sets the init flag; visibility, index, timers and storage are untouched |
| `StartupBannerHook.Cleanup` | src/hooks/useStartupBanner.ts:74-83 | cleanup leaves neither timer live and changes nothing else |
| `StartupBannerHook.TimerEffect` | src/hooks/useStartupBanner.ts:59-71 | the timer effect arms the show timeout iff not dismissed and records the dependency it ran with; when dismissed it does nothing else; it never touches the rotation interval, visibility, index, dismissal or storage |
| `StartupBannerHook.Step` | src/hooks/useStartupBanner.ts:25-90 | visible turns true only when a pending show timer fires; rotation starts only then; the index changes only on a tick of a live interval; close hides, dismisses and persists; unmount leaves no timer; a commit records the rendered `wasDismissedBefore` and, only when it changed, cancels both timers and arms the show timeout iff not dismissed; a StrictMode re-run replays the effects with the committed render's value and is a no-op before the first commit; a pending show timeout, when it fires, makes the banner visible and starts the rotation interval; a tick of a live interval advances the index by one step; unmount clears both timers and nothing else |
| `StartupBannerHook.ReachableInv` | src/hooks/useStartupBanner.ts:58-84 | every reachable state keeps the index in 0..3, never has both timers live, rotates only after being shown, backs a dismissal by the stored key, and has no timer once the effect has seen the dismissal |
| `StartupBannerHook.RotateIsModular` | src/hooks/useStartupBanner.ts:67-69 | n rotation steps from i give (i + n) mod 4 |
| `StartupBannerHook.RotateShift` | src/hooks/useStartupBanner.ts:68 | one rotation step followed by n more is n + 1 steps |
| `StartupBannerHook.TicksRotate` | src/hooks/useStartupBanner.ts:67-69 | n ticks of a live rotation interval move the index exactly as n rotation steps do, so by (i + n) mod 4 |
| `StartupBannerHook.RotateFourIsIdentity` | src/hooks/useStartupBanner.ts:68 | four rotation ticks return the index to its start |
| `StartupBannerHook.CloseIdempotent` | src/hooks/useStartupBanner.ts:87-90 | close hides, dismisses and persists the key; closing twice equals closing once |
| `StartupBannerHook.CloseThenCommitCancelsTimers` | src/hooks/useStartupBanner.ts:74-84 | the commit after a close cancels both timers and the effect returns early, so no rotation timer survives |
| `StartupBannerHook.DismissedStaysQuiet` | src/hooks/useStartupBanner.ts:59 | once the timer effect has seen the dismissal, no event re-arms a timer or shows the banner again |
| `StartupBannerHook.StoredKeyNeverRenders` | src/hooks/useStartupBanner.ts:32-35 | with the key stored before mount, the banner never renders, under any order of events |
| `StartupBannerHook.Renders` | src/components/marketing/StartupBanner.tsx:53 | the banner draws only while visible; with no stored key, drawing is the same as being visible; once the timer effect has seen the dismissal, nothing is drawn |
| `StartupBannerHook.StoredKeyMayStillSetVisible` | src/hooks/useStartupBanner.ts:58-71 | with the key stored, the first commit still arms the show timeout, which may set `isVisible` while the gate hides it; a second commit cancels it; a StrictMode re-run of the first commit arms it again |
| `StartupBannerHook.InitRunsOnce` | src/hooks/useStartupBanner.ts:27-28 | once initialised, invoking the init effect again changes nothing, even if storage has changed |
| `StartupBanner.GetIcon` | src/components/marketing/StartupBanner.tsx:62-65 | an icon exactly for "Users", "Euro", "Clock" and "Shield", and the icon registered under that name; nothing for any other name, "" included |
| `StartupBanner.GetIconOfName` | src/components/marketing/StartupBanner.tsx:23-28 | looking up each icon's registered name finds that icon |
| `StartupBanner.GetIconAsWritten` | src/components/marketing/StartupBanner.tsx:62-65 | the object-literal lookup finds the registered icons, and also a member for every name inherited from `Object.prototype` |
| `StartupBanner.InheritedNameEscapesTheMap` | src/components/marketing/StartupBanner.tsx:63 | "constructor" is not a registered icon, yet the lookup as written does not come back empty |
| `StartupBanner.SelectStats` | src/components/marketing/StartupBanner.tsx:50 | the override when given (even an empty one), else the four-entry default table |
| `StartupBanner.IconNameAt` | src/components/marketing/StartupBanner.tsx:177 | the icon name of the entry at the index, or "" past the end of the table |
| `StartupBanner.View` | src/components/marketing/StartupBanner.tsx:53-65 | nothing is drawn iff dismissed or not visible; otherwise the box holds the entry at the current index, if there is one, and an icon exactly when that entry names one of the four registered icons |
| `StartupBanner.ViewMatchesHookGate` | src/components/marketing/StartupBanner.tsx:53 | the component draws exactly when the hook's render gate is open |
| `StartupBanner.DefaultIconsRegistered` | src/config/startup-banner.config.ts:48-73 | every icon name in the default table is registered |
| `StartupBanner.DefaultTableAlwaysComplete` | src/components/marketing/StartupBanner.tsx:174-183 | with the default table, after any sequence of hook events, a drawn banner always finds its statistic and its icon |
| `StartupBanner.ShortOverrideYieldsAbsentFields` | src/components/marketing/StartupBanner.tsx:174-183 | with an override shorter than the index, the statistic and the icon are absent instead of the lookup failing |
| `StartupBanner.HandleCloseClick` | src/components/marketing/StartupBanner.tsx:56-59 | the hook's close is called first and exactly once, then `onClose` only if provided; afterwards the banner is dismissed, persisted and not drawn, while the index and the timers are left to the next commit |

## Findings

| source | as written | input that shows it | evidently intended | confidence | as-written member | corrected member |
|---|---|---|---|---|---|---|
| src/components/marketing/StartupBanner.tsx:62-65 | `ICON_MAP[iconName]` reads a plain object literal, so names inherited from `Object.prototype` find a truthy member | `getIcon("constructor")` (likewise "toString", "valueOf" and "__proto__") does not return null | only the four registered names give an icon, and every other name gives null, as the "safe mapping" comment on `ICON_MAP` says | medium, not executed; the only caller passes `stats[currentStat]?.icon`, and the default table's names are all registered, so an inherited name arrives only through an override that bypasses the table's type | `StartupBanner.GetIconAsWritten`, `StartupBanner.InheritedNameEscapesTheMap` | `StartupBanner.GetIcon` |

## Left out

- Text.IntToString: JavaScript writes numbers of magnitude 10^21 and above in exponent notation (`"1e+21"`); the model always writes plain digits, which agrees with the code for every hour it renders.
- Computing the lowest, highest and percentage facts. They come precomputed in `serverData`, which is produced by code that is not part of this model. `ServerData` is taken as opaque input, and its percentages are only forwarded.
- `toFixed(4)` price formatting and the percent badge's truthiness test: these are floating-point string formatting and JSX. Prices are `real`.
- Real timing. `setInterval` and `setTimeout` periods (one hour, `SHOW_DELAY`, `STATS_ROTATION_INTERVAL`) become tick and fire events. `new Date().getHours()` becomes the hour carried by each event.
- `useInView` and `useChartData` are not part of this model. `inView`, the price count, `isLoading` and `lastUpdated` are inputs. `loadToday` is taken to mark the store as loading before the effect runs again. Its fetch, and what the store holds after success or failure, are not modelled.
- `localStorage` is one boolean. A stored empty string, which `!!` would read as "not dismissed", is not modelled; `handleClose` always writes `'true'`.
- `matchMedia`, the reduced-motion listener and `prefersReducedMotion`: browser APIs that only select animation settings.
- The `typeof window` check: the banner is loaded client-side only, so the window always exists in this model.
- The analytics branch of `handleClose`: it has an empty body.
- StartupBanner.View: draws the icon through the corrected lookup `StartupBanner.GetIcon`, not the lookup as written, so an override entry whose icon is an inherited name such as "constructor" gets no icon here, whereas the code's `getIcon` returns a non-null element built from the inherited member (see "## Findings").
- All JSX, styling, framer-motion animation and the `Math.random` particles.
- `ClientStartupBanner`, `Hero`, `Content` and the about and contact pages: these are dynamic imports, error boundaries, markup and server fetches.
