# Landing-page behaviour model

A Dafny model of the stateful parts of a product landing page's
`script.js`: the mobile menu and its scroll lock, the radar blip container,
the live signal feed and its elapsed-time clock, the rotating "months"
counter, and the helix layout pass. The DOM is modelled only in the parts
each feature reads and writes: class flags, inline styles, a container's
children, an element's text. Timers become methods that one firing of
the callback performs. Every method's contract gives the new state it
leaves, most of them through a specification function. The promises the page makes are proved about those functions:
the clock text reads back as the counter, the feed shows the last three
signals, the blip count never passes nine, the months index has period
seven, and the menu never locks scrolling while closed.

Modules, one per feature:

- `ElapsedClock` (`clock.dfy`): the `#feedTime` counter and its HH:MM:SS
  rendering, with a parser as its inverse.
- `LiveFeed` (`live_feed.dfy`): the company table, the badge label and
  the three-item window of `#feedItems`.
- `RadarBlips` (`radar_blips.dfy`): the seeded blips and the
  evict-then-append tick.
- `MonthsCounter` (`months_counter.dfy`): the cyclic index over
  `[6, 5, 4, 3, 4, 5, 6]` and its three transition phases.
- `MobileMenu` (`mobile_menu.dfy`): the button, panel and `body.style.overflow`
  state machine.
- `HelixLayout` (`helix.dfy`): the ten helix nodes and their offsets.

## Model

| member | source | states |
|---|---|---|
| ElapsedClock.Decompose | script.js:152-154 | hours, minutes and seconds recombine to the counter, with minutes and seconds below 60 |
| ElapsedClock.DecomposeUnique | script.js:152-154 | the floor/remainder split is the only split with minutes and seconds below 60 |
| ElapsedClock.Digits | script.js:152-154 | the decimal text of a non-negative integer is non-empty, all digits, has no leading zero, and is one or two characters exactly for values below 10 or 100 |
| ElapsedClock.ValueOfDigits | script.js:152-154 | the decimal text reads back as the number it was made from |
| ElapsedClock.PadStart2 | script.js:152-154 | padStart(2, '0') keeps the text as a suffix, pads only with '0', and gives length max(len, 2) |
| ElapsedClock.Field | script.js:152-154 | a rendered field is all digits, at least two long, and exactly two long iff the value is below 100 |
| ElapsedClock.FieldValue | script.js:152-154 | a padded field reads back as its value, since leading zeros do not change it |
| ElapsedClock.Join | script.js:155 | the template literal places each field whole between the two ':' separators, so each can be cut back out |
| ElapsedClock.FormatElapsed | script.js:152-155 | the clock text has ':' three and six characters from the end, is at least eight long, and is exactly eight long iff fewer than 100 hours have passed |
| ElapsedClock.ParseJoin | script.js:155 | joining two-digit minute and second fields and any hour field with ':' reads back as the seconds they denote |
| ElapsedClock.FieldsRoundTrip | script.js:152-155 | rendering any valid split of n and parsing the text gives n |
| ElapsedClock.RoundTrip | script.js:152-155 | parsing the clock text after n seconds gives back n |
| ElapsedClock.FormatInjective | script.js:152-155 | different counter values never show the same text |
| ElapsedClock.FeedTime.constructor | script.js:148-149 | the counter starts at 0 and the element keeps its markup text |
| ElapsedClock.FeedTime.Tick | script.js:150-156 | one firing increments the counter and shows its HH:MM:SS text, which reads back as the counter |
| LiveFeed.BadgeLabel | script.js:126 | the badge reads HIGH iff the level is 'high', MED iff 'medium', and LOW for every other level |
| LiveFeed.BadgeLabelRoundTrip | script.js:126 | on the three levels the table uses, the label determines the level |
| LiveFeed.CompaniesWellFormed | script.js:100-111 | the table has ten entries, each with a known level and the icon of that level's colour |
| LiveFeed.Render | script.js:116-127 | on the three known levels the badge text gives the badge's CSS class back, so the two never disagree |
| LiveFeed.Insert | script.js:129-134 | the new item goes on top, the window is cut to at most three, and the surviving old items keep their order |
| LiveFeed.InsertKeepsTop | script.js:129-134 | the result is the first min(len, 3) items of the list with the new item on top |
| LiveFeed.WindowIsLastThree | script.js:115-145 | after three or more calls the window is exactly the last three entries inserted, newest first, whatever the markup held |
| LiveFeed.WindowGrows | script.js:129-142 | during the first three calls the window's top k items are the k entries inserted so far, newest first |
| LiveFeed.InitialWindow | script.js:139-142 | the three initial calls show entries 2, 1 and 0, top to bottom |
| LiveFeed.Feed.constructor | script.js:113-142 | after the initial loop the index is 3 and the list shows DataFlow, FinanceHub, TechCorp |
| LiveFeed.Feed.AddFeedItem | script.js:115-137 | one call inserts the rendering of companies[currentIndex % 10] on top, trims to three, advances the index, and keeps the window invariant |
| LiveFeed.Feed.TrimToVisible | script.js:132-134 | the removal loop keeps exactly the top min(len, 3) items, in order |
| RadarBlips.SeedChildren | script.js:60-75 | the seeding creates exactly five blips, one per seed entry, in table order |
| RadarBlips.TickChildren | script.js:79-87 | a tick drops the first child only when there are more than eight, then appends the new blip; the rest keep their order |
| RadarBlips.TickKeepsShape | script.js:78-88 | a tick keeps the container holding the newest min(n, 9) blips, oldest first |
| RadarBlips.AfterTicksShape | script.js:68-88 | after seeding and any number of ticks the container is in that shape |
| RadarBlips.CapHolds | script.js:78-88 | the container never holds more than nine blips |
| RadarBlips.Container.constructor | script.js:68-75 | the container holds exactly the seeded blips |
| RadarBlips.Container.Tick | script.js:78-88 | one firing performs the evict-then-append step, keeps the shape, and leaves at most nine children |
| MonthsCounter.ValuesShape | script.js:216 | the seven values lie between 3 and 6 and read the same backwards |
| MonthsCounter.Advance | script.js:220 | the index steps by one and wraps from 6 to 0 |
| MonthsCounter.IndexAfterIsMod | script.js:217-220 | after k ticks the index is k mod 7 |
| MonthsCounter.Counter.constructor | script.js:213-217 | the index starts at 0 and the element shows its markup |
| MonthsCounter.Counter.Tick | script.js:219-222 | one firing advances the index to ticks mod 7, slides up 10px and fades out |
| MonthsCounter.Counter.Swap | script.js:224-226 | the first timeout shows values[index], which lies in 3..6, placed 10px below; from then until the next tick the text is values[index] |
| MonthsCounter.Counter.Settle | script.js:228-232 | the nested timeout sets the ease transition and returns to rest, fully opaque |
| MobileMenu.Step | script.js:28-50 | a button click toggles both flags and locks scrolling iff the panel is now open; a link click closes; Escape closes an open menu; other keys change nothing |
| MobileMenu.StepKeepsLockstep | script.js:28-50 | every event keeps the button and panel agreeing, with scrolling locked exactly while the panel is open |
| MobileMenu.DismissCloses | script.js:36-49 | a link click or Escape always leaves the menu closed and scrolling free |
| MobileMenu.ToggleTwice | script.js:28-32 | two button clicks restore the state |
| MobileMenu.RunKeepsLockstep | script.js:21-50 | the lockstep holds after any sequence of events |
| MobileMenu.RunOpenAfter | script.js:28-50 | whether the panel is open after a sequence of events is the independent reference: each click flips it, and each link click or Escape resets it to closed |
| MobileMenu.Menu.constructor | script.js:21-26 | the page loads with the menu closed and scrolling free |
| MobileMenu.Menu.OnButtonClick | script.js:28-32 | the click listener performs the button step and keeps the lockstep |
| MobileMenu.Menu.OnLinkClick | script.js:35-41 | a link's listener closes the menu and keeps the lockstep |
| MobileMenu.Menu.OnKeyDown | script.js:44-50 | the key listener closes the menu only on Escape while it is open |
| HelixLayout.LayOutNodes | script.js:244-252 | the loop appends ten nodes, the i-th at top i * 10 + 5 percent with delay 0.2 * i seconds |
| HelixLayout.NodeAt | script.js:249-250 | node i sits at top 10 * i + 5 percent (100 / 10 is exact), its top gives back i, the ten nodes lie within 5%..95%, and its delay is i * 0.2 s |
| HelixLayout.LayoutShape | script.js:244-250 | consecutive nodes are 10% and 0.2 s apart, and the tops are symmetric about the middle |

## Left out

- The number counters and their easing (script.js:163-207) use floating point, `performance.now` and `requestAnimationFrame`. They are not part of this model.
- The scroll reveal, smooth scrolling, form handler, navbar shadow, touch handling and visibility pause (script.js:258-390) are not part of this model. They are event wiring around browser APIs and hold no state the page's behaviour depends on. The navbar's `lastScroll` is assigned but never read; the form's `originalText` only restores the button label (script.js:321, 332). The console banner (script.js:395-397) is not modelled either.
- The early returns taken when an element is missing from the page are not modelled. Each model assumes its elements exist.
- Timers (`setInterval`, `setTimeout`) are not modelled. Each callback is a method, and its caller decides when it runs.
- RadarBlips.Container.Tick: the random position of a new blip (`20 + Math.random() * 60` percent) is not modelled. A new blip carries `Random` in place of coordinates.
- RadarBlips.Container.constructor: assumes the container is empty in the markup, so its children are exactly the blips the script creates. This matters because the tick counts `children`, which holds elements only (script.js:79), but removes `firstChild`, which can be any node (script.js:80). With one whitespace text node in the markup, the first eviction would remove that text node, and the container would settle at ten blips, not nine. Blip ids are a model device that records creation order; the page gives blips no id.
- RadarBlips.SeedChildren: animation delays are kept as tenths of a second (0.5 s is 5). The CSS text `'0.5s'` is not built.
- LiveFeed.Render: the `innerHTML` template is reduced to the five values it interpolates. Markup, whitespace and HTML escaping are not modelled.
- LiveFeed.Feed.AddFeedItem: the DOM child list is a sequence value, so node identity and aliasing are not modelled. The counter's 53-bit limit is not modelled either: `currentIndex` is unbounded.
- ElapsedClock.FeedTime.Tick: JavaScript numbers lose integer precision past 2^53. The model counter is unbounded, which is only reached after far longer than a page stays open.
- MonthsCounter.Counter.Swap: the element text is kept as the number, not the string `textContent` converts it to. Transforms and opacity are kept as numbers, not CSS strings.
- MonthsCounter.Counter.Tick: the page does not keep the shown value equal to values[index]. For the 200 ms after each tick the old value is still shown while the index has already moved (script.js:220 against 225), and before the first tick the markup's text is shown. The model promises the value only from each swap until the next tick (the ghost `swapped` flag of `Counter.Valid`).
- MonthsCounter.Counter.Settle: the 200 ms and 50 ms timeouts are separate methods. Their order relative to the next tick is not enforced, because an interval can fire between them.
- HelixLayout.LayOutNodes: delays are exact tenths. JavaScript computes `i * 0.2` in floating point, which gives values such as 0.6000000000000001 for i = 3; the CSS meaning is the same.
- MobileMenu.Menu.constructor: the button and panel toggle independently in the source. They agree only because both start inactive, and the model proves that lockstep from the closed initial state. Other scripts writing `body.style.overflow` are not modelled.
