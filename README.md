# Interactions — a verified model of the code-viewing pipeline and the demo components

Interactions is a gallery of small interactive UI demos built with Next.js. Every demo page is
wrapped in a *code view*: a toggle slides a panel in from the right that shows the page's own
source, fetched from a server endpoint (`GET /api/component-code?path=…`), which reads the
file from the project directory and refuses paths that leave it. A build script can pre-read a
fixed list of component files into a code map. The demos themselves are stateful React
components: an asset counter with favourite/trash callbacks, a dropdown menu, a travel-time
calculator over three sliders, a range slider with edge thresholds, a button whose letters
slide on hover, and an article whose highlighted spans animate in colour.

This project models that behaviour in Dafny and proves properties of the model.

* `PosixPath` models the POSIX path handling the endpoint relies on (`path.join`,
  `path.normalize`, and the string `startsWith`), as a split into segments, a stack that
  resolves `.` and `..`, and reassembly. It proves that normalizing is idempotent on absolute
  paths, that a request without `..` stays under its root, and that segment-wise containment
  is exactly "equal to the root or starts with root + `/`".
* `Utf8` and `FormUrlEncoding` model how the code view's request carries the component path:
  `encodeURIComponent` over UTF-8 bytes on the client, and the
  `application/x-www-form-urlencoded` parser behind `searchParams.get` on the server. The
  round trip is proved for every string.
* `ComponentCodeRoute` is the endpoint's guard ladder (400, 403, 404, 200, 500) over an
  abstract file system. `CodeViewLayout` is the client that requests the code and decides what
  text to show. `CodeViewToggle` is the panel: toggling, closing, copying, and the copied flag
  that resets after 2000 ms of an abstract clock.
* `PrepareCodeMap` is the build script's loop over its seven component paths.
* `AssetCounter`, `AssetCounterDemo`, `Dropdown`, `TravelTimeCalculator`, `RangeSlider`,
  `AnimatedButton` and `TextHighlight` are the demo components. Each one is a class whose
  methods are the event handlers, next to pure functions for what is rendered.

Two facts about the code shape the model:

* `route.ts` only reads the live file system, and the code map the build script writes is never
  read by the endpoint.
* The client has no guard against stale responses. `CodeViewLayout.LateResponseWins` shows a
  late response for an old path overwriting the text for the new one.

Two defects found while verifying are listed under Findings. The rest of the model uses the
corrected definitions: `ComponentCodeRoute.Get` uses `RespondContained`, and
`TravelTimeCalculator.Calculator` uses `Split`. The as-written definitions remain, together
with the lemmas that exhibit each defect.

## Model

| member | source | states |
|---|---|---|
| PosixPath.JoinSplit | src/app/api/component-code/route.ts:18-20 | splitting a path on `/` and joining the segments back gives the same string, so the segment view of a path loses nothing |
| PosixPath.NormalizeIdempotentAbsolute | src/app/api/component-code/route.ts:19-20 | normalizing an absolute path a second time changes nothing |
| PosixPath.NormalizeDir | src/app/api/component-code/route.ts:20 | a directory given as plain names normalizes to itself |
| PosixPath.NormalizedRequest | src/app/api/component-code/route.ts:18-19 | the joined and normalized request path is the root followed by the request's resolved segments |
| PosixPath.NoDotDotStaysUnder | src/app/api/component-code/route.ts:18-23 | a request path with no `..` segment, joined to a root and normalized, still starts with the normalized root |
| PosixPath.NoDotDotSegments | src/app/api/component-code/route.ts:18-19 | without `..`, the request's segments are the root's names followed by the request's names with empty and `.` segments dropped |
| PosixPath.WithinIffSegmentPrefix | src/app/api/component-code/route.ts:17-23 | a normalized path is inside the root, in the sense of equal to it or starting with root + `/`, exactly when the root's segments are a prefix of its segments |
| Utf8.DecodeEncode | src/components/code-view-layout.tsx:23 | decoding the UTF-8 encoding of any string gives the string back |
| Utf8.EncodeAscii | src/components/code-view-layout.tsx:23 | an ASCII string encodes to one byte per character, each equal to its code |
| FormUrlEncoding.PercentEncodeBytes | src/components/code-view-layout.tsx:23 | every byte `encodeURIComponent` emits is an unreserved character, `%` or a hex digit |
| FormUrlEncoding.PercentDecodeEncode | src/components/code-view-layout.tsx:23 | percent-decoding undoes percent-encoding for every byte sequence |
| FormUrlEncoding.EncodedHasNoSyntax | src/components/code-view-layout.tsx:23 | an encoded component contains no `&`, `=` or `+`, so the query parser cannot split or alter it |
| FormUrlEncoding.GetParam | src/app/api/component-code/route.ts:6-7 | the lookup returns the value of the first pair with the given name, and nothing when no pair has it |
| FormUrlEncoding.QueryRoundTrip | src/app/api/component-code/route.ts:6-7 | parsing `path=` + encodeURIComponent(p) and looking up `path` yields exactly p, for every string p |
| ComponentCodeRoute.Respond | src/app/api/component-code/route.ts:5-48 | the endpoint answers only 200, 400, 403, 404 or 500, and carries code exactly when the status is 200 |
| ComponentCodeRoute.BadRequestIffMissing | src/app/api/component-code/route.ts:9-14 | the status is 400 exactly when the parameter is absent or empty, with the "Component path is required" message |
| ComponentCodeRoute.ForbiddenReadsNothing | src/app/api/component-code/route.ts:22-28 | 403 happens exactly when the normalized path fails the prefix check, and then the answer does not depend on the file system |
| ComponentCodeRoute.ContainedOutcome | src/app/api/component-code/route.ts:30-47 | once the check passes, a missing file gives 404, an unreadable one 500, and a readable one 200 with its exact contents |
| ComponentCodeRoute.GuardOrder | src/app/api/component-code/route.ts:9-36 | any answer past a guard implies that guard passed: the parameter was present before 403, 404, 500 or 200, and the prefix check passed before 404, 500 or 200 |
| ComponentCodeRoute.NoDotDotNeverForbidden | src/app/api/component-code/route.ts:23-28 | a non-empty request without `..` under any root is never refused with 403 |
| ComponentCodeRoute.SiblingDirectoryServed | src/app/api/component-code/route.ts:23 | as written, with root `/app` the request `../app2/x` passes the check and the sibling file `/app2/x` is served with 200 |
| ComponentCodeRoute.RespondContained | src/app/api/component-code/route.ts:5-48 | the corrected endpoint answers with code exactly when the status is 200 |
| ComponentCodeRoute.ContainedReadsOnlyInside | src/app/api/component-code/route.ts:17-23 | whenever the corrected endpoint does not refuse, the resolved path's segments begin with the root's segments, so any file it reads lies inside the root |
| ComponentCodeRoute.ContainedRefusesSibling | src/app/api/component-code/route.ts:23-28 | the corrected endpoint refuses the sibling-directory request with 403 |
| ComponentCodeRoute.ContainedAgreesWithoutDotDot | src/app/api/component-code/route.ts:17-28 | for requests without `..` the corrected and the written endpoint give the same answer, which is never 403 |
| ComponentCodeRoute.GetOfRequestQuery | src/components/code-view-layout.tsx:23 | the query the code view sends reaches the endpoint carrying exactly the component path it encoded |
| CodeViewLayout.NotOkIsThrownFailure | src/components/code-view-layout.tsx:24-36 | a non-ok response ends in the same text as a rejection carrying "Failed to fetch component code", since it is thrown with that message and caught; every error text starts with "Error loading code: " |
| CodeViewLayout.ShownTextThroughRoute | src/components/code-view-layout.tsx:21-37 | end to end, a 200 shows the file's contents, and any other status shows the fixed fetch-failed text |
| CodeViewLayout.Layout.constructor | src/components/code-view-layout.tsx:13-23 | the text starts as "Loading code...", and the first render issues one request unless the page is the home page `/` |
| CodeViewLayout.Layout.SetComponentPath | src/components/code-view-layout.tsx:21-37 | a new request is issued only when the path changes and the page is not `/`; the shown text is kept |
| CodeViewLayout.Layout.Complete | src/components/code-view-layout.tsx:24-36 | a completing request, whichever one it is, sets the shown text from its outcome and changes nothing else |
| CodeViewLayout.LateResponseWins | src/components/code-view-layout.tsx:21-37 | after switching from path "a" to "b", a late response for "a" leaves the code of "a" shown under path "b" |
| CodeViewToggle.ElementShift | src/components/code-view-toggle/code-view-toggle.tsx:85-90 | content and toggle move left by half the panel width plus margin (344 px) when the panel is open, and not at all when closed |
| CodeViewToggle.KnobFollowsShift | src/components/code-view-toggle/code-view-toggle.tsx:81-90 | the knob sits at 20 px exactly when the content is shifted by half the panel width, and at 0 exactly when the content is not shifted |
| CodeViewToggle.ContentFillsSpaceBesidePanel | src/components/code-view-toggle/code-view-toggle.tsx:99-111 | the shifted, narrowed content's left edge stays at the viewport's left edge, whether the panel is open or closed |
| CodeViewToggle.Toggle.constructor | src/components/code-view-toggle/code-view-toggle.tsx:19-28 | the panel starts closed, not copied, with no timer and the body class off |
| CodeViewToggle.Toggle.ToggleCode | src/components/code-view-toggle/code-view-toggle.tsx:186 | flips the panel, and the body's horizontal-overflow class follows it (lines 31-40); the copy state is untouched |
| CodeViewToggle.Toggle.Close | src/components/code-view-toggle/code-view-toggle.tsx:150 | the panel is closed and the body class removed; closing a closed panel changes nothing |
| CodeViewToggle.Toggle.CopyToClipboard | src/components/code-view-toggle/code-view-toggle.tsx:53-60 | a successful write puts the code on the clipboard and sets copied, arming a 2000 ms reset only if it was not already copied; a failed write changes nothing |
| CodeViewToggle.Toggle.AdvanceTo | src/components/code-view-toggle/code-view-toggle.tsx:43-50 | as time passes, copied turns off exactly when its reset time has been reached |
| CodeViewToggle.Toggle.Unmount | src/components/code-view-toggle/code-view-toggle.tsx:37-39 | unmounting removes the body class and cancels the pending reset |
| CodeViewToggle.SecondCopyKeepsTimer | src/components/code-view-toggle/code-view-toggle.tsx:43-50 | copying again at 1500 ms does not restart the timer: copied is still on at 1999 ms and off at 2000 ms |
| PrepareCodeMap.BuildCodeMap | scripts/prepare-code-map.js:21-34 | the loop's map is the map built from all the component paths |
| PrepareCodeMap.CodeMapContents | scripts/prepare-code-map.js:21-33 | a path is in the map exactly when it is listed and its file exists and reads, and its value is that file's contents |
| PrepareCodeMap.CodeMapSize | scripts/prepare-code-map.js:21-34 | for distinct paths, the map has one entry per readable file |
| PrepareCodeMap.ComponentPathsMap | scripts/prepare-code-map.js:7-15 | for the fixed seven paths, the map holds only listed paths, one per readable file |
| AssetCounter.NavigationInRange | src/components/asset-counter/asset-counter.tsx:143-153 | from an index in range, next and previous stay in range and equal (i + 1) mod total and (i - 1) mod total |
| AssetCounter.NextPrevInverse | src/components/asset-counter/asset-counter.tsx:143-153 | previous undoes next and next undoes previous |
| AssetCounter.NextTimesModular | src/components/asset-counter/asset-counter.tsx:149-153 | pressing next n times from i lands on (i + n) mod total |
| AssetCounter.DisplayAfterPresses | src/components/asset-counter/asset-counter.tsx:149-207 | after any number of presses of next from a valid position, the counter shows a one-based position between 1 and the total, namely (i + n) mod total + 1 |
| AssetCounter.Counter.constructor | src/components/asset-counter/asset-counter.tsx:126-136 | the counter starts at the initial index with the given lists and no events |
| AssetCounter.Counter.SetInitialIndex | src/components/asset-counter/asset-counter.tsx:139-141 | a changed initial index replaces the current index and nothing else |
| AssetCounter.Counter.SetLists | src/components/asset-counter/asset-counter.tsx:133-134 | new favourite and trash lists replace the old ones; index and events are kept |
| AssetCounter.Counter.HandlePrevious | src/components/asset-counter/asset-counter.tsx:143-147 | moves to the previous index with wrap-around and reports the new index once |
| AssetCounter.Counter.HandleNext | src/components/asset-counter/asset-counter.tsx:149-153 | moves to the next index with wrap-around and reports the new index once |
| AssetCounter.Counter.HandleFavorite | src/components/asset-counter/asset-counter.tsx:155-157 | reports the current index to the favourite callback and changes nothing else |
| AssetCounter.Counter.HandleTrash | src/components/asset-counter/asset-counter.tsx:159-161 | reports the current index to the trash callback; the button is disabled while the current asset is trashed (line 301) |
| AssetCounter.Counter.HandleDropdownSelect | src/components/asset-counter/asset-counter.tsx:163-165 | reports the chosen collection and changes nothing else |
| AssetCounter.CollectionMenu.constructor | src/components/asset-counter/asset-counter.tsx:29 | the collection menu starts closed |
| AssetCounter.CollectionMenu.ToggleOpen | src/components/asset-counter/asset-counter.tsx:39 | the menu button flips the menu open or closed |
| AssetCounter.CollectionMenu.ItemClick | src/components/asset-counter/asset-counter.tsx:31-34 | clicking an item reports it and closes the menu |
| AssetCounterDemo.RemoveAll | src/components/asset-counter-demo/asset-counter-demo.tsx:18 | filtering removes every occurrence of the index and keeps every other element with its multiplicity |
| AssetCounterDemo.ToggleFavoriteFlips | src/components/asset-counter-demo/asset-counter-demo.tsx:14-23 | toggling flips the index's membership and leaves every other index's membership unchanged |
| AssetCounterDemo.ToggleFavoriteTwice | src/components/asset-counter-demo/asset-counter-demo.tsx:14-23 | toggling the same index twice restores the original membership |
| AssetCounterDemo.AddToTrashProperties | src/components/asset-counter-demo/asset-counter-demo.tsx:25-32 | trashing keeps every trashed index, adds the index exactly once if absent, adds nothing else, and is idempotent |
| AssetCounterDemo.AssetAfterTrashInRange | src/components/asset-counter-demo/asset-counter-demo.tsx:34-38 | the demo moves on exactly when fewer than four assets were trashed before, to the next index with wrap-around at 5 |
| AssetCounterDemo.Decimal | src/components/asset-counter-demo/asset-counter-demo.tsx:90 | a number renders as a non-empty string of decimal digits |
| AssetCounterDemo.DecimalValueOfDecimal | src/components/asset-counter-demo/asset-counter-demo.tsx:90 | reading the rendered digits back gives the number |
| AssetCounterDemo.NotificationNamesAsset | src/components/asset-counter-demo/asset-counter-demo.tsx:78-91 | choosing an existing collection shows exactly "Asset ", the one-based asset number's digits (read back as that number), " moved to " and the collection's name |
| AssetCounterDemo.NewCollectionNotice | src/components/asset-counter-demo/asset-counter-demo.tsx:88-90 | choosing "New Collection" shows "Creating a new collection...", whatever the asset |
| AssetCounterDemo.MenuNotices | src/components/asset-counter/asset-counter.tsx:172 | every entry of the counter's collection menu produces a notice; the last entry is "New Collection", and every other entry's notice ends with its name |
| AssetCounterDemo.Demo.constructor | src/components/asset-counter-demo/asset-counter-demo.tsx:8-11 | the demo starts at asset 0 with no favourites, no trash and no collection |
| AssetCounterDemo.Demo.SetCurrentAsset | src/components/asset-counter-demo/asset-counter-demo.tsx:67 | the counter's index callback sets the current asset and nothing else |
| AssetCounterDemo.Demo.HandleFavorite | src/components/asset-counter-demo/asset-counter-demo.tsx:14-23 | the favourites become the toggled list; nothing else changes |
| AssetCounterDemo.Demo.HandleTrash | src/components/asset-counter-demo/asset-counter-demo.tsx:25-39 | the trash gains the index, and the next asset is chosen from the trash as it was before the call |
| AssetCounterDemo.Demo.HandleDropdownSelect | src/components/asset-counter-demo/asset-counter-demo.tsx:41-42 | the chosen collection is recorded; nothing else changes |
| AssetCounterDemo.TrashEverything | src/components/asset-counter-demo/asset-counter-demo.tsx:25-39 | trashing the current asset five times visits assets 1, 2, 3, 4 and then stays on 4, with all five trashed |
| Dropdown.DefaultIcon | src/components/dropdown/dropdown.tsx:16-21 | a default icon exists exactly for "Profile", "Settings", "Help" and "Sign out" |
| Dropdown.ProcessItems | src/components/dropdown/dropdown.tsx:50-58 | every item becomes a labelled item with the same text and order; plain strings get their default icon, and labelled items pass through unchanged |
| Dropdown.ProcessItemsIdempotent | src/components/dropdown/dropdown.tsx:50-58 | processing already processed items changes nothing |
| Dropdown.Menu.constructor | src/components/dropdown/dropdown.tsx:41 | the menu starts closed with nothing selected |
| Dropdown.OpenMenuShowsEveryItem | src/components/dropdown/dropdown.tsx:50-83 | an open menu lists every item in order under its own label, with the default icon for a plain label and the item's own icon otherwise |
| Dropdown.Menu.ToggleDropdown | src/components/dropdown/dropdown.tsx:45-47 | the button flips the menu; opening it shows as many entries as there are items, and closing it shows none |
| Dropdown.Menu.SelectItem | src/components/dropdown/dropdown.tsx:123-126 | selecting reports the item's text and closes the menu, which then shows no entries |
| TravelTimeCalculator.InitialValuesInRange | src/components/travel-time-calculator/travel-time-calculator.tsx:23-40 | the initial slider values lie within their sliders' bounds |
| TravelTimeCalculator.BreakTime | src/components/travel-time-calculator/travel-time-calculator.tsx:43-48 | the break is never negative, and is zero below 150 km |
| TravelTimeCalculator.LongTripBreakRate | src/components/travel-time-calculator/travel-time-calculator.tsx:47 | beyond 1000 km, 150 km more adds half an hour of break (30 minutes per 150 km, not the 10 the comment on that line suggests) |
| TravelTimeCalculator.BreakTimeMonotone | src/components/travel-time-calculator/travel-time-calculator.tsx:43-48 | a longer distance never gives a shorter break |
| TravelTimeCalculator.TravelHoursInRange | src/components/travel-time-calculator/travel-time-calculator.tsx:60 | within the sliders' bounds the speed is at least 40 and the travel time is non-negative |
| TravelTimeCalculator.SplitAsWrittenBounds | src/components/travel-time-calculator/travel-time-calculator.tsx:63-64 | as written, the minutes lie between 0 and 60 inclusive, and hours × 60 + minutes is the total rounded to minutes |
| TravelTimeCalculator.SixtyMinutesShown | src/components/travel-time-calculator/travel-time-calculator.tsx:63-64 | as written, 160 km at 70 km/h with factor 1.2 is shown as 2 h 60 min |
| TravelTimeCalculator.Split | src/components/travel-time-calculator/travel-time-calculator.tsx:63-64 | the corrected split keeps minutes below 60 with the same total in minutes |
| TravelTimeCalculator.SplitAgreesBelowSixty | src/components/travel-time-calculator/travel-time-calculator.tsx:63-64 | the corrected split equals the written one except when the written one shows 60 minutes, where it carries into the hour |
| TravelTimeCalculator.Calculator.constructor | src/components/travel-time-calculator/travel-time-calculator.tsx:22-23 | the first estimate, for 300 km, 60 km/h and factor 1.5, is 7 h 45 min (effect at lines 69-73) |
| TravelTimeCalculator.Calculator.HandleSliderChange | src/components/travel-time-calculator/travel-time-calculator.tsx:75-79 | only the moved slider's value changes, and the estimate is recomputed from the new values with minutes below 60 |
| RangeSlider.PercentageOf | src/components/RangeSlider.tsx:40 | the percentage is a finite number exactly when max differs from min |
| RangeSlider.PercentageInRange | src/components/RangeSlider.tsx:40 | a value between min and max gives a percentage between 0 and 100 |
| RangeSlider.ThresholdsOnValue | src/components/RangeSlider.tsx:43-44 | near-min holds exactly when the value is within the first tenth of the range, and near-max exactly when it is in the last twentieth |
| RangeSlider.NeverNearBoth | src/components/RangeSlider.tsx:43-44 | no percentage is near both ends |
| RangeSlider.LabelVisibility | src/components/RangeSlider.tsx:106-144 | exactly one of the value label and the min label is visible; the max label hides exactly near max, and the value label is then visible |
| TravelTimeCalculator.SliderValueDigits | src/components/travel-time-calculator/travel-time-calculator.tsx:111 | the calculator's one-decimal rule for the traffic factor (index 2) agrees with the range slider's step-below-1 rule (RangeSlider.tsx:116) for all three slider configurations |
| RangeSlider.Slider.constructor | src/components/RangeSlider.tsx:39 | the slider starts not dragging |
| RangeSlider.Slider.PointerDown | src/components/RangeSlider.tsx:58-60 | pressing starts dragging |
| RangeSlider.Slider.PointerUp | src/components/RangeSlider.tsx:62-64 | releasing stops dragging |
| AnimatedButton.HoverSchedules | src/components/ui/AnimatedButton/AnimatedButton.tsx:216-256 | on hover the default letters leave 30 ms apart starting with the first, and no hover letter starts entering before every default letter has started leaving |
| AnimatedButton.UnhoverSchedules | src/components/ui/AnimatedButton/AnimatedButton.tsx:216-256 | on leave the default letters return from the last to the first, the last one after (hover length + 2) × 30 ms, and each starts at least 90 ms after every hover letter has started leaving |
| AnimatedButton.RenderDefault | src/components/ui/AnimatedButton/AnimatedButton.tsx:230 | the rendered text has the same length, no plain space, and every other character unchanged |
| AnimatedButton.RenderDefaultPositions | src/components/ui/AnimatedButton/AnimatedButton.tsx:230 | every position holds either its own character or, where the text had a space, a no-break space |
| AnimatedButton.Button.constructor | src/components/ui/AnimatedButton/AnimatedButton.tsx:34 | the button starts not hovered, before mounting and loading |
| AnimatedButton.Button.Ready | src/components/ui/AnimatedButton/AnimatedButton.tsx:41-68 | records whether the button is mounted and the animation library loaded, keeping the hover state |
| AnimatedButton.Button.MouseEnter | src/components/ui/AnimatedButton/AnimatedButton.tsx:70-131 | entering sets hovered only when the button is mounted and the library loaded; otherwise nothing changes |
| AnimatedButton.Button.MouseLeave | src/components/ui/AnimatedButton/AnimatedButton.tsx:134-195 | leaving clears hovered only when the button is mounted and the library loaded; otherwise nothing changes |
| TextHighlight.ColorCycles | src/components/text-highlight/text-highlight.tsx:104-107 | colours repeat every three slots, and adjacent slots differ, down to the gradient's hex value |
| TextHighlight.Store | src/components/text-highlight/text-highlight.tsx:136 | storing at an index puts the element there, grows the array with holes when needed, and keeps every other slot |
| TextHighlight.RegisterTwice | src/components/text-highlight/text-highlight.tsx:134-138 | registering an element already present changes nothing, whatever index it is offered at |
| TextHighlight.AnimationsExactlyRegistered | src/components/text-highlight/text-highlight.tsx:101-131 | animations are created exactly for the filled slots, in slot order, each with its slot's colour |
| TextHighlight.PageColors | src/components/text-highlight/text-highlight.tsx:163-207 | the article's five highlights at slots 0, 2, 3, 4 and 6 get green, blue, green, pink and green |
| TextHighlight.Article.constructor | src/components/text-highlight/text-highlight.tsx:22 | the article starts with no refs, nothing loaded and no animations |
| TextHighlight.Article.AddToHighlightRefs | src/components/text-highlight/text-highlight.tsx:134-138 | the ref callback registers the element and changes nothing else |
| TextHighlight.Article.Loaded | src/components/text-highlight/text-highlight.tsx:47-56 | records which of the two scripts have loaded |
| TextHighlight.Article.InitAnimations | src/components/text-highlight/text-highlight.tsx:83-132 | without both scripts nothing happens; with both, one animation per registered highlight is added, as specified by the animation list |

## Left out

- Strings are sequences of Unicode scalar values, not UTF-16 code units. Lone surrogates are outside the round trip.
- Utf8.DecodeOne: malformed UTF-8 is decoded differently from the WHATWG decoder, which replaces each maximal subpart with one U+FFFD. Malformed input never arises from the client's own encoding and is outside the model.
- The URL parser's own re-encoding of the query string is not modelled. The endpoint receives the bytes the client wrote.
- `process.cwd()` is a parameter. The file system is a map from normalized absolute paths to file contents or an unreadable marker. Symbolic links, permissions and other processes are not modelled.
- The code map the build script produces is never read by the endpoint, so no snapshot mode is modelled.
- The build script's output step is not modelled: the directory creation, writing `code-map.ts`, the `JSON.stringify` of the map, and console logging.
- Console logging in the endpoint and the client is not modelled.
- The fetch transport and JSON decoding are folded into a three-way outcome: ok with code, a non-ok status, or a failure with a message.
- The clipboard write is a boolean parameter (succeeds or throws). The await is treated as atomic.
- Timers are an abstract clock advanced with `AdvanceTo`.
- Close and Copy are not restricted to an open panel. The exit animation keeps the panel's buttons clickable while it closes.
- The `isMounted` flag of the toggle only gates animation, so it is not modelled.
- Spring transitions, framer-motion variants, the ripple geometry (its `sqrt`) and GSAP timelines are presentation, and are not modelled. The model keeps the delays, opacities, offsets and colours that decide what is shown.
- Script loading is reduced to the flags set by the `onload` handlers.
- Numbers are exact reals and integers, not IEEE doubles.
  - The range slider's division by zero is modelled as NaN or ±Infinity.
  - `parseFloat` of the step is not modelled; the step is a real.
- Dropdown.DefaultIcon: the source's lookup object also answers inherited keys such as "constructor". Only the four listed labels are modelled.
- The class-name delays in the animated button are not modelled. The inline `transitionDelay` style overrides them, and only the inline delays are modelled.
- `TimeDisplay` and `NumberDisplay` are digit animations of a number. The model keeps the number they are given.
- React's rendering, hooks and effect ordering are not modelled. Each effect is a method the caller invokes when its dependencies change.
- AssetCounter.Counter.HandleTrash: the precondition stands for the disabled button at line 301. The handler itself has no guard.
- TravelTimeCalculator.Calculator.HandleSliderChange: recomputes the estimate with the corrected split, so minutes stay below 60. The program as written can show 60 minutes (2 h 60 min for 160 km, 70 km/h, factor 1.2); see Findings.
- TravelTimeCalculator.Calculator.constructor: uses the corrected split as well; for the initial values both splits give 7 h 45 min.
- The asset counter's favourite-icon fill (line 168) is presentation and is not modelled.

## Findings

| source | as written | input that shows it | evidently intended | confidence | as-written member | corrected member |
|---|---|---|---|---|---|---|
| src/app/api/component-code/route.ts:23 | containment is a character-prefix test `startsWith(normalizedProjectPath)` | project directory `/app`, path `../app2/x`: the normalized path `/app2/x` starts with `/app`, and the sibling directory's file is served with 200 | only paths equal to the project directory or below it (prefix followed by `/`) are readable | high; not executed | ComponentCodeRoute.SiblingDirectoryServed | ComponentCodeRoute.RespondContained |
| src/components/travel-time-calculator/travel-time-calculator.tsx:63-64 | minutes are `Math.round` of the fractional hour times 60, which can round up to 60 | 160 km, 70 km/h, traffic factor 1.2: 419/140 h is shown as 2 h 60 min | the minutes carry into the hour and stay below 60 (3 h 0 min) | high; not executed | TravelTimeCalculator.SixtyMinutesShown | TravelTimeCalculator.Split |
