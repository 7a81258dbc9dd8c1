# 3D resume: a verified model of its interaction logic and build step

The page shows a cube whose six faces are the sections of a resume (profile,
skills, experience, projects, education, contact). A click on a face or on a
floating icon, or a click on a navigation button, turns the cube. The same
click renders the matching section in the side panel and highlights the
matching button. A small build script stamps the page's stylesheet and script
references with a timestamp, so browsers fetch new copies.

This project models the parts of `app.js` and `build.js` that are the
repository's own logic, and proves what they do:

- `wrap_text.dfy` (module `WrapText`): the greedy word wrap `wrapText`, as an
  imperative loop. It is proved against the line grouping `WrapGroups`, whose
  properties hold for any text-measuring function.
- `orientation.dfy` (module `Orientation`): the section tables, the cube pose,
  the cubic ease-out and the sampling of a tween.
  - Every angle in the tables is a multiple of π/2, so poses are held exactly
    as quarter turns.
  - Quaternion interpolation is an uninterpreted `Slerp` term.
- `scene.dfy` (module `Scene`): the page state as the class `App`, with one
  method per event handler:
  - `rotateTo`;
  - the scene click handler;
  - the navigation buttons;
  - `pick`;
  - `showTooltip` and its removal;
  - the two checkboxes;
  - the flag-guarded parts of `tick`;
  - the start of `main`.

  The click handler is proved against a step-by-step function `ClickUi`, and
  that function against a closed form, `Visits`. The invariants cover:
  - the orbit controls and the particle system mirror their flags;
  - the cursor is `pointer` exactly while hovering;
  - at most one tooltip is in the document, and its removal timer is pending;
  - the active buttons exist.
- `cache_bust.dfy` (module `CacheBust`): the two global replacements of
  `build.js`, modelled as a leftmost, non-overlapping, greedy scan, and the
  version string.
- `wrappers.dfy`: the `Option` type.

Several external inputs are parameters of the model:
- the clock (`now`);
- the ray-cast hits (`cubeHit`, `iconHit` and the hit face or icon as a `Section`);
- the canvas `measureText` (a function from strings to widths);
- the build timestamp.

Timers and animation frames are explicit calls:
- `App.Animate` for one frame of one tween;
- `App.ExpireTooltip` for a tooltip's removal timer;
- `App.Tick` for one frame of the loop.

The model follows the code as written, including these behaviours:
- `rotateTo` cancels no earlier tween: every call adds a tween that keeps being sampled.
- `rotateTo` activates only the first element in the document whose `data-face` is the key, because it uses `querySelector`.
- A navigation click changes neither `currentFace` nor the panel, so the active
  button can differ from `currentFace`.
- The auto-rotate drift in `tick` never runs, because the orbit controls always
  mirror the auto-rotate flag.

## Model

| member | source | states |
|---|---|---|
| WrapText.Split | app.js:140 | `text.split(' ')` yields at least one piece, none holding a space, and gluing the pieces with single spaces gives the text back |
| WrapText.SplitJoin | app.js:140 | splitting pieces glued with single spaces gives the pieces back, so `Split` and `Join` are inverse |
| WrapText.SpacedJoin | app.js:143 | the words each followed by one space are the text with one trailing space |
| WrapText.WrapFrom | app.js:141-151 | from word `n` on, the loop draws at least one more line and at most one per remaining word, plus the current one |
| WrapText.WrapGroups | app.js:139-154 | `wrapText` draws at least one line, and no more lines than words (one for an empty word list) |
| WrapText.WrapFromFlatten | app.js:141-151 | the lines still to be drawn hold exactly the current line's words and the remaining words, in order |
| WrapText.WrapFromHead | app.js:141-151 | the current line's words begin the next line drawn |
| WrapText.WrapFromNonEmpty | app.js:145-150 | every drawn line holds at least one word, because no break happens at word 0 |
| WrapText.WrapFromFits | app.js:145-150 | a line of two or more words measures at most `maxWidth` |
| WrapText.WrapFromGreedy | app.js:145-150 | a line ends only when its next word would push the measured text past `maxWidth` |
| WrapText.WrapGroupsSpec | app.js:139-154 | for any measure: at least one line, all words in order, no empty line, the first word opens the first line, every line fits or is one word, and every break is forced |
| WrapText.DrawnTextFlatten | app.js:146-153 | the drawn texts run together are the words of the lines, each followed by a space |
| WrapText.Drawn | app.js:146-153 | one `fillText` per line |
| WrapText.DrawnAt | app.js:146-153 | the k-th `fillText` draws the k-th line at `(x, y + k * lineHeight)` |
| WrapText.BreakStep | app.js:145-149 | a loop step that ends a line leaves the overall line structure unchanged |
| WrapText.WrapText | app.js:139-154 | the `fillText` calls are the drawing of `WrapGroups`; at least one line; the text drawn is `text` plus one space; line k is at `y + k * lineHeight` |
| WrapText.WrapTextLines | app.js:139-154 | the drawing of the greedy grouping has at least one line, spells the text plus a trailing space, and steps down one `lineHeight` per line |
| Orientation.Key | app.js:379-422 | each `faceKey` is a non-empty word of lower-case letters |
| Orientation.SectionOf | app.js:587-594 | a key renders only the section whose `faceKey` it is |
| Orientation.FindSpec | app.js:558-566 | a `switch` answers a case whose key is the given key, and no case only when no case has that key |
| Orientation.FindKey | app.js:558-566 | a case's own key selects that case |
| Orientation.KeyInjective | app.js:379-422 | distinct sections have distinct `faceKey`s |
| Orientation.SectionOfSpec | app.js:587-594 | a key renders a section exactly when it is that section's `faceKey`; any other key renders nothing |
| Orientation.SectionOfKey | app.js:587-594 | the key of each section renders that section |
| Orientation.TargetOf | app.js:558-566 | each case's target turns about at most one axis, and only the profile case has the zero pose |
| Orientation.RotateTarget | app.js:558-566 | every target turns about at most one axis; a key outside the table aims at the zero pose of the default branch; and the zero pose is the aim exactly of `'profile'` and of keys outside the table |
| Orientation.TargetsDistinct | app.js:558-566 | the six section keys have six pairwise distinct target poses |
| Orientation.NavAngles | app.js:666-673 | the navigation switch gives each section the same angles as the `rotateTo` switch |
| Orientation.NavTarget | app.js:666-673 | the navigation table sets a pose exactly for the six section keys, the same pose as `rotateTo`; other keys leave the pose alone |
| Orientation.SpinY | app.js:654 | `rotation.y += π/2` adds exactly one quarter turn about y to known Euler angles, and otherwise records the turn on the pose term; the result is always a different pose term |
| Orientation.Ease | app.js:579 | the eased progress is 0 when the tween starts and 1 when its time is up |
| Orientation.EaseShape | app.js:579 | on `[0, 1)` the eased progress `1 - (1 - t)^3` is 0 at 0, stays in `[0, 1)` and strictly increases |
| Orientation.EaseBounds | app.js:579 | the eased progress at any `t` in `[0, 1)` lies in `[0, 1)` |
| Orientation.Sample | app.js:573-583 | before one second the sample is the slerp from the copied start toward the target at an eased value in `[0, 1)`, and another frame is requested; from one second on the target is copied exactly and the loop stops |
| Orientation.SampleProgresses | app.js:573-583 | a later sample of a running tween is strictly further along |
| Orientation.SampleSettles | app.js:573-583 | once a tween has stopped, every later sample is the exact target |
| Scene.Description | app.js:385-420 | every tooltip text starts with `View ` |
| Scene.DescriptionsDistinct | app.js:385-420 | each face has its own tooltip text |
| Scene.ClickRotations | app.js:621-656 | a click makes one `rotateTo` call for the hovered face hit, if any, then one for the icon hit, if any: the face first and the icon last |
| Scene.VisitUi | app.js:621-656 | one face's visit leaves the active buttons valid and exactly one tooltip in the document, with its removal timer pending and a serial below the next |
| Scene.ClickUi | app.js:621-656 | the click handler keeps the tooltip and button invariants: valid active buttons, at most one tooltip, each with a pending timer, and every timer's serial below the next |
| Scene.Visits | app.js:621-656 | any series of visits keeps the same invariants |
| Scene.FirstButton | app.js:600 | `querySelector` answers the first element in document order whose `data-face` is the key, and nothing exactly when none carries it |
| Scene.Tried | app.js:621-656 | the `rotateTo` calls of a click that get run are a prefix of the intended calls: all of them, or up to the first whose key has no button |
| Scene.EndingTried | app.js:621-656 | a handler making a series of `rotateTo` calls ends normally exactly when every call's key has a button; otherwise it throws for the first key that none has |
| Scene.RotateAll | app.js:553-584 | after a series of `rotateTo` calls the cube is the start of the slerp toward the last call's target |
| Scene.TweensOf | app.js:553-584 | each `rotateTo` call adds one tween toward its own target, started at that instant |
| Scene.ScheduleTimers | app.js:527-531 | `n` tooltips add exactly the removal timers of their serials, all at the same firing time, and keep the others |
| Scene.Landed | app.js:602 | `currentFace` after a series of calls is the last key among them that has a button, or the earlier value |
| Scene.TriedSnoc | app.js:621-656 | when every earlier call got through, the next call runs too |
| Scene.VisitsRotate | app.js:621-656 | after the visited faces the cube pose and the tween list are `RotateAll` and `TweensOf` of those faces |
| Scene.VisitsLand | app.js:621-656 | after the visited faces `currentFace` is `Landed` of those faces |
| Scene.VisitsSchedule | app.js:621-656 | after the visited faces, one tooltip serial and one removal timer per face |
| Scene.VisitsShow | app.js:621-656 | after the visited faces, the last face's panel, button and tooltip show; flags, hover state and loop are unchanged |
| Scene.ClickThrows | app.js:621-639 | a click on a hovered face whose key has no button stops right after that face's visit |
| Scene.ClickIcon | app.js:641-651 | a click on an icon visits the hovered face, if any, then the icon |
| Scene.ClickSpin | app.js:652-655 | a click on no icon visits the hovered face, if any, then adds a quarter turn about y, even when a face was hit |
| Scene.ClickSummary | app.js:621-656 | the step-by-step handler equals the closed form: visits of the calls that got run, plus the quarter turn when no icon was hit and nothing threw |
| Scene.ClickIconWins | app.js:621-656 | when a hovered face and an icon are both hit, the icon's key is the final `currentFace` and its panel, button and tooltip show |
| Scene.App.constructor | app.js:7-10 | the module's top level: `currentFace` is `'profile'`, auto-rotate off, particle effects on, no controls or particle system yet |
| Scene.App.OnAutoRotateChange | app.js:46-49 | the flag takes the checkbox value, and the controls mirror it once they exist |
| Scene.App.OnParticleEffectsChange | app.js:51-56 | the flag takes the checkbox value, and the particle system's visibility mirrors it once it exists |
| Scene.App.ShowTooltip | app.js:499-533 | the previous tooltip is replaced by one tooltip 40 px above and 10 px right of the pointer, with its removal timer set 2000 ms ahead |
| Scene.App.ExpireTooltip | app.js:527-531 | a removal timer removes its own tooltip if that is still in the document, and nothing else |
| Scene.App.Pick | app.js:534-550 | called from the running `tick` loop: hovering holds exactly when the cube or an icon is hit; the cursor becomes `pointer` or `default` only on a change |
| Scene.App.RotateTo | app.js:553-603 | a new tween toward the key's target sampled once at its start, no tween cancelled, the key's panel if it is a section; the first button with the key becomes the only active one and `currentFace` is set; a key without a button clears the buttons and throws |
| Scene.App.Animate | app.js:573-583 | one later frame of one tween writes its sample, and a finished tween leaves the list |
| Scene.App.OnNavClick | app.js:660-678 | exactly the clicked button is active and the cube takes the table's angles; `currentFace` and the panel are untouched |
| Scene.App.Start | app.js:328-487 | the controls and the particle system are created mirroring their flags |
| Scene.App.RunTicks | app.js:740 | the frame loop starts |
| Scene.App.Init | app.js:730-740 | `main` turns to the profile face and shows its panel; the loop starts exactly when that `rotateTo` did not throw |
| Scene.App.Visit | app.js:629-636 | one face's tooltip then `rotateTo` gives the page `VisitUi` |
| Scene.App.OnSceneClick | app.js:621-656 | the click handler gives the page `ClickUi`, and throws exactly when a call of `Tried` has a key without a button |
| Scene.App.Tick | app.js:682-695 | `pick` runs; the particles turn exactly while visible; the auto-rotate drift never changes the pose, because the controls mirror the flag |
| CacheBust.Decimal | build.js:5-6 | a non-empty string of digits |
| CacheBust.DecimalValue | build.js:5-6 | the numeral reads back as the timestamp |
| CacheBust.DecimalCanonical | build.js:5-6 | the numeral starts with `0` only when the timestamp is 0 |
| CacheBust.Version | build.js:5-6 | the version is `v` followed by digits that read back as the timestamp |
| CacheBust.VersionSpec | build.js:5-6 | distinct timestamps give distinct versions, and a version holds neither `=` nor `"` |
| CacheBust.StylesReplacement | build.js:13 | the stylesheet replacement is the marker `styles.css?v=` without its `=`, then the timestamp's digits; it holds no `=` and no `"` |
| CacheBust.AppReplacement | build.js:14 | the script replacement is the marker `app.js?v=` without its `=`, then the timestamp's digits; it holds no `=` and no `"` |
| CacheBust.ReplaceAll | build.js:13-14 | the global `replace`: a leftmost, non-overlapping scan that replaces each marker and its greedy run, and copies the text in between; its properties are `ReplaceAllSplit`, `ReplaceAllClean` and `ReplaceAllKeepsQuotes` |
| CacheBust.ReplaceAllKeepsQuotes | build.js:13-14 | with a marker and replacement free of `"`, every `"` of the page, and so every attribute's closing quote, survives |
| CacheBust.RunLen | build.js:13 | the greedy `[^"]+` run stops at the next `"` or at the end |
| CacheBust.FindMatch | build.js:13 | the leftmost match position, or the length of the text |
| CacheBust.FindMatchFirst | build.js:13 | no match starts before the leftmost one, and the text has none exactly when it is the length |
| CacheBust.ReplaceAllCopies | build.js:13-14 | text before the first match is copied unchanged |
| CacheBust.ReplaceAllSplit | build.js:13-14 | the output is the text before the leftmost match, the replacement, then the rewritten rest after the match's run |
| CacheBust.ReplaceAllIdentity | build.js:13-14 | text with no match is returned unchanged |
| CacheBust.ReplaceAllClean | build.js:13-14 | with a replacement lacking `=` and `"`, the output holds no match of the marker, and no match of another marker the input lacked |
| CacheBust.ReplaceAllUnchanged | build.js:13-14 | a replacement leaves its input unchanged exactly when the input has no match |
| CacheBust.EmptyValueKept | build.js:13-14 | a marker directly followed by `"` is not matched and stays, with its quote |
| CacheBust.Rewrite | build.js:13-14 | the rewritten page holds no reference that either pattern matches |
| CacheBust.RewriteUnchanged | build.js:13-14 | the build leaves the page unchanged exactly when it holds no reference of either kind |
| CacheBust.RewriteIdempotent | build.js:13-14 | a second build gives back the first build's page, whatever its timestamp |
| CacheBust.Restamp | build.js:13-14 | the corrected replacement leaves a page without references unchanged |
| CacheBust.FixedRewrite | build.js:13-14 | the corrected build leaves a page holding neither reference unchanged |
| CacheBust.RestampFindsAgain | build.js:13-14 | with the corrected replacement the leftmost reference is still a match after the build, holding the new timestamp |
| CacheBust.FixedRewriteFindsAgain | build.js:13-14 | a corrected build leaves a script reference that the next build finds |

## Left out

- The three.js scene construction is not modelled: renderer, camera, lights, floor, textures, materials, icons and `controls.update()`. These are foreign library calls, so the cube pose is a plain field.
- Raycasting is not modelled. The hit results are parameters of `Pick`, `Tick` and `OnSceneClick`, and the face hit is the `Section` of its material index.
- Floating-point motion is not modelled: quaternion arithmetic inside slerp, the icon wobble, particle positions, colours and speeds, and the `rotationSpeed` slider. These are floats and randomness.
- Orientation.SpunY and Orientation.Drifted record a turn of an orientation last written as a quaternion. They do not re-derive Euler angles from it.
- The HTML of the `section*` panel renderers is not modelled: "the panel shows section k" is a tag.
- `loadData`/`fetch`, the WebGL probe, the error overlay shown when `main` throws, fullscreen, the theme and `localStorage`, and all of `script.js` are not modelled. They are I/O and page plumbing.
- Scene.App.Init models `main` from the point where the data has loaded. When its `rotateTo('profile')` throws, the model only records that the loop does not start; the error overlay is left out.
- `setTimeout`, `requestAnimationFrame` and the loading-screen fade are not scheduled. Their callbacks are the explicit calls `App.ExpireTooltip`, `App.Animate` and `App.Tick`.
- Scene.App.RotateTo requires its key to be a lower-case word. Every call in app.js passes a `faceKey`, and for other keys `querySelector` would parse the selector with CSS escapes, or throw a `SyntaxError`, instead of comparing strings.
- Scene.App.RotateTo reads the clock once: the tween's `t0` and its synchronous first `animate()` happen at the same instant. The only other effect of that first frame is the `requestAnimationFrame` it requests.
- Scene.App.Animate samples one tween at a time. The order in which the browser interleaves the frames of several live tweens is not modelled.
- Scene.App.constructor takes the navigation buttons' `data-face` values and their initially active set as parameters. `index.html` is not part of this model, so the model assumes every element carrying a `data-face` attribute is a `.nav-btn`. `querySelector` at app.js:600 searches the whole document, but the `forEach` at app.js:597-599 clears only `.nav-btn` elements; under that assumption `FirstButton` is exactly what `querySelector` finds.
- WrapText.WrapText takes the measured width as a natural number, not the float `measureText` returns.
- The `fs` file read and write in `build.js` and its console output are not modelled. `Date.now()` is the `timestamp` parameter of `Rewrite`.

## Findings

| source | as written | input that shows it | evidently intended | confidence | as-written member | corrected member |
|---|---|---|---|---|---|---|
| build.js:13-14 | the replacement `styles.css?${version}` (and `app.js?${version}`) writes `styles.css?v<digits>`, dropping the `=` that the patterns `styles\.css\?v=[^"]+` and `app\.js\?v=[^"]+` need | a page holding `href="styles.css?v=1"`: the first build writes `styles.css?v<t1>`, and every later build with any other timestamp `t2` leaves the page unchanged, so browsers keep the stale copy | the replacement keeps the `=` (`styles.css?v=<digits>`), so each build writes its own version | medium, not executed | CacheBust.RewriteIdempotent | CacheBust.RestampFindsAgain |
