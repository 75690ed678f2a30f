# Virtual desktop window manager, modelled in Dafny

The page is a browser "virtual desktop". Desktop icons open windows from a template. Each
window gets an id from a counter. A global stacking counter decides which window is in
front, and a taskbar button per window is highlighted when its window is the front one and
shown. Windows can be minimized, maximized, closed, dragged by their header and resized by
their corner handle. Small apps live inside the windows: a task manager whose "End" button
closes other windows, a photo library, a dodge game with a high score kept in
localStorage that unlocks a clue picture, and an unlock dialog with a passcode and a 2-second
cooldown after a wrong code.

Five revisions of the page re-implement this window manager. The model keeps one
description per revision family:

- `WindowManager.Desktop` (desktop.dfy) is the desktop of script_bundle_fixed.js, the
  reference revision. The same class, switched by a `Revision` constant, covers
  script_fixed.js (another unlock code, another clue rule, the flag-only unlock) and
  test/script_music_v3.js (no cascade, no game, text viewer on unlock).
- `MusicDesk.MusicDesktop` (music_desktop.dfy) is script_music.js. It keeps an explicit
  `activeWinId` instead of deriving "active" from z equality, one shared task-manager
  ticker and one shared unlock lock.
- `LegacyDesk.LegacyDesktop` (legacy_desktop.dfy) is script.js. It has no registry and no
  taskbar; bringToFront scans all windows for the highest z-index, and each drag registers
  document-level listeners.

Pure rules sit in their own modules:

- `Geometry`: clamp, cascade placement and the drag and resize targets.
- `Windows`: ids, the z-order stack, the highlight, the taskbar-click rule and window headers.
- `DesktopRules`: what createWindow builds and what cleanupWindow does, in order.
- `Scores`: the best score and the clue gating over localStorage, modelled as `map<string, string>`.
- `Unlock`: the passcode attempt and its cooldown.
- `Text`: HTML escaping, JavaScript `trim`, decimal strings, `Number()` and `parseInt`.

Every imperative method is proved against a function on values, and the properties of those
functions are proved as lemmas. The browser's measurements are parameters of the methods:
viewport, element sizes and rectangles, and the `--taskbar-h` CSS variable. So are
`Date.now()`, the `Math.random()` draws, setInterval handles and the mobile media query.

## Model

| member | source | states |
|---|---|---|
| Geometry.Clamp | script_bundle_fixed.js:61 | the result lies in [lo, hi] when lo <= hi and is never below lo; a value already inside is kept, one below lo (or any value when hi < lo) gives lo, one above hi gives hi |
| Geometry.ClampNearest | script_bundle_fixed.js:61 | the clamped value is the point of [lo, hi] nearest to v: no u in the range is closer |
| Geometry.ClampIdempotent | script_bundle_fixed.js:61 | clamping twice is clamping once |
| Geometry.CascadeShift | script_bundle_fixed.js:63-67 | the n-th shift `((n-1)*step) % maxShift` lies in [0, maxShift): [0, 260) on a desktop, [0, 28) on a touch screen |
| Geometry.DesktopCascadePeriod | script_bundle_fixed.js:63-67 | on a desktop the shift repeats every 10 opens |
| Geometry.DesktopCascadeDistinct | script_bundle_fixed.js:63-67 | on a desktop the first 10 opens all get different shifts |
| Geometry.MobileCascadePeriod | script_bundle_fixed.js:63-67 | on a touch screen the shift repeats every 14 opens |
| Geometry.ConsecutiveOpensStagger | script_bundle_fixed.js:63-67 | two consecutive opens never get the same shift, on either screen |
| Geometry.CascadeStart | script_bundle_fixed.js:69-71 | a desktop window starts at (80 + shift, 60 + shift); a touch-screen window starts at the given base moved right by the shift (its top edge is an input) |
| Geometry.ClampIntoViewport | script_bundle_fixed.js:77-88 | the placement has left in [8, max(8, W-w-8)] and top in [8, max(8, H-h-56)]; the window fits inside the padded viewport when it can; a start that already fits is kept |
| Geometry.MobilePlacementUnclamped | script_bundle_fixed.js:63-88 | on a roomy touch screen the n-th window is placed at its base moved right by the n-th shift |
| Geometry.DesktopPlacementUnclamped | script_bundle_fixed.js:63-88 | on a roomy desktop the n-th window is placed at (80 + shift, 60 + shift), whatever the touch-screen base |
| Geometry.DragTarget | script_bundle_fixed.js:320-332 | the new position has left in [0, max(0, W-w)] and top in [0, max(0, H-taskbarH-h)]; the window stays inside when it fits; a position that already fits is the pointer's start plus the delta |
| Geometry.ResizeTarget | script_bundle_fixed.js:361-379 | the new size has width in [260, max(260, W-left)] and height in [180, max(180, H-taskbarH-top)]; the window stays inside when the minimum fits; a size already in range is the start plus the delta |
| Geometry.LegacyDragTarget | script.js:98-106 | the new position has left in [0, max(0, W-w)] and top in [0, max(0, H-h)], with no taskbar deduction |
| Geometry.LegacyDragIsBundleDragWithoutTaskbar | script.js:98-106 | script.js's drag is the reference revision's drag with a taskbar of height 0 |
| Geometry.MusicDragTarget | script_music.js:279-288 | the new position is only bounded below by 0; a non-negative start plus delta is kept as is |
| Windows.ParseKind | script_bundle_fixed.js:113-183 | a recognised type name parses to the kind whose name it is; anything else is Other |
| Windows.ParseKindName | script_bundle_fixed.js:113-183 | every recognised kind's name parses back to that kind |
| Windows.WinIdInjective | script_bundle_fixed.js:109 | two counter values giving the same text `w${k}` are equal |
| Windows.NextIdFresh | script_bundle_fixed.js:109 | the next id differs from every id handed out before, so ids are never reused after a close |
| Windows.AtMostOneActive | script_bundle_fixed.js:247-253 | with distinct z values, at most one window is shown and carries the counter's value |
| Windows.Raise | script_bundle_fixed.js:92-94 | bringToFront's write keeps the set of windows |
| Windows.RaiseKeepsStack | script_bundle_fixed.js:92-94 | after raising to counter+1, the window is strictly above all others and z values stay distinct and at most the counter |
| Windows.RaiseInStack | script_bundle_fixed.js:92-94 | raising a window of a well-formed stack keeps it well formed |
| Windows.MinimizeFrontClearsHighlight | script_bundle_fixed.js:261-265 | minimizing the front window leaves no window shown at the top value, so no button is highlighted |
| Windows.RemoveKeepsOthers | script_bundle_fixed.js:283-295 | removing a window removes only its own highlight and keeps z values distinct and below the counter |
| Windows.ReshapeKeepsStack | script_bundle_fixed.js:320-332 | moving, resizing or toggling a window without touching its z keeps the stack well formed, and keeps the highlight when it does not change minimized |
| Windows.Click | script_fixed.js:221-233 | a click on a closed window's button changes nothing; otherwise it flips the window's minimized state and keeps the set of windows |
| Windows.ClickKeepsStack | script_fixed.js:221-233 | a click keeps the stack well formed; a restored window is the only one highlighted; a minimized one is not highlighted |
| Windows.ClickTwiceShowsOnTop | script_fixed.js:221-233 | two clicks on a shown window's button leave it shown, alone highlighted, at counter+1 |
| Windows.OrElse | script_bundle_fixed.js:149 | `options.title || fallback`: a non-empty title is kept, and the result is non-empty when the fallback is |
| Windows.Header | script_fixed.js:176-180 | every window gets a non-empty title and icon; an unknown type gets "Window" and "square"; a viewer with a title shows that title |
| DesktopRules.TaskbarHeightReads | script_bundle_fixed.js:328 | `parseInt(var \|\| '52', 10)` reads 52 for an unset variable and n for "npx" |
| DesktopRules.InitialPlacement | script_bundle_fixed.js:63-88 | a window of the cascading revisions starts in pixels, at least 8 from the top-left corner |
| DesktopRules.CleanupEffects | script_bundle_fixed.js:283-295 | cleanupWindow ends with element removal, registry deletion and button removal, in that order; everything before is a stop hook; without a running task manager or game only those three happen |
| DesktopRules.CleanupTrace | script_bundle_fixed.js:283-295 | the stop hooks followed by the three removals are exactly cleanupWindow's effects |
| DesktopRules.Erase | script_bundle_fixed.js:242-245 | removing a button keeps every other button, keeps buttons unique, and changes nothing for an absent id |
| DesktopRules.DragStep | script_bundle_fixed.js:320-332 | a drag move changes only the window's left and top, to the clamped target from the captured start; with an unreadable taskbar height the top is left alone |
| DesktopRules.ResizeStep | script_bundle_fixed.js:361-379 | a resize move changes only the window's width and height, to the clamped target from the captured size |
| DesktopRules.RefreshedAll | script_bundle_fixed.js:247-253 | with a button for every window, the refresh highlights exactly the shown windows at the top value |
| DesktopRules.FrontFacts | script_bundle_fixed.js:92-99 | after bringToFront the stack stays well formed, the window is above all others, and only its button is highlighted (none when it is minimized) |
| DesktopRules.ReshapeFacts | script_bundle_fixed.js:320-332 | changing a window without touching its z keeps the desktop's stack well formed |
| DesktopRules.CreateFacts | script_fixed.js:200-207 | after createWindow the new window is registered with one button, the desktop is consistent, and its button is the only highlighted one |
| DesktopRules.RestoreFacts | script_fixed.js:221-233 | the restoring click keeps the desktop consistent, highlights only the restored window, and agrees with Windows.Click |
| DesktopRules.CleanupFacts | script_bundle_fixed.js:283-295 | removing a window and its button keeps the desktop consistent |
| WindowManager.Desktop.constructor | script_bundle_fixed.js:53-56 | the desktop starts empty, with the stacking counter at 10 and the id counter at 0 |
| WindowManager.Desktop.BringToFront | script_bundle_fixed.js:92-99 | the counter goes up by one, the window takes it, and each button is set, only the window's own being highlighted when shown |
| WindowManager.Desktop.UpdateTaskbarActive | script_bundle_fixed.js:247-253 | each window's button is highlighted exactly when the window is shown and carries the top value |
| WindowManager.Desktop.Focus | script_bundle_fixed.js:92-99 | on a consistent desktop the window ends strictly above all others, and its button alone is highlighted unless it is minimized |
| WindowManager.Desktop.AddTaskbarItem | script_bundle_fixed.js:216-240 | a registered window gets a button at the end of the taskbar, then the highlight is refreshed; an unregistered id changes nothing |
| WindowManager.Desktop.BindApp | script_bundle_fixed.js:113-183 | the app's state after binding: the task manager's interval, the photo app, the game with its best score, the unlock dialog with lock 0 |
| WindowManager.Desktop.Register | script_bundle_fixed.js:203 | `windows.set` for the new id, with its drag and resize idle |
| WindowManager.Desktop.CreateWindow | script_bundle_fixed.js:102-214 | the id counter goes up by one and the new id was never in use; the window is registered with its header, size and cascade position; it is on top with the only highlighted button, at the end of the taskbar; the desktop stays consistent |
| WindowManager.Desktop.Prepare | script_bundle_fixed.js:102-201 | the next id and cascade slot (none in test/script_music_v3.js), the app's state, and the window as built |
| WindowManager.Desktop.NextSlot | script_bundle_fixed.js:102-201 | the next id and, outside test/script_music_v3.js, the next cascade slot, with the window createWindow builds for them |
| WindowManager.Desktop.Show | script_bundle_fixed.js:203-210 | the window is registered, raised and given a button, and the desktop is consistent with only its button highlighted |
| WindowManager.Desktop.TaskbarClick | script_fixed.js:221-233 | the desktop's stack after a click is Windows.Click of the stack before, and the desktop stays consistent |
| WindowManager.Desktop.Restore | script_fixed.js:224-227 | a minimized window is shown, raised and alone highlighted |
| WindowManager.Desktop.Minimize | test/script_music_v3.js:176-180 | only the minimized flag changes, z untouched; minimizing the highlighted window leaves no highlight |
| WindowManager.Desktop.ToggleMaximize | script_fixed.js:264-272 | the maximized flag flips and the window is raised, in either direction |
| WindowManager.Desktop.StopTaskManagerFor | script_bundle_fixed.js:1561-1565 | the entry goes; an interval is cleared only when the handle is non-zero; an absent id clears nothing |
| WindowManager.Desktop.StopPhotosFor | script_bundle_fixed.js:899-901 | the photo app's entry goes |
| WindowManager.Desktop.StopGameFor | script_bundle_fixed.js:1441-1445 | the game's entry and its round go; a stop is recorded only for a game that exists |
| WindowManager.Desktop.RemoveTaskbarItem | script_bundle_fixed.js:242-245 | the button and its highlight go, and nothing else |
| WindowManager.Desktop.CleanupWindow | script_bundle_fixed.js:283-295 | the stop hooks run before the element, entry and button go, in that order; the window, its button and its app state are gone, the other buttons keep their order, and a round it had on stops (test/script_music_v3.js has no games); the desktop stays consistent |
| WindowManager.Desktop.StopApps | script_bundle_fixed.js:285-289 | the stop hooks of the revision (no game in test/script_music_v3.js) remove the window's app state and nothing else |
| WindowManager.Desktop.Dismantle | script_bundle_fixed.js:291-294 | element, entry and button go, in that order, and the highlight is refreshed |
| WindowManager.Desktop.EndTask | script_bundle_fixed.js:1548-1553 | the task manager's End closes an open target exactly as cleanupWindow does (window, button, app state, round and recorded effects); for a closed target every field is left as it was |
| WindowManager.Desktop.DragDown | script_bundle_fixed.js:304-318 | a press on a button starts nothing; otherwise the start is captured from the rendered rectangle and the window is raised |
| WindowManager.Desktop.DragMove | script_bundle_fixed.js:320-332 | while a drag is on and the window is not maximized it moves by DesktopRules.DragStep; otherwise nothing changes |
| WindowManager.Desktop.DragUp | script_bundle_fixed.js:334-338 | pointerup ends the drag |
| WindowManager.Desktop.ResizeDown | script_bundle_fixed.js:348-359 | the start size is captured and the window is raised |
| WindowManager.Desktop.ResizeMove | script_bundle_fixed.js:361-379 | while resizing and not maximized the size follows DesktopRules.ResizeStep; otherwise nothing changes |
| WindowManager.Desktop.ResizeUp | script_bundle_fixed.js:381-384 | pointerup ends the resize |
| WindowManager.Desktop.SubmitUnlock | script_fixed.js:496-525 | the press is judged by Unlock.Attempt with the dialog's own lock; only a wrong code moves the lock; the right code opens a viewer titled with the file name (or "geheim.enc") and closes the dialog, with every field as Grant leaves it; any other outcome leaves everything but the lock as it was, and the store is never written |
| WindowManager.Desktop.Grant | test/script_music_v3.js:403-404 | the unlocked file opens in the revision's viewer with its content, on top and with the next id; then the dialog closes: its window, button, app state and round go, the viewer's button ends last on the taskbar and is the only highlighted one; unlocks and the store are untouched |
| WindowManager.Desktop.CloseDialog | test/script_music_v3.js:404 | cleanupWindow of the dialog just after the viewer opened: the viewer keeps its window, its button stays last and alone highlighted, and the dialog's window, button, app state and round go |
| WindowManager.Desktop.OpenViewer | script_bundle_fixed.js:148-166 | a viewer window with the given title and content is created with the next id and cascade slot, on top, with its button last and alone highlighted and its gestures idle; only it is added, and the app state and the store are untouched (binding a viewer binds nothing) |
| WindowManager.Desktop.CancelUnlock | script_bundle_fixed.js:469 | cancel closes the dialog exactly as cleanupWindow does: window, button, app state, round and recorded effects |
| WindowManager.Desktop.RefreshOpenPhotosLibraries | script_bundle_fixed.js:1160-1170 | with any photo app open, the store ends as after one clue check; the later checks change nothing |
| WindowManager.Desktop.StartRound | script_bundle_fixed.js:1389-1391 | a round that is already on is left alone; otherwise the game re-reads the stored best (which may store 12) and its round starts |
| WindowManager.Desktop.GameOver | script_bundle_fixed.js:1373-1383 | a round's end is judged by Scores.RoundOver: the game's best is the larger of the stored best and the score, the round stops, and the clue window opens exactly when the rule shows it, as ShowClue2 opens it; without a clue no window, button or counter changes; without a round on nothing happens at all |
| WindowManager.Desktop.EndRound | script_bundle_fixed.js:1373-1382 | the round stops, the game's best and the store are those of Scores.RoundOver, and whether the clue is newly shown is returned |
| WindowManager.Desktop.ShowClue2 | script_bundle_fixed.js:1147-1158 | the open photo apps re-check the clue, then the clue opens in a new image viewer on top, with its button last and alone highlighted; the app state is untouched |
| Scores.GetBestScore | script_bundle_fixed.js:1115-1122 | a numeric stored best is returned and the store is untouched; otherwise 12 is stored and returned; only the best key can change |
| Scores.StoredAfterWrite | script_bundle_fixed.js:1124-1126 | a number written with `String(v)` reads back as v |
| Scores.GetBestScoreIdempotent | script_bundle_fixed.js:1115-1122 | a second read gives the same best and writes nothing |
| Scores.GetAfterSetBestScore | script_bundle_fixed.js:1124-1126 | after setBestScore(v) the best reads as v, and only the best key changed |
| Scores.IsClue2Unlocked | script_bundle_fixed.js:1128-1145 | true exactly when the flag is '1' and the stored "at" is a number above 0 and at most the best; a flag without a valid "at" clears both keys; a missing flag changes nothing |
| Scores.IsClue2UnlockedSettles | script_bundle_fixed.js:1128-1145 | a second check gives the same answer and writes nothing |
| Scores.IsClue2UnlockedStoreSettles | script_bundle_fixed.js:1128-1145 | repeated checks leave the store as the first check left it |
| Scores.UnlockClue2Bundle | script_bundle_fixed.js:1147-1158 | an unlocked clue is not shown again; otherwise the flag is set, the "at" value is the new best (the stored best when 0), and the clue is shown |
| Scores.UnlockClue2Fixed | script_fixed.js:989-999 | the flag ends set; the clue is shown exactly when the flag was not set; only the flag key changes |
| Scores.UnlockClue2FixedIdempotent | script_fixed.js:989-999 | once the flag is '1' a second unlock shows nothing and writes nothing |
| Scores.GameOverBundle | script_bundle_fixed.js:1373-1383 | the best becomes the score only when it is higher; otherwise nothing is written and no clue is shown |
| Scores.GameOverFixed | script_fixed.js:1214-1223 | the best becomes the score only when it is higher, and then the flag is set; otherwise nothing is written and no clue is shown |
| Scores.GameOverBundleUnlocks | script_bundle_fixed.js:1373-1383 | a new positive high score leaves the score stored as best and the clue unlocked |
| Scores.GameOverBundleBest | script_bundle_fixed.js:1373-1383 | a higher score is the stored best afterwards |
| Scores.RoundEndStoresBest | script_bundle_fixed.js:1373-1383 | as written, a round's end stores its score when it beats the best read at the round's start, and otherwise leaves the stored best |
| Scores.OverlappingRoundsLowerBest | script_fixed.js:1214-1223 | as written, two rounds started from the same best can lower the stored high score |
| Scores.RoundOverKeepsHighest | script_fixed.js:1214-1223 | judged against the best stored at the round's end, the stored best becomes the larger of old best and score; in script_fixed.js the clue is shown exactly when the score beats the old best and the flag was not set |
| Scores.RoundOverAsWritten | script_fixed.js:1230-1232 | when no other round changed the stored best since the start, the corrected and the as-written round's end agree |
| Unlock.Attempt | script_fixed.js:496-525 | ignored while locked; an all-blank code asks for a code; the trimmed code equal to the secret grants; any other code is wrong and locks for 2000 ms; only a wrong code moves the lock |
| Unlock.AttemptWithFile | script_music.js:384-413 | ignored while locked; an unknown file gives "file not found" before the code is read; otherwise as Unlock.Attempt |
| Unlock.GrantedIgnoresPadding | script_fixed.js:500 | the secret surrounded by blanks still grants |
| Unlock.TrimPadding | script_fixed.js:500 | trimming removes exactly the surrounding blanks |
| Unlock.LockMonotone | script_fixed.js:498-507 | over a sequence of presses the lock never moves back |
| Unlock.LockedAfterWrong | script_fixed.js:498-507 | after a wrong code the lock is at least 2000 ms after it, for every later press |
| Unlock.WrongAttemptsSpaced | script_fixed.js:498-507 | two wrong codes judged are at least 2000 ms apart |
| Text.EscapeHtml | test/script_music_v3.js:851-853 | the result has no raw `< > "`, is at least as long, and a string without `& < > "` is unchanged |
| Text.EscapeHtmlEscapesAmpersands | test/script_music_v3.js:851-853 | every `&` of the result begins one of the four entities, so no raw ampersand is left either |
| Text.UnescapeEscapeHtml | test/script_music_v3.js:851-853 | decoding the four entities gives back the original string, so escaping loses nothing |
| Text.ReplaceAll | script_music.js:833-839 | replacing a character that does not occur changes nothing, and after replacing c by a text without c no c is left |
| Text.EscapeHtmlChainPerChar | script_music.js:833-839 | the chain of five replaceAll calls maps each character to its entity independently (`& < > " '`) |
| Text.EscapeAttrChainPerChar | script_music.js:841-843 | escapeAttr maps each character independently, the backtick as well |
| Text.ChainAgreesWithRegexEscape | script_music.js:833-839 | on text without an apostrophe, script_music.js's chain agrees with the regex escapeHtml of the other revisions |
| Text.Trim | script_fixed.js:500 | the trimmed code is empty exactly when the input is all blank, and otherwise starts and ends with a non-blank |
| Text.NatToString | script_bundle_fixed.js:1125 | `String(n)` is a non-empty run of digits |
| Text.DigitsValueNatToString | script_bundle_fixed.js:1125 | the digits of `String(n)` read back as n |
| Text.NatToStringInjective | script_bundle_fixed.js:109 | different numbers have different decimal texts |
| Text.JsNumberIntToString | script_bundle_fixed.js:1117 | `Number(String(i))` is i, for every integer i |
| Text.DigitPrefix | script_music.js:272-273 | parseInt's digit run is the longest digit prefix |
| Text.ParseIntPrefixUnit | script_music.js:272-273 | `parseInt(n + unit, 10)` is n for a unit not starting with a digit |
| MusicDesk.MusicHeader | script_music.js:81-132 | every window gets a non-empty title and icon; an unknown type gets "Window" and "square"; an image viewer shows its title or "Bild" |
| MusicDesk.MusicNewWindow | script_music.js:134-146 | a touch-screen window sits at 4vw / 10vh with 92vw x 70vh; a desktop window's origin lies in [40, max(60, W-560)) x [40, max(60, H-460)) |
| MusicDesk.LitIsActive | script_music.js:207-213 | only the shown active window's button is highlighted, so at most one is |
| MusicDesk.RelitAll | script_music.js:207-213 | with an entry for every window the refresh highlights exactly the shown active window |
| MusicDesk.MusicClick | script_music.js:177-192 | a closed window: nothing; minimized: restored, raised and active; active: minimized and nothing active; otherwise raised and active |
| MusicDesk.ActiveOnTop | script_music.js:220-224 | the active window is strictly above every other |
| MusicDesk.MusicClickKeepsStack | script_music.js:177-192 | a click keeps the stack well formed, and the clicked window's button ends highlighted exactly when the window ends shown |
| MusicDesk.MusicClickTwice | script_music.js:177-192 | two clicks leave the window minimized unless it was the shown active window |
| MusicDesk.StopTickerIdempotent | script_music.js:825-830 | stopping the ticker twice is stopping it once, and the second stop clears nothing |
| MusicDesk.ParseLenText | script_music.js:272-273 | `parseInt(style.left \|\| '0', 10)` reads the number of a length whatever its unit |
| MusicDesk.StyleStart | script_music.js:272-273 | the drag start read from a style length is the number written in it, whatever its unit |
| MusicDesk.MobileDragStartsFromStyleText | script_music.js:272-273 | as written, a touch-screen drag starts from (4, 10) although the window is rendered at (16, 80) |
| MusicDesk.RenderedStartStays | script_music.js:279-288 | starting from the rendered position, a zero move leaves the window in place |
| MusicDesk.FocusFacts | script_music.js:220-224 | bringToFront keeps the desktop consistent and highlights only the window's button, none when minimized |
| MusicDesk.MusicReshapeFacts | script_music.js:279-288 | changing a window without touching its z keeps the desktop consistent |
| MusicDesk.HideFacts | script_music.js:236-241 | minimizing keeps the desktop consistent with nothing active or highlighted |
| MusicDesk.ClickFacts | script_music.js:177-192 | a taskbar click followed by the refresh keeps the desktop consistent |
| MusicDesk.MusicCreateFacts | script_music.js:148-160 | with the entry registered before bringToFront, the new window's button is the only highlighted one |
| MusicDesk.MusicCreateAsWrittenFacts | script_music.js:148-160 | as written, the new window is active but no button is highlighted |
| MusicDesk.RemoveFacts | script_music.js:198-205 | removing a window's entry and button keeps the desktop consistent and clears the active id if it was that window |
| MusicDesk.MusicDesktop.constructor | script_music.js:18-37 | the desktop starts empty with z = 10, next id 1, nothing active, no ticker and lock 0 |
| MusicDesk.MusicDesktop.RefreshTaskbarActive | script_music.js:207-213 | each entry's button is highlighted exactly when its id is active and its window shown |
| MusicDesk.MusicDesktop.SetActive | script_music.js:215-218 | the active id is set and the highlight follows it |
| MusicDesk.MusicDesktop.BringToFront | script_music.js:220-224 | z goes up by one, the window takes it and becomes active |
| MusicDesk.MusicDesktop.Focus | script_music.js:220-224 | the window ends strictly above all others and alone highlighted unless minimized |
| MusicDesk.MusicDesktop.StopTaskManagerTicker | script_music.js:825-830 | a running ticker is cleared and forgotten; otherwise nothing happens |
| MusicDesk.MusicDesktop.Prepare | script_music.js:66-146 | the next id, the app's binding, and the window as built |
| MusicDesk.MusicDesktop.CreateWindowAsWritten | script_music.js:66-166 | as written: the new window is on top and active, with its entry and button, but no button is highlighted |
| MusicDesk.MusicDesktop.ShowAsWritten | script_music.js:148-160 | bringToFront before the entry exists leaves the new button unlit |
| MusicDesk.MusicDesktop.CreateWindow | script_music.js:66-166 | the new window is on top and active, with its entry and button and idle drag, and its button alone is highlighted |
| MusicDesk.MusicDesktop.Show | script_music.js:148-160 | with the entry first, bringToFront highlights the new button |
| MusicDesk.MusicDesktop.AddTaskbarButton | script_music.js:168-196 | a button at the end of the taskbar |
| MusicDesk.MusicDesktop.RemoveTaskbarButton | script_music.js:198-205 | an unknown id changes nothing; otherwise the entry and button go, the active id is cleared if it was that window, and the highlight is refreshed |
| MusicDesk.MusicDesktop.Dismiss | script_music.js:254-255 | the element goes, then the entry and button; the active id is cleared if it was that window |
| MusicDesk.MusicDesktop.Close | script_music.js:251-257 | element and entry go before the ticker is stopped, and only a task manager stops it |
| MusicDesk.MusicDesktop.TaskbarClick | script_music.js:177-192 | the desktop's stack after a click is MusicDesk.MusicClick of the stack before |
| MusicDesk.MusicDesktop.Minimize | script_music.js:236-241 | only the minimized flag changes; nothing is active or highlighted |
| MusicDesk.MusicDesktop.ToggleMaximize | script_music.js:244-248 | the maximized flag flips and the window is raised and active |
| MusicDesk.MusicDesktop.PointerDown | script_music.js:233 | a press anywhere in the window raises it and makes it active |
| MusicDesk.MusicDesktop.HeaderDownAsWritten | script_music.js:263-277 | as written, a drag (not on a button, not maximized) starts from the number in the style text |
| MusicDesk.MusicDesktop.HeaderDown | script_music.js:263-277 | a drag (not on a button, not maximized) starts from the rendered position |
| MusicDesk.MusicDesktop.DragMove | script_music.js:279-288 | while dragging, the window moves to MusicDragTarget of the captured start; otherwise nothing changes |
| MusicDesk.MusicDesktop.DragEnd | script_music.js:290-298 | pointerup or pointercancel ends a drag in progress |
| MusicDesk.MusicDesktop.SubmitUnlock | script_music.js:384-413 | the press is judged by Unlock.AttemptWithFile with the shared lock; the right code opens "secret.png" in an image viewer and removes the dialog, with every field as Unlocked leaves it; any other outcome leaves everything but the lock as it was |
| MusicDesk.MusicDesktop.Unlocked | script_music.js:409-412 | the file opens in a new image viewer on top, then the dialog goes: the viewer's button ends last and is the lit one, the dialog's entry and button go, no ticker or unlock entry changes |
| MusicDesk.MusicDesktop.OpenFile | script_music.js:409 | a new image viewer with the file's name and source, on top and active, with its entry and its button last, opened by the corrected createWindow (so its button is lit at once); nothing else is added |
| MusicDesk.MusicDesktop.CancelUnlock | script_music.js:378-382 | cancel removes the dialog with its entry and button; the active id is cleared if it was the dialog's |
| LegacyDesk.LegacyHeader | script.js:20-41 | notes, explorer and settings get a header; any other type keeps the template's |
| LegacyDesk.MaxEffZ | script.js:159-169 | the scan's maximum is at least every window's z-index, with unset or 0 counted as 10, and 0 for no windows |
| LegacyDesk.MaxEffZAttained | script.js:159-169 | the maximum is the z-index of a window the scan visits |
| LegacyDesk.MaxAfterRaise | script.js:159-169 | a window given a z-index at least the maximum becomes the maximum |
| LegacyDesk.Spread | script.js:52-55 | `Math.floor(40 + Math.random() * (max - 40))` lies in [40, max) |
| LegacyDesk.SpreadCovers | script.js:52-55 | every value of [40, max) can be drawn |
| LegacyDesk.FreshWindow | script.js:42-56 | a touch-screen window sits at 4vw / 10vh with 92vw x 70vh; a desktop window has a pixel origin and the stylesheet's size |
| LegacyDesk.Moved | script.js:98-106 | one pointermove only moves windows |
| LegacyDesk.MovedPlaces | script.js:98-106 | after a pointermove every dragged window is inside the viewport as far as it fits |
| LegacyDesk.MobileDragStartsFromStyleText | script.js:93-94 | as written, a touch-screen drag starts from (4, 10) although the window is rendered elsewhere |
| LegacyDesk.RenderedStartStays | script.js:98-106 | starting from the rendered position, a zero move leaves the window in place |
| LegacyDesk.Raised | script.js:159-169 | bringToFront keeps the set of windows |
| LegacyDesk.RaisedOnTop | script.js:159-169 | after bringToFront the window is strictly above every other window |
| LegacyDesk.RaisedMax | script.js:159-169 | the raised window's z-index is the new maximum |
| LegacyDesk.LegacyDesktop.constructor | script.js:7-12 | the desktop starts with no windows and no drags |
| LegacyDesk.LegacyDesktop.BringToFront | script.js:159-169 | the loop computes one above the highest z-index (unset or 0 as 10), and the window takes it |
| LegacyDesk.LegacyDesktop.CreateWindow | script.js:16-71 | a new window is appended last in document order and raised above all windows |
| LegacyDesk.LegacyDesktop.Append | script.js:58 | the new window is last in document order and the scan's maximum grows to include it |
| LegacyDesk.LegacyDesktop.PointerDown | script.js:137 | any press inside a window raises it |
| LegacyDesk.LegacyDesktop.StartDrag | script.js:81-119 | no drag on a button or a maximized window; otherwise the window is raised, marked as dragging, and a session is registered |
| LegacyDesk.LegacyDesktop.HeaderPointerDownAsWritten | script.js:122-127 | as written, a primary press off the buttons of a non-maximized window starts a drag from the style text's number |
| LegacyDesk.LegacyDesktop.HeaderPointerDown | script.js:122-127 | the same drag start, from the rendered position |
| LegacyDesk.LegacyDesktop.DragFromHeader | script.js:122-137 | startDrag and then the window's own listener raise the window twice |
| LegacyDesk.LegacyDesktop.PointerMove | script.js:98-106 | every session in turn moves its window, as LegacyDesk.Moved states |
| LegacyDesk.LegacyDesktop.StopMoving | script.js:109-118 | every session ends and every window loses its dragging mark, nothing else changes |
| LegacyDesk.LegacyDesktop.Minimize | script.js:139-142 | only the minimized flag is set |
| LegacyDesk.LegacyDesktop.ToggleMaximize | script.js:144-151 | only the maximized flag flips |
| LegacyDesk.LegacyDesktop.Close | script.js:153-155 | the window leaves the document |

## Left out

- Markup: template cloning, `innerHTML`, the Feather icon replacement, button icons and
  status messages. Windows and taskbar buttons are records, sequences and sets.
- Floating point: pointer coordinates, rectangles and element sizes are taken as integers.
  The touch screen's cascade base is an input, because it rounds `innerWidth * 0.04` and
  `innerHeight * 0.08 + shift * 0.6` (script_bundle_fixed.js:70-71). Its top edge is
  therefore an input per open, and Geometry.CascadeStart states only that the base moves
  right by the shift.
- `Math.random()` in script.js:51-55 and script_music.js:141-146: the draws are inputs.
  LegacyDesk.Spread and MusicDesk.Rolled state the range they fall in.
- The photo viewer's zoom, pan and pinch, the music player and its Web Audio synthesis,
  the game loop's physics and collision, the task manager's telemetry, the clock, the
  themes and wallpapers, and the guardian narrative. These are floating point, foreign
  browser APIs or timers.
- The game is reduced to its round (start and game over, with an integer score).
- stopMusicBindingsFor (script_bundle_fixed.js:975) does nothing, so cleanupWindow's model
  has no step for it.
- The countdown display of the unlock cooldown (setInterval, `toFixed`) and the disabling of
  the input. The cooldown itself is the lock time, with `now` an input.
- The photo library's rebuilding in refreshOpenPhotosLibraries. Only its clue check, which
  writes the store, is modelled.
- script.js's `mousedown` fallback for browsers without Pointer Events (script.js:129-135).
  The model assumes Pointer Events.
- localStorage failures (quota, private mode): the store is a total map.
- Scores.GetBestScore: `Number()` is modelled for an optional sign and decimal digits after
  trimming blanks, with empty text reading as 0. A stored best with a fraction, an exponent,
  hex digits or "Infinity" reads as not a number here, so 12 is stored instead of that
  value being returned.
- Scores.IsClue2Unlocked: the stored "at" value is read with the same narrowed `Number()`,
  so a fractional or exponent "at" counts as invalid and clears the flag.
- The id's text form `w${k}` is kept as the counter value k. Windows.WinIdInjective shows
  the two are interchangeable.

## Findings

| source | as written | input that shows it | evidently intended | confidence | as-written member | corrected member |
|---|---|---|---|---|---|---|
| script_music.js:152-160 | createWindow calls bringToFront, which refreshes the highlight, before `state.winMap.set` registers the new window; the refresh skips the new window and no later refresh runs | open any window on an empty desktop: activeWinId is its id, but its taskbar button is not highlighted | the new, active window's button is the highlighted one, as after every other bringToFront | high, not executed | MusicDesk.MusicDesktop.CreateWindowAsWritten (with MusicDesk.MusicCreateAsWrittenFacts) | MusicDesk.MusicDesktop.CreateWindow (with MusicDesk.MusicCreateFacts) |
| script_music.js:272-273, script.js:93-94 | a drag captures its start with `parseInt(style.left)` / `parseFloat(style.left)`, which for a touch-screen window holding "4vw" / "10vh" is 4 / 10, not the rendered pixels | touch screen, viewport 400 x 800: the window is rendered at (16, 80); press the header and move by 0 pixels, and the window jumps to (4px, 10px) | the drag starts from where the window is drawn, so a zero move leaves it in place | high, not executed | MusicDesk.MusicDesktop.HeaderDownAsWritten, LegacyDesk.LegacyDesktop.HeaderPointerDownAsWritten (with MusicDesk.MobileDragStartsFromStyleText, LegacyDesk.MobileDragStartsFromStyleText) | MusicDesk.MusicDesktop.HeaderDown, LegacyDesk.LegacyDesktop.HeaderPointerDown (with MusicDesk.RenderedStartStays, LegacyDesk.RenderedStartStays) |
| script_bundle_fixed.js:1373-1379, script_fixed.js:1214-1223 | each game window compares its round's score with the `best` it read when the round started (script_bundle_fixed.js:1389-1391, script_fixed.js:1230-1232), and writes the score as the stored best when it beats that | stored best 12; two game windows both start a round; the first ends at 20 (stored best 20), then the second ends at 15, and 15 > 12 stores 15 | the stored high score never goes down: a round is judged against the best stored when it ends | medium, not executed | Scores.OverlappingRoundsLowerBest (with Scores.RoundEnd) | Scores.RoundOverKeepsHighest (with Scores.RoundOver, used by WindowManager.Desktop.GameOver) |
