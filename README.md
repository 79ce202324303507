# Sabage Logger tactical map and helpers, modelled in Dafny

This project models the logic of `script.js`, a single-page tracker for airsoft games ("sabage"). It does not model the browser glue around that logic. The modelled parts are:

- **Tactical map** (`tactical_map.dfy`, `annotations.dfy`, `plan_codec.dfy`). The map keeps:
  - a list of markers (type, label, angle, position);
  - a list of finished polylines (type, points);
  - the selected line type `drawType`, which toggles;
  - an optional in-progress drawing session;
  - the background image and its size;
  - two storage keys: the auto-saved active plan and the named plan library.

  The class `TacticalMap.MapState` holds all of this state. Its methods are the event handlers of the source (map click, finish line, undo point, clear lines, long-press delete, drag, label/heading edit, image load, clear plan, save plan and load plan), plus the helpers they call (`saveMapState`, `addArrowMarker`, `clearMarkers`, `clearAllLines`). Import and restore are methods too. `exportPlan` is the pure function `PlanCodec.Export`. `PlanCodec.AfterImport` is what the map exports right after `importPlan`, and `PlanCodec.RoundTrip` proves that export, then import, then export again gives the same document.
- **String helpers** (`text.dfy`, `time_format.dfy`, `advice.dfy`): `escapeHTML` with a decoder that inverts it, JavaScript's `trim`, `fmtMMSS` with a read-back of the minutes and seconds, and `keywordAdvice` as a loop over its ten rules.
- **Countdown** (`countdown.dfy`): the integer state of the timer (`pausedRemain`, the interval's `remain`, running or not). It is a class, plus the pure tick function `Step` used for lemmas about repeated ticks.

Modelling choices:
- Leaflet objects are replaced by plain records.
- A marker's object identity becomes an explicit `id` drawn from a counter.
- `localStorage` becomes two fields of type `Stored<T>` (missing, unparsable or parsed). A missing or unparsable active plan leaves the map unchanged (`if(!raw) return;` and the `try`/`catch` of `restoreMapState`); a missing or unparsable library reads as `{}`.
- The fields `type` and `label` are called `kind` and `caption`, because `type` and `label` are Dafny keywords.
- Pixel coordinates are `real`. They are only copied, never computed on.
- Angles and timer inputs are integers.

What the code does, and the model with it:
- Importing a plan does not validate it. Unknown marker or line types are kept. Lines with fewer than two points are kept. A missing `size` keeps the current size. So "at least two points" is proved of lines finished with `FinishLine`, not of every stored line.
- Cancelling the label prompt of a marker edit also skips the heading prompt.
- Of the clearing actions, only the clear-lines button discards an open drawing session; `clearPlan` and `importPlan` call `clearAllLines`, which keeps it. Undo-point also drops a session it empties, and finish-line turns it into a polyline.
- `importPlan` does not write the active-plan key; the next edit does.

## Model

| member | source | states |
|---|---|---|
| Text.EscapeHTML | script.js:62 | the output never contains a raw `<`, `>`, `"` or `'`; a text without any of the five special characters is returned unchanged |
| Text.EscapeHTMLAmpersands | script.js:62 | every `&` in the escaped text begins one of the five entities, so no `&` stays raw; with the no-raw-`<>"'` clause and the round trip this fixes the output |
| Text.UnescapeEscapeChar | script.js:62 | decoding the entity written for one character gives back that character, whatever text follows |
| Text.UnescapeEscapeHTML | script.js:62 | escaping loses nothing: decoding the five entities restores the original text |
| Text.TrimStart | script.js:261 | the result is a suffix of the input, everything removed is whitespace, and the result does not start with whitespace |
| Text.TrimEnd | script.js:261 | the result is a prefix of the input, everything removed is whitespace, and the result does not end with whitespace |
| Text.TrimEmptyIff | script.js:261-262 | a plan name is empty after trimming exactly when it consists of whitespace only (both directions) |
| Text.TrimIdempotent | script.js:261 | trimming twice is the same as trimming once |
| TimeFormat.NatToString | script.js:110 | `String(n)` is a non-empty string of digits with no leading zero; one digit below 10, two digits from 10 to 99 |
| TimeFormat.DigitsValueNatToString | script.js:110 | reading the digits of `String(n)` gives back `n` |
| TimeFormat.PadStart2Digits | script.js:110 | `padStart(2,"0")` turns a one- or two-digit string into exactly two digits with the same value |
| TimeFormat.PadStart2Number | script.js:110 | `padStart(2,"0")` of any digit string is all digits, at least two characters (exactly two for inputs of at most two), with the same value |
| TimeFormat.ClockLayout | script.js:110 | the string `minutes + ":" + seconds` has the colon third from the end, digits everywhere else, and splits back into its two parts |
| TimeFormat.FmtMMSSReadsBack | script.js:110 | for `sec >= 0`, `fmtMMSS` gives the minutes digits, a colon and exactly two seconds digits, five characters in all below 6000 seconds; the seconds read `sec % 60 < 60`, the minutes read `sec / 60`, and minutes * 60 + seconds == sec |
| Advice.IncludesIff | script.js:155 | `text.includes(w)` holds exactly when `w` occurs in `text` at some position |
| Advice.MatchedIff | script.js:155-166 | a tip is pushed exactly when some keyword of its rule occurs in the text |
| Advice.IndexOf | script.js:167 | the position of the first occurrence of an element: it holds the element and no earlier position does |
| Advice.IndexOfAppend | script.js:167 | appending to a list does not move the first occurrence of an element already in it |
| Advice.Unique | script.js:167 | `Array.from(new Set(tips))` has no duplicates, the same elements as `tips`, and keeps them in the order of their first occurrences |
| Advice.UniqueOfDistinct | script.js:167 | removing duplicates from a list without duplicates returns it unchanged, in order |
| Advice.MatchedDistinct | script.js:157-167 | when the rules' tips are pairwise different, the pushed tips contain no duplicates |
| Advice.KeywordAdvice | script.js:154-168 | empty text gives no tips; otherwise the tips of the rules that fire, in rule order, each once; a tip is present exactly when one of its keywords occurs in the text |
| Countdown.TicksCountDown | script.js:118-124 | while time is left, each tick lowers `remain` by exactly one, the timer keeps running, and `pausedRemain` follows `remain` |
| Countdown.TicksSplit | script.js:118-124 | `a + b` ticks equal `a` ticks followed by `b` ticks |
| Countdown.TimerStops | script.js:118-124 | a running timer at `n >= 0` reads 0 after `n` ticks, and the tick after that stops it and clears `pausedRemain` |
| Countdown.Timer.constructor | script.js:107 | initially there is no `pausedRemain` and no running interval |
| Countdown.Timer.Start | script.js:112-126 | start counts from `pausedRemain` if set, else from `m*60+s`; it is rejected, changing nothing, exactly when that value is `<= 0` |
| Countdown.Timer.Tick | script.js:118-124 | one tick is `Step`: shows `fmtMMSS(remain)`, then stops at 0 (finished) or decrements and records `pausedRemain` |
| Countdown.Timer.Pause | script.js:127 | pausing stops the interval and keeps `pausedRemain` |
| Countdown.Timer.Reset | script.js:128 | reset stops, clears `pausedRemain` and shows `fmtMMSS(m*60+s)` |
| Annotations.ArrowMarker | script.js:291-295 | the pushed record keeps the given identity, position, type, label and angle; a missing or empty type becomes "self", a missing label "", a missing angle 0 |
| Annotations.RemoveIdMembers | script.js:321 | the long-press filter keeps exactly the markers of other identities |
| Annotations.RemoveIdAbsent | script.js:321 | filtering out an identity no marker has changes nothing |
| Annotations.RemoveIdAt | script.js:321 | with unique identities, deleting the marker at position `k` removes that entry only and keeps the rest in order |
| Annotations.RemoveIdDistinct | script.js:321 | deleting keeps identities unique |
| Annotations.RemoveIdSpec | script.js:321 | the delete facts together: unique identities kept, exactly the others kept, the one entry removed in place, no change when absent |
| Annotations.MoveById | script.js:324 | a drag changes only the dragged marker's position; everything else stays as it was |
| Annotations.EditRecord | script.js:301-317 | the edit as intended: a cancelled label prompt changes nothing; otherwise the label is the trimmed answer and the heading is the new value unless that prompt was cancelled; identity, position and type stay |
| Annotations.EditById | script.js:301-317 | the edit applies to the marker with that identity only |
| Annotations.EditAsWritten | script.js:301-317 | the edit as written changes only the marker layer's `_label`/`_angle`, never the record in `currentMarkers` |
| PlanCodec.ExportMarkers | script.js:338 | one document entry per marker, in marker order, each carrying the marker's lat, lng, type, label and angle |
| PlanCodec.NormalizeAll | script.js:351 | importing yields one entry per document entry, in order, each with `addArrowMarker`'s defaults applied |
| PlanCodec.NormalizeAllExport | script.js:291-295 | the entries of placed markers already carry their defaults, so importing them reproduces them |
| PlanCodec.RoundTrip | script.js:333-357 | exporting after `importPlan(exportPlan())` gives the same document: image, size, markers (lat, lng, type, label, angle) and lines (type, points), in the same order |
| PlanCodec.EditLostOnExportAsWritten | script.js:301-317 | with the edit as written, the exported entry is unchanged while the marker shows the new label |
| PlanCodec.EditLostOnExportExample | script.js:301-317 | concretely, relabelling a marker to "A" still exports label "" |
| PlanCodec.EditRecordExported | script.js:301-317 | with the corrected edit, the exported entry has the trimmed label and the new heading, with the same position and type |
| TacticalMap.MapState.constructor | script.js:171-176 | the initial map: no markers or lines, type "self", no line mode, no session, 1000 x 1000 without image |
| TacticalMap.MapState.SaveMapState | script.js:358 | the active-plan key then holds the current export |
| TacticalMap.MapState.AddArrowMarker | script.js:291-327 | exactly one marker is appended, with the defaults applied and a fresh identity |
| TacticalMap.MapState.Click | script.js:188-203 | line mode with no session: a new session of type `drawType` with exactly this point; line mode with a session: the point appended at the end, earlier points kept; marker mode: one marker appended; lines are never touched; the result is auto-saved |
| TacticalMap.MapState.SelectMarkerType | script.js:207 | the palette sets the marker type |
| TacticalMap.MapState.ToggleLineType | script.js:209-216 | the same line type again turns line mode off, another type selects it; an open session is kept |
| TacticalMap.MapState.FinishLine | script.js:219-223 | no session or fewer than 2 points: nothing changes; otherwise exactly one polyline (the session's type and points) is appended, the session closes, and that polyline has at least 2 points |
| TacticalMap.MapState.UndoPoint | script.js:224-230 | no session: nothing changes; otherwise the last point is removed, and a session left empty becomes null, so a session never has zero points |
| TacticalMap.MapState.ClearLines | script.js:231-237 | when confirmed, all finished lines and the open session are dropped |
| TacticalMap.MapState.ClearMarkers | script.js:329 | the marker list becomes empty |
| TacticalMap.MapState.ClearAllLines | script.js:330 | the finished lines become empty; the session is not touched |
| TacticalMap.MapState.DeleteMarker | script.js:320-322 | the marker with that identity is removed, every other marker stays in order, and nothing changes if no marker has it |
| TacticalMap.MapState.MoveMarker | script.js:324 | after a drag, only that marker's position changes, and the plan is saved |
| TacticalMap.MapState.EditMarker | script.js:301-317 | the corrected edit: a cancelled label prompt changes nothing; otherwise the list is `EditById` of the old one, so the edited marker keeps its identity, position and type and exports with the trimmed label and the new heading, and the other markers are unchanged |
| TacticalMap.MapState.ReplaceImage | script.js:240-257 | a new image sets the URL and size; marker and line coordinates are not rescaled; the saved plan names the image |
| TacticalMap.MapState.ClearPlan | script.js:273-282 | when confirmed, markers, lines and image are cleared and the size is kept |
| TacticalMap.MapState.Import | script.js:342-357 | the next export is `AfterImport` of the previous image and size and the document; the session and the modes are untouched |
| TacticalMap.MapState.Restore | script.js:359 | a parsed active plan is imported; a missing or unparsable one changes nothing |
| TacticalMap.MapState.SavePlan | script.js:260-265 | rejected, library unchanged, exactly when the name is empty after trimming; otherwise the trimmed name maps to the current export, overwriting any earlier plan of that name, and every other name keeps its plan |
| TacticalMap.MapState.LoadPlan | script.js:266-272 | an empty library, or a cancelled or unknown pick, changes nothing; otherwise the picked plan is imported |

Functions without a row of their own, whose properties the rows above state: `TimeFormat.FmtMMSS` (script.js:110) in `TimeFormat.FmtMMSSReadsBack`; `PlanCodec.Export` (script.js:333-341) and `PlanCodec.AfterImport` (script.js:342-357) in `PlanCodec.RoundTrip`, `PlanCodec.NormalizeAllExport` and `TacticalMap.MapState.Import`; `Annotations.RemoveId` (script.js:321) in `Annotations.RemoveIdSpec` and its four parts; `Countdown.Step` (script.js:118-124) in `Countdown.TicksCountDown`, `Countdown.TicksSplit` and `Countdown.TimerStops`; `Text.Trim` (script.js:261, 304) in `Text.TrimEmptyIff`, `Text.TrimIdempotent` and the rows of `Text.TrimStart` and `Text.TrimEnd`.

## Left out

- Leaflet rendering (map creation, image overlays, icons, rotation, tooltips, `fitBounds`/`setMaxBounds`, `lineColor`) is a foreign library. Layers are plain records.
- DOM wiring (tabs, tables, `alert`) is UI. `prompt` and `confirm` answers are method inputs.
- The kill/death log is floating-point arithmetic and formatting. This covers `calcKD`, `avgKD`, `fmt`, `renderStats`, `renderAnalysis`, `generateAdvice`, `loadLogs` and `saveLogs`.
- Lower-casing the memo before `keywordAdvice` is left out as well; its callers do it (script.js:102, 149).
- Timer side effects are not modelled: audio (`ensureAudio`, `beep`, the one-minute beep), vibration, `setInterval`/`clearInterval` scheduling and the enabled state of the buttons. `Tick` is called only while the interval runs, which is its `requires running`.
- Number coercion is not modelled: `+value||0` for minutes and seconds, and `Number(a)||0` for the heading. These inputs are integers, or `None` for a cancelled prompt.
- JSON encoding and decoding are not modelled; storage holds typed documents. Documents that throw halfway through `importPlan` are not modelled either: a line without `points`. The partial state such a failure leaves is out of the model.
- A plan library that parses to a non-object is not modelled; the library is always a map. With `null`, `savePlan` throws at `all[name]=…` and `loadPlan` throws at `Object.keys`; with a number or a string, `savePlan` drops the plan silently and still alerts that it was saved.
- Plan names that collide with `Object.prototype` keys (`__proto__`, `toString`) are not modelled; the library is a plain map.
- Async image loading (`FileReader`, `Image`) is left out. `ReplaceImage` receives the loaded URL and size.
- The 700 ms long-press timer and its cancellation are left out. `DeleteMarker` is the timer firing.
- The live marker layers are not modelled. Export reads each marker's record, and `PlacedMarker` models the layer's label and angle for the finding below.

## Findings

| source | as written | input that shows it | evidently intended | confidence | as-written member | corrected member |
|---|---|---|---|---|---|---|
| script.js:301-317 | the label/heading edit updates only the Leaflet marker's `_label` and `_angle`. `exportPlan` (script.js:338) reads `label` and `angle` from the record pushed at script.js:326, so the edit never reaches the export, the auto-saved plan or a saved plan | place a marker (label ""), then edit its label to "A": the marker shows "A" but exports label "" | the edited label and heading are exported and saved | high; not executed | PlanCodec.EditLostOnExportAsWritten | TacticalMap.MapState.EditMarker |
