# TimeTimer and the lecture downloader, modelled in Dafny

This project models two small programs.

**TimeTimer** is a macOS countdown timer written in Swift. The model covers:

- the view model's state machine: start, pause, resume, reset, the one-second tick, completion and progress;
- the time-input fields and how they are split into hours, minutes and seconds;
- the `MM:SS` / `HH:MM:SS` label;
- the persisted preset list: load with fallback to the seven defaults, add, delete by index set, update by id, move and reset;
- the 24-case alarm-sound catalogue: raw values, custom vs system, file names and play dispatch;
- the gating rules of the main window and of the preset-management sheet.

**downloader.py** is a Python script that fetches lecture videos. The model covers its pure helpers:

- content-id and Drive-folder-id extraction, as leftmost greedy regular-expression searches;
- file-name sanitising;
- Python's `os.path.splitext` and `os.path.join`, with POSIX (`posixpath`) rules;
- the `name_k.ext` collision counter;
- the URL dispatch order of `process_url`;
- the success/failure tallies of batch and folder mode.

The model is functional. State is held in immutable datatypes, and every operation is a pure function or a short method. The effects of the app are modelled this way:

- The repeating `Timer` is a `scheduled` flag together with an explicit `Fire` input.
- The notification and the alarm sound are emitted `Event`s.
- UserDefaults is an `Option` slot holding the last saved value.
- The outcomes of network and disk operations are parameters.

Modules, one per file:

| module | models |
|---|---|
| `Optional` | the `Option` type used for lookups and persisted slots |
| `Decimal` | `%d` / `%02d` rendering of naturals and its read-back parser |
| `Text` | `startswith`, `endswith`, `in` on strings |
| `Clock` | duration split and label (`formattedDuration`, `formattedTimeRemaining`) |
| `Modes` | `TimerMode`, `TimerState` |
| `Sounds` | `AlarmSound` |
| `Presets` | `TimerPreset`, the default list and the preset store |
| `Engine` | the countdown of `TimerViewModel` |
| `Controls` | `ContentView` and `PresetManagementView` gating |
| `UrlIds` | the three id extractors of the downloader |
| `FileNames` | sanitising, `splitext`/`join`, collision naming |
| `Dispatch` | `process_url`, `batch_download`, `download_gdrive_folder` |

Behaviour worth knowing before reading the contracts:

- **An `N`-second countdown completes on firing `N + 1`.** `tick` decrements while time remains and completes on the next firing (TimeTimer/TimeTimer/ViewModels/TimerViewModel.swift:95-102). The default five minutes therefore take 301 firings; see `Engine.StartThenRun` and `Engine.DefaultInputCountdown`.
- **A Drive-folder URL counts as a failure in batch mode.** `process_url` returns `(False, "GDRIVE_FOLDER")` for it (downloader/downloader.py:458-461), and `batch_download` counts every false result as a failure (downloader/downloader.py:501-504); see `Dispatch.DriveFolderFailsInBatch`.
- **`$` also matches before a final newline.** `extract_content_id_from_url` uses `$` without MULTILINE (downloader/downloader.py:37), so a URL whose id is followed by one final newline still yields the id; see `UrlIds.ContentIdFromPage`.

## Model

| member | source | states |
|---|---|---|
| Decimal.Show | TimeTimer/TimeTimer/Models/TimerPreset.swift:29-31 | a number renders as a non-empty string of digits, one digit exactly when it is below 10, whose first digit is `0` only for the number 0, so there are no leading zeros |
| Decimal.ParseShow | TimeTimer/TimeTimer/Models/TimerPreset.swift:29-31 | reading the rendering of `n` back as decimal yields `n` |
| Decimal.ShowCanonical | TimeTimer/TimeTimer/Models/TimerPreset.swift:29-31 | a non-empty digit string without a leading zero is the rendering of its own value, so `Show` is the only such spelling of a number |
| Decimal.ShowInjective | downloader/downloader.py:80-82 | distinct counters render as distinct strings |
| Decimal.ShowLength | TimeTimer/TimeTimer/Models/TimerPreset.swift:29 | numbers from 100 up render with at least three digits, from 10 up with at least two |
| Decimal.ParseLeadingZero | TimeTimer/TimeTimer/Models/TimerPreset.swift:29-31 | a leading zero added by padding does not change the value read back |
| Decimal.Pad2 | TimeTimer/TimeTimer/Models/TimerPreset.swift:29-31 | `%02d` gives at least two digits, exactly two below 100, three or more from 100 with no leading zero then, and reads back as the number, so nothing is truncated or over-padded |
| Text.OccursSpec | downloader/downloader.py:424-458 | Python's `pat in s` holds exactly when `pat` starts at some position of `s` |
| Text.OccursFromSpec | downloader/downloader.py:424-458 | a scan from position `from` finds `pat` exactly when it starts at or after `from` |
| Clock.Split | TimeTimer/TimeTimer/Models/TimerPreset.swift:24-26 | the three fields satisfy `h*3600 + m*60 + s == d` with `m < 60` and `s < 60` |
| Clock.SplitUnique | TimeTimer/TimeTimer/ViewModels/TimerViewModel.swift:156-158 | the split is the only decomposition with minutes and seconds below 60, so `applyPreset`'s fields are determined by the duration |
| Clock.Format | TimeTimer/TimeTimer/Models/TimerPreset.swift:28-32 | the label reads back from the right as exactly the duration: nothing is lost or truncated |
| Clock.RenderFields | TimeTimer/TimeTimer/Models/TimerPreset.swift:28-32 | the label ends in `:SS` with `MM` before that colon; it is exactly `MM:SS` without hours, and carries `HH:` in front when there are hours |
| Clock.ReadFields | TimeTimer/TimeTimer/Models/TimerPreset.swift:28-32 | any string with the padded fields in label positions reads back as the seconds those fields denote |
| Clock.FormatShape | TimeTimer/TimeTimer/ViewModels/TimerViewModel.swift:42-52 | under an hour the label is `MM:SS` (5 characters); from an hour on it has an hours field (8 or more characters); from 100 hours on, 9 or more |
| Clock.FormatExamplesShort | TimeTimer/TimeTimer/Models/TimerPreset.swift:28-32 | 300 renders as `05:00` and 1500 as `25:00` |
| Clock.FormatExamplesLong | TimeTimer/TimeTimer/Models/TimerPreset.swift:28-32 | 3600 renders as `01:00:00` and 3661 as `01:01:01` |
| Modes.ModeFromRaw | TimeTimer/TimeTimer/Models/TimerMode.swift:11-13 | raw-value lookup succeeds only with a case of that exact raw value, and fails exactly when no case has it |
| Modes.ModeRaw | TimeTimer/TimeTimer/Models/TimerMode.swift:11-13 | looking a mode's raw value up gives back that mode |
| Modes.ModeFromRawExact | TimeTimer/TimeTimer/Models/TimerMode.swift:11-13 | a successful lookup returns the mode whose raw value was given; lookup fails exactly when no mode has that raw value |
| Modes.ModeDisplayDistinct | TimeTimer/TimeTimer/Models/TimerMode.swift:15-17 | two modes with the same display name are the same mode |
| Modes.AllModesComplete | TimeTimer/TimeTimer/Models/TimerMode.swift:11-13 | `allCases` is `[basic, visual]` and contains every mode |
| Sounds.RawInjective | TimeTimer/TimeTimer/Models/AlarmSound.swift:12-43 | distinct cases have distinct raw values |
| Sounds.RawValue | TimeTimer/TimeTimer/Models/AlarmSound.swift:12-43 | every raw value starts with a capital letter and has at least three characters (the inverse is `Sounds.RawRoundTrip`) |
| Sounds.IsCustomSound | TimeTimer/TimeTimer/Models/AlarmSound.swift:49-58 | `isCustomSound` holds exactly for the members of the nature, modern and trendy groups |
| Sounds.EverySoundListed | TimeTimer/TimeTimer/Models/AlarmSound.swift:12-43 | every case appears in `allCases` |
| Sounds.LookupFound | TimeTimer/TimeTimer/Models/AlarmSound.swift:12 | a search of a case list returns a listed case with the given raw value, or fails only when no listed case has it |
| Sounds.LookupMember | TimeTimer/TimeTimer/Models/AlarmSound.swift:12 | a listed case is found by its own raw value |
| Sounds.RawRoundTrip | TimeTimer/TimeTimer/Models/AlarmSound.swift:12 | `init?(rawValue:)` inverts `rawValue` |
| Sounds.FromRawSound | TimeTimer/TimeTimer/Models/AlarmSound.swift:12 | a successful lookup returns the case whose raw value was given |
| Sounds.FromRawExact | TimeTimer/TimeTimer/Models/AlarmSound.swift:12-43 | lookup fails exactly for strings that are none of the 24 raw values |
| Sounds.CatalogueDistinct | TimeTimer/TimeTimer/Models/AlarmSound.swift:12-43 | the catalogue has 24 entries and none repeats |
| Sounds.CatalogueClassification | TimeTimer/TimeTimer/Models/AlarmSound.swift:49-58 | `isCustomSound` holds exactly for the 14 nature, modern and trendy cases and fails exactly for the 10 system cases |
| Sounds.Lowercase | TimeTimer/TimeTimer/Models/AlarmSound.swift:68 | lower-casing keeps the length and maps each character through ASCII lower-casing |
| Sounds.LowercaseLetters | TimeTimer/TimeTimer/Models/AlarmSound.swift:68 | a lower-cased word of letters is a valid asset name |
| Sounds.SnakeCase | TimeTimer/TimeTimer/Models/AlarmSound.swift:60-70 | each character is lower-cased, and a space becomes an underscore, keeping the length |
| Sounds.AudioFileName | TimeTimer/TimeTimer/Models/AlarmSound.swift:60-70 | a sound's file name is its raw value in snake case, and for every custom sound it is a valid asset name of lower-case letters and underscores |
| Sounds.SnakeName | TimeTimer/TimeTimer/Models/AlarmSound.swift:62-67 | each of the six explicit names spells its raw value in snake case and is a valid asset name |
| Sounds.AudioFileNames | TimeTimer/TimeTimer/Models/AlarmSound.swift:60-70 | apart from the six two-word cases, the file name is the lower-cased raw value |
| Sounds.AudioFileNameExamples | TimeTimer/TimeTimer/Models/AlarmSound.swift:60-70 | Rain is played from `rain` and Crystal from `crystal` |
| Sounds.Play | TimeTimer/TimeTimer/Models/AlarmSound.swift:76-104 | custom sounds play their bundled wav exactly when it exists and decodes; system sounds play by name exactly when the name is known; any other outcome is one beep |
| Sounds.PlayFallback | TimeTimer/TimeTimer/Models/AlarmSound.swift:84-104 | the fallback beep happens exactly when the needed asset is missing or cannot be loaded |
| Sounds.LoadSound | TimeTimer/TimeTimer/ViewModels/TimerViewModel.swift:171-176 | a stored exact raw value selects that sound; a missing or unknown string keeps the current one |
| Sounds.SaveLoadSound | TimeTimer/TimeTimer/ViewModels/TimerViewModel.swift:171-180 | saving a sound's raw value and loading it back restores that sound |
| Presets.DefaultPresetsContents | TimeTimer/TimeTimer/Models/TimerPreset.swift:36-44 | there are exactly seven defaults, in order, named "5 min" … "1 hour", with durations 300, 600, 900, 1500, 1800, 2700 and 3600 |
| Presets.DefaultPresets | TimeTimer/TimeTimer/Models/TimerPreset.swift:36-44 | there are seven defaults, each with the id the generator gives its position, with durations that are positive multiples of five minutes up to an hour, in strictly increasing order |
| Presets.DefaultPresetLabelLengths | TimeTimer/TimeTimer/Models/TimerPreset.swift:28-44 | the first six defaults render as five-character `MM:SS` labels and "1 hour" as an eight-character `HH:MM:SS` label |
| Presets.DefaultPresetLabels | TimeTimer/TimeTimer/Models/TimerPreset.swift:28-44 | "5 min" renders as `05:00`, the Pomodoro as `25:00` and "1 hour" as `01:00:00` |
| Presets.PickSplit | TimeTimer/TimeTimer/ViewModels/TimerViewModel.swift:139-144 | selecting by index set over a window is the concatenation of the selections over its two halves |
| Presets.PickSameWindow | TimeTimer/TimeTimer/ViewModels/TimerViewModel.swift:139-144 | a selection depends only on the elements inside its window |
| Presets.PickPartition | TimeTimer/TimeTimer/Views/PresetManagementView.swift:99-100 | the selected and the rejected elements of a prefix are together exactly the prefix, as a multiset |
| Presets.PickLength | TimeTimer/TimeTimer/ViewModels/TimerViewModel.swift:139-144 | every index of a window is either selected or rejected, so the two lengths add up to the window's |
| Presets.PickCount | TimeTimer/TimeTimer/ViewModels/TimerViewModel.swift:139-144 | the number of selected elements is the number of in-range indices |
| Presets.RemoveDescendingKeeps | TimeTimer/TimeTimer/ViewModels/TimerViewModel.swift:139-142 | removing the listed indices in descending order leaves the unlisted elements, in their original order |
| Presets.DeleteAt | TimeTimer/TimeTimer/ViewModels/TimerViewModel.swift:139-144 | deletion leaves the survivors in their original order, shorter by the number of indices |
| Presets.MoveTo | TimeTimer/TimeTimer/Views/PresetManagementView.swift:99-102 | a move is a permutation of the list; the moved elements form one block in their original order at the destination, and the others keep their order around it |
| Presets.FirstIndexOf | TimeTimer/TimeTimer/ViewModels/TimerViewModel.swift:147 | the found index holds the id and no earlier one does; no index is found only when no element has the id |
| Presets.Save | TimeTimer/TimeTimer/ViewModels/TimerViewModel.swift:128-132 | saving stores the current list and keeps it in memory |
| Presets.Load | TimeTimer/TimeTimer/ViewModels/TimerViewModel.swift:117-126 | a stored list is loaded as is; with nothing stored, the defaults are installed and saved |
| Presets.LoadStable | TimeTimer/TimeTimer/ViewModels/TimerViewModel.swift:117-126 | a second load returns what the first did |
| Presets.Add | TimeTimer/TimeTimer/ViewModels/TimerViewModel.swift:134-137 | the preset is appended after the unchanged list and the result is saved |
| Presets.Delete | TimeTimer/TimeTimer/ViewModels/TimerViewModel.swift:139-144 | exactly the listed presets are removed, the others keep their order, and the result is saved |
| Presets.Update | TimeTimer/TimeTimer/ViewModels/TimerViewModel.swift:146-151 | the first preset with the same id is replaced and the list saved; with no such id the store is unchanged and nothing is saved |
| Presets.ResetToDefaults | TimeTimer/TimeTimer/ViewModels/TimerViewModel.swift:165-168 | the list becomes exactly the defaults and is saved |
| Presets.Move | TimeTimer/TimeTimer/Views/PresetManagementView.swift:99-102 | the list after a move is a permutation of the list before, and it is saved |
| Presets.ReloadAfterEdit | TimeTimer/TimeTimer/ViewModels/TimerViewModel.swift:117-132 | whatever was last saved is what the next launch loads |
| Presets.DeleteThenReload | TimeTimer/TimeTimer/ViewModels/TimerViewModel.swift:139-144 | with unique ids, a deleted preset is not in the list loaded at the next launch |
| Presets.PickAvoids | TimeTimer/TimeTimer/ViewModels/TimerViewModel.swift:139-144 | with unique ids, no survivor of a deletion shares the id of a deleted element |
| Presets.AddThenReload | TimeTimer/TimeTimer/ViewModels/TimerViewModel.swift:134-137 | an added preset, with its id, is the last one loaded at the next launch |
| Engine.Initial | TimeTimer/TimeTimer/ViewModels/TimerViewModel.swift:16-28 | a new model is idle in Basic mode, zero total and remaining, five minutes on the input with minutes and seconds in their stepper ranges (so the fields are 0, 5, 0 by `Clock.SplitUnique`), and holds the stored sound when it is a valid raw value, otherwise Beep |
| Engine.Start | TimeTimer/TimeTimer/ViewModels/TimerViewModel.swift:62-78 | no effect while running; from idle, total and remaining become the input's seconds and the timer runs exactly when that is positive; from paused it runs again with both times untouched |
| Engine.Pause | TimeTimer/TimeTimer/ViewModels/TimerViewModel.swift:80-85 | only a running timer pauses, and its times are kept; the invariant `Valid` is preserved |
| Engine.Reset | TimeTimer/TimeTimer/ViewModels/TimerViewModel.swift:87-93 | from any state: idle, nothing scheduled, both times zero |
| Engine.Complete | TimeTimer/TimeTimer/ViewModels/TimerViewModel.swift:104-114 | completion stops the timer, keeps the total, emits one notification and one alarm of the selected sound, and preserves `Valid` |
| Engine.Tick | TimeTimer/TimeTimer/ViewModels/TimerViewModel.swift:95-102 | with time left the remaining time drops by exactly one and nothing is emitted; at zero the timer completes; the total is never changed; `Valid` is preserved |
| Engine.Fire | TimeTimer/TimeTimer/ViewModels/TimerViewModel.swift:75-77 | a firing reaches `tick` only while the repeating timer is scheduled, and preserves `Valid` |
| Engine.ApplyPreset | TimeTimer/TimeTimer/ViewModels/TimerViewModel.swift:153-163 | after a reset, the input fields hold the preset's duration with minutes and seconds below 60; the timer stays idle and does not start |
| Engine.SelectSound | TimeTimer/TimeTimer/Views/ContentView.swift:82-93 | a changed choice is stored under its raw value and previewed once; re-selecting the same sound does nothing |
| Engine.ValidPreserved | TimeTimer/TimeTimer/ViewModels/TimerViewModel.swift:62-114 | every operation keeps `remaining <= total`, "scheduled exactly while running" and "a started countdown has a positive total" |
| Engine.Progress | TimeTimer/TimeTimer/ViewModels/TimerViewModel.swift:37-40 | progress lies in [0, 1] for a valid timer; it is 0 with all the time left and 1 when a started countdown has reached zero |
| Engine.ProgressMonotone | TimeTimer/TimeTimer/ViewModels/TimerViewModel.swift:37-40 | a firing never decreases progress |
| Engine.RunCountsDown | TimeTimer/TimeTimer/ViewModels/TimerViewModel.swift:95-102 | `k` firings with at least `k` seconds left take exactly `k` seconds off and emit nothing |
| Engine.Run | TimeTimer/TimeTimer/ViewModels/TimerViewModel.swift:75-77 | any number of firings preserves `Valid` and never changes the total, input or sound; with nothing scheduled they change nothing and emit nothing |
| Engine.RunAdditive | TimeTimer/TimeTimer/ViewModels/TimerViewModel.swift:75-77 | `a + b` firings are `a` firings followed by `b`, with their events concatenated |
| Engine.CompletesOnNextTick | TimeTimer/TimeTimer/ViewModels/TimerViewModel.swift:95-114 | a running countdown reaches zero after `remaining` firings, completes on the next one, and then stays silent |
| Engine.StartThenRun | TimeTimer/TimeTimer/ViewModels/TimerViewModel.swift:62-114 | an `N`-second countdown is still running at zero after `N` firings and completes on firing `N + 1`, with the total kept at `N` |
| Engine.StartWithZeroInput | TimeTimer/TimeTimer/ViewModels/TimerViewModel.swift:65-71 | with all input fields zero, start leaves the timer idle with both times zero and nothing scheduled |
| Engine.FiveMinuteCountdown | TimeTimer/TimeTimer/ViewModels/TimerViewModel.swift:95-102 | five minutes of input: running after 300 firings, idle with one notification and one alarm after 301 |
| Engine.DefaultInputCountdown | TimeTimer/TimeTimer/ViewModels/TimerViewModel.swift:23-25 | the initial five-minute input completes on firing 301 |
| Engine.PauseResumeKeepsRemaining | TimeTimer/TimeTimer/ViewModels/TimerViewModel.swift:62-85 | resuming undoes a pause exactly, and a paused timer ignores firings |
| Engine.PauseResumeExample | TimeTimer/TimeTimer/ViewModels/TimerViewModel.swift:62-102 | ten minutes, ten firings, pause, resume, one firing: 589 seconds remain |
| Engine.ResetSilences | TimeTimer/TimeTimer/ViewModels/TimerViewModel.swift:87-93 | after a reset no firing completes the countdown or emits anything |
| Engine.ApplyPresetWhileRunning | TimeTimer/TimeTimer/ViewModels/TimerViewModel.swift:153-163 | applying a preset mid-countdown stops it, loads the split duration, and nothing fires afterwards |
| Engine.NewSoundPlaysAtCompletion | TimeTimer/TimeTimer/ViewModels/TimerViewModel.swift:104-114 | a sound chosen during a countdown is the one played at completion |
| Engine.SelectedSoundPersists | TimeTimer/TimeTimer/ViewModels/TimerViewModel.swift:171-180 | a changed choice is the sound restored at the next launch |
| Controls.StepDown | TimeTimer/TimeTimer/Views/ContentView.swift:225-229 | minus lowers the value by one exactly when it is above the lower bound |
| Controls.StepUp | TimeTimer/TimeTimer/Views/ContentView.swift:243-247 | plus raises the value by one exactly when it is below `upper - 1` |
| Controls.SteppersStayInRange | TimeTimer/TimeTimer/Views/ContentView.swift:225-247 | a value in `[lower, upper - 1]` stays there under either button |
| Controls.StepSequenceStaysInRange | TimeTimer/TimeTimer/Views/ContentView.swift:225-247 | any sequence of presses from an in-range value stays in range |
| Controls.PressStepper | TimeTimer/TimeTimer/Views/ContentView.swift:188-212 | a stepper edits only its own field, within 0..<24 or 0..<60, and only while idle (the input is hidden otherwise) |
| Controls.PanelFor | TimeTimer/TimeTimer/Views/ContentView.swift:319-354 | the input, mode picker and preset buttons are available exactly when idle; Start, Pause and Resume appear exactly in Idle, Running and Paused; Reset exactly when not idle; Start is disabled exactly when all fields are zero |
| Controls.PressPrimary | TimeTimer/TimeTimer/Views/ContentView.swift:319-344 | pressing the enabled primary button keeps `Valid`; Start or Resume reaches Running, Pause reaches Paused, and both Pause and Resume keep the remaining time |
| Controls.NonZeroInput | TimeTimer/TimeTimer/Views/ContentView.swift:327 | input fields that are not all zero denote a positive number of seconds, which is why an enabled Start always runs |
| Controls.ResetButtonActs | TimeTimer/TimeTimer/Views/ContentView.swift:346-354 | the reset button always returns the timer to idle with nothing scheduled |
| Controls.ChooseMode | TimeTimer/TimeTimer/Views/ContentView.swift:160-167 | the mode changes only while idle |
| Controls.QuickPresets | TimeTimer/TimeTimer/Views/ContentView.swift:278 | the grid shows the first `min(8, n)` presets, in list order |
| Controls.TapPreset | TimeTimer/TimeTimer/Views/ContentView.swift:287-313 | a preset button applies its preset only while idle |
| Controls.AlarmPickerPersistsAndPreviews | TimeTimer/TimeTimer/Views/ContentView.swift:89-93 | a changed alarm choice is restored by the next load and previewed exactly once |
| Controls.ToggleEdit | TimeTimer/TimeTimer/Views/PresetManagementView.swift:35-37 | each press of Edit flips edit mode |
| Controls.EditModeParity | TimeTimer/TimeTimer/Views/PresetManagementView.swift:15-37 | the sheet opens with edit mode off, so edit mode is on exactly after an odd number of presses |
| Controls.SwipeDelete | TimeTimer/TimeTimer/Views/PresetManagementView.swift:52-56 | delete leaves the store unchanged outside edit mode, and delegates to the index-set delete in it |
| Controls.DragMove | TimeTimer/TimeTimer/Views/PresetManagementView.swift:57-61 | move leaves the store unchanged outside edit mode; in it, the list becomes a saved permutation |
| Controls.ResetToDefaultsButton | TimeTimer/TimeTimer/Views/PresetManagementView.swift:83-85 | "Reset to Defaults" yields the seven default presets whatever the edit mode |
| UrlIds.RunEnd | downloader/downloader.py:37 | the greedy run ends at the first character outside the class, and everything before it is inside |
| UrlIds.RunEndExact | downloader/downloader.py:37 | a run that cannot be extended ends where `RunEnd` says |
| UrlIds.FirstMatch | downloader/downloader.py:231 | `re.search` returns the leftmost match position; no match means no position matches |
| UrlIds.Search | downloader/downloader.py:37-47 | `re.search(...).group(1)`: there is no result exactly when the pattern matches at no position; otherwise the result is the greedy run after the marker at the leftmost match position, a non-empty run of the pattern's class |
| UrlIds.NoLaterPageMarker | downloader/downloader.py:37 | after a match of `/em/` plus hex to the end, no later position holds `/em/` |
| UrlIds.PageMatchUnique | downloader/downloader.py:37 | at most one position matches `/em/([a-f0-9]+)$` |
| UrlIds.PageSearchFound | downloader/downloader.py:37 | an id found by the page pattern is non-empty lower-case hex, and the string ends with `/em/` and that id |
| UrlIds.PageFound | downloader/downloader.py:37 | a page match at `i` means the string ends with `/em/` and the hex run after `i + 4` |
| UrlIds.PageSearchComplete | downloader/downloader.py:37 | a string ending in `/em/` and a non-empty hex id yields exactly that id |
| UrlIds.PageSearchNone | downloader/downloader.py:37 | without a match, the string ends in no `/em/` followed by a non-empty hex id |
| UrlIds.ContentIdFromPage | downloader/downloader.py:35-40 | a found page id is non-empty lower-case hex and the URL, less a final newline, ends with `/em/` and that id; no id is found exactly when the URL ends in no such id |
| UrlIds.ContentIdFromPageSpec | downloader/downloader.py:35-40 | the page id is `r` if and only if the URL ends with `/em/` + `r`, with `r` non-empty lower-case hex |
| UrlIds.MediaMatchAtSpec | downloader/downloader.py:44 | an occurrence of `/kruniv1001/` + hex + `/` is a match whose run is exactly the hex |
| UrlIds.MediaFound | downloader/downloader.py:44 | a media match at `i` is `/kruniv1001/`, the hex run and a `/` starting at `i` |
| UrlIds.MediaNone | downloader/downloader.py:44 | without a media match, no `/kruniv1001/` is followed by a hex run and `/` |
| UrlIds.ContentIdFromMedia | downloader/downloader.py:42-47 | a found media id `r` is non-empty hex, with `/kruniv1001/` + `r` + `/` at the leftmost position where the pattern matches; no id is found exactly when no such occurrence exists |
| UrlIds.NoSlashKrInHead | downloader/downloader.py:454 | the fixed scheme, host and `/contents7` part of the download URL contains no `/kr` |
| UrlIds.MarkerChars | downloader/downloader.py:44 | an occurrence of `/kruniv1001/` begins with `/kr` |
| UrlIds.NoMarkerInHost | downloader/downloader.py:454 | the marker cannot start inside the fixed head of the download URL |
| UrlIds.MediaSearchRoundTrip | downloader/downloader.py:44-47 | the media pattern finds the id right after the fixed head and marker of the built URL |
| UrlIds.MediaUrlFor | downloader/downloader.py:454 | extracting the media id from the download URL built from a non-empty hex id gives back that id |
| UrlIds.PageToMediaRoundTrip | downloader/downloader.py:444-455 | the id read from an LMS page is the id read back from the CDN URL built from it |
| UrlIds.DriveFolderId | downloader/downloader.py:223-234 | `folders/` is tried before `id=`; a found id is a non-empty `[A-Za-z0-9_-]` run |
| UrlIds.DriveFolderIdSpec | downloader/downloader.py:223-234 | a found id follows a matched marker as a maximal run; None exactly when neither pattern matches anywhere |
| FileNames.RemoveForbidden | downloader/downloader.py:70 | the result contains none of the nine forbidden characters, keeps every other character with its multiplicity, and leaves a clean name unchanged |
| FileNames.RemoveForbiddenConcat | downloader/downloader.py:70 | deletion works piecewise, so the surviving characters keep their order |
| FileNames.Sanitize | downloader/downloader.py:70-72 | the file name is free of forbidden characters and ends in `.mp4`, `.mov` or `.mkv`; `.mp4` is appended only when no such extension is already there |
| FileNames.SanitizeIdempotent | downloader/downloader.py:70-72 | sanitising twice equals sanitising once |
| FileNames.SanitizeKeepsGoodNames | downloader/downloader.py:70-72 | a clean name with a video extension is kept verbatim |
| FileNames.NoVideoExt | downloader/downloader.py:71 | a name without a dot four places from the end has no video extension |
| FileNames.SanitizeFallbackTitle | downloader/downloader.py:436-439 | the fallback title `Lecture_<i>` becomes `Lecture_<i>.mp4` |
| FileNames.LastIndex | downloader/downloader.py:78 | `rfind` returns a position holding the character with none after it, or -1 |
| FileNames.SplitExt | downloader/downloader.py:78 | `splitext` parts concatenate to the path; there is an extension exactly when the last dot comes after the last slash and some character between them is not a dot, and then the root ends just before that dot; the extension is empty or a dot followed by no dot or slash |
| FileNames.Join | downloader/downloader.py:74 | `join` keeps an absolute second part alone; otherwise the result is `a + b` when `a` is empty or ends in `/`, and `a + "/" + b` in every other case |
| FileNames.SplitVideoName | downloader/downloader.py:76-78 | a name with a non-dot stem and a video extension splits into exactly that stem and extension |
| FileNames.SplitDotName | downloader/downloader.py:78 | a bare `.mp4` has no extension, following the leading-dots rule of `splitext` |
| FileNames.JoinSplitExt | downloader/downloader.py:74-82 | the extension of a joined path is the extension of its last part, and the root is the joined root: the directory part never contributes a dot |
| FileNames.SplitExtAfterDir | downloader/downloader.py:78 | splitting a name behind a directory prefix ending in `/` splits the name alone |
| FileNames.CandidateDigits | downloader/downloader.py:80-82 | the counter inside `name_k.ext` is spelled exactly as `{counter}` spells `k` |
| FileNames.CandidateInjective | downloader/downloader.py:80-82 | distinct counters give distinct candidate names |
| FileNames.Candidate | downloader/downloader.py:80-82 | `name_k.ext` starts with the root and `_`, ends with the extension, and the digits between read back as `k` with no leading zero |
| FileNames.ChooseName | downloader/downloader.py:76-82 | the chosen name is never present; the original is kept exactly when it is free; otherwise the name is `root_k.ext` for the smallest `k >= 1` not present |
| FileNames.CandidateKeepsExt | downloader/downloader.py:76-82 | a renamed download with a real stem keeps its video extension |
| FileNames.EmptyTitleCandidate | downloader/downloader.py:70-82 | an empty title sanitises to `.mp4`, which a clash renames `.mp4_1`, a name without a video extension |
| FileNames.CandidateClean | downloader/downloader.py:70-82 | a renamed clean name is still clean |
| FileNames.RequestsFileName | downloader/downloader.py:69-82 | the file `download_video_requests` writes is clean and not present; it is the sanitised title exactly when that is free, and otherwise `name_k.ext` where every `name_j.ext` with `1 <= j < k` is present, so `k` is the smallest free counter |
| FileNames.DriveFilePath | downloader/downloader.py:283-296 | the path `download_gdrive_file` writes is not present; it is the joined path exactly when that is free, and otherwise `name_k.ext` where every `name_j.ext` with `1 <= j < k` is present, so `k` is the smallest free counter |
| Dispatch.SkipSpaces | downloader/downloader.py:414 | skipping leading white space stops at the first non-space character |
| Dispatch.TrimEnd | downloader/downloader.py:414 | trimming trailing white space stops after the last non-space character |
| Dispatch.Strip | downloader/downloader.py:414 | a stripped URL neither starts nor ends with white space, and is empty exactly when the line was all white space |
| Dispatch.StripSlice | downloader/downloader.py:414 | the stripped URL is the slice left once leading and trailing white space are dropped |
| Dispatch.StripIdempotent | downloader/downloader.py:414 | stripping twice equals stripping once |
| Dispatch.StripKeepsTrimmed | downloader/downloader.py:414 | a URL with no white space at its ends is its own strip |
| Dispatch.TitleOr | downloader/downloader.py:434-436 | a missing or empty title falls back to `Lecture_<index>`; a non-empty title is kept |
| Dispatch.Classify | downloader/downloader.py:414-461 | the route is empty exactly for an empty URL and Zoom exactly for a non-empty URL containing `zoom.us`; a non-Zoom URL naming the CDN host with a media id is exactly the CDN route with that URL, id and the title or fallback, and only such a URL is; a non-Zoom, non-CDN URL with the LMS path and a page id is exactly the LMS route with that id, the media URL built from it (which reads back as the id) and the title; a Drive folder names Drive and folders; the URL is unrecognised exactly when it is non-empty, not Zoom, took neither download route and is not a Drive folder |
| Dispatch.RouteEmpty | downloader/downloader.py:414-417 | a line is rejected as empty exactly when it is all white space |
| Dispatch.CdnNeverLms | downloader/downloader.py:430-442 | a URL naming the CDN host is never treated as an LMS page; without a media id it falls through to the Drive check |
| Dispatch.DriveFolderRoute | downloader/downloader.py:458-461 | a Drive folder is recognised exactly when the URL names Drive and folders and no earlier branch took it |
| Dispatch.Outcome | downloader/downloader.py:414-464 | success exactly when the route downloads and the download succeeded, with the saved path; a Drive folder gives `(False, "GDRIVE_FOLDER")`; every other failure gives no path |
| Dispatch.ProcessUrl | downloader/downloader.py:407-464 | an all-white-space line gives `(False, None)`; success holds exactly when the route downloads and the download succeeds, with the saved path; `(False, "GDRIVE_FOLDER")` comes exactly from a Drive folder |
| Dispatch.CountTrue | downloader/downloader.py:501-504 | the number of successes never exceeds the number of URLs |
| Dispatch.CountTrueSnoc | downloader/downloader.py:501-504 | one more URL adds one to the successes exactly when it succeeded |
| Dispatch.Tally | downloader/downloader.py:497-505 | each URL's flag is recorded in order; successes count the true flags; successes plus failures equal the number of URLs |
| Dispatch.BatchDownload | downloader/downloader.py:486-518 | flag `i` is the success flag `process_url` returns for URL `i` with index `i + 1`; the successes count the true flags, and successful + failed == len(urls) |
| Dispatch.DriveFolderFailsInBatch | downloader/downloader.py:458-461 | a Drive-folder URL returns `(False, "GDRIVE_FOLDER")`, so its batch flag is false and it counts as a failure |
| Dispatch.TallySnoc | downloader/downloader.py:380-391 | one more listed file adds to the tallies only when it is not a Google Apps file |
| Dispatch.FolderDownload | downloader/downloader.py:335-405 | no folder id, no service or unreadable folder info give (0, 1); otherwise successes plus failures equal the non-Google-Apps files and successes are the successful downloads |
| Dispatch.OnlyGoogleAppsCountsNothing | downloader/downloader.py:381-384 | files whose mime type starts with `application/vnd.google-apps.` are in neither tally |

## Left out

- Scheduling is left out: `Timer.scheduledTimer`, the run loop and `invalidate`. They are replaced by the `scheduled` flag and the `Fire` input; wall-clock time is not modelled.
- Notifications (`NotificationManager.swift`) and sound output (`NSSound`, `Bundle`) are left out. They become `Engine.Event` values and an abstract `Sounds.Assets` record of which files exist, decode or are named.
- The UserDefaults and JSON encoding is left out. Each persisted value is an `Option` slot, and `None` stands for both "missing" and "undecodable".
- Engine.Start: durations are whole seconds (`nat`), not `TimeInterval` doubles. The `Int(...)` truncation of fractional durations in `formattedDuration` and `applyPreset` is not modelled, because every duration the app creates is a whole number of seconds.
- UUID generation is left out. Preset ids are naturals; the default presets take theirs from a `uuid` parameter, standing for the static list generated once.
- Presets.Delete: the index set must be in range. Swift's `remove(at:)` traps on an out-of-range index, and the model does not model a trap.
- Sounds.Lowercase: only ASCII letters are lower-cased. That is all the raw values contain; Unicode case mapping is not modelled.
- Controls.QuickPresets: the `showQuickPresets` toggle (TimeTimer/TimeTimer/Views/ContentView.swift:15, 44, 103) is left out. It starts on and only hides or shows the whole grid, which is presentation only; the grid's contents are modelled.
- The window, menu bar and always-on-top handling in `TimeTimerApp.swift` are left out, as are the layout and colours of `BasicTimerView.swift`, `VisualTimerView.swift` and `ColorTheme.swift`. They are presentation only.
- The sound and icon generators (`generate_*.py`) are left out. They are floating-point signal and image synthesis.
- The downloader's I/O is left out:
  - HTTP through `requests`, the XML title lookup, the `yt-dlp` subprocess and its file search;
  - OAuth and the pickle token, Drive API paging and recursive listing (`list_gdrive_folder_contents`);
  - tqdm progress, `time.sleep`, file writes and size checks, `input()` in `interactive_mode` and `main`, and all printing.

  These become parameters: a title service, a per-route download outcome, a per-file download outcome, the listing, and flags for service and folder-info availability.
- FileNames.SplitExt / FileNames.Join: POSIX path rules; `ntpath` separators and drives are not modelled.
- Dispatch.ProcessUrl: the download outcome `fetch` is a pure function of the route, so the same URL listed twice reports the same path, although the second download would be renamed `name_1.ext`; the success and failure tallies are unaffected.
- Dispatch.Strip: the white-space set is the one of Python's `str.isspace` for the characters listed in `Dispatch.IsSpace`. Other Unicode properties are not modelled.
- File existence is abstracted as a set of present names. `download_video_requests` tests names inside the output directory, and `download_gdrive_file` tests full paths.
