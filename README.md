# CustomPlayerView: a Dafny model of the audio player screen

`CustomPlayerView` is the single screen of the AudioWaveVisualizer demo app. It
plays one bundled track. It draws a decorative waveform of 78 bars, created as
39 left/right pairs. A 0.1 s timer fills the bars in white as playback goes on
and writes the elapsed and total time as `MM:SS`. The user can toggle
play/pause, or seek by tapping a bar or a point of the waveform container.

This project models the logic inside that view controller:

- `SwiftInt`: Swift's `Int(x)`, which truncates toward zero, and Swift's
  truncating `/` and `%` on `Int`.
- `TimeFormat`: `formatTime`, the `%02d:%02d` rendering of a time. It comes
  with a parser for its output, used to state the round trip.
- `Waveform`: the order in which `createWaveformViews` creates the bars, the
  `firstIndex(of:)` lookup of a tapped bar, progress and the number of
  completed bars, the highlight pattern, and the positions the two tap
  handlers seek to. All of it is pure.
- `PlayerView`: the class `CustomPlayerView`. It holds `isPlaying`, the
  optional loaded player (`Track`: duration, current time, whether the engine
  is playing), the bar layout, a `highlighted: array<bool>` of 78 entries, the
  button image name and the two label texts. It has one method per event
  handler: `TogglePlayPause`, `DidFinish`, `Tick`, `SeekToBar` and
  `SeekToFraction`, plus `UpdatePlaystopButton`.

Times are exact `real`s. Integers are unbounded.

Two things the code does not do, and the model follows the code:

- Seeks are not clamped. `FractionPositionBounds` proves that a fraction above
  1 seeks past the end and a negative one before the start.
- The code divides by the duration without a guard (`CustomPlayerView.swift:118`),
  so `Int(...)` of the result traps when the duration is 0. `Tick` therefore
  requires a non-zero duration when a player is loaded.

## Model

| member | source | states |
|---|---|---|
| `SwiftInt.Truncate` | audioDemo/CustomPlayerView.swift:129-130 | `Int(x)` gives the integer part of `x`, rounded toward zero, for both signs |
| `SwiftInt.TruncateMonotonic` | audioDemo/CustomPlayerView.swift:122 | truncation toward zero preserves order |
| `SwiftInt.Quot` | audioDemo/CustomPlayerView.swift:129 | Swift `/` has as magnitude the quotient of the magnitudes, is non-negative when the operands agree in sign and non-positive otherwise, so it rounds toward zero |
| `SwiftInt.Rem` | audioDemo/CustomPlayerView.swift:129-130 | Swift `%` has quotient·divisor + remainder = dividend, a remainder smaller than the divisor, and the dividend's sign |
| `SwiftInt.QuotRemOfNatural` | audioDemo/CustomPlayerView.swift:129-130 | for a non-negative count of seconds, Swift's `/ 60` and `% 60` are ordinary division and remainder |
| `TimeFormat.Decimal` | audioDemo/CustomPlayerView.swift:131 | `%d` prints only digits, one digit iff the value is below 10, at most two below 100, and no leading zero for values from 1 up |
| `TimeFormat.DecimalRoundTrip` | audioDemo/CustomPlayerView.swift:131 | reading back the printed digits gives the number |
| `TimeFormat.Field` | audioDemo/CustomPlayerView.swift:131 | `%02d` of a non-negative value is at least two digits, exactly two below 100, denotes the value, and has no leading zero from 10 up; a negative value is `-` followed by the digits of its magnitude, without padding or leading zero |
| `TimeFormat.FormatSeconds` | audioDemo/CustomPlayerView.swift:129-131 | the text has at least five characters; for `n ≥ 0` the colon is third from the end, and below 6000 s (100 minutes) the text is exactly `MM:SS` |
| `TimeFormat.FormatTime` | audioDemo/CustomPlayerView.swift:128-132 | parsing the label gives the whole seconds `⌊t⌋` for `t ≥ 0`, 0 for `-1 < t < 0` (truncation toward zero), and fails for `t ≤ -1` |
| `TimeFormat.FormatSecondsFields` | audioDemo/CustomPlayerView.swift:128-132 | for `n ≥ 0` the output is minutes `n / 60` (at least two digits), a colon, then seconds `n % 60` (exactly two digits, 00–59) |
| `TimeFormat.FormatSecondsRoundTrip` | audioDemo/CustomPlayerView.swift:128-132 | parsing the output gives back `minutes*60 + seconds == n` for every `n ≥ 0`, and it fails for every negative `n` |
| `TimeFormat.FormatSecondsInjective` | audioDemo/CustomPlayerView.swift:129-131 | two whole-second counts format the same iff they are equal |
| `TimeFormat.FormatTimeSameSecond` | audioDemo/CustomPlayerView.swift:128-132 | two non-negative times format the same iff they fall in the same whole second |
| `TimeFormat.FormatSecondsExample` | audioDemo/CustomPlayerView.swift:129-131 | for `n = 60·m + s` with `s < 60` the text is `%02d` of `m`, a colon and `%02d` of `s` |
| `TimeFormat.FormatSecondsExamples` | audioDemo/CustomPlayerView.swift:129-131 | 0 s → `00:00`, 65 s → `01:05`, 3725 s → `62:05` |
| `TimeFormat.FormatTimeExamples` | audioDemo/CustomPlayerView.swift:128-132 | 0 → `00:00`, 65.4 → `01:05`, 3725 → `62:05` (there is no hours field) |
| `Waveform.BarAt` | audioDemo/CustomPlayerView.swift:59-84 | the bar at position `i` has position `i` again, and its round is below 39 iff `i` is below 78 |
| `Waveform.IndexOf` | audioDemo/CustomPlayerView.swift:59-84 | a bar's position halves to its round, is even iff the bar is a left bar, and is below 78 iff the round is below 39 |
| `Waveform.BarAtIndexOf` | audioDemo/CustomPlayerView.swift:59-84 | array position ↔ (loop round, side) is a bijection: round `k`'s left bar is at `2k`, its right bar at `2k+1` |
| `Waveform.CreateWaveformLayout` | audioDemo/CustomPlayerView.swift:59-84 | the loop yields exactly 78 bars, and position `i` holds the bar of round `i / 2`, left for even `i`, right for odd |
| `Waveform.FirstIndex` | audioDemo/CustomPlayerView.swift:156 | `firstIndex(of:)` returns the first position that holds the bar, or `None` iff the bar does not occur |
| `Waveform.LayoutLookup` | audioDemo/CustomPlayerView.swift:59-84 | in the layout a bar occurs iff its round is below 39, and then only at `IndexOf(bar)` |
| `Waveform.Progress` | audioDemo/CustomPlayerView.swift:118 | progress times the duration is the playback position |
| `Waveform.ProgressBounds` | audioDemo/CustomPlayerView.swift:118 | inside the track progress is in `[0, 1]`, equals 1 iff at the end, is negative before the start, and is monotone in the position |
| `Waveform.Completed` | audioDemo/CustomPlayerView.swift:122 | for progress in `[0, 1]` the completed count is in `0..count`; for progress ≤ 0 it is ≤ 0 |
| `Waveform.CompletedMonotonic` | audioDemo/CustomPlayerView.swift:122 | more progress never completes fewer bars |
| `Waveform.Highlights` | audioDemo/CustomPlayerView.swift:121-125 | one entry per bar; the white bars form a prefix; all are white once `completed ≥ count`, none while `completed ≤ 0` |
| `Waveform.HighlightedCount` | audioDemo/CustomPlayerView.swift:121-125 | the highlight pattern has exactly `completed` true entries, clipped to `0..count` |
| `Waveform.HighlightsMonotonic` | audioDemo/CustomPlayerView.swift:118-125 | a later position highlights a superset of the bars an earlier one highlights |
| `Waveform.CompletedAtEnd` | audioDemo/CustomPlayerView.swift:118-125 | inside the track all 78 bars are highlighted iff playback is at the end |
| `Waveform.HalfwayExample` | audioDemo/CustomPlayerView.swift:118-125 | duration 100, position 50: 39 bars complete, bars 0–38 white, 39–77 not |
| `Waveform.BarPosition` | audioDemo/CustomPlayerView.swift:158 | with a non-zero duration, the progress at the seek target is the bar's share `index / count` |
| `Waveform.BarPositionBounds` | audioDemo/CustomPlayerView.swift:158 | a tap on bar `i` seeks into `[0, duration)`, and bar 0 seeks to 0 |
| `Waveform.BarPositionIncreasing` | audioDemo/CustomPlayerView.swift:158 | a later bar seeks to a strictly later position |
| `Waveform.BarPositionHighlightsBefore` | audioDemo/CustomPlayerView.swift:158 | after seeking to bar `i` the completed count is exactly `i` |
| `Waveform.FractionPosition` | audioDemo/CustomPlayerView.swift:146 | with a non-zero duration, the progress at the seek target is the tapped fraction |
| `Waveform.FractionPositionBounds` | audioDemo/CustomPlayerView.swift:146 | fraction 0 seeks to 0 and fraction 1 to the end; fractions in `[0, 1]` stay in the track; there is no clamping: `> 1` seeks past the end, `< 0` before the start |
| `Waveform.FractionPositionHighlights` | audioDemo/CustomPlayerView.swift:146-149 | after a container tap at fraction `f` the completed count is `Int(f * count)` |
| `PlayerView.ButtonImage` | audioDemo/CustomPlayerView.swift:136 | the image is `pause_button` iff playing and `play_button` iff not |
| `PlayerView.CustomPlayerView.constructor` | audioDemo/CustomPlayerView.swift:24-49 | after loading: not playing, the player is the load outcome, the 78-bar layout is in place, and no bar is highlighted |
| `PlayerView.CustomPlayerView.UpdatePlaystopButton` | audioDemo/CustomPlayerView.swift:135-138 | the button image becomes `pause_button` if playing, `play_button` otherwise |
| `PlayerView.CustomPlayerView.TogglePlayPause` | audioDemo/CustomPlayerView.swift:97-105 | `isPlaying` flips even with no player, the button then matches it, and a loaded engine is paused or resumed so that it agrees with the new `isPlaying`; labels and bars are untouched |
| `PlayerView.CustomPlayerView.DidFinish` | audioDemo/CustomPlayerView.swift:167-170 | whatever `successfully` is, `isPlaying` becomes false and the button shows `play_button`; player, labels and highlights are unchanged |
| `PlayerView.CustomPlayerView.Tick` | audioDemo/CustomPlayerView.swift:107-126 | with no player nothing changes; with one, both labels show `formatTime` of duration and position, and bar `i` is highlighted iff `i < completed` |
| `PlayerView.CustomPlayerView.ShowTimes` | audioDemo/CustomPlayerView.swift:112-116 | the total label shows `formatTime` of the duration and the start label `formatTime` of the position |
| `PlayerView.CustomPlayerView.ShowProgress` | audioDemo/CustomPlayerView.swift:118-125 | bar `i` is highlighted iff `i` is below `Int(progress × waveforms.count)` |
| `PlayerView.PaintBars` | audioDemo/CustomPlayerView.swift:123-125 | after the loop over all bars, bar `i` is white iff `i < completed` |
| `PlayerView.CustomPlayerView.SeekToBar` | audioDemo/CustomPlayerView.swift:152-163 | the tapped bar is looked up in `waveforms` and the position becomes `index / 78 × duration`; with no view, an unknown bar or no player nothing changes |
| `PlayerView.CustomPlayerView.SeekToFraction` | audioDemo/CustomPlayerView.swift:141-150 | the position becomes `fraction × duration`, unclamped; with no player nothing changes |
| `PlayerView.ToggleTwice` | audioDemo/CustomPlayerView.swift:97-105 | two taps restore `isPlaying`; the player is changed only in its engine state, and the labels and bars are untouched |
| `PlayerView.SeekToBarThenTick` | audioDemo/CustomPlayerView.swift:152-163 | a tap on a bar followed by a tick highlights exactly the bars before it and no others; `isPlaying` and the button are untouched |

## Left out

- View construction: frames, bar sizes and spacing, corner masks, the random
  bar heights and the gesture wiring (`CustomPlayerView.swift:45-47`, `:51-94`).
  This is rendering glue, and the heights are random. Only the order of the bars
  is kept.
- Colours: a bar is either highlighted (white) or not. Right bars start dark
  gray and turn gray after the first tick; the model treats both as "not
  highlighted".
- Loading the track (`Bundle.main.path`, `AVAudioPlayer(contentsOf:)`,
  `prepareToPlay`, setting the delegate) and the error `print`. These are I/O
  and a foreign library. The constructor takes the outcome of the load as a
  parameter (`None` when it failed). It also takes the storyboard's initial
  button image and label texts.
- The repeating 0.1 s `Timer` (`:39`). This is scheduling. `Tick` models one
  firing. The timer is never invalidated in the source, so there is nothing to
  model there.
- Audio output. `play()` and `pause()` only flip the `running` flag of `Track`.
  The engine's own stop at the end of the track happens before the platform
  calls `audioPlayerDidFinishPlaying`; it is not modelled, so `DidFinish`
  leaves `Track` as it was. The engine's clock is not modelled either: no
  operation moves `currentTime` forward while `running` holds; only the seeks
  change it, and `Tick` reads whatever position the player holds.
- The tap geometry `point.x / bounds.width` (`:142-143`). `SeekToFraction`
  takes the fraction as its input.
- Floating point: `Float` single precision in `progress` and `percentage`,
  `Double` in the seek positions, NaN and infinity, and the trap of `Int(x)` on
  non-finite or out-of-range values all become exact reals and unbounded
  integers. `AVAudioPlayer` may adjust a `currentTime` that is set out of range;
  the model assigns the value as the code writes it.
- The tapped view becomes a `Bar` value (its loop round and side). `None`
  stands for a gesture without a view. View identity becomes equality of these
  values, and each value occurs once in the layout.
- PlayerView.CustomPlayerView.Tick: requires a non-zero duration when a player is loaded, because the app
  divides by the duration without a guard; the trap itself is not modelled.
