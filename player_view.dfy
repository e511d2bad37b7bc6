/**
 * The player screen `CustomPlayerView` as an object: the play/pause flag and
 * button, the loaded audio player, the two time labels and the highlight of
 * each of the 78 waveform bars, with one method per event handler.
 */
module PlayerView {
  import opened Wrappers
  import opened TimeFormat
  import opened Waveform

  /**
   * The loaded `AVAudioPlayer` as far as the screen uses it: the track's
   * length, the playback position and whether the engine is playing.
   */
  datatype Track = Track(duration: real, currentTime: real, running: bool)

  /** The image name `updatePlaystopButton` puts on the play/pause button. */
  function ButtonImage(playing: bool): (image: string)
    ensures image == "pause_button" <==> playing
    ensures image == "play_button" <==> !playing
  {
    if playing then "pause_button" else "play_button"
  }

  class CustomPlayerView {
    var isPlaying: bool
    var player: Option<Track>
    /** The `waveforms` array; its bars keep their place once created. */
    const waveforms: seq<Bar>
    /** Per bar: white (highlighted) or not. */
    const highlighted: array<bool>
    /** The image on `playPauseButton`. */
    var buttonImage: string
    /** The texts of `startTimeDuration` and `totalSongDuration`. */
    var elapsedText: string
    var totalText: string

    ghost predicate Valid() {
      IsLayout(waveforms) && highlighted.Length == |waveforms|
    }

    /** The button shows pause while playing and play otherwise. */
    predicate ButtonShowsState()
      reads this
    {
      buttonImage == ButtonImage(isPlaying)
    }

    /**
     * `viewDidLoad`: create the bars, then take the outcome of loading the
     * audio file (`None` when the file is missing or cannot be decoded). The
     * storyboard supplies the button image and the label texts.
     */
    constructor (loaded: Option<Track>, image: string, elapsed: string, total: string)
      ensures Valid() && fresh(highlighted)
      ensures !isPlaying && player == loaded
      ensures forall i :: 0 <= i < highlighted.Length ==> !highlighted[i]
      ensures buttonImage == image && elapsedText == elapsed && totalText == total
    {
      var bars := CreateWaveformLayout();
      waveforms := bars;
      highlighted := new bool[|bars|](_ => false);
      isPlaying := false;
      player := loaded;
      buttonImage, elapsedText, totalText := image, elapsed, total;
    }

    method UpdatePlaystopButton()
      modifies this`buttonImage
      ensures ButtonShowsState()
    {
      buttonImage := ButtonImage(isPlaying);
    }

    /**
     * `playPauseButtonTapped`: pause or resume the engine if one is loaded,
     * flip `isPlaying` whether or not one is, and update the button.
     */
    method TogglePlayPause()
      modifies this`isPlaying, this`player, this`buttonImage
      ensures isPlaying == !old(isPlaying)
      ensures ButtonShowsState()
      ensures player == if old(player).None? then None
                        else Some(old(player).value.(running := isPlaying))
    {
      if isPlaying {
        if player.Some? {
          player := Some(player.value.(running := false));
        }
      } else {
        if player.Some? {
          player := Some(player.value.(running := true));
        }
      }
      isPlaying := !isPlaying;
      UpdatePlaystopButton();
    }

    /** `audioPlayerDidFinishPlaying`: whatever `successfully` says, show the screen as paused. */
    method DidFinish(successfully: bool)
      modifies this`isPlaying, this`buttonImage
      ensures !isPlaying && ButtonShowsState()
      ensures player == old(player) && highlighted[..] == old(highlighted[..])
      ensures elapsedText == old(elapsedText) && totalText == old(totalText)
    {
      isPlaying := false;
      UpdatePlaystopButton();
    }

    /**
     * `updatePlayerIndicator`, run by the 0.1 s timer: with a player, write
     * both labels and highlight exactly the bars before `completed`. The app
     * divides by the duration without a guard, so it must not be zero.
     */
    method Tick()
      requires Valid()
      requires player.Some? ==> player.value.duration != 0.0
      modifies this`elapsedText, this`totalText, highlighted
      ensures player.None? ==> elapsedText == old(elapsedText) && totalText == old(totalText)
      ensures player.None? ==> highlighted[..] == old(highlighted[..])
      ensures player.Some? ==> totalText == FormatTime(player.value.duration)
      ensures player.Some? ==> elapsedText == FormatTime(player.value.currentTime)
      ensures player.Some? ==> highlighted[..] == Highlights(
                Completed(Progress(player.value.currentTime, player.value.duration), BarCount), BarCount)
    {
      if player.None? {
        return;
      }
      ShowTimes(player.value);
      ShowProgress(player.value);
    }

    /** The two label updates of `updatePlayerIndicator`. */
    method ShowTimes(track: Track)
      modifies this`elapsedText, this`totalText
      ensures totalText == FormatTime(track.duration)
      ensures elapsedText == FormatTime(track.currentTime)
    {
      totalText := FormatTime(track.duration);
      elapsedText := FormatTime(track.currentTime);
    }

    /** The progress and bar colouring of `updatePlayerIndicator`. */
    method ShowProgress(track: Track)
      requires Valid() && track.duration != 0.0
      modifies highlighted
      ensures highlighted[..] == Highlights(Completed(Progress(track.currentTime, track.duration), BarCount), BarCount)
    {
      var progress := Progress(track.currentTime, track.duration);
      var count := |waveforms|;
      var completed := Completed(progress, count);
      PaintBars(highlighted, completed, count);
    }

    /**
     * `waveformTapped`: find the tapped bar in `waveforms` and seek to its
     * share of the duration. `None` stands for a gesture without a view.
     */
    method SeekToBar(tapped: Option<Bar>)
      requires Valid()
      modifies this`player
      ensures player == if old(player).Some? && tapped.Some? && tapped.value.column < PairCount
                        then Some(old(player).value.(currentTime :=
                               BarPosition(IndexOf(tapped.value), BarCount, old(player).value.duration)))
                        else old(player)
    {
      if tapped.None? {
        return;
      }
      var found := FirstIndex(waveforms, tapped.value);
      LayoutLookup(waveforms, tapped.value);
      if found.Some? {
        var duration := if player.Some? then player.value.duration else 0.0;
        var songPosition := BarPosition(found.value, |waveforms|, duration);
        if player.Some? {
          player := Some(player.value.(currentTime := songPosition));
        }
      }
    }

    /**
     * `waveformContainerTapped`: seek to `fraction` of the duration, where
     * `fraction` is the tap's horizontal position over the container's width.
     */
    method SeekToFraction(fraction: real)
      modifies this`player
      ensures player == if old(player).None? then None
                        else Some(old(player).value.(currentTime :=
                               FractionPosition(fraction, old(player).value.duration)))
    {
      var duration := if player.Some? then player.value.duration else 0.0;
      var songPosition := FractionPosition(fraction, duration);
      if player.Some? {
        player := Some(player.value.(currentTime := songPosition));
      }
    }
  }

  /**
   * The loop of `updatePlayerIndicator` over the bars: bar `index` turns
   * white when `index < completed`, and back to its base colour otherwise.
   */
  method PaintBars(highlighted: array<bool>, completed: int, count: nat)
    requires count == highlighted.Length
    modifies highlighted
    ensures highlighted[..] == Highlights(completed, count)
  {
    for index := 0 to count
      invariant forall k :: 0 <= k < index ==> highlighted[k] == (k < completed)
    {
      highlighted[index] := index < completed;
    }
    assert forall k :: 0 <= k < count ==> highlighted[..][k] == Highlights(completed, count)[k];
  }

  /** Tapping play/pause twice gives back the original `isPlaying`; the engine then agrees with it. */
  method ToggleTwice(view: CustomPlayerView)
    modifies view`isPlaying, view`player, view`buttonImage
    ensures view.isPlaying == old(view.isPlaying) && view.ButtonShowsState()
    ensures view.player.Some? <==> old(view.player).Some?
    ensures view.player.Some? ==> view.player.value == old(view.player).value.(running := view.isPlaying)
  {
    view.TogglePlayPause();
    view.TogglePlayPause();
  }

  /** A tap on a bar followed by a timer tick highlights exactly the bars before the tapped one. */
  method SeekToBarThenTick(view: CustomPlayerView, bar: Bar)
    requires view.Valid() && view.player.Some? && view.player.value.duration > 0.0
    requires bar.column < PairCount
    modifies view`player, view`elapsedText, view`totalText, view.highlighted
    ensures view.player.Some?
    ensures forall i :: 0 <= i < BarCount ==> (view.highlighted[i] <==> i < IndexOf(bar))
    ensures CountHighlighted(view.highlighted[..]) == IndexOf(bar)
    ensures view.elapsedText == FormatTime(view.player.value.currentTime)
  {
    view.SeekToBar(Some(bar));
    var index := IndexOf(bar);
    BarPositionHighlightsBefore(index, view.player.value.duration);
    view.Tick();
    assert view.highlighted[..] == Highlights(index, BarCount);
    forall i | 0 <= i < BarCount
      ensures view.highlighted[i] <==> i < index
    {
      assert view.highlighted[i] == Highlights(index, BarCount)[i];
    }
    HighlightedCount(index, BarCount);
  }
}
