/**
 * The HUD comms panel: four recorded quotes that play one after another
 * with a two-second gap, starting 2.5 seconds after mounting, stopping
 * while the comms dialog is open and starting over when it closes, until
 * every quote has played once.
 *
 * Audio playback and timers are events: a track that starts is `playing`
 * until `TrackEnds` (the player's end event) or a stop; a scheduled
 * timeout is pending until its `...Fires` method runs or it is cleared.
 */
module CommsPanel {
  import opened Wrappers

  datatype Quote = Quote(name: string, sound: string, text: string)

  const Quotes: seq<Quote> := [
    Quote("Cooper", "cooper.mp3",
          "We used to look up at the sky and wonder at our place in the stars. Now we just look down, and worry about our place in the dirt."),
    Quote("TARS", "tars.mp3",
          "Absolute honesty isn't always the most diplomatic nor the safest form of communication with emotional beings."),
    Quote("Brand", "brand.mp3",
          "Love is the one thing we're capable of perceiving that transcends dimensions of time and space."),
    Quote("Dr. Brand", "drbrand.mp3",
          "Do not go gentle into that good night; Old age should burn and rave at close of day. Rage, rage against the dying of the light.")
  ]

  /** How many quotes there are, `quotes.length`. */
  const QuoteCount := 4

  lemma QuoteCountIsLength()
    ensures QuoteCount == |Quotes|
  {
  }

  /** Milliseconds between the end of one quote and the start of the next. */
  const NextTrackDelay := 2000
  /** Milliseconds after mounting before autoplay may start. */
  const InitDelay := 2500

  /** `quotes[index] ?? quotes[0]`. */
  function QuoteFor(index: int): Quote {
    if 0 <= index < |Quotes| then Quotes[index] else Quotes[0]
  }

  function TrackPath(q: Quote): string {
    "/sounds/" + q.sound
  }

  /** A loaded track: the index it was started with, its source, and whether it is sounding. */
  datatype Track = Track(index: int, src: string, playing: bool)

  /** The track, stopped. */
  function Silenced(t: Option<Track>): Option<Track> {
    if t.Some? then Some(t.value.(playing := false)) else None
  }

  /** Every piece of the panel's state, for stating what an event leaves unchanged. */
  datatype PanelState = PanelState(
    isOpen: bool, quoteIndex: int, autoplayEnabled: bool, initComplete: bool, trackIndex: int,
    playedAll: bool, track: Option<Track>, nextTimer: Option<int>, initTimerPending: bool,
    hasStream: bool, isConnected: bool)

  /**
   * The state after autoplay starts from the first quote: autoplay on,
   * the first quote loaded and sounding, and the audio graph created and
   * connected when there is an audio context and no stream yet.
   */
  function Autoplayed(s: PanelState, audioContext: bool): PanelState {
    s.(autoplayEnabled := true, trackIndex := 0, quoteIndex := 0,
       track := Some(Track(0, "/sounds/cooper.mp3", true)),
       hasStream := s.hasStream || audioContext,
       isConnected := s.isConnected || (audioContext && !s.hasStream))
  }

  class Panel {
    var isOpen: bool
    /** The index shown in the panel, as last passed to `playQuote`. */
    var quoteIndex: int
    var autoplayEnabled: bool
    var initComplete: bool
    var trackIndex: int
    var playedAll: bool
    var track: Option<Track>
    /** The pending next-track timeout, with the index it will play. */
    var nextTimer: Option<int>
    var initTimerPending: bool
    /** The audio graph's stream destination exists. */
    var hasStream: bool
    var isConnected: bool

    function Fields(): PanelState
      reads this
    {
      PanelState(isOpen, quoteIndex, autoplayEnabled, initComplete, trackIndex, playedAll, track,
                 nextTimer, initTimerPending, hasStream, isConnected)
    }

    predicate Playing()
      reads this
    {
      track.Some? && track.value.playing
    }

    /**
     * The panel's invariants: every quote having played means autoplay is
     * off, the init timeout is pending only before init completes, and a
     * connection needs a stream.
     */
    ghost predicate Valid()
      reads this
    {
      (playedAll ==> !autoplayEnabled) &&
      (initTimerPending ==> !initComplete) &&
      (isConnected ==> hasStream)
    }

    /** While the dialog is open no quote sounds and none is scheduled. */
    predicate QuietWhenOpen()
      reads this
    {
      isOpen ==> !Playing() && nextTimer.None?
    }

    /** Mounting: the dialog closed, autoplay armed, and the 2.5-second init timeout pending. */
    constructor()
      ensures Valid() && QuietWhenOpen()
      ensures Fields() == PanelState(false, 0, true, false, 0, false, None, None, true, false, false)
    {
      isOpen := false;
      quoteIndex := 0;
      autoplayEnabled := true;
      initComplete := false;
      trackIndex := 0;
      playedAll := false;
      track := None;
      nextTimer := None;
      initTimerPending := true;
      hasStream := false;
      isConnected := false;
    }

    /**
     * `playQuote`: the loaded track is replaced by the quote at `index`,
     * or by the first quote when `index` is out of range, which starts
     * playing; the panel shows `index` as given.
     */
    method PlayQuote(index: int)
      modifies this
      ensures Playing() && track.value.index == index
      ensures 0 <= index < |Quotes| ==> track.value.src == "/sounds/" + Quotes[index].sound
      ensures !(0 <= index < |Quotes|) ==> track.value.src == "/sounds/cooper.mp3"
      ensures Fields() == old(Fields()).(track := track, quoteIndex := index)
    {
      track := Some(Track(index, TrackPath(QuoteFor(index)), true));
      quoteIndex := index;
    }

    /** `ensureAudioGraph`: with an audio context and no stream yet, a stream is created and connected. */
    method EnsureAudioGraph(audioContext: bool)
      requires Valid()
      modifies this
      ensures Valid()
      ensures !audioContext || old(hasStream) ==> Fields() == old(Fields())
      ensures audioContext && !old(hasStream) ==> Fields() == old(Fields()).(hasStream := true, isConnected := true)
    {
      if !audioContext || hasStream {
        return;
      }
      hasStream := true;
      if !isConnected {
        isConnected := true;
      }
    }

    /** `startAutoplay`: nothing once every quote has played; otherwise autoplay from the first quote. */
    method StartAutoplay(audioContext: bool)
      requires Valid()
      modifies this
      ensures Valid()
      ensures old(playedAll) ==> Fields() == old(Fields())
      ensures !old(playedAll) ==> Fields() == Autoplayed(old(Fields()), audioContext)
    {
      if playedAll {
        return;
      }
      autoplayEnabled := true;
      trackIndex := 0;
      assert TrackPath(QuoteFor(0)) == "/sounds/cooper.mp3";
      PlayQuote(trackIndex);
      EnsureAudioGraph(audioContext);
    }

    /** `stopPlayback` as written: autoplay off and the track stopped; a pending next-track timeout survives. */
    method StopPlaybackAsWritten()
      modifies this
      ensures Fields() == old(Fields()).(autoplayEnabled := false, track := Silenced(old(track)))
      ensures !Playing()
    {
      autoplayEnabled := false;
      track := Silenced(track);
    }

    /** `stopPlayback` corrected: it also clears the pending next-track timeout. */
    method StopPlayback()
      modifies this
      ensures Fields() == old(Fields()).(autoplayEnabled := false, track := Silenced(old(track)), nextTimer := None)
      ensures !Playing() && nextTimer.None?
    {
      autoplayEnabled := false;
      track := Silenced(track);
      nextTimer := None;
    }

    /**
     * The player's end event for the loaded track. With autoplay off it
     * only ends; otherwise the next quote is scheduled, or, after the last
     * one, autoplay stops for good.
     */
    method TrackEnds()
      requires Valid() && Playing()
      modifies this
      ensures Valid() && !Playing()
      ensures old(QuietWhenOpen()) ==> QuietWhenOpen()
      ensures !old(autoplayEnabled) ==> Fields() == old(Fields()).(track := Silenced(old(track)))
      ensures old(autoplayEnabled) && old(track).value.index + 1 < QuoteCount ==>
                Fields() == old(Fields()).(track := Silenced(old(track)),
                                           trackIndex := old(track).value.index + 1,
                                           nextTimer := Some(old(track).value.index + 1))
      ensures old(autoplayEnabled) && old(track).value.index + 1 >= QuoteCount ==>
                Fields() == old(Fields()).(track := Silenced(old(track)), autoplayEnabled := false, playedAll := true)
    {
      var index := track.value.index;
      track := Silenced(track);
      if autoplayEnabled {
        var nextIndex := index + 1;
        if nextIndex < QuoteCount {
          trackIndex := nextIndex;
          nextTimer := Some(nextIndex);
        } else {
          autoplayEnabled := false;
          playedAll := true;
        }
      }
    }

    /** The next-track timeout: the scheduled quote plays, whatever autoplay and the dialog say now. */
    method NextTimerFires()
      requires Valid() && nextTimer.Some?
      modifies this
      ensures Valid()
      ensures Playing() && track.value.index == old(nextTimer).value
      ensures Fields() == old(Fields()).(nextTimer := None, track := track, quoteIndex := old(nextTimer).value)
    {
      var index := nextTimer.value;
      nextTimer := None;
      PlayQuote(index);
    }

    /**
     * The init timeout as written: its callback was created at mount and
     * reads the dialog state of that moment, which is closed, so autoplay
     * starts even when the dialog has been opened since.
     */
    method InitTimerFiresAsWritten(audioContext: bool)
      requires Valid() && initTimerPending
      modifies this
      ensures Valid() && initComplete && !initTimerPending
      ensures old(playedAll) ==> Fields() == old(Fields()).(initComplete := true, initTimerPending := false)
      ensures !old(playedAll) ==>
                Fields() == Autoplayed(old(Fields()).(initComplete := true, initTimerPending := false), audioContext)
    {
      initTimerPending := false;
      initComplete := true;
      StartAutoplay(audioContext);
    }

    /** The init timeout corrected: autoplay starts only if the dialog is closed now. */
    method InitTimerFires(audioContext: bool)
      requires Valid() && initTimerPending && QuietWhenOpen()
      modifies this
      ensures Valid() && initComplete && !initTimerPending && QuietWhenOpen()
      ensures !old(isOpen) && old(playedAll) ==> Fields() == old(Fields()).(initComplete := true, initTimerPending := false)
      ensures !old(isOpen) && !old(playedAll) ==>
                Fields() == Autoplayed(old(Fields()).(initComplete := true, initTimerPending := false), audioContext)
      ensures old(isOpen) ==> Fields() == old(Fields()).(initComplete := true, initTimerPending := false)
    {
      initTimerPending := false;
      initComplete := true;
      if !isOpen {
        StartAutoplay(audioContext);
      }
    }

    /**
     * The dialog's open state set, with the effect on change as written:
     * opening stops playback, closing restarts autoplay once init is
     * complete. Setting the state it already has does nothing.
     */
    method SetOpenAsWritten(open: bool, audioContext: bool)
      requires Valid()
      modifies this
      ensures Valid() && isOpen == open
      ensures open == old(isOpen) ==> Fields() == old(Fields())
      ensures open && !old(isOpen) ==>
                Fields() == old(Fields()).(isOpen := true, autoplayEnabled := false, track := Silenced(old(track)))
      ensures !open && old(isOpen) && !old(initComplete) ==> Fields() == old(Fields()).(isOpen := false)
      ensures !open && old(isOpen) && old(initComplete) && old(playedAll) ==> Fields() == old(Fields()).(isOpen := false)
      ensures !open && old(isOpen) && old(initComplete) && !old(playedAll) ==>
                Fields() == Autoplayed(old(Fields()).(isOpen := false), audioContext)
    {
      if open == isOpen {
        return;
      }
      isOpen := open;
      if !open {
        if initComplete {
          StartAutoplay(audioContext);
        }
        return;
      }
      StopPlaybackAsWritten();
    }

    /** The dialog's open state set, with the corrected stop: opening also clears a scheduled quote. */
    method SetOpen(open: bool, audioContext: bool)
      requires Valid() && QuietWhenOpen()
      modifies this
      ensures Valid() && isOpen == open && QuietWhenOpen()
      ensures open == old(isOpen) ==> Fields() == old(Fields())
      ensures open && !old(isOpen) ==>
                Fields() == old(Fields()).(isOpen := true, autoplayEnabled := false,
                                           track := Silenced(old(track)), nextTimer := None)
      ensures !open && old(isOpen) && !old(initComplete) ==> Fields() == old(Fields()).(isOpen := false)
      ensures !open && old(isOpen) && old(initComplete) && old(playedAll) ==> Fields() == old(Fields()).(isOpen := false)
      ensures !open && old(isOpen) && old(initComplete) && !old(playedAll) ==>
                Fields() == Autoplayed(old(Fields()).(isOpen := false), audioContext)
    {
      if open == isOpen {
        return;
      }
      isOpen := open;
      if !open {
        if initComplete {
          StartAutoplay(audioContext);
        }
        return;
      }
      StopPlayback();
    }

    /**
     * Unmounting: both timeouts cleared, playback stopped and unloaded,
     * the audio graph dropped, and the played-all mark reset.
     */
    method Unmount()
      requires Valid()
      modifies this
      ensures Valid() && QuietWhenOpen()
      ensures Fields() == old(Fields()).(initTimerPending := false, nextTimer := None, autoplayEnabled := false,
                                         track := None, hasStream := false, isConnected := false, playedAll := false)
    {
      initTimerPending := false;
      nextTimer := None;
      StopPlaybackAsWritten();
      track := None;
      hasStream := false;
      isConnected := false;
      playedAll := false;
    }
  }

  /**
   * The dialog opened within the first 2.5 seconds: when the init timeout
   * fires, the first quote plays with the dialog open.
   */
  method OpenBeforeInitTimer() returns (p: Panel)
    ensures p.isOpen && p.Playing() && p.track.value.index == 0
  {
    p := new Panel();
    p.SetOpenAsWritten(true, true);
    p.InitTimerFiresAsWritten(true);
  }

  /**
   * The dialog opened in the gap after the first quote: opening does not
   * clear the scheduled quote, which then plays with the dialog open.
   */
  method OpenBetweenQuotes() returns (p: Panel)
    ensures p.isOpen && p.Playing() && p.track.value.index == 1
  {
    p := new Panel();
    p.InitTimerFires(true);
    p.TrackEnds();
    p.SetOpenAsWritten(true, true);
    p.NextTimerFires();
  }
}
