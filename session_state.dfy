/**
 * The application's session state as a value, and what each user action does to it. The
 * class `HyperView.App` holds the same state in mutable fields; its methods are specified by
 * the transition functions here, so the lemmas below speak about them too.
 */
module SessionState {
  import opened Wrappers
  import opened Decimal
  import opened Paths
  import opened FocusPeaking

  /**
   * A video writer created on a file, with its frame size and whether it has been released.
   * Whether the underlying file actually opened is not checked by the application.
   */
  datatype Sink = Sink(path: string, width: int, height: int, released: bool)

  /** A still image a snapshot asks the image writer to save. */
  datatype StillImage = StillImage(path: string, width: nat, height: nat)

  datatype Session = Session(
    threshold: int,
    color: Pixel,
    recording: bool,
    sink: Option<Sink>,
    videoCounter: nat,
    photoCounter: nat,
    outputPath: string)

  const InitialThreshold: int := 20
  const ThresholdIncrement: int := 2
  const ThresholdDecrement: int := 5
  const DecreaseGuard: int := 5
  const SnapshotWidth: nat := 3840
  const SnapshotHeight: nat := 2160

  /**
   * The invariant every reachable session keeps: the threshold is positive, the colour is one
   * of the palette's, the output path names the current video counter, and the session is
   * recording exactly when a writer has been created on that path and not yet released.
   */
  predicate Valid(s: Session)
  {
    && s.threshold >= 1
    && s.color in Palette
    && s.videoCounter >= 1
    && s.photoCounter >= 1
    && s.outputPath == VideoPath(s.videoCounter)
    && (s.recording ==> s.sink.Some? && !s.sink.value.released && s.sink.value.path == s.outputPath)
    && (!s.recording ==> s.sink.None? || s.sink.value.released)
  }

  /** The state right after start-up: nothing recorded yet, both counters at 1. */
  function Initial(): (s: Session)
    ensures Valid(s)
    ensures s.threshold == InitialThreshold && s.color == Palette[0]
    ensures !s.recording && s.sink.None?
    ensures s.videoCounter == 1 && s.photoCounter == 1
  {
    Session(InitialThreshold, Pixel(255, 0, 0), false, None, 1, 1, VideoPath(1))
  }

  function IncreaseThreshold(s: Session): (r: Session)
    ensures r.threshold == s.threshold + ThresholdIncrement
    ensures r.(threshold := s.threshold) == s
    ensures Valid(s) ==> Valid(r)
  {
    s.(threshold := s.threshold + ThresholdIncrement)
  }

  function DecreaseThreshold(s: Session): (r: Session)
    ensures s.threshold > ThresholdDecrement ==> r.threshold == s.threshold - ThresholdDecrement
    ensures s.threshold <= ThresholdDecrement ==> r == s
    ensures r.(threshold := s.threshold) == s
    ensures s.threshold >= 1 ==> r.threshold >= 1
    ensures Valid(s) ==> Valid(r)
  {
    if s.threshold > DecreaseGuard then s.(threshold := s.threshold - ThresholdDecrement) else s
  }

  /** Selects the overlay colour by selector index; a failed list lookup changes nothing. */
  function ChangeFocusPeakingColor(s: Session, index: int): (r: Session)
    ensures -3 <= index < 3 ==> r == s.(color := PaletteColor(index).value)
    ensures !(-3 <= index < 3) ==> r == s
    ensures 0 <= index < 3 ==> r.color == Palette[index]
    ensures Valid(s) ==> Valid(r)
  {
    match PaletteColor(index)
    case Some(c) => s.(color := c)
    case None => s
  }

  /** Creates a writer on the path of the current video counter and starts recording. */
  function StartRecording(s: Session, width: int, height: int): (r: Session)
    ensures r.recording
    ensures r.outputPath == VideoPath(s.videoCounter)
    ensures r.sink == Some(Sink(VideoPath(s.videoCounter), width, height, false))
    ensures r.videoCounter == s.videoCounter && r.photoCounter == s.photoCounter
    ensures r.threshold == s.threshold && r.color == s.color
    ensures Valid(s) ==> Valid(r)
  {
    var path := VideoPath(s.videoCounter);
    s.(outputPath := path, sink := Some(Sink(path, width, height, false)), recording := true)
  }

  /**
   * Stops recording: when idle nothing happens; otherwise the writer is released, the video
   * counter advances by exactly one and the output path names the new counter.
   */
  function StopRecording(s: Session): (r: Session)
    requires s.recording ==> s.sink.Some?
    ensures !r.recording
    ensures !s.recording ==> r == s
    ensures s.recording ==> r.videoCounter == s.videoCounter + 1
    ensures s.recording ==> r.outputPath == VideoPath(s.videoCounter + 1)
    ensures s.recording ==> r.sink == Some(s.sink.value.(released := true))
    ensures r.photoCounter == s.photoCounter && r.threshold == s.threshold && r.color == s.color
    ensures Valid(s) ==> Valid(r)
  {
    if s.recording then
      var counter := s.videoCounter + 1;
      s.(recording := false, sink := Some(s.sink.value.(released := true)),
         videoCounter := counter, outputPath := VideoPath(counter))
    else s
  }

  /** The record button: checked starts recording, unchecked stops it. */
  function ToggleRecording(s: Session, checked: bool, width: int, height: int): (r: Session)
    requires s.recording ==> s.sink.Some?
    ensures checked ==> r == StartRecording(s, width, height)
    ensures !checked ==> r == StopRecording(s)
    ensures Valid(s) ==> Valid(r)
  {
    if checked then StartRecording(s, width, height) else StopRecording(s)
  }

  /** Closing the window stops a running recording; afterwards nothing is recording. */
  function CloseEvent(s: Session): (r: Session)
    requires s.recording ==> s.sink.Some?
    ensures !r.recording
    ensures r == StopRecording(s)
    ensures Valid(s) ==> Valid(r)
  {
    if s.recording then StopRecording(s) else s
  }

  /**
   * The image a snapshot asks the image writer to write: only when the frame read succeeded
   * and the save directory exists or could be created (`dirReady`), at the photo path. A
   * failure to create the directory raises before the write.
   */
  function SnapshotFile(s: Session, frameRead: bool, dirReady: bool): (f: Option<StillImage>)
    ensures f.Some? <==> frameRead && dirReady
    ensures f.Some? ==> f.value == StillImage(PhotoPath(s.photoCounter), SnapshotWidth, SnapshotHeight)
  {
    if frameRead && dirReady then
      SnapshotPathIsPhotoPath(s.photoCounter);
      Some(StillImage(Join(SaveDir, PhotoFileName(s.photoCounter)), SnapshotWidth, SnapshotHeight))
    else None
  }

  /**
   * A successful snapshot advances the photo counter by one; a failed read, or a directory
   * that cannot be created (which raises before the increment), changes nothing.
   */
  function Snapshot(s: Session, frameRead: bool, dirReady: bool): (r: Session)
    ensures frameRead && dirReady ==> r == s.(photoCounter := s.photoCounter + 1)
    ensures !(frameRead && dirReady) ==> r == s
    ensures Valid(s) ==> Valid(r)
  {
    if frameRead && dirReady then s.(photoCounter := s.photoCounter + 1) else s
  }

  /** The user actions (and camera read outcomes) that drive the session. */
  datatype Action =
    | Increase
    | Decrease
    | SelectColor(index: int)
    | Record(checked: bool, width: int, height: int)
    | TakeSnapshot(frameRead: bool, dirReady: bool)
    | Close

  function Step(s: Session, a: Action): (r: Session)
    requires Valid(s)
    ensures Valid(r)
  {
    match a
    case Increase => IncreaseThreshold(s)
    case Decrease => DecreaseThreshold(s)
    case SelectColor(index) => ChangeFocusPeakingColor(s, index)
    case Record(checked, width, height) => ToggleRecording(s, checked, width, height)
    case TakeSnapshot(frameRead, dirReady) => Snapshot(s, frameRead, dirReady)
    case Close => CloseEvent(s)
  }

  /**
   * Runs a sequence of actions. The invariant holds throughout, and neither counter ever
   * goes down.
   */
  function Run(s: Session, actions: seq<Action>): (r: Session)
    requires Valid(s)
    ensures Valid(r)
    ensures r.videoCounter >= s.videoCounter && r.photoCounter >= s.photoCounter
    decreases |actions|
  {
    if actions == [] then s else Run(Step(s, actions[0]), actions[1..])
  }

  /** From start-up, no sequence of actions brings the threshold below 1. */
  lemma ThresholdNeverBelowOne(actions: seq<Action>)
    ensures Run(Initial(), actions).threshold >= 1
  {
  }

  /** `n` copies of one action. */
  function Repeat(a: Action, n: nat): (acts: seq<Action>)
    ensures |acts| == n && forall i :: 0 <= i < n ==> acts[i] == a
  {
    if n == 0 then [] else [a] + Repeat(a, n - 1)
  }

  /** Running two sequences one after the other is running their concatenation. */
  lemma {:induction false} RunAppend(s: Session, first: seq<Action>, second: seq<Action>)
    requires Valid(s)
    ensures Run(s, first + second) == Run(Run(s, first), second)
    decreases |first|
  {
    if first == [] {
      assert first + second == second;
    } else {
      assert (first + second)[0] == first[0];
      assert (first + second)[1..] == first[1..] + second;
      RunAppend(Step(s, first[0]), first[1..], second);
    }
  }

  /** `k` increases in a row add exactly `2 * k` to the threshold. */
  lemma {:induction false} RunIncreases(s: Session, k: nat)
    requires Valid(s)
    ensures Run(s, Repeat(Increase, k)).threshold == s.threshold + 2 * k
    decreases k
  {
    if k > 0 {
      var acts := Repeat(Increase, k);
      assert acts[0] == Increase && acts[1..] == Repeat(Increase, k - 1);
      var next := IncreaseThreshold(s);
      assert Run(s, acts) == Run(next, Repeat(Increase, k - 1));
      RunIncreases(next, k - 1);
    }
  }

  /** `m` decreases in a row from a threshold above `5 * m` subtract exactly `5 * m`. */
  lemma {:induction false} RunDecreases(s: Session, m: nat)
    requires Valid(s) && s.threshold > 5 * m
    ensures Run(s, Repeat(Decrease, m)).threshold == s.threshold - 5 * m
    decreases m
  {
    if m > 0 {
      var acts := Repeat(Decrease, m);
      assert acts[0] == Decrease && acts[1..] == Repeat(Decrease, m - 1);
      var next := DecreaseThreshold(s);
      assert Run(s, acts) == Run(next, Repeat(Decrease, m - 1));
      RunDecreases(next, m - 1);
    }
  }

  /** `k` increases followed by `m` decreases, from start-up, give `20 + 2k - 5m`. */
  lemma {:induction false} InitialIncreasesThenDecreases(k: nat, m: nat)
    requires InitialThreshold + 2 * k > 5 * m
    ensures Run(Initial(), Repeat(Increase, k) + Repeat(Decrease, m)).threshold
      == InitialThreshold + 2 * k - 5 * m
  {
    RunAppend(Initial(), Repeat(Increase, k), Repeat(Decrease, m));
    RunIncreases(Initial(), k);
    RunDecreases(Run(Initial(), Repeat(Increase, k)), m);
  }

  /**
   * Every threshold from 1 to 5 is reachable from start-up; `DecreaseThreshold` leaves each of
   * them where it is.
   */
  lemma {:induction false} SmallThresholdsReachable()
    ensures Run(Initial(), Repeat(Increase, 3) + Repeat(Decrease, 5)).threshold == 1
    ensures Run(Initial(), Repeat(Increase, 1) + Repeat(Decrease, 4)).threshold == 2
    ensures Run(Initial(), Repeat(Increase, 4) + Repeat(Decrease, 5)).threshold == 3
    ensures Run(Initial(), Repeat(Increase, 2) + Repeat(Decrease, 4)).threshold == 4
    ensures Run(Initial(), Repeat(Increase, 0) + Repeat(Decrease, 3)).threshold == 5
  {
    InitialIncreasesThenDecreases(3, 5);
    InitialIncreasesThenDecreases(1, 4);
    InitialIncreasesThenDecreases(4, 5);
    InitialIncreasesThenDecreases(2, 4);
    InitialIncreasesThenDecreases(0, 3);
  }

  /** Stopping twice in a row is the same as stopping once. */
  lemma StopIdempotent(s: Session)
    requires s.recording ==> s.sink.Some?
    ensures StopRecording(StopRecording(s)) == StopRecording(s)
  {
  }

  /**
   * A recording from start to stop goes to the path of the counter at start, releases that
   * writer, and leaves a counter and output path that differ from the ones just used.
   */
  lemma {:induction false} StartThenStop(s: Session, width: int, height: int)
    requires Valid(s)
    ensures StopRecording(StartRecording(s, width, height)).sink == Some(Sink(VideoPath(s.videoCounter), width, height, true))
    ensures StopRecording(StartRecording(s, width, height)).videoCounter == s.videoCounter + 1
    ensures StopRecording(StartRecording(s, width, height)).outputPath != VideoPath(s.videoCounter)
  {
    VideoPathInjective(s.videoCounter + 1, s.videoCounter);
  }

  /** Two successful snapshots in a row write two different files. */
  lemma {:induction false} SnapshotsDistinct(s: Session)
    ensures SnapshotFile(s, true, true).value.path != SnapshotFile(Snapshot(s, true, true), true, true).value.path
    ensures Snapshot(Snapshot(s, true, true), true, true).photoCounter == s.photoCounter + 2
  {
    PhotoPathInjective(s.photoCounter, s.photoCounter + 1);
  }
}
