# HyperView session and overlay model

HyperView is a full-screen camera monitor. It shows live video with optional overlays (focus
peaking, histograms, a rule-of-thirds grid), and it can take snapshots and record video.
This project models the parts of `HyperView.py` that are logic and not GUI plumbing:

- **Session state of the main window (`App`)**: the focus-peaking threshold, the focus-peaking
  colour, the `recording` flag, the video writer, the video and photo counters, and the
  current output path, along with the handlers that change them. These are the threshold
  buttons, the colour selector, the record toggle (start and stop), the snapshot and the window
  close. `HyperView.App` holds these as mutable fields. Each method is specified by the
  transition function of the same name in `SessionState`, which describes the same state as a
  `Session` value. `SessionState.Valid` is the invariant every method keeps:
  - the threshold is at least 1;
  - the colour is a palette colour;
  - the output path names the current video counter;
  - the window is recording exactly when a writer has been created on that path and not yet
    released.
- **File names**: `Video{n}.mov` and `Photo{n}.jpg` in the fixed output directory, with the
  counter written in decimal (`Decimal`, `Paths`). The counter can be read back from a path, so
  different counters always give different files. The path the snapshot writer joins is the
  same as the one the photo-path generator builds.
- **Focus-peaking overlay (`App.ApplyFocusPeaking`)**: works on a frame held as a 2-D array of
  three-channel byte pixels, plus an edge-magnitude map of the same size. The method copies the
  frame, overwrites the marked pixels with the overlay colour, then swaps channels 0 and 2 of
  every pixel in place. A pixel is marked when its magnitude is strictly above the threshold
  (binary thresholding with maximum value 255). Raising the threshold can only shrink the set of
  marked pixels.
- **Rule-of-thirds grid**: the coordinates of the four lines. They are the floor of one third and
  two thirds of the widget's width and height.
- **Splash screen frame counter**: advances by one modulo the number of frames.

Camera reads and the file system are parameters. `Snapshot(frameRead, dirReady)` gets the
success flag of the frame read and whether the save directory exists or could be created.
`StartRecording(width, height)` gets the capture device's frame size.

As written, the threshold floor is 1, not 5. The decrease handler subtracts 5 only when the
threshold is above 5. So every value from 1 to 5 can be reached, and no further decrease lowers
it; an increase raises it again. `SessionState.SmallThresholdsReachable` gives, for each of the
five values, a sequence of increases then decreases that reaches it from the initial 20.

## Model

| member | source | states |
|---|---|---|
| `Decimal.DecimalString` | HyperView.py:163 | the rendered counter is non-empty, all decimal digits, and has no leading zero |
| `Decimal.ParseDecimalString` | HyperView.py:163 | reading a rendered counter back yields the counter |
| `Decimal.DecimalStringInjective` | HyperView.py:163 | two counters render equal exactly when they are equal |
| `Paths.NumberedName` | HyperView.py:162-168 | a generated name starts with the prefix, ends with the suffix, and the counter reads back from between them |
| `Paths.NumberedNameInjective` | HyperView.py:163 | names with one prefix and suffix are equal exactly when their counters are |
| `Paths.VideoPathInjective` | HyperView.py:162-163 | video paths are equal exactly when their counters are, so each recording has its own file |
| `Paths.PhotoPathInjective` | HyperView.py:167-168 | photo paths are equal exactly when their counters are |
| `Paths.Join` | HyperView.py:495 | a POSIX path join: the result ends with the name; an absolute name replaces the directory; otherwise the result starts with the directory, is at most one character longer than both together, and has a `/` right before the name when the directory is non-empty; a `/` is added exactly when the directory is non-empty and does not already end in `/` |
| `Paths.SnapshotPathIsPhotoPath` | HyperView.py:492-495 | joining the save directory and `Photo{n}.jpg` gives the photo generator's path for n |
| `Paths.VideoPathIsNotPhotoPath` | HyperView.py:162-168 | no video path equals any photo path |
| `FocusPeaking.PaletteColor` | HyperView.py:516-517 | the colour lookup succeeds exactly for Python indices -3..2; it gives `colors[index]` for 0..2 and `colors[3 + index]` for -3..-1 |
| `FocusPeaking.ThresholdBinary` | HyperView.py:525 | binary thresholding with maximum 255 yields 255 or 0, and 255 exactly when the magnitude is strictly above the threshold |
| `FocusPeaking.PeakedPixel` | HyperView.py:525-529 | a pixel whose magnitude is above the threshold becomes the channel-swapped overlay colour; any other pixel becomes the input pixel channel-swapped |
| `FocusPeaking.MarkedIff` | HyperView.py:525-527 | a nonzero binary-threshold value, which is the mask, holds exactly when the magnitude is strictly above the threshold |
| `FocusPeaking.UnmarkedPixelRecoverable` | HyperView.py:529 | swapping an unmarked output pixel back restores the input pixel |
| `FocusPeaking.MarkingShrinks` | HyperView.py:525 | for T1 <= T2, the pixels marked at T2 are a subset of those marked at T1 |
| `FocusPeaking.MarkedMonotone` | HyperView.py:525 | a pixel marked at the higher threshold is marked at the lower one |
| `SessionState.Initial` | HyperView.py:141-159 | start-up state: threshold 20, the first palette colour, not recording, no writer, both counters 1, invariant holds |
| `SessionState.IncreaseThreshold` | HyperView.py:504-505 | the threshold grows by exactly 2; nothing else changes; the invariant is kept |
| `SessionState.DecreaseThreshold` | HyperView.py:509-511 | subtracts exactly 5 when the threshold is above 5, else no change; nothing else changes; never goes below 1 from a positive threshold |
| `SessionState.ChangeFocusPeakingColor` | HyperView.py:515-517 | sets the colour to `colors[index]` for valid Python indices, and changes nothing when the lookup fails |
| `SessionState.StartRecording` | HyperView.py:540-544 | recording becomes true; the output path and the newly created writer name the current video counter's path; the counters, threshold and colour are unchanged |
| `SessionState.StopRecording` | HyperView.py:547-552 | idle: no change; recording: recording clears, the writer is released, the video counter goes up by exactly 1, and the path names the new counter |
| `SessionState.ToggleRecording` | HyperView.py:533-537 | checked behaves as start and unchecked as stop |
| `SessionState.CloseEvent` | HyperView.py:186-187 | closing behaves as stop, so nothing is recording afterwards |
| `SessionState.SnapshotFile` | HyperView.py:485-496 | the snapshot asks the image writer for a file exactly when the frame read succeeded and the directory could be created: at `PhotoPath` of the pre-increment counter, at 3840x2160 |
| `SessionState.Snapshot` | HyperView.py:488-497 | a successful read with a usable directory increments the photo counter by exactly 1 and changes nothing else; a failed read, or a directory creation that raises, changes nothing |
| `SessionState.Step` | HyperView.py:485-552 | every user action keeps the session invariant |
| `SessionState.Run` | HyperView.py:485-552 | any sequence of actions keeps the invariant, and neither counter ever decreases |
| `SessionState.ThresholdNeverBelowOne` | HyperView.py:509-511 | from start-up, no sequence of actions brings the threshold below 1 |
| `SessionState.RunIncreases` | HyperView.py:504-505 | k increases in a row raise the threshold by exactly 2k |
| `SessionState.RunDecreases` | HyperView.py:509-511 | m decreases in a row from a threshold above 5m lower it by exactly 5m |
| `SessionState.InitialIncreasesThenDecreases` | HyperView.py:154 | from start-up, k increases then m decreases give threshold 20 + 2k - 5m whenever that stays above 0 |
| `SessionState.SmallThresholdsReachable` | HyperView.py:509-511 | each threshold from 1 to 5 is reached from 20 by a concrete sequence, so the floor 1 is tight |
| `SessionState.StopIdempotent` | HyperView.py:547-552 | a second stop in a row changes nothing |
| `SessionState.StartThenStop` | HyperView.py:540-552 | start then stop releases a writer on the starting counter's path, advances the counter by one, and leaves a different output path |
| `SessionState.SnapshotsDistinct` | HyperView.py:494-497 | two successful snapshots in a row ask for different files and advance the counter by 2 |
| `HyperView.App.constructor` | HyperView.py:141-159 | the fields start in the `Initial` state |
| `HyperView.App.GenerateVideoPath` | HyperView.py:162-163 | returns the video path of the current video counter |
| `HyperView.App.GeneratePhotoPath` | HyperView.py:167-168 | returns the photo path of the current photo counter |
| `HyperView.App.IncreaseThreshold` | HyperView.py:504-505 | the new state is `SessionState.IncreaseThreshold` of the old one |
| `HyperView.App.DecreaseThreshold` | HyperView.py:509-511 | the new state is `SessionState.DecreaseThreshold` of the old one |
| `HyperView.App.ChangeFocusPeakingColor` | HyperView.py:515-517 | reports whether the lookup succeeded; the new state is `SessionState.ChangeFocusPeakingColor` of the old one |
| `HyperView.App.StartRecording` | HyperView.py:540-544 | the new state is `SessionState.StartRecording` of the old one |
| `HyperView.App.StopRecording` | HyperView.py:547-552 | the new state is `SessionState.StopRecording` of the old one |
| `HyperView.App.ToggleRecording` | HyperView.py:533-537 | the new state is `SessionState.ToggleRecording` of the old one |
| `HyperView.App.Snapshot` | HyperView.py:485-497 | the file requested is `SessionState.SnapshotFile` of the old state; the new state is `SessionState.Snapshot` of the old one |
| `HyperView.App.CloseEvent` | HyperView.py:186-187 | afterwards nothing is recording; the new state is `SessionState.CloseEvent` of the old one |
| `HyperView.App.ApplyFocusPeaking` | HyperView.py:521-530 | the output is a freshly allocated array (the copy) with the frame's dimensions, leaves the frame unchanged, and each pixel is `PeakedPixel` at the current threshold and colour |
| `RuleOfThirds.GridLines` | HyperView.py:113-121 | four lines: verticals at the floor of w/3 and 2w/3 spanning the height, horizontals at the floor of h/3 and 2h/3 spanning the width |
| `RuleOfThirds.GridLinesInside` | HyperView.py:117-121 | every line lies within [0, w] x [0, h], and the two verticals and the two horizontals are each in order |
| `RuleOfThirds.ColumnsNearlyEqual` | HyperView.py:117-118 | the three columns the vertical lines cut differ in width by at most one |
| `Splash.NextFrame` | HyperView.py:28 | the next index is in [0, count); it advances by one and wraps from the last frame to 0 |
| `Splash.FrameAfterIsModular` | HyperView.py:28 | after k ticks the index is (start + k) mod count |
| `Splash.FramesCycle` | HyperView.py:28 | after count ticks the animation is back at its starting frame |
| `Splash.SplashScreen.constructor` | HyperView.py:12-18 | starts at frame 0 and shows the first image |
| `Splash.SplashScreen.UpdateFrame` | HyperView.py:27-29 | the index becomes `NextFrame` of the old index, and the shown image is the frame at the new index |

## Left out

- The edge-magnitude map is an input. The grey conversion, the Laplacian and the cast of its absolute value to 8 bits (HyperView.py:522-524) are floating-point library calls.
- `update_frame` (HyperView.py:430-477) is left out. It is a sequence of library calls driven by a timer: histograms, colour conversions, the tally border, display and writing frames. As written it displays each frame twice and writes each frame twice while recording. The call to it at the end of the threshold and colour handlers is left out for the same reason.
- The histogram widgets and their painting (HyperView.py:33-98), and RGB histogram normalisation: floating point, GUI only.
- `display_frame` (HyperView.py:555-568): aspect-ratio arithmetic in floating point plus Qt image conversion.
- `apply_tally_border` (HyperView.py:172-178): a drawing library call.
- Camera handling: `MyVideoCapture`, `detect_video_sources` and `change_video_source` depend on device state. A frame read is modelled only by its success flag, and the frame size by parameters.
- The content of written files is left out: the resize to 3840x2160, the colour conversion, `imwrite`, and the writer's codec and 29.97 frame rate. Only the path, the target resolution, the frame size and the release flag are modelled. The directory creation enters only through its outcome, `dirReady`.
- The source never checks whether the video writer actually opened (HyperView.py:543-544), nor what `imwrite` returns (HyperView.py:496). So "recording" means a writer was created and not released, and a snapshot's `StillImage` is the file requested, not a file known to exist.
- Widget construction, layout, show and hide, the toggle handlers' geometry, `toggle_focus_peaking` (an empty handler), `keyPressEvent` (space calls the snapshot), and the closing of histogram widgets in `closeEvent`: GUI plumbing.
- Qt timers: the splash animation period, the splash close delay and the frame timer.
- An out-of-range colour index raises in the source. In the model it leaves the state unchanged and is reported through `ok`; what Qt does with the exception afterwards is not modelled.
- Splash.SplashScreen.constructor: requires a non-empty frame list; the source would raise on indexing an empty one.
- Starting a recording while one is running replaces the unreleased writer without releasing it. The model does the same; the record button's toggled signal never does this.
