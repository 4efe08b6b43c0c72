/**
 * The main application window's session state, held in mutable fields as the window object
 * holds it. Each state-changing method is specified by the transition function of the same
 * name in `SessionState`, and every method keeps `Valid()`.
 */
module HyperView {
  import opened Wrappers
  import opened Decimal
  import opened Paths
  import opened FocusPeaking
  import opened SessionState

  class App {
    var thresholdValue: int
    var focusPeakingColor: Pixel
    var recording: bool
    var out: Option<Sink>
    var videoCounter: nat
    var photoCounter: nat
    var outputPath: string

    /** The fields as a session value. */
    function State(): Session
      reads this
    {
      Session(thresholdValue, focusPeakingColor, recording, out, videoCounter, photoCounter, outputPath)
    }

    predicate Valid()
      reads this
    {
      SessionState.Valid(State())
    }

    constructor ()
      ensures Valid()
      ensures State() == Initial()
    {
      videoCounter := 1;
      photoCounter := 1;
      thresholdValue := 20;
      focusPeakingColor := Pixel(255, 0, 0);
      recording := false;
      out := None;
      outputPath := "";
      new;
      outputPath := GenerateVideoPath();
    }

    /** The path the next recording will be written to. */
    method GenerateVideoPath() returns (path: string)
      ensures path == VideoPath(videoCounter)
    {
      path := NumberedName(VideoPrefix, videoCounter, VideoSuffix);
    }

    /** The path the next photo will be written to. */
    method GeneratePhotoPath() returns (path: string)
      ensures path == PhotoPath(photoCounter)
    {
      path := NumberedName(PhotoPrefix, photoCounter, PhotoSuffix);
    }

    method IncreaseThreshold()
      requires Valid()
      modifies this
      ensures Valid()
      ensures State() == SessionState.IncreaseThreshold(old(State()))
    {
      thresholdValue := thresholdValue + 2;
    }

    method DecreaseThreshold()
      requires Valid()
      modifies this
      ensures Valid()
      ensures State() == SessionState.DecreaseThreshold(old(State()))
    {
      if thresholdValue > 5 {
        thresholdValue := thresholdValue - 5;
      }
    }

    /** `ok` is false when the index is outside the colour list; the state is then unchanged. */
    method ChangeFocusPeakingColor(index: int) returns (ok: bool)
      requires Valid()
      modifies this
      ensures Valid()
      ensures ok <==> -3 <= index < 3
      ensures State() == SessionState.ChangeFocusPeakingColor(old(State()), index)
    {
      var colors := Palette;
      ok := -|colors| <= index < |colors|;
      if ok {
        focusPeakingColor := if index < 0 then colors[|colors| + index] else colors[index];
      }
    }

    /** Creates a writer of the camera's frame size on the current video path. */
    method StartRecording(width: int, height: int)
      requires Valid()
      modifies this
      ensures Valid()
      ensures State() == SessionState.StartRecording(old(State()), width, height)
    {
      outputPath := GenerateVideoPath();
      out := Some(Sink(outputPath, width, height, false));
      recording := true;
    }

    method StopRecording()
      requires Valid()
      modifies this
      ensures Valid()
      ensures State() == SessionState.StopRecording(old(State()))
    {
      if recording {
        recording := false;
        out := Some(out.value.(released := true));
        videoCounter := videoCounter + 1;
        outputPath := GenerateVideoPath();
      }
    }

    method ToggleRecording(checked: bool, width: int, height: int)
      requires Valid()
      modifies this
      ensures Valid()
      ensures State() == SessionState.ToggleRecording(old(State()), checked, width, height)
    {
      if checked {
        StartRecording(width, height);
      } else {
        StopRecording();
      }
    }

    /**
     * Takes a photo when the camera delivered a frame (`frameRead`) and the save directory
     * exists or could be created (`dirReady`); `written` is the file the resized frame is
     * handed to the image writer for.
     */
    method Snapshot(frameRead: bool, dirReady: bool) returns (written: Option<StillImage>)
      requires Valid()
      modifies this
      ensures Valid()
      ensures written == SnapshotFile(old(State()), frameRead, dirReady)
      ensures State() == SessionState.Snapshot(old(State()), frameRead, dirReady)
    {
      written := None;
      if frameRead {
        if dirReady {
          var filename := NumberedName("Photo", photoCounter, ".jpg");
          var filepath := Join(SaveDir, filename);
          written := Some(StillImage(filepath, 3840, 2160));
          photoCounter := photoCounter + 1;
        }
      }
    }

    method CloseEvent()
      requires Valid()
      modifies this
      ensures Valid()
      ensures !recording
      ensures State() == SessionState.CloseEvent(old(State()))
    {
      if recording {
        StopRecording();
      }
    }

    /**
     * The focus-peaking overlay of `frame`, given its edge-magnitude map: a copy of the frame
     * in which marked pixels are overwritten with the overlay colour, after which channels 0
     * and 2 of every pixel are swapped. The frame itself is left as it was.
     */
    method ApplyFocusPeaking(frame: array2<Pixel>, magnitude: array2<byte>) returns (outline: array2<Pixel>)
      requires magnitude.Length0 == frame.Length0 && magnitude.Length1 == frame.Length1
      ensures fresh(outline)
      ensures outline != frame
      ensures outline.Length0 == frame.Length0 && outline.Length1 == frame.Length1
      ensures forall r, c :: 0 <= r < frame.Length0 && 0 <= c < frame.Length1 ==>
        outline[r, c] == PeakedPixel(frame[r, c], magnitude[r, c], thresholdValue, focusPeakingColor)
    {
      var rows, cols := frame.Length0, frame.Length1;
      outline := new Pixel[rows, cols]((r, c) reads frame requires 0 <= r < rows && 0 <= c < cols => frame[r, c]);
      var i := 0;
      while i < rows
        invariant 0 <= i <= rows
        invariant forall r, c :: 0 <= r < rows && 0 <= c < cols ==>
          outline[r, c] == if r < i then Masked(frame[r, c], magnitude[r, c], thresholdValue, focusPeakingColor) else frame[r, c]
      {
        var j := 0;
        while j < cols
          invariant 0 <= j <= cols
          invariant forall r, c :: 0 <= r < rows && 0 <= c < cols ==>
            outline[r, c] == if r < i || (r == i && c < j) then Masked(frame[r, c], magnitude[r, c], thresholdValue, focusPeakingColor) else frame[r, c]
        {
          if ThresholdBinary(magnitude[i, j], thresholdValue) != 0 {
            outline[i, j] := focusPeakingColor;
          }
          j := j + 1;
        }
        i := i + 1;
      }
      i := 0;
      while i < rows
        invariant 0 <= i <= rows
        invariant forall r, c :: 0 <= r < rows && 0 <= c < cols ==>
          outline[r, c] == if r < i then PeakedPixel(frame[r, c], magnitude[r, c], thresholdValue, focusPeakingColor)
                           else Masked(frame[r, c], magnitude[r, c], thresholdValue, focusPeakingColor)
      {
        var j := 0;
        while j < cols
          invariant 0 <= j <= cols
          invariant forall r, c :: 0 <= r < rows && 0 <= c < cols ==>
            outline[r, c] == if r < i || (r == i && c < j) then PeakedPixel(frame[r, c], magnitude[r, c], thresholdValue, focusPeakingColor)
                             else Masked(frame[r, c], magnitude[r, c], thresholdValue, focusPeakingColor)
        {
          var p := outline[i, j];
          outline[i, j] := Pixel(p.c2, p.c1, p.c0);
          j := j + 1;
        }
        i := i + 1;
      }
    }
  }
}
