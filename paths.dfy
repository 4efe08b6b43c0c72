/**
 * The file names the application writes to: numbered video and photo files in one fixed
 * output directory, and the directory join used by the snapshot writer.
 */
module Paths {
  import opened Decimal

  const SaveDir: string := "/Users/bradanderson/desktop/ScreenShots"
  const VideoPrefix: string := SaveDir + "/Video"
  const VideoSuffix: string := ".mov"
  const PhotoPrefix: string := SaveDir + "/Photo"
  const PhotoSuffix: string := ".jpg"

  /**
   * `prefix`, the decimal numeral of `n`, then `suffix`. The counter can be read back from
   * between the prefix and the suffix.
   */
  function NumberedName(prefix: string, n: nat, suffix: string): (p: string)
    ensures |p| > |prefix| + |suffix|
    ensures p[..|prefix|] == prefix && p[|p| - |suffix|..] == suffix
    ensures ParseDecimal(p[|prefix|..|p| - |suffix|]) == n
  {
    var d := DecimalString(n);
    var p := prefix + d + suffix;
    assert p[..|prefix|] == prefix;
    assert p[|p| - |suffix|..] == suffix;
    assert p[|prefix|..|p| - |suffix|] == d;
    ParseDecimalString(n);
    p
  }

  /** Names built from one prefix and one suffix coincide exactly when their counters do. */
  lemma NumberedNameInjective(prefix: string, suffix: string, a: nat, b: nat)
    ensures NumberedName(prefix, a, suffix) == NumberedName(prefix, b, suffix) <==> a == b
  {
  }

  /** The path of the n-th recording. */
  function VideoPath(n: nat): string
  {
    NumberedName(VideoPrefix, n, VideoSuffix)
  }

  /** The path of the n-th photo. */
  function PhotoPath(n: nat): string
  {
    NumberedName(PhotoPrefix, n, PhotoSuffix)
  }

  /** The bare file name the snapshot writer gives the n-th photo. */
  function PhotoFileName(n: nat): string
  {
    NumberedName("Photo", n, PhotoSuffix)
  }

  /** POSIX path join of two components: an absolute second component replaces the first. */
  function Join(dir: string, name: string): (p: string)
    ensures |p| >= |name| && p[|p| - |name|..] == name
    ensures |name| > 0 && name[0] == '/' ==> p == name
    ensures !(|name| > 0 && name[0] == '/') ==> |dir| + |name| <= |p| <= |dir| + |name| + 1 && p[..|dir|] == dir
    ensures !(|name| > 0 && name[0] == '/') && dir != [] ==> p[|p| - |name| - 1] == '/'
    ensures !(|name| > 0 && name[0] == '/') ==> (|p| == |dir| + |name| + 1 <==> dir != [] && dir[|dir| - 1] != '/')
  {
    if |name| > 0 && name[0] == '/' then name
    else if dir == [] || dir[|dir| - 1] == '/' then dir + name
    else dir + "/" + name
  }

  lemma VideoPathInjective(a: nat, b: nat)
    ensures VideoPath(a) == VideoPath(b) <==> a == b
  {
    NumberedNameInjective(VideoPrefix, VideoSuffix, a, b);
  }

  lemma PhotoPathInjective(a: nat, b: nat)
    ensures PhotoPath(a) == PhotoPath(b) <==> a == b
  {
    NumberedNameInjective(PhotoPrefix, PhotoSuffix, a, b);
  }

  /** The snapshot writer's joined path is the photo path generator's path. */
  lemma {:induction false} SnapshotPathIsPhotoPath(n: nat)
    ensures Join(SaveDir, PhotoFileName(n)) == PhotoPath(n)
  {
    var d := DecimalString(n);
    assert PhotoFileName(n) == "Photo" + d + PhotoSuffix;
    assert PhotoFileName(n)[0] == 'P';
    assert SaveDir[|SaveDir| - 1] == 's';
    assert SaveDir + "/" + ("Photo" + d + PhotoSuffix) == PhotoPrefix + d + PhotoSuffix;
  }

  /** A video file and a photo file never share a path. */
  lemma {:induction false} VideoPathIsNotPhotoPath(a: nat, b: nat)
    ensures VideoPath(a) != PhotoPath(b)
  {
    var v, p := VideoPath(a), PhotoPath(b);
    assert v[|v| - |VideoSuffix|..] == VideoSuffix;
    assert p[|p| - |PhotoSuffix|..] == PhotoSuffix;
    assert v[|v| - 1] == VideoSuffix[3];
    assert p[|p| - 1] == PhotoSuffix[3];
  }
}
