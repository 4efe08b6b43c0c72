/** The start-up splash screen, which cycles through its animation frames on a timer. */
module Splash {

  /** The frame index after `current` in a cycle of `count` frames. */
  function NextFrame(current: int, count: int): (r: int)
    requires count > 0
    ensures 0 <= r < count
    ensures 0 <= current < count - 1 ==> r == current + 1
    ensures current == count - 1 ==> r == 0
  {
    (current + 1) % count
  }

  /** The frame index after `steps` timer ticks from `start`. */
  function FrameAfter(start: int, count: int, steps: nat): int
    requires count > 0
    decreases steps
  {
    if steps == 0 then start else NextFrame(FrameAfter(start, count, steps - 1), count)
  }

  /** A product of an integer and a positive number strictly between -n and n is zero. */
  lemma SmallMultipleIsZero(d: int, n: int)
    requires n > 0 && -n < d * n < n
    ensures d == 0
  {
  }

  /** Euclidean remainder is determined by any decomposition with a remainder in range. */
  lemma ModOfDecomposition(a: int, n: int, q: int, r: int)
    requires n > 0 && 0 <= r < n && a == q * n + r
    ensures a % n == r
  {
    var q', r' := a / n, a % n;
    assert a == q' * n + r';
    assert (q - q') * n == r' - r;
    SmallMultipleIsZero(q - q', n);
  }

  /** The remainder of a successor is the successor of the remainder, wrapping to 0. */
  lemma ModSuccessor(a: int, n: int)
    requires n > 0
    ensures (a + 1) % n == if a % n == n - 1 then 0 else a % n + 1
  {
    var q, m := a / n, a % n;
    assert a == q * n + m;
    if m == n - 1 {
      assert (q + 1) * n == q * n + n;
      ModOfDecomposition(a + 1, n, q + 1, 0);
    } else {
      ModOfDecomposition(a + 1, n, q, m + 1);
    }
  }

  /** Each tick advances the index by one, modulo the number of frames. */
  lemma {:induction false} FrameAfterIsModular(start: int, count: int, steps: nat)
    requires count > 0 && 0 <= start < count
    ensures FrameAfter(start, count, steps) == (start + steps) % count
    decreases steps
  {
    if steps == 0 {
      ModOfDecomposition(start, count, 0, start);
    } else {
      FrameAfterIsModular(start, count, steps - 1);
      ModSuccessor(start + steps - 1, count);
    }
  }

  /** After as many ticks as there are frames the animation is back where it started. */
  lemma FramesCycle(start: int, count: int)
    requires count > 0 && 0 <= start < count
    ensures FrameAfter(start, count, count) == start
  {
    FrameAfterIsModular(start, count, count);
    ModOfDecomposition(start + count, count, 1, start);
  }

  class SplashScreen {
    var animationFrames: seq<string>
    var currentFrame: int
    /** The image file currently shown. */
    var pixmap: string

    predicate Valid()
      reads this
    {
      0 <= currentFrame < |animationFrames| && pixmap == animationFrames[currentFrame]
    }

    constructor (frames: seq<string>)
      requires |frames| > 0
      ensures Valid()
      ensures animationFrames == frames && currentFrame == 0
    {
      animationFrames := frames;
      currentFrame := 0;
      pixmap := frames[0];
    }

    method UpdateFrame()
      requires Valid()
      modifies this
      ensures Valid()
      ensures animationFrames == old(animationFrames)
      ensures currentFrame == NextFrame(old(currentFrame), |animationFrames|)
    {
      currentFrame := (currentFrame + 1) % |animationFrames|;
      pixmap := animationFrames[currentFrame];
    }
  }
}
