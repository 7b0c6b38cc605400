/** The detector's output for one frame, reduced to what the drowsiness logic uses:
    the number of eye regions found inside each detected face, in detection order. */
module Eyes {

  /** Total number of eyes over all faces of a frame (the frame's `eyes_detected`). */
  function Total(perFace: seq<nat>): (total: nat)
    ensures perFace == [] ==> total == 0
    ensures forall i :: 0 <= i < |perFace| ==> perFace[i] <= total
  {
    if perFace == [] then 0
    else Total(perFace[..|perFace| - 1]) + perFace[|perFace| - 1]
  }

  /** The total over a concatenation is the sum of the totals of the parts. */
  lemma {:induction false} TotalAppend(a: seq<nat>, b: seq<nat>)
    ensures Total(a + b) == Total(a) + Total(b)
    decreases |b|
  {
    if b != [] {
      var b' := b[..|b| - 1];
      assert (a + b)[..|a + b| - 1] == a + b';
      assert (a + b)[|a + b| - 1] == b[|b| - 1];
      TotalAppend(a, b');
    } else {
      assert a + b == a;
    }
  }

  /** Eyes found in two different faces add up: one eye in each of two faces
      already makes a frame with at least two eyes. */
  lemma {:induction false} TwoFacesAddUp(perFace: seq<nat>, i: nat, j: nat)
    requires i < j < |perFace|
    ensures perFace[i] + perFace[j] <= Total(perFace)
  {
    TotalAppend(perFace[..j], perFace[j..]);
    assert perFace[..j] + perFace[j..] == perFace;
    assert perFace[j..][0] == perFace[j];
  }

  /** The accumulation loop over the detected faces: starts at 0 and adds each
      face's eye count in turn. */
  method CountEyes(perFace: seq<nat>) returns (eyesDetected: nat)
    ensures eyesDetected == Total(perFace)
  {
    eyesDetected := 0;
    for i := 0 to |perFace|
      invariant eyesDetected == Total(perFace[..i])
    {
      assert perFace[..i + 1][..i] == perFace[..i];
      eyesDetected := eyesDetected + perFace[i];
    }
    assert perFace[..|perFace|] == perFace;
  }
}
