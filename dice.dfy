/** The twenty-sided die behind every roll. */
module Dice {

  /** A face of the die: what `Math.floor(Math.random() * 20) + 1` can produce. */
  type Die = x: int | 1 <= x <= 20 witness 1

  /** The face selected by a uniform sample in [0, 1): `floor(sample * 20) + 1`. */
  function DieFace(sample: real): (face: int)
    requires 0.0 <= sample < 1.0
    ensures 1 <= face <= 20
  {
    (sample * 20.0).Floor + 1
  }

  /** Every face is produced by some sample, so `Die` is exactly the formula's range. */
  lemma DieFaceOnto(face: Die)
    ensures 0.0 <= (face - 1) as real / 20.0 < 1.0
    ensures DieFace((face - 1) as real / 20.0) == face
  {
  }
}
