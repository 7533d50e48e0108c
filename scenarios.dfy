/**
 * Worked examples on a small stand-in for the music-theory library that
 * knows only the moves these examples need.
 */
module Scenarios {
  import opened Wrappers
  import opened Music
  import opened Tree
  import opened Rules
  import opened Engine

  /** C up a fifth is G, G up a fourth is C, C up a second is D, G up a diminished fifth is Db. */
  function SampleTranspose(p: Pitch, i: Interval): Pitch
  {
    if p == "C" && i == PerfectFifth then "G"
    else if p == "G" && i == PerfectFourth then "C"
    else if p == "C" && i == MajorSecond then "D"
    else if p == "G" && i == DiminishedFifth then "Db"
    else p
  }

  /** "7" chords are dominant, "m7" chords minor, everything else major. */
  function SampleQuality(p: Pitch, name: ChordName): Quality
  {
    if name == Seventh then Dominant else if name == MinorSeventh then Minor else Major
  }

  const Sample: Theory := Theory(SampleTranspose, SampleQuality)

  /** "V-I" on C major seventh puts G7 in front of it. */
  lemma VIOnCMajorSeventh()
    ensures var c := Chord(0, "C", MajorSeventh, Major);
      Substitute(Sample, c, 0, "V-I", 1)
        == Ok(Step(Group(1, VI, [Chord(2, "G", Seventh, Dominant), c]), 3))
  {
  }

  /** G7 passes the "ii-V" gate, and "ii-V" puts D minor seventh in front of it. */
  lemma IIVOnGSeventh()
    ensures var g := Chord(0, "G", Seventh, Dominant);
      Validate(Sample, IIV, g) == Ok(true) && Validate(Sample, Tritone, g) == Ok(true)
      && Substitute(Sample, g, 0, "ii-V", 1)
           == Ok(Step(Group(1, IIV, [Chord(2, "D", MinorSeventh, Minor), g]), 3))
  {
  }

  /**
   * "tritone" on G7 replaces it by Db7, and collapsing the group gives Db7
   * back under the group's id, not G7.
   */
  lemma TritoneOnGSeventh()
    ensures var g := Chord(0, "G", Seventh, Dominant);
      var t := Group(1, Tritone, [Chord(2, "Db", Seventh, Dominant)]);
      Substitute(Sample, g, 0, "tritone", 1) == Ok(Step(t, 3))
      && CollapseAt(t, 1) == Ok(Chord(1, "Db", Seventh, Dominant))
  {
  }

  /** "ii-V" on C major seventh, which is not dominant, leaves it as it is. */
  lemma IIVOnCMajorSeventh()
    ensures var c := Chord(0, "C", MajorSeventh, Major);
      Substitute(Sample, c, 0, "ii-V", 1) == Ok(Step(c, 1))
  {
  }
}
