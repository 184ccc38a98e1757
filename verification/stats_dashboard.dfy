/**
 * The display-side conversions of the statistics dashboard: the
 * hours/minutes/seconds split of the time counter, the two parallel
 * eleven-band mood ladders (emoji and description) and the four-band
 * colour of the sanity progress bar.
 *
 * Each ladder is checked against one reference definition: the band of a
 * sanity value is the number of the ladder's thresholds that the value does
 * not exceed, so band 0 is the best mood and the last band the worst.
 */
module StatsDashboard {
  import CodeExecutor

  // ---------------------------------------------------------------------
  // Time

  /** JavaScript's `%` on integers: the remainder takes the sign of the dividend. */
  function JsRem(a: int, b: int): (r: int)
    requires b > 0
    ensures a >= 0 ==> r == a % b
    ensures a < 0 ==> r <= 0
  {
    if a >= 0 then a % b else -((-a) % b)
  }

  /** The three numbers the time counter is shown as. */
  datatype Duration = Duration(hours: int, minutes: int, secs: int)

  predicate ValidDuration(d: Duration) {
    d.hours >= 0 && 0 <= d.minutes < 60 && 0 <= d.secs < 60
  }

  function TotalSeconds(d: Duration): int {
    d.hours * 3600 + d.minutes * 60 + d.secs
  }

  /**
   * `formatTime` before rendering: hours `floor(s / 3600)`, minutes
   * `floor((s % 3600) / 60)` and seconds `s % 60`, with JavaScript's
   * operators. For a non-negative count it is the unique split of that
   * count into hours, minutes below 60 and seconds below 60.
   */
  function FormatTime(seconds: int): (d: Duration)
    ensures seconds >= 0 ==> ValidDuration(d) && TotalSeconds(d) == seconds
    ensures seconds >= 0 ==> d.hours == seconds / 3600
  {
    Duration(seconds / 3600, JsRem(seconds, 3600) / 60, JsRem(seconds, 60))
  }

  /** Splitting the total of a valid split gives back that split. */
  lemma FormatTimeRoundTrip(d: Duration)
    requires ValidDuration(d)
    ensures FormatTime(TotalSeconds(d)) == d
  {
    var t := TotalSeconds(d);
    var e := FormatTime(t);
    SplitUnique(d, e);
  }

  /** Two valid splits with the same total are equal. */
  lemma SplitUnique(d: Duration, e: Duration)
    requires ValidDuration(d) && ValidDuration(e) && TotalSeconds(d) == TotalSeconds(e)
    ensures d == e
  {
    var x := d.minutes * 60 + d.secs;
    var y := e.minutes * 60 + e.secs;
    assert 0 <= x < 3600 && 0 <= y < 3600;
    assert d.hours == e.hours;
    assert d.minutes == e.minutes;
  }

  // ---------------------------------------------------------------------
  // Threshold ladders

  /** How many of the thresholds `s` does not exceed. */
  function CountAtLeast(ts: seq<real>, s: real): (n: nat)
    ensures n <= |ts|
  {
    if |ts| == 0 then 0
    else (if s <= ts[0] then 1 else 0) + CountAtLeast(ts[1..], s)
  }

  predicate StrictlyDecreasing(ts: seq<real>) {
    forall i, j :: 0 <= i < j < |ts| ==> ts[j] < ts[i]
  }

  /** A higher value clears at least as many thresholds. */
  lemma {:induction false} CountAntitone(ts: seq<real>, a: real, b: real)
    requires a <= b
    ensures CountAtLeast(ts, b) <= CountAtLeast(ts, a)
    decreases |ts|
  {
    if |ts| > 0 {
      CountAntitone(ts[1..], a, b);
    }
  }

  /**
   * On a strictly decreasing ladder the count splits it: `s` lies at or
   * below every threshold before position `n` and above every one from
   * `n` on.
   */
  lemma {:induction false} CountSplits(ts: seq<real>, s: real)
    requires StrictlyDecreasing(ts)
    ensures forall i :: 0 <= i < CountAtLeast(ts, s) ==> s <= ts[i]
    ensures forall i :: CountAtLeast(ts, s) <= i < |ts| ==> ts[i] < s
    decreases |ts|
  {
    if |ts| > 0 {
      var tail := ts[1..];
      assert StrictlyDecreasing(tail) by {
        forall i, j | 0 <= i < j < |tail| ensures tail[j] < tail[i] {
          assert tail[i] == ts[i + 1] && tail[j] == ts[j + 1];
        }
      }
      CountSplits(tail, s);
      var n := CountAtLeast(ts, s);
      if s <= ts[0] {
        forall i | 0 <= i < n ensures s <= ts[i] {
          if i > 0 { assert ts[i] == tail[i - 1]; }
        }
        forall i | n <= i < |ts| ensures ts[i] < s {
          assert ts[i] == tail[i - 1];
        }
      } else {
        if |tail| > 0 {
          assert tail[0] < ts[0];
          assert CountAtLeast(tail, s) == 0;
        }
        forall i | 0 <= i < |ts| ensures ts[i] < s {
          if i > 0 { assert ts[i] < ts[0]; }
        }
      }
    }
  }

  /** `s` lies in band `k` of the ladder `ts`: at or below threshold `k - 1`, above threshold `k`. */
  predicate InBand(ts: seq<real>, s: real, k: nat)
    requires k <= |ts|
  {
    (k == 0 || s <= ts[k - 1]) && (k == |ts| || ts[k] < s)
  }

  /** On a strictly decreasing ladder every value lies in exactly one band, the counted one. */
  lemma BandPartition(ts: seq<real>, s: real, k: nat)
    requires StrictlyDecreasing(ts) && k <= |ts|
    ensures InBand(ts, s, k) <==> CountAtLeast(ts, s) == k
  {
    CountSplits(ts, s);
  }

  // ---------------------------------------------------------------------
  // Mood

  /** The thresholds both mood ladders test, from the top. */
  const MoodThresholds: seq<real> := [90.0, 80.0, 70.0, 60.0, 50.0, 40.0, 30.0, 20.0, 10.0, 5.0]

  /** The eleven faces, named after the emoji the ladder shows. */
  datatype Emoji =
    | Smiling | SlightlySmiling | Neutral | Confused | Worried | AnxiousSweat
    | Fearful | Screaming | ExplodingHead | Skull | Ghost

  const Emojis: seq<Emoji> :=
    [Smiling, SlightlySmiling, Neutral, Confused, Worried, AnxiousSweat,
     Fearful, Screaming, ExplodingHead, Skull, Ghost]

  const Descriptions: seq<string> :=
    ["Happy and optimistic", "Slightly concerned", "Neutral", "Worried", "Anxious",
     "Very stressed", "Panicking", "Terrified", "Mind blown", "Dead inside", "Completely lost"]

  /** Mood band of a sanity value: 0 is the best mood, 10 the worst. */
  function MoodBand(sanity: real): (b: nat)
    ensures b < |Emojis| && b < |Descriptions|
  {
    CountAtLeast(MoodThresholds, sanity)
  }

  /** `getMoodEmoji`: the emoji of the band the reference count gives. */
  function MoodEmoji(sanity: real): (e: Emoji)
    ensures e == Emojis[MoodBand(sanity)]
  {
    MoodBandBounds(sanity);
    if sanity > 90.0 then Smiling
    else if sanity > 80.0 then SlightlySmiling
    else if sanity > 70.0 then Neutral
    else if sanity > 60.0 then Confused
    else if sanity > 50.0 then Worried
    else if sanity > 40.0 then AnxiousSweat
    else if sanity > 30.0 then Fearful
    else if sanity > 20.0 then Screaming
    else if sanity > 10.0 then ExplodingHead
    else if sanity > 5.0 then Skull
    else Ghost
  }

  /** `getMoodDescription`: the description of the band the reference count gives. */
  function MoodDescription(sanity: real): (d: string)
    ensures d == Descriptions[MoodBand(sanity)]
  {
    MoodBandBounds(sanity);
    if sanity > 90.0 then "Happy and optimistic"
    else if sanity > 80.0 then "Slightly concerned"
    else if sanity > 70.0 then "Neutral"
    else if sanity > 60.0 then "Worried"
    else if sanity > 50.0 then "Anxious"
    else if sanity > 40.0 then "Very stressed"
    else if sanity > 30.0 then "Panicking"
    else if sanity > 20.0 then "Terrified"
    else if sanity > 10.0 then "Mind blown"
    else if sanity > 5.0 then "Dead inside"
    else "Completely lost"
  }

  lemma MoodThresholdsDecreasing()
    ensures StrictlyDecreasing(MoodThresholds)
  {
  }

  /** The sanity lies between the two thresholds around its band. */
  lemma MoodBandBounds(sanity: real)
    ensures InBand(MoodThresholds, sanity, MoodBand(sanity))
  {
    MoodThresholdsDecreasing();
    BandPartition(MoodThresholds, sanity, MoodBand(sanity));
  }

  /** No two bands share an emoji. */
  lemma EmojisDistinct(i: nat, j: nat)
    requires i < |Emojis| && j < |Emojis| && Emojis[i] == Emojis[j]
    ensures i == j
  {
  }

  /** No two bands share a description. */
  lemma DescriptionsDistinct(i: nat, j: nat)
    requires i < |Descriptions| && j < |Descriptions| && Descriptions[i] == Descriptions[j]
    ensures i == j
  {
  }

  /**
   * The two mood ladders always agree: two sanity values show the same
   * emoji exactly when they show the same description, and that is exactly
   * when they fall in the same band.
   */
  lemma MoodLaddersAgree(a: real, b: real)
    ensures MoodEmoji(a) == MoodEmoji(b) <==> MoodBand(a) == MoodBand(b)
    ensures MoodDescription(a) == MoodDescription(b) <==> MoodBand(a) == MoodBand(b)
  {
    if MoodEmoji(a) == MoodEmoji(b) {
      EmojisDistinct(MoodBand(a), MoodBand(b));
    }
    if MoodDescription(a) == MoodDescription(b) {
      DescriptionsDistinct(MoodBand(a), MoodBand(b));
    }
  }

  /** Every sanity value lies in exactly one of the eleven bands. */
  lemma MoodBandsPartition(sanity: real, k: nat)
    requires k < |Descriptions|
    ensures InBand(MoodThresholds, sanity, k) <==> MoodBand(sanity) == k
  {
    MoodThresholdsDecreasing();
    BandPartition(MoodThresholds, sanity, k);
  }

  /** Less sanity never shows a better mood. */
  lemma MoodMonotone(a: real, b: real)
    requires a <= b
    ensures MoodBand(b) <= MoodBand(a)
  {
    CountAntitone(MoodThresholds, a, b);
  }

  /** "Completely lost" (the ghost) is shown exactly when sanity is at most 5. */
  lemma CompletelyLost(sanity: real)
    ensures MoodDescription(sanity) == "Completely lost" <==> sanity <= 5.0
    ensures MoodEmoji(sanity) == Ghost <==> sanity <= 5.0
  {
  }

  // ---------------------------------------------------------------------
  // Progress bar

  /** The progress-bar fill classes, best to worst. */
  datatype BarColour = Chart2 | Chart3 | Chart5 | Destructive

  const BarThresholds: seq<real> := [75.0, 50.0, 25.0]

  function ColourRank(c: BarColour): nat {
    match c
    case Chart2 => 0
    case Chart3 => 1
    case Chart5 => 2
    case Destructive => 3
  }

  /** The fill class of the sanity progress bar: its rank is the number of bar thresholds not exceeded. */
  function ProgressColour(sanity: real): (c: BarColour)
    ensures ColourRank(c) == CountAtLeast(BarThresholds, sanity)
  {
    BarBandBounds(sanity);
    if sanity > 75.0 then Chart2
    else if sanity > 50.0 then Chart3
    else if sanity > 25.0 then Chart5
    else Destructive
  }

  /** The sanity lies between the two bar thresholds around its counted band. */
  lemma BarBandBounds(sanity: real)
    ensures InBand(BarThresholds, sanity, CountAtLeast(BarThresholds, sanity))
  {
    assert StrictlyDecreasing(BarThresholds);
    BandPartition(BarThresholds, sanity, CountAtLeast(BarThresholds, sanity));
  }

  /** Less sanity never shows a better colour. */
  lemma ProgressColourMonotone(a: real, b: real)
    requires a <= b
    ensures ColourRank(ProgressColour(b)) <= ColourRank(ProgressColour(a))
  {
    CountAntitone(BarThresholds, a, b);
  }

  /**
   * The bar is destructive exactly when sanity is at most 25, which is
   * exactly when a tick reading that sanity leaves the standard message
   * pool.
   */
  lemma DestructiveWhenLow(sanity: real)
    ensures ProgressColour(sanity) == Destructive <==> sanity <= 25.0
    ensures ProgressColour(sanity) == Destructive <==> CodeExecutor.Tier(sanity) != CodeExecutor.Standard
  {
  }
}
