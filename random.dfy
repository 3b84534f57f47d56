// The two random helpers at the top of chrono-select.tsx: the distinct-hue
// sampler and the Fisher-Yates shuffle. Math.random() is an oracle argument:
// a sequence of reals in [0, 1), consumed from the front.

module RandomUtil {
  import opened Types

  /** MIN_HUE_DIFFERENCE, in degrees. */
  const MinHueDifference: real := 30.0

  /** Draws that are checked against the existing hues; one more is taken unchecked. */
  const MaxHueAttempts: nat := 50

  /** isTooClose: the circular distance min(d, 360 - d) is below 30 degrees. */
  predicate IsTooClose(h1: real, h2: real) {
    var diff := if h1 >= h2 then h1 - h2 else h2 - h1;
    Min(diff, 360.0 - diff) < MinHueDifference
  }

  /** existingHues.some(h => isTooClose(h, hue)) */
  predicate AnyTooClose(existing: seq<real>, hue: real) {
    exists i :: 0 <= i < |existing| && IsTooClose(existing[i], hue)
  }

  /**
   * An independent statement of the distance test for hues in [0, 360):
   * hue h2 is too close to h1 exactly when one of its copies h2 - 360, h2,
   * h2 + 360 on the real line lies within 30 degrees of h1.
   */
  lemma TooCloseIsCircular(h1: real, h2: real)
    requires 0.0 <= h1 < 360.0 && 0.0 <= h2 < 360.0
    ensures IsTooClose(h1, h2) <==>
      || -30.0 < h2 - 360.0 - h1 < 30.0
      || -30.0 < h2 - h1 < 30.0
      || -30.0 < h2 + 360.0 - h1 < 30.0
  {
  }

  lemma TooCloseSymmetric(h1: real, h2: real)
    ensures IsTooClose(h1, h2) == IsTooClose(h2, h1)
  {
  }

  /**
   * The do-while loop of getDistinctHue, from the draw with index attempts:
   * the hue drawn and the number of draws taken in all.
   */
  function DistinctHueFrom(existing: seq<real>, samples: seq<real>, attempts: nat): (r: (real, nat))
    requires attempts <= MaxHueAttempts < |samples|
    decreases MaxHueAttempts - attempts
  {
    var hue := samples[attempts] * 360.0;
    if attempts + 1 > MaxHueAttempts then (hue, attempts + 1)
    else if AnyTooClose(existing, hue) then DistinctHueFrom(existing, samples, attempts + 1)
    else (hue, attempts + 1)
  }

  function DistinctHue(existing: seq<real>, samples: seq<real>): (real, nat)
    requires MaxHueAttempts < |samples|
  {
    DistinctHueFrom(existing, samples, 0)
  }

  /**
   * What the sampler promises: it stops at the first draw whose hue keeps
   * 30 degrees from every existing hue, and otherwise after the 51st draw,
   * which it returns unchecked.
   */
  lemma {:induction false} DistinctHueFromSpec(existing: seq<real>, samples: seq<real>, attempts: nat)
    requires attempts <= MaxHueAttempts < |samples|
    decreases MaxHueAttempts - attempts
    ensures var (hue, used) := DistinctHueFrom(existing, samples, attempts);
      && attempts < used <= MaxHueAttempts + 1
      && hue == samples[used - 1] * 360.0
      && (used <= MaxHueAttempts ==> !AnyTooClose(existing, hue))
      && (forall k :: attempts <= k < used - 1 ==> AnyTooClose(existing, samples[k] * 360.0))
      && (used == MaxHueAttempts + 1 <==>
            forall k :: attempts <= k < MaxHueAttempts ==> AnyTooClose(existing, samples[k] * 360.0))
  {
    var hue := samples[attempts] * 360.0;
    if attempts + 1 <= MaxHueAttempts && AnyTooClose(existing, hue) {
      DistinctHueFromSpec(existing, samples, attempts + 1);
    }
  }

  lemma DistinctHueRange(existing: seq<real>, samples: seq<real>)
    requires MaxHueAttempts < |samples| && AllSamples(samples)
    ensures 0.0 <= DistinctHue(existing, samples).0 < 360.0
  {
    DistinctHueFromSpec(existing, samples, 0);
  }

  /** With no existing hue the first draw is accepted (the team hue A). */
  lemma DistinctHueOfNone(samples: seq<real>)
    requires MaxHueAttempts < |samples|
    ensures DistinctHue([], samples) == (samples[0] * 360.0, 1)
  {
  }

  /** getDistinctHue */
  method GetDistinctHue(existingHues: seq<real>, samples: seq<real>) returns (newHue: real, attempts: nat)
    requires MaxHueAttempts < |samples|
    ensures (newHue, attempts) == DistinctHue(existingHues, samples)
    ensures 1 <= attempts <= MaxHueAttempts + 1 && newHue == samples[attempts - 1] * 360.0
    ensures attempts <= MaxHueAttempts ==> !AnyTooClose(existingHues, newHue)
    ensures forall k :: 0 <= k < attempts - 1 ==> AnyTooClose(existingHues, samples[k] * 360.0)
  {
    attempts := 0;
    while true
      invariant attempts <= MaxHueAttempts
      invariant DistinctHueFrom(existingHues, samples, attempts) == DistinctHue(existingHues, samples)
      decreases MaxHueAttempts - attempts
    {
      newHue := samples[attempts] * 360.0;
      attempts := attempts + 1;
      if attempts > MaxHueAttempts {
        break;
      }
      if !AnyTooClose(existingHues, newHue) {
        break;
      }
    }
    DistinctHueFromSpec(existingHues, samples, 0);
  }

  // ---------------------------------------------------------------------------
  // Fisher-Yates shuffle

  function Swap<T>(s: seq<T>, i: nat, j: nat): (r: seq<T>)
    requires i < |s| && j < |s|
    ensures |r| == |s|
  {
    s[i := s[j]][j := s[i]]
  }

  /** Math.floor(u * n): an index below n. */
  function PickIndex(u: real, n: nat): (j: nat)
    requires IsSample(u) && n > 0
    ensures j < n
  {
    var t := u * n as real;
    assert 0.0 <= t < n as real by { ScaledSampleBelow(u, n); }
    t.Floor
  }

  lemma ScaledSampleBelow(u: real, n: nat)
    requires IsSample(u) && n > 0
    ensures 0.0 <= u * n as real < n as real
  {
    assert u * n as real <= 1.0 * n as real;
    assert u * n as real != n as real;
  }

  /**
   * The shuffle loop from the state where currentIndex is current; samples
   * holds the draws still to come.
   */
  function FisherYatesFrom<T>(s: seq<T>, current: nat, samples: seq<real>): seq<T>
    requires current <= |s| && current <= |samples| && AllSamples(samples)
    decreases current
  {
    if current == 0 then s
    else
      var j := PickIndex(samples[0], current);
      FisherYatesFrom(Swap(s, current - 1, j), current - 1, samples[1..])
  }

  function FisherYates<T>(s: seq<T>, samples: seq<real>): seq<T>
    requires |s| <= |samples| && AllSamples(samples)
  {
    FisherYatesFrom(s, |s|, samples)
  }

  lemma SwapPermutes<T>(s: seq<T>, i: nat, j: nat)
    requires i < |s| && j < |s|
    ensures multiset(Swap(s, i, j)) == multiset(s)
  {
    var t := s[i := s[j]];
    assert multiset(t) == multiset(s) - multiset{s[i]} + multiset{s[j]};
    assert t[j] == s[j] || i == j;
  }

  /** The shuffle returns a permutation of its input. */
  lemma {:induction false} FisherYatesFromPermutes<T>(s: seq<T>, current: nat, samples: seq<real>)
    requires current <= |s| && current <= |samples| && AllSamples(samples)
    ensures |FisherYatesFrom(s, current, samples)| == |s|
    ensures multiset(FisherYatesFrom(s, current, samples)) == multiset(s)
    decreases current
  {
    if current > 0 {
      var j := PickIndex(samples[0], current);
      SwapPermutes(s, current - 1, j);
      FisherYatesFromPermutes(Swap(s, current - 1, j), current - 1, samples[1..]);
    }
  }

  lemma FisherYatesPermutes<T>(s: seq<T>, samples: seq<real>)
    requires |s| <= |samples| && AllSamples(samples)
    ensures |FisherYates(s, samples)| == |s|
    ensures multiset(FisherYates(s, samples)) == multiset(s)
  {
    FisherYatesFromPermutes(s, |s|, samples);
  }

  /** shuffleArray: the input is copied into a fresh array that is shuffled in place. */
  method ShuffleArray<T>(items: seq<T>, samples: seq<real>) returns (shuffled: seq<T>)
    requires |items| <= |samples| && AllSamples(samples)
    ensures shuffled == FisherYates(items, samples)
    ensures |shuffled| == |items| && multiset(shuffled) == multiset(items)
  {
    var newArray := new T[|items|](i requires 0 <= i < |items| => items[i]);
    assert newArray[..] == items;
    var currentIndex := newArray.Length;
    while currentIndex != 0
      invariant 0 <= currentIndex <= newArray.Length == |items|
      invariant FisherYatesFrom(newArray[..], currentIndex, samples[|items| - currentIndex..])
             == FisherYates(items, samples)
    {
      ghost var before := newArray[..];
      ghost var rest := samples[|items| - currentIndex..];
      assert rest[0] == samples[|items| - currentIndex];
      var randomIndex := PickIndex(samples[|items| - currentIndex], currentIndex);
      currentIndex := currentIndex - 1;
      SwapInPlace(newArray, currentIndex, randomIndex);
      assert rest[1..] == samples[|items| - currentIndex..];
      assert newArray[..] == Swap(before, currentIndex, randomIndex);
    }
    shuffled := newArray[..];
    FisherYatesPermutes(items, samples);
  }

  /** [a[i], a[j]] = [a[j], a[i]] */
  method SwapInPlace<T>(a: array<T>, i: nat, j: nat)
    requires i < a.Length && j < a.Length
    modifies a
    ensures a[..] == Swap(old(a[..]), i, j)
  {
    a[i], a[j] := a[j], a[i];
  }
}
