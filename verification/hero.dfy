/** The hero carousel of components/hero.tsx: the Fisher-Yates shuffle of
    its fixed media list and the index that advances through the slides.

    `Math.random` is replaced by the indices it produces: `picks[i]` is the
    `j` drawn when the loop is at `i` (so `0 <= picks[i] <= i`); `picks[0]`
    is never drawn. */
module Hero {
  import opened EventTypes

  datatype Slide = Slide(kind: MediaType, src: string)

  /** The component's built-in slides. */
  const HeroMedia: seq<Slide> := [
    Slide(Image, "/luxury-nightclub-interior.jpg"),
    Slide(Video, "https://assets.mixkit.co/videos/preview/mixkit-club-scene-with-people-dancing-under-lasers-4235-large.mp4"),
    Slide(Image, "/champagne-sparklers-vip.jpg"),
    Slide(Video, "https://assets.mixkit.co/videos/preview/mixkit-dj-performing-in-a-nightclub-4232-large.mp4")
  ]

  /** The draws a shuffle of `n` elements may use. */
  predicate ValidPicks(picks: seq<int>, n: nat) {
    |picks| == n && forall i :: 0 < i < n ==> 0 <= picks[i] <= i
  }

  /** `[s[i], s[j]] = [s[j], s[i]]`. */
  function Swap<T>(s: seq<T>, i: nat, j: nat): seq<T>
    requires i < |s| && j < |s|
  {
    s[i := s[j]][j := s[i]]
  }

  /** The remaining loop iterations `i, i - 1, …, 1` applied to `s`. */
  function SwapsFrom<T>(s: seq<T>, picks: seq<int>, i: int): (r: seq<T>)
    requires ValidPicks(picks, |s|) && i < |s|
    ensures |r| == |s|
    decreases i
  {
    if i <= 0 then s else SwapsFrom(Swap(s, i, picks[i]), picks, i - 1)
  }

  /** What `shuffleArray` returns for given draws. */
  function Shuffled<T>(s: seq<T>, picks: seq<int>): (r: seq<T>)
    requires ValidPicks(picks, |s|)
    ensures |r| == |s|
  {
    SwapsFrom(s, picks, |s| - 1)
  }

  /** One swap keeps the multiset. */
  lemma SwapPermutes<T>(s: seq<T>, i: nat, j: nat)
    requires i < |s| && j < |s|
    ensures multiset(Swap(s, i, j)) == multiset(s)
  {
    if i != j {
      var u := s[i := s[j]];
      assert multiset(u) == multiset(s) - multiset{s[i]} + multiset{s[j]};
      assert multiset(Swap(s, i, j)) == multiset(u) - multiset{u[j]} + multiset{s[i]};
    }
  }

  /** The shuffle is a permutation: same length, same multiset. */
  lemma {:induction false} SwapsFromPermutes<T>(s: seq<T>, picks: seq<int>, i: int)
    requires ValidPicks(picks, |s|) && i < |s|
    ensures |SwapsFrom(s, picks, i)| == |s|
    ensures multiset(SwapsFrom(s, picks, i)) == multiset(s)
    decreases i
  {
    if i > 0 {
      SwapPermutes(s, i, picks[i]);
      SwapsFromPermutes(Swap(s, i, picks[i]), picks, i - 1);
    }
  }

  lemma ShuffledPermutes<T>(s: seq<T>, picks: seq<int>)
    requires ValidPicks(picks, |s|)
    ensures |Shuffled(s, picks)| == |s| && multiset(Shuffled(s, picks)) == multiset(s)
  {
    SwapsFromPermutes(s, picks, |s| - 1);
  }

  /** Lists of zero or one element come back equal. */
  lemma ShortListsUnchanged<T>(s: seq<T>, picks: seq<int>)
    requires ValidPicks(picks, |s|) && |s| <= 1
    ensures Shuffled(s, picks) == s
  {
  }

  /** `shuffleArray`: copy the input into a fresh array, then swap down from
      the last index to 1. The input is a value and is left as it was. */
  method ShuffleArray<T>(input: seq<T>, picks: seq<int>) returns (r: seq<T>)
    requires ValidPicks(picks, |input|)
    ensures r == Shuffled(input, picks)
    ensures |r| == |input| && multiset(r) == multiset(input)
  {
    var n := |input|;
    var shuffled := new T[n](k requires 0 <= k < n => input[k]);
    var i := n - 1;
    assert shuffled[..] == input;
    while i > 0
      invariant -1 <= i < n
      invariant shuffled.Length == n
      invariant SwapsFrom(shuffled[..], picks, i) == Shuffled(input, picks)
      decreases i
    {
      var j := picks[i];
      ghost var before := shuffled[..];
      shuffled[i], shuffled[j] := shuffled[j], shuffled[i];
      assert shuffled[..] == Swap(before, i, j);
      i := i - 1;
    }
    r := shuffled[..];
    ShuffledPermutes(input, picks);
  }

  /** `(prev + 1) % length`. */
  function NextIndex(prev: nat, n: nat): (r: nat)
    requires n > 0
    ensures r < n
    ensures prev + 1 < n ==> r == prev + 1
    ensures prev == n - 1 ==> r == 0
  {
    (prev + 1) % n
  }

  /** `k` advances from `start`. */
  function Advanced(start: nat, n: nat, k: nat): nat
    requires n > 0
  {
    if k == 0 then start else NextIndex(Advanced(start, n, k - 1), n)
  }

  /** Advancing `a` times and then `b` times is advancing `a + b` times. */
  lemma {:induction false} AdvancedAdds(start: nat, n: nat, a: nat, b: nat)
    requires n > 0
    ensures Advanced(start, n, a + b) == Advanced(Advanced(start, n, a), n, b)
    decreases b
  {
    if b > 0 {
      AdvancedAdds(start, n, a, b - 1);
    }
  }

  /** Until the last slide is reached each advance moves one slide on. */
  lemma {:induction false} AdvancedCounts(start: nat, n: nat, k: nat)
    requires n > 0 && start + k < n
    ensures Advanced(start, n, k) == start + k
    decreases k
  {
    if k > 0 {
      AdvancedCounts(start, n, k - 1);
    }
  }

  /** After as many advances as there are slides the carousel is back on the
      slide it started from, having passed through the last slide and wrapped
      to the first. */
  lemma FullCycle(start: nat, n: nat)
    requires n > 0 && start < n
    ensures Advanced(start, n, n - 1 - start) == n - 1
    ensures Advanced(start, n, n - start) == 0
    ensures Advanced(start, n, n) == start
  {
    AdvancedCounts(start, n, n - 1 - start);
    AdvancedCounts(0, n, start);
    AdvancedAdds(start, n, n - start, start);
  }

  /** The component's state: the shuffled slides and the current index. */
  class Carousel {
    var shuffledMedia: seq<Slide>
    var currentIndex: nat

    /** The index names a slide whenever there is one. */
    ghost predicate Valid()
      reads this
    {
      shuffledMedia == [] ==> currentIndex == 0
    }

    ghost predicate OnSlide()
      reads this
    {
      currentIndex < |shuffledMedia|
    }

    constructor ()
      ensures Valid() && shuffledMedia == [] && currentIndex == 0
    {
      shuffledMedia := [];
      currentIndex := 0;
    }

    /** The mount effect: `setShuffledMedia(shuffleArray(heroMedia))`. */
    method Mount(picks: seq<int>)
      requires Valid() && currentIndex == 0
      requires ValidPicks(picks, |HeroMedia|)
      modifies this
      ensures Valid() && OnSlide()
      ensures shuffledMedia == Shuffled(HeroMedia, picks) && currentIndex == 0
      ensures multiset(shuffledMedia) == multiset(HeroMedia)
    {
      shuffledMedia := ShuffleArray(HeroMedia, picks);
    }

    /** The timer or the video's `ended` event; nothing happens while there
      are no slides. */
    method Advance()
      requires Valid() && (shuffledMedia != [] ==> OnSlide())
      modifies this
      ensures Valid() && (shuffledMedia != [] ==> OnSlide())
      ensures shuffledMedia == old(shuffledMedia)
      ensures shuffledMedia == [] ==> currentIndex == old(currentIndex)
      ensures shuffledMedia != [] ==> currentIndex == NextIndex(old(currentIndex), |shuffledMedia|)
    {
      if |shuffledMedia| == 0 {
        return;
      }
      currentIndex := NextIndex(currentIndex, |shuffledMedia|);
    }

    /** A click on the `i`-th dot, one of which is drawn per slide. */
    method Select(i: nat)
      requires i < |shuffledMedia|
      modifies this
      ensures Valid() && OnSlide()
      ensures currentIndex == i && shuffledMedia == old(shuffledMedia)
    {
      currentIndex := i;
    }
  }
}
