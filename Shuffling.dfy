/** The Fisher–Yates shuffle both versions of the game logic use
    (server/utils/gameLogic.js:62-70 and oldies/gameLogic.js:47-54). Both walk a position
    `i` from the last index downwards and swap `a[i]` with `a[j]` for a random `j <= i`;
    the random choices are a parameter, `draws[t]` being the one made at step `t`. */
module Shuffling {
  import opened Common

  /** `s` with positions `i` and `j` exchanged (the destructuring swap). */
  function Swap<T>(s: seq<T>, i: nat, j: nat): (r: seq<T>)
    requires i < |s| && j < |s|
    ensures |r| == |s| && r[i] == s[j] && r[j] == s[i]
  {
    s[i := s[j]][j := s[i]]
  }

  /** Nothing but the two positions moves. */
  lemma SwapKeepsOthers<T>(s: seq<T>, i: nat, j: nat)
    requires i < |s| && j < |s|
    ensures forall k :: 0 <= k < |s| && k != i && k != j ==> Swap(s, i, j)[k] == s[k]
  {
  }

  lemma SwapPermutes<T>(s: seq<T>, i: nat, j: nat)
    requires i < |s| && j < |s|
    ensures multiset(Swap(s, i, j)) == multiset(s)
  {
  }

  /** The random indices of `steps` steps over `n` elements are in range: step `t`
      works on position `n - 1 - t`, so it may pick any index up to that one. */
  predicate ValidDraws(n: nat, draws: seq<nat>, steps: nat) {
    steps <= n && steps <= |draws| && forall t :: 0 <= t < steps ==> draws[t] < n - t
  }

  /** The sequence after the first `steps` swaps. */
  function FisherYates<T>(s: seq<T>, draws: seq<nat>, steps: nat): (r: seq<T>)
    requires ValidDraws(|s|, draws, steps)
    ensures |r| == |s|
    decreases steps
  {
    if steps == 0 then s
    else Swap(FisherYates(s, draws, steps - 1), |s| - steps, draws[steps - 1])
  }

  /** Any number of steps gives a permutation of the input. */
  lemma {:induction false} FisherYatesPermutes<T>(s: seq<T>, draws: seq<nat>, steps: nat)
    requires ValidDraws(|s|, draws, steps)
    ensures multiset(FisherYates(s, draws, steps)) == multiset(s)
    decreases steps
  {
    if steps > 0 {
      var prev := FisherYates(s, draws, steps - 1);
      var next := Swap(prev, |s| - steps, draws[steps - 1]);
      assert FisherYates(s, draws, steps) == next;
      FisherYatesPermutes(s, draws, steps - 1);
      SwapPermutes(prev, |s| - steps, draws[steps - 1]);
      assert multiset(next) == multiset(prev) == multiset(s);
    }
  }

  /** Exchanging two positions keeps a sequence free of repeats. */
  lemma SwapKeepsDistinct<T>(s: seq<T>, i: nat, j: nat)
    requires i < |s| && j < |s| && Distinct(s)
    ensures Distinct(Swap(s, i, j))
  {
    var r := Swap(s, i, j);
    SwapKeepsOthers(s, i, j);
    forall a, b | 0 <= a < b < |s|
      ensures r[a] != r[b]
    {
      var a' := if a == i then j else if a == j then i else a;
      var b' := if b == i then j else if b == j then i else b;
      assert r[a] == s[a'] && r[b] == s[b'] && a' != b';
    }
  }

  /** A shuffle of distinct elements has distinct elements. */
  lemma {:induction false} FisherYatesKeepsDistinct<T>(s: seq<T>, draws: seq<nat>, steps: nat)
    requires ValidDraws(|s|, draws, steps) && Distinct(s)
    ensures Distinct(FisherYates(s, draws, steps))
    decreases steps
  {
    if steps > 0 {
      FisherYatesKeepsDistinct(s, draws, steps - 1);
      SwapKeepsDistinct(FisherYates(s, draws, steps - 1), |s| - steps, draws[steps - 1]);
    }
  }

  /** Draws valid for some steps are valid for fewer. */
  lemma ValidDrawsPrefix(n: nat, draws: seq<nat>, steps: nat, fewer: nat)
    requires ValidDraws(n, draws, steps) && fewer <= steps
    ensures ValidDraws(n, draws, fewer)
  {
  }

  /** The server's loop makes one more step than the draft's, at position 0, where the
      only index it can draw is 0; so for the same draws both produce the same order. */
  lemma LastStepIsIdentity<T>(s: seq<T>, draws: seq<nat>)
    requires |s| > 0 && ValidDraws(|s|, draws, |s|)
    ensures FisherYates(s, draws, |s|) == FisherYates(s, draws, |s| - 1)
  {
    var prev := FisherYates(s, draws, |s| - 1);
    assert draws[|s| - 1] == 0;
    assert Swap(prev, 0, 0) == prev;
  }

  /** `[a[i], a[j]] = [a[j], a[i]]` */
  method SwapElements<T>(a: array<T>, i: nat, j: nat)
    requires i < a.Length && j < a.Length
    modifies a
    ensures a[..] == Swap(old(a[..]), i, j)
  {
    var t := a[i];
    a[i] := a[j];
    a[j] := t;
  }

  /** Step `t` of the shuffle on an array holding the order after `t` steps: the swap of
      position `i`, the one step `t` works on, with the drawn index `j`. */
  method SwapStep<T>(a: array<T>, ghost s: seq<T>, draws: seq<nat>, ghost t: nat, i: nat, j: nat)
    requires |s| == a.Length && ValidDraws(a.Length, draws, t + 1)
    requires i == a.Length - 1 - t && j == draws[t]
    requires a[..] == FisherYates(s, draws, t)
    modifies a
    ensures a[..] == FisherYates(s, draws, t + 1)
  {
    SwapElements(a, i, j);
  }

  /** The server's loop: `currentIndex` from the length down to 1, swapping position
      `currentIndex - 1`. */
  method ServerLoop<T>(a: array<T>, draws: seq<nat>)
    requires ValidDraws(a.Length, draws, a.Length)
    modifies a
    ensures a[..] == FisherYates(old(a[..]), draws, a.Length)
  {
    ghost var s := a[..];
    var currentIndex := a.Length;
    ghost var t: nat := 0;
    while currentIndex != 0
      decreases currentIndex
      invariant t <= a.Length && currentIndex == a.Length - t
      invariant ValidDraws(a.Length, draws, t)
      invariant a[..] == FisherYates(s, draws, t)
    {
      ValidDrawsPrefix(a.Length, draws, a.Length, t + 1);
      // Math.floor(Math.random() * currentIndex), taken from the draws.
      var randomIndex := draws[a.Length - currentIndex];
      currentIndex := currentIndex - 1;
      SwapStep(a, s, draws, t, currentIndex, randomIndex);
      t := t + 1;
    }
  }

  /** server/utils/gameLogic.js `shuffleArray`: shuffles in place and returns the same array. */
  method ShuffleInPlace<T>(a: array<T>, draws: seq<nat>) returns (b: array<T>)
    requires ValidDraws(a.Length, draws, a.Length)
    modifies a
    ensures b == a
    ensures a[..] == FisherYates(old(a[..]), draws, a.Length)
    ensures multiset(a[..]) == multiset(old(a[..]))
  {
    ServerLoop(a, draws);
    FisherYatesPermutes(old(a[..]), draws, a.Length);
    b := a;
  }

  /** Number of swaps the draft's loop makes: one per index from the last down to 1. */
  function DraftSteps(n: nat): (k: nat)
    ensures k <= n && (n > 0 ==> k == n - 1)
  {
    if n == 0 then 0 else n - 1
  }

  /** The draft's loop, on the copy: `i` from the last index down to 1. */
  method DraftLoop<T>(b: array<T>, draws: seq<nat>)
    requires ValidDraws(b.Length, draws, DraftSteps(b.Length))
    modifies b
    ensures b[..] == FisherYates(old(b[..]), draws, DraftSteps(b.Length))
  {
    ghost var s := b[..];
    var i := b.Length - 1;
    ghost var t: nat := 0;
    while i > 0
      invariant t <= DraftSteps(b.Length) && i == b.Length - 1 - t
      invariant ValidDraws(b.Length, draws, t)
      invariant b[..] == FisherYates(s, draws, t)
    {
      ValidDrawsPrefix(b.Length, draws, DraftSteps(b.Length), t + 1);
      // Math.floor(Math.random() * (i + 1)), taken from the draws.
      var j := draws[b.Length - 1 - i];
      SwapStep(b, s, draws, t, i, j);
      i := i - 1;
      t := t + 1;
    }
  }

  /** oldies/gameLogic.js `shuffleArray`: shuffles a copy and leaves its argument alone. */
  method ShuffleCopy<T>(a: array<T>, draws: seq<nat>) returns (b: array<T>)
    requires ValidDraws(a.Length, draws, DraftSteps(a.Length))
    ensures fresh(b)
    ensures b[..] == FisherYates(a[..], draws, DraftSteps(a.Length))
    ensures multiset(b[..]) == multiset(a[..])
  {
    b := new T[a.Length](k requires 0 <= k < a.Length reads a => a[k]);
    assert b[..] == a[..];
    DraftLoop(b, draws);
    FisherYatesPermutes(a[..], draws, DraftSteps(a.Length));
  }
}
