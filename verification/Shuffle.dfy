/** `system__randomize_array`: repeatedly printing and removing the element at a
    random index. */
module Shuffle {
  // The k-th call of the random source yields draws(k).
  type Draws = nat -> nat

  const RANDOM_LIMIT: nat := 32768

  function Without<T>(s: seq<T>, i: nat): seq<T>
    requires i < |s|
  {
    s[..i] + s[i + 1..]
  }

  function Shuffled<T>(s: seq<T>, draws: Draws, k: nat): seq<T>
    decreases |s|
  {
    if s == [] then [] else
      var i := draws(k) % |s|;
      [s[i]] + Shuffled(Without(s, i), draws, k + 1)
  }

  method RandomizeArray<T>(s: seq<T>, draws: Draws) returns (printed: seq<T>)
    ensures printed == Shuffled(s, draws, 0)
  {
    printed := [];
    var copy, calls := s, 0;
    while |copy| > 0
      invariant Shuffled(s, draws, 0) == printed + Shuffled(copy, draws, calls)
      decreases |copy|
    {
      var index := draws(calls) % |copy|;
      ghost var rest := Shuffled(Without(copy, index), draws, calls + 1);
      assert printed + ([copy[index]] + rest) == printed + [copy[index]] + rest;
      printed := printed + [copy[index]];
      copy, calls := copy[..index] + copy[index + 1..], calls + 1;
    }
  }

  // The elements of s under a function, as a bag.
  function Image<T, U>(s: seq<T>, f: T -> U): seq<U> {
    seq(|s|, i requires 0 <= i < |s| => f(s[i]))
  }

  lemma ImageWithout<T, U>(s: seq<T>, i: nat, f: T -> U)
    requires i < |s|
    ensures multiset(Image(s, f)) == multiset{f(s[i])} + multiset(Image(Without(s, i), f))
  {
    var front, back := s[..i], s[i + 1..];
    assert s == front + [s[i]] + back;
    assert Image(s, f) == Image(front, f) + [f(s[i])] + Image(back, f);
    assert Image(Without(s, i), f) == Image(front, f) + Image(back, f);
  }

  // Shuffling keeps the bag of images under any function.
  lemma {:induction false} ShuffledImage<T, U>(s: seq<T>, draws: Draws, k: nat, f: T -> U)
    ensures multiset(Image(Shuffled(s, draws, k), f)) == multiset(Image(s, f))
    decreases |s|
  {
    if s != [] {
      var i := draws(k) % |s|;
      var rest := Shuffled(Without(s, i), draws, k + 1);
      ShuffledImage(Without(s, i), draws, k + 1, f);
      ImageWithout(s, i, f);
      assert Image([s[i]] + rest, f) == [f(s[i])] + Image(rest, f);
    }
  }

  // In particular it terminates with a permutation, for any random source.
  lemma ShuffledIsPermutation<T>(s: seq<T>, draws: Draws, k: nat)
    ensures multiset(Shuffled(s, draws, k)) == multiset(s)
  {
    var same := (x: T) => x;
    ShuffledImage(s, draws, k, same);
    assert Image(s, same) == s && Image(Shuffled(s, draws, k), same) == Shuffled(s, draws, k);
  }

  lemma WithoutBag<T>(s: seq<T>, i: nat)
    requires i < |s|
    ensures multiset(Without(s, i)) == multiset(s) - multiset{s[i]}
  {
    assert s == s[..i] + [s[i]] + s[i + 1..];
  }

  function Prepend(k: nat, i: nat, later: Draws): Draws {
    n => if n == k then i else later(n)
  }

  lemma DrawFirst<T>(s: seq<T>, i: nat, later: Draws, k: nat)
    requires i < |s|
    ensures Shuffled(s, Prepend(k, i, later), k) == [s[i]] + Shuffled(Without(s, i), later, k + 1)
  {
    var draws := Prepend(k, i, later);
    SmallModulo(i, |s|);
    assert draws(k) == i;
    ShuffledOnce(s, draws, k);
    hide Shuffled, Prepend;
    SameDraws(Without(s, i), draws, later, k + 1);
  }

  lemma SmallModulo(i: nat, n: nat)
    requires i < n
    ensures i % n == i
  {
  }

  lemma ShuffledOnce<T>(s: seq<T>, draws: Draws, k: nat)
    requires s != []
    ensures var i := draws(k) % |s|;
            Shuffled(s, draws, k) == [s[i]] + Shuffled(Without(s, i), draws, k + 1)
  {
  }

  // Conversely, up to the range of the source, every permutation can come out.
  lemma {:induction false} EveryPermutationIsPossible<T>(s: seq<T>, target: seq<T>, k: nat) returns (draws: Draws)
    requires multiset(target) == multiset(s) && |s| <= RANDOM_LIMIT
    ensures Shuffled(s, draws, k) == target && forall n :: draws(n) < RANDOM_LIMIT
    decreases |s|
  {
    assert |multiset(target)| == |target| && |multiset(s)| == |s|;
    draws := n => 0;
    if s != [] {
      hide Shuffled;
      assert target[0] in multiset(s);
      var i :| 0 <= i < |s| && s[i] == target[0];
      WithoutBag(s, i);
      WithoutBag(target, 0);
      assert Without(target, 0) == target[1..];
      var later := EveryPermutationIsPossible(Without(s, i), target[1..], k + 1);
      draws := Prepend(k, i, later);
      DrawFirst(s, i, later, k);
      assert target == [target[0]] + target[1..];
    }
  }

  lemma {:induction false} SameDraws<T>(s: seq<T>, d: Draws, e: Draws, k: nat)
    requires forall n :: n >= k ==> d(n) == e(n)
    ensures Shuffled(s, d, k) == Shuffled(s, e, k)
    decreases |s|
  {
    if s != [] {
      hide Without;
      SameDraws(Without(s, d(k) % |s|), d, e, k + 1);
    }
  }
}
