/** Small facts about slicing and concatenating sequences, proved apart
    from any other context so that the proofs that use them stay cheap. */
module SeqFacts {

  lemma Assoc<T>(a: seq<T>, b: seq<T>, c: seq<T>)
    ensures a + b + c == a + (b + c)
  {
  }

  lemma Regroup<T>(a: seq<T>, b: seq<T>, c: seq<T>, d: seq<T>)
    ensures a + b + (c + d) == a + (b + c) + d
  {
  }

  /** The front element and the rest of a concatenation. */
  lemma ConsAppend<T>(a: seq<T>, b: seq<T>)
    requires a != []
    ensures (a + b)[0] == a[0] && (a + b)[1..] == a[1..] + b
  {
  }

  /** Slicing the rest of a sequence again is slicing the sequence. */
  lemma SplitAt<T>(q: seq<T>, offset: nat, i: nat)
    requires offset + i <= |q|
    ensures q[offset..][i..] == q[offset + i..]
    ensures q[..offset + i] == q[..offset] + q[offset..][..i]
  {
  }

  /** The element at j, split off the rest from j on. */
  lemma SplitFront<T>(q: seq<T>, j: nat)
    requires j < |q|
    ensures q[j..] != [] && q[j..][0] == q[j] && q[j..][1..] == q[j + 1..]
    ensures q[..j] + [q[j]] == q[..j + 1]
  {
  }

  lemma EmptyPrefix<T>(q: seq<T>)
    ensures q[..0] == [] && q[0..] == q
  {
  }

  /** A sequence cut after its first element and after n more. */
  lemma SplitHead<T>(s: seq<T>, n: nat)
    requires 1 + n <= |s|
    ensures s == [s[0]] + s[1..1 + n] + s[1 + n..]
  {
  }

  /** A sequence cut after its first two elements and after n more. */
  lemma SplitHead2<T>(s: seq<T>, x: T, n: nat)
    requires 2 + n <= |s| && s[1] == x
    ensures s == [s[0]] + [x] + s[2..2 + n] + s[2 + n..]
  {
  }

  lemma SplitFirst<T>(s: seq<T>)
    requires s != []
    ensures s == [s[0]] + s[1..]
  {
  }
}
