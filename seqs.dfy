/** Generic facts about sequences used by the traversal and search models. */
module Seqs {

  /** The concatenation of a sequence of sequences, in order (Python's repeated `extend`). */
  function Concat<T>(ss: seq<seq<T>>): seq<T>
  {
    if ss == [] then [] else Concat(ss[..|ss| - 1]) + ss[|ss| - 1]
  }

  /** No element occurs twice. */
  ghost predicate NoDups<T>(s: seq<T>)
  {
    forall i, j :: 0 <= i < j < |s| ==> s[i] != s[j]
  }

  lemma {:induction false} ConcatAppend<T>(a: seq<seq<T>>, b: seq<seq<T>>)
    ensures Concat(a + b) == Concat(a) + Concat(b)
    decreases |b|
  {
    if b == [] {
      assert a + b == a;
    } else {
      var b' := b[..|b| - 1];
      var x := b[|b| - 1];
      assert (a + b)[..|a + b| - 1] == a + b';
      assert (a + b)[|a + b| - 1] == x;
      ConcatAppend(a, b');
      calc {
        Concat(a + b);
        Concat(a + b') + x;
        (Concat(a) + Concat(b')) + x;
        Concat(a) + (Concat(b') + x);
        Concat(a) + Concat(b);
      }
    }
  }

  lemma ConcatSingle<T>(s: seq<T>)
    ensures Concat([s]) == s
  {
    assert [s][..0] == [];
  }

  /** Concatenating a prefix of the pieces gives a prefix of the whole. */
  lemma ConcatPrefix<T>(ss: seq<seq<T>>, m: nat)
    requires m <= |ss|
    ensures Concat(ss) == Concat(ss[..m]) + Concat(ss[m..])
  {
    assert ss == ss[..m] + ss[m..];
    ConcatAppend(ss[..m], ss[m..]);
  }

  /** One more piece extends the concatenation by exactly that piece. */
  lemma ConcatStep<T>(ss: seq<seq<T>>, m: nat)
    requires m < |ss|
    ensures Concat(ss[..m + 1]) == Concat(ss[..m]) + ss[m]
  {
    assert ss[..m + 1][..m] == ss[..m];
  }

  lemma SliceAppend<T>(a: seq<T>, b: seq<T>, n: nat)
    requires n <= |a|
    ensures (a + b)[n..] == a[n..] + b
  {
  }
}
