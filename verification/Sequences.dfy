/**
 Identities of concatenation, slicing and sequence displays, stated once
 here and cited by name in the proofs about the parser, the loader and
 the analysis loop.
 */
module Sequences {

  lemma DropAppend<T>(a: seq<T>, b: seq<T>, k: nat)
    requires k <= |a|
    ensures (a + b)[k..] == a[k..] + b
  {
  }

  lemma TakeAppend<T>(a: seq<T>, b: seq<T>, d: nat)
    requires d <= |a|
    ensures (a + b)[..d] == a[..d]
  {
  }

  lemma TakeAll<T>(s: seq<T>)
    ensures s[..|s|] == s
  {
  }

  lemma AppendAssoc<T>(a: seq<T>, b: seq<T>, c: seq<T>)
    ensures (a + b) + c == a + (b + c)
  {
  }

  /** Five parts concatenated left to right, regrouped to the right after the first two. */
  lemma Regroup<T>(a: seq<T>, b: seq<T>, c: seq<T>, d: seq<T>, e: seq<T>)
    ensures a + b + c + d + e == a + (b + (c + d + e))
  {
    AppendAssoc(a + b + c, d, e);
    AppendAssoc(a + b, c, d + e);
    AppendAssoc(a, b, c + (d + e));
    AppendAssoc(c, d, e);
  }

  lemma ShiftFirst<T>(read: seq<T>, ws: seq<T>)
    requires ws != []
    ensures (read + [ws[0]]) + ws[1..] == read + ws
  {
    assert (read + [ws[0]]) + ws[1..] == read + ws;
  }

  lemma SplitLast<T>(s: seq<T>)
    requires s != []
    ensures s == s[..|s| - 1] + [s[|s| - 1]]
  {
  }

  lemma ConcatSplitLast<T>(a: seq<T>, b: seq<T>)
    requires b != []
    ensures a + b == (a + b[..|b| - 1]) + [b[|b| - 1]]
  {
  }

  lemma Displays<T>(a: T, b: T, c: T, d: T)
    ensures [] + [a] == [a]
    ensures [a] + [b] == [a, b]
    ensures [a, b] + [c] == [a, b, c]
    ensures [a, b, c] + [d] == [a, b, c, d]
  {
  }
}
