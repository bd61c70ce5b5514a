/** Regrouping of sequences. */
module Sequences {
  lemma FirstOfTwo<X>(a: seq<X>, b: seq<X>)
    requires a != []
    ensures (a + b)[0] == a[0] && (a + b)[1..] == a[1..] + b
  {
  }

  lemma Associative<X>(a: seq<X>, b: seq<X>, c: seq<X>)
    ensures (a + b) + c == a + (b + c)
  {
  }

  lemma SkipFirst<X>(a: seq<X>, i: nat)
    requires a != []
    ensures i < |a| ==> a[1..][i..] == a[i + 1..]
  {
  }
}
