/** Types shared by every component: optional results, and the hashes that name
    blocks, transactions and tickets. */
module Common {

  datatype Option<+T> = None | Some(value: T)

  /** A chainhash.Hash, of which only equality matters. */
  datatype Hash = Hash(id: nat)

  /** The Go zero value of a hash; the genesis block's PrevBlock. */
  const ZERO_HASH := Hash(0)

  function Elems<T>(s: seq<T>): set<T> {
    set x | x in s
  }

  ghost predicate NoDup<T>(s: seq<T>) {
    forall i, j :: 0 <= i < j < |s| ==> s[i] != s[j]
  }

  lemma ElemsSnoc<T>(s: seq<T>)
    requires s != []
    ensures Elems(s) == Elems(s[..|s| - 1]) + {s[|s| - 1]}
  {
    assert s == s[..|s| - 1] + [s[|s| - 1]];
  }

  lemma ElemsConcat<T>(a: seq<T>, b: seq<T>)
    ensures Elems(a + b) == Elems(a) + Elems(b)
  {
  }

  /** A sequence never has fewer elements than distinct elements, and has as many
      exactly when it is free of duplicates. */
  lemma {:induction false} ElemsSize<T>(s: seq<T>)
    ensures |Elems(s)| <= |s|
    ensures |Elems(s)| == |s| <==> NoDup(s)
  {
    if s != [] {
      var init, last := s[..|s| - 1], s[|s| - 1];
      ElemsSize(init);
      ElemsSnoc(s);
      assert NoDup(s) <==> NoDup(init) && last !in Elems(init) by {
        assert forall i :: 0 <= i < |init| ==> init[i] == s[i];
        if last in Elems(init) {
          var i :| 0 <= i < |init| && init[i] == last;
          assert s[i] == s[|s| - 1];
        }
      }
    }
  }
}
