/** Concatenating a list of sequences, and the facts about it the run lemmas use. */
module Seqs {

  /** The parts concatenated in order. */
  function Flatten<T>(parts: seq<seq<T>>): seq<T>
  {
    if parts == [] then [] else Flatten(parts[..|parts| - 1]) + parts[|parts| - 1]
  }

  /** Flattening one-element parts lists their elements in order. */
  lemma {:induction false} FlattenSingletons<T>(parts: seq<seq<T>>)
    requires forall i :: 0 <= i < |parts| ==> |parts[i]| == 1
    ensures |Flatten(parts)| == |parts|
    ensures forall i :: 0 <= i < |parts| ==> Flatten(parts)[i] == parts[i][0]
  {
    if parts != [] {
      var init := parts[..|parts| - 1];
      FlattenSingletons(init);
      assert forall i :: 0 <= i < |init| ==> Flatten(parts)[i] == Flatten(init)[i];
    }
  }

  /** Parts with at most one element each flatten to no more elements than there are parts. */
  lemma {:induction false} FlattenSmall<T>(parts: seq<seq<T>>)
    requires forall i :: 0 <= i < |parts| ==> |parts[i]| <= 1
    ensures |Flatten(parts)| <= |parts|
  {
    if parts != [] {
      FlattenSmall(parts[..|parts| - 1]);
    }
  }

  /** Empty parts flatten to the empty sequence. */
  lemma {:induction false} FlattenEmpty<T>(parts: seq<seq<T>>)
    requires forall i :: 0 <= i < |parts| ==> parts[i] == []
    ensures Flatten(parts) == []
  {
    if parts != [] {
      FlattenEmpty(parts[..|parts| - 1]);
    }
  }

  /** Flattening a prefix one part longer appends that part. */
  lemma FlattenPrefix<T>(parts: seq<seq<T>>, k: nat)
    requires k < |parts|
    ensures Flatten(parts[..k + 1]) == Flatten(parts[..k]) + parts[k]
  {
    assert parts[..k + 1][..k] == parts[..k];
  }
}
