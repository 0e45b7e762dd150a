/** The label-to-index maps both models build from their tag list and their
    word list: a dictionary comprehension over the enumerated labels, in which
    a later occurrence of a label overwrites an earlier one. */
module Vocab {

  predicate Distinct(labels: seq<string>)
  {
    forall i, j :: 0 <= i < j < |labels| ==> labels[i] != labels[j]
  }

  /** Every index the map hands out is below n. */
  predicate IndexInto(m: map<string, nat>, n: nat)
  {
    forall x :: x in m ==> m[x] < n
  }

  /** `{label: i for (i, label) in enumerate(labels)}`: each label is mapped to
      the last position it occupies, and the map covers exactly the labels. */
  function IndexOf(labels: seq<string>): (m: map<string, nat>)
    ensures forall x :: x in m <==> x in labels
    ensures forall x :: x in m ==> m[x] < |labels| && labels[m[x]] == x
    ensures forall x, j :: x in m && m[x] < j < |labels| ==> labels[j] != x
  {
    if labels == [] then map[]
    else IndexOf(labels[..|labels| - 1])[labels[|labels| - 1] := |labels| - 1]
  }

  /** For a duplicate-free list the map is a bijection onto [0, |labels|):
      it inverts indexing. */
  lemma IndexOfInverts(labels: seq<string>)
    requires Distinct(labels)
    ensures IndexInto(IndexOf(labels), |labels|)
    ensures forall i :: 0 <= i < |labels| ==> IndexOf(labels)[labels[i]] == i
  {
    var m := IndexOf(labels);
    forall i | 0 <= i < |labels|
      ensures m[labels[i]] == i
    {
      var k := m[labels[i]];
      assert labels[k] == labels[i];
      assert !(k < i) && !(i < k);
    }
  }
}
