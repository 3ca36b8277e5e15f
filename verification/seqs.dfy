/**
 * Sequence folds shared by the evaluators: concatenating a list of parts,
 * and counting the parts that are not empty.
 */
module Seqs {

  /** The concatenation of the parts, in order. */
  function Flatten<T>(parts: seq<seq<T>>): seq<T>
    decreases |parts|
  {
    if parts == [] then []
    else Flatten(parts[..|parts| - 1]) + parts[|parts| - 1]
  }

  /** The number of parts that are not empty. */
  function CountNonEmpty<T>(parts: seq<seq<T>>): nat
    decreases |parts|
  {
    if parts == [] then 0
    else CountNonEmpty(parts[..|parts| - 1]) + (if parts[|parts| - 1] == [] then 0 else 1)
  }

  lemma {:induction false} FlattenAppend<T>(a: seq<seq<T>>, b: seq<seq<T>>)
    ensures Flatten(a + b) == Flatten(a) + Flatten(b)
    decreases |b|
  {
    if b == [] {
      assert a + b == a;
    } else {
      var b', last := b[..|b| - 1], b[|b| - 1];
      assert (a + b)[..|a + b| - 1] == a + b' && (a + b)[|a + b| - 1] == last;
      FlattenAppend(a, b');
      var x, y := Flatten(a), Flatten(b');
      assert (x + y) + last == x + (y + last);
    }
  }

  /** Nothing is flattened exactly when every part is empty. */
  lemma {:induction false} FlattenEmptyIff<T>(parts: seq<seq<T>>)
    ensures Flatten(parts) == [] <==> forall i :: 0 <= i < |parts| ==> parts[i] == []
    decreases |parts|
  {
    if parts != [] {
      var init := parts[..|parts| - 1];
      FlattenEmptyIff(init);
      assert forall i :: 0 <= i < |init| ==> init[i] == parts[i];
    }
  }

  /** Every element of every part is in the concatenation, and the
      concatenation is at least as long as the number of non-empty parts. */
  lemma {:induction false} FlattenKeepsParts<T>(parts: seq<seq<T>>)
    ensures |Flatten(parts)| >= CountNonEmpty(parts)
    ensures forall i, x :: 0 <= i < |parts| && x in parts[i] ==> x in Flatten(parts)
    decreases |parts|
  {
    if parts != [] {
      var init := parts[..|parts| - 1];
      FlattenKeepsParts(init);
      assert forall i :: 0 <= i < |init| ==> init[i] == parts[i];
    }
  }

  /** Every element of the concatenation comes from some part. */
  lemma {:induction false} FlattenFromParts<T>(parts: seq<seq<T>>)
    ensures forall x :: x in Flatten(parts) ==> exists i :: 0 <= i < |parts| && x in parts[i]
    decreases |parts|
  {
    if parts != [] {
      var init := parts[..|parts| - 1];
      FlattenFromParts(init);
      assert forall i :: 0 <= i < |init| ==> init[i] == parts[i];
    }
  }

  /** One more part extends the concatenation of a prefix by that part. */
  lemma FlattenPrefixStep<T>(parts: seq<seq<T>>, i: nat)
    requires i < |parts|
    ensures Flatten(parts[..i + 1]) == Flatten(parts[..i]) + parts[i]
  {
    assert parts[..i + 1][..i] == parts[..i];
  }

  /** The whole concatenation starts with the concatenation of any prefix. */
  lemma FlattenPrefix<T>(parts: seq<seq<T>>, i: nat)
    requires i <= |parts|
    ensures Flatten(parts) == Flatten(parts[..i]) + Flatten(parts[i..])
  {
    FlattenAppend(parts[..i], parts[i..]);
    assert parts[..i] + parts[i..] == parts;
  }
}
