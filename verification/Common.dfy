// Vocabulary shared by the models of the different source files.

module Common {

  newtype byte = b: int | 0 <= b < 256

  // A NUL-terminated string: its bytes before the NUL.
  type cstring = s: seq<byte> | forall i :: 0 <= i < |s| ==> s[i] != 0 witness []

  datatype Option<+T> = None | Some(value: T)

  function Min(a: nat, b: nat): (m: nat)
    ensures m <= a && m <= b && (m == a || m == b)
  {
    if a <= b then a else b
  }

  // The concatenation of a sequence of sequences.
  function Flatten<T>(parts: seq<seq<T>>): seq<T> {
    if parts == [] then [] else parts[0] + Flatten(parts[1..])
  }

  lemma {:induction false} FlattenConcat<T>(a: seq<seq<T>>, b: seq<seq<T>>)
    ensures Flatten(a + b) == Flatten(a) + Flatten(b)
  {
    if a == [] {
      assert a + b == b;
    } else {
      assert (a + b)[1..] == a[1..] + b;
      FlattenConcat(a[1..], b);
    }
  }

  lemma {:induction false} FlattenSnoc<T>(a: seq<seq<T>>, last: seq<T>)
    ensures Flatten(a + [last]) == Flatten(a) + last
  {
    FlattenConcat(a, [last]);
    assert Flatten([last]) == last + Flatten([]);
  }

  // Taking a sequence of sequences apart at its last element.
  lemma {:induction false} FlattenLast<T>(a: seq<seq<T>>)
    requires a != []
    ensures Flatten(a) == Flatten(a[..|a| - 1]) + a[|a| - 1]
  {
    assert a == a[..|a| - 1] + [a[|a| - 1]];
    FlattenSnoc(a[..|a| - 1], a[|a| - 1]);
  }

  lemma {:induction false} FlattenBound<T>(a: seq<seq<T>>, size: nat)
    requires forall i :: 0 <= i < |a| ==> |a[i]| <= size
    ensures |Flatten(a)| <= |a| * size
  {
    if a != [] {
      FlattenBound(a[1..], size);
      assert |a| * size == size + |a[1..]| * size;
    }
  }
}
