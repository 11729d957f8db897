/** Vocabulary shared by the models: bytes, optional values, concatenation of chunks. */
module Bytes {
  newtype byte = x: int | 0 <= x < 256
  type pos = n: nat | 0 < n witness 1

  datatype Option<+T> = None | Some(value: T)

  function Min(a: int, b: int): int {
    if a <= b then a else b
  }

  /** The chunks laid end to end; unfolds from the last chunk, as logs grow there. */
  function Flatten<T>(chunks: seq<seq<T>>): seq<T> {
    if chunks == [] then [] else Flatten(chunks[..|chunks| - 1]) + chunks[|chunks| - 1]
  }

  lemma FlattenSnoc<T>(chunks: seq<seq<T>>, last: seq<T>)
    ensures Flatten(chunks + [last]) == Flatten(chunks) + last
  {
    assert (chunks + [last])[..|chunks|] == chunks;
  }

  lemma {:induction false} FlattenConcat<T>(a: seq<seq<T>>, b: seq<seq<T>>)
    ensures Flatten(a + b) == Flatten(a) + Flatten(b)
  {
    if b == [] {
      assert a + b == a;
    } else {
      var init, last := b[..|b| - 1], b[|b| - 1];
      FlattenConcat(a, init);
      assert (a + b)[..|a + b| - 1] == a + init && (a + b)[|a + b| - 1] == last;
      assert Flatten(a) + (Flatten(init) + last) == (Flatten(a) + Flatten(init)) + last;
    }
  }

  lemma FlattenCons<T>(first: seq<T>, chunks: seq<seq<T>>)
    ensures Flatten([first] + chunks) == first + Flatten(chunks)
  {
    FlattenConcat([first], chunks);
    FlattenSnoc([], first);
    assert [] + [first] == [first];
  }
}
