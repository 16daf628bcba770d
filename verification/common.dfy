/** Small shared vocabulary: an optional value (the model of a possibly-null
    owning pointer), the C++ `int` type, and a fact about sequences. */
module Wrappers {

  /** A value that may be absent: `None` stands for a null `unique_ptr`. */
  datatype Option<+T> = None | Some(value: T)
}

module Ints {

  /** The C++ `int` of the demos, taken to be 32 bits wide. No operation of the
      model does arithmetic on it, so only its range matters. */
  newtype int32 = x: int | -0x8000_0000 <= x < 0x8000_0000
}

module Seqs {

  /** Sequence concatenation regroups freely. */
  lemma ConcatAssoc<T>(a: seq<T>, b: seq<T>, c: seq<T>)
    ensures (a + b) + c == a + (b + c)
  {
  }
}
