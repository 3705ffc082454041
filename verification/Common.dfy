/** What several components use: optional values, bytes, sequences put together. */
module Options {
  datatype Option<+T> = None | Some(value: T)

  function Prepend<T>(x: Option<T>, xs: Option<seq<T>>): Option<seq<T>> {
    if x.Some? && xs.Some? then Some([x.value] + xs.value) else None
  }
}

module Streams {
  type Byte = x: int | 0 <= x < 256

  type Bytes = seq<Byte>

  lemma Associate<T>(a: seq<T>, b: seq<T>, c: seq<T>)
    ensures (a + b) + c == a + (b + c)
  {
  }
}
