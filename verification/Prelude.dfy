/** Small types shared by every model. A Go string or byte slice is a Dafny
    `string` with one character per byte, so `|s|` is Go's `len(s)`. */
module Prelude {
  datatype Option<+T> = None | Some(value: T)

  datatype Result<+T, +E> = Ok(value: T) | Err(error: E)

  /** strings.Join with commas. */
  function Joined(parts: seq<string>): string {
    if parts == [] then "" else if |parts| == 1 then parts[0] else parts[0] + "," + Joined(parts[1..])
  }

  predicate Distinct<T(==)>(s: seq<T>) {
    forall i, j | 0 <= i < j < |s| :: s[i] != s[j]
  }

  /** Concatenation may be bracketed either way; Dafny needs to be told. */
  lemma Assoc<T>(a: seq<T>, b: seq<T>, c: seq<T>)
    ensures a + b + c == a + (b + c)
  {
  }

  lemma Assoc4<T>(a: seq<T>, b: seq<T>, c: seq<T>, d: seq<T>)
    ensures a + b + c + d == a + (b + (c + d))
    ensures a + (b + c) + d == a + (b + (c + d))
    ensures a + (b + c + d) == a + b + c + d
  {
  }

  /** Elements already read, put before the outcome of reading on. */
  function Prefixed<T>(done: seq<T>, rest: Option<seq<T>>): Option<seq<T>> {
    if rest.None? then None else Some(done + rest.value)
  }

  lemma PrefixedNothing<T>(rest: Option<seq<T>>)
    ensures Prefixed([], rest) == rest
  {
    if rest.Some? { assert [] + rest.value == rest.value; }
  }

  lemma PrefixedOne<T>(done: seq<T>, x: T, rest: Option<seq<T>>)
    ensures Prefixed(done + [x], rest) == Prefixed(done, if rest.None? then None else Some([x] + rest.value))
  {
    if rest.Some? { assert done + [x] + rest.value == done + ([x] + rest.value); }
  }
}
