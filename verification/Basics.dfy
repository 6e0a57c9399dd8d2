/** Values that may be absent, `usize` sums, and taking and dropping prefixes of sequences. */
module Basics {

  datatype Option<+T> = None | Some(value: T)

  const USIZE_MAX: nat := 0xFFFF_FFFF_FFFF_FFFF

  type Usize = n: nat | n <= USIZE_MAX

  function SaturatingAdd(a: nat, b: nat): Usize {
    if a + b > USIZE_MAX then USIZE_MAX else a + b
  }

  function Min(a: nat, b: nat): nat {
    if a <= b then a else b
  }

  function Take<T>(s: seq<T>, k: nat): seq<T> {
    s[..Min(k, |s|)]
  }

  lemma Regroup<T>(a: seq<T>, b: seq<T>, c: seq<T>)
    ensures (a + b) + c == a + (b + c)
  {
  }

  function Drop<T>(s: seq<T>, k: nat): seq<T> {
    s[Min(k, |s|)..]
  }
}
