/** Physical memory as a function of the address, and buffers seen through it. */
module Physical {
  import opened Layout
  import opened Bytes

  type Memory = int -> Byte

  function Zeroed(mem: Memory, lo: int, hi: int): Memory {
    a => if lo <= a < hi then 0 else mem(a)
  }

  function Stored(mem: Memory, at: int, data: Bytes): Memory {
    a => if at <= a < at + |data| then data[a - at] else mem(a)
  }

  function Window(mem: Memory, base: int, len: nat): (r: Bytes)
    ensures |r| == len && forall i :: 0 <= i < len ==> r[i] == mem(base + i)
  {
    seq(len, i => mem(base + i))
  }

  function Load64(mem: Memory, at: int): nat {
    FromLe(Window(mem, at, 8))
  }

  lemma {:induction false} LoadIsGet(mem: Memory, base: int, page: Bytes, at: nat)
    requires page == Window(mem, base, |page|) && Fits(page, at, 8)
    ensures Load64(mem, base + at) == Get64(page, at)
  {
    assert Window(mem, base + at, 8) == page[at..at + 8];
  }

  /** Memory seen through a window changes as a buffer does. */
  lemma {:induction false} WindowStored(mem: Memory, base: int, at: nat, data: Bytes)
    requires at + |data| <= PAGE
    ensures Window(Stored(mem, base + at, data), base, PAGE) == Splice(Window(mem, base, PAGE), at, data)
  {
  }

  lemma {:induction false} LoadStored(mem: Memory, at: int, n: U64)
    ensures Load64(Stored(mem, at, Le(n, 8)), at) == n
  {
    assert Window(Stored(mem, at, Le(n, 8)), at, 8) == Le(n, 8);
    LeRoundTrip64(n);
  }

  function Load32(mem: Memory, at: int): nat {
    FromLe(Window(mem, at, 4))
  }

  lemma {:induction false} Load32IsGet(mem: Memory, base: int, page: Bytes, at: nat)
    requires page == Window(mem, base, |page|) && Fits(page, at, 4)
    ensures Load32(mem, base + at) == Get32(page, at)
  {
    assert Window(mem, base + at, 4) == page[at..at + 4];
  }

  /** These bytes lie at this address. */
  ghost predicate Lies(mem: Memory, base: int, data: Bytes) {
    forall i :: 0 <= i < |data| ==> mem(base + i) == data[i]
  }

  method AnyMemory() returns (m: Memory) {
    m := *;
  }

  /** Any value at all, where the model does not fix one. */
  method AnyU64() returns (n: U64) {
    n := *;
  }
}
