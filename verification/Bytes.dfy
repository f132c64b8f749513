/**
 Machine integers, byte buffers and the byte orders used by the network stack,
 plus the outcome of an operation that may report an error or panic.
 */
module Bytes {
  import Bits

  type u8 = x: int | 0 <= x < 0x100
  type u16 = x: int | 0 <= x < 0x1_0000
  type u32 = x: int | 0 <= x < 0x1_0000_0000
  type u64 = x: int | 0 <= x < 0x1_0000_0000_0000_0000

  datatype Option<+T> = None | Some(value: T)

  /** `Panic` is a Rust panic: it ends the thread that runs the operation. */
  datatype Outcome<+T> = Ok(value: T) | Err | Panic

  function Get<K, V>(m: map<K, V>, k: K): (r: Option<V>)
  {
    if k in m then Some(m[k]) else None
  }

  //
  // Big endian
  //

  function Be16At(s: seq<u8>, i: nat): (r: u16)
    requires i + 2 <= |s|
  {
    s[i] as int * 0x100 + s[i + 1]
  }

  function Be32At(s: seq<u8>, i: nat): (r: u32)
    requires i + 4 <= |s|
  {
    Be16At(s, i) as int * 0x1_0000 + Be16At(s, i + 2)
  }

  function ToBe16(x: u16): (r: seq<u8>)
    ensures |r| == 2 && Be16At(r, 0) == x
  {
    [x / 0x100, x % 0x100]
  }

  function ToBe32(x: u32): (r: seq<u8>)
    ensures |r| == 4 && Be32At(r, 0) == x
  {
    ToBe16(x / 0x1_0000) + ToBe16(x % 0x1_0000)
  }

  lemma Be16Injective(s: seq<u8>, i: nat, t: seq<u8>, j: nat)
    requires i + 2 <= |s| && j + 2 <= |t|
    requires Be16At(s, i) == Be16At(t, j)
    ensures s[i] == t[j] && s[i + 1] == t[j + 1]
  {
  }

  lemma ToBe16Of(s: seq<u8>, i: nat)
    requires i + 2 <= |s|
    ensures ToBe16(Be16At(s, i)) == s[i..i + 2]
  {
  }

  lemma ToBe32Of(s: seq<u8>, i: nat)
    requires i + 4 <= |s|
    ensures ToBe32(Be32At(s, i)) == s[i..i + 4]
  {
    ToBe16Of(s, i);
    ToBe16Of(s, i + 2);
    assert s[i..i + 4] == s[i..i + 2] + s[i + 2..i + 4];
  }

  //
  // Little endian, any width
  //

  function Pow256(n: nat): (r: nat)
    ensures r >= 1
  {
    if n == 0 then 1 else 0x100 * Pow256(n - 1)
  }

  function FromLe(s: seq<u8>): (r: nat)
    ensures r < Pow256(|s|)
  {
    if |s| == 0 then 0 else s[0] as int + 0x100 * FromLe(s[1..])
  }

  function ToLe(x: nat, n: nat): (r: seq<u8>)
    ensures |r| == n
  {
    if n == 0 then [] else [x % 0x100] + ToLe(x / 0x100, n - 1)
  }

  /** Writing keeps the low `n` bytes of the number; reading gives them back. */
  lemma {:induction false} LeRoundTrip(x: nat, n: nat)
    ensures FromLe(ToLe(x, n)) == x % Pow256(n)
  {
    if n > 0 {
      var p := Pow256(n - 1);
      LeRoundTrip(x / 0x100, n - 1);
      assert ToLe(x, n)[1..] == ToLe(x / 0x100, n - 1);
      ModSplit(x, p);
    }
  }

  lemma ModSplit(x: nat, p: nat)
    requires p > 0
    ensures x % (0x100 * p) == x % 0x100 + 0x100 * ((x / 0x100) % p)
  {
    var q := (x / 0x100) / p;
    var r := (x / 0x100) % p;
    assert x / 0x100 == q * p + r;
    assert x == 0x100 * (q * p + r) + x % 0x100;
    assert x == q * (0x100 * p) + (0x100 * r + x % 0x100);
    Bits.QuotientIs(x, 0x100 * p, q, 0x100 * r + x % 0x100);
  }

  //
  // Overwriting part of a buffer
  //

  function Splice(s: seq<u8>, i: nat, t: seq<u8>): (r: seq<u8>)
    requires i + |t| <= |s|
    ensures |r| == |s|
    ensures forall k :: 0 <= k < |s| ==> r[k] == if i <= k < i + |t| then t[k - i] else s[k]
  {
    s[..i] + t + s[i + |t|..]
  }

  function Zeros(n: nat): (r: seq<u8>)
    ensures |r| == n && forall k :: 0 <= k < n ==> r[k] == 0
  {
    seq(n, _ => 0)
  }
}
