/**
 Payload masking (section 5.3 of RFC 6455): bytewise XOR with the repeating
 4-byte key, and the in-place loop that does eight bytes per word.
 */
module FrameMask {

  type byte = b: int | 0 <= b < 256

  // ---------- XOR by binary digits ----------

  function Xor(a: nat, b: nat): nat
    decreases a + b
  {
    if a == 0 && b == 0 then 0 else (a + b) % 2 + 2 * Xor(a / 2, b / 2)
  }

  lemma ParityBack(a: nat, b: nat, h: nat, x: nat)
    requires x == (a + b) % 2 + 2 * h
    ensures x / 2 == h && (x + b) % 2 == a % 2
  {
  }

  lemma {:induction false} XorInvolutive(a: nat, b: nat)
    ensures Xor(Xor(a, b), b) == a
    decreases a + b
  {
    if a != 0 || b != 0 {
      XorInvolutive(a / 2, b / 2);
      var x := Xor(a, b);
      XorUnfold(a, b);
      ParityBack(a, b, Xor(a / 2, b / 2), x);
      XorUnfold(x, b);
    }
  }

  lemma XorUnfold(a: nat, b: nat)
    ensures Xor(a, b) == (a + b) % 2 + 2 * Xor(a / 2, b / 2)
  {
  }

  /** Binary digit `i` of `n`. */
  predicate Bit(n: nat, i: nat)
  {
    if i == 0 then n % 2 == 1 else Bit(n / 2, i - 1)
  }

  /** Digit by digit it is exclusive or. */
  lemma {:induction false} XorBits(a: nat, b: nat, i: nat)
    ensures Bit(Xor(a, b), i) <==> Bit(a, i) != Bit(b, i)
    decreases i
  {
    var h := Xor(a / 2, b / 2);
    XorUnfold(a, b);
    ParityBack(a, b, h, Xor(a, b));
    if i == 0 {
      ParityOf(a, b, h, Xor(a, b));
    } else {
      XorBits(a / 2, b / 2, i - 1);
    }
  }

  lemma ParityOf(a: nat, b: nat, h: nat, x: nat)
    requires x == (a + b) % 2 + 2 * h
    ensures x % 2 == 1 <==> (a % 2 == 1) != (b % 2 == 1)
  {
  }

  /** `x << k`. */
  function Shift(k: nat, x: nat): nat
  {
    if k == 0 then x else 2 * Shift(k - 1, x)
  }

  /** The low `k` bits and the bits above them are combined independently. */
  lemma {:induction false} XorSplit(k: nat, a: nat, a': nat, b: nat, b': nat)
    requires a < Shift(k, 1) && b < Shift(k, 1)
    ensures Xor(a + Shift(k, a'), b + Shift(k, b')) == Xor(a, b) + Shift(k, Xor(a', b'))
    ensures Xor(a, b) < Shift(k, 1)
  {
    if k > 0 {
      XorSplit(k - 1, a / 2, a', b / 2, b');
      XorLow(a, Shift(k - 1, a'), b, Shift(k - 1, b'), Shift(k - 1, Xor(a', b')));
    }
  }

  lemma XorLow(a: nat, hiA: nat, b: nat, hiB: nat, hi: nat)
    requires Xor(a / 2 + hiA, b / 2 + hiB) == Xor(a / 2, b / 2) + hi
    ensures Xor(a + 2 * hiA, b + 2 * hiB) == Xor(a, b) + 2 * hi
    ensures Xor(a, b) <= 1 + 2 * Xor(a / 2, b / 2)
  {
    var x, y := a + 2 * hiA, b + 2 * hiB;
    assert x / 2 == a / 2 + hiA && y / 2 == b / 2 + hiB && (x + y) % 2 == (a + b) % 2;
    XorUnfold(x, y);
    XorUnfold(a, b);
  }

  lemma ShiftNext(k: nat, x: nat)
    ensures Shift(k + 1, x) == 2 * Shift(k, x)
  {
  }

  lemma Shift8(x: nat)
    ensures Shift(8, x) == 256 * x
  {
    ShiftNext(0, x); ShiftNext(1, x); ShiftNext(2, x); ShiftNext(3, x);
    ShiftNext(4, x); ShiftNext(5, x); ShiftNext(6, x); ShiftNext(7, x);
  }

  /** Byte-sized low parts split off. */
  lemma XorSplit8(a: byte, a': nat, b: byte, b': nat)
    ensures Xor(a + 256 * a', b + 256 * b') == Xor(a, b) + 256 * Xor(a', b')
    ensures Xor(a, b) < 256
  {
    Shift8(1);
    Shift8(a');
    Shift8(b');
    Shift8(Xor(a', b'));
    XorSplit(8, a, a', b, b');
  }

  function XorByte(a: byte, b: byte): byte
  {
    XorSplit8(a, 0, b, 0);
    Xor(a, b)
  }

  // ---------- words ----------

  /** `u64::from_le_bytes` for any width. */
  function FromLe(bs: seq<byte>): nat
  {
    if bs == [] then 0 else bs[0] + 256 * FromLe(bs[1..])
  }

  function ToLe(n: nat, width: nat): (bs: seq<byte>)
    ensures |bs| == width
  {
    if width == 0 then [] else [n % 256] + ToLe(n / 256, width - 1)
  }

  lemma {:induction false} LeInverse(bs: seq<byte>)
    ensures ToLe(FromLe(bs), |bs|) == bs
  {
    if bs != [] {
      LeInverse(bs[1..]);
      assert (bs[0] + 256 * FromLe(bs[1..])) / 256 == FromLe(bs[1..]);
    }
  }

  function XorBytes(a: seq<byte>, b: seq<byte>): seq<byte>
    requires |a| == |b|
  {
    seq(|a|, i requires 0 <= i < |a| => XorByte(a[i], b[i]))
  }

  lemma {:induction false} XorLe(a: seq<byte>, b: seq<byte>)
    requires |a| == |b|
    ensures Xor(FromLe(a), FromLe(b)) == FromLe(XorBytes(a, b))
  {
    if a != [] {
      XorLe(a[1..], b[1..]);
      assert XorBytes(a, b)[0] == XorByte(a[0], b[0]);
      assert XorBytes(a, b)[1..] == XorBytes(a[1..], b[1..]);
      XorSplit8(a[0], FromLe(a[1..]), b[0], FromLe(b[1..]));
    }
  }

  /** XOR of two words is XOR of their bytes. */
  lemma WordXor(a: seq<byte>, b: seq<byte>)
    requires |a| == |b|
    ensures ToLe(Xor(FromLe(a), FromLe(b)), |a|) == XorBytes(a, b)
  {
    XorLe(a, b);
    LeInverse(XorBytes(a, b));
  }

  // ---------- masking ----------

  type Key = k: seq<byte> | |k| == 4 witness [0, 0, 0, 0]

  /** `transformed[i] = original[i] XOR key[i % 4]`. */
  function Masked(data: seq<byte>, key: Key): seq<byte>
  {
    seq(|data|, i requires 0 <= i < |data| => XorByte(data[i], key[i % 4]))
  }

  /** Masking twice with one key is the identity. */
  lemma MaskTwice(data: seq<byte>, key: Key)
    ensures Masked(Masked(data, key), key) == data
  {
    forall i | 0 <= i < |data| ensures Masked(Masked(data, key), key)[i] == data[i] {
      XorInvolutive(data[i], key[i % 4]);
    }
  }

  /** The block at `i`, read, combined and written back as one word. */
  method UnmaskWord(data: array<byte>, i: nat, key: Key)
    requires i + 8 <= data.Length && i % 8 == 0
    modifies data
    ensures forall k :: 0 <= k < data.Length ==>
              data[k] == if i <= k < i + 8 then XorByte(old(data[k]), key[k % 4]) else old(data[k])
  {
    var out := XorWord(data[i..i + 8], key);
    forall j | 0 <= j < 8 ensures out[j] == XorByte(old(data[i + j]), key[(i + j) % 4]) {
      Aligned(i, j);
    }
    forall j | 0 <= j < 8 {
      data[i + j] := out[j];
    }
  }

  /** In-place unmasking, a word at a time with a scalar tail, is the bytewise definition. */
  method Unmask(data: array<byte>, key: Key)
    modifies data
    ensures data[..] == Masked(old(data[..]), key)
    ensures forall i :: 0 <= i < data.Length ==> data[i] == XorByte(old(data[i]), key[i % 4])
  {
    ghost var done := Masked(data[..], key);
    var i := 0;
    while i + 8 <= data.Length
      invariant 0 <= i <= data.Length && i % 8 == 0
      invariant forall k :: 0 <= k < i ==> data[k] == done[k]
      invariant forall k :: i <= k < data.Length ==> data[k] == old(data[k])
    {
      UnmaskWord(data, i, key);
      i := i + 8;
    }
    var start := i;
    while i < data.Length
      invariant start <= i <= data.Length && start % 8 == 0
      invariant forall k :: 0 <= k < i ==> data[k] == done[k]
      invariant forall k :: i <= k < data.Length ==> data[k] == old(data[k])
    {
      Aligned(start, i - start);
      data[i] := XorByte(data[i], key[(i - start) % 4]);
      i := i + 1;
    }
  }

  lemma Aligned(start: nat, j: nat)
    requires start % 8 == 0
    ensures (start + j) % 4 == j % 4
  {
    var q, r := start / 8, j / 4;
    assert start + j == 4 * (2 * q + r) + j % 4;
  }

  lemma Broadcast(word: seq<byte>, key: Key, j: nat)
    requires |word| == 8 && j < 8
    ensures XorBytes(word, key + key)[j] == XorByte(word[j], key[j % 4])
  {
    assert (key + key)[j] == key[j % 4];
  }

  /** One 8-byte block against the key broadcast to eight bytes. */
  function XorWord(word: seq<byte>, key: Key): (out: seq<byte>)
    requires |word| == 8
    ensures |out| == 8 && forall j :: 0 <= j < 8 ==> out[j] == XorByte(word[j], key[j % 4])
  {
    var out := ToLe(Xor(FromLe(word), FromLe(key + key)), |word|);
    assert out == XorBytes(word, key + key) by { WordXor(word, key + key); }
    assert forall j: nat :: j < 8 ==> out[j] == XorByte(word[j], key[j % 4]) by {
      forall j: nat | j < 8 ensures XorBytes(word, key + key)[j] == XorByte(word[j], key[j % 4]) {
        Broadcast(word, key, j);
      }
    }
    out
  }
}
