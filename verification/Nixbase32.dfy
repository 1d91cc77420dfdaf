/** The base32 variant of Nix: a byte string is read as a little-endian number and
    written in base 32, most significant digit first. The code never forms that
    number; it shifts a 16-bit window over the bytes. */
module Nixbase32 {
  import opened Wrappers

  const ALPHABET: string := "0123456789abcdfghijklmnpqrsvwxyz"

  /** What the code relies on: 32 symbols, and no two alike. */
  ghost predicate IsAlphabet(alphabet: string) {
    && |alphabet| == 32
    && forall i, j :: 0 <= i < j < 32 ==> alphabet[i] < alphabet[j]
  }

  /** The least number of digits with at least as many bits. */
  function EncodeLen(len: nat): (n: nat)
    ensures 8 * len <= 5 * n < 8 * len + 5
  {
    (len * 8 + 4) / 5
  }

  /** The greatest number of bytes with at most as many bits. */
  function DecodeLen(len: nat): (n: nat)
    ensures 8 * n <= 5 * len < 8 * n + 8
  {
    (len * 5) / 8
  }

  // ------------------------------------------------------------------------ shifts

  /** Shifts right by `k` bits. */
  function Shr(x: nat, k: nat): nat
    decreases k
  {
    if k == 0 then x else Shr(x / 2, k - 1)
  }

  /** Shifts left by `k` bits. */
  function Shl(x: nat, k: nat): nat {
    if k == 0 then x else 2 * Shl(x, k - 1)
  }

  lemma {:induction false} ShrAdd(x: nat, a: nat, b: nat)
    ensures Shr(x, a + b) == Shr(Shr(x, a), b)
    decreases a
  {
    if a > 0 { ShrAdd(x / 2, a - 1, b); }
  }

  lemma {:induction false} ShrZero(k: nat)
    ensures Shr(0, k) == 0
  {
    if k > 0 { ShrZero(k - 1); }
  }

  lemma Shr5(x: nat)
    ensures Shr(x, 5) == x / 32
  {
    assert Shr(x, 5) == Shr(x / 2, 4) == Shr(x / 4, 3) == Shr(x / 8, 2) == Shr(x / 16, 1);
  }

  lemma Shr8(x: nat)
    ensures Shr(x, 8) == x / 256
  {
    ShrAdd(x, 5, 3);
    Shr5(x);
    var y := x / 32;
    assert Shr(y, 3) == Shr(y / 2, 2) == Shr(y / 4, 1);
  }

  lemma {:induction false} ShlAdd(x: nat, a: nat, b: nat)
    ensures Shl(x, a + b) == Shl(Shl(x, a), b)
    decreases b
  {
    if b > 0 { ShlAdd(x, a, b - 1); }
  }

  lemma {:induction false} ShlSum(x: nat, y: nat, k: nat)
    ensures Shl(x + y, k) == Shl(x, k) + Shl(y, k)
    decreases k
  {
    if k > 0 { ShlSum(x, y, k - 1); }
  }

  lemma {:induction false} ShlMonotone(x: nat, y: nat, k: nat)
    requires x <= y
    ensures Shl(x, k) <= Shl(y, k)
    decreases k
  {
    if k > 0 { ShlMonotone(x, y, k - 1); }
  }

  lemma Shl5(x: nat, k: nat)
    ensures Shl(x, k + 5) == 32 * Shl(x, k)
  {
    assert Shl(x, k + 5) == 2 * Shl(x, k + 4) == 4 * Shl(x, k + 3) == 8 * Shl(x, k + 2) == 16 * Shl(x, k + 1);
  }

  lemma Shl8(x: nat, k: nat)
    ensures Shl(x, k + 8) == 256 * Shl(x, k)
  {
    Shl5(x, k + 3);
    assert Shl(x, k + 3) == 2 * Shl(x, k + 2) == 4 * Shl(x, k + 1);
  }

  /** Shifting out exactly the zero bits below `y`. */
  lemma {:induction false} ShrLift(x: nat, y: nat, j: nat)
    ensures Shr(x + Shl(y, j), j) == Shr(x, j) + y
    decreases j
  {
    if j > 0 {
      assert (x + Shl(y, j)) / 2 == x / 2 + Shl(y, j - 1);
      ShrLift(x / 2, y, j - 1);
    }
  }

  lemma {:induction false} ShrBound(x: nat, a: nat, b: nat)
    requires x < Shl(1, a + b)
    ensures Shr(x, a) < Shl(1, b)
    decreases a
  {
    if a > 0 { ShrBound(x / 2, a - 1, b); }
  }

  /** A number is its low `m` bits and the rest. */
  lemma {:induction false} SplitBits(x: nat, m: nat) returns (low: nat)
    ensures low < Shl(1, m) && x == low + Shl(Shr(x, m), m)
    decreases m
  {
    if m == 0 {
      low := 0;
    } else {
      var l := SplitBits(x / 2, m - 1);
      low := x % 2 + 2 * l;
    }
  }

  // ------------------------------------------------- the numbers being represented

  /** The little-endian number in base 256. */
  ghost function Bytes(s: seq<byte>): nat {
    if s == [] then 0 else s[0] + 256 * Bytes(s[1..])
  }

  /** The little-endian number in base 32. */
  ghost function Digits(s: seq<nat>): nat {
    if s == [] then 0 else s[0] + 32 * Digits(s[1..])
  }

  lemma {:induction false} BytesShr(s: seq<byte>, i: nat)
    requires i <= |s|
    ensures Shr(Bytes(s), 8 * i) == Bytes(s[i..])
    decreases i
  {
    if i == 0 {
      assert s[0..] == s;
    } else {
      ShrAdd(Bytes(s), 8, 8 * (i - 1));
      Shr8(Bytes(s));
      BytesShr(s[1..], i - 1);
      assert s[1..][i - 1..] == s[i..];
    }
  }

  lemma {:induction false} BytesBound(s: seq<byte>)
    ensures Bytes(s) < Shl(1, 8 * |s|)
    decreases |s|
  {
    if s != [] {
      BytesBound(s[1..]);
      Shl8(1, 8 * (|s| - 1));
    }
  }

  lemma {:induction false} BytesInjective(s: seq<byte>, t: seq<byte>)
    requires |s| == |t| && Bytes(s) == Bytes(t)
    ensures s == t
    decreases |s|
  {
    if s != [] {
      BytesInjective(s[1..], t[1..]);
      assert s == [s[0]] + s[1..] && t == [t[0]] + t[1..];
    }
  }

  lemma {:induction false} DigitsInjective(s: seq<nat>, t: seq<nat>)
    requires |s| == |t| && Digits(s) == Digits(t)
    requires forall i :: 0 <= i < |s| ==> s[i] < 32 && t[i] < 32
    ensures s == t
    decreases |s|
  {
    if s != [] {
      DigitsInjective(s[1..], t[1..]);
      assert s == [s[0]] + s[1..] && t == [t[0]] + t[1..];
    }
  }

  /** Appending a most significant digit. */
  lemma {:induction false} DigitsAppend(s: seq<nat>, d: nat)
    ensures Digits(s + [d]) == Digits(s) + Shl(d, 5 * |s|)
    decreases |s|
  {
    if s == [] {
      assert s + [d] == [d];
      assert Digits([d][1..]) == 0;
    } else {
      DigitsAppend(s[1..], d);
      assert (s + [d])[1..] == s[1..] + [d];
      Shl5(d, 5 * (|s| - 1));
    }
  }

  lemma {:induction false} BytesAppend(s: seq<byte>, d: byte)
    ensures Bytes(s + [d]) == Bytes(s) + Shl(d, 8 * |s|)
    decreases |s|
  {
    if s == [] {
      assert s + [d] == [d];
      assert Bytes([d][1..]) == 0;
    } else {
      BytesAppend(s[1..], d);
      assert (s + [d])[1..] == s[1..] + [d];
      Shl8(d, 8 * (|s| - 1));
    }
  }

  // --------------------------------------------------------------------- encoding

  /** Digit `n`, counted from the least significant: read 16 bits at the byte
      holding the first of its bits, shift and mask. */
  function Digit(input: seq<byte>, n: nat): (d: nat)
    requires n < EncodeLen(|input|)
    ensures d < 32
  {
    var b := n * 5;
    var i, j := b / 8, b % 8;
    var word: nat := input[i];
    var word: nat := if i + 1 < |input| then word + input[i + 1] as nat * 256 else word;
    Shr(word, j) % 32
  }

  lemma Multiple32(a: nat, z: nat)
    ensures (a + 32 * z) % 32 == a % 32
  {
  }

  /** What lies past 16 bits, seen from a shift by `j < 8`. */
  lemma PastWord(rest: nat, j: nat) returns (z: nat)
    requires j < 8
    ensures 65536 * rest == Shl(32 * z, j)
  {
    z := Shl(rest, 11 - j);
    Shl5(rest, 11 - j);
    ShlAdd(rest, 16 - j, j);
    Shl8(rest, 8);
    Shl8(rest, 0);
  }

  /** Shifting by `j < 8` and masking to five bits never sees past 16 bits. */
  lemma Window(word: nat, rest: nat, j: nat)
    requires j < 8
    ensures Shr(word + 65536 * rest, j) % 32 == Shr(word, j) % 32
  {
    var z := PastWord(rest, j);
    ShrLift(word, 32 * z, j);
    Multiple32(Shr(word, j), z);
  }

  lemma DigitIs(input: seq<byte>, n: nat)
    requires n < EncodeLen(|input|)
    ensures Digit(input, n) == Shr(Bytes(input), 5 * n) % 32
  {
    var i, j := (n * 5) / 8, (n * 5) % 8;
    assert 5 * n == 8 * i + j;
    ShrAdd(Bytes(input), 8 * i, j);
    BytesShr(input, i);
    WordIs(input[i..], j);
  }

  lemma WordIs(tail: seq<byte>, j: nat)
    requires tail != [] && j < 8
    ensures var word: nat := if |tail| > 1 then tail[0] as nat + tail[1] as nat * 256 else tail[0];
            Shr(Bytes(tail), j) % 32 == Shr(word, j) % 32
  {
    if |tail| > 1 {
      Window(tail[0] as nat + tail[1] as nat * 256, Bytes(tail[1..][1..]), j);
    } else {
      assert Bytes(tail[1..]) == 0;
    }
  }

  /** Five bits at a time, the digits make up the number. */
  lemma {:induction false} ShiftedDigits(ds: seq<nat>, v: nat, n: nat)
    requires n <= |ds| && Shr(v, 5 * |ds|) == 0
    requires forall m :: 0 <= m < |ds| ==> ds[m] == Shr(v, 5 * m) % 32
    ensures Digits(ds[n..]) == Shr(v, 5 * n)
    decreases |ds| - n
  {
    if n < |ds| {
      ShiftedDigits(ds, v, n + 1);
      ShrAdd(v, 5 * n, 5);
      Shr5(Shr(v, 5 * n));
      assert ds[n..][1..] == ds[n + 1..];
    }
  }

  function AllDigits(input: seq<byte>): (ds: seq<nat>)
    ensures |ds| == EncodeLen(|input|)
    ensures forall n :: 0 <= n < |ds| ==> ds[n] < 32
  {
    seq(EncodeLen(|input|), n requires 0 <= n < EncodeLen(|input|) => Digit(input, n))
  }

  /** The digits the code extracts denote the number the bytes denote. */
  lemma AllDigitsValue(input: seq<byte>)
    ensures Digits(AllDigits(input)) == Bytes(input)
  {
    var ds, v := AllDigits(input), Bytes(input);
    forall n | 0 <= n < |ds| ensures ds[n] == Shr(v, 5 * n) % 32 {
      DigitIs(input, n);
    }
    BytesShr(input, |input|);
    ShrAdd(v, 8 * |input|, 5 * |ds| - 8 * |input|);
    ShrZero(5 * |ds| - 8 * |input|);
    ShiftedDigits(ds, v, 0);
    assert ds[0..] == ds;
  }

  /** Digits written with the given symbols, most significant first. */
  function Written(alphabet: string, ds: seq<nat>): (s: string)
    requires |alphabet| == 32 && forall n :: 0 <= n < |ds| ==> ds[n] < 32
    ensures |s| == |ds| && forall k :: 0 <= k < |s| ==> s[k] == alphabet[ds[|ds| - 1 - k]]
  {
    seq(|ds|, k requires 0 <= k < |ds| => alphabet[ds[|ds| - 1 - k]])
  }

  function Encoded(alphabet: string, input: seq<byte>): string
    requires |alphabet| == 32
  {
    Written(alphabet, AllDigits(input))
  }

  method EncodeWith(alphabet: string, input: seq<byte>) returns (output: string)
    requires |alphabet| == 32
    ensures output == Encoded(alphabet, input)
  {
    var outputLen := EncodeLen(|input|);
    output := "";
    var n := outputLen;
    while n > 0
      invariant 0 <= n <= outputLen && |output| == outputLen - n
      invariant forall k :: 0 <= k < |output| ==> output[k] == alphabet[Digit(input, outputLen - 1 - k)]
    {
      n := n - 1;
      var b := n * 5;
      var i := b / 8;
      var j := b % 8;
      var word: nat := input[i];
      if i + 1 < |input| {
        word := word + input[i + 1] as nat * 256;
      }
      var c := Shr(word, j) % 32;
      assert c == Digit(input, n);
      output := output + [alphabet[c]];
    }
  }

  // --------------------------------------------------------------------- alphabet

  function OrdFrom(alphabet: string, c: char, i: nat): (d: nat)
    requires i <= |alphabet| == 32
    ensures d == 255 || (i <= d < 32 && alphabet[d] == c)
    ensures d == 255 ==> forall k :: i <= k < 32 ==> alphabet[k] != c
    decreases 32 - i
  {
    if i == 32 then 255 else if alphabet[i] == c then i else OrdFrom(alphabet, c, i + 1)
  }

  /** `BASE32_ORD`: the digit of a symbol, 0xFF for anything else. */
  function Ord(alphabet: string, c: char): (d: byte)
    requires |alphabet| == 32
    ensures d == 255 || (d < 32 && alphabet[d] == c)
    ensures d == 255 <==> c !in alphabet
  {
    OrdFrom(alphabet, c, 0)
  }

  /** The digits of a text, least significant first. */
  function Values(alphabet: string, s: string): (v: seq<nat>)
    requires |alphabet| == 32
    ensures |v| == |s|
    ensures forall n :: 0 <= n < |s| ==> v[n] == Ord(alphabet, s[|s| - 1 - n])
  {
    seq(|s|, n requires 0 <= n < |s| => Ord(alphabet, s[|s| - 1 - n]) as nat)
  }

  ghost predicate WellFormed(alphabet: string, s: string) {
    forall k :: 0 <= k < |s| ==> s[k] in alphabet
  }

  /** The digit of a symbol is its place in the alphabet. */
  lemma OrdOfSymbol(alphabet: string, d: nat)
    requires IsAlphabet(alphabet) && d < 32
    ensures alphabet[d] in alphabet && Ord(alphabet, alphabet[d]) == d
  {
  }

  lemma WrittenAt(alphabet: string, ds: seq<nat>, n: nat)
    requires |alphabet| == 32 && n < |ds| && forall n :: 0 <= n < |ds| ==> ds[n] < 32
    ensures Written(alphabet, ds)[|ds| - 1 - n] == alphabet[ds[n]]
  {
  }

  lemma ValuesAt(alphabet: string, s: string, n: nat)
    requires |alphabet| == 32 && n < |s|
    ensures Values(alphabet, s)[n] == Ord(alphabet, s[|s| - 1 - n]) as nat
  {
  }

  lemma ValuesOfWritten(alphabet: string, ds: seq<nat>)
    requires IsAlphabet(alphabet) && forall n :: 0 <= n < |ds| ==> ds[n] < 32
    ensures Values(alphabet, Written(alphabet, ds)) == ds
  {
    var s := Written(alphabet, ds);
    var v := Values(alphabet, s);
    forall n | 0 <= n < |ds| ensures v[n] == ds[n] {
      OrdOfSymbol(alphabet, ds[n]);
      WrittenAt(alphabet, ds, n);
      ValuesAt(alphabet, s, n);
    }
  }

  lemma WrittenWellFormed(alphabet: string, ds: seq<nat>)
    requires IsAlphabet(alphabet) && forall n :: 0 <= n < |ds| ==> ds[n] < 32
    ensures WellFormed(alphabet, Written(alphabet, ds))
  {
    var s := Written(alphabet, ds);
    forall k | 0 <= k < |s| ensures s[k] in alphabet {
      OrdOfSymbol(alphabet, ds[|ds| - 1 - k]);
      WrittenAt(alphabet, ds, |ds| - 1 - k);
    }
  }

  lemma WrittenOfValues(alphabet: string, s: string)
    requires |alphabet| == 32 && WellFormed(alphabet, s)
    ensures forall n :: 0 <= n < |s| ==> Values(alphabet, s)[n] < 32
    ensures Written(alphabet, Values(alphabet, s)) == s
  {
    forall n | 0 <= n < |s| ensures Values(alphabet, s)[n] < 32 {
      assert s[|s| - 1 - n] in alphabet;
    }
    forall k | 0 <= k < |s| ensures Written(alphabet, Values(alphabet, s))[k] == s[k] {
      assert Values(alphabet, s)[|s| - 1 - k] == Ord(alphabet, s[k]);
    }
  }

  /** The encoding is well formed and denotes the same number as the bytes. */
  lemma EncodedValue(alphabet: string, x: seq<byte>)
    requires IsAlphabet(alphabet)
    ensures |Encoded(alphabet, x)| == EncodeLen(|x|) && WellFormed(alphabet, Encoded(alphabet, x))
    ensures Digits(Values(alphabet, Encoded(alphabet, x))) == Bytes(x)
  {
    ValuesOfWritten(alphabet, AllDigits(x));
    WrittenWellFormed(alphabet, AllDigits(x));
    AllDigitsValue(x);
  }

  /** The encoding is the only well-formed text of its length for that number. */
  lemma EncodedUnique(alphabet: string, x: seq<byte>, s: string)
    requires IsAlphabet(alphabet)
    requires |s| == EncodeLen(|x|) && WellFormed(alphabet, s) && Digits(Values(alphabet, s)) == Bytes(x)
    ensures s == Encoded(alphabet, x)
  {
    AllDigitsValue(x);
    WrittenOfValues(alphabet, s);
    DigitsInjective(Values(alphabet, s), AllDigits(x));
  }

  lemma EncodeLenInjective(a: nat, b: nat)
    requires EncodeLen(a) == EncodeLen(b)
    ensures a == b
  {
  }

  /** No two byte strings share an encoding. */
  lemma EncodedInjective(alphabet: string, x: seq<byte>, y: seq<byte>)
    requires IsAlphabet(alphabet) && Encoded(alphabet, x) == Encoded(alphabet, y)
    ensures x == y
  {
    EncodedValue(alphabet, x);
    EncodedValue(alphabet, y);
    EncodeLenInjective(|x|, |y|);
    BytesInjective(x, y);
  }

  // --------------------------------------------------------------------- decoding

  /** Bitwise or. */
  function Or(a: nat, b: nat): nat
    decreases a + b
  {
    if a == 0 && b == 0 then 0
    else (if a % 2 == 1 || b % 2 == 1 then 1 else 0) + 2 * Or(a / 2, b / 2)
  }

  lemma {:induction false} OrZero(a: nat)
    ensures Or(a, 0) == a && Or(0, a) == a
  {
    if a > 0 { OrZero(a / 2); }
  }

  /** Bits below `k` and bits from `k` on do not meet. */
  lemma {:induction false} OrDisjoint(a: nat, q: nat, k: nat)
    requires a < Shl(1, k)
    ensures Or(a, Shl(q, k)) == a + Shl(q, k)
    ensures Or(Shl(q, k), a) == a + Shl(q, k)
    decreases k
  {
    if k == 0 {
      OrZero(q);
    } else {
      OrDisjoint(a / 2, q, k - 1);
    }
  }

  lemma {:induction false} OrBound(a: nat, b: nat, k: nat)
    requires a < Shl(1, k) && b < Shl(1, k)
    ensures Or(a, b) < Shl(1, k)
    decreases k
  {
    if k > 0 && (a > 0 || b > 0) { OrBound(a / 2, b / 2, k - 1); }
  }

  /** One bit of a number whose bits are all set, whatever it is combined with. */
  lemma OrFullBit(m: nat, b: nat)
    requires m > 0
    ensures Or(2 * m - 1, b) == 1 + 2 * Or(m - 1, b / 2)
    ensures Or(b, 2 * m - 1) == 1 + 2 * Or(b / 2, m - 1)
  {
    assert (2 * m - 1) / 2 == m - 1 && (2 * m - 1) % 2 == 1;
  }

  lemma {:induction false} OrFull(b: nat, k: nat)
    requires b < Shl(1, k)
    ensures Or(Shl(1, k) - 1, b) == Shl(1, k) - 1 && Or(b, Shl(1, k) - 1) == Shl(1, k) - 1
    decreases k
  {
    if k == 0 {
      OrZero(0);
    } else {
      ShlGrows(1, k - 1);
      OrFullBit(Shl(1, k - 1), b);
      OrFull(b / 2, k - 1);
    }
  }

  lemma OrByte(a: byte, b: byte)
    ensures Or(a, b) < 256
    ensures a < 32 && b < 32 ==> Or(a, b) < 32
    ensures a == 255 ==> Or(a, b) == 255
    ensures b == 255 ==> Or(a, b) == 255
  {
    Shl5(1, 0);
    Shl8(1, 0);
    OrBound(a, b, 8);
    OrFull(a, 8);
    OrFull(b, 8);
    if a < 32 && b < 32 { OrBound(a, b, 5); }
  }

  /** What byte `i` holds so far, including the bits still in the carry. */
  function Partial(out: seq<byte>, i: nat, carry: byte): nat {
    (if i < |out| then out[i] as nat else 0) + carry as nat
  }

  /** The number in the first `i` bytes. */
  ghost function Low(out: seq<byte>, i: nat): nat
    requires i <= |out|
  {
    if i == 0 then 0 else Low(out, i - 1) + Shl(out[i - 1], 8 * (i - 1))
  }

  lemma {:induction false} LowIs(out: seq<byte>, i: nat)
    requires i <= |out|
    ensures Low(out, i) == Bytes(out[..i])
  {
    if i > 0 {
      LowIs(out, i - 1);
      BytesAppend(out[..i - 1], out[i - 1]);
      assert out[..i - 1] + [out[i - 1]] == out[..i];
    }
  }

  lemma {:induction false} LowFrame(out: seq<byte>, k: nat, x: byte, i: nat)
    requires i <= k < |out|
    ensures Low(out[k := x], i) == Low(out, i)
  {
    if i > 0 { LowFrame(out, k, x, i - 1); }
  }

  /** The byte, and the bit in it, at which digit `n` starts. */
  function Place(n: nat): (nat, nat) {
    if n == 0 then (0, 0)
    else var (i, j) := Place(n - 1); if j < 3 then (i, j + 5) else (i + 1, j - 3)
  }

  lemma {:induction false} PlaceIs(n: nat)
    ensures Place(n).0 == n * 5 / 8 && Place(n).1 == n * 5 % 8
    ensures 5 * n == 8 * Place(n).0 + Place(n).1 && Place(n).1 < 8
  {
    if n > 0 { PlaceIs(n - 1); }
  }

  /** The first `i` bytes and `j` bits of the next represent the value `v`. */
  ghost predicate UpTo(out: seq<byte>, carry: byte, v: nat, i: nat, j: nat) {
    && i <= |out|
    && v == Low(out, i) + Shl(Partial(out, i, carry), 8 * i)
    && Partial(out, i, carry) < Shl(1, j)
    && (i < |out| ==> out[i] == 0 || carry == 0)
    && forall m :: i < m < |out| ==> out[m] == 0
  }

  /** The bytes written represent the value `v` of the first `n` digits. */
  ghost predicate Represents(out: seq<byte>, carry: byte, v: nat, n: nat) {
    UpTo(out, carry, v, Place(n).0, Place(n).1)
  }

  lemma DivMod256(x: nat, lo: nat, hi: nat)
    requires x == lo + 256 * hi && lo < 256
    ensures x % 256 == lo && x / 256 == hi
  {
  }

  /** A digit shifted by `j`, cut at the byte boundary. */
  lemma CutAtByte(d: nat, j: nat) returns (q: nat)
    requires d < 32 && j < 8
    ensures Shl(d, j) % 256 == Shl(q, j)
    ensures Shl(d, j) / 256 == Shr(d, 8 - j)
    ensures Shl(q, j) + Shl(1, j) <= 256
  {
    var k := Shr(d, 8 - j);
    q := SplitBits(d, 8 - j);
    ShlSum(q, Shl(k, 8 - j), j);
    ShlAdd(k, 8 - j, j);
    Shl8(k, 0);
    LowFits(q, j);
    DivMod256(Shl(d, j), Shl(q, j), k);
  }

  lemma LowFits(q: nat, j: nat)
    requires j < 8 && q < Shl(1, 8 - j)
    ensures Shl(q, j) + Shl(1, j) <= 256 && Shl(1, j) > 0
  {
    ShlMonotone(q + 1, Shl(1, 8 - j), j);
    ShlSum(q, 1, j);
    ShlAdd(1, 8 - j, j);
    Shl8(1, 0);
    ShlGrows(1, j);
  }

  lemma HighPart(d: nat, j: nat)
    requires d < 32 && j < 8
    ensures Shr(d, 8 - j) <= d
    ensures j < 3 ==> Shr(d, 8 - j) == 0
    ensures j >= 3 ==> Shr(d, 8 - j) < Shl(1, j - 3)
  {
    Shl5(1, 0);
    var low := SplitBits(d, 8 - j);
    ShlGrows(Shr(d, 8 - j), 8 - j);
    if j >= 3 {
      ShrBound(d, 8 - j, j - 3);
    } else {
      ShlAdd(1, 5, 3 - j);
      ShlGrows(32, 3 - j);
      ShrBound(d, 8 - j, 0);
    }
  }

  lemma {:induction false} ShlGrows(x: nat, k: nat)
    ensures x <= Shl(x, k)
  {
    if k > 0 { ShlGrows(x, k - 1); }
  }

  /** Combining the byte with the low bits of the digit and the carry adds them, when the byte or
      the carry is empty. */
  lemma OrInto(cell: byte, carry: byte, q: nat, j: nat)
    requires (cell == 0 || carry == 0) && cell as nat + carry as nat < Shl(1, j)
    ensures Or(cell, Or(Shl(q, j), carry)) == cell as nat + carry as nat + Shl(q, j)
  {
    OrDisjoint(carry, q, j);
    OrDisjoint(cell, q, j);
    OrZero(Shl(q, j));
    OrZero(Or(Shl(q, j), carry));
  }

  /** The weight of a new digit, split between the byte it starts in and the next. */
  lemma NewDigit(d: nat, i: nat, j: nat, lo: nat, hi: nat, p: nat)
    requires Shl(d, j) == lo + 256 * hi
    ensures Shl(p, 8 * i) + Shl(d, 8 * i + j) == Shl(p + lo, 8 * i) + Shl(hi, 8 * (i + 1))
  {
    assert 8 * i + j == j + 8 * i;
    ShlAdd(d, j, 8 * i);
    ShlSum(lo, 256 * hi, 8 * i);
    ShlSum(p, lo, 8 * i);
    Shl8(hi, 0);
    ShlAdd(hi, 8, 8 * i);
    assert Shl(hi, 8 + 8 * i) == Shl(hi, 8 * (i + 1));
  }

  /** The digit ends within the byte: nothing is carried. */
  lemma StayInByte(out: seq<byte>, v: nat, d: nat, i: nat, j: nat, lo: nat, p: nat)
    requires i < |out| && j < 3 && d < 32
    requires p < Shl(1, j) && lo == Shl(d, j) && p + lo == out[i] as nat
    requires v == Low(out, i) + Shl(p, 8 * i)
    requires forall m :: i < m < |out| ==> out[m] == 0
    ensures UpTo(out, 0, v + Shl(d, 8 * i + j), i, j + 5)
  {
    SameByte(d, i, j, lo, p);
    PartialBound(p, d, j);
    assert Partial(out, i, 0) == p + lo;
  }

  lemma SameByte(d: nat, i: nat, j: nat, lo: nat, p: nat)
    requires lo == Shl(d, j)
    ensures Shl(p, 8 * i) + Shl(d, 8 * i + j) == Shl(p + lo, 8 * i)
  {
    assert 8 * i + j == j + 8 * i;
    ShlAdd(d, j, 8 * i);
    ShlSum(p, lo, 8 * i);
  }

  /** The digit reaches into the next byte. */
  lemma CrossByte(out: seq<byte>, carry: byte, v: nat, d: nat, i: nat, j: nat, lo: nat, p: nat)
    requires i < |out| && 3 <= j < 8
    requires Shl(d, j) == lo + 256 * carry as nat && p + lo == out[i] as nat
    requires carry as nat < Shl(1, j - 3)
    requires v == Low(out, i) + Shl(p, 8 * i)
    requires forall m :: i < m < |out| ==> out[m] == 0
    ensures UpTo(out, carry, v + Shl(d, 8 * i + j), i + 1, j - 3)
  {
    NewDigit(d, i, j, lo, carry, p);
    assert Low(out, i + 1) == Low(out, i) + Shl(p + lo, 8 * i);
    assert Partial(out, i + 1, carry) == carry as nat;
  }

  /** What one iteration writes into the byte and into the carry. */
  lemma DigitParts(cell: byte, carry: byte, d: nat, j: nat)
    requires d < 32 && j < 8 && (cell == 0 || carry == 0) && cell as nat + carry as nat < Shl(1, j)
    ensures var lo, hi := Shl(d, j) % 256, Shl(d, j) / 256;
            && Or(cell, Or(lo, carry)) == cell as nat + carry as nat + lo < 256
            && hi < 256 && (j < 3 ==> hi == 0) && (j >= 3 ==> hi < Shl(1, j - 3))
  {
    var q := CutAtByte(d, j);
    OrInto(cell, carry, q, j);
    HighPart(d, j);
  }

  /** The bytes below and above the one that is written. */
  lemma WriteByte(out: seq<byte>, i: nat, x: byte) returns (out': seq<byte>)
    requires i < |out| && forall m :: i < m < |out| ==> out[m] == 0
    ensures out' == out[i := x] && Low(out', i) == Low(out, i)
    ensures forall m :: i < m < |out'| ==> out'[m] == 0
  {
    out' := out[i := x];
    LowFrame(out, i, x, i);
  }

  /** One digit into the byte and the carry. */
  lemma UpToStep(out: seq<byte>, carry: byte, v: nat, d: nat, i: nat, j: nat)
    requires UpTo(out, carry, v, i, j) && i < |out| && j < 8 && d < 32
    ensures var value := Shl(d, j);
            && Or(out[i], Or(value % 256, carry)) < 256
            && value / 256 < 256
            && UpTo(out[i := Or(out[i], Or(value % 256, carry))], value / 256, v + Shl(d, 8 * i + j),
                    if j < 3 then i else i + 1, if j < 3 then j + 5 else j - 3)
  {
    var lo, hi, p := Shl(d, j) % 256, Shl(d, j) / 256, Partial(out, i, carry);
    DigitParts(out[i], carry, d, j);
    var out' := WriteByte(out, i, p + lo);
    if j < 3 {
      StayInByte(out', v, d, i, j, lo, p);
    } else {
      CrossByte(out', hi, v, d, i, j, lo, p);
    }
  }

  /** One iteration keeps the representation. */
  lemma RepresentsStep(out: seq<byte>, carry: byte, v: nat, n: nat, d: nat, i: nat, j: nat)
    requires Represents(out, carry, v, n) && d < 32 && Place(n) == (i, j) && i < |out| && j < 8
    ensures var value := Shl(d, j);
            && Or(out[i], Or(value % 256, carry)) < 256
            && value / 256 < 256
            && Represents(out[i := Or(out[i], Or(value % 256, carry))], value / 256, v + Shl(d, 8 * i + j), n + 1)
  {
    UpToStep(out, carry, v, d, i, j);
  }

  lemma {:induction false} ShlZero(k: nat)
    ensures Shl(0, k) == 0
  {
    if k > 0 { ShlZero(k - 1); }
  }

  lemma PartialBound(p: nat, d: nat, j: nat)
    requires p < Shl(1, j) && d < 32
    ensures p + Shl(d, j) < Shl(1, j + 5)
  {
    ShlMonotone(d + 1, 32, j);
    ShlSum(d, 1, j);
    Shl5(1, 0);
    assert j + 5 == 5 + j;
    ShlAdd(1, 5, j);
  }

  datatype DecodeKind = Length | Symbol | Trailing

  datatype DecodeError = DecodeError(position: nat, kind: DecodeKind)

  datatype DecodeResult = Ok(bytes: seq<byte>) | Err(error: DecodeError)

  /** The first byte that is not a symbol; there is one. */
  method FindInvalid(alphabet: string, input: string) returns (at: nat)
    requires !WellFormed(alphabet, input)
    ensures at < |input| && input[at] !in alphabet
    ensures forall k :: 0 <= k < at ==> input[k] in alphabet
  {
    at := 0;
    while at < |input|
      invariant at <= |input|
      invariant forall k :: 0 <= k < at ==> input[k] in alphabet
    {
      if input[at] !in alphabet {
        return;
      }
      at := at + 1;
    }
    assert false;
  }

  /** What decoding an input of the right length must answer. */
  ghost predicate RightAnswer(alphabet: string, input: string, out: seq<byte>, err: Option<DecodeError>)
    requires |alphabet| == 32
  {
    match err
    case None =>
      WellFormed(alphabet, input) && Digits(Values(alphabet, input)) == Bytes(out)
    case Some(e) =>
      if e.kind == Symbol then
        && e.position < |input|
        && input[e.position] !in alphabet
        && forall k :: 0 <= k < e.position ==> input[k] in alphabet
      else
        && e == DecodeError(0, Trailing)
        && WellFormed(alphabet, input)
        && Digits(Values(alphabet, input)) >= Shl(1, 8 * |out|)
  }

  lemma RepresentsAll(out: seq<byte>, carry: byte, v: nat, n: nat)
    requires Represents(out, carry, v, n) && n == EncodeLen(|out|)
    ensures carry == 0 ==> v == Bytes(out)
    ensures carry > 0 ==> v >= Shl(1, 8 * |out|)
  {
    PlaceIs(n);
    assert Place(n).0 == |out|;
    LowIs(out, |out|);
    assert out[..|out|] == out;
    ShlZero(8 * |out|);
    if carry > 0 { ShlMonotone(1, carry, 8 * |out|); }
  }

  /** The mask tells whether one of the first `n` bytes was not a symbol. */
  ghost predicate Masks(mask: byte, ds: seq<nat>, n: nat)
    requires n <= |ds|
  {
    && (mask < 32 || mask == 255)
    && (mask == 255 <==> exists m :: 0 <= m < n && ds[m] == 255)
  }

  lemma MaskStep(mask: byte, ds: seq<nat>, n: nat, digit: byte)
    requires n < |ds| && Masks(mask, ds, n)
    requires digit as nat == ds[n] && (digit < 32 || digit == 255)
    ensures Or(mask, digit) < 256 && Masks(Or(mask, digit), ds, n + 1)
    ensures Or(mask, digit) < 32 ==> mask < 32 && digit < 32
  {
    OrByte(mask, digit);
  }

  /** The loop has read the first `n` digits. */
  ghost predicate Reading(out: seq<byte>, carry: byte, mask: byte, ds: seq<nat>, n: nat)
    requires n <= |ds|
  {
    Masks(mask, ds, n) && (mask < 32 ==> Represents(out, carry, Digits(ds[..n]), n))
  }

  lemma ByteIndex(n: nat, len: nat)
    requires n < EncodeLen(len)
    ensures n * 5 / 8 < len
  {
  }

  /** The byte once the low bits of the digit, shifted by `j`, and the carry have been combined into it. */
  function NewByte(cell: byte, carry: byte, j: nat, digit: byte): (x: byte)
    requires j < 8
  {
    var lo := Shl(digit, j) % 256;
    OrByte(lo, carry);
    OrByte(cell, Or(lo, carry));
    Or(cell, Or(lo, carry))
  }

  function NewCarry(j: nat, digit: byte): (x: byte)
    requires j < 8
  {
    ShiftedDigit(digit, j);
    Shl(digit, j) / 256
  }

  lemma DigitStep(out: seq<byte>, carry: byte, ds: seq<nat>, n: nat, digit: byte, i: nat, j: nat)
    requires n < |ds| && i == n * 5 / 8 && j == n * 5 % 8 && i < |out| && digit < 32 && digit as nat == ds[n]
    requires Represents(out, carry, Digits(ds[..n]), n)
    ensures Represents(out[i := NewByte(out[i], carry, j, digit)], NewCarry(j, digit), Digits(ds[..n + 1]), n + 1)
  {
    PlaceIs(n);
    RepresentsStep(out, carry, Digits(ds[..n]), n, digit, i, j);
    DigitsAppend(ds[..n], ds[n]);
    assert ds[..n] + [ds[n]] == ds[..n + 1];
  }

  lemma ReadStep(out: seq<byte>, carry: byte, mask: byte, ds: seq<nat>, n: nat, digit: byte, i: nat, j: nat)
    requires n < |ds| && i == n * 5 / 8 && j == n * 5 % 8 && i < |out| && Reading(out, carry, mask, ds, n)
    requires digit as nat == ds[n] && (digit < 32 || digit == 255)
    ensures Or(mask, digit) < 256
    ensures Reading(out[i := NewByte(out[i], carry, j, digit)], NewCarry(j, digit), Or(mask, digit), ds, n + 1)
  {
    MaskStep(mask, ds, n, digit);
    if Or(mask, digit) < 32 {
      DigitStep(out, carry, ds, n, digit, i, j);
    }
  }

  /** The digit read in iteration `n`. */
  lemma DigitAt(alphabet: string, input: string, n: nat)
    requires |alphabet| == 32 && n < |input|
    ensures var digit := Ord(alphabet, input[|input| - 1 - n]);
            digit as nat == Values(alphabet, input)[n] && (digit < 32 || digit == 255)
  {
  }

  /** The body of the loop of `decode_inner`. */
  method ReadDigit(digit: byte, n: nat, output: array<byte>, carry: byte, mask: byte, ghost ds: seq<nat>)
    returns (carry': byte, mask': byte)
    requires n < |ds| == EncodeLen(output.Length) && Reading(output[..], carry, mask, ds, n)
    requires digit as nat == ds[n] && (digit < 32 || digit == 255)
    modifies output
    ensures Reading(output[..], carry', mask', ds, n + 1)
  {
    var i, j := n * 5 / 8, n * 5 % 8;
    ByteIndex(n, output.Length);
    ReadStep(output[..], carry, mask, ds, n, digit, i, j);
    PutByte(output, i, NewByte(output[i], carry, j, digit));
    carry', mask' := NewCarry(j, digit), Or(mask, digit);
  }

  method PutByte(output: array<byte>, i: nat, x: byte)
    requires i < output.Length
    modifies output
    ensures output[..] == old(output[..])[i := x]
  {
    output[i] := x;
  }

  /** The loop of `decode_inner`. */
  method ReadDigits(alphabet: string, input: string, output: array<byte>) returns (carry: byte, mask: byte)
    requires |alphabet| == 32 && |input| == EncodeLen(output.Length)
    requires forall m :: 0 <= m < output.Length ==> output[m] == 0
    modifies output
    ensures Reading(output[..], carry, mask, Values(alphabet, input), |input|)
  {
    carry, mask := 0, 0;
    ghost var ds := Values(alphabet, input);
    ReadNothing(output[..], ds);
    for n := 0 to |input|
      invariant Reading(output[..], carry, mask, ds, n)
    {
      DigitAt(alphabet, input, n);
      carry, mask := ReadDigit(Ord(alphabet, input[|input| - 1 - n]), n, output, carry, mask, ds);
    }
  }

  method DecodeInner(alphabet: string, input: string, output: array<byte>) returns (err: Option<DecodeError>)
    requires |alphabet| == 32 && |input| == EncodeLen(output.Length)
    requires forall m :: 0 <= m < output.Length ==> output[m] == 0
    modifies output
    ensures RightAnswer(alphabet, input, output[..], err)
  {
    var carry, mask := ReadDigits(alphabet, input, output);
    MaskIs(alphabet, input, mask);
    if mask == 255 {
      var at := FindInvalid(alphabet, input);
      return Some(DecodeError(at, Symbol));
    }
    ghost var ds := Values(alphabet, input);
    assert ds[..|input|] == ds;
    RepresentsAll(output[..], carry, Digits(ds), |input|);
    if carry != 0 {
      return Some(DecodeError(0, Trailing));
    }
    return None;
  }

  lemma ReadNothing(out: seq<byte>, ds: seq<nat>)
    requires forall m :: 0 <= m < |out| ==> out[m] == 0
    ensures Reading(out, 0, 0, ds, 0)
  {
    assert ds[..0] == [];
    assert UpTo(out, 0, 0, 0, 0);
  }

  /** The mask tells whether every byte was a symbol. */
  lemma MaskIs(alphabet: string, input: string, mask: byte)
    requires |alphabet| == 32
    requires Masks(mask, Values(alphabet, input), |input|)
    ensures mask == 255 <==> !WellFormed(alphabet, input)
  {
    var ds := Values(alphabet, input);
    if m :| 0 <= m < |input| && ds[m] == 255 {
      assert input[|input| - 1 - m] !in alphabet;
    } else {
      forall k | 0 <= k < |input| ensures input[k] in alphabet {
        assert ds[|input| - 1 - k] == Ord(alphabet, input[k]) as nat;
      }
    }
  }

  lemma ShiftedDigit(digit: byte, j: nat)
    requires j < 8
    ensures Shl(digit, j) < 65536
  {
    ShlMonotone(digit, 256, j);
    Shl8(1, 0);
    ShlAdd(1, 8, j);
    ShlAdd(1, 8 + j, 8 - j);
    ShlGrows(Shl(1, 8 + j), 8 - j);
    Shl8(1, 8);
  }

  // ----------------------------------------------------------------- the public API

  /** Which error is reported, and where, when `len` bytes are wanted. */
  ghost predicate ErrorIs(alphabet: string, input: string, len: nat, e: DecodeError)
    requires |alphabet| == 32
  {
    if |input| != EncodeLen(len) then
      e == DecodeError(if |input| < EncodeLen(len) then |input| else EncodeLen(len), Length)
    else if !WellFormed(alphabet, input) then
      && e.kind == Symbol && e.position < |input| && input[e.position] !in alphabet
      && forall k :: 0 <= k < e.position ==> input[k] in alphabet
    else e == DecodeError(0, Trailing)
  }

  lemma ErrorUnique(alphabet: string, input: string, len: nat, e: DecodeError, e': DecodeError)
    requires |alphabet| == 32 && ErrorIs(alphabet, input, len, e) && ErrorIs(alphabet, input, len, e')
    ensures e == e'
  {
  }

  /** What `decode` promises of any input. */
  ghost predicate Decodes(alphabet: string, input: string, r: DecodeResult)
    requires |alphabet| == 32
  {
    match r
    case Ok(x) => input == Encoded(alphabet, x)
    case Err(e) => forall x: seq<byte> :: input != Encoded(alphabet, x)
  }

  lemma AnswerDecodes(alphabet: string, input: string, out: seq<byte>, err: Option<DecodeError>)
    requires IsAlphabet(alphabet) && |input| == EncodeLen(|out|) && RightAnswer(alphabet, input, out, err)
    ensures Decodes(alphabet, input, if err.None? then Ok(out) else Err(err.value))
    ensures err.Some? ==> ErrorIs(alphabet, input, |out|, err.value)
  {
    if err.None? {
      EncodedUnique(alphabet, out, input);
    } else {
      forall x: seq<byte> ensures input != Encoded(alphabet, x) {
        EncodedValue(alphabet, x);
        if |input| == EncodeLen(|x|) {
          EncodeLenInjective(|x|, |out|);
          BytesBound(x);
        }
      }
    }
  }

  method DecodeWith(alphabet: string, input: string) returns (r: DecodeResult)
    requires IsAlphabet(alphabet)
    ensures Decodes(alphabet, input, r)
    ensures r.Ok? ==> |r.bytes| == DecodeLen(|input|)
    ensures r.Err? ==> ErrorIs(alphabet, input, DecodeLen(|input|), r.error)
    ensures r.Err? && r.error.kind == Length <==> forall k :: EncodeLen(k) != |input|
  {
    var outputLen := DecodeLen(|input|);
    if |input| != EncodeLen(outputLen) {
      LengthUnmatched(|input|);
      var e := EncodeLen(outputLen);
      forall x: seq<byte> ensures input != Encoded(alphabet, x) {
        EncodedValue(alphabet, x);
        assert EncodeLen(|x|) != |input|;
      }
      return Err(DecodeError(if |input| < e then |input| else e, Length));
    }
    var output := new byte[outputLen](_ => 0);
    var err := DecodeInner(alphabet, input, output);
    AnswerDecodes(alphabet, input, output[..], err);
    r := if err.None? then Ok(output[..]) else Err(err.value);
  }

  lemma DecodeLenOfEncodeLen(k: nat)
    ensures DecodeLen(EncodeLen(k)) == k
  {
  }

  /** The length test refuses exactly the lengths that no encoding has. */
  lemma LengthUnmatched(len: nat)
    ensures len != EncodeLen(DecodeLen(len)) <==> forall k: nat :: EncodeLen(k) != len
  {
    forall k: nat ensures EncodeLen(k) == len ==> DecodeLen(len) == k {
      DecodeLenOfEncodeLen(k);
    }
  }

  /** Decodes to exactly `k` bytes. */
  method DecodeFixedWith(alphabet: string, k: nat, input: string) returns (r: DecodeResult)
    requires IsAlphabet(alphabet)
    ensures r.Ok? ==> |r.bytes| == k && input == Encoded(alphabet, r.bytes)
    ensures r.Err? ==> forall x: seq<byte> :: |x| == k ==> input != Encoded(alphabet, x)
    ensures r.Err? ==> ErrorIs(alphabet, input, k, r.error)
  {
    if |input| != EncodeLen(k) {
      forall x: seq<byte> | |x| == k ensures input != Encoded(alphabet, x) {
        EncodedValue(alphabet, x);
      }
      return Err(DecodeError(if |input| < EncodeLen(k) then |input| else EncodeLen(k), Length));
    }
    var output := new byte[k](_ => 0);
    var err := DecodeInner(alphabet, input, output);
    AnswerDecodes(alphabet, input, output[..], err);
    r := if err.None? then Ok(output[..]) else Err(err.value);
  }

  /** Where a fixed length is the one decoded to, both decoders give the same answer. */
  method DecodersAgree(alphabet: string, k: nat, input: string) returns (r: DecodeResult, fixed: DecodeResult)
    requires IsAlphabet(alphabet)
    ensures |input| == EncodeLen(k) ==> fixed == r
    ensures |input| != EncodeLen(k) ==> fixed.Err? && fixed.error.kind == Length
  {
    r := DecodeWith(alphabet, input);
    fixed := DecodeFixedWith(alphabet, k, input);
    if |input| == EncodeLen(k) {
      DecodeLenOfEncodeLen(k);
      if r.Ok? && fixed.Ok? {
        EncodedInjective(alphabet, r.bytes, fixed.bytes);
      } else if r.Err? && fixed.Err? {
        ErrorUnique(alphabet, input, k, r.error, fixed.error);
      }
    }
  }

  lemma AlphabetStep(i: nat)
    requires i < 31
    ensures |ALPHABET| == 32 && ALPHABET[i] < ALPHABET[i + 1]
  {
  }

  lemma {:induction false} AlphabetIncreasing(i: nat, j: nat)
    requires i < j < 32
    ensures |ALPHABET| == 32 && ALPHABET[i] < ALPHABET[j]
    decreases j
  {
    AlphabetStep(j - 1);
    if i < j - 1 { AlphabetIncreasing(i, j - 1); }
  }

  lemma NixAlphabet()
    ensures IsAlphabet(ALPHABET)
  {
    forall i, j | 0 <= i < j < 32 ensures |ALPHABET| == 32 && ALPHABET[i] < ALPHABET[j] {
      AlphabetIncreasing(i, j);
    }
  }

  /** The symbols: digits and lower-case letters without `e`, `o`, `t` and `u`. */
  predicate NixSymbol(c: char) {
    ('0' <= c <= '9' || 'a' <= c <= 'z') && c != 'e' && c != 'o' && c != 't' && c != 'u'
  }

  /** What a symbol stands for: its place among the symbols. */
  function NixDigit(c: char): (d: nat)
    requires NixSymbol(c)
    ensures d < 32
  {
    var x := c as int;
    if c <= '9' then x - 48
    else if c < 'e' then x - 97 + 10
    else if c < 'o' then x - 97 + 9
    else if c < 't' then x - 97 + 8
    else x - 97 + 6
  }

  /** The constant has exactly these symbols at these places. */
  lemma AlphabetAt(d: nat)
    requires d < 32
    ensures |ALPHABET| == 32 && NixSymbol(ALPHABET[d]) && NixDigit(ALPHABET[d]) == d
  {
  }

  lemma NixSymbols(c: char)
    ensures c in ALPHABET <==> NixSymbol(c)
    ensures NixSymbol(c) ==> Ord(ALPHABET, c) as nat == NixDigit(c)
  {
    if c in ALPHABET {
      var d: nat :| d < 32 && ALPHABET[d] == c;
      AlphabetAt(d);
    }
    if NixSymbol(c) {
      AlphabetAt(NixDigit(c));
      DigitDetermines(c, ALPHABET[NixDigit(c)]);
      NixAlphabet();
      OrdOfSymbol(ALPHABET, NixDigit(c));
    }
  }

  lemma DigitDetermines(a: char, b: char)
    requires NixSymbol(a) && NixSymbol(b) && NixDigit(a) == NixDigit(b)
    ensures a == b
  {
  }

  /** The text is over the symbols. */
  ghost predicate NixText(s: string) {
    forall k :: 0 <= k < |s| ==> NixSymbol(s[k])
  }

  /** The number the text denotes, its last symbol being the least significant digit. */
  ghost function NixValue(s: string): nat
    requires NixText(s)
  {
    if s == "" then 0 else 32 * NixValue(s[..|s| - 1]) + NixDigit(s[|s| - 1])
  }

  lemma {:induction false} NixValueIs(s: string)
    requires NixText(s) && |ALPHABET| == 32
    ensures NixValue(s) == Digits(Values(ALPHABET, s))
    decreases |s|
  {
    var v := Values(ALPHABET, s);
    if s != "" {
      var init := s[..|s| - 1];
      NixSymbols(s[|s| - 1]);
      NixValueIs(init);
      assert v[1..] == Values(ALPHABET, init);
    }
  }

  /** The text encodes the bytes: symbols only, no more than needed, and the same number. */
  ghost predicate Encodes(s: string, x: seq<byte>) {
    NixText(s) && 8 * |x| <= 5 * |s| < 8 * |x| + 5 && NixValue(s) == Bytes(x)
  }

  lemma NixTextIs(s: string)
    requires |ALPHABET| == 32
    ensures NixText(s) <==> WellFormed(ALPHABET, s)
  {
    forall k | 0 <= k < |s| ensures NixSymbol(s[k]) <==> s[k] in ALPHABET { NixSymbols(s[k]); }
  }

  lemma EncodesIff(s: string, x: seq<byte>)
    ensures IsAlphabet(ALPHABET)
    ensures s == Encoded(ALPHABET, x) <==> Encodes(s, x)
  {
    NixAlphabet();
    NixTextIs(s);
    if s == Encoded(ALPHABET, x) { EncodedValue(ALPHABET, x); }
    if NixText(s) { NixValueIs(s); }
    if Encodes(s, x) { EncodedUnique(ALPHABET, x, s); }
  }

  /** `encode`. */
  method Encode(x: seq<byte>) returns (s: string)
    ensures Encodes(s, x)
  {
    NixAlphabet();
    s := EncodeWith(ALPHABET, x);
    EncodesIff(s, x);
  }

  /** `decode`: the bytes that the text encodes; an error if there are none, namely that of the
      length if no text of that length is an encoding, else that of the first character that is
      no symbol, else that of bits left over. */
  method Decode(s: string) returns (r: DecodeResult)
    ensures r.Ok? ==> Encodes(s, r.bytes)
    ensures r.Err? ==> forall x: seq<byte> :: !Encodes(s, x)
    ensures r.Err? && r.error.kind == Length <==> forall k: nat :: !(8 * k <= 5 * |s| < 8 * k + 5)
    ensures r.Err? && r.error.kind == Length ==> r.error.position == |s| - 1
    ensures r.Err? && r.error.kind == Symbol ==>
              && r.error.position < |s| && !NixSymbol(s[r.error.position])
              && forall k :: 0 <= k < r.error.position ==> NixSymbol(s[k])
    ensures r.Err? && r.error.kind == Trailing ==> r.error.position == 0 && NixText(s)
  {
    NixAlphabet();
    r := DecodeWith(ALPHABET, s);
    NixTextIs(s);
    forall x: seq<byte> ensures s == Encoded(ALPHABET, x) <==> Encodes(s, x) { EncodesIff(s, x); }
    forall k | 0 <= k < |s| ensures NixSymbol(s[k]) <==> s[k] in ALPHABET { NixSymbols(s[k]); }
  }

  /** Decoding undoes encoding, for every byte string. */
  method RoundTrip(x: seq<byte>) returns (r: DecodeResult)
    ensures r == Ok(x)
  {
    var s := Encode(x);
    r := Decode(s);
    if r.Ok? {
      EncodesIff(s, x);
      EncodesIff(s, r.bytes);
      EncodedInjective(ALPHABET, x, r.bytes);
    }
  }
}
