/** sha512Crypt (internal/sysconfig/user.go) against Drepper's "Unix crypt using
    SHA-256 and SHA-512". SHA-512 is a parameter: any function to 64 bytes. */
module Sha512Crypt {
  type Byte = x: int | 0 <= x < 256
  type Bytes = seq<Byte>
  type Digest = d: Bytes | |d| == 64 witness seq(64, _ => 0)

  const ROUNDS := 5000

  // ---------- the published scheme ----------

  /** Steps 9-10, 16 and 20: `n` bytes of a digest, repeated as often as needed. */
  function Cycle(d: Digest, n: nat): (r: Bytes)
    ensures |r| == n
  {
    seq(n, i requires 0 <= i < n => d[i % 64])
  }

  function Repeated(s: Bytes, n: nat): Bytes {
    if n == 0 then [] else Repeated(s, n - 1) + s
  }

  function Pow2(k: nat): (r: nat)
    ensures r >= 1
  {
    if k == 0 then 1 else 2 * Pow2(k - 1)
  }

  /** `n` without its `k` lowest binary digits. */
  function Shifted(n: nat, k: nat): int {
    n / Pow2(k)
  }

  function BitLength(n: nat): nat {
    if n == 0 then 0 else BitLength(n / 2) + 1
  }

  /** BitLength counts the binary digits up to the highest 1. */
  lemma {:induction false} HighestDigit(n: nat)
    ensures n < Pow2(BitLength(n))
    ensures n > 0 ==> Pow2(BitLength(n)) <= 2 * n
  {
    if n > 0 {
      HighestDigit(n / 2);
    }
  }

  /** Step 11: for each of the `k` lowest binary digits of `n`, lowest first, the digest
      for a 1 and the password for a 0. */
  function BitBlocks(n: nat, k: nat, b: Bytes, key: Bytes): Bytes {
    if k == 0 then []
    else BitBlocks(n, k - 1, b, key) + if Shifted(n, k - 1) % 2 == 1 then b else key
  }

  /** Steps 4-8. */
  function DigestB(hash: Bytes -> Digest, key: Bytes, salt: Bytes): Digest {
    hash(key + salt + key)
  }

  /** Steps 1-12. */
  function DigestA(hash: Bytes -> Digest, key: Bytes, salt: Bytes): Digest {
    var b := DigestB(hash, key, salt);
    hash(key + salt + Cycle(b, |key|) + BitBlocks(|key|, BitLength(|key|), b, key))
  }

  /** Steps 13-16. */
  function SequenceP(hash: Bytes -> Digest, key: Bytes): Bytes {
    Cycle(hash(Repeated(key, |key|)), |key|)
  }

  function SaltCopies(a: Digest): nat {
    var first: int := a[0];
    16 + first
  }

  /** Steps 17-20. */
  function SequenceS(hash: Bytes -> Digest, salt: Bytes, a: Digest): Bytes {
    Cycle(hash(Repeated(salt, SaltCopies(a))), |salt|)
  }

  /** Step 21, `n` rounds of it. */
  function Rounds(hash: Bytes -> Digest, a: Digest, p: Bytes, s: Bytes, n: nat): Digest {
    if n == 0 then a
    else
      var i, c := n - 1, Rounds(hash, a, p, s, n - 1);
      hash((if i % 2 == 1 then p else c)
           + (if i % 3 == 0 then [] else s)
           + (if i % 7 == 0 then [] else p)
           + (if i % 2 == 1 then c else p))
  }

  /** The lowest binary digit comes first: 5 is 1, 0, 1 and 6 is 0, 1, 1. */
  lemma LowestFirst(b: Bytes, key: Bytes)
    ensures BitBlocks(5, BitLength(5), b, key) == b + key + b
    ensures BitBlocks(6, BitLength(6), b, key) == key + b + b
  {
    assert BitLength(5) == BitLength(6) == 3 by {
      assert BitLength(2) == BitLength(3) == 2 && BitLength(1) == 1;
    }
    assert Pow2(0) == 1 && Pow2(1) == 2 && Pow2(2) == 4;
    BlocksStep(5, b, key);
    BlocksStep(6, b, key);
  }

  lemma BlocksStep(n: nat, b: Bytes, key: Bytes)
    requires Pow2(0) == 1 && Pow2(1) == 2 && Pow2(2) == 4
    ensures BitBlocks(n, 3, b, key) ==
      (if n % 2 == 1 then b else key) + (if n / 2 % 2 == 1 then b else key) + if n / 4 % 2 == 1 then b else key
  {
    assert BitBlocks(n, 0, b, key) == [];
    assert BitBlocks(n, 1, b, key) == if n % 2 == 1 then b else key;
    assert BitBlocks(n, 2, b, key) == BitBlocks(n, 1, b, key) + if n / 2 % 2 == 1 then b else key;
  }

  /** What round `i` hashes: the running digest `c` comes first in even rounds and last in odd ones,
      P at the other end, S only if 3 does not divide the number and P once more only if 7 does not. */
  lemma RoundHashes(hash: Bytes -> Digest, a: Digest, p: Bytes, s: Bytes, i: nat)
    ensures Rounds(hash, a, p, s, 0) == a
    ensures var c, next := Rounds(hash, a, p, s, i), Rounds(hash, a, p, s, i + 1);
      next == hash(
        if i % 2 == 0 then
          if i % 21 == 0 then c + p
          else if i % 3 == 0 then c + p + p
          else if i % 7 == 0 then c + s + p
          else c + s + p + p
        else
          if i % 21 == 0 then p + c
          else if i % 3 == 0 then p + p + c
          else if i % 7 == 0 then p + s + c
          else p + s + p + c)
  {
    var c := Rounds(hash, a, p, s, i);
    assert c + [] == c && p + [] == p && c + s + [] == c + s && p + s + [] == p + s && p + [] + [] == p;
    assert i % 21 == 0 <==> i % 3 == 0 && i % 7 == 0;
  }

  /** A stand-in for the hash that shows what it is given. */
  function Shown(m: Bytes): Digest {
    seq(64, i requires 0 <= i < 64 => if i < |m| then m[i] else 0)
  }

  /** What digests B and A are made of, for the password 1 and the salt 2. */
  lemma DigestInputs()
    ensures DigestB(Shown, [1], [2])[..4] == [1, 2, 1, 0]
    ensures DigestA(Shown, [1], [2])[..7] == [1, 2, 1, 1, 2, 1, 0]
  {
    var key: Bytes, salt: Bytes := [1], [2];
    var b := DigestB(Shown, key, salt);
    assert key + salt + key == [1, 2, 1];
    assert b[0] == 1 && b[1] == 2 && b[2] == 1 && b[3] == 0;
    assert Cycle(b, 1) == [1];
    assert BitLength(1) == 1 && Pow2(0) == 1;
    assert BitBlocks(1, 0, b, key) == [];
    assert BitBlocks(1, 1, b, key) == b;
    var m := key + salt + Cycle(b, 1) + BitBlocks(1, 1, b, key);
    assert m == [1, 2, 1] + b;
    assert DigestA(Shown, key, salt) == Shown(m);
  }

  function Truncated(salt: Bytes): Bytes {
    if |salt| > 16 then salt[..16] else salt
  }

  function FinalDigest(hash: Bytes -> Digest, key: Bytes, salt: Bytes): Digest {
    var a := DigestA(hash, key, salt);
    Rounds(hash, a, SequenceP(hash, key), SequenceS(hash, salt, a), ROUNDS)
  }

  // ---------- step 22: the characters ----------

  /** The crypt alphabet "./0-9A-Za-z". */
  function Letter(v: nat): Byte
    requires v < 64
  {
    if v < 12 then v + 46 else if v < 38 then v + 53 else v + 59
  }

  /** The alphabet's order: the dot, the slash, the digits, the capital and the small letters. */
  lemma LetterIs(v: nat)
    requires v < 64
    ensures Letter(v) as int ==
      if v == 0 then '.' as int
      else if v == 1 then '/' as int
      else if v < 12 then '0' as int + v - 2
      else if v < 38 then 'A' as int + v - 12
      else 'a' as int + v - 38
  {}

  function LetterValue(c: Byte): Option {
    if 46 <= c < 58 then Value(c - 46)
    else if 65 <= c < 91 then Value(c - 53)
    else if 97 <= c < 123 then Value(c - 59)
    else NotALetter
  }

  datatype Option = Value(v: nat) | NotALetter

  lemma LetterInverse(v: nat, c: Byte)
    ensures v < 64 ==> LetterValue(Letter(v)) == Value(v)
    ensures LetterValue(c).Value? ==> LetterValue(c).v < 64 && Letter(LetterValue(c).v) == c
  {}

  /** The digest index in the j-th most significant byte of group g: the three thirds
      of the digest in the first group, rotated by one more place in each next one. */
  function Slot(g: nat, j: nat): nat
    requires j < 3
  {
    if g == 0 then 21 * j else 1 + Slot(g - 1, if j == 2 then 0 else j + 1)
  }

  /** Where byte i of a full group stands in its group. */
  function Place(i: nat): (j: nat)
    ensures j < 3
  {
    (i / 21 + 3 - i % 21 % 3) % 3
  }

  /** The recursive definition in closed form. */
  lemma {:induction false} SlotClosed(g: nat, j: nat)
    requires j < 3
    ensures Slot(g, j) == g + 21 * ((j + g) % 3)
  {
    if g > 0 {
      SlotClosed(g - 1, if j == 2 then 0 else j + 1);
    }
  }

  function Word(b2: Byte, b1: Byte, b0: Byte): (w: nat)
    ensures w < 16777216
  {
    b2 * 65536 + b1 * 256 + b0
  }

  function GroupWord(c: Digest, g: nat): (w: nat)
    requires g < 22
    ensures w < 16777216
  {
    if g == 21 then Word(0, 0, c[63])
    else
      SlotClosed(g, 0);
      SlotClosed(g, 1);
      SlotClosed(g, 2);
      Word(c[Slot(g, 0)], c[Slot(g, 1)], c[Slot(g, 2)])
  }

  /** Six-bit digit j of a word, the least significant first. */
  function Digit(w: nat, j: nat): (d: nat)
    requires j < 4
    ensures d < 64
  {
    if j == 0 then w % 64 else if j == 1 then w / 64 % 64
    else if j == 2 then w / 4096 % 64 else w / 262144 % 64
  }

  function Encode(c: Digest): (r: Bytes)
    ensures |r| == 86
  {
    seq(86, k requires 0 <= k < 86 => Letter(Digit(GroupWord(c, k / 4), k % 4)))
  }

  function DigitAt(text: Bytes, k: nat): nat {
    if k < |text| && LetterValue(text[k]).Value? then LetterValue(text[k]).v else 0
  }

  function TextWord(text: Bytes, g: nat): nat {
    DigitAt(text, 4 * g) + 64 * DigitAt(text, 4 * g + 1)
    + 4096 * DigitAt(text, 4 * g + 2) + 262144 * DigitAt(text, 4 * g + 3)
  }

  /** Byte j of a word, the most significant of the three first. */
  function ByteOf(w: nat, j: nat): Byte
    requires j < 3
  {
    if j == 0 then w / 65536 % 256 else if j == 1 then w / 256 % 256 else w % 256
  }

  function DecodedByte(text: Bytes, i: nat): Byte
    requires i < 64
  {
    if i == 63 then ByteOf(TextWord(text, 21), 2) else ByteOf(TextWord(text, i % 21), Place(i))
  }

  function Decode(text: Bytes): Digest {
    seq(64, i requires 0 <= i < 64 => DecodedByte(text, i))
  }

  lemma DigitsOfWord(w: nat)
    requires w < 16777216
    ensures w == Digit(w, 0) + 64 * Digit(w, 1) + 4096 * Digit(w, 2) + 262144 * Digit(w, 3)
  {
    assert w / 64 / 64 == w / 4096 && w / 4096 / 64 == w / 262144;
  }

  lemma EncodedWord(c: Digest, g: nat)
    requires g < 22
    ensures TextWord(Encode(c), g) == GroupWord(c, g)
  {
    var text, w := Encode(c), GroupWord(c, g);
    DigitsOfWord(w);
    forall j: nat | j < 4 ensures DigitAt(text, 4 * g + j) == Digit(w, j) {
      if 4 * g + j < 86 {
        assert (4 * g + j) / 4 == g && (4 * g + j) % 4 == j;
        LetterInverse(Digit(w, j), 0);
      } else {
        assert g == 21 && j >= 2 && w < 256;
      }
    }
    assert DigitAt(text, 4 * g + 0) == Digit(w, 0);
    assert DigitAt(text, 4 * g + 1) == Digit(w, 1);
    assert DigitAt(text, 4 * g + 2) == Digit(w, 2);
    assert DigitAt(text, 4 * g + 3) == Digit(w, 3);
  }

  /** The 86 characters hold every digest byte: a decoder gives the digest back. */
  lemma DecodeEncode(c: Digest)
    ensures Decode(Encode(c)) == c
    ensures forall k | 0 <= k < 86 :: LetterValue(Encode(c)[k]).Value?
  {
    hide Encode, TextWord, GroupWord;
    assert forall k | 0 <= k < 86 :: LetterValue(Encode(c)[k]).Value? by {
      LettersOnly(c);
    }
    forall i | 0 <= i < 64 ensures Decode(Encode(c))[i] == c[i] {
      if i == 63 {
        EncodedWord(c, 21);
        LastByte(c);
      } else {
        EncodedWord(c, i % 21);
        GroupByte(c, i % 21, Place(i));
        SlotOf(i, i % 21, Place(i));
      }
    }
  }

  lemma LettersOnly(c: Digest)
    ensures forall k | 0 <= k < 86 :: LetterValue(Encode(c)[k]).Value?
  {
    forall k | 0 <= k < 86 ensures LetterValue(Encode(c)[k]).Value? {
      LetterInverse(Digit(GroupWord(c, k / 4), k % 4), 0);
    }
  }

  lemma LastByte(c: Digest)
    ensures ByteOf(GroupWord(c, 21), 2) == c[63]
  {}

  lemma BytesOfWord(b2: Byte, b1: Byte, b0: Byte)
    ensures ByteOf(Word(b2, b1, b0), 0) == b2
    ensures ByteOf(Word(b2, b1, b0), 1) == b1
    ensures ByteOf(Word(b2, b1, b0), 2) == b0
  {
    var w: int := Word(b2, b1, b0);
    var hi: int := b2;
    var mid: int := b1;
    assert w / 256 == hi * 256 + mid;
    assert w / 65536 == hi;
  }

  lemma GroupByte(c: Digest, g: nat, j: nat)
    requires g < 21 && j < 3
    ensures Slot(g, j) < 63
    ensures ByteOf(GroupWord(c, g), j) == c[Slot(g, j)]
  {
    hide ByteOf, Word, Slot;
    SlotClosed(g, j);
    SlotClosed(g, 0);
    SlotClosed(g, 1);
    SlotClosed(g, 2);
    BytesOfWord(c[Slot(g, 0)], c[Slot(g, 1)], c[Slot(g, 2)]);
  }

  /** Each of the first 63 bytes has exactly one place in the 21 full groups. */
  lemma SlotOf(i: nat, g: nat, j: nat)
    requires i < 63 && g < 21 && j < 3
    ensures Slot(g, j) == i <==> g == i % 21 && j == Place(i)
  {
    hide Slot;
    SlotClosed(g, j);
  }

  // ---------- the code ----------

  /** The block loops: whole digests while more than 64 bytes are left, then a prefix. */
  method AppendBlocks(h: Bytes, d: Digest, n: nat) returns (r: Bytes)
    ensures r == h + Cycle(d, n)
  {
    r := h;
    var cnt := n;
    while cnt > 0
      invariant 0 <= cnt <= n
      invariant cnt == 0 || (n - cnt) % 64 == 0
      invariant r == h + Cycle(d, n - cnt)
    {
      var done := n - cnt;
      var block: Bytes := if cnt > 64 then d else d[..cnt];
      CycleGrows(d, done, |block|);
      r := r + block;
      cnt := if cnt > 64 then cnt - 64 else 0;
    }
  }

  lemma CycleGrows(d: Digest, done: nat, k: nat)
    requires done % 64 == 0 && k <= 64
    ensures Cycle(d, done + k) == Cycle(d, done) + d[..k]
  {
    forall i | done <= i < done + k ensures i % 64 == i - done {
    }
  }

  /** The bit loop: cnt&1, then cnt >>= 1, until no bit is left. */
  method AppendBits(h: Bytes, b: Digest, key: Bytes) returns (r: Bytes)
    ensures r == h + BitBlocks(|key|, BitLength(|key|), b, key)
  {
    hide Shifted, Pow2;
    ShiftedByNone(|key|);
    r := h;
    var cnt := |key|;
    ghost var k := 0;
    while cnt > 0
      invariant 0 <= cnt == Shifted(|key|, k)
      invariant k + BitLength(cnt) == BitLength(|key|)
      invariant r == h + BitBlocks(|key|, k, b, key)
      decreases cnt
    {
      Halved(|key|, k);
      r := r + if cnt % 2 != 0 then b else key;
      cnt := cnt / 2;
      k := k + 1;
    }
  }

  lemma ShiftedByNone(n: nat)
    ensures Shifted(n, 0) == n
  {}

  lemma Halved(n: nat, k: nat)
    ensures Shifted(n, k) / 2 == Shifted(n, k + 1)
  {
    var p, q := Pow2(k), n / Pow2(k);
    assert n == q * p + n % p;
    var h := q / 2;
    assert q == 2 * h + q % 2;
    assert n == h * (2 * p) + ((q % 2) * p + n % p);
    assert 0 <= (q % 2) * p + n % p < 2 * p;
    QuotientIs(n, 2 * p, h, (q % 2) * p + n % p);
  }

  lemma QuotientIs(n: int, d: int, q: int, r: int)
    requires d > 0 && n == q * d + r && 0 <= r < d
    ensures n / d == q
  {
    var e := n / d - q;
    assert e * d == r - n % d;
    AtLeastOnce(e, d);
  }

  lemma AtLeastOnce(e: int, d: int)
    requires d > 0
    ensures e >= 1 ==> e * d >= d
    ensures e <= -1 ==> e * d <= -d
  {}

  method AppendCopies(s: Bytes, n: nat) returns (r: Bytes)
    ensures r == Repeated(s, n)
  {
    r := [];
    for i := 0 to n
      invariant r == Repeated(s, i)
    {
      r := r + s;
    }
  }

  /** The text holds the first groups of the digest and nothing else. */
  ghost predicate Begins(text: Bytes, c: Digest) {
    |text| <= 86 && text == Encode(c)[..|text|]
  }

  lemma BeginsAndEnds(text: Bytes, c: Digest)
    ensures Begins([], c)
    ensures |text| == 86 && Begins(text, c) ==> text == Encode(c)
  {}

  /** A word without its j lowest six-bit digits. */
  function Upper(w: nat, j: nat): nat {
    if j == 0 then w else Upper(w, j - 1) / 64
  }

  lemma UpperDigit(w: nat, j: nat)
    requires j < 4
    ensures Upper(w, j) % 64 == Digit(w, j)
  {
    assert w / 64 / 64 == w / 4096 && w / 4096 / 64 == w / 262144;
    assert Upper(w, 1) == w / 64;
    assert Upper(w, 2) == w / 4096;
    assert Upper(w, 3) == w / 262144;
  }

  lemma EncodedAt(c: Digest, g: nat, j: nat)
    requires j < 4 && 4 * g + j < 86
    ensures Encode(c)[4 * g + j] == Letter(Digit(GroupWord(c, g), j))
  {
    hide GroupWord, Digit, Letter;
    assert (4 * g + j) / 4 == g && (4 * g + j) % 4 == j;
  }

  lemma BeginsNext(text: Bytes, c: Digest)
    requires Begins(text, c) && |text| < 86
    ensures Begins(text + [Encode(c)[|text|]], c)
  {
    hide Encode;
  }

  /** b64: n characters of one word, extending the text by group g. */
  method B64(text: Bytes, b2: Byte, b1: Byte, b0: Byte, n: nat, ghost c: Digest, ghost g: nat) returns (out: Bytes)
    requires g < 22 && |text| == 4 * g && Begins(text, c)
    requires n == if g == 21 then 2 else 4
    requires Word(b2, b1, b0) == GroupWord(c, g)
    ensures |out| == |text| + n && Begins(out, c)
  {
    hide Encode, Begins, GroupWord, Word, Digit, Letter;
    out := text;
    var v := Word(b2, b1, b0);
    for i := 0 to n
      invariant |out| == 4 * g + i && Begins(out, c)
      invariant v == Upper(GroupWord(c, g), i)
    {
      EncodedAt(c, g, i);
      UpperDigit(GroupWord(c, g), i);
      BeginsNext(out, c);
      out := out + [Letter(v % 64)];
      v := v / 64;
    }
  }

  /** The permutation written out, group by group. */
  lemma Slots()
    ensures Slot(0, 0) == 0 && Slot(0, 1) == 21 && Slot(0, 2) == 42
    ensures Slot(1, 0) == 22 && Slot(1, 1) == 43 && Slot(1, 2) == 1
    ensures Slot(2, 0) == 44 && Slot(2, 1) == 2 && Slot(2, 2) == 23
    ensures Slot(3, 0) == 3 && Slot(3, 1) == 24 && Slot(3, 2) == 45
    ensures Slot(4, 0) == 25 && Slot(4, 1) == 46 && Slot(4, 2) == 4
    ensures Slot(5, 0) == 47 && Slot(5, 1) == 5 && Slot(5, 2) == 26
    ensures Slot(6, 0) == 6 && Slot(6, 1) == 27 && Slot(6, 2) == 48
    ensures Slot(7, 0) == 28 && Slot(7, 1) == 49 && Slot(7, 2) == 7
    ensures Slot(8, 0) == 50 && Slot(8, 1) == 8 && Slot(8, 2) == 29
    ensures Slot(9, 0) == 9 && Slot(9, 1) == 30 && Slot(9, 2) == 51
    ensures Slot(10, 0) == 31 && Slot(10, 1) == 52 && Slot(10, 2) == 10
    ensures Slot(11, 0) == 53 && Slot(11, 1) == 11 && Slot(11, 2) == 32
    ensures Slot(12, 0) == 12 && Slot(12, 1) == 33 && Slot(12, 2) == 54
    ensures Slot(13, 0) == 34 && Slot(13, 1) == 55 && Slot(13, 2) == 13
    ensures Slot(14, 0) == 56 && Slot(14, 1) == 14 && Slot(14, 2) == 35
    ensures Slot(15, 0) == 15 && Slot(15, 1) == 36 && Slot(15, 2) == 57
    ensures Slot(16, 0) == 37 && Slot(16, 1) == 58 && Slot(16, 2) == 16
    ensures Slot(17, 0) == 59 && Slot(17, 1) == 17 && Slot(17, 2) == 38
    ensures Slot(18, 0) == 18 && Slot(18, 1) == 39 && Slot(18, 2) == 60
    ensures Slot(19, 0) == 40 && Slot(19, 1) == 61 && Slot(19, 2) == 19
    ensures Slot(20, 0) == 62 && Slot(20, 1) == 20 && Slot(20, 2) == 41
  {}

  /** The 22 calls, in the source's own order, build exactly Encode. */
  method EncodeDigest(c: Digest) returns (out: Bytes)
    ensures out == Encode(c)
  {
    hide Encode, Begins, Word, Slot;
    BeginsAndEnds([], c);
    Slots();
    out := [];
    out := B64(out, c[0], c[21], c[42], 4, c, 0);
    out := B64(out, c[22], c[43], c[1], 4, c, 1);
    out := B64(out, c[44], c[2], c[23], 4, c, 2);
    out := B64(out, c[3], c[24], c[45], 4, c, 3);
    out := B64(out, c[25], c[46], c[4], 4, c, 4);
    out := B64(out, c[47], c[5], c[26], 4, c, 5);
    out := B64(out, c[6], c[27], c[48], 4, c, 6);
    out := B64(out, c[28], c[49], c[7], 4, c, 7);
    out := B64(out, c[50], c[8], c[29], 4, c, 8);
    out := B64(out, c[9], c[30], c[51], 4, c, 9);
    out := B64(out, c[31], c[52], c[10], 4, c, 10);
    out := B64(out, c[53], c[11], c[32], 4, c, 11);
    out := B64(out, c[12], c[33], c[54], 4, c, 12);
    out := B64(out, c[34], c[55], c[13], 4, c, 13);
    out := B64(out, c[56], c[14], c[35], 4, c, 14);
    out := B64(out, c[15], c[36], c[57], 4, c, 15);
    out := B64(out, c[37], c[58], c[16], 4, c, 16);
    out := B64(out, c[59], c[17], c[38], 4, c, 17);
    out := B64(out, c[18], c[39], c[60], 4, c, 18);
    out := B64(out, c[40], c[61], c[19], 4, c, 19);
    out := B64(out, c[62], c[20], c[41], 4, c, 20);
    out := B64(out, 0, 0, c[63], 2, c, 21);
    BeginsAndEnds(out, c);
  }

  function Shadow(salt: Bytes, c: Digest): Bytes {
    [36, 54, 36] + salt + [36] + Encode(c)   // $6$salt$...
  }

  /** The entry is $6$, the salt, $ and the digest's 86 characters. */
  lemma ShadowText(salt: Bytes, c: Digest)
    ensures var entry := Shadow(salt, c);
      && |entry| == 4 + |salt| + 86
      && entry[0] as int == '$' as int && entry[1] as int == '6' as int && entry[2] as int == '$' as int
      && entry[3..3 + |salt|] == salt && entry[3 + |salt|] as int == '$' as int && entry[4 + |salt|..] == Encode(c)
  {
    hide Encode;
  }

  /** sha512Crypt is the published scheme at its default 5000 rounds. */
  method Crypt(hash: Bytes -> Digest, password: Bytes, givenSalt: Bytes) returns (r: Bytes)
    ensures var salt := Truncated(givenSalt);
      r == Shadow(salt, FinalDigest(hash, password, salt))
  {
    hide Encode, Cycle, Rounds, BitBlocks, BitLength, Repeated, Pow2, Shifted, SaltCopies;
    var salt := if |givenSalt| > 16 then givenSalt[..16] else givenSalt;
    var b := hash(password + salt + password);
    var h := AppendBlocks(password + salt, b, |password|);
    h := AppendBits(h, b, password);
    var a := hash(h);
    h := AppendCopies(password, |password|);
    var p := AppendBlocks([], hash(h), |password|);
    assert p == SequenceP(hash, password) by {
      assert [] + Cycle(hash(h), |password|) == Cycle(hash(h), |password|);
    }
    h := AppendCopies(salt, SaltCopies(a));
    var s := AppendBlocks([], hash(h), |salt|);
    assert s == SequenceS(hash, salt, a) by {
      assert [] + Cycle(hash(h), |salt|) == Cycle(hash(h), |salt|);
    }
    var c := Mix(hash, a, p, s);
    var text := EncodeDigest(c);
    r := [36, 54, 36] + salt + [36] + text;
  }

  /** The 5000 rounds. */
  method Mix(hash: Bytes -> Digest, a: Digest, p: Bytes, s: Bytes) returns (c: Digest)
    ensures c == Rounds(hash, a, p, s, ROUNDS)
  {
    c := a;
    for i := 0 to ROUNDS
      invariant c == Rounds(hash, a, p, s, i)
    {
      var h: Bytes := if i % 2 != 0 then p else c;
      if i % 3 != 0 {
        h := h + s;
      }
      if i % 7 != 0 {
        h := h + p;
      }
      h := h + if i % 2 != 0 then c else p;
      RoundInput(p, s, c, i, h);
      c := hash(h);
    }
  }

  lemma RoundInput(p: Bytes, s: Bytes, c: Bytes, i: nat, h: Bytes)
    requires h ==
      ((if i % 2 != 0 then p else c) + if i % 3 != 0 then s else [])
      + (if i % 7 != 0 then p else [])
      + (if i % 2 != 0 then c else p)
    ensures h ==
      (if i % 2 == 1 then p else c)
      + (if i % 3 == 0 then [] else s)
      + (if i % 7 == 0 then [] else p)
      + (if i % 2 == 1 then c else p)
  {}

  /** newCryptSalt, for any sixteen random bytes. */
  method NewCryptSalt(random: array<Byte>)
    requires random.Length == 16
    modifies random
    ensures forall i | 0 <= i < 16 :: random[i] == Letter(old(random[i]) % 64)
  {
    for i := 0 to random.Length
      invariant forall k | 0 <= k < i :: random[k] == Letter(old(random[k]) % 64)
      invariant forall k | i <= k < 16 :: random[k] == old(random[k])
    {
      random[i] := Letter(random[i] % 64);
    }
  }

  // ---------- consequences ----------

  /** A password file entry gives back its salt and its digest; a salt of alphabet
      characters cannot be cut short by a '$' of its own. */
  lemma ShadowDetermines(salt: Bytes, c: Digest, salt': Bytes, c': Digest)
    requires Shadow(salt, c) == Shadow(salt', c')
    ensures salt == salt' && c == c'
  {
    hide Encode, Decode;
    DecodeEncode(c);
    DecodeEncode(c');
    var r := Shadow(salt, c);
    assert |r| == |salt| + 90 == |salt'| + 90;
    assert r[3..3 + |salt|] == salt && r[3..3 + |salt'|] == salt';
    assert r[4 + |salt|..] == Encode(c) && r[4 + |salt'|..] == Encode(c');
  }

  lemma SequenceLengths(hash: Bytes -> Digest, key: Bytes, given: Bytes, a: Digest)
    ensures var salt := Truncated(given);
      && |SequenceP(hash, key)| == |key| && |SequenceS(hash, salt, a)| == |salt| <= 16
      && (forall i | 0 <= i < |salt| :: SequenceS(hash, salt, a)[i] == hash(Repeated(salt, 16 + a[0] as int))[i])
      && (forall i | 0 <= i < |key| :: SequenceP(hash, key)[i] == hash(Repeated(key, |key|))[i % 64])
  {}
}
