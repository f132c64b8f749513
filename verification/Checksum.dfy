/**
 The internet checksum of oathgate-net/src/lib.rs, against the fully folded
 one's-complement checksum of RFC 1071 (section 4.1).
 */
module Checksum {
  import opened Bytes

  //
  // Specification
  //

  /** Sum of the data as big-endian words; an odd last byte is padded with zero. */
  function WordSum(s: seq<u8>): (r: nat)
  {
    if |s| == 0 then 0
    else if |s| == 1 then s[0] as int * 0x100
    else Be16At(s, 0) + WordSum(s[2..])
  }

  predicate Carries(sum: nat)
  {
    sum % 0x1_0000 + sum / 0x1_0000 >= 0x1_0000
  }

  /** What the code computes from its 32-bit sum: one fold, truncation, complement. */
  function FoldOnce(sum: nat): (r: u16)
  {
    Fold32(sum % 0x1_0000_0000)
  }

  function Fold32(sum: u32): (r: u16)
  {
    0xFFFF - (sum % 0x1_0000 + sum / 0x1_0000) % 0x1_0000
  }

  /** Section 4.1 of RFC 1071: fold until the sum fits in 16 bits. */
  function FoldFully(sum: nat): (r: u16)
  {
    if sum < 0x1_0000 then sum else FoldFully(sum % 0x1_0000 + sum / 0x1_0000)
  }

  function Rfc1071(sum: nat): (r: u16)
  {
    0xFFFF - FoldFully(sum)
  }

  /** The words of the pseudo-header of RFC 768 and RFC 9293, length cut to 16 bits. */
  function PseudoSum(src: u32, dst: u32, proto: u8, len: nat): (r: nat)
    ensures r <= 5 * 0xFFFF + 0xFF
  {
    src / 0x1_0000 + src % 0x1_0000 + dst / 0x1_0000 + dst % 0x1_0000 + proto + len % 0x1_0000
  }

  //
  // The loops
  //

  method ComputeChecksum(data: seq<u8>) returns (csum: u16)
    ensures csum == FoldOnce(WordSum(data))
  {
    var sum := SumChunks(0, data);
    csum := Fold32(sum);
  }

  method ComputePhChecksum(src: u32, dst: u32, proto: u8, data: seq<u8>) returns (csum: u16)
    ensures csum == FoldOnce(PseudoSum(src, dst, proto, |data|) + WordSum(data))
  {
    var sum := src % 0x1_0000;
    sum := sum + src / 0x1_0000;
    sum := sum + dst % 0x1_0000;
    sum := sum + dst / 0x1_0000;
    sum := sum + proto;
    sum := sum + |data| % 0x1_0000;
    sum := SumChunks(sum, data);
    csum := Fold32(sum);
  }

  lemma WrapAdd(exact: nat, word: nat)
    ensures (exact % 0x1_0000_0000 + word) % 0x1_0000_0000 == (exact + word) % 0x1_0000_0000
  {
  }

  /** The loop over 2-byte chunks; the 32-bit sum wraps. */
  method SumChunks(seed: u32, data: seq<u8>) returns (total: u32)
    ensures total == (seed + WordSum(data)) % 0x1_0000_0000
  {
    total := seed;
    ghost var exact := seed;
    var i := 0;
    while i < |data|
      invariant 0 <= i <= |data|
      invariant exact + WordSum(data[i..]) == seed + WordSum(data)
      invariant exact >= 0 && total == exact % 0x1_0000_0000
    {
      ghost var rest := data[i..];
      var b0 := data[i];
      var b1 := if i + 1 == |data| then 0 else data[i + 1];
      var word := b0 as int * 0x100 + b1;
      assert i + 1 < |data| ==> rest[2..] == data[i + 2..];
      WrapAdd(exact, word);
      total := (total + word) % 0x1_0000_0000;
      exact := exact + word;
      i := if i + 1 == |data| then i + 1 else i + 2;
    }
  }

  //
  // Against RFC 1071
  //

  /**
   The code agrees with RFC 1071 exactly when the single fold does not carry,
   and is too large by exactly one otherwise.
   */
  lemma FoldOnceAgainstRfc1071(sum: u32)
    ensures FoldOnce(sum) == Rfc1071(sum) <==> !Carries(sum)
    ensures FoldOnce(sum) == Rfc1071(sum) + if Carries(sum) then 1 else 0
  {
    hide FoldFully, FoldOnce;
    FoldOnceIs(sum);
    FoldStep(sum);
    FoldOfSmall(sum % 0x1_0000 + sum / 0x1_0000);
  }

  lemma FoldOnceIs(sum: u32)
    ensures var t := sum % 0x1_0000 + sum / 0x1_0000;
            && t <= 0x1_FFFE && (sum < 0x1_0000 ==> t == sum)
            && FoldOnce(sum) == 0xFFFF - if t < 0x1_0000 then t else t - 0x1_0000
  {
    assert sum % 0x1_0000_0000 == sum;
    HalfOf(sum);
    LowHalf(sum % 0x1_0000 + sum / 0x1_0000);
    assert FoldOnce(sum) == Fold32(sum);
  }

  lemma HalfOf(sum: u32)
    ensures sum / 0x1_0000 <= 0xFFFF && (sum < 0x1_0000 ==> sum % 0x1_0000 == sum && sum / 0x1_0000 == 0)
  {
  }

  lemma LowHalf(t: nat)
    requires t <= 0x1_FFFE
    ensures t % 0x1_0000 == if t < 0x1_0000 then t else t - 0x1_0000
  {
  }

  lemma FoldOfSmall(t: nat)
    requires t <= 0x1_FFFE
    ensures FoldFully(t) == if t < 0x1_0000 then t else t - 0xFFFF
  {
    hide FoldFully;
    FoldStep(t);
    if t >= 0x1_0000 {
      assert t % 0x1_0000 + t / 0x1_0000 == t - 0xFFFF;
      FoldStep(t - 0xFFFF);
    }
  }

  lemma FoldStep(sum: nat)
    ensures FoldFully(sum) == if sum < 0x1_0000 then sum else FoldFully(sum % 0x1_0000 + sum / 0x1_0000)
  {
  }

  /** The full fold is the residue modulo 65535, with 65535 in place of 0 for a non-zero sum. */
  lemma {:induction false} FoldFullyIsResidue(sum: nat)
    ensures FoldFully(sum) == if sum == 0 then 0 else (sum - 1) % 0xFFFF + 1
  {
    hide FoldFully;
    FoldStep(sum);
    if sum >= 0x1_0000 {
      FoldFullyIsResidue(sum % 0x1_0000 + sum / 0x1_0000);
    }
  }

  //
  // Word sums of edited data
  //

  /** The pseudo-header of RFC 768 and RFC 9293. */
  function PseudoHeader(src: u32, dst: u32, proto: u8, len: nat): (r: seq<u8>)
    ensures |r| == 12
  {
    ToBe32(src) + ToBe32(dst) + [0, proto] + ToBe16(len % 0x1_0000)
  }

  /** The code's sum of the pseudo-header is that of its bytes, in front of any data. */
  lemma PseudoSumIs(src: u32, dst: u32, proto: u8, len: nat, data: seq<u8>)
    ensures PseudoSum(src, dst, proto, len) + WordSum(data) == WordSum(PseudoHeader(src, dst, proto, len) + data)
  {
    hide WordSum;
    var last := ToBe16(len % 0x1_0000);
    LeadingWord(last, data);
    LeadingWord([0, proto], last + data);
    LeadingWord(ToBe16(dst % 0x1_0000), [0, proto] + (last + data));
    LeadingWord(ToBe16(dst / 0x1_0000), ToBe16(dst % 0x1_0000) + ([0, proto] + (last + data)));
    var rest := ToBe16(dst / 0x1_0000) + (ToBe16(dst % 0x1_0000) + ([0, proto] + (last + data)));
    LeadingWord(ToBe16(src % 0x1_0000), rest);
    LeadingWord(ToBe16(src / 0x1_0000), ToBe16(src % 0x1_0000) + rest);
    assert PseudoHeader(src, dst, proto, len) + data == ToBe16(src / 0x1_0000) + (ToBe16(src % 0x1_0000) + rest);
  }

  lemma LeadingWord(w: seq<u8>, rest: seq<u8>)
    requires |w| == 2
    ensures WordSum(w + rest) == Be16At(w, 0) + WordSum(rest)
  {
    assert (w + rest)[2..] == rest;
  }

  lemma {:induction false} WordSumBound(s: seq<u8>)
    ensures WordSum(s) <= 0xFFFF * ((|s| + 1) / 2)
  {
    if |s| >= 2 {
      WordSumBound(s[2..]);
    }
  }

  /** Replacing the word at an even offset changes the sum by the difference of the words. */
  lemma {:induction false} WordSumSplice(s: seq<u8>, i: nat, w: u16)
    requires i % 2 == 0 && i + 2 <= |s|
    ensures WordSum(Splice(s, i, ToBe16(w))) == WordSum(s) - Be16At(s, i) + w
  {
    var t := Splice(s, i, ToBe16(w));
    if i == 0 {
      assert t[2..] == s[2..];
    } else {
      WordSumSplice(s[2..], i - 2, w);
      assert t[2..] == Splice(s[2..], i - 2, ToBe16(w));
      assert Be16At(s[2..], i - 2) == Be16At(s, i);
    }
  }

  lemma {:induction false} WordSumZeros(n: nat)
    ensures WordSum(Zeros(n)) == 0
  {
    if n >= 2 {
      WordSumZeros(n - 2);
      assert Zeros(n)[2..] == Zeros(n - 2);
    }
  }

  /** Zero padding adds nothing, even when it completes an odd last byte. */
  lemma {:induction false} WordSumPadded(s: seq<u8>, n: nat)
    ensures WordSum(s + Zeros(n)) == WordSum(s)
  {
    if |s| == 0 {
      assert s + Zeros(n) == Zeros(n);
      WordSumZeros(n);
    } else if |s| == 1 {
      if n > 0 {
        assert (s + Zeros(n))[2..] == Zeros(n - 1);
        WordSumZeros(n - 1);
      } else {
        assert s + Zeros(n) == s;
      }
    } else {
      WordSumPadded(s[2..], n);
      assert (s + Zeros(n))[2..] == s[2..] + Zeros(n);
    }
  }

  /**
   Writing the checksum into its zeroed field: recomputing it over the sealed data
   gives 0 unless the fold carried, and 0xFFFF if it did; an RFC 1071 receiver
   accepts the data exactly when the fold did not carry.
   */
  lemma SealedDataVerifies(seed: nat, data: seq<u8>, i: nat)
    requires i % 2 == 0 && i + 2 <= |data| <= 0x1_FFF0 && seed <= 6 * 0xFFFF
    requires Be16At(data, i) == 0
    ensures seed + WordSum(data) < 0x1_0000_0000
    ensures var sum: u32 := seed + WordSum(data);
            var resealed := seed + WordSum(Splice(data, i, ToBe16(FoldOnce(sum))));
            && resealed < 0x1_0000_0000
            && FoldOnce(resealed) == (if Carries(sum) then 0xFFFF else 0)
            && (Rfc1071(resealed) == 0 <==> !Carries(sum))
  {
    WordSumBound(data);
    var sum: u32 := seed + WordSum(data);
    WordSumSplice(data, i, FoldOnce(sum));
    SealArithmetic(sum);
  }

  lemma SealArithmetic(sum: u32)
    requires sum < 0xFFFF_0000
    ensures var resealed := sum + FoldOnce(sum);
            && resealed < 0x1_0000_0000
            && FoldOnce(resealed) == (if Carries(sum) then 0xFFFF else 0)
            && (Rfc1071(resealed) == 0 <==> !Carries(sum))
  {
    hide *;
    SealedHalves(sum);
    var resealed: u32 := sum + FoldOnce(sum);
    FoldedHalves(resealed, sum / 0x1_0000);
    FoldOnceAgainstRfc1071(resealed);
  }

  lemma FoldedHalves(x: u32, high: nat)
    requires x % 0x1_0000 == 0xFFFF - high && x / 0x1_0000 in {high, high + 1}
    ensures FoldOnce(x) == if x / 0x1_0000 == high then 0 else 0xFFFF
    ensures Carries(x) <==> x / 0x1_0000 == high + 1
  {
  }

  /** The halves of the sum after sealing. */
  lemma SealedHalves(sum: u32)
    requires sum < 0xFFFF_0000
    ensures var high := sum / 0x1_0000;
            var resealed := sum + FoldOnce(sum);
            && resealed < 0x1_0000_0000
            && resealed / 0x1_0000 == (if Carries(sum) then high + 1 else high)
            && resealed % 0x1_0000 == 0xFFFF - high
  {
    var high, low := sum / 0x1_0000, sum % 0x1_0000;
    assert FoldOnce(sum) == 0xFFFF - (low + high) + if Carries(sum) then 0x1_0000 else 0;
    var top := if Carries(sum) then high + 1 else high;
    assert sum + FoldOnce(sum) == top * 0x1_0000 + (0xFFFF - high);
  }
}
