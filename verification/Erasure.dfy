/**
 Erasure coding of byte strings (honeybadgerbft/core/reliablebroadcast.py:13-66):
 padding to a multiple of K, encoding by zfec, decoding from any K stripes, and
 unpadding with Python's slices. None stands for an exception.
 */
module Erasure {
  import opened ByteStrings
  import opened Options

  /** zfec as a black box: Encoder(K, N).encode and Decoder(K, N).decode. */
  datatype Zfec = Zfec(
    enc: (nat, nat, seq<Bytes>) -> seq<Bytes>,
    dec: (nat, nat, seq<Bytes>, seq<nat>) -> seq<Bytes>)

  predicate SameLength(blocks: seq<Bytes>) {
    forall i, j :: 0 <= i < |blocks| && 0 <= j < |blocks| ==> |blocks[i]| == |blocks[j]|
  }

  /** K different stripe numbers below N. */
  predicate StripeNumbers(nums: seq<nat>, K: nat, N: nat) {
    && |nums| == K
    && (forall i :: 0 <= i < K ==> nums[i] < N)
    && forall i, j :: 0 <= i < j < K ==> nums[i] != nums[j]
  }

  predicate ZfecSizes(K: nat, N: nat) {
    1 <= K <= N <= 256
  }

  /** The stripes with the given numbers give the blocks back. */
  ghost predicate Recovers(z: Zfec, K: nat, N: nat, blocks: seq<Bytes>, nums: seq<nat>) {
    var stripes := z.enc(K, N, blocks);
    && |stripes| == N
    && (StripeNumbers(nums, K, N) ==>
         z.dec(K, N, seq(K, i requires 0 <= i < K => stripes[nums[i]]), nums) == blocks)
  }

  /** Any K of the N stripes recover K blocks of equal length. */
  ghost predicate AnyKRecover(z: Zfec) {
    forall K, N, blocks, nums :: ZfecSizes(K, N) && |blocks| == K && SameLength(blocks) ==> Recovers(z, K, N, blocks, nums)
  }

  // ---------- padding ----------

  /** chr(c).encode() for a code point below 256. */
  function CharBytes(c: nat): Bytes
    requires c < 256
  {
    if c < 128 then [c] else [192 + c / 64, 128 + c % 64]
  }

  function Repeat(s: Bytes, n: nat): Bytes {
    if n == 0 then [] else s + Repeat(s, n - 1)
  }

  function PadLen(K: nat, len: nat): nat
    requires K > 0
  {
    K - len % K
  }

  function Padded(K: nat, m: Bytes): Bytes
    requires 0 < K <= 256
  {
    m + Repeat(CharBytes(|m| % K), PadLen(K, |m|))
  }

  lemma StepFits(K: nat, step: nat, i: nat)
    requires i < K
    ensures i * step + step <= K * step
  {
    var rest: nat := K - i - 1;
    assert K == (i + 1) + rest;
    Distribute(i + 1, rest, step);
    Distribute(i, 1, step);
  }

  lemma Distribute(a: nat, b: nat, step: nat)
    ensures (a + b) * step == a * step + b * step && b * step >= 0
  {
  }

  lemma DivFits(K: nat, len: nat)
    requires K > 0
    ensures K * (len / K) <= len
  {
  }

  lemma StepBound(K: nat, len: nat, i: nat)
    requires K > 0 && i < K
    ensures i * (len / K) + len / K <= len
  {
    StepFits(K, len / K, i);
    DivFits(K, len);
  }

  // m[i*step : (i+1)*step]
  function Block(K: nat, m: Bytes, i: nat): (b: Bytes)
    requires i < K
    ensures |b| == |m| / K
  {
    StepBound(K, |m|, i);
    var step := |m| / K;
    m[i * step..i * step + step]
  }

  function Blocks(K: nat, m: Bytes): (blocks: seq<Bytes>)
    requires K > 0
    ensures |blocks| == K && SameLength(blocks)
  {
    seq(K, i requires 0 <= i < K => Block(K, m, i))
  }

  function Encode(z: Zfec, K: nat, N: nat, m: Bytes): Option<seq<Bytes>> {
    if ZfecSizes(K, N) then Some(z.enc(K, N, Blocks(K, Padded(K, m)))) else None
  }

  // ---------- decoding ----------

  /** The numbers of the first K stripes that are there, from stripe i on. */
  function FirstPresent(stripes: seq<Option<Bytes>>, K: nat, i: nat): (nums: seq<nat>)
    requires i <= |stripes|
    ensures |nums| <= K && forall k :: 0 <= k < |nums| ==> i <= nums[k] < |stripes| && stripes[nums[k]].Some?
    ensures forall k, l :: 0 <= k < l < |nums| ==> nums[k] < nums[l]
    decreases |stripes| - i
  {
    if i == |stripes| || K == 0 then []
    else if stripes[i].None? then FirstPresent(stripes, K, i + 1)
    else [i] + FirstPresent(stripes, K - 1, i + 1)
  }

  function Concat(blocks: seq<Bytes>): Bytes {
    if blocks == [] then [] else blocks[0] + Concat(blocks[1..])
  }

  /** m[:-k] for any integer k. */
  function SliceTo(m: Bytes, k: int): Bytes {
    if k > 0 then m[..if k <= |m| then |m| - k else 0]
    else m[..if -k <= |m| then -k else |m|]
  }

  function Unpad(K: nat, m: Bytes): Option<Bytes> {
    if m == [] then None else Some(SliceTo(m, K - m[|m| - 1]))
  }

  function Decode(z: Zfec, K: nat, N: nat, stripes: seq<Option<Bytes>>): Option<Bytes> {
    var nums := if |stripes| == N then FirstPresent(stripes, K, 0) else [];
    if |stripes| == N && ZfecSizes(K, N) && |nums| == K then
      var blocks := seq(K, i requires 0 <= i < K => stripes[nums[i]].value);
      Unpad(K, Concat(z.dec(K, N, blocks, nums)))
    else None
  }

  // ---------- the loop of decode ----------

  method Collect(K: nat, stripes: seq<Option<Bytes>>) returns (blocks: seq<Bytes>, blocknums: seq<nat>)
    requires K > 0
    ensures blocknums == FirstPresent(stripes, K, 0) && |blocks| == |blocknums|
    ensures forall k :: 0 <= k < |blocks| ==> stripes[blocknums[k]] == Some(blocks[k])
  {
    blocks, blocknums := [], [];
    for i := 0 to |stripes|
      invariant |blocks| == |blocknums| < K
      invariant blocknums + FirstPresent(stripes, K - |blocks|, i) == FirstPresent(stripes, K, 0)
      invariant forall k :: 0 <= k < |blocknums| ==> blocknums[k] < |stripes| && stripes[blocknums[k]] == Some(blocks[k])
    {
      if stripes[i].None? {
        continue;
      }
      ghost var rest := FirstPresent(stripes, K - |blocks| - 1, i + 1);
      assert FirstPresent(stripes, K - |blocks|, i) == [i] + rest;
      assert blocknums + ([i] + rest) == (blocknums + [i]) + rest;
      blocks := blocks + [stripes[i].value];
      blocknums := blocknums + [i];
      if |blocks| == K {
        assert rest == [] && blocknums + [] == blocknums;
        return;
      }
    }
  }

  method DecodeStripes(z: Zfec, K: nat, N: nat, stripes: seq<Option<Bytes>>) returns (r: Option<Bytes>)
    ensures r == Decode(z, K, N, stripes)
  {
    if |stripes| != N || !ZfecSizes(K, N) {
      return None;
    }
    var blocks, blocknums := Collect(K, stripes);
    if |blocks| < K {
      return None;
    }
    assert blocks == seq(K, k requires 0 <= k < K => stripes[blocknums[k]].value);
    return Unpad(K, Concat(z.dec(K, N, blocks, blocknums)));
  }

  // ---------- the round trip ----------

  /** Exactly the lengths for which the padding is undone. */
  predicate PaddingUndone(K: nat, len: nat)
    requires K > 0
  {
    Undone(K, len % K)
  }

  predicate Undone(K: nat, c: nat) {
    c < 128 || (c < 192 && (K - c) % 2 == 0) || (c == 195 && (K - c) % 2 == 1)
  }

  lemma {:induction false} RepeatLength(s: Bytes, n: nat)
    ensures |Repeat(s, n)| == |s| * n
  {
    if n > 0 {
      RepeatLength(s, n - 1);
    }
  }

  lemma {:induction false} RepeatOne(b: Byte, n: nat, i: nat)
    requires i < n
    ensures |Repeat([b], n)| == n && Repeat([b], n)[i] == b
  {
    RepeatLength([b], n);
    if i > 0 {
      RepeatOne(b, n - 1, i - 1);
    }
  }

  lemma {:induction false} RepeatTwo(a: Byte, b: Byte, n: nat, i: nat)
    requires i < 2 * n
    ensures |Repeat([a, b], n)| == 2 * n && Repeat([a, b], n)[i] == if i % 2 == 0 then a else b
  {
    RepeatLength([a, b], n);
    if i >= 2 {
      RepeatTwo(a, b, n - 1, i - 2);
    }
  }

  // blocks are consecutive pieces of m, each step long.
  ghost predicate Consecutive(m: Bytes, step: nat, blocks: seq<Bytes>) {
    forall k: nat :: k < |blocks| ==> k * step + step <= |m| && blocks[k] == m[k * step..k * step + step]
  }

  lemma {:induction false} ConcatBlocks(m: Bytes, step: nat, blocks: seq<Bytes>, i: nat)
    requires Consecutive(m, step, blocks) && i <= |blocks| && |blocks| * step <= |m|
    ensures i * step <= |blocks| * step && Concat(blocks[i..]) == m[i * step..|blocks| * step]
    decreases |blocks| - i
  {
    if i < |blocks| {
      ConcatBlocks(m, step, blocks, i + 1);
      Distribute(i, 1, step);
      assert blocks[i..][1..] == blocks[i + 1..];
      SliceJoin(m, i * step, i * step + step, |blocks| * step);
    }
  }

  lemma SliceJoin(m: Bytes, a: nat, b: nat, d: nat)
    requires a <= b <= d <= |m|
    ensures m[a..b] + m[b..d] == m[a..d]
  {
  }

  // Cutting m into K blocks and joining them again loses only what exceeds a multiple of K.
  lemma JoinedBlocks(K: nat, m: Bytes)
    requires K > 0
    ensures K * (|m| / K) <= |m| && Concat(Blocks(K, m)) == m[..K * (|m| / K)]
  {
    var step, blocks := |m| / K, Blocks(K, m);
    DivFits(K, |m|);
    forall k: nat | k < K ensures k * step + step <= |m| && blocks[k] == m[k * step..k * step + step] {
      StepBound(K, |m|, k);
      assert blocks[k] == Block(K, m, k);
    }
    ConcatBlocks(m, step, blocks, 0);
    assert blocks[0..] == blocks && 0 * step == 0;
  }

  // How much of the padded string survives the cutting.
  lemma CutLength(K: nat, len: nat, padded: nat)
    requires 0 < K && len % K + PadLen(K, len) == K
    requires padded == len + PadLen(K, len) || (padded == len + 2 * PadLen(K, len) && PadLen(K, len) < K)
    ensures K * (padded / K) == len + PadLen(K, len)
  {
    var q, pad := len / K, PadLen(K, len);
    assert len + pad == K * (q + 1);
    if padded == len + pad {
      DivExact(K, q + 1, 0);
    } else {
      DivExact(K, q + 1, pad);
    }
  }

  lemma DivExact(K: nat, q: nat, rest: nat)
    requires rest < K
    ensures (K * q + rest) / K == q
  {
    var d := (K * q + rest) / K;
    MulGap(K, d, q);
    MulGap(K, q, d);
  }

  lemma MulGap(K: nat, a: int, b: int)
    ensures a > b ==> K * a >= K * b + K
  {
    if a > b {
      assert K * (a - b - 1) >= 0;
    }
  }

  /** The padded string as it comes out of the joined blocks: m and padlen bytes of padding. */
  lemma CutPadded(K: nat, m: Bytes)
    requires 0 < K <= 256
    ensures
      var full := Concat(Blocks(K, Padded(K, m)));
      && |full| == |m| + PadLen(K, |m|) && full[..|m|] == m
      && full[|full| - 1] == LastPadByte(K, |m|)
  {
    var c, pad := |m| % K, PadLen(K, |m|);
    var padded := Padded(K, m);
    PadTail(K, c);
    JoinedBlocks(K, padded);
    CutLength(K, |m|, |padded|);
    assert Concat(Blocks(K, padded)) == padded[..|m| + pad];
  }

  lemma PadTail(K: nat, c: nat)
    requires c < K <= 256
    ensures
      var tail := Repeat(CharBytes(c), K - c);
      && (|tail| == K - c || (|tail| == 2 * (K - c) && K - c < K))
      && tail[K - c - 1] == LastByte(K, c)
  {
    if c < 128 {
      RepeatOne(c, K - c, K - c - 1);
    } else {
      RepeatTwo(192 + c / 64, 128 + c % 64, K - c, K - c - 1);
    }
  }

  function LastPadByte(K: nat, len: nat): Byte
    requires 0 < K <= 256
  {
    LastByte(K, len % K)
  }

  function LastByte(K: nat, c: nat): Byte
    requires c < K <= 256
  {
    if c < 128 then c else if (K - c) % 2 == 1 then 192 + c / 64 else 128 + c % 64
  }

  // The last byte tells the amount of padding exactly when PaddingUndone holds.
  lemma LastByteTells(K: nat, c: nat)
    requires c < K <= 256
    ensures LastByte(K, c) == c <==> Undone(K, c)
    ensures c >= 128 ==> K - LastByte(K, c) > -128
  {
    if 128 <= c < 192 {
      assert c / 64 == 2 && c % 64 == c - 128;
    } else if 192 <= c {
      assert c / 64 == 3 && c % 64 == c - 192;
    }
  }

  lemma RemainderBound(K: nat, len: nat)
    requires K > 0
    ensures len % K <= len
  {
  }

  lemma UnpadExact(K: nat, m: Bytes, full: Bytes)
    requires 0 < K <= 256 && |full| == |m| + PadLen(K, |m|) && full[..|m|] == m
    requires full[|full| - 1] == LastPadByte(K, |m|)
    ensures Unpad(K, full) == Some(m) <==> PaddingUndone(K, |m|)
  {
    LastByteTells(K, |m| % K);
    RemainderBound(K, |m|);
    SliceExact(full, K - LastPadByte(K, |m|), |m|);
  }

  lemma SliceExact(full: Bytes, k: int, len: nat)
    requires len < |full|
    ensures k == |full| - len ==> SliceTo(full, k) == full[..len]
    ensures k != |full| - len && (len >= 128 && k > -128) ==> |SliceTo(full, k)| != len
  {
  }

  /** The stripes that are there are stripes of encode(K, N, m). */
  ghost predicate StripesOf(E: seq<Bytes>, stripes: seq<Option<Bytes>>) {
    |stripes| == |E| && forall i :: 0 <= i < |E| && stripes[i].Some? ==> stripes[i].value == E[i]
  }

  // Decoding any K stripes of a codeword gives the same result as unpadding its blocks.
  lemma DecodeCodeword(z: Zfec, K: nat, N: nat, blocks: seq<Bytes>, stripes: seq<Option<Bytes>>)
    requires AnyKRecover(z) && ZfecSizes(K, N) && |blocks| == K && SameLength(blocks)
    requires StripesOf(z.enc(K, N, blocks), stripes) && |FirstPresent(stripes, K, 0)| == K
    ensures Decode(z, K, N, stripes) == Unpad(K, Concat(blocks))
  {
    var nums := FirstPresent(stripes, K, 0);
    assert Recovers(z, K, N, blocks, nums);
    var E := z.enc(K, N, blocks);
    assert StripeNumbers(nums, K, N);
    assert seq(K, i requires 0 <= i < K => stripes[nums[i]].value) == seq(K, i requires 0 <= i < K => E[nums[i]]);
  }

  /**
   Round trip: for all sizes that zfec takes and every byte string m, decoding any
   N-list with at least K stripes of encode(K, N, m) returns m if and only if
   PaddingUndone(K, |m|); in particular always when K <= 128.
   */
  lemma RoundTrip(z: Zfec, K: nat, N: nat, m: Bytes, stripes: seq<Option<Bytes>>)
    requires AnyKRecover(z) && ZfecSizes(K, N)
    requires Encode(z, K, N, m).Some? && StripesOf(Encode(z, K, N, m).value, stripes)
    requires |FirstPresent(stripes, K, 0)| == K
    ensures Decode(z, K, N, stripes) == Some(m) <==> PaddingUndone(K, |m|)
    ensures K <= 128 ==> Decode(z, K, N, stripes) == Some(m)
  {
    var blocks := Blocks(K, Padded(K, m));
    assert Recovers(z, K, N, blocks, []);
    DecodeCodeword(z, K, N, blocks, stripes);
    CutPadded(K, m);
    UnpadExact(K, m, Concat(blocks));
  }

  /** The numbers of the stripes that are there, from stripe i on. */
  function PresentFrom(stripes: seq<Option<Bytes>>, i: nat): set<nat> {
    set k: nat | i <= k < |stripes| && stripes[k].Some?
  }

  lemma {:induction false} PresentSize(stripes: seq<Option<Bytes>>, K: nat, i: nat)
    requires i <= |stripes|
    ensures |FirstPresent(stripes, K, i)| == if |PresentFrom(stripes, i)| >= K then K else |PresentFrom(stripes, i)|
    decreases |stripes| - i
  {
    assert i == |stripes| ==> PresentFrom(stripes, i) == {};
    if i < |stripes| && K > 0 {
      if stripes[i].Some? {
        assert PresentFrom(stripes, i) == PresentFrom(stripes, i + 1) + {i};
        PresentSize(stripes, K - 1, i + 1);
      } else {
        assert PresentFrom(stripes, i) == PresentFrom(stripes, i + 1);
        PresentSize(stripes, K, i + 1);
      }
    }
  }

  /**
   Failures: encode raises exactly on sizes that are not 1 <= K <= N <= 256; decode
   raises on those, on lists that are not N long and when fewer than K stripes are
   there, and succeeds on K stripes of an encoded message.
   */
  lemma FailsExactly(z: Zfec, K: nat, N: nat, m: Bytes, stripes: seq<Option<Bytes>>)
    requires AnyKRecover(z)
    ensures Encode(z, K, N, m).Some? <==> 1 <= K <= N <= 256
    ensures Decode(z, K, N, stripes).Some? ==> |stripes| == N && 1 <= K <= N <= 256 && |PresentFrom(stripes, 0)| >= K
    ensures Encode(z, K, N, m).Some? && StripesOf(Encode(z, K, N, m).value, stripes) && |stripes| == N ==>
      (Decode(z, K, N, stripes).Some? <==> |PresentFrom(stripes, 0)| >= K)
  {
    PresentSize(stripes, K, 0);
    if 1 <= K <= N <= 256 && StripesOf(Encode(z, K, N, m).value, stripes) && |stripes| == N && |PresentFrom(stripes, 0)| >= K {
      DecodeCodeword(z, K, N, Blocks(K, Padded(K, m)), stripes);
      CutPadded(K, m);
      JoinedBlocks(K, Padded(K, m));
    }
  }

  /** The first K of 129 stripes, of a string of 128 bytes: decoding does not give it back. */
  lemma RoundTripFails(z: Zfec, m: Bytes)
    requires AnyKRecover(z) && |m| == 128
    ensures
      var E := Encode(z, 129, 129, m).value;
      |E| == 129 && Decode(z, 129, 129, seq(129, i requires 0 <= i < 129 => Some(E[i]))) != Some(m)
  {
    var blocks := Blocks(129, Padded(129, m));
    assert Recovers(z, 129, 129, blocks, []);
    var E := Encode(z, 129, 129, m).value;
    var stripes := seq(129, i requires 0 <= i < 129 => Some(E[i]));
    AllPresent(stripes, 129, 0);
    RoundTrip(z, 129, 129, m, stripes);
  }

  /** FirstPresent finds K stripes whenever there are K. */
  lemma {:induction false} AllPresent(stripes: seq<Option<Bytes>>, K: nat, i: nat)
    requires i + K <= |stripes| && forall k :: i <= k < |stripes| ==> stripes[k].Some?
    ensures |FirstPresent(stripes, K, i)| == K
    decreases K
  {
    if K > 0 {
      AllPresent(stripes, K - 1, i + 1);
    }
  }
}
