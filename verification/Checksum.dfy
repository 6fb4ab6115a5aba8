/** The Internet checksum of RFC 1071: the 32-bit loop of the program and the
    one's-complement sum it refines. */
module InternetChecksum {
  import opened Bytes

  // ----- Specification: sections 1 and 2 of RFC 1071 -----

  /** One's-complement addition of 16-bit words: a carry out of the top comes back in at the bottom. */
  function OnesAdd(a: u16, b: u16): u16 {
    if a + b > 0xFFFF then a + b - 0xFFFF else a + b
  }

  /** The k-th 16-bit word of data; an odd last byte is padded with a zero byte. */
  function Word(data: seq<byte>, k: nat): u16
    requires 2 * k < |data|
  {
    data[2 * k] as int * 0x100 + (if 2 * k + 1 < |data| then data[2 * k + 1] else 0)
  }

  /** The one's-complement sum of all the words of data. */
  function OnesSum(data: seq<byte>): u16
    decreases |data|
  {
    if data == [] then 0
    else OnesAdd(Word(data, 0), OnesSum(if |data| == 1 then [] else data[2..]))
  }

  /** The checksum: the complement of that sum. */
  function ChecksumOf(data: seq<byte>): u16 {
    0xFFFF - OnesSum(data)
  }

  // ----- Plain arithmetic behind the program's loop -----

  /** The plain, unbounded sum of all the words of data. */
  function WordSum(data: seq<byte>): nat
    decreases |data|
  {
    if data == [] then 0
    else Word(data, 0) + WordSum(if |data| == 1 then [] else data[2..])
  }

  /** The representative of n modulo 65535 in 1..65535, and 0 for 0 only. */
  function Canon(n: nat): u16 {
    if n == 0 then 0 else (n - 1) % 0xFFFF + 1
  }

  lemma CanonUnique(n: nat, r: u16, k: nat)
    requires n == r + 0xFFFF * k
    requires r == 0 ==> n == 0
    ensures Canon(n) == r
  {
  }

  lemma CanonSplit(n: nat) returns (k: nat)
    ensures n == Canon(n) + 0xFFFF * k
    ensures Canon(n) == 0 <==> n == 0
  {
    k := if n == 0 then 0 else (n - 1) / 0xFFFF;
  }

  lemma CanonAdd(a: nat, b: nat)
    ensures Canon(a + b) == OnesAdd(Canon(a), Canon(b))
  {
    var ka := CanonSplit(a);
    var kb := CanonSplit(b);
    var s := Canon(a) + Canon(b);
    CanonUnique(a + b, OnesAdd(Canon(a), Canon(b)), ka + kb + if s > 0xFFFF then 1 else 0);
  }

  /** The word-by-word one's-complement sum is the plain sum reduced once at the end. */
  lemma {:induction false} OnesSumIsCanon(data: seq<byte>)
    ensures OnesSum(data) == Canon(WordSum(data))
    decreases |data|
  {
    if data != [] {
      var rest := if |data| == 1 then [] else data[2..];
      OnesSumIsCanon(rest);
      CanonAdd(Word(data, 0), WordSum(rest));
      CanonUnique(Word(data, 0), Word(data, 0), 0);
    }
  }

  /** One turn of the fold loop: strictly smaller, never zero, same residue. */
  lemma FoldStep(n: nat)
    requires n >= 0x1_0000
    ensures 0 < n % 0x1_0000 + n / 0x1_0000 < n
    ensures Canon(n % 0x1_0000 + n / 0x1_0000) == Canon(n)
  {
    var m := n % 0x1_0000 + n / 0x1_0000;
    assert n == m + 0xFFFF * (n / 0x1_0000);
    var k := CanonSplit(m);
    CanonUnique(n, Canon(m), k + n / 0x1_0000);
  }

  lemma {:induction false} WordSumBound(data: seq<byte>)
    ensures WordSum(data) <= (|data| + 1) / 2 * 0xFFFF
    decreases |data|
  {
    if data != [] {
      WordSumBound(if |data| == 1 then [] else data[2..]);
    }
  }

  /** What the program's 32-bit accumulator leaves, for input of any length. */
  function WrappedChecksum(data: seq<byte>): u16 {
    0xFFFF - Canon(WordSum(data) % 0x1_0000_0000)
  }

  /** Dropping k carries of weight 2^32 keeps the reduced sum exactly when k is a multiple of 65535. */
  lemma DroppedCarries(m: nat, k: nat)
    requires m < 0x1_0000_0000
    ensures Canon(m) == Canon(m + 0x1_0000_0000 * k) <==> k == 0 || (k % 0xFFFF == 0 && m != 0)
  {
    var n := m + 0x1_0000_0000 * k;
    var i := CanonSplit(m);
    var j := CanonSplit(n);
    var q, r := k / 0xFFFF, k % 0xFFFF;
    assert n == m + r + 0xFFFF * (0x1_0001 * k + q);
    if Canon(m) == Canon(n) {
      MultipleBelow(r, j - i - 0x1_0001 * k - q);
    } else if r == 0 && m != 0 {
      CanonUnique(n, Canon(m), i + 0x1_0001 * k + q);
    }
  }

  lemma MultipleBelow(d: int, q: int)
    requires d == 0xFFFF * q && -0xFFFF < d < 0xFFFF
    ensures d == 0
  {
  }

  /** The accumulator wraps; the result still meets RFC 1071 exactly when the number of
      lost carries is a multiple of 65535 and the wrapped sum did not become zero. */
  lemma {:induction false} WrapExact(data: seq<byte>)
    ensures var k := WordSum(data) / 0x1_0000_0000;
            WrappedChecksum(data) == ChecksumOf(data)
            <==> k == 0 || (k % 0xFFFF == 0 && WordSum(data) % 0x1_0000_0000 != 0)
  {
    OnesSumIsCanon(data);
    DroppedCarries(WordSum(data) % 0x1_0000_0000, WordSum(data) / 0x1_0000_0000);
  }

  /** 131074 bytes is the longest input for which no carry can be lost. */
  lemma NoWrap(data: seq<byte>)
    requires |data| <= 131074
    ensures WrappedChecksum(data) == ChecksumOf(data)
  {
    WordSumBound(data);
    WrapExact(data);
  }

  /** One byte pair more and a carry can be lost: all-ones input of 131076 bytes is summed wrongly. */
  lemma WrapHappens(data: seq<byte>)
    requires |data| == 131076 && forall i :: 0 <= i < |data| ==> data[i] == 0xFF
    ensures WrappedChecksum(data) != ChecksumOf(data)
  {
    WordSumAllOnes(data);
    WrapExact(data);
  }

  lemma {:induction false} WordSumAllOnes(data: seq<byte>)
    requires |data| % 2 == 0 && forall i :: 0 <= i < |data| ==> data[i] == 0xFF
    ensures WordSum(data) == |data| / 2 * 0xFFFF
  {
    if data != [] {
      WordSumAllOnes(data[2..]);
    }
  }

  lemma LowPart(n: int, low: u32, lost: int)
    requires n == low + 0x1_0000_0000 * lost
    ensures low == n % 0x1_0000_0000
  {
  }

  // ----- The program -----

  /** Accumulates 16-bit words into a uint32 that may wrap, then folds it to 16 bits. */
  method Checksum(data: seq<byte>) returns (cs: u16)
    ensures cs == WrappedChecksum(data)
    ensures |data| <= 131074 ==> cs == ChecksumOf(data)
  {
    var sum: u32 := 0;
    var i := 0;
    ghost var lost := 0;  // carries out of the accumulator so far
    while i + 1 < |data|
      invariant i % 2 == 0 && i <= |data|
      invariant sum + 0x1_0000_0000 * lost + WordSum(data[i..]) == WordSum(data)
    {
      assert data[i..][2..] == data[i + 2..];
      var wide := sum as int + (data[i] as int * 0x100 + data[i + 1]);
      sum, lost := wide % 0x1_0000_0000, lost + wide / 0x1_0000_0000;
      i := i + 2;
    }
    if |data| % 2 != 0 {
      assert data[i..] == [data[|data| - 1]];
      var wide := sum as int + data[|data| - 1] as int * 0x100;
      sum, lost := wide % 0x1_0000_0000, lost + wide / 0x1_0000_0000;
    }
    LowPart(WordSum(data), sum, lost);
    while sum / 0x1_0000 != 0
      invariant Canon(sum) == Canon(WordSum(data) % 0x1_0000_0000)
      decreases sum
    {
      FoldStep(sum);
      sum := sum % 0x1_0000 + sum / 0x1_0000;
    }
    CanonUnique(sum, sum, 0);
    cs := 0xFFFF - sum;
    if |data| <= 131074 {
      NoWrap(data);
    }
  }

  // ----- Laws -----

  /** Pieces of even length are summed separately. */
  lemma {:induction false} WordSumConcat(a: seq<byte>, b: seq<byte>)
    requires |a| % 2 == 0
    ensures WordSum(a + b) == WordSum(a) + WordSum(b)
  {
    if a == [] {
      assert a + b == b;
    } else {
      assert (a + b)[2..] == a[2..] + b;
      WordSumConcat(a[2..], b);
    }
  }

  /** Even-length pieces can be checksummed separately and folded together. */
  lemma {:induction false} ChecksumConcat(a: seq<byte>, b: seq<byte>)
    requires |a| % 2 == 0
    ensures OnesSum(a + b) == OnesAdd(OnesSum(a), OnesSum(b))
    ensures ChecksumOf(a + b) == 0xFFFF - OnesAdd(0xFFFF - ChecksumOf(a), 0xFFFF - ChecksumOf(b))
  {
    WordSumConcat(a, b);
    CanonAdd(WordSum(a), WordSum(b));
    OnesSumIsCanon(a);
    OnesSumIsCanon(b);
    OnesSumIsCanon(a + b);
  }

  function SwapWord(w: u16): u16 {
    w % 0x100 * 0x100 + w / 0x100
  }

  /** data with the two bytes of every word exchanged. */
  function SwapBytes(data: seq<byte>): (r: seq<byte>)
    requires |data| % 2 == 0
    ensures |r| == |data|
  {
    if data == [] then [] else [data[1], data[0]] + SwapBytes(data[2..])
  }

  lemma {:induction false} SwapScalesSum(data: seq<byte>) returns (high: nat)
    requires |data| % 2 == 0
    ensures 0x100 * WordSum(data) == WordSum(SwapBytes(data)) + 0xFFFF * high
    ensures WordSum(SwapBytes(data)) == 0 ==> WordSum(data) == 0
  {
    if data == [] {
      high := 0;
    } else {
      var h := SwapScalesSum(data[2..]);
      high := h + data[0];
      assert SwapBytes(data)[2..] == SwapBytes(data[2..]);
    }
  }

  lemma {:induction false} OnesSumSwap(data: seq<byte>)
    requires |data| % 2 == 0
    ensures OnesSum(SwapBytes(data)) == SwapWord(OnesSum(data))
  {
    OnesSumIsCanon(data);
    OnesSumIsCanon(SwapBytes(data));
    var high := SwapScalesSum(data);
    CanonSwap(WordSum(data), WordSum(SwapBytes(data)), high);
  }

  /** Section 2(B) of RFC 1071: swapping the bytes of every word swaps the bytes of the checksum. */
  lemma {:induction false} ByteOrderIndependence(data: seq<byte>)
    requires |data| % 2 == 0
    ensures ChecksumOf(SwapBytes(data)) == SwapWord(ChecksumOf(data))
  {
    OnesSumSwap(data);
    SwapComplement(OnesSum(data));
  }

  lemma SwapComplement(c: u16)
    ensures SwapWord(0xFFFF - c) == 0xFFFF - SwapWord(c)
  {
    assert (0xFFFF - c) % 0x100 == 0xFF - c % 0x100;
  }

  /** Multiplying by 256 modulo 65535 exchanges the two bytes. */
  lemma CanonSwap(n: nat, m: nat, high: nat)
    requires 0x100 * n == m + 0xFFFF * high
    requires m == 0 ==> n == 0
    ensures Canon(m) == SwapWord(Canon(n))
  {
    var k := CanonSplit(n);
    var c: int := Canon(n);
    assert 0x100 * c == SwapWord(c) + 0xFFFF * (c / 0x100);
    assert 0x100 * n == SwapWord(c) + 0xFFFF * (c / 0x100 + 0x100 * k);
    CanonUnique(0x100 * n, SwapWord(c), c / 0x100 + 0x100 * k);
    var j := CanonSplit(m);
    CanonUnique(0x100 * n, Canon(m), j + high);
  }

  /** Filling an aligned zero field with the checksum makes the whole verify to zero. */
  lemma FillVerifies(pre: seq<byte>, post: seq<byte>)
    requires |pre| % 2 == 0
    ensures ChecksumOf(pre + Be16(ChecksumOf(pre + [0, 0] + post)) + post) == 0
  {
    var cs := ChecksumOf(pre + [0, 0] + post);
    FieldSum(pre, 0, post);
    FieldSum(pre, cs, post);
    OnesSumIsCanon(pre + [0, 0] + post);
    OnesSumIsCanon(pre + Be16(cs) + post);
    var n := WordSum(pre) + WordSum(post);
    assert Be16(0) == [0, 0];
    var k := CanonSplit(n);
    CanonUnique(n + cs, 0xFFFF, k);
  }

  lemma FieldSum(pre: seq<byte>, w: u16, post: seq<byte>)
    requires |pre| % 2 == 0
    ensures WordSum(pre + Be16(w) + post) == WordSum(pre) + w + WordSum(post)
  {
    assert pre + Be16(w) + post == pre + (Be16(w) + post);
    WordSumConcat(pre, Be16(w) + post);
    WordSumConcat(Be16(w), post);
    assert Be16(w)[2..] == [];
  }

  /** Appending the checksum makes data verify exactly when it lands on a word boundary, or when its two bytes
      are equal so that the boundary does not matter. */
  lemma {:induction false} AppendVerifies(data: seq<byte>)
    ensures ChecksumOf(data + Be16(ChecksumOf(data))) == 0
            <==> |data| % 2 == 0 || ChecksumOf(data) / 0x100 == ChecksumOf(data) % 0x100
  {
    var cs := ChecksumOf(data);
    AppendedSum(data, cs);
    OnesSumIsCanon(data);
    OnesSumIsCanon(data + Be16(cs));
    AppendedCanon(WordSum(data), cs, if |data| % 2 == 0 then cs else SwapWord(cs));
    SwapFixed(cs);
  }

  lemma SwapFixed(w: u16)
    ensures SwapWord(w) == w <==> w / 0x100 == w % 0x100
  {
  }

  lemma AppendedCanon(n: nat, cs: u16, added: u16)
    requires cs == 0xFFFF - Canon(n) && (added == 0 ==> cs == 0) && (added == 0xFFFF ==> cs == 0xFFFF)
    ensures Canon(n + added) == 0xFFFF <==> added == cs
  {
    var k := CanonSplit(n);
    var j := CanonSplit(n + added);
    if Canon(n + added) == 0xFFFF {
      MultipleBelow(added - cs, j - k);
    } else if added == cs {
      CanonUnique(n + added, 0xFFFF, k);
    }
  }

  lemma {:induction false} AppendedSum(data: seq<byte>, w: u16)
    ensures WordSum(data + Be16(w)) == WordSum(data) + if |data| % 2 == 0 then w else SwapWord(w)
    decreases |data|
  {
    var all := data + Be16(w);
    if |data| == 0 {
      assert all == Be16(w) && all[2..] == [];
    } else if |data| == 1 {
      assert all[2..] == [w % 0x100];
      assert [w % 0x100] != [];
    } else {
      assert all[2..] == data[2..] + Be16(w);
      AppendedSum(data[2..], w);
    }
  }

  /** b is a with at most its k-th word changed. */
  ghost predicate DiffersOnlyAt(a: seq<byte>, b: seq<byte>, k: nat) {
    && |a| == |b| && 2 * k < |a|
    && forall i :: 0 <= i < |a| && i / 2 != k ==> a[i] == b[i]
  }

  lemma {:induction false} SumDiffersOnlyAt(a: seq<byte>, b: seq<byte>, k: nat)
    requires DiffersOnlyAt(a, b, k)
    ensures WordSum(b) + Word(a, k) == WordSum(a) + Word(b, k)
  {
    var ta, tb := if |a| == 1 then [] else a[2..], if |b| == 1 then [] else b[2..];
    if k == 0 {
      assert ta == tb;
    } else {
      assert a[0] == b[0] && a[1] == b[1];
      forall i | 0 <= i < |ta| && i / 2 != k - 1
        ensures ta[i] == tb[i]
      {
        assert (i + 2) / 2 != k;
      }
      SumDiffersOnlyAt(ta, tb, k - 1);
    }
  }

  /** A single changed word is noticed unless it went from 0x0000 to 0xFFFF or back, the two encodings of
      zero; and going back is noticed too when all the other words are zero. */
  lemma {:induction false} SingleWordDetection(a: seq<byte>, b: seq<byte>, k: nat)
    requires ChecksumOf(a) == 0
    requires DiffersOnlyAt(a, b, k) && Word(a, k) != Word(b, k)
    ensures ChecksumOf(b) != 0
            <==> && !(Word(a, k) == 0 && Word(b, k) == 0xFFFF)
                 && !(Word(a, k) == 0xFFFF && Word(b, k) == 0 && WordSum(a) != Word(a, k))
  {
    SumDiffersOnlyAt(a, b, k);
    OnesSumIsCanon(a);
    OnesSumIsCanon(b);
    WordsAtMostSum(a, k);
    ChangedTerm(WordSum(a) - Word(a, k), Word(a, k), Word(b, k));
  }

  lemma ChangedTerm(rest: nat, x: u16, y: u16)
    requires x != y && Canon(rest + x) == 0xFFFF
    ensures Canon(rest + y) == 0xFFFF <==> (x == 0 && y == 0xFFFF) || (x == 0xFFFF && y == 0 && rest > 0)
  {
    var i := CanonSplit(rest + x);
    if x == 0 && y == 0xFFFF {
      CanonUnique(rest + y, 0xFFFF, i + 1);
    } else if x == 0xFFFF && y == 0 && rest > 0 {
      CanonUnique(rest + y, 0xFFFF, i - 1);
    }
  }

  lemma {:induction false} WordsAtMostSum(data: seq<byte>, k: nat)
    requires 2 * k < |data|
    ensures Word(data, k) <= WordSum(data)
  {
    if k > 0 {
      WordsAtMostSum(data[2..], k - 1);
    }
  }
}
