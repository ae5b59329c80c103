/** nb__do_ip_checksum: the header checksum of section 3.1 of RFC 791, computed as in section 1
    of RFC 1071 by one 32-bit sum and two folds. */
module IpChecksum {
  import opened Basics

  const TWO_32: nat := 0x1_0000_0000
  const MAX_WORDS: nat := 65537

  type Word16 = w: nat | w < 65536

  /** ntohs of the i-th 16-bit word. */
  function BigEndian(bytes: seq<Byte>, i: nat): Word16
    requires 2 * i + 1 < |bytes|
  {
    256 * (bytes[2 * i] as int) + bytes[2 * i + 1] as int
  }

  function WordsOf(bytes: seq<Byte>): (ws: seq<Word16>)
    ensures |ws| == |bytes| / 2
  {
    seq(|bytes| / 2, i requires 0 <= i < |bytes| / 2 => BigEndian(bytes, i))
  }

  function Total(ws: seq<Word16>): nat {
    if ws == [] then 0 else Total(ws[..|ws| - 1]) + ws[|ws| - 1]
  }

  function Fold(sum: nat): nat {
    sum % 65536 + sum / 65536 % 65536
  }

  /** htons on a little-endian machine. */
  function Swapped(w: Word16): Word16 {
    w % 256 * 256 + w / 256
  }

  function ChecksumOf(ws: seq<Word16>): Word16 {
    var folded := Fold(Fold(Total(ws) % TWO_32));
    Swapped(65535 - folded % 65536)
  }

  /** The accumulation loop; the accumulator is an unsigned int. */
  method AddUp(p: array<Byte>, len: nat) returns (checksum: nat)
    requires len <= p.Length && len / 2 <= MAX_WORDS
    ensures checksum == Total(WordsOf(p[..len])) < TWO_32
  {
    checksum := 0;
    ghost var ws := WordsOf(p[..len]);
    for i := 0 to len / 2
      invariant checksum == Total(ws[..i])
    {
      assert ws[..i + 1][..i] == ws[..i];
      NoOverflow(ws[..i + 1]);
      checksum := (checksum + BigEndian(p[..len], i)) % TWO_32;
    }
    assert ws[..len / 2] == ws;
    NoOverflow(ws);
  }

  /** Without overflow the 32-bit accumulator is the plain sum. */
  lemma {:induction false} Truncation(ws: seq<Word16>)
    requires Total(ws) < TWO_32
    ensures ChecksumOf(ws) == Swapped(65535 - Fold(Fold(Total(ws))) % 65536)
  {
    SmallMod(Total(ws));
  }

  lemma SmallMod(x: nat)
    requires x < TWO_32
    ensures x % TWO_32 == x
  {
  }

  /** The function as it runs. */
  method DoIpChecksum(p: array<Byte>, len: nat) returns (r: Word16)
    requires len <= p.Length && len / 2 <= MAX_WORDS
    ensures r == ChecksumOf(WordsOf(p[..len]))
  {
    hide ChecksumOf, Total, WordsOf, Swapped;
    var checksum := AddUp(p, len);
    ghost var sum := checksum;
    Truncation(WordsOf(p[..len]));
    var lower, upper := checksum % 65536, checksum / 65536 % 65536;
    checksum := lower + upper;
    assert checksum == Fold(sum);
    lower, upper := checksum % 65536, checksum / 65536 % 65536;
    checksum := lower + upper;
    assert checksum == Fold(Fold(sum));
    lower := checksum % 65536;
    r := Swapped(65535 - lower);
  }

  // ---- Ones' complement arithmetic ----

  /** Addition with end-around carry. */
  function OnesAdd(a: Word16, b: Word16): Word16 {
    if a + b < 65536 then a + b else a + b - 65535
  }

  function OnesSum(ws: seq<Word16>): Word16 {
    if ws == [] then 0 else OnesAdd(OnesSum(ws[..|ws| - 1]), ws[|ws| - 1])
  }

  /** The 16-bit value that stands for a sum: 0 only for 0, otherwise 1 to 65535. */
  function Residue(sum: nat): Word16 {
    if sum == 0 then 0 else (sum - 1) % 65535 + 1
  }

  lemma {:induction false} TotalBound(ws: seq<Word16>)
    ensures Total(ws) <= 65535 * |ws|
  {
    if ws != [] {
      TotalBound(ws[..|ws| - 1]);
    }
  }

  /** 65537 words cannot overflow the 32-bit accumulator. */
  lemma {:induction false} NoOverflow(ws: seq<Word16>)
    requires |ws| <= MAX_WORDS
    ensures Total(ws) < TWO_32
  {
    TotalBound(ws);
  }

  lemma ResidueAdd(sum: nat, w: Word16)
    ensures Residue(sum + w) == OnesAdd(Residue(sum), w)
  {
  }

  lemma {:induction false} OnesSumIsResidue(ws: seq<Word16>)
    ensures OnesSum(ws) == Residue(Total(ws))
  {
    if ws != [] {
      OnesSumIsResidue(ws[..|ws| - 1]);
      ResidueAdd(Total(ws[..|ws| - 1]), ws[|ws| - 1]);
    }
  }

  /** Two folds of a 32-bit sum are enough. */
  lemma TwoFolds(sum: nat)
    requires sum < TWO_32
    ensures Fold(Fold(sum)) == Residue(sum) < 65536
  {
    var upper, lower := sum / 65536, sum % 65536;
    assert sum == 65535 * upper + (upper + lower);
    assert upper < 65536;
    var once := upper + lower;
    assert Fold(sum) == once;
    ResidueShift(once, upper);
  }

  lemma {:induction false} ResidueShift(x: nat, k: nat)
    requires x > 0 || k == 0
    ensures Residue(65535 * k + x) == Residue(x)
    decreases k
  {
  }

  /** The result is the complement of the ones' complement sum, in network byte order. */
  lemma {:induction false} ChecksumIsComplement(ws: seq<Word16>)
    requires |ws| <= MAX_WORDS
    ensures ChecksumOf(ws) == Swapped(65535 - OnesSum(ws))
  {
    hide Fold, Residue, Swapped, ChecksumOf;
    NoOverflow(ws);
    Truncation(ws);
    Complement(Total(ws));
    OnesSumIsResidue(ws);
  }

  lemma Complement(sum: nat)
    requires sum < TWO_32
    ensures 65535 - Fold(Fold(sum)) % 65536 == 65535 - Residue(sum)
  {
    hide Fold, Residue;
    TwoFolds(sum);
  }

  // ---- The completed header ----

  /** Storing r as a little-endian short puts its swapped value, read big-endian, in the header. */
  lemma StoredWord(w: Word16)
    ensures Swapped(Swapped(w)) == w
  {
  }

  lemma {:induction false} TotalReplace(ws: seq<Word16>, k: nat, w: Word16)
    requires k < |ws| && ws[k] == 0
    ensures Total(ws[k := w]) == Total(ws) + w
  {
    var n := |ws| - 1;
    if k < n {
      TotalReplace(ws[..n], k, w);
      assert ws[k := w][..n] == ws[..n][k := w];
    } else {
      assert ws[k := w][..n] == ws[..n];
    }
  }

  /** Putting the result in the zeroed checksum field makes the function return 0. */
  lemma CompletedHeader(ws: seq<Word16>, k: nat)
    requires k < |ws| <= MAX_WORDS && ws[k] == 0
    ensures ChecksumOf(ws[k := Swapped(ChecksumOf(ws))]) == 0
  {
    hide Residue, ChecksumOf;
    var w: Word16 := 65535 - OnesSum(ws);
    assert Swapped(ChecksumOf(ws)) == w by {
      ChecksumIsComplement(ws);
      StoredWord(w);
    }
    assert OnesSum(ws[k := w]) == 65535 by {
      TotalReplace(ws, k, w);
      OnesSumIsResidue(ws);
      OnesSumIsResidue(ws[k := w]);
      ComplementSums(Total(ws));
    }
    ChecksumIsComplement(ws[k := w]);
  }

  lemma ComplementSums(sum: nat)
    ensures Residue(sum + (65535 - Residue(sum))) == 65535
  {
  }

  /** Writing the 16-bit result r into the header at word k, in the byte order of the machine. */
  function Store(bytes: seq<Byte>, k: nat, r: Word16): (done: seq<Byte>)
    requires 2 * k + 1 < |bytes|
    ensures |done| == |bytes|
  {
    bytes[2 * k := r % 256][2 * k + 1 := r / 256]
  }

  lemma StoreIsWord(bytes: seq<Byte>, k: nat, r: Word16)
    requires 2 * k + 1 < |bytes|
    ensures WordsOf(Store(bytes, k, r)) == WordsOf(bytes)[k := Swapped(r)]
  {
  }

  /** On the bytes of a header with a zeroed checksum field: store the result, and the function returns 0. */
  lemma CompletedBytes(bytes: seq<Byte>, k: nat)
    requires 2 * k + 1 < |bytes| && |bytes| / 2 <= MAX_WORDS && bytes[2 * k] == 0 && bytes[2 * k + 1] == 0
    ensures ChecksumOf(WordsOf(Store(bytes, k, ChecksumOf(WordsOf(bytes))))) == 0
  {
    hide ChecksumOf;
    StoreIsWord(bytes, k, ChecksumOf(WordsOf(bytes)));
    CompletedHeader(WordsOf(bytes), k);
  }
}
