/** Integer members of a packet layout, read and written through word-wide accesses at any
    bit offset. */
module Codec {
  import opened Bits

  const TWO_64: nat := 0x1_0000_0000_0000_0000

  /** generic_integer_member<T>: m_bit_size, sizeof(T), whether T is signed, m_range_base. */
  datatype Integer = Integer(bits: nat, bytes: nat, signed: bool, base: nat) {
    predicate Valid() {
      (bytes == 1 || bytes == 2 || bytes == 4 || bytes == 8) && bits <= 8 * bytes && base < TWO_64
    }
  }

  function Min(a: nat, b: nat): nat {
    if a < b then a else b
  }

  /** Bits of a member that share its first byte when it does not start on a byte boundary. */
  function LowBits(s: nat, w: nat): nat {
    Min(8 - s % 8, w)
  }

  /** The accesses reach whole words, so the buffer must extend that far. */
  predicate Fits(buf: Word, m: Integer, s: nat) {
    && s + m.bits <= |buf| && |buf| % 8 == 0
    && (s % 8 == 0 ==> s + 8 * m.bytes <= |buf|)
    && (s % 8 != 0 ==> s - s % 8 + 8 <= |buf|)
    && (s % 8 != 0 && LowBits(s, m.bits) < m.bits ==> s + LowBits(s, m.bits) + 8 * m.bytes <= |buf|)
  }

  // ---- Reading ----

  function ExtractLower(buf: Word, start: nat, num: nat): (r: Word)
    requires start % 8 + num <= 8 && start - start % 8 + 8 <= |buf|
    ensures |r| == 8
  {
    var shift := start % 8;
    var value := Shr(buf[start - shift..start - shift + 8], shift);
    if shift + num != 8 then And(value, Mask(8, num)) else value
  }

  function ExtractUpper(buf: Word, m: Integer, start: nat, num: nat): (r: Word)
    requires start % 8 == 0 && start + 8 * m.bytes <= |buf|
    ensures |r| == 64
  {
    var word := Convert(buf[start..start + 8 * m.bytes], 64, m.signed);
    if num == 8 * m.bytes then word else And(word, Mask(64, num))
  }

  /** The bits get_integer assembles, before the range base is added. */
  function GetBits(buf: Word, m: Integer, s: nat): (r: Word)
    requires m.Valid() && Fits(buf, m, s)
    ensures |r| == 64
  {
    if s % 8 != 0 then
      var lb := LowBits(s, m.bits);
      var lower := Resize(ExtractLower(buf, s, lb), 64);
      if m.bits - lb != 0 then Or(lower, Shl(ExtractUpper(buf, m, s + lb, m.bits - lb), lb)) else lower
    else ExtractUpper(buf, m, s, m.bits)
  }

  function GetInteger(buf: Word, m: Integer, s: nat): nat
    requires m.Valid() && Fits(buf, m, s)
  {
    (Val(GetBits(buf, m, s)) + m.base) % TWO_64
  }

  /** A full-width member of a signed type is sign-extended on the way out. */
  predicate SignExtends(m: Integer, s: nat) {
    m.signed && s % 8 == 0 && m.bits == 8 * m.bytes
  }

  /** Low part and shifted high part make up the whole. */
  lemma JoinParts(low: Word, high: Word)
    requires |low| <= 8 && |low| + |high| <= 64
    ensures Or(Resize(Resize(low, 8), 64), Shl(Resize(high, 64), |low|)) == Resize(low + high, 64)
  {
  }

  lemma ResizeTwice(low: Word)
    requires |low| <= 8
    ensures Resize(Resize(low, 8), 64) == Resize(low, 64)
  {
  }

  lemma GetSplit(buf: Word, m: Integer, s: nat)
    requires m.Valid() && Fits(buf, m, s) && s % 8 != 0
    ensures GetBits(buf, m, s) == Resize(buf[s..s + m.bits], 64)
  {
    hide ExtractLower, ExtractUpper, Convert, Or, Shl;
    LowerIsField(buf, m, s);
    var lb := LowBits(s, m.bits);
    var low, high := buf[s..s + lb], buf[s + lb..s + m.bits];
    if lb < m.bits {
      UpperIsField(buf, m, s + lb, m.bits - lb);
      JoinParts(low, high);
      assert low + high == buf[s..s + m.bits];
    } else {
      ResizeTwice(low);
    }
  }

  /** Reading returns exactly the member's own bits. */
  lemma GetBitsIsField(buf: Word, m: Integer, s: nat)
    requires m.Valid() && Fits(buf, m, s)
    ensures GetBits(buf, m, s) == Convert(buf[s..s + m.bits], 64, SignExtends(m, s))
  {
    if s % 8 != 0 {
      GetSplit(buf, m, s);
    } else {
      UpperIsField(buf, m, s, m.bits);
    }
  }

  lemma LowerField(buf: Word, at: nat, shift: nat, num: nat)
    requires at + 8 <= |buf| && shift + num <= 8
    ensures var value := Shr(buf[at..at + 8], shift);
      (if shift + num != 8 then And(value, Mask(8, num)) else value) == Resize(buf[at + shift..at + shift + num], 8)
  {
    var byte := buf[at..at + 8];
    forall i | 0 <= i < 8 && i + shift < 8 ensures Shr(byte, shift)[i] == buf[at + shift + i] {
    }
  }

  lemma LowerIsField(buf: Word, m: Integer, s: nat)
    requires m.Valid() && Fits(buf, m, s) && s % 8 != 0
    ensures ExtractLower(buf, s, LowBits(s, m.bits)) == Resize(buf[s..s + LowBits(s, m.bits)], 8)
  {
    hide Shr, And, Mask, Convert;
    LowerField(buf, s - s % 8, s % 8, LowBits(s, m.bits));
  }

  lemma UpperIsField(buf: Word, m: Integer, start: nat, num: nat)
    requires m.Valid() && start % 8 == 0 && num <= 8 * m.bytes && start + 8 * m.bytes <= |buf|
    ensures ExtractUpper(buf, m, start, num) ==
      Convert(buf[start..start + num], 64, m.signed && num == 8 * m.bytes)
  {
  }

  // ---- Writing ----

  function Replace(buf: Word, s: nat, v: Word): (r: Word)
    requires s + |v| <= |buf|
    ensures |r| == |buf|
  {
    seq(|buf|, i requires 0 <= i < |buf| => if s <= i < s + |v| then v[i - s] else buf[i])
  }

  lemma ReplaceSlice(buf: Word, s: nat, v: Word, a: nat, b: nat)
    requires s + |v| <= |buf| && a <= b <= |buf|
    ensures b <= s || s + |v| <= a ==> Replace(buf, s, v)[a..b] == buf[a..b]
    ensures Replace(buf, s, v)[s..s + |v|] == v
  {
    var r := Replace(buf, s, v);
    forall i | 0 <= i < |v| ensures r[s..s + |v|][i] == v[i] {
    }
    if b <= s || s + |v| <= a {
      forall i | 0 <= i < b - a ensures r[a..b][i] == buf[a..b][i] {
        assert r[a + i] == buf[a + i];
      }
    }
  }

  /** What set_bits_lower stores in the first byte when it clears `clear` bits. */
  function LowerByte(byte: Word, shift: nat, clear: nat, val: Word): (r: Word)
    requires |byte| == 8 && |val| == 8
    ensures |r| == 8
  {
    Or(And(Not(Shl(Mask(8, clear), shift)), byte), Shl(val, shift))
  }

  /** What set_bits_upper stores in the word at an aligned start. */
  function UpperWord(word: Word, num: nat, val: Word): (r: Word)
    requires |val| == 64 && |word| <= 64
    ensures |r| == |word|
  {
    if num == |word| then Resize(val, |word|)
    else Or(And(word, Not(Mask(|word|, num))), Resize(val, |word|))
  }

  /** The value fits the member: nothing above its width. */
  predicate InWidth(val: Word, w: nat) {
    forall i :: w <= i < |val| ==> !val[i]
  }

  method Store(buf: array<bool>, at: nat, word: Word)
    requires at + |word| <= buf.Length
    modifies buf
    ensures buf[..] == Replace(old(buf[..]), at, word)
  {
    forall i | 0 <= i < |word| {
      buf[at + i] := word[i];
    }
  }

  /** The first byte written, when the member starts inside a byte. */
  function LowStage(buf: Word, s: nat, lb: nat, val: Word, clear: nat): (r: Word)
    requires |val| == 64 && s - s % 8 + 8 <= |buf|
    ensures |r| == |buf|
  {
    var at := s - s % 8;
    Replace(buf, at, LowerByte(buf[at..at + 8], s % 8, clear, Resize(And(val, Mask(64, lb)), 8)))
  }

  /** The word written at an aligned start. */
  function HighStage(buf: Word, width: nat, start: nat, num: nat, val: Word): (r: Word)
    requires |val| == 64 && width <= 64 && start + width <= |buf|
    ensures |r| == |buf|
  {
    Replace(buf, start, UpperWord(buf[start..start + width], num, val))
  }

  /** Line 129 of the header takes bit_start for the number of bits to clear; line 97, its
      counterpart for reading, takes bit_end - bit_start. `clear` is that number. */
  method SetBitsLower(buf: array<bool>, start: nat, num: nat, clear: nat, val: Word)
    requires |val| == 64 && start % 8 + num <= 8 && start - start % 8 + 8 <= buf.Length
    modifies buf
    ensures buf[..] == LowStage(old(buf[..]), start, num, val, clear)
  {
    var at := start - start % 8;
    var shift := start % 8;
    var low := Resize(And(val, Mask(64, num)), 8);
    ghost var before := buf[..];
    var cleared := And(Not(Shl(Mask(8, clear), shift)), buf[at..at + 8]);
    Store(buf, at, cleared);
    StoreTwice(before, at, cleared, Or(cleared, Shl(low, shift)));
    assert buf[at..at + 8] == cleared;
    Store(buf, at, Or(buf[at..at + 8], Shl(low, shift)));
  }

  lemma StoreTwice(buf: Word, at: nat, v: Word, w: Word)
    requires |v| == |w| && at + |v| <= |buf|
    ensures Replace(Replace(buf, at, v), at, w) == Replace(buf, at, w)
  {
  }

  method SetBitsUpper(buf: array<bool>, m: Integer, start: nat, num: nat, val: Word)
    requires m.Valid() && |val| == 64 && start % 8 == 0 && num <= 8 * m.bytes && start + 8 * m.bytes <= buf.Length
    modifies buf
    ensures buf[..] == HighStage(old(buf[..]), 8 * m.bytes, start, num, val)
  {
    var end := start + 8 * m.bytes;
    assert buf[start..end] == buf[..][start..end];
    if num == 8 * m.bytes {
      Store(buf, start, Resize(val, 8 * m.bytes));
    } else {
      Store(buf, start, Or(And(buf[start..end], Not(Mask(8 * m.bytes, num))), Resize(val, 8 * m.bytes)));
    }
  }

  /** All of set_integer, as a function of the buffer. */
  function Stored(buf: Word, m: Integer, s: nat, val: Word, clear: nat): (r: Word)
    requires m.Valid() && Fits(buf, m, s) && |val| == 64
    ensures |r| == |buf|
  {
    if s % 8 != 0 then
      var lb := LowBits(s, m.bits);
      var low := LowStage(buf, s, lb, val, clear);
      if m.bits - lb != 0 then HighStage(low, 8 * m.bytes, s + lb, m.bits - lb, Shr(val, lb)) else low
    else HighStage(buf, 8 * m.bytes, s, m.bits, val)
  }

  /** The 64-bit difference val - m_range_base. */
  function Rebased(m: Integer, val: nat): nat
    requires m.Valid() && val < TWO_64
  {
    (val + TWO_64 - m.base) % TWO_64
  }

  method SetInteger(buf: array<bool>, m: Integer, s: nat, val: nat, clear: nat)
    requires m.Valid() && Fits(buf[..], m, s) && val < TWO_64
    modifies buf
    ensures buf[..] == Stored(old(buf[..]), m, s, ToBits(Rebased(m, val), 64), clear)
  {
    SetWord(buf, m, s, ToBits(Rebased(m, val), 64), clear);
  }

  method SetWord(buf: array<bool>, m: Integer, s: nat, word: Word, clear: nat)
    requires m.Valid() && Fits(buf[..], m, s) && |word| == 64
    modifies buf
    ensures buf[..] == Stored(old(buf[..]), m, s, word, clear)
  {
    hide LowStage, HighStage, Shr;
    if s % 8 != 0 {
      var lb := LowBits(s, m.bits);
      SetBitsLower(buf, s, lb, clear, word);
      if m.bits - lb != 0 {
        SetBitsUpper(buf, m, s + lb, m.bits - lb, Shr(word, lb));
      }
    } else {
      SetBitsUpper(buf, m, s, m.bits, word);
    }
  }

  // ---- When a write touches the member and nothing else ----

  /** The cleared bits are exactly the member's bits in its first byte. */
  predicate ClearsExactly(s: nat, w: nat, clear: nat) {
    s % 8 == 0 || Min(8 - s % 8, clear) == LowBits(s, w)
  }

  /** Value words that leave the rest of the word alone. */
  predicate Storable(m: Integer, s: nat, val: Word) {
    |val| == 64 && (InWidth(val, m.bits) || (s % 8 == 0 && m.bits == 8 * m.bytes))
  }

  lemma ReplaceJoin(buf: Word, s: nat, a: Word, b: Word)
    requires s + |a| + |b| <= |buf|
    ensures Replace(Replace(buf, s, a), s + |a|, b) == Replace(buf, s, a + b)
  {
  }

  lemma HighReplaces(buf: Word, width: nat, start: nat, num: nat, val: Word)
    requires |val| == 64 && num <= width <= 64 && start + width <= |buf| && (InWidth(val, num) || num == width)
    ensures HighStage(buf, width, start, num, val) == Replace(buf, start, val[..num])
  {
  }

  lemma LowReplaces(buf: Word, s: nat, lb: nat, val: Word, clear: nat)
    requires |val| == 64 && s - s % 8 + 8 <= |buf| && s % 8 + lb <= 8 && Min(8 - s % 8, clear) == lb
    ensures LowStage(buf, s, lb, val, clear) == Replace(buf, s, val[..lb])
  {
  }

  lemma ShiftedHigh(val: Word, lb: nat, w: nat)
    requires |val| == 64 && lb <= w <= 64 && InWidth(val, w)
    ensures InWidth(Shr(val, lb), w - lb) && Shr(val, lb)[..w - lb] == val[lb..w]
    ensures val[..lb] + val[lb..w] == val[..w]
  {
  }

  lemma HighJoin(buf: Word, width: nat, s: nat, low: Word, high: Word, whole: Word, v: Word)
    requires |v| == 64 && |high| <= width <= 64 && high == v[..|high|] && InWidth(v, |high|)
    requires s + |low| + width <= |buf| && whole == low + high
    ensures HighStage(Replace(buf, s, low), width, s + |low|, |high|, v) == Replace(buf, s, whole)
  {
    hide HighStage, Replace;
    calc {
      HighStage(Replace(buf, s, low), width, s + |low|, |high|, v);
      { HighReplaces(Replace(buf, s, low), width, s + |low|, |high|, v); }
      Replace(Replace(buf, s, low), s + |low|, v[..|high|]);
      { ReplaceJoin(buf, s, low, high); }
      Replace(buf, s, whole);
    }
  }

  lemma HighAfterLow(buf: Word, width: nat, s: nat, lb: nat, w: nat, val: Word)
    requires |val| == 64 && lb <= w && w - lb <= width <= 64 && w <= 64 && InWidth(val, w)
    requires s + lb + width <= |buf|
    ensures HighStage(Replace(buf, s, val[..lb]), width, s + lb, w - lb, Shr(val, lb)) == Replace(buf, s, val[..w])
  {
    hide HighStage, Replace, Shr;
    var low, high, whole, v := val[..lb], val[lb..w], val[..w], Shr(val, lb);
    ShiftedHigh(val, lb, w);
    assert |low| == lb && |high| == w - lb;
    HighJoin(buf, width, s, low, high, whole, v);
  }

  lemma StoredSplit(buf: Word, m: Integer, s: nat, val: Word, clear: nat)
    requires m.Valid() && Fits(buf, m, s) && Storable(m, s, val) && s % 8 != 0 && ClearsExactly(s, m.bits, clear)
    ensures Stored(buf, m, s, val, clear) == Replace(buf, s, val[..m.bits])
  {
    hide LowStage, HighStage, Replace, Shr;
    var lb := LowBits(s, m.bits);
    LowReplaces(buf, s, lb, val, clear);
    if lb < m.bits {
      HighAfterLow(buf, 8 * m.bytes, s, lb, m.bits, val);
    }
  }

  /** Word-wide writes overlap neighbouring bytes, yet change the member's bits only. */
  lemma StoredReplaces(buf: Word, m: Integer, s: nat, val: Word, clear: nat)
    requires m.Valid() && Fits(buf, m, s) && Storable(m, s, val) && ClearsExactly(s, m.bits, clear)
    ensures Stored(buf, m, s, val, clear) == Replace(buf, s, val[..m.bits])
  {
    hide HighStage, Replace;
    if s % 8 == 0 {
      HighReplaces(buf, 8 * m.bytes, s, m.bits, val);
    } else {
      StoredSplit(buf, m, s, val, clear);
    }
  }

  // ---- Exactly which clear widths are right ----

  /** A write touches the member's bits only, whatever the buffer and the value. */
  ghost predicate WritesOwnBits(m: Integer, s: nat, clear: nat, size: nat)
    requires m.Valid()
  {
    forall buf: Word, val: Word :: |buf| == size && Fits(buf, m, s) && Storable(m, s, val) ==>
      Stored(buf, m, s, val, clear) == Replace(buf, s, val[..m.bits])
  }

  function Ones(n: nat): Word {
    seq(n, _ => true)
  }

  function Zeros(n: nat): Word {
    seq(n, _ => false)
  }

  /** Clearing too many bits wipes out the bit after the member's part of the byte; clearing too
      few leaves an old bit standing. Storing zero in a buffer of ones shows both. */
  lemma WrongClearShows(m: Integer, s: nat, clear: nat, size: nat)
    requires m.Valid() && Fits(Ones(size), m, s) && !ClearsExactly(s, m.bits, clear)
    ensures Stored(Ones(size), m, s, Zeros(64), clear) != Replace(Ones(size), s, Zeros(m.bits))
  {
    var buf, lb, at := Ones(size), LowBits(s, m.bits), s - s % 8;
    var low := LowStage(buf, s, lb, Zeros(64), clear);
    var cleared := Min(8 - s % 8, clear);
    var k := s + Min(lb, cleared);
    assert low[k] == (cleared < lb);
    assert Replace(buf, s, Zeros(m.bits))[k] == (cleared > lb);
    if lb < m.bits {
      assert k < s + lb;
    }
  }

  lemma ClearExact(m: Integer, s: nat, clear: nat, size: nat)
    requires m.Valid() && Fits(Ones(size), m, s)
    ensures WritesOwnBits(m, s, clear, size) <==> ClearsExactly(s, m.bits, clear)
  {
    if ClearsExactly(s, m.bits, clear) {
      forall buf: Word, val: Word | |buf| == size && Fits(buf, m, s) && Storable(m, s, val)
        ensures Stored(buf, m, s, val, clear) == Replace(buf, s, val[..m.bits])
      {
        StoredReplaces(buf, m, s, val, clear);
      }
    } else {
      WrongClearShows(m, s, clear, size);
      assert Zeros(64)[..m.bits] == Zeros(m.bits);
      assert Storable(m, s, Zeros(64));
    }
  }

  /** As line 129 stands, the start offset is the number of bits cleared: a member starting at bit 1 to 3
      of the first byte is written correctly if and only if it is as wide as its offset, any other one
      that starts inside a byte if and only if it reaches the end of that byte. */
  lemma AsWrittenExact(m: Integer, s: nat, size: nat)
    requires m.Valid() && Fits(Ones(size), m, s) && s < 64 && s % 8 != 0
    ensures WritesOwnBits(m, s, s, size) <==>
      (if s < 8 && s < 8 - s then m.bits == s else s % 8 + m.bits >= 8)
  {
    hide WritesOwnBits, Fits;
    ClearExact(m, s, s, size);
  }

  // ---- Values ----

  /** Values the member can hold: the 64-bit offset from the base fits its width, or, for a
      sign-extending member, is the extension of a number of that width. */
  predicate Holds(m: Integer, s: nat, val: nat)
    requires m.Valid()
  {
    val < TWO_64 &&
    if SignExtends(m, s) then Rebased(m, val) < Pow2(m.bits - 1) || Rebased(m, val) >= TWO_64 - Pow2(m.bits - 1)
    else Rebased(m, val) < Pow2(m.bits)
  }

  /** The member's bits when it holds this value. */
  function Encoded(m: Integer, val: nat): (v: Word)
    requires m.Valid() && val < TWO_64
    ensures |v| == m.bits
  {
    ToBits(Rebased(m, val), m.bits)
  }

  lemma SixtyFour()
    ensures Pow2(64) == TWO_64
  {
    Sixteen();
    PowAdd(16, 16);
    PowAdd(32, 32);
  }

  lemma {:induction false} Truncates(v: nat, w: nat, width: nat)
    requires w <= width
    ensures ToBits(v, width)[..w] == ToBits(v, w)
  {
    if w > 0 {
      Truncates(v / 2, w - 1, width - 1);
    }
  }

  lemma {:induction false} ComplementBits(u: nat, w: nat)
    requires u < Pow2(w)
    ensures ToBits(Pow2(w) - 1 - u, w) == Not(ToBits(u, w))
  {
    if w > 0 {
      var v := Pow2(w) - 1 - u;
      assert v / 2 == Pow2(w - 1) - 1 - u / 2 && v % 2 == 1 - u % 2;
      ComplementBits(u / 2, w - 1);
    }
  }

  lemma ExtendsOnes(v: Word, word: Word, w: nat)
    requires 0 < w <= 64 == |word| && v == word[..w] && forall i :: w - 1 <= i < 64 ==> word[i]
    ensures Convert(v, 64, true) == word
  {
  }

  /** A word of ones from the sign bit on is the extension of its low part. */
  lemma {:induction false} NegativeExtends(r: nat, w: nat)
    requires 0 < w <= 64 && TWO_64 - Pow2(w - 1) <= r < TWO_64
    ensures Convert(ToBits(r, w), 64, true) == ToBits(r, 64)
  {
    hide Convert, ToBits, Pow2;
    Truncates(r, w, 64);
    HighOnes(r, w);
    ExtendsOnes(ToBits(r, w), ToBits(r, 64), w);
  }

  lemma HighOnes(r: nat, w: nat)
    requires 0 < w <= 64 && TWO_64 - Pow2(w - 1) <= r < TWO_64
    ensures forall i :: w - 1 <= i < 64 ==> ToBits(r, 64)[i]
  {
    hide ToBits, Pow2;
    SixtyFour();
    var u := TWO_64 - 1 - r;
    ComplementBits(u, 64);
    BitsResize(u, w - 1, 64);
  }

  lemma {:induction false} PositiveExtends(r: nat, w: nat)
    requires 0 < w <= 64 && r < Pow2(w - 1)
    ensures Convert(ToBits(r, w), 64, true) == ToBits(r, 64)
  {
    BitsResize(r, w - 1, 64);
    Truncates(r, w, 64);
  }

  /** Extending the member's bits gives the whole offset back. */
  lemma EncodedExtends(m: Integer, s: nat, val: nat)
    requires m.Valid() && Holds(m, s, val)
    ensures Convert(Encoded(m, val), 64, SignExtends(m, s)) == ToBits(Rebased(m, val), 64)
  {
    hide ToBits, Convert;
    var r := Rebased(m, val);
    if !SignExtends(m, s) {
      BitsResize(r, m.bits, 64);
    } else if r < Pow2(m.bits - 1) {
      PositiveExtends(r, m.bits);
    } else {
      NegativeExtends(r, m.bits);
    }
  }

  lemma HoldsStorable(m: Integer, s: nat, val: nat)
    requires m.Valid() && Holds(m, s, val)
    ensures Storable(m, s, ToBits(Rebased(m, val), 64)) && ToBits(Rebased(m, val), 64)[..m.bits] == Encoded(m, val)
  {
    EncodedExtends(m, s, val);
    Truncates(Rebased(m, val), m.bits, 64);
  }

  lemma ReadsBack(buf: Word, m: Integer, s: nat, val: nat)
    requires m.Valid() && Fits(buf, m, s) && Holds(m, s, val)
    requires buf[s..s + m.bits] == Encoded(m, val)
    ensures GetInteger(buf, m, s) == val
  {
    hide GetBits, Convert, ToBits, Fits, Val, Pow2;
    GetBitsIsField(buf, m, s);
    EncodedExtends(m, s, val);
    SixtyFour();
    ValOfBits(Rebased(m, val), 64);
    RebasedBack(m, val);
  }

  lemma RebasedBack(m: Integer, val: nat)
    requires m.Valid() && val < TWO_64
    ensures (Rebased(m, val) + m.base) % TWO_64 == val
  {
  }

  /** Set then get returns the value, at any offset, also for width 0 and values split across bytes. */
  lemma SetThenGet(buf: Word, m: Integer, s: nat, val: nat, clear: nat)
    requires m.Valid() && Fits(buf, m, s) && Holds(m, s, val) && ClearsExactly(s, m.bits, clear)
    ensures var r := Stored(buf, m, s, ToBits(Rebased(m, val), 64), clear);
      Fits(r, m, s) && GetInteger(r, m, s) == val
  {
    hide Stored, Replace, GetInteger, ToBits, Rebased;
    HoldsStorable(m, s, val);
    StoredReplaces(buf, m, s, ToBits(Rebased(m, val), 64), clear);
    var v := Encoded(m, val);
    ReplaceSlice(buf, s, v, s, s);
    ReadsBack(Replace(buf, s, v), m, s, val);
  }

  lemma {:induction false} ReadsValue(buf: Word, m: Integer, s: nat, val: nat)
    requires m.Valid() && m.base == 0 && Fits(buf, m, s) && Holds(m, s, val)
    requires buf[s..s + m.bits] == ToBits(val, m.bits)
    ensures GetInteger(buf, m, s) == val
  {
    hide GetInteger, Fits, ToBits;
    ReadsBack(buf, m, s, val);
  }

  /** An unsigned member without a range base reads as the value of its bits. */
  lemma ReadsUnsigned(buf: Word, m: Integer, s: nat)
    requires m.Valid() && !m.signed && m.base == 0 && Fits(buf, m, s)
    ensures GetInteger(buf, m, s) == Val(buf[s..s + m.bits])
  {
    hide GetBits, Convert;
    var field := buf[s..s + m.bits];
    GetBitsIsField(buf, m, s);
    ValResize(field, 64);
    ValBound(field);
    PowGrows(m.bits, 64);
    SixtyFour();
  }

  /** set_integer on a member without a range base replaces its bits by those of the value. */
  lemma {:induction false} StoresValue(buf: Word, m: Integer, s: nat, val: nat)
    requires m.Valid() && m.base == 0 && Fits(buf, m, s) && Holds(m, s, val)
    ensures Stored(buf, m, s, ToBits(Rebased(m, val), 64), LowBits(s, m.bits)) == Replace(buf, s, ToBits(val, m.bits))
  {
    hide Stored, Replace, ToBits, Fits;
    HoldsStorable(m, s, val);
    StoredReplaces(buf, m, s, ToBits(Rebased(m, val), 64), LowBits(s, m.bits));
  }

  /** A 16-bit unsigned member reads as the value of its bits. */
  lemma ReadShort(buf: Word, s: nat)
    requires Fits(buf, Integer(16, 2, false, 0), s)
    ensures GetInteger(buf, Integer(16, 2, false, 0), s) == Val(buf[s..s + 16]) < 65536
  {
    hide GetBits, Convert, Pow2, ToBits;
    var field := buf[s..s + 16];
    GetBitsIsField(buf, Integer(16, 2, false, 0), s);
    ValResize(field, 64);
    Short(field);
  }

  // ---- Custom ranges ----

  /** w is the least width that tells `size` values apart. */
  predicate LeastWidth(w: nat, size: nat) {
    size <= Pow2(w) && (w == 0 || Pow2(w - 1) < size)
  }

  function BitLength(r: nat): nat {
    if r == 0 then 0 else 1 + BitLength(r / 2)
  }

  lemma {:induction false} BitLengthIsLeast(r: nat)
    ensures LeastWidth(BitLength(r), r + 1)
  {
    if r > 0 {
      BitLengthIsLeast(r / 2);
    }
  }

  /** set_custom_range: the width found by shifting range_size - 1 down to zero. */
  method SetCustomRange(base: int, cap: int) returns (bits: nat)
    requires base < cap
    ensures LeastWidth(bits, cap - base)
  {
    var r: nat := cap - base - 1;
    bits := 0;
    while r != 0
      invariant bits + BitLength(r) == BitLength(cap - base - 1)
    {
      r := r / 2;
      bits := bits + 1;
    }
    BitLengthIsLeast(cap - base - 1);
  }

  /** An integer, possibly negative, as the unsigned 64-bit argument it is converted to. */
  function Unsigned(x: int): nat {
    x % TWO_64
  }

  lemma RebasedInRange(m: Integer, base: int, val: int)
    requires m.Valid() && m.base == Unsigned(base) && base <= val < base + TWO_64
    ensures Rebased(m, Unsigned(val)) == val - base
  {
  }

  /** m is the member set_custom_range(base, cap) makes. */
  predicate Ranged(m: Integer, base: int, cap: int) {
    m.Valid() && base < cap && m.base == Unsigned(base) && LeastWidth(m.bits, cap - base)
  }

  ghost predicate HoldsRange(m: Integer, s: nat, base: int, cap: int)
    requires m.Valid()
  {
    forall val :: base <= val < cap ==> Holds(m, s, Unsigned(val))
  }

  /** Every value of a custom range can be held, whatever the signs of its ends, if and only if the
      member is not a whole aligned word of a signed type of less than 64 bits. */
  lemma CustomRangeHolds(m: Integer, s: nat, base: int, cap: int)
    requires Ranged(m, base, cap)
    ensures HoldsRange(m, s, base, cap) <==> !SignExtends(m, s) || m.bits == 64
  {
    SixtyFour();
    PowGrows(m.bits, 64);
    if SignExtends(m, s) && m.bits < 64 {
      var half := Pow2(m.bits - 1);
      PowGrows(m.bits, 63);
      RebasedInRange(m, base, base + half);
      assert Rebased(m, Unsigned(base + half)) == half;
      assert half < TWO_64 - half;
      assert !Holds(m, s, Unsigned(base + half));
    } else {
      forall val | base <= val < cap ensures Holds(m, s, Unsigned(val)) {
        RebasedInRange(m, base, val);
      }
    }
  }

  /** A range whose size a signed type can represent leaves its word's last bit unused. */
  lemma SignedRangeIsNarrow(m: Integer, s: nat, base: int, cap: int)
    requires Ranged(m, base, cap) && cap - base < Pow2(8 * m.bytes - 1)
    ensures m.bits < 8 * m.bytes && !SignExtends(m, s) && HoldsRange(m, s, base, cap)
  {
    CustomRangeHolds(m, s, base, cap);
  }

  /** Hence every value of the range survives set then get at any offset. */
  lemma CustomRangeSurvives(buf: Word, m: Integer, s: nat, base: int, cap: int, val: int, clear: nat)
    requires Ranged(m, base, cap) && base <= val < cap && Fits(buf, m, s) && ClearsExactly(s, m.bits, clear)
    requires !SignExtends(m, s) || m.bits == 64
    ensures var r := Stored(buf, m, s, ToBits(Rebased(m, Unsigned(val)), 64), clear);
      Fits(r, m, s) && GetInteger(r, m, s) == Unsigned(val)
  {
    hide Stored, GetInteger, ToBits, Rebased;
    CustomRangeHolds(m, s, base, cap);
    SetThenGet(buf, m, s, Unsigned(val), clear);
  }
}
