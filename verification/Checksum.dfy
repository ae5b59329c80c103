/** The checksum module over a packet buffer: 16-bit words added with wrap-around, the
    checksum field zeroed and put back around the computation. */
module Checksum {
  import opened Bits
  import opened Layout
  import Codec

  /** What the checksum module adds up: checksum_type_t. */
  datatype Coverage = FullPacket | HeaderOnly

  /** A packet layout as the path modules use it: positions and types of the length and checksum
      members among `ms`, the payload member last, and the bytes kept off the wire. */
  datatype Format = Format(ms: seq<Member>, headroom: nat, total: nat, totalType: Codec.Integer,
                           computed: nat, computedType: Codec.Integer, checksum: nat, cover: Coverage) {
    function ChecksumType(): Codec.Integer {
      Codec.Integer(16, 2, false, 0)
    }

    /** First bit on the wire. */
    function WireStart(): nat {
      8 * headroom
    }

    function PayloadStart(): nat
      requires ms != []
    {
      Offset(ms, |ms| - 1)
    }

    /** Wire bytes in front of the payload: get_total_size() - 1 - get_headroom(). */
    function HeaderBytes(): nat
      requires ms != [] && WireStart() <= PayloadStart()
    {
      PayloadStart() / 8 - headroom
    }

    /** Bytes the checksum covers in a packet of `len` wire bytes. */
    function Span(len: nat): nat
      requires ms != [] && WireStart() <= PayloadStart()
    {
      if cover.FullPacket? then len else HeaderBytes()
    }

    predicate Typed(m: Codec.Integer, i: nat)
      requires i < |ms|
    {
      m.Valid() && m.bits == ms[i].size && m.base == 0
    }

    predicate Valid() {
      && computed < total < |ms| - 1 && computed < checksum < |ms| - 1 && total != checksum
      && Typed(totalType, total) && Typed(computedType, computed) && Typed(ChecksumType(), checksum)
      && ms[|ms| - 1] == Member(8, true)
      && End(ms, computed) <= WireStart() <= Offset(ms, total)
      && WireStart() <= Offset(ms, checksum)
      && WireStart() <= PayloadStart() && PayloadStart() % 8 == 0
    }

    /** Buffers long enough for the word-wide accesses to these members. */
    predicate Holds(buf: Word)
      requires Valid()
    {
      && End(ms, |ms| - 1) <= |buf|
      && Codec.Fits(buf, totalType, Offset(ms, total))
      && Codec.Fits(buf, computedType, Offset(ms, computed))
      && Codec.Fits(buf, ChecksumType(), Offset(ms, checksum))
    }
  }

  lemma FormatOrder(f: Format)
    requires f.Valid()
    ensures End(f.ms, f.computed) <= f.WireStart()
    ensures End(f.ms, f.total) <= f.PayloadStart() && End(f.ms, f.checksum) <= f.PayloadStart()
    ensures End(f.ms, f.total) <= Offset(f.ms, f.checksum) || End(f.ms, f.checksum) <= Offset(f.ms, f.total)
    ensures f.ms[f.checksum].size == 16
  {
    OffsetsOrdered(f.ms, f.total, |f.ms| - 1);
    OffsetsOrdered(f.ms, f.checksum, |f.ms| - 1);
    if f.total < f.checksum {
      OffsetsOrdered(f.ms, f.total, f.checksum);
    } else {
      OffsetsOrdered(f.ms, f.checksum, f.total);
    }
  }

  // ---- The sum ----

  function WordAt(buf: Word, start: nat, k: nat): nat
    requires start + 16 * (k + 1) <= |buf|
  {
    Val(buf[start + 16 * k..start + 16 * k + 16])
  }

  /** n words from bit `start` on, added as unsigned shorts. */
  function Sum(buf: Word, start: nat, n: nat): nat
    requires start + 16 * n <= |buf|
  {
    if n == 0 then 0 else (Sum(buf, start, n - 1) + WordAt(buf, start, n - 1)) % 65536
  }

  /** The plain total of n words. */
  function Total(buf: Word, start: nat, n: nat): nat
    requires start + 16 * n <= |buf|
  {
    if n == 0 then 0 else Total(buf, start, n - 1) + WordAt(buf, start, n - 1)
  }

  /** The sum is the total of the words modulo 2^16. */
  lemma {:induction false} SumIsTotal(buf: Word, start: nat, n: nat)
    requires start + 16 * n <= |buf|
    ensures Sum(buf, start, n) == Total(buf, start, n) % 65536
  {
    if n > 0 {
      SumIsTotal(buf, start, n - 1);
      AddModulo(Total(buf, start, n - 1), WordAt(buf, start, n - 1));
    }
  }

  lemma AddModulo(x: nat, y: nat)
    ensures (x % 65536 + y) % 65536 == (x + y) % 65536
  {
  }

  lemma {:induction false} SumAgrees(a: Word, b: Word, start: nat, n: nat)
    requires start + 16 * n <= |a| && start + 16 * n <= |b|
    requires a[start..start + 16 * n] == b[start..start + 16 * n]
    ensures Sum(a, start, n) == Sum(b, start, n)
  {
    if n > 0 {
      var end := start + 16 * n;
      assert a[start..end - 16] == a[start..end][..16 * (n - 1)] == b[start..end - 16];
      assert a[end - 16..end] == a[start..end][16 * (n - 1)..] == b[end - 16..end];
      SumAgrees(a, b, start, n - 1);
    }
  }

  // ---- compute_checksum ----

  /** Wire bytes rounded up to whole words. */
  function WordCount(len: nat): nat {
    (len + 1) / 2
  }

  /** A zero byte after an odd length; all that ingress changes. */
  function Padded(f: Format, buf: Word, len: nat): (r: Word)
    requires f.WireStart() + 16 * WordCount(len) <= |buf|
    ensures |r| == |buf|
  {
    if len % 2 == 1 then Codec.Replace(buf, f.WireStart() + 8 * len, Codec.Zeros(8)) else buf
  }

  /** The buffer as summed: checksum field zero, and a zero byte after an odd length. */
  function Prepared(f: Format, buf: Word, len: nat): (r: Word)
    requires f.Valid() && f.Holds(buf) && f.WireStart() + 16 * WordCount(len) <= |buf|
    ensures |r| == |buf|
  {
    FormatOrder(f);
    Padded(f, Codec.Replace(buf, Offset(f.ms, f.checksum), Codec.Zeros(16)), len)
  }

  function Computed(f: Format, buf: Word): nat
    requires f.Valid() && f.Holds(buf)
  {
    Codec.GetInteger(buf, f.computedType, Offset(f.ms, f.computed))
  }

  ghost function ChecksumOf(f: Format, buf: Word, len: nat): nat
    requires f.Valid() && f.Holds(buf) && f.WireStart() + 16 * WordCount(len) <= |buf|
  {
    Sum(Prepared(f, buf, len), f.WireStart(), WordCount(len))
  }

  /** The checksum covers `len` bytes, which with room for the pad byte lie in the buffer. */
  predicate Carries(f: Format, buf: Word, len: nat)
    requires f.Valid() && f.Holds(buf)
  {
    && f.Span(Computed(f, buf)) == len
    && f.HeaderBytes() <= len
    && f.WireStart() + 16 * WordCount(len) <= |buf|
  }

  /** A write of a 16-bit checksum is a replacement of its field. */
  lemma {:induction false} ChecksumWrite(f: Format, buf: Word, val: nat)
    requires f.Valid() && f.Holds(buf) && val < 65536
    ensures var s, m := Offset(f.ms, f.checksum), f.ChecksumType();
      Codec.Stored(buf, m, s, ToBits(Codec.Rebased(m, val), 64), Codec.LowBits(s, 16)) ==
      Codec.Replace(buf, s, ToBits(val, 16))
  {
    hide Codec.Stored, Codec.Replace, Codec.Fits, ToBits;
    Sixteen();
    Codec.StoresValue(buf, f.ChecksumType(), Offset(f.ms, f.checksum), val);
  }

  /** A member's integer depends on its own bits only. */
  lemma SameField(a: Word, b: Word, m: Codec.Integer, s: nat)
    requires m.Valid() && Codec.Fits(a, m, s) && Codec.Fits(b, m, s) && a[s..s + m.bits] == b[s..s + m.bits]
    ensures Codec.GetInteger(a, m, s) == Codec.GetInteger(b, m, s)
  {
    hide Codec.GetBits, Bits.Convert;
    Codec.GetBitsIsField(a, m, s);
    Codec.GetBitsIsField(b, m, s);
  }

  /** Writes on the wire side leave the computed length alone. */
  lemma ComputedStays(f: Format, buf: Word, s: nat, v: Word)
    requires f.Valid() && f.Holds(buf) && f.WireStart() <= s && s + |v| <= |buf|
    ensures f.Holds(Codec.Replace(buf, s, v)) && Computed(f, Codec.Replace(buf, s, v)) == Computed(f, buf)
  {
    hide Codec.GetInteger, Codec.Replace;
    Codec.ReplaceSlice(buf, s, v, Offset(f.ms, f.computed), End(f.ms, f.computed));
    SameField(buf, Codec.Replace(buf, s, v), f.computedType, Offset(f.ms, f.computed));
  }

  /** The stored checksum. */
  function Saved(f: Format, buf: Word): (c: nat)
    requires f.Valid() && f.Holds(buf)
  {
    Codec.GetInteger(buf, f.ChecksumType(), Offset(f.ms, f.checksum))
  }

  lemma SavedIsField(f: Format, buf: Word)
    requires f.Valid() && f.Holds(buf)
    ensures End(f.ms, f.checksum) <= |buf|
    ensures Saved(f, buf) == Val(Field(buf, f.ms, f.checksum)) < 65536
    ensures ToBits(Saved(f, buf), 16) == Field(buf, f.ms, f.checksum)
  {
    hide Codec.GetInteger;
    MemberInside(f.ms, f.checksum);
    Codec.ReadShort(buf, Offset(f.ms, f.checksum));
    Short(Field(buf, f.ms, f.checksum));
  }

  lemma SameHolds(f: Format, a: Word, b: Word)
    requires f.Valid() && f.Holds(a) && |a| == |b|
    ensures f.Holds(b)
  {
  }

  /** set_integer on the checksum member. */
  method StoreChecksum(f: Format, buf: array<bool>, val: nat)
    requires f.Valid() && f.Holds(buf[..]) && val < 65536
    modifies buf
    ensures End(f.ms, f.checksum) <= buf.Length && f.ms[f.checksum].size == 16
    ensures buf[..] == Codec.Replace(old(buf[..]), Offset(f.ms, f.checksum), ToBits(val, 16))
  {
    hide Codec.Stored, Codec.GetInteger, Codec.Replace, ToBits, Codec.Fits;
    var s := Offset(f.ms, f.checksum);
    FormatOrder(f);
    ChecksumWrite(f, buf[..], val);
    Codec.SetInteger(buf, f.ChecksumType(), s, val, Codec.LowBits(s, 16));
  }

  method ZeroChecksum(f: Format, buf: array<bool>)
    requires f.Valid() && f.Holds(buf[..])
    modifies buf
    ensures End(f.ms, f.checksum) <= buf.Length && f.ms[f.checksum].size == 16
    ensures buf[..] == Codec.Replace(old(buf[..]), Offset(f.ms, f.checksum), Codec.Zeros(16))
    ensures f.Holds(buf[..]) && Computed(f, buf[..]) == Computed(f, old(buf[..]))
  {
    hide Codec.GetInteger, Codec.Replace, ToBits, Codec.Fits;
    FormatOrder(f);
    ZeroBits(16);
    ComputedStays(f, buf[..], Offset(f.ms, f.checksum), Codec.Zeros(16));
    StoreChecksum(f, buf, 0);
  }

  method Pad(f: Format, buf: array<bool>, len: nat)
    requires f.WireStart() + 16 * WordCount(len) <= buf.Length
    modifies buf
    ensures buf[..] == Padded(f, old(buf[..]), len)
  {
    if len % 2 == 1 {
      Codec.Store(buf, f.WireStart() + 8 * len, Codec.Zeros(8));
    }
  }

  /** compute_checksum */
  method ComputeChecksum(f: Format, buf: array<bool>, ghost len: nat) returns (sum: nat)
    requires f.Valid() && f.Holds(buf[..]) && Carries(f, buf[..], len)
    modifies buf
    ensures buf[..] == Prepared(f, old(buf[..]), len)
    ensures sum == ChecksumOf(f, old(buf[..]), len)
  {
    hide Codec.GetInteger, Codec.Replace, Sum, Padded;
    ZeroChecksum(f, buf);
    var length := if f.cover.FullPacket? then Computed(f, buf[..]) else f.HeaderBytes();
    Pad(f, buf, length);
    sum := AddWords(buf, f.WireStart(), WordCount(length));
  }

  method AddWords(buf: array<bool>, start: nat, n: nat) returns (sum: nat)
    requires start + 16 * n <= buf.Length
    ensures sum == Sum(buf[..], start, n) == Total(buf[..], start, n) % 65536
  {
    SumIsTotal(buf[..], start, n);
    sum := 0;
    for k := 0 to n
      invariant sum == Sum(buf[..], start, k)
    {
      sum := (sum + Val(buf[start + 16 * k..start + 16 * k + 16])) % 65536;
      assert buf[..][start + 16 * k..start + 16 * k + 16] == buf[start + 16 * k..start + 16 * k + 16];
    }
  }

  lemma {:induction false} ZeroBits(w: nat)
    ensures ToBits(0, w) == Codec.Zeros(w)
  {
    if w > 0 {
      ZeroBits(w - 1);
    }
  }

  lemma {:induction false} SumBound(buf: Word, start: nat, n: nat)
    requires start + 16 * n <= |buf|
    ensures Sum(buf, start, n) < 65536
  {
  }

  /** hook_send: the packet with its checksum in place. */
  function Signed(f: Format, buf: Word, len: nat): (r: Word)
    requires f.Valid() && f.Holds(buf) && f.WireStart() + 16 * WordCount(len) <= |buf|
    ensures |r| == |buf|
  {
    FormatOrder(f);
    Codec.Replace(Prepared(f, buf, len), Offset(f.ms, f.checksum),
                  ToBits(Sum(Prepared(f, buf, len), f.WireStart(), WordCount(len)), 16))
  }

  method HookSend(f: Format, buf: array<bool>, ghost len: nat)
    requires f.Valid() && f.Holds(buf[..]) && Carries(f, buf[..], len)
    modifies buf
    ensures buf[..] == Signed(f, old(buf[..]), len)
  {
    hide Codec.GetInteger, Codec.Replace, Sum, Prepared, ToBits, Codec.Fits;
    ghost var before := buf[..];
    FormatOrder(f);
    var sum := ComputeChecksum(f, buf, len);
    SumBound(buf[..], f.WireStart(), WordCount(len));
    SameHolds(f, before, buf[..]);
    StoreChecksum(f, buf, sum);
  }

  /** Putting a field back undoes its change, whatever was written behind it. */
  lemma PutBack(buf: Word, s: nat, v: Word, at: nat, w: Word)
    requires s + |v| <= at && at + |w| <= |buf|
    ensures Codec.Replace(Codec.Replace(Codec.Replace(buf, s, v), at, w), s, buf[s..s + |v|]) == Codec.Replace(buf, at, w)
    ensures Codec.Replace(Codec.Replace(buf, s, v), s, buf[s..s + |v|]) == buf
  {
  }

  lemma RestoredIsPadded(f: Format, buf: Word, len: nat)
    requires f.Valid() && f.Holds(buf) && f.WireStart() + 16 * WordCount(len) <= |buf| && f.HeaderBytes() <= len
    ensures End(f.ms, f.checksum) <= |buf|
    ensures Codec.Replace(Prepared(f, buf, len), Offset(f.ms, f.checksum), Field(buf, f.ms, f.checksum)) ==
      Padded(f, buf, len)
  {
    hide Codec.Replace;
    FormatOrder(f);
    var s := Offset(f.ms, f.checksum);
    assert Field(buf, f.ms, f.checksum) == buf[s..s + 16];
    if len % 2 == 1 {
      PutBack(buf, s, Codec.Zeros(16), f.WireStart() + 8 * len, Codec.Zeros(8));
    } else {
      PutBack(buf, s, Codec.Zeros(16), s + 16, []);
    }
  }

  method HookIngress(f: Format, buf: array<bool>, ghost len: nat) returns (proceed: bool)
    requires f.Valid() && f.Holds(buf[..]) && Carries(f, buf[..], len)
    modifies buf
    ensures buf[..] == Padded(f, old(buf[..]), len)
    ensures proceed <==> ChecksumOf(f, old(buf[..]), len) == Saved(f, old(buf[..]))
  {
    hide Codec.GetInteger, Codec.Replace, Sum, Prepared, Padded, ToBits, Codec.Fits, Field;
    ghost var before := buf[..];
    var saved := Saved(f, buf[..]);
    SavedIsField(f, before);
    var sum := ComputeChecksum(f, buf, len);
    SameHolds(f, before, buf[..]);
    RestoredIsPadded(f, before, len);
    StoreChecksum(f, buf, saved);
    return sum == saved;
  }

  // ---- Replay and detection ----

  predicate Passes(f: Format, buf: Word, len: nat)
    requires f.Valid() && f.Holds(buf) && f.WireStart() + 16 * WordCount(len) <= |buf|
  {
    Sum(Prepared(f, buf, len), f.WireStart(), WordCount(len)) == Saved(f, buf)
  }

  /** Zeroing the pad byte twice is zeroing it once, before or after the checksum field. */
  lemma PreparedAgain(f: Format, buf: Word, len: nat)
    requires f.Valid() && f.Holds(buf) && f.WireStart() + 16 * WordCount(len) <= |buf| && f.HeaderBytes() <= len
    ensures f.Holds(Padded(f, buf, len)) && Prepared(f, Padded(f, buf, len), len) == Prepared(f, buf, len)
  {
    FormatOrder(f);
  }

  /** The pad byte lies behind the packet. */
  lemma PadOutside(f: Format, buf: Word, len: nat, a: nat, b: nat)
    requires f.WireStart() + 16 * WordCount(len) <= |buf| && a <= b <= f.WireStart() + 8 * len
    ensures Padded(f, buf, len)[a..b] == buf[a..b]
  {
  }

  lemma PaddedStays(f: Format, buf: Word, len: nat)
    requires f.Valid() && f.Holds(buf) && f.WireStart() + 16 * WordCount(len) <= |buf| && f.HeaderBytes() <= len
    ensures f.Holds(Padded(f, buf, len)) && Computed(f, Padded(f, buf, len)) == Computed(f, buf)
    ensures Saved(f, Padded(f, buf, len)) == Saved(f, buf)
  {
    hide Codec.GetInteger, Padded;
    FormatOrder(f);
    var s, c := Offset(f.ms, f.checksum), Offset(f.ms, f.computed);
    PadOutside(f, buf, len, s, s + 16);
    SameField(buf, Padded(f, buf, len), f.ChecksumType(), s);
    PadOutside(f, buf, len, c, c + f.computedType.bits);
    SameField(buf, Padded(f, buf, len), f.computedType, c);
  }

  /** Running ingress again on the buffer it left gives the same verdict, and the covered bytes are as received. */
  lemma ReplaySame(f: Format, buf: Word, len: nat)
    requires f.Valid() && f.Holds(buf) && Carries(f, buf, len)
    ensures var r := Padded(f, buf, len);
      && f.Holds(r) && Carries(f, r, len)
      && r[f.WireStart()..f.WireStart() + 8 * len] == buf[f.WireStart()..f.WireStart() + 8 * len]
      && (Passes(f, r, len) <==> Passes(f, buf, len))
  {
    hide Codec.GetInteger, Padded, Prepared, Sum, Codec.Replace;
    PaddedStays(f, buf, len);
    PadOutside(f, buf, len, f.WireStart(), f.WireStart() + 8 * len);
    PreparedAgain(f, buf, len);
  }

  // ---- One corrupted word ----

  /** a and b differ at most in the k-th wire word. */
  predicate SameOutside(f: Format, a: Word, b: Word, k: nat)
    requires f.WireStart() + 16 * (k + 1) <= |a|
  {
    var at := f.WireStart() + 16 * k;
    |a| == |b| && a[..at] == b[..at] && a[at + 16..] == b[at + 16..]
  }

  lemma AddDiffers(x: nat, y: nat, v: nat, w: nat)
    requires x < 65536 && y < 65536 && v < 65536 && w < 65536
    requires (x == y && v != w) || (x != y && v == w)
    ensures (x + v) % 65536 != (y + w) % 65536
  {
  }

  lemma {:induction false} SumsDiffer(a: Word, b: Word, start: nat, n: nat, k: nat)
    requires k < n && start + 16 * n <= |a| == |b|
    requires forall i :: 0 <= i < n && i != k ==> WordAt(a, start, i) == WordAt(b, start, i)
    requires WordAt(a, start, k) != WordAt(b, start, k)
    ensures Sum(a, start, n) != Sum(b, start, n)
  {
    hide WordAt;
    if k == n - 1 {
      SameWordsSameSum(a, b, start, n - 1);
    } else {
      SumsDiffer(a, b, start, n - 1, k);
    }
    SumBound(a, start, n - 1);
    SumBound(b, start, n - 1);
    WordBound(a, start, n - 1);
    WordBound(b, start, n - 1);
    AddDiffers(Sum(a, start, n - 1), Sum(b, start, n - 1), WordAt(a, start, n - 1), WordAt(b, start, n - 1));
  }

  lemma {:induction false} SameWordsSameSum(a: Word, b: Word, start: nat, n: nat)
    requires start + 16 * n <= |a| == |b|
    requires forall i :: 0 <= i < n ==> WordAt(a, start, i) == WordAt(b, start, i)
    ensures Sum(a, start, n) == Sum(b, start, n)
  {
    hide WordAt;
    if n > 0 {
      SameWordsSameSum(a, b, start, n - 1);
    }
  }

  lemma WordBound(buf: Word, start: nat, k: nat)
    requires start + 16 * (k + 1) <= |buf|
    ensures WordAt(buf, start, k) < 65536
  {
    Short(buf[start + 16 * k..start + 16 * k + 16]);
  }

  lemma {:induction false} DifferentVals(v: Word, w: Word)
    requires |v| == |w| && v != w
    ensures Val(v) != Val(w)
  {
    BitsOfVal(v);
    BitsOfVal(w);
  }

  /** Both buffers hold the same packet except for wire word k, where they differ. */
  ghost predicate Corrupted(f: Format, a: Word, b: Word, len: nat, k: nat)
    requires f.Valid() && f.Holds(a)
  {
    && f.WireStart() + 16 * WordCount(len) <= |a| == |b| && f.HeaderBytes() <= len && k < WordCount(len)
    && SameOutside(f, a, b, k)
    && a[f.WireStart()..f.WireStart() + 8 * len] != b[f.WireStart()..f.WireStart() + 8 * len]
  }

  /** The checksum member is one of the words added up, as in the default layout. */
  predicate ChecksumOnWord(f: Format)
    requires f.Valid()
  {
    (Offset(f.ms, f.checksum) - f.WireStart()) % 16 == 0
  }

  lemma AgreeAt(f: Format, a: Word, b: Word, k: nat, j: nat)
    requires f.WireStart() + 16 * (k + 1) <= |a| && SameOutside(f, a, b, k) && j < |a|
    requires !(f.WireStart() + 16 * k <= j < f.WireStart() + 16 * k + 16)
    ensures a[j] == b[j]
  {
  }

  lemma CorruptedBit(f: Format, a: Word, b: Word, len: nat, k: nat) returns (i: nat)
    requires f.Valid() && f.Holds(a) && Corrupted(f, a, b, len, k)
    ensures f.WireStart() + 16 * k <= i < f.WireStart() + 16 * k + 16
    ensures i < f.WireStart() + 8 * len && i < |b| && a[i] != b[i]
  {
    var start := f.WireStart();
    var at := start + 16 * k;
    var x, y := a[start..start + 8 * len], b[start..start + 8 * len];
    var j :| 0 <= j < |x| && x[j] != y[j];
    i := start + j;
    if !(at <= i < at + 16) {
      AgreeAt(f, a, b, k, i);
    }
  }

  /** Bit i of the prepared buffer. */
  lemma PreparedBit(f: Format, buf: Word, len: nat, i: nat)
    requires f.Valid() && f.Holds(buf) && f.WireStart() + 16 * WordCount(len) <= |buf| && i < |buf| && f.HeaderBytes() <= len
    ensures var s := Offset(f.ms, f.checksum);
      Prepared(f, buf, len)[i] ==
        (buf[i] && !(s <= i < s + 16) && !(len % 2 == 1 && f.WireStart() + 8 * len <= i < f.WireStart() + 8 * len + 8))
  {
    FormatOrder(f);
  }

  lemma PreparedSameWord(f: Format, a: Word, b: Word, len: nat, k: nat, i: nat)
    requires f.Valid() && f.Holds(a) && Corrupted(f, a, b, len, k) && f.Holds(b) && i < WordCount(len)
    requires i != k || f.WireStart() + 16 * k == Offset(f.ms, f.checksum)
    ensures WordAt(Prepared(f, a, len), f.WireStart(), i) == WordAt(Prepared(f, b, len), f.WireStart(), i)
  {
    hide Prepared, Codec.Replace;
    var start := f.WireStart() + 16 * i;
    var at := f.WireStart() + 16 * k;
    var p, q := Prepared(f, a, len), Prepared(f, b, len);
    forall j | start <= j < start + 16 ensures p[j] == q[j] {
      PreparedBit(f, a, len, j);
      PreparedBit(f, b, len, j);
      if !(at <= j < at + 16) {
        AgreeAt(f, a, b, k, j);
      }
    }
    assert p[start..start + 16] == q[start..start + 16];
  }

  lemma SavedDiffers(f: Format, a: Word, b: Word, len: nat, k: nat)
    requires f.Valid() && f.Holds(a) && Corrupted(f, a, b, len, k) && f.Holds(b)
    requires f.WireStart() + 16 * k == Offset(f.ms, f.checksum)
    ensures Saved(f, a) != Saved(f, b)
  {
    var i := CorruptedBit(f, a, b, len, k);
    hide Saved, Corrupted, ToBits, Val;
    var s := Offset(f.ms, f.checksum);
    SavedIsField(f, a);
    SavedIsField(f, b);
    assert Field(a, f.ms, f.checksum)[i - s] == a[i] && Field(b, f.ms, f.checksum)[i - s] == b[i];
  }

  lemma ChecksumWordHit(f: Format, a: Word, b: Word, len: nat, k: nat)
    requires f.Valid() && f.Holds(a) && Corrupted(f, a, b, len, k) && f.Holds(b)
    requires f.WireStart() + 16 * k == Offset(f.ms, f.checksum)
    ensures Sum(Prepared(f, a, len), f.WireStart(), WordCount(len)) == Sum(Prepared(f, b, len), f.WireStart(), WordCount(len))
  {
    hide Prepared, Sum, Codec.Replace, WordAt;
    forall j | 0 <= j < WordCount(len)
      ensures WordAt(Prepared(f, a, len), f.WireStart(), j) == WordAt(Prepared(f, b, len), f.WireStart(), j)
    {
      PreparedSameWord(f, a, b, len, k, j);
    }
    SameWordsSameSum(Prepared(f, a, len), Prepared(f, b, len), f.WireStart(), WordCount(len));
  }

  lemma WordsApart(f: Format, k: nat)
    requires f.Valid() && ChecksumOnWord(f) && f.WireStart() + 16 * k != Offset(f.ms, f.checksum)
    ensures var s, at := Offset(f.ms, f.checksum), f.WireStart() + 16 * k; s + 16 <= at || at + 16 <= s
  {
  }

  lemma SavedAgrees(f: Format, a: Word, b: Word, len: nat, k: nat)
    requires f.Valid() && f.Holds(a) && Corrupted(f, a, b, len, k) && f.Holds(b) && ChecksumOnWord(f)
    requires f.WireStart() + 16 * k != Offset(f.ms, f.checksum)
    ensures Saved(f, a) == Saved(f, b)
  {
    hide Codec.GetInteger;
    var s := Offset(f.ms, f.checksum);
    WordsApart(f, k);
    forall j | s <= j < s + 16 ensures a[j] == b[j] {
      AgreeAt(f, a, b, k, j);
    }
    assert a[s..s + 16] == b[s..s + 16];
    SameField(a, b, f.ChecksumType(), s);
  }

  lemma WordDiffers(f: Format, a: Word, b: Word, len: nat, k: nat)
    requires f.Valid() && f.Holds(a) && Corrupted(f, a, b, len, k) && f.Holds(b) && ChecksumOnWord(f)
    requires f.WireStart() + 16 * k != Offset(f.ms, f.checksum)
    ensures WordAt(Prepared(f, a, len), f.WireStart(), k) != WordAt(Prepared(f, b, len), f.WireStart(), k)
  {
    hide Prepared, Codec.Replace;
    var at := f.WireStart() + 16 * k;
    WordsApart(f, k);
    var i := CorruptedBit(f, a, b, len, k);
    PreparedBit(f, a, len, i);
    PreparedBit(f, b, len, i);
    var v, w := Prepared(f, a, len)[at..at + 16], Prepared(f, b, len)[at..at + 16];
    assert v[i - at] != w[i - at];
    DifferentVals(v, w);
  }

  lemma OtherWordHit(f: Format, a: Word, b: Word, len: nat, k: nat)
    requires f.Valid() && f.Holds(a) && Corrupted(f, a, b, len, k) && f.Holds(b) && ChecksumOnWord(f)
    requires f.WireStart() + 16 * k != Offset(f.ms, f.checksum)
    ensures Sum(Prepared(f, a, len), f.WireStart(), WordCount(len)) != Sum(Prepared(f, b, len), f.WireStart(), WordCount(len))
  {
    hide Prepared, Sum, Codec.GetInteger, Codec.Replace, WordAt;
    WordDiffers(f, a, b, len, k);
    forall j | 0 <= j < WordCount(len) && j != k
      ensures WordAt(Prepared(f, a, len), f.WireStart(), j) == WordAt(Prepared(f, b, len), f.WireStart(), j)
    {
      PreparedSameWord(f, a, b, len, k, j);
    }
    SumsDiffer(Prepared(f, a, len), Prepared(f, b, len), f.WireStart(), WordCount(len), k);
  }

  /** A change confined to one wire word turns an accepted packet into a rejected one. */
  lemma CorruptionDetected(f: Format, a: Word, b: Word, len: nat, k: nat)
    requires f.Valid() && f.Holds(a) && f.Holds(b) && Corrupted(f, a, b, len, k) && ChecksumOnWord(f)
    requires Passes(f, a, len)
    ensures !Passes(f, b, len)
  {
    hide Prepared, Sum, Codec.GetInteger, Codec.Replace;
    if f.WireStart() + 16 * k == Offset(f.ms, f.checksum) {
      SavedDiffers(f, a, b, len, k);
      ChecksumWordHit(f, a, b, len, k);
    } else {
      SavedAgrees(f, a, b, len, k);
      OtherWordHit(f, a, b, len, k);
    }
  }
}
