/** From the application buffer to the wire and back: the send hooks of the payload, header and
    checksum modules, then the ingress hooks in reverse. */
module Path {
  import opened Basics
  import opened Bits
  import opened Layout
  import opened Checksum
  import Codec

  /** A header field some other module sets on the send path. */
  datatype Write = Write(i: nat, bits: Word)

  predicate HeaderWrite(f: Format, w: Write) {
    && w.i < |f.ms| - 1 && |w.bits| == f.ms[w.i].size
    && w.i != f.total && w.i != f.computed && w.i != f.checksum
  }

  predicate HeaderWrites(f: Format, ws: seq<Write>) {
    forall k :: 0 <= k < |ws| ==> HeaderWrite(f, ws[k])
  }

  /** Wire length of a packet with this payload. */
  function LengthOf(f: Format, payload: Word): nat
    requires f.Valid()
  {
    f.HeaderBytes() + |payload| / 8
  }

  /** The payload fits the buffer and its length fits both length members. */
  predicate Sendable(f: Format, buf: Word, payload: Word) {
    && f.Valid() && f.Holds(buf) && |payload| % 8 == 0
    && f.WireStart() + 16 * WordCount(LengthOf(f, payload)) <= |buf|
    && Codec.Holds(f.totalType, Offset(f.ms, f.total), LengthOf(f, payload))
    && Codec.Holds(f.computedType, Offset(f.ms, f.computed), LengthOf(f, payload))
  }

  // ---- Hooks as functions of the buffer ----

  function SetLength(f: Format, buf: Word, i: nat, m: Codec.Integer, len: nat): (r: Word)
    requires f.Valid() && i < |f.ms| && m.bits == f.ms[i].size && End(f.ms, |f.ms| - 1) <= |buf|
    ensures |r| == |buf|
  {
    MemberInside(f.ms, i);
    Codec.Replace(buf, Offset(f.ms, i), ToBits(len, m.bits))
  }

  /** payload_module::hook_send */
  function PayloadHook(f: Format, buf: Word, payload: Word): (r: Word)
    requires Sendable(f, buf, payload)
    ensures |r| == |buf|
  {
    var len := LengthOf(f, payload);
    var lengths := SetLength(f, SetLength(f, buf, f.total, f.totalType, len), f.computed, f.computedType, len);
    Codec.Replace(lengths, f.PayloadStart(), payload)
  }

  function SetHeader(f: Format, buf: Word, w: Write): (r: Word)
    requires f.Valid() && HeaderWrite(f, w) && End(f.ms, |f.ms| - 1) <= |buf|
    ensures |r| == |buf|
  {
    OffsetsOrdered(f.ms, w.i, |f.ms| - 1);
    Codec.Replace(buf, Offset(f.ms, w.i), w.bits)
  }

  function SetHeaders(f: Format, buf: Word, ws: seq<Write>): (r: Word)
    requires f.Valid() && HeaderWrites(f, ws) && End(f.ms, |f.ms| - 1) <= |buf|
    ensures |r| == |buf|
    decreases |ws|
  {
    if ws == [] then buf else SetHeaders(f, SetHeader(f, buf, ws[0]), ws[1..])
  }

  /** The buffer handed to nb__send_packet. */
  function Outgoing(f: Format, buf: Word, payload: Word, ws: seq<Write>): (r: Word)
    requires Sendable(f, buf, payload) && HeaderWrites(f, ws)
    ensures |r| == |buf|
  {
    var loaded := SetHeaders(f, PayloadHook(f, buf, payload), ws);
    SameHolds(f, buf, loaded);
    Signed(f, loaded, f.Span(LengthOf(f, payload)))
  }

  /** The pad byte of a header of odd length is the first payload byte. */
  predicate Untouched(f: Format, payload: Word)
    requires f.Valid()
  {
    f.cover.FullPacket? || f.HeaderBytes() % 2 == 0 || payload == [] || (|payload| >= 8 && payload[..8] == Codec.Zeros(8))
  }

  /** What the checksum module leaves of the payload. */
  function Survivor(f: Format, payload: Word): (r: Word)
    requires f.Valid() && |payload| % 8 == 0
    ensures |r| == |payload| && Untouched(f, r)
    ensures r == payload <==> Untouched(f, payload)
  {
    if f.cover.FullPacket? || f.HeaderBytes() % 2 == 0 || payload == [] then payload
    else
      var r := Codec.Zeros(8) + payload[8..];
      assert r[..8] == Codec.Zeros(8) && (payload[..8] == Codec.Zeros(8) ==> r == payload);
      r
  }

  /** The bytes on the wire. */
  function WireBits(f: Format, buf: Word, len: nat): Word
    requires f.WireStart() + 8 * len <= |buf|
  {
    buf[f.WireStart()..f.WireStart() + 8 * len]
  }

  function TotalLen(f: Format, buf: Word): nat
    requires f.Valid() && f.Holds(buf)
  {
    Codec.GetInteger(buf, f.totalType, Offset(f.ms, f.total))
  }

  /** network_module::hook_ingress: copy total_len to computed_total_len. */
  function NetworkHook(f: Format, buf: Word): (r: Word)
    requires f.Valid() && f.Holds(buf)
    ensures |r| == |buf|
  {
    SetLength(f, buf, f.computed, f.computedType, TotalLen(f, buf))
  }

  /** What the inorder module hands to the application. */
  function PayloadIn(f: Format, buf: Word, len: nat): Word
    requires f.Valid() && f.HeaderBytes() <= len && f.WireStart() + 8 * len <= |buf|
  {
    buf[f.PayloadStart()..f.PayloadStart() + 8 * (len - f.HeaderBytes())]
  }

  // ---- The hooks in place ----

  /** A length write is a replacement of its field. */
  lemma {:induction false} LengthWrite(f: Format, buf: Word, i: nat, m: Codec.Integer, len: nat)
    requires f.Valid() && i < |f.ms| && f.Typed(m, i) && End(f.ms, |f.ms| - 1) <= |buf|
    requires Codec.Fits(buf, m, Offset(f.ms, i)) && Codec.Holds(m, Offset(f.ms, i), len)
    ensures Codec.Stored(buf, m, Offset(f.ms, i), ToBits(Codec.Rebased(m, len), 64), Codec.LowBits(Offset(f.ms, i), m.bits)) ==
      SetLength(f, buf, i, m, len)
  {
    hide Codec.Stored, Codec.Replace, Codec.Fits, ToBits;
    Codec.StoresValue(buf, m, Offset(f.ms, i), len);
  }

  method WriteLength(f: Format, buf: array<bool>, i: nat, m: Codec.Integer, len: nat)
    requires f.Valid() && i < |f.ms| && f.Typed(m, i) && End(f.ms, |f.ms| - 1) <= buf.Length
    requires Codec.Fits(buf[..], m, Offset(f.ms, i)) && Codec.Holds(m, Offset(f.ms, i), len)
    modifies buf
    ensures buf[..] == SetLength(f, old(buf[..]), i, m, len)
  {
    hide Codec.Stored, SetLength;
    LengthWrite(f, buf[..], i, m, len);
    Codec.SetInteger(buf, m, Offset(f.ms, i), len, Codec.LowBits(Offset(f.ms, i), m.bits));
  }

  method HookSendPayload(f: Format, buf: array<bool>, payload: Word) returns (sent: nat)
    requires Sendable(f, buf[..], payload)
    modifies buf
    ensures buf[..] == PayloadHook(f, old(buf[..]), payload)
    ensures sent == |payload| / 8
  {
    hide SetLength, Codec.Replace;
    var len := LengthOf(f, payload);
    WriteLength(f, buf, f.total, f.totalType, len);
    WriteLength(f, buf, f.computed, f.computedType, len);
    Codec.Store(buf, f.PayloadStart(), payload);
    return |payload| / 8;
  }

  method HookIngressNetwork(f: Format, buf: array<bool>)
    requires f.Valid() && f.Holds(buf[..])
    requires Codec.Holds(f.computedType, Offset(f.ms, f.computed), TotalLen(f, buf[..]))
    modifies buf
    ensures buf[..] == NetworkHook(f, old(buf[..]))
  {
    WriteLength(f, buf, f.computed, f.computedType, TotalLen(f, buf[..]));
  }

  // ---- What each hook leaves alone ----

  lemma {:induction false} HeadersKeep(f: Format, buf: Word, ws: seq<Write>, a: nat, b: nat)
    requires f.Valid() && HeaderWrites(f, ws) && End(f.ms, |f.ms| - 1) <= |buf| && a <= b <= |buf|
    requires forall k :: 0 <= k < |ws| ==> End(f.ms, ws[k].i) <= a || b <= Offset(f.ms, ws[k].i)
    ensures SetHeaders(f, buf, ws)[a..b] == buf[a..b]
    decreases |ws|
  {
    hide Codec.Replace;
    if ws != [] {
      OffsetsOrdered(f.ms, ws[0].i, |f.ms| - 1);
      Codec.ReplaceSlice(buf, Offset(f.ms, ws[0].i), ws[0].bits, a, b);
      HeadersKeep(f, SetHeader(f, buf, ws[0]), ws[1..], a, b);
    }
  }

  /** Header writes keep every other member and all of the payload. */
  lemma {:induction false} OtherHeadersKeep(f: Format, buf: Word, ws: seq<Write>, i: nat)
    requires f.Valid() && HeaderWrites(f, ws) && End(f.ms, |f.ms| - 1) <= |buf| && i < |f.ms| - 1
    requires forall k :: 0 <= k < |ws| ==> ws[k].i != i
    ensures End(f.ms, i) <= |buf| && Field(SetHeaders(f, buf, ws), f.ms, i) == Field(buf, f.ms, i)
  {
    hide SetHeaders;
    MemberInside(f.ms, i);
    forall k | 0 <= k < |ws| ensures End(f.ms, ws[k].i) <= Offset(f.ms, i) || End(f.ms, i) <= Offset(f.ms, ws[k].i) {
      assert HeaderWrite(f, ws[k]);
      if ws[k].i < i {
        OffsetsOrdered(f.ms, ws[k].i, i);
      } else {
        OffsetsOrdered(f.ms, i, ws[k].i);
      }
    }
    HeadersKeep(f, buf, ws, Offset(f.ms, i), End(f.ms, i));
  }

  lemma {:induction false} HeadersKeepPayload(f: Format, buf: Word, ws: seq<Write>, b: nat)
    requires f.Valid() && HeaderWrites(f, ws) && End(f.ms, |f.ms| - 1) <= |buf| && f.PayloadStart() <= b <= |buf|
    ensures SetHeaders(f, buf, ws)[f.PayloadStart()..b] == buf[f.PayloadStart()..b]
  {
    hide SetHeaders, Codec.Replace;
    forall k | 0 <= k < |ws| ensures End(f.ms, ws[k].i) <= f.PayloadStart() {
      assert HeaderWrite(f, ws[k]);
      OffsetsOrdered(f.ms, ws[k].i, |f.ms| - 1);
    }
    HeadersKeep(f, buf, ws, f.PayloadStart(), b);
  }

  // ---- What the buffers hold ----

  /** `buf` carries the packet: both lengths and the payload in place. */
  ghost predicate Loaded(f: Format, buf: Word, payload: Word) {
    && Sendable(f, buf, payload)
    && f.PayloadStart() + |payload| <= |buf|
    && End(f.ms, f.total) <= |buf| && End(f.ms, f.computed) <= |buf|
    && Field(buf, f.ms, f.total) == ToBits(LengthOf(f, payload), f.totalType.bits)
    && Field(buf, f.ms, f.computed) == ToBits(LengthOf(f, payload), f.computedType.bits)
    && buf[f.PayloadStart()..f.PayloadStart() + |payload|] == payload
  }

  /** What has to be shown of a buffer derived from a sendable one. */
  lemma LoadedFrom(f: Format, buf: Word, r: Word, payload: Word)
    requires Sendable(f, buf, payload) && |r| == |buf|
    requires End(f.ms, f.total) <= |r| && End(f.ms, f.computed) <= |r| && f.PayloadStart() + |payload| <= |r|
    requires Field(r, f.ms, f.total) == ToBits(LengthOf(f, payload), f.totalType.bits)
    requires Field(r, f.ms, f.computed) == ToBits(LengthOf(f, payload), f.computedType.bits)
    requires r[f.PayloadStart()..f.PayloadStart() + |payload|] == payload
    ensures Loaded(f, r, payload)
  {
  }

  lemma ThreeReplaces(buf: Word, t: nat, tv: Word, c: nat, cv: Word, p: nat, pv: Word)
    requires c + |cv| <= t && t + |tv| <= p && p + |pv| <= |buf|
    ensures var r := Codec.Replace(Codec.Replace(Codec.Replace(buf, t, tv), c, cv), p, pv);
      r[t..t + |tv|] == tv && r[c..c + |cv|] == cv && r[p..p + |pv|] == pv
  {
  }

  lemma PayloadHookLoads(f: Format, buf: Word, payload: Word)
    requires Sendable(f, buf, payload)
    ensures Loaded(f, PayloadHook(f, buf, payload), payload)
  {
    hide Codec.Replace, Loaded, ToBits;
    var len := LengthOf(f, payload);
    FormatOrder(f);
    OffsetsOrdered(f.ms, f.computed, f.total);
    ThreeReplaces(buf, Offset(f.ms, f.total), ToBits(len, f.totalType.bits),
                  Offset(f.ms, f.computed), ToBits(len, f.computedType.bits), f.PayloadStart(), payload);
    LoadedFrom(f, buf, PayloadHook(f, buf, payload), payload);
  }

  lemma {:induction false} HeadersKeepLoaded(f: Format, buf: Word, payload: Word, ws: seq<Write>)
    requires Loaded(f, buf, payload) && HeaderWrites(f, ws)
    ensures Loaded(f, SetHeaders(f, buf, ws), payload)
  {
    hide SetHeaders, Codec.Replace, ToBits;
    OtherHeadersKeep(f, buf, ws, f.total);
    OtherHeadersKeep(f, buf, ws, f.computed);
    HeadersKeepPayload(f, buf, ws, f.PayloadStart() + |payload|);
    LoadedFrom(f, buf, SetHeaders(f, buf, ws), payload);
  }

  /** Putting the checksum in touches its field and the pad byte only. */
  lemma SignedKeeps(f: Format, buf: Word, len: nat, a: nat, b: nat)
    requires f.Valid() && f.Holds(buf) && f.WireStart() + 16 * WordCount(len) <= |buf| && f.HeaderBytes() <= len
    requires a <= b <= f.WireStart() + 8 * len
    requires b <= Offset(f.ms, f.checksum) || End(f.ms, f.checksum) <= a
    ensures Signed(f, buf, len)[a..b] == buf[a..b]
  {
    hide Codec.Replace, Padded, Sum;
    FormatOrder(f);
    var s := Offset(f.ms, f.checksum);
    var zeroed := Codec.Replace(buf, s, Codec.Zeros(16));
    Codec.ReplaceSlice(buf, s, Codec.Zeros(16), a, b);
    PadOutside(f, zeroed, len, a, b);
    var sum := ToBits(Sum(Prepared(f, buf, len), f.WireStart(), WordCount(len)), 16);
    Codec.ReplaceSlice(Prepared(f, buf, len), s, sum, a, b);
  }

  lemma SignedKeepsMembers(f: Format, buf: Word, len: nat)
    requires f.Valid() && f.Holds(buf) && f.WireStart() + 16 * WordCount(len) <= |buf| && f.HeaderBytes() <= len
    ensures End(f.ms, f.total) <= |buf| && End(f.ms, f.computed) <= |buf|
    ensures Field(Signed(f, buf, len), f.ms, f.total) == Field(buf, f.ms, f.total)
    ensures Field(Signed(f, buf, len), f.ms, f.computed) == Field(buf, f.ms, f.computed)
  {
    hide Signed;
    FormatOrder(f);
    MemberInside(f.ms, f.total);
    MemberInside(f.ms, f.computed);
    SignedKeeps(f, buf, len, Offset(f.ms, f.total), End(f.ms, f.total));
    SignedKeeps(f, buf, len, Offset(f.ms, f.computed), End(f.ms, f.computed));
  }

  lemma SignedPayload(f: Format, buf: Word, payload: Word)
    requires Loaded(f, buf, payload)
    ensures var start, end := f.PayloadStart(), f.PayloadStart() + |payload|;
      Signed(f, buf, f.Span(LengthOf(f, payload)))[start..end] == Survivor(f, payload)
  {
    var len, start := LengthOf(f, payload), f.PayloadStart();
    var end := start + |payload|;
    assert buf[start..end] == payload;
    hide Loaded, Sendable, ToBits;
    FormatOrder(f);
    if f.cover.FullPacket? {
      hide Signed;
      SignedKeeps(f, buf, len, start, end);
    } else {
      SignedPad(f, buf, start, end);
    }
  }

  /** With a header of odd length, covering the header only zeroes the byte behind it. */
  lemma SignedPad(f: Format, buf: Word, start: nat, end: nat)
    requires f.Valid() && f.Holds(buf) && f.WireStart() + 16 * WordCount(f.HeaderBytes()) <= |buf|
    requires start == f.PayloadStart() && start <= end <= |buf| && (end - start) % 8 == 0 && f.cover.HeaderOnly?
    ensures Signed(f, buf, f.HeaderBytes())[start..end] == Survivor(f, buf[start..end])
  {
    hide Codec.Replace, Sum;
    FormatOrder(f);
    var s, len := Offset(f.ms, f.checksum), f.HeaderBytes();
    var zeroed := Codec.Replace(buf, s, Codec.Zeros(16));
    Codec.ReplaceSlice(buf, s, Codec.Zeros(16), start, end);
    var sum := ToBits(Sum(Prepared(f, buf, len), f.WireStart(), WordCount(len)), 16);
    Codec.ReplaceSlice(Prepared(f, buf, len), s, sum, start, end);
    if len % 2 == 1 && start < end {
      PadFirst(zeroed, start, end);
    }
  }

  lemma PadFirst(buf: Word, start: nat, end: nat)
    requires start + 8 <= end <= |buf|
    ensures Codec.Replace(buf, start, Codec.Zeros(8))[start..end] == Codec.Zeros(8) + buf[start..end][8..]
  {
  }

  lemma SignedLoaded(f: Format, buf: Word, payload: Word)
    requires Loaded(f, buf, payload)
    ensures Loaded(f, Signed(f, buf, f.Span(LengthOf(f, payload))), Survivor(f, payload))
  {
    hide Signed, ToBits, Survivor, Codec.Fits, Codec.Holds;
    FormatOrder(f);
    SignedKeepsMembers(f, buf, f.Span(LengthOf(f, payload)));
    SignedPayload(f, buf, payload);
    LoadedFrom(f, buf, Signed(f, buf, f.Span(LengthOf(f, payload))), Survivor(f, payload));
  }

  lemma {:induction false} OutgoingLoaded(f: Format, buf: Word, payload: Word, ws: seq<Write>)
    requires Sendable(f, buf, payload) && HeaderWrites(f, ws)
    ensures Loaded(f, SetHeaders(f, PayloadHook(f, buf, payload), ws), payload)
    ensures Loaded(f, Outgoing(f, buf, payload, ws), Survivor(f, payload))
  {
    hide Signed, SetHeaders, PayloadHook, Loaded, Survivor;
    PayloadHookLoads(f, buf, payload);
    HeadersKeepLoaded(f, PayloadHook(f, buf, payload), payload, ws);
    SignedLoaded(f, SetHeaders(f, PayloadHook(f, buf, payload), ws), payload);
  }

  // ---- The receiving side ----

  lemma SubSlice(a: Word, s: nat, e: nat, lo: nat, hi: nat)
    requires s <= lo <= hi <= e <= |a|
    ensures a[s..e][lo - s..hi - s] == a[lo..hi]
  {
    assert a[s..e] == a[s..lo] + a[lo..hi] + a[hi..e];
  }

  /** Two buffers that carry the same wire bits agree on every stretch of them. */
  lemma SameWire(f: Format, a: Word, b: Word, len: nat, lo: nat, hi: nat)
    requires f.WireStart() + 8 * len <= |a| && f.WireStart() + 8 * len <= |b| && WireBits(f, a, len) == WireBits(f, b, len)
    requires f.WireStart() <= lo <= hi <= f.WireStart() + 8 * len
    ensures a[lo..hi] == b[lo..hi]
  {
    SubSlice(a, f.WireStart(), f.WireStart() + 8 * len, lo, hi);
    SubSlice(b, f.WireStart(), f.WireStart() + 8 * len, lo, hi);
  }

  lemma SameSlice(a: Word, b: Word, lo: nat, hi: nat)
    requires lo <= hi <= |a| && hi <= |b| && forall i :: lo <= i < hi ==> a[i] == b[i]
    ensures a[lo..hi] == b[lo..hi]
  {
  }

  /** Two buffers that carry the same wire bits are prepared alike. */
  lemma SamePreparedBit(f: Format, a: Word, b: Word, len: nat, i: nat)
    requires f.Valid() && f.Holds(a) && f.Holds(b) && f.HeaderBytes() <= len
    requires f.WireStart() + 16 * WordCount(len) <= |a| && f.WireStart() + 16 * WordCount(len) <= |b|
    requires WireBits(f, a, len) == WireBits(f, b, len) && f.WireStart() <= i < f.WireStart() + 16 * WordCount(len)
    ensures Prepared(f, a, len)[i] == Prepared(f, b, len)[i]
  {
    hide Prepared, Offset, Codec.Fits;
    PreparedBit(f, a, len, i);
    PreparedBit(f, b, len, i);
    if i < f.WireStart() + 8 * len {
      assert WireBits(f, a, len)[i - f.WireStart()] == WireBits(f, b, len)[i - f.WireStart()];
    }
  }

  /** The sum depends on the wire bits alone, not on what follows them. */
  lemma SameWireSameSum(f: Format, a: Word, b: Word, len: nat)
    requires f.Valid() && f.Holds(a) && f.Holds(b) && f.HeaderBytes() <= len
    requires f.WireStart() + 16 * WordCount(len) <= |a| && f.WireStart() + 16 * WordCount(len) <= |b|
    requires WireBits(f, a, len) == WireBits(f, b, len)
    ensures Sum(Prepared(f, a, len), f.WireStart(), WordCount(len)) == Sum(Prepared(f, b, len), f.WireStart(), WordCount(len))
  {
    hide Prepared, Sum, Codec.Fits, WordCount, WireBits;
    var s, n := f.WireStart(), WordCount(len);
    var p, q := Prepared(f, a, len), Prepared(f, b, len);
    forall i | s <= i < s + 16 * n ensures p[i] == q[i] {
      SamePreparedBit(f, a, b, len, i);
    }
    SameSlice(p, q, s, s + 16 * n);
    SumAgrees(p, q, s, n);
  }

  /** Preparing a signed packet gives back what was summed. */
  lemma SignedPrepared(f: Format, buf: Word, len: nat)
    requires f.Valid() && f.Holds(buf) && f.WireStart() + 16 * WordCount(len) <= |buf| && f.HeaderBytes() <= len
    ensures Prepared(f, Signed(f, buf, len), len) == Prepared(f, buf, len)
  {
    FormatOrder(f);
  }

  lemma SignedPasses(f: Format, buf: Word, len: nat)
    requires f.Valid() && f.Holds(buf) && f.WireStart() + 16 * WordCount(len) <= |buf| && f.HeaderBytes() <= len
    ensures Passes(f, Signed(f, buf, len), len)
  {
    hide Prepared, Sum, Saved, Codec.Replace;
    var r, sum := Signed(f, buf, len), Sum(Prepared(f, buf, len), f.WireStart(), WordCount(len));
    SumBound(Prepared(f, buf, len), f.WireStart(), WordCount(len));
    FormatOrder(f);
    Codec.ReplaceSlice(Prepared(f, buf, len), Offset(f.ms, f.checksum), ToBits(sum, 16), 0, 0);
    SavedIsField(f, r);
    assert Field(r, f.ms, f.checksum) == ToBits(sum, 16);
    ShortBits(sum);
    SignedPrepared(f, buf, len);
  }

  /** A packet passes in any buffer that carries its wire bits. */
  lemma SameWirePasses(f: Format, a: Word, b: Word, len: nat)
    requires f.Valid() && f.Holds(a) && f.Holds(b) && f.HeaderBytes() <= len
    requires f.WireStart() + 16 * WordCount(len) <= |a| && f.WireStart() + 16 * WordCount(len) <= |b|
    requires WireBits(f, a, len) == WireBits(f, b, len)
    ensures Passes(f, a, len) <==> Passes(f, b, len)
  {
    hide Prepared, Sum, Codec.GetInteger, Codec.Replace;
    SameWireSameSum(f, a, b, len);
    FormatOrder(f);
    SameWire(f, a, b, len, Offset(f.ms, f.checksum), End(f.ms, f.checksum));
    SameField(a, b, f.ChecksumType(), Offset(f.ms, f.checksum));
  }

  /** The receive buffer: the wire bits behind the headroom, anything at all elsewhere. */
  ghost predicate Arrived(f: Format, buf: Word, out: Word, len: nat)
    requires f.Valid()
  {
    && f.Holds(buf) && f.WireStart() + 16 * WordCount(len) <= |buf| && f.WireStart() + 8 * len <= |out|
    && WireBits(f, buf, len) == WireBits(f, out, len)
  }

  lemma ArrivedLength(f: Format, buf: Word, out: Word, payload: Word)
    requires Loaded(f, out, payload) && Arrived(f, buf, out, LengthOf(f, payload))
    ensures TotalLen(f, buf) == LengthOf(f, payload)
  {
    hide Codec.GetInteger, Codec.Fits, ToBits;
    FormatOrder(f);
    SameWire(f, buf, out, LengthOf(f, payload), Offset(f.ms, f.total), End(f.ms, f.total));
    Codec.ReadsValue(buf, f.totalType, Offset(f.ms, f.total), LengthOf(f, payload));
  }

  /** Writing the computed length leaves the wire bits alone and can be read back. */
  lemma ComputedWrite(f: Format, buf: Word, len: nat, wire: nat)
    requires f.Valid() && f.Holds(buf) && f.WireStart() + 8 * wire <= |buf|
    requires Codec.Holds(f.computedType, Offset(f.ms, f.computed), len)
    ensures var r := SetLength(f, buf, f.computed, f.computedType, len);
      f.Holds(r) && WireBits(f, r, wire) == WireBits(f, buf, wire) && Computed(f, r) == len
  {
    hide Codec.GetInteger, Codec.Replace;
    var c, v := Offset(f.ms, f.computed), ToBits(len, f.computedType.bits);
    MemberInside(f.ms, f.computed);
    Codec.ReplaceSlice(buf, c, v, f.WireStart(), f.WireStart() + 8 * wire);
    Codec.ReplaceSlice(buf, c, v, c, c + |v|);
    Codec.ReadsValue(Codec.Replace(buf, c, v), f.computedType, c, len);
  }

  lemma NetworkHookKeepsWire(f: Format, buf: Word, len: nat)
    requires f.Valid() && f.Holds(buf) && f.WireStart() + 8 * len <= |buf|
    requires Codec.Holds(f.computedType, Offset(f.ms, f.computed), TotalLen(f, buf))
    ensures f.Holds(NetworkHook(f, buf)) && WireBits(f, NetworkHook(f, buf), len) == WireBits(f, buf, len)
    ensures Computed(f, NetworkHook(f, buf)) == TotalLen(f, buf)
  {
    hide SetLength, Codec.GetInteger;
    ComputedWrite(f, buf, TotalLen(f, buf), len);
  }

  // ---- What each ingress hook keeps ----

  /** The flow identifier and other members kept off the wire. */
  predicate MarkWrites(f: Format, marks: seq<Write>)
    requires f.Valid()
  {
    HeaderWrites(f, marks) && forall k :: 0 <= k < |marks| ==> End(f.ms, marks[k].i) <= f.WireStart()
  }

  /** After the checksum module: the identifier module notes the flow, and the inorder module takes
      the length from the wire once more. */
  function Sequenced(f: Format, buf: Word, marks: seq<Write>): (r: Word)
    requires f.Valid() && f.Holds(buf) && HeaderWrites(f, marks)
    ensures |r| == |buf|
  {
    NetworkHook(f, SetHeaders(f, buf, marks))
  }

  lemma ArrivedNetwork(f: Format, buf: Word, out: Word, payload: Word)
    requires Loaded(f, out, payload) && Arrived(f, buf, out, LengthOf(f, payload))
    ensures TotalLen(f, buf) == LengthOf(f, payload)
    ensures Arrived(f, NetworkHook(f, buf), out, LengthOf(f, payload))
    ensures Computed(f, NetworkHook(f, buf)) == LengthOf(f, payload)
  {
    hide SetLength, Codec.GetInteger, Codec.Fits, ToBits;
    ArrivedLength(f, buf, out, payload);
    NetworkHookKeepsWire(f, buf, LengthOf(f, payload));
  }

  /** The pad byte lies behind the packet, or on a payload byte that is zero already. */
  lemma ArrivedPadded(f: Format, buf: Word, out: Word, payload: Word)
    requires Loaded(f, out, payload) && Arrived(f, buf, out, LengthOf(f, payload)) && Untouched(f, payload)
    ensures Arrived(f, Padded(f, buf, f.Span(LengthOf(f, payload))), out, LengthOf(f, payload))
  {
    var len, start := LengthOf(f, payload), f.PayloadStart();
    var end := start + |payload|;
    assert out[start..end] == payload && end == f.WireStart() + 8 * len;
    hide Loaded, Sendable, ToBits, Codec.GetInteger, Codec.Fits;
    SameHolds(f, buf, Padded(f, buf, f.Span(len)));
    if f.cover.FullPacket? || f.HeaderBytes() % 2 == 0 || payload == [] {
      hide Padded;
      PadBehind(f, buf, f.Span(len), len);
    } else {
      SameWire(f, buf, out, len, start, end);
      ZeroAlready(buf, start, end);
    }
  }

  lemma PadBehind(f: Format, buf: Word, span: nat, len: nat)
    requires f.WireStart() + 16 * WordCount(span) <= |buf| && f.WireStart() + 8 * len <= |buf| && (span == len || span % 2 == 0)
    ensures WireBits(f, Padded(f, buf, span), len) == WireBits(f, buf, len)
  {
    if span == len {
      PadOutside(f, buf, len, f.WireStart(), f.WireStart() + 8 * len);
    }
  }

  lemma ZeroAlready(buf: Word, start: nat, end: nat)
    requires start + 8 <= end <= |buf| && buf[start..end][..8] == Codec.Zeros(8)
    ensures Codec.Replace(buf, start, Codec.Zeros(8)) == buf
  {
    forall i | start <= i < start + 8 ensures !buf[i] {
      assert buf[start..end][..8][i - start] == buf[i];
    }
  }

  lemma {:induction false} ArrivedMarked(f: Format, buf: Word, out: Word, len: nat, marks: seq<Write>)
    requires f.Valid() && Arrived(f, buf, out, len) && MarkWrites(f, marks)
    ensures Arrived(f, SetHeaders(f, buf, marks), out, len)
  {
    hide SetHeaders;
    HeadersKeep(f, buf, marks, f.WireStart(), f.WireStart() + 8 * len);
  }

  lemma ArrivedPayload(f: Format, buf: Word, out: Word, payload: Word)
    requires Loaded(f, out, payload) && Arrived(f, buf, out, LengthOf(f, payload))
    ensures PayloadIn(f, buf, LengthOf(f, payload)) == payload
  {
    var len, start := LengthOf(f, payload), f.PayloadStart();
    var end := start + |payload|;
    assert out[start..end] == payload && end == f.WireStart() + 8 * len;
    hide Loaded, Sendable, ToBits;
    SameWire(f, buf, out, len, start, end);
  }

  lemma CoverFits(f: Format, len: nat)
    requires f.Valid() && f.HeaderBytes() <= len
    ensures f.HeaderBytes() <= f.Span(len) <= len && WordCount(f.Span(len)) <= WordCount(len) && 8 * len <= 16 * WordCount(len)
  {
  }

  /** A packet that passes as sent passes as it arrives. */
  lemma ArrivedPasses(f: Format, buf: Word, out: Word, len: nat)
    requires f.Valid() && f.Holds(out) && Arrived(f, buf, out, len) && f.HeaderBytes() <= len
    requires f.WireStart() + 16 * WordCount(len) <= |out| && Passes(f, out, f.Span(len))
    ensures Passes(f, buf, f.Span(len))
  {
    hide Passes, Codec.Fits, WordCount, Offset;
    CoverFits(f, len);
    SameWire(f, buf, out, len, f.WireStart(), f.WireStart() + 8 * f.Span(len));
    SameWirePasses(f, buf, out, f.Span(len));
  }

  // ---- Round trips ----

  /** The ingress hooks let the packet through and hand this payload to the application. */
  ghost predicate Recovered(f: Format, arrived: Word, payload: Word, marks: seq<Write>)
    requires f.Valid() && f.Holds(arrived) && MarkWrites(f, marks)
  {
    var len, got := LengthOf(f, payload), NetworkHook(f, arrived);
    var span := f.Span(len);
    && TotalLen(f, arrived) == len
    && f.Holds(got) && Carries(f, got, span) && Passes(f, got, span)
    && var last := Sequenced(f, Padded(f, got, span), marks);
      && f.Holds(last) && Computed(f, last) == len
      && f.WireStart() + 8 * len <= |last| && PayloadIn(f, last, len) == payload
  }

  /** Ingress recovers a packet that passes from any buffer that carries its wire bits. */
  lemma IngressRecovers(f: Format, out: Word, payload: Word, arrived: Word, marks: seq<Write>)
    requires Loaded(f, out, payload) && Arrived(f, arrived, out, LengthOf(f, payload)) && Untouched(f, payload)
    requires Passes(f, out, f.Span(LengthOf(f, payload))) && MarkWrites(f, marks)
    ensures Recovered(f, arrived, payload, marks)
  {
    hide SetLength, SetHeaders, Codec.GetInteger, Codec.Fits, Padded, Passes, Untouched, ToBits, NetworkHook, PayloadIn;
    var len := LengthOf(f, payload);
    ArrivedNetwork(f, arrived, out, payload);
    var got := NetworkHook(f, arrived);
    ArrivedPasses(f, got, out, len);
    ArrivedPadded(f, got, out, payload);
    var checked := Padded(f, got, f.Span(len));
    ArrivedMarked(f, checked, out, len, marks);
    ArrivedNetwork(f, SetHeaders(f, checked, marks), out, payload);
    ArrivedPayload(f, Sequenced(f, checked, marks), out, payload);
  }

  /** Send, carry, receive: the checksum passes, and length and payload are those that were sent,
      whatever the buffers held before and whatever follows the packet on arrival; only a checksum
      over a header of odd length costs the first payload byte. */
  lemma RoundTrip(f: Format, buf: Word, payload: Word, ws: seq<Write>, arrived: Word, marks: seq<Write>)
    requires Sendable(f, buf, payload) && HeaderWrites(f, ws) && MarkWrites(f, marks)
    requires Arrived(f, arrived, Outgoing(f, buf, payload, ws), LengthOf(f, payload))
    ensures Recovered(f, arrived, Survivor(f, payload), marks)
  {
    hide Signed, SetHeaders, PayloadHook, Loaded, Passes, Recovered, Arrived, Survivor, Untouched, Codec.Fits, Codec.Holds;
    OutgoingLoaded(f, buf, payload, ws);
    var loaded := SetHeaders(f, PayloadHook(f, buf, payload), ws);
    SameHolds(f, buf, loaded);
    SignedPasses(f, loaded, f.Span(LengthOf(f, payload)));
    IngressRecovers(f, Outgoing(f, buf, payload, ws), Survivor(f, payload), arrived, marks);
  }

  /** The payload comes back as it was sent if and only if the checksum covers the whole packet, the
      header has even length, or there is no first payload byte other than zero. */
  lemma RoundTripExactly(f: Format, buf: Word, payload: Word, ws: seq<Write>, arrived: Word, marks: seq<Write>)
    requires Sendable(f, buf, payload) && HeaderWrites(f, ws) && MarkWrites(f, marks)
    requires Arrived(f, arrived, Outgoing(f, buf, payload, ws), LengthOf(f, payload))
    ensures Recovered(f, arrived, payload, marks) <==> Untouched(f, payload)
  {
    RoundTrip(f, buf, payload, ws, arrived, marks);
    assert LengthOf(f, payload) == LengthOf(f, Survivor(f, payload));
    hide Arrived, Outgoing, Sequenced, Padded, Passes, NetworkHook, Survivor, Untouched, PayloadIn, Carries, Sendable;
  }

  // ---- Header fields ----

  /** The last write to a member is what its bits are. */
  lemma {:induction false} HeaderWritten(f: Format, buf: Word, ws: seq<Write>, k: nat)
    requires f.Valid() && HeaderWrites(f, ws) && End(f.ms, |f.ms| - 1) <= |buf| && k < |ws|
    requires forall j :: k < j < |ws| ==> ws[j].i != ws[k].i
    ensures End(f.ms, ws[k].i) <= |buf| && Field(SetHeaders(f, buf, ws), f.ms, ws[k].i) == ws[k].bits
    decreases |ws|
  {
    hide Codec.Replace;
    MemberInside(f.ms, ws[k].i);
    var next := SetHeader(f, buf, ws[0]);
    if k > 0 {
      assert ws[1..][k - 1] == ws[k];
      HeaderWritten(f, next, ws[1..], k - 1);
    } else {
      var i := ws[0].i;
      assert Offset(f.ms, i) + |ws[0].bits| == End(f.ms, i);
      Codec.ReplaceSlice(buf, Offset(f.ms, i), ws[0].bits, 0, 0);
      OtherHeadersKeep(f, next, ws[1..], i);
    }
  }

  /** What the sender's modules wrote in a header member is what the receiver's modules read in it. */
  lemma HeaderArrives(f: Format, buf: Word, payload: Word, ws: seq<Write>, arrived: Word, k: nat)
    requires Sendable(f, buf, payload) && HeaderWrites(f, ws)
    requires Arrived(f, arrived, Outgoing(f, buf, payload, ws), LengthOf(f, payload))
    requires k < |ws| && f.WireStart() <= Offset(f.ms, ws[k].i) && forall j :: k < j < |ws| ==> ws[j].i != ws[k].i
    ensures End(f.ms, ws[k].i) <= |arrived| && Field(arrived, f.ms, ws[k].i) == ws[k].bits
  {
    hide Codec.GetInteger, Codec.Fits, ToBits, Signed, SetHeaders, PayloadHook, Loaded;
    var loaded, i := SetHeaders(f, PayloadHook(f, buf, payload), ws), ws[k].i;
    HeaderWritten(f, PayloadHook(f, buf, payload), ws, k);
    OffsetsOrdered(f.ms, i, |f.ms| - 1);
    if i < f.checksum {
      OffsetsOrdered(f.ms, i, f.checksum);
    } else {
      OffsetsOrdered(f.ms, f.checksum, i);
    }
    SameHolds(f, buf, loaded);
    SignedKeeps(f, loaded, f.Span(LengthOf(f, payload)), Offset(f.ms, i), End(f.ms, i));
    SameWire(f, arrived, Outgoing(f, buf, payload, ws), LengthOf(f, payload), Offset(f.ms, i), End(f.ms, i));
  }

  // ---- Whole paths in place ----

  /** A loaded buffer announces its own length to the checksum module. */
  lemma LoadedCarries(f: Format, buf: Word, payload: Word)
    requires Loaded(f, buf, payload)
    ensures Carries(f, buf, f.Span(LengthOf(f, payload)))
  {
    hide Codec.GetInteger, Codec.Fits, Codec.Holds, ToBits;
    Codec.ReadsValue(buf, f.computedType, Offset(f.ms, f.computed), LengthOf(f, payload));
  }

  /** The other modules' send hooks, one header field after the other. */
  method WriteHeaders(f: Format, buf: array<bool>, ws: seq<Write>)
    requires f.Valid() && HeaderWrites(f, ws) && End(f.ms, |f.ms| - 1) <= buf.Length
    modifies buf
    ensures buf[..] == SetHeaders(f, old(buf[..]), ws)
  {
    hide Codec.Replace;
    assert ws[0..] == ws;
    for k := 0 to |ws|
      invariant SetHeaders(f, buf[..], ws[k..]) == SetHeaders(f, old(buf[..]), ws)
    {
      var rest := ws[k..];
      assert rest[0] == ws[k] && rest[1..] == ws[k + 1..];
      OffsetsOrdered(f.ms, ws[k].i, |f.ms| - 1);
      Codec.Store(buf, Offset(f.ms, ws[k].i), ws[k].bits);
    }
  }

  /** The send hooks in registration order. */
  method RunSendPath(f: Format, buf: array<bool>, payload: Word, ws: seq<Write>) returns (sent: nat)
    requires Sendable(f, buf[..], payload) && HeaderWrites(f, ws)
    modifies buf
    ensures buf[..] == Outgoing(f, old(buf[..]), payload, ws)
    ensures sent == |payload| / 8
  {
    hide Codec.Replace, Signed, SetHeaders, PayloadHook, Carries, Survivor, ToBits;
    OutgoingLoaded(f, buf[..], payload, ws);
    LoadedCarries(f, SetHeaders(f, PayloadHook(f, buf[..], payload), ws), payload);
    sent := HookSendPayload(f, buf, payload);
    WriteHeaders(f, buf, ws);
    Checksum.HookSend(f, buf, f.Span(LengthOf(f, payload)));
  }

  /** The packet announces a length that holds its header and lies in the buffer. */
  predicate Receivable(f: Format, buf: Word) {
    && f.Valid() && f.Holds(buf)
    && Codec.Holds(f.computedType, Offset(f.ms, f.computed), TotalLen(f, buf))
    && f.HeaderBytes() <= TotalLen(f, buf) && f.WireStart() + 16 * WordCount(TotalLen(f, buf)) <= |buf|
  }

  lemma SameLength(f: Format, buf: Word, r: Word)
    requires Receivable(f, buf) && |r| == |buf|
    requires End(f.ms, f.total) <= |buf| && Field(r, f.ms, f.total) == Field(buf, f.ms, f.total)
    ensures Receivable(f, r) && TotalLen(f, r) == TotalLen(f, buf)
  {
    hide Codec.GetInteger, Codec.Holds;
    SameField(buf, r, f.totalType, Offset(f.ms, f.total));
  }

  lemma ChecksumKeepsLength(f: Format, buf: Word)
    requires Receivable(f, buf)
    ensures var got := NetworkHook(f, buf);
      && Receivable(f, got) && TotalLen(f, got) == TotalLen(f, buf) == Computed(f, got)
      && var checked := Padded(f, got, f.Span(TotalLen(f, buf)));
        Receivable(f, checked) && TotalLen(f, checked) == TotalLen(f, buf)
  {
    hide Codec.GetInteger, SetLength, Receivable, Padded, Codec.Fits, Codec.Holds;
    ReceivableParts(f, buf);
    var len := TotalLen(f, buf);
    var got, t, e := NetworkHook(f, buf), Offset(f.ms, f.total), End(f.ms, f.total);
    FormatOrder(f);
    NetworkHookKeepsWire(f, buf, len);
    SameWire(f, got, buf, len, t, e);
    SameLength(f, buf, got);
    PadOutside(f, got, f.Span(len), t, e);
    SameLength(f, got, Padded(f, got, f.Span(len)));
  }

  lemma ReceivableParts(f: Format, buf: Word)
    requires Receivable(f, buf)
    ensures f.Valid() && f.Holds(buf)
    ensures Codec.Holds(f.computedType, Offset(f.ms, f.computed), TotalLen(f, buf))
    ensures f.HeaderBytes() <= TotalLen(f, buf) && f.WireStart() + 16 * WordCount(TotalLen(f, buf)) <= |buf|
  {
  }

  lemma {:induction false} MarksKeepLength(f: Format, buf: Word, marks: seq<Write>)
    requires Receivable(f, buf) && MarkWrites(f, marks)
    ensures Receivable(f, SetHeaders(f, buf, marks)) && TotalLen(f, SetHeaders(f, buf, marks)) == TotalLen(f, buf)
  {
    hide Codec.GetInteger, SetHeaders, Receivable, Codec.Fits, Codec.Holds;
    ReceivableParts(f, buf);
    FormatOrder(f);
    HeadersKeep(f, buf, marks, Offset(f.ms, f.total), End(f.ms, f.total));
    SameLength(f, buf, SetHeaders(f, buf, marks));
  }

  /** The network and checksum modules. */
  method CheckPacket(f: Format, buf: array<bool>) returns (proceed: bool)
    requires Receivable(f, buf[..])
    modifies buf
    ensures var len, got := TotalLen(f, old(buf[..])), NetworkHook(f, old(buf[..]));
      && f.Holds(got) && f.WireStart() + 16 * WordCount(f.Span(len)) <= |got|
      && buf[..] == Padded(f, got, f.Span(len)) && (proceed <==> Passes(f, got, f.Span(len)))
      && Receivable(f, buf[..]) && TotalLen(f, buf[..]) == len
  {
    hide Codec.GetInteger, Codec.Replace, SetLength, Padded, Prepared, Sum, Codec.Fits, Codec.Holds;
    var len := TotalLen(f, buf[..]);
    ChecksumKeepsLength(f, buf[..]);
    HookIngressNetwork(f, buf);
    proceed := Checksum.HookIngress(f, buf, f.Span(len));
  }

  /** The identifier, reliable and inorder modules: `marks` and `passed` are what they note and decide. */
  method Sequence(f: Format, buf: array<bool>, marks: seq<Write>, passed: bool) returns (received: Option<Word>)
    requires Receivable(f, buf[..]) && MarkWrites(f, marks)
    modifies buf
    ensures buf[..] == if passed then Sequenced(f, old(buf[..]), marks) else SetHeaders(f, old(buf[..]), marks)
    ensures received == if passed then Some(PayloadIn(f, buf[..], TotalLen(f, old(buf[..])))) else None
  {
    hide Codec.GetInteger, Codec.Replace, SetLength, SetHeaders, Codec.Fits, Codec.Holds, PayloadIn;
    MarksKeepLength(f, buf[..], marks);
    WriteHeaders(f, buf, marks);
    if !passed {
      return None;
    }
    NetworkHookKeepsWire(f, buf[..], TotalLen(f, buf[..]));
    HookIngressNetwork(f, buf);
    received := Some(PayloadIn(f, buf[..], Computed(f, buf[..])));
  }

  /** What the checksum and later hooks make of the buffer the network module leaves. */
  function Ingested(f: Format, got: Word, span: nat, marks: seq<Write>, passed: bool): Word
    requires f.Valid() && f.Holds(got) && f.WireStart() + 16 * WordCount(span) <= |got| && HeaderWrites(f, marks)
  {
    var checked := Padded(f, got, span);
    SameHolds(f, got, checked);
    if !Passes(f, got, span) then checked
    else if passed then Sequenced(f, checked, marks)
    else SetHeaders(f, checked, marks)
  }

  /** The ingress hooks in reverse order. A packet that fails the checksum goes no further. */
  method RunIngressPath(f: Format, buf: array<bool>, marks: seq<Write>, passed: bool) returns (received: Option<Word>)
    requires Receivable(f, buf[..]) && MarkWrites(f, marks)
    modifies buf
    ensures var len, got := TotalLen(f, old(buf[..])), NetworkHook(f, old(buf[..]));
      && f.Holds(got) && f.WireStart() + 16 * WordCount(f.Span(len)) <= |got|
      && buf[..] == Ingested(f, got, f.Span(len), marks, passed)
      && received == if Passes(f, got, f.Span(len)) && passed then Some(PayloadIn(f, buf[..], len)) else None
  {
    hide Codec.GetInteger, Receivable, Passes, Padded, NetworkHook, Sequenced, SetHeaders, Codec.Fits, PayloadIn, MarkWrites;
    ReceivableParts(f, buf[..]);
    var proceed := CheckPacket(f, buf);
    if proceed {
      received := Sequence(f, buf, marks, passed);
    } else {
      received := None;
    }
  }

  lemma LoadedReceivable(f: Format, buf: Word, out: Word, payload: Word)
    requires Loaded(f, out, payload) && Arrived(f, buf, out, LengthOf(f, payload))
    ensures Receivable(f, buf) && TotalLen(f, buf) == LengthOf(f, payload)
  {
    hide Codec.GetInteger, ToBits;
    ArrivedLength(f, buf, out, payload);
  }

  /** The arrived packet passes, and its payload in the buffer left by the hooks is this one. */
  ghost predicate Yields(f: Format, arrived: Word, payload: Word, marks: seq<Write>) {
    && Receivable(f, arrived) && MarkWrites(f, marks)
    && var len, got := TotalLen(f, arrived), NetworkHook(f, arrived);
      && f.Holds(got) && f.WireStart() + 16 * WordCount(f.Span(len)) <= |got| && Passes(f, got, f.Span(len))
      && var last := Ingested(f, got, f.Span(len), marks, true);
        f.WireStart() + 8 * len <= |last| && PayloadIn(f, last, len) == payload
  }

  lemma RecoveredYields(f: Format, arrived: Word, payload: Word, marks: seq<Write>)
    requires Receivable(f, arrived) && MarkWrites(f, marks) && Recovered(f, arrived, payload, marks)
    ensures Yields(f, arrived, payload, marks)
  {
    hide Passes, Padded, NetworkHook, Codec.GetInteger, Sequenced, SetHeaders, Codec.Fits, PayloadIn;
  }

  lemma ArrivedYields(f: Format, buf: Word, payload: Word, ws: seq<Write>, arrived: Word, marks: seq<Write>)
    requires Sendable(f, buf, payload) && HeaderWrites(f, ws) && MarkWrites(f, marks)
    requires Arrived(f, arrived, Outgoing(f, buf, payload, ws), LengthOf(f, payload))
    ensures Yields(f, arrived, Survivor(f, payload), marks)
  {
    hide Yields, Recovered, Outgoing, Loaded, Survivor, MarkWrites, Codec.Fits, Codec.Holds;
    OutgoingLoaded(f, buf, payload, ws);
    LoadedReceivable(f, arrived, Outgoing(f, buf, payload, ws), Survivor(f, payload));
    RoundTrip(f, buf, payload, ws, arrived, marks);
    RecoveredYields(f, arrived, Survivor(f, payload), marks);
  }

  /** nb__poll_packet: the wire bytes land behind the headroom of a buffer with any contents. */
  method CopyWire(f: Format, out: array<bool>, buf: array<bool>, len: nat)
    requires f.Valid() && f.Holds(buf[..]) && f.WireStart() + 16 * WordCount(len) <= buf.Length
    requires f.WireStart() + 8 * len <= out.Length && out != buf
    modifies buf
    ensures Arrived(f, buf[..], out[..], len)
  {
    hide Codec.GetInteger, Codec.Replace;
    var wire := out[f.WireStart()..f.WireStart() + 8 * len];
    assert wire == WireBits(f, out[..], len);
    Codec.ReplaceSlice(buf[..], f.WireStart(), wire, 0, 0);
    Codec.Store(buf, f.WireStart(), wire);
  }

  /** The whole way: what the application sent is what the other application gets, once the
      sequencing modules let it through. */
  method Transfer(f: Format, out: array<bool>, payload: Word, ws: seq<Write>, buf: array<bool>, marks: seq<Write>, passed: bool)
    returns (received: Option<Word>)
    requires Sendable(f, out[..], payload) && HeaderWrites(f, ws) && MarkWrites(f, marks) && out != buf
    requires f.Holds(buf[..]) && f.WireStart() + 16 * WordCount(LengthOf(f, payload)) <= buf.Length
    modifies out, buf
    ensures received == if passed then Some(Survivor(f, payload)) else None
  {
    hide Receivable, Passes, NetworkHook, Outgoing, Arrived, Codec.GetInteger, Survivor, Codec.Fits, PayloadIn, Ingested;
    ghost var start := out[..];
    var sent := RunSendPath(f, out, payload, ws);
    CopyWire(f, out, buf, f.HeaderBytes() + sent);
    ArrivedYields(f, start, payload, ws, buf[..], marks);
    received := RunIngressPath(f, buf, marks, passed);
  }

  // ---- Corrupted and replayed packets on the whole path ----

  /** The network module's note of the length is the same in both buffers and lies in front of the wire. */
  lemma NetworkHookSame(f: Format, a: Word, b: Word, k: nat)
    requires Receivable(f, a) && Receivable(f, b) && TotalLen(f, a) == TotalLen(f, b)
    requires f.WireStart() + 16 * (k + 1) <= |a| && SameOutside(f, a, b, k)
    ensures SameOutside(f, NetworkHook(f, a), NetworkHook(f, b), k)
  {
    hide Codec.GetInteger, Codec.Fits, Codec.Holds, ToBits;
    MemberInside(f.ms, f.computed);
    var at, x, y := f.WireStart() + 16 * k, NetworkHook(f, a), NetworkHook(f, b);
    forall j | 0 <= j < |a| && !(at <= j < at + 16) ensures x[j] == y[j] {
      AgreeAt(f, a, b, k, j);
    }
    assert x[..at] == y[..at] && x[at + 16..] == y[at + 16..];
  }

  /** Wire word k lies outside total_len. */
  predicate SparesLength(f: Format, k: nat)
    requires f.Valid()
  {
    f.WireStart() + 16 * k + 16 <= Offset(f.ms, f.total) || End(f.ms, f.total) <= f.WireStart() + 16 * k
  }

  lemma SparedLength(f: Format, a: Word, b: Word, k: nat)
    requires Receivable(f, a) && f.WireStart() + 16 * (k + 1) <= |a| && SameOutside(f, a, b, k) && SparesLength(f, k)
    ensures Receivable(f, b) && TotalLen(f, b) == TotalLen(f, a)
  {
    hide Codec.GetInteger, Codec.Fits, Codec.Holds;
    var t, e := Offset(f.ms, f.total), End(f.ms, f.total);
    MemberInside(f.ms, f.total);
    forall j | t <= j < e ensures a[j] == b[j] {
      AgreeAt(f, a, b, k, j);
    }
    assert Field(a, f.ms, f.total) == Field(b, f.ms, f.total);
    SameLength(f, a, b);
  }

  /** Bytes covered by the checksum of a received packet. */
  function Covered(f: Format, buf: Word): (n: nat)
    requires Receivable(f, buf)
    ensures f.HeaderBytes() <= n && f.WireStart() + 16 * WordCount(n) <= |buf|
  {
    f.Span(TotalLen(f, buf))
  }

  /** As the receiver sees it, with the length taken from the changed packet itself: if one covered word
      outside total_len changes in a packet that passes, the changed packet does not. */
  lemma CorruptionRejected(f: Format, a: Word, b: Word, k: nat)
    requires Receivable(f, a) && ChecksumOnWord(f) && k < WordCount(Covered(f, a)) && |a| == |b|
    requires SameOutside(f, a, b, k) && SparesLength(f, k)
    requires WireBits(f, a, Covered(f, a)) != WireBits(f, b, Covered(f, a))
    requires f.Holds(NetworkHook(f, a)) && Passes(f, NetworkHook(f, a), Covered(f, a))
    ensures Receivable(f, b) && Covered(f, b) == Covered(f, a)
    ensures f.Holds(NetworkHook(f, b)) && !Passes(f, NetworkHook(f, b), Covered(f, b))
  {
    hide Passes, Codec.GetInteger, Codec.Fits, Codec.Holds, SetLength, Receivable;
    var n := Covered(f, a);
    SparedLength(f, a, b, k);
    ReceivableParts(f, a);
    ReceivableParts(f, b);
    NetworkHookKeepsWire(f, a, n);
    NetworkHookKeepsWire(f, b, n);
    NetworkHookSame(f, a, b, k);
    CorruptionDetected(f, NetworkHook(f, a), NetworkHook(f, b), n, k);
  }

  /** With a checksum over the whole packet, any change confined to one word outside total_len is rejected. */
  lemma AnyWordRejected(f: Format, a: Word, b: Word, k: nat)
    requires f.cover.FullPacket? && Receivable(f, a) && ChecksumOnWord(f) && 2 * k < TotalLen(f, a) && |a| == |b|
    requires SameOutside(f, a, b, k) && SparesLength(f, k)
    requires WireBits(f, a, TotalLen(f, a)) != WireBits(f, b, TotalLen(f, a))
    requires f.Holds(NetworkHook(f, a)) && Passes(f, NetworkHook(f, a), TotalLen(f, a))
    ensures Receivable(f, b) && TotalLen(f, b) == TotalLen(f, a)
    ensures f.Holds(NetworkHook(f, b)) && !Passes(f, NetworkHook(f, b), TotalLen(f, b))
  {
    hide Passes, Codec.GetInteger, Codec.Fits, Codec.Holds, NetworkHook;
    SparedLength(f, a, b, k);
    CorruptionRejected(f, a, b, k);
  }

  /** nb__accept runs the whole ingress path again on a buffer the first run has edited: the payload is
      still there, whatever the second run notes. */
  lemma ReplayYields(f: Format, buf: Word, payload: Word, ws: seq<Write>, arrived: Word, marks: seq<Write>, later: seq<Write>)
    requires Sendable(f, buf, payload) && HeaderWrites(f, ws) && MarkWrites(f, marks) && MarkWrites(f, later)
    requires Arrived(f, arrived, Outgoing(f, buf, payload, ws), LengthOf(f, payload))
    ensures Yields(f, arrived, Survivor(f, payload), marks)
    ensures var first := Ingested(f, NetworkHook(f, arrived), f.Span(TotalLen(f, arrived)), marks, false);
      Yields(f, first, Survivor(f, payload), later)
  {
    hide Outgoing, Loaded, Survivor, Codec.Fits, Codec.Holds, Codec.GetInteger, SetHeaders, Padded, NetworkHook, Arrived;
    var out, p, len := Outgoing(f, buf, payload, ws), Survivor(f, payload), LengthOf(f, payload);
    OutgoingLoaded(f, buf, payload, ws);
    ArrivedYields(f, buf, payload, ws, arrived, marks);
    ArrivedNetwork(f, arrived, out, p);
    ArrivedPadded(f, NetworkHook(f, arrived), out, p);
    var checked := Padded(f, NetworkHook(f, arrived), f.Span(len));
    ArrivedMarked(f, checked, out, len, marks);
    ArrivedYields(f, buf, payload, ws, SetHeaders(f, checked, marks), later);
  }
}
