/** The packet layout of the default, non-IP implementation. */
module DefaultLayout {
  import opened Bits
  import opened Layout
  import opened Checksum
  import Codec
  import Path
  import Stack

  /** In chain order: computed_total_len, is_signaling, redelivery_timer, flow_identifier (kept off
      the wire); dst and src host id; dst and src global id; dst and src app id; total_len,
      sequence_number, ack_sequence_number, checksum; payload. */
  function Members(): seq<Member> {
    [Member(32, true), Member(32, true), Member(64, true), Member(64, true),
     Member(48, true), Member(48, true), Member(32, true), Member(32, true),
     Member(16, false), Member(16, false),
     Member(32, true), Member(32, true), Member(32, true), Member(16, false),
     Member(8, true)]
  }

  /** The members by name, group by group, in the order in which the modules of the default implementation
      register them. */
  function Groups(): seq<seq<string>> {
    [["computed_total_len", "is_signaling", "redelivery_timer", "flow_identifier"],
     ["dst_host_id", "src_host_id"],
     ["dst_global_id", "src_global_id"],
     ["dst_app_id", "src_app_id"],
     ["total_len", "sequence_number", "ack_sequence_number", "checksum"],
     ["payload"]]
  }

  function Names(): seq<string> {
    Groups()[0] + Groups()[1] + Groups()[2] + Groups()[3] + Groups()[4] + Groups()[5]
  }

  /** The registrations of the modules, in the order of their init_module calls. */
  function Registrations(): seq<(string, Member, nat)> {
    [("computed_total_len", Member(32, true), 0),
     ("payload", Member(8, true), 5), ("total_len", Member(32, true), 4),
     ("is_signaling", Member(32, true), 0),
     ("sequence_number", Member(32, true), 4),
     ("ack_sequence_number", Member(32, true), 4), ("redelivery_timer", Member(64, true), 0),
     ("flow_identifier", Member(64, true), 0), ("dst_host_id", Member(48, true), 1), ("src_host_id", Member(48, true), 1),
     ("dst_app_id", Member(16, false), 3), ("src_app_id", Member(16, false), 3),
     ("dst_global_id", Member(32, true), 2), ("src_global_id", Member(32, true), 2),
     ("checksum", Member(16, false), 4)]
  }

  /** Names of group g among the first n registrations. */
  function InGroup(n: nat, g: nat): seq<string>
    requires n <= |Registrations()|
  {
    if n == 0 then []
    else InGroup(n - 1, g) + if Registrations()[n - 1].2 == g then [Registrations()[n - 1].0] else []
  }

  function Registered(n: nat): map<string, Member>
    requires n <= |Registrations()|
  {
    if n == 0 then map[] else Registered(n - 1)[Registrations()[n - 1].0 := Registrations()[n - 1].1]
  }

  function GroupAt(groups: seq<seq<string>>, g: nat): seq<string> {
    if g < |groups| then groups[g] else []
  }

  /** The layout after the first n registrations. */
  ghost predicate Holds(l: DynamicLayout, n: nat)
    requires n <= |Registrations()|
    reads l
  {
    && |l.groups| <= 6 && (n > 1 ==> |l.groups| == 6)
    && (forall g :: 0 <= g < 6 ==> GroupAt(l.groups, g) == InGroup(n, g))
    && l.members == Registered(n)
  }

  lemma Next(n: nat)
    requires n < |Registrations()|
    ensures Registrations()[n].2 < 6 && (n == 1 ==> Registrations()[n].2 == 5)
    ensures forall g :: 0 <= g < 6 ==>
      InGroup(n + 1, g) == InGroup(n, g) + if Registrations()[n].2 == g then [Registrations()[n].0] else []
    ensures Registered(n + 1) == Registered(n)[Registrations()[n].0 := Registrations()[n].1]
  {
  }

  method Register(l: DynamicLayout, n: nat)
    requires n < |Registrations()| && Holds(l, n)
    modifies l
    ensures Holds(l, n + 1)
  {
    hide InGroup, Registered;
    var (name, m, group) := Registrations()[n];
    ghost var before := l.groups;
    Next(n);
    l.AddMember(name, m, group);
    forall g | 0 <= g < 6 ensures GroupAt(l.groups, g) == InGroup(n + 1, g) {
      assert GroupAt(before, g) == InGroup(n, g);
    }
  }

  lemma NothingRegistered(l: DynamicLayout)
    requires l.groups == [] && l.members == map[]
    ensures Holds(l, 0)
  {
  }

  /** init_module of all modules, then fix_layout. */
  method Build() returns (l: DynamicLayout)
    ensures l.groups == Groups() && l.members == Registered(|Registrations()|)
    ensures Flat(l.groups) == Names() && Chained(l.prev, Names(), |Names()|)
  {
    hide Names, InGroup, Registered, Registrations;
    l := new DynamicLayout();
    NothingRegistered(l);
    for n := 0 to |Registrations()|
      modifies l
      invariant Holds(l, n)
    {
      Register(l, n);
    }
    GroupsAre();
    assert forall g :: 0 <= g < 6 ==> l.groups[g] == GroupAt(l.groups, g) == Groups()[g];
    assert l.groups == Groups();
    FlatGroups();
    NamesDistinct();
    l.FixLayout();
  }

  lemma GroupsAre()
    ensures |Registrations()| == 15
    ensures forall g :: 0 <= g < 6 ==> InGroup(|Registrations()|, g) == Groups()[g]
  {
    forall g | 0 <= g < 6 ensures InGroup(15, g) == Groups()[g] {
      GroupIs(g);
    }
  }

  lemma InGroupStep(n: nat, g: nat)
    requires n < |Registrations()|
    ensures InGroup(n + 1, g) == InGroup(n, g) + if Registrations()[n].2 == g then [Registrations()[n].0] else []
  {
  }

  /** The groups after five, ten and all fifteen registrations. */
  lemma FirstFive(g: nat)
    requires g < 6
    ensures InGroup(5, g) == [["computed_total_len", "is_signaling"], [], [], [], ["total_len", "sequence_number"], ["payload"]][g]
  {
    hide InGroup;
    NoneYet(g);
    InGroupStep(0, g);
    InGroupStep(1, g);
    InGroupStep(2, g);
    InGroupStep(3, g);
    InGroupStep(4, g);
  }

  lemma NoneYet(g: nat)
    ensures InGroup(0, g) == []
  {
  }

  lemma FirstTen(g: nat)
    requires g < 6
    ensures InGroup(10, g) ==
      [Groups()[0], Groups()[1], [], [], ["total_len", "sequence_number", "ack_sequence_number"], ["payload"]][g]
  {
    hide InGroup;
    FirstFive(g);
    InGroupStep(5, g);
    InGroupStep(6, g);
    InGroupStep(7, g);
    InGroupStep(8, g);
    InGroupStep(9, g);
  }

  lemma GroupIs(g: nat)
    requires g < 6
    ensures InGroup(15, g) == Groups()[g]
  {
    hide InGroup;
    FirstTen(g);
    InGroupStep(10, g);
    InGroupStep(11, g);
    InGroupStep(12, g);
    InGroupStep(13, g);
    InGroupStep(14, g);
  }

  lemma FlatGroups()
    ensures Flat(Groups()) == Names()
  {
    var gs := Groups();
    assert gs[..5][..4] == gs[..4] && gs[..4][..3] == gs[..3] && gs[..3][..2] == gs[..2] && gs[..2][..1] == gs[..1] && gs[..1][..0] == [];
    assert Flat(gs[..1]) == gs[0];
    assert Flat(gs[..2]) == gs[0] + gs[1];
    assert Flat(gs[..3]) == gs[0] + gs[1] + gs[2];
    assert Flat(gs[..4]) == gs[0] + gs[1] + gs[2] + gs[3];
    assert Flat(gs[..5]) == gs[0] + gs[1] + gs[2] + gs[3] + gs[4];
  }

  lemma NamesDistinct()
    ensures DistinctNames(Names())
  {
  }

  function Offsets(): seq<nat> {
    [0, 32, 64, 128, 192, 240, 288, 320, 352, 368, 384, 416, 448, 480, 496]
  }

  lemma {:induction false} OffsetsAre(i: nat)
    requires i < 15
    ensures Offset(Members(), i) == Offsets()[i]
  {
    if i > 0 {
      OffsetsAre(i - 1);
    }
  }

  function IntType(): Codec.Integer {
    Codec.Integer(32, 4, true, 0)
  }

  function Default(): Format {
    Format(Members(), 24, 10, IntType(), 0, IntType(), 13, FullPacket)
  }

  /** The chain of registered members is the list the theorems are about. */
  lemma DefaultChain()
    ensures |Names()| == |Members()| == 15
    ensures forall i :: 0 <= i < 15 ==> Names()[i] in Registered(15) && Registered(15)[Names()[i]] == Members()[i]
  {
    hide Registered;
    forall i | 0 <= i < 15 ensures Names()[i] in Registered(15) && Registered(15)[Names()[i]] == Members()[i] {
      MemberIs(i);
    }
  }

  /** The positions the theorems use are those of the members of that name. */
  lemma DefaultPositions()
    ensures |Names()| == 15
    ensures Names()[Default().computed] == "computed_total_len" && Names()[Default().total] == "total_len"
    ensures Names()[Default().checksum] == "checksum" && Names()[14] == "payload"
    ensures Names()[DefaultHeader().flow] == "flow_identifier"
    ensures var m := DefaultHeader().members;
      && Names()[m[0]] == "dst_host_id" && Names()[m[1]] == "src_host_id" && Names()[m[2]] == "dst_app_id"
      && Names()[m[3]] == "src_app_id" && Names()[m[4]] == "sequence_number" && Names()[m[5]] == "ack_sequence_number"
  {
  }

  lemma RegisteredOnce(j: nat, k: nat)
    requires j < k < |Registrations()|
    ensures Registrations()[j].0 != Registrations()[k].0
  {
  }

  lemma {:induction false} RegisteredAt(n: nat, k: nat)
    requires k < n <= |Registrations()|
    ensures Registrations()[k].0 in Registered(n) && Registered(n)[Registrations()[k].0] == Registrations()[k].1
  {
    hide Registrations;
    if k < n - 1 {
      RegisteredAt(n - 1, k);
      RegisteredOnce(k, n - 1);
    }
  }

  /** Which registration put the i-th member there. */
  function Place(i: nat): (k: nat)
    requires i < 15
    ensures k < 15
  {
    [0, 3, 6, 7, 8, 9, 12, 13, 10, 11, 2, 4, 5, 14, 1][i]
  }

  lemma PlaceIs(i: nat)
    requires i < 15
    ensures Registrations()[Place(i)].0 == Names()[i] && Registrations()[Place(i)].1 == Members()[i]
  {
  }

  lemma MemberIs(i: nat)
    requires i < 15
    ensures Names()[i] in Registered(15) && Registered(15)[Names()[i]] == Members()[i]
  {
    hide Registered;
    RegisteredAt(15, Place(i));
    PlaceIs(i);
  }

  /** The theorems on paths and checksums apply to the default layout, whose 38-byte header has
      the checksum on a word of the sum. */
  lemma DefaultIsValid()
    ensures Default().Valid() && ChecksumOnWord(Default())
    ensures Default().HeaderBytes() == 38 && TotalSize(Members()) == 63
  {
    OffsetsAre(0);
    OffsetsAre(10);
    OffsetsAre(13);
    OffsetsAre(14);
  }

  /** Any 1024-byte buffer is large enough for its word-wide accesses. */
  lemma DefaultHolds(buf: Word)
    requires |buf| == 8 * 1024
    ensures Default().Valid() && Default().Holds(buf)
  {
    DefaultIsValid();
    OffsetsAre(0);
    OffsetsAre(10);
    OffsetsAre(13);
    OffsetsAre(14);
  }

  lemma LengthsFit(len: nat)
    requires len <= 1000
    ensures Codec.Holds(IntType(), 384, len) && Codec.Holds(IntType(), 0, len)
  {
    PowAdd(5, 5);
    PowGrows(10, 31);
  }

  /** In a 1024-byte buffer the send path takes every payload up to 962 bytes, and no longer one. */
  lemma DefaultSendable(buf: Word, payload: Word)
    requires |buf| == 8 * 1024 && |payload| % 8 == 0
    ensures Path.Sendable(Default(), buf, payload) <==> |payload| <= 8 * 962
  {
    hide Codec.Holds, Codec.Fits;
    DefaultIsValid();
    DefaultHolds(buf);
    OffsetsAre(0);
    OffsetsAre(10);
    if |payload| <= 8 * 962 {
      LengthsFit(38 + |payload| / 8);
    }
  }

  function UnsignedType(bits: nat, bytes: nat): Codec.Integer {
    Codec.Integer(bits, bytes, false, 0)
  }

  /** The header fields of the default layout: host ids of 48 bits, application ids of 16, sequence and
      acknowledgement numbers of 32. */
  function DefaultHeader(): Stack.Header {
    var none := UnsignedType(0, 1);
    Stack.Header([none, none, none, UnsignedType(64, 8), UnsignedType(48, 8), UnsignedType(48, 8), none, none,
                  UnsignedType(16, 2), UnsignedType(16, 2), none, UnsignedType(32, 4), UnsignedType(32, 4), none, none],
                 3, [4, 5, 8, 9, 11, 12])
  }

  lemma FieldPlaced(i: nat, buf: Word)
    requires i in [3, 4, 5, 8, 9, 11, 12] && |buf| == 8 * 1024
    ensures Stack.IsHeader(DefaultHeader(), Default(), i) && Offset(Members(), i) == Offsets()[i]
    ensures Codec.Fits(buf, DefaultHeader().types[i], Offset(Members(), i))
  {
    hide Offset;
    OffsetsAre(i);
  }

  lemma FieldsPlaced(buf: Word, k: nat)
    requires k < 6 && |buf| == 8 * 1024
    ensures var i := DefaultHeader().members[k];
      && Stack.IsHeader(DefaultHeader(), Default(), i) && Default().WireStart() <= Offset(Default().ms, i)
      && Codec.Fits(buf, DefaultHeader().types[i], Offset(Default().ms, i))
  {
    hide Offset, Codec.Fits, Stack.IsHeader;
    FieldPlaced(DefaultHeader().members[k], buf);
  }

  /** The theorems on the whole stack apply to the default layout in 1024-byte buffers. */
  lemma DefaultDescribes(buf: Word)
    requires |buf| == 8 * 1024
    ensures Stack.Describes(DefaultHeader(), Default()) && Stack.Readable(DefaultHeader(), Default(), buf)
  {
    hide Offset, Codec.Fits, Stack.IsHeader;
    DefaultIsValid();
    FieldPlaced(3, buf);
    forall k | 0 <= k < 6
      ensures Stack.IsHeader(DefaultHeader(), Default(), DefaultHeader().members[k])
      ensures Default().WireStart() <= Offset(Default().ms, DefaultHeader().members[k])
      ensures Codec.Fits(buf, DefaultHeader().types[DefaultHeader().members[k]], Offset(Default().ms, DefaultHeader().members[k]))
    {
      FieldsPlaced(buf, k);
    }
  }

  lemma FieldRead(buf: Word, k: nat)
    requires k < 6 && |buf| == 8 * 1024
    ensures Stack.Describes(DefaultHeader(), Default()) && Stack.Readable(DefaultHeader(), Default(), buf)
    ensures var i := DefaultHeader().members[k];
      Stack.Get(DefaultHeader(), Default(), buf, k) == Val(buf[Offsets()[i]..Offsets()[i] + Members()[i].size])
  {
    hide Offset, Codec.Fits, Stack.IsHeader, Codec.GetInteger;
    DefaultDescribes(buf);
    var i := DefaultHeader().members[k];
    FieldPlaced(i, buf);
    Codec.ReadsUnsigned(buf, DefaultHeader().types[i], Offset(Members(), i));
  }

  /** The wire format of the default layout, in bits from the start of the buffer with its 24 bytes of headroom. */
  lemma DefaultFields(buf: Word)
    requires |buf| == 8 * 1024
    ensures Stack.Describes(DefaultHeader(), Default()) && Stack.Readable(DefaultHeader(), Default(), buf)
    ensures Stack.Read(DefaultHeader(), Default(), buf) ==
      Stack.Fields(Val(buf[192..240]), Val(buf[240..288]), Val(buf[352..368]), Val(buf[368..384]), Val(buf[416..448]), Val(buf[448..480]))
  {
    hide Stack.Get, Stack.Describes, Stack.Readable, Val;
    FieldRead(buf, 0);
    FieldRead(buf, 1);
    FieldRead(buf, 2);
    FieldRead(buf, 3);
    FieldRead(buf, 4);
    FieldRead(buf, 5);
  }
}
