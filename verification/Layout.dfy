/** A programmable packet layout: members registered in groups, chained in group order, and
    packed one after the other at bit granularity. */
module Layout {
  import opened Basics
  import opened Bits
  import Codec

  /** What placing a member needs to know: its width in bits and its aligned flag. */
  datatype Member = Member(size: nat, aligned: bool)

  function AlignTo(v: nat, a: nat): nat
    requires a > 0
  {
    (v + a - 1) / a * a
  }

  /** get_offset of the i-th member of the chain. */
  function Offset(ms: seq<Member>, i: nat): nat
    requires i < |ms|
  {
    if i == 0 then 0
    else
      var end := Offset(ms, i - 1) + ms[i - 1].size;
      if ms[i].aligned then AlignTo(end, 8) else end
  }

  function End(ms: seq<Member>, i: nat): nat
    requires i < |ms|
  {
    Offset(ms, i) + ms[i].size
  }

  function TotalSize(ms: seq<Member>): nat
    requires ms != []
  {
    AlignTo(End(ms, |ms| - 1), 8) / 8
  }

  lemma AlignToTight(v: nat)
    ensures v <= AlignTo(v, 8) < v + 8 && AlignTo(v, 8) % 8 == 0
  {
  }

  /** Members follow one another without overlap, with less than a byte of padding, and aligned
      members start on a byte. */
  lemma {:induction false} OffsetsOrdered(ms: seq<Member>, i: nat, j: nat)
    requires i < j < |ms|
    ensures End(ms, i) <= Offset(ms, j)
    ensures ms[j].aligned ==> Offset(ms, j) % 8 == 0
    ensures Offset(ms, j) < End(ms, j - 1) + 8
    decreases j
  {
    AlignToTight(End(ms, j - 1));
    if i < j - 1 {
      OffsetsOrdered(ms, i, j - 1);
    }
  }

  /** A member starts where the one before it ends or, if it is aligned, at the first byte from there on. */
  lemma OffsetsExact(ms: seq<Member>, i: nat)
    requires i < |ms|
    ensures i == 0 ==> Offset(ms, i) == 0
    ensures i > 0 && !ms[i].aligned ==> Offset(ms, i) == End(ms, i - 1)
    ensures i > 0 && ms[i].aligned ==>
      Offset(ms, i) % 8 == 0 && End(ms, i - 1) <= Offset(ms, i) && forall v: nat :: v % 8 == 0 && End(ms, i - 1) <= v ==> Offset(ms, i) <= v
  {
    hide AlignTo;
    if i > 0 {
      AlignToTight(End(ms, i - 1));
      forall v: nat | v % 8 == 0 && End(ms, i - 1) <= v ensures AlignTo(End(ms, i - 1), 8) <= v {
        AlignToLeast(End(ms, i - 1), v);
      }
    }
  }

  lemma AlignToLeast(v: nat, u: nat)
    requires u % 8 == 0 && v <= u
    ensures AlignTo(v, 8) <= u
  {
    assert u == 8 * (u / 8);
  }

  lemma MemberInside(ms: seq<Member>, i: nat)
    requires i < |ms|
    ensures End(ms, i) <= End(ms, |ms| - 1)
  {
    if i < |ms| - 1 {
      OffsetsOrdered(ms, i, |ms| - 1);
    }
  }

  /** Every member ends inside the total size. */
  lemma TotalSizeCovers(ms: seq<Member>, i: nat)
    requires i < |ms|
    ensures End(ms, i) <= 8 * TotalSize(ms) < End(ms, |ms| - 1) + 8
  {
    AlignToTight(End(ms, |ms| - 1));
    if i < |ms| - 1 {
      OffsetsOrdered(ms, i, |ms| - 1);
    }
  }

  /** The bits of member i. */
  function Field(buf: Word, ms: seq<Member>, i: nat): Word
    requires i < |ms| && End(ms, i) <= |buf|
  {
    buf[Offset(ms, i)..End(ms, i)]
  }

  /** Replacing one member's bits changes that field and no other. */
  lemma ReplaceIsUpdate(buf: Word, ms: seq<Member>, i: nat, j: nat, v: Word)
    requires i < |ms| && j < |ms| && |v| == ms[i].size && End(ms, |ms| - 1) <= |buf|
    ensures End(ms, i) <= |buf| && End(ms, j) <= |buf|
    ensures Field(Codec.Replace(buf, Offset(ms, i), v), ms, j) == if i == j then v else Field(buf, ms, j)
  {
    if i < |ms| - 1 { OffsetsOrdered(ms, i, |ms| - 1); }
    if j < |ms| - 1 { OffsetsOrdered(ms, j, |ms| - 1); }
    Codec.ReplaceSlice(buf, Offset(ms, i), v, Offset(ms, j), End(ms, j));
    if i < j {
      OffsetsOrdered(ms, i, j);
    } else if j < i {
      OffsetsOrdered(ms, j, i);
    }
  }

  /** The buffer behaves like a record: set_integer on member i makes its get_integer return the
      value and leaves the bits of every other member alone. */
  lemma {:induction false} LayoutIsRecord(buf: Word, ms: seq<Member>, i: nat, j: nat, m: Codec.Integer, val: nat, clear: nat)
    requires i < |ms| && j < |ms| && End(ms, |ms| - 1) <= |buf|
    requires m.Valid() && m.bits == ms[i].size && Codec.Fits(buf, m, Offset(ms, i))
    requires Codec.Holds(m, Offset(ms, i), val) && Codec.ClearsExactly(Offset(ms, i), m.bits, clear)
    ensures var r := Codec.Stored(buf, m, Offset(ms, i), ToBits(Codec.Rebased(m, val), 64), clear);
      && Codec.Fits(r, m, Offset(ms, i)) && Codec.GetInteger(r, m, Offset(ms, i)) == val
      && End(ms, j) <= |r| && End(ms, j) <= |buf|
      && (i != j ==> Field(r, ms, j) == Field(buf, ms, j))
  {
    var s := Offset(ms, i);
    Codec.SetThenGet(buf, m, s, val, clear);
    Codec.HoldsStorable(m, s, val);
    Codec.StoredReplaces(buf, m, s, ToBits(Codec.Rebased(m, val), 64), clear);
    ReplaceIsUpdate(buf, ms, i, j, Codec.Encoded(m, val));
  }

  // ---- Registration and chaining ----

  function Flat(groups: seq<seq<string>>): seq<string> {
    if groups == [] then [] else Flat(groups[..|groups| - 1]) + groups[|groups| - 1]
  }

  ghost predicate DistinctNames(names: seq<string>) {
    forall i, j :: 0 <= i < j < |names| ==> names[i] != names[j]
  }

  ghost function LastOf(names: seq<string>, n: nat): Option<string>
    requires n <= |names|
  {
    if n == 0 then None else Some(names[n - 1])
  }

  ghost predicate LinksBack(prev: map<string, Option<string>>, names: seq<string>, i: nat)
    requires i < |names|
  {
    names[i] in prev && prev[names[i]] == LastOf(names, i)
  }

  /** Each of the first n names links back to the one before it. */
  ghost predicate Chained(prev: map<string, Option<string>>, names: seq<string>, n: nat) {
    && n <= |names|
    && forall i :: 0 <= i < n ==> LinksBack(prev, names, i)
  }

  lemma ExtendChain(prev: map<string, Option<string>>, names: seq<string>, n: nat)
    requires DistinctNames(names) && n < |names| && Chained(prev, names, n)
    ensures Chained(prev[names[n] := LastOf(names, n)], names, n + 1)
  {
    var next := prev[names[n] := LastOf(names, n)];
    forall i | 0 <= i < n + 1 ensures LinksBack(next, names, i) {
      if i < n {
        assert LinksBack(prev, names, i) && names[i] != names[n];
      }
    }
  }

  lemma {:induction false} FlatSplit(groups: seq<seq<string>>, g: nat)
    requires g < |groups|
    ensures Flat(groups[..g + 1]) == Flat(groups[..g]) + groups[g]
    ensures Flat(groups[..g + 1]) <= Flat(groups)
    decreases |groups|
  {
    assert groups[..g + 1][..g] == groups[..g];
    if g + 1 < |groups| {
      var rest := groups[..|groups| - 1];
      FlatSplit(rest, g);
      assert rest[..g + 1] == groups[..g + 1] && rest[..g] == groups[..g];
    } else {
      assert groups[..g + 1] == groups;
    }
  }

  class DynamicLayout {
    var groups: seq<seq<string>>              // m_registered_members
    var members: map<string, Member>          // m_members_map
    var prev: map<string, Option<string>>     // the m_prev links

    constructor ()
      ensures groups == [] && members == map[] && prev == map[]
    {
      groups, members, prev := [], map[], map[];
    }

    /** add_member: missing groups are created empty. */
    method AddMember(name: string, m: Member, group: nat)
      modifies this`groups, this`members
      ensures |groups| == if group < |old(groups)| then |old(groups)| else group + 1
      ensures forall g :: 0 <= g < |groups| ==>
        groups[g] == (if g < |old(groups)| then old(groups)[g] else []) + (if g == group then [name] else [])
      ensures members == old(members)[name := m]
    {
      while |groups| <= group
        invariant |old(groups)| <= |groups| && members == old(members)
        invariant |groups| <= group + 1 || |groups| == |old(groups)|
        invariant forall g :: 0 <= g < |groups| ==> groups[g] == if g < |old(groups)| then old(groups)[g] else []
      {
        groups := groups + [[]];
      }
      groups := groups[group := groups[group] + [name]];
      members := members[name := m];
    }

    /** The inner loop of fix_layout. */
    method ChainGroup(group: seq<string>, before: Option<string>, ghost names: seq<string>, ghost start: nat)
      returns (last: Option<string>)
      requires DistinctNames(names) && start + |group| <= |names| && group == names[start..start + |group|]
      requires Chained(prev, names, start) && before == LastOf(names, start)
      modifies this`prev
      ensures Chained(prev, names, start + |group|) && last == LastOf(names, start + |group|)
    {
      last := before;
      for m := 0 to |group|
        invariant Chained(prev, names, start + m) && last == LastOf(names, start + m)
      {
        assert group[m] == names[start + m];
        ExtendChain(prev, names, start + m);
        prev := prev[group[m] := last];
        last := Some(group[m]);
      }
    }

    /** fix_layout: chain all members in group order. */
    method FixLayout()
      requires DistinctNames(Flat(groups))
      modifies this`prev
      ensures Chained(prev, Flat(groups), |Flat(groups)|)
    {
      var last: Option<string> := None;
      assert groups[..|groups|] == groups;
      for g := 0 to |groups|
        invariant Flat(groups[..g]) <= Flat(groups)
        invariant Chained(prev, Flat(groups), |Flat(groups[..g])|)
        invariant last == LastOf(Flat(groups), |Flat(groups[..g])|)
      {
        FlatSplit(groups, g);
        last := ChainGroup(groups[g], last, Flat(groups), |Flat(groups[..g])|);
      }
    }
  }

  /** The members in chain order. */
  function Chain(names: seq<string>, members: map<string, Member>): seq<Member>
    requires forall i :: 0 <= i < |names| ==> names[i] in members
  {
    seq(|names|, i requires 0 <= i < |names| => members[names[i]])
  }

  /** get_offset follows the m_prev links; `i` is the position of the member in the chain. */
  function GetOffset(prev: map<string, Option<string>>, members: map<string, Member>, names: seq<string>, i: nat): (off: nat)
    requires i < |names| && Chained(prev, names, |names|)
    requires forall k :: 0 <= k < |names| ==> names[k] in members
    ensures off == Offset(Chain(names, members), i)
    decreases i
  {
    assert LinksBack(prev, names, i);
    match prev[names[i]]
    case None => 0
    case Some(before) =>
      var end := GetOffset(prev, members, names, i - 1) + members[before].size;
      if members[names[i]].aligned then AlignTo(end, 8) else end
  }
}
