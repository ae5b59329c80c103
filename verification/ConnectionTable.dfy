/** The table of active connections in the identifier module: parallel arrays searched linearly
    and edited by moving the last entry into a gap. */
module ConnectionTable {
  import opened Basics

  const MAX_ACTIVE_CONNECTIONS: nat := 512

  /** What identifies a flow: the local application and, in src_dst mode, the remote end. */
  datatype Key = Key(localApp: nat, remoteApp: nat, remoteHost: nat)

  datatype Entry = Entry(key: Key, conn: nat)

  /** First entry with this key; the null connection is None. */
  function Lookup(es: seq<Entry>, key: Key): Option<nat> {
    if es == [] then None
    else if es[0].key == key then Some(es[0].conn)
    else Lookup(es[1..], key)
  }

  ghost predicate DistinctKeys(es: seq<Entry>) {
    forall i, j :: 0 <= i < j < |es| ==> es[i].key != es[j].key
  }

  /** delete_connection as written: in src_dst mode the host id of the gap is copied to the last
      entry instead of the other way round, so the moved entry keeps the removed one's host. */
  function DeleteAt(es: seq<Entry>, i: nat, srcDst: bool): seq<Entry>
    requires i < |es|
  {
    var last := es[|es| - 1];
    var moved := if srcDst then Entry(last.key.(remoteHost := es[i].key.remoteHost), last.conn) else last;
    es[i := moved][..|es| - 1]
  }

  // ---- Lookup ----

  lemma {:induction false} LookupAt(es: seq<Entry>, i: nat)
    requires i < |es| && DistinctKeys(es)
    ensures Lookup(es, es[i].key) == Some(es[i].conn)
  {
    if i > 0 {
      assert es[0].key != es[i].key;
      LookupAt(es[1..], i - 1);
    }
  }

  lemma {:induction false} LookupMissing(es: seq<Entry>, key: Key)
    requires forall i :: 0 <= i < |es| ==> es[i].key != key
    ensures Lookup(es, key) == None
  {
    if es != [] {
      LookupMissing(es[1..], key);
    }
  }

  /** Lookup finds exactly the live keys. */
  lemma {:induction false} LookupExact(es: seq<Entry>, key: Key, c: nat)
    requires DistinctKeys(es)
    ensures Lookup(es, key) == Some(c) <==> Entry(key, c) in es
    ensures Lookup(es, key) == None <==> forall i :: 0 <= i < |es| ==> es[i].key != key
  {
    if i :| 0 <= i < |es| && es[i].key == key {
      LookupAt(es, i);
    } else {
      LookupMissing(es, key);
    }
  }

  lemma {:induction false} LookupAppend(es: seq<Entry>, e: Entry, key: Key)
    ensures Lookup(es + [e], key) ==
      if Lookup(es, key).Some? then Lookup(es, key) else if e.key == key then Some(e.conn) else None
  {
    if es != [] {
      assert (es + [e])[1..] == es[1..] + [e];
      LookupAppend(es[1..], e, key);
    } else {
      assert (es + [e])[1..] == [];
    }
  }

  // ---- Deletion ----

  /** The caller-visible condition under which the deletion is right. */
  predicate SharesHost(es: seq<Entry>, i: nat)
    requires i < |es|
  {
    i == |es| - 1 || es[i].key.remoteHost == es[|es| - 1].key.remoteHost
  }

  lemma DeletedMembers(es: seq<Entry>, i: nat, srcDst: bool, e: Entry)
    requires i < |es| && DistinctKeys(es) && (srcDst ==> SharesHost(es, i))
    ensures e in DeleteAt(es, i, srcDst) <==> e in es && e.key != es[i].key
    ensures DistinctKeys(DeleteAt(es, i, srcDst))
  {
    var n := |es| - 1;
    var r := DeleteAt(es, i, srcDst);
    assert forall j :: 0 <= j < n ==> r[j] == if j == i then es[n] else es[j];
    if e in es && e.key != es[i].key {
      var k :| 0 <= k < |es| && es[k] == e;
      assert r[if k == n then i else k] == e;
    }
  }

  /** After deletion every other key is found as before and the deleted one is gone. */
  ghost predicate DeletesOnly(es: seq<Entry>, i: nat, srcDst: bool)
    requires i < |es|
  {
    forall key :: Lookup(DeleteAt(es, i, srcDst), key) == if key == es[i].key then None else Lookup(es, key)
  }

  lemma DeleteRight(es: seq<Entry>, i: nat, srcDst: bool)
    requires i < |es| && DistinctKeys(es) && (srcDst ==> SharesHost(es, i))
    ensures DeletesOnly(es, i, srcDst)
  {
    var r := DeleteAt(es, i, srcDst);
    forall key ensures Lookup(r, key) == if key == es[i].key then None else Lookup(es, key) {
      if key != es[i].key && Lookup(es, key).Some? {
        var c := Lookup(es, key).value;
        LookupExact(es, key, c);
        DeletedMembers(es, i, srcDst, Entry(key, c));
        LookupExact(r, key, c);
      } else if Lookup(r, key).Some? {
        var c := Lookup(r, key).value;
        DeletedMembers(es, i, srcDst, Entry(key, c));
        LookupExact(r, key, c);
        LookupExact(es, key, c);
      }
    }
  }

  /** When the hosts differ the last connection can no longer be found under its key. */
  lemma {:induction false} DeleteLosesLast(es: seq<Entry>, i: nat)
    requires i < |es| && DistinctKeys(es) && !SharesHost(es, i)
    ensures Lookup(es, es[|es| - 1].key) == Some(es[|es| - 1].conn)
    ensures Lookup(DeleteAt(es, i, true), es[|es| - 1].key) == None
  {
    var n := |es| - 1;
    LookupAt(es, n);
    var r := DeleteAt(es, i, true);
    forall j | 0 <= j < |r| ensures r[j].key != es[n].key {
      assert j != i ==> r[j] == es[j];
    }
    LookupMissing(r, es[n].key);
  }

  /** In src_dst mode the deletion as written is right if and only if the removed and the last
      entry are the same or share a remote host id. */
  lemma DeleteExactly(es: seq<Entry>, i: nat)
    requires i < |es| && DistinctKeys(es)
    ensures DeletesOnly(es, i, true) <==> SharesHost(es, i)
  {
    if SharesHost(es, i) {
      DeleteRight(es, i, true);
    } else {
      DeleteLosesLast(es, i);
    }
  }

  // ---- Whole runs: the table is a map ----

  datatype Op = Add(key: Key, conn: nat) | Delete(key: Key)

  function FirstIndex(es: seq<Entry>, key: Key): (i: nat)
    ensures i <= |es| && (i < |es| ==> es[i].key == key)
    ensures forall j :: 0 <= j < i ==> es[j].key != key
  {
    if es == [] || es[0].key == key then 0 else 1 + FirstIndex(es[1..], key)
  }

  function Apply(es: seq<Entry>, op: Op, srcDst: bool): seq<Entry> {
    match op
    case Add(key, conn) => es + [Entry(key, conn)]
    case Delete(key) =>
      var i := FirstIndex(es, key);
      if i < |es| then DeleteAt(es, i, srcDst) else es
  }

  function Table(ops: seq<Op>, srcDst: bool): seq<Entry> {
    if ops == [] then [] else Apply(Table(ops[..|ops| - 1], srcDst), ops[|ops| - 1], srcDst)
  }

  /** The map the table stands for. */
  function Live(ops: seq<Op>): map<Key, nat> {
    if ops == [] then map[]
    else
      var before := Live(ops[..|ops| - 1]);
      match ops[|ops| - 1]
      case Add(key, conn) => before[key := conn]
      case Delete(key) => before - {key}
  }

  /** Only dead keys are added and, in src_dst mode, deletions meet the shared-host condition. */
  predicate Usual(ops: seq<Op>, srcDst: bool) {
    ops == [] ||
    (var before := Table(ops[..|ops| - 1], srcDst);
     && Usual(ops[..|ops| - 1], srcDst)
     && match ops[|ops| - 1]
        case Add(key, _) => key !in Live(ops[..|ops| - 1])
        case Delete(key) =>
          var i := FirstIndex(before, key);
          srcDst && i < |before| ==> SharesHost(before, i))
  }

  ghost predicate StandsFor(es: seq<Entry>, m: map<Key, nat>) {
    DistinctKeys(es) && forall key :: Lookup(es, key) == if key in m then Some(m[key]) else None
  }

  lemma AddStands(es: seq<Entry>, m: map<Key, nat>, key: Key, conn: nat)
    requires StandsFor(es, m) && key !in m
    ensures StandsFor(es + [Entry(key, conn)], m[key := conn])
  {
    assert Lookup(es, key) == None;
    LookupExact(es, key, conn);
    forall k ensures Lookup(es + [Entry(key, conn)], k) == if k in m[key := conn] then Some(m[key := conn][k]) else None {
      LookupAppend(es, Entry(key, conn), k);
    }
  }

  lemma {:induction false} DeleteStands(es: seq<Entry>, m: map<Key, nat>, key: Key, srcDst: bool)
    requires StandsFor(es, m)
    requires var i := FirstIndex(es, key); srcDst && i < |es| ==> SharesHost(es, i)
    ensures StandsFor(Apply(es, Delete(key), srcDst), m - {key})
  {
    var i := FirstIndex(es, key);
    if i < |es| {
      DeleteRight(es, i, srcDst);
      DeletedMembers(es, i, srcDst, es[i]);
    } else {
      LookupMissing(es, key);
    }
  }

  /** Over every run the table finds exactly the live connection of each key. */
  lemma {:induction false} TableIsMap(ops: seq<Op>, srcDst: bool)
    requires Usual(ops, srcDst)
    ensures StandsFor(Table(ops, srcDst), Live(ops))
  {
    if ops != [] {
      var before := ops[..|ops| - 1];
      TableIsMap(before, srcDst);
      match ops[|ops| - 1] {
        case Add(key, conn) => AddStands(Table(before, srcDst), Live(before), key, conn);
        case Delete(key) => DeleteStands(Table(before, srcDst), Live(before), key, srcDst);
      }
    }
  }
}
