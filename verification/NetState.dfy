/** The connection table as the generated code keeps it, in parallel arrays. */
module NetState {
  import opened Basics
  import opened ConnectionTable

  ghost function EntriesOf(srcDst: bool, n: nat, local: seq<nat>, apps: seq<nat>, hosts: seq<nat>, conns: seq<nat>): (es: seq<Entry>)
    requires n <= |local| && n <= |apps| && n <= |hosts| && n <= |conns|
    ensures |es| == n
  {
    seq(n, i requires 0 <= i < n =>
      Entry(if srcDst then Key(local[i], apps[i], hosts[i]) else Key(local[i], 0, 0), conns[i]))
  }

  class State {
    const srcDst: bool
    var numConn: nat
    const localApps: array<nat>
    const remoteApps: array<nat>
    const remoteHosts: array<nat>
    const connections: array<nat>

    /** In dst_identifiers_only mode the remote arrays do not exist. */
    ghost predicate Valid()
      reads this`numConn
    {
      && localApps.Length == remoteApps.Length == remoteHosts.Length == connections.Length == MAX_ACTIVE_CONNECTIONS
      && numConn <= MAX_ACTIVE_CONNECTIONS
      && localApps != remoteApps && localApps != remoteHosts && localApps != connections
      && remoteApps != remoteHosts && remoteApps != connections && remoteHosts != connections
    }

    function KeyAt(i: nat): Key
      requires i < localApps.Length && i < remoteApps.Length && i < remoteHosts.Length
      reads localApps, remoteApps, remoteHosts
    {
      if srcDst then Key(localApps[i], remoteApps[i], remoteHosts[i]) else Key(localApps[i], 0, 0)
    }

    ghost function Entries(): (es: seq<Entry>)
      requires Valid()
      reads this`numConn, localApps, remoteApps, remoteHosts, connections
      ensures |es| == numConn
    {
      EntriesOf(srcDst, numConn, localApps[..], remoteApps[..], remoteHosts[..], connections[..])
    }

    /** The key a caller means in this mode. */
    function KeyFor(app: nat, srcApp: nat, srcHost: nat): Key {
      if srcDst then Key(app, srcApp, srcHost) else Key(app, 0, 0)
    }

    constructor (srcDst: bool)
      ensures Valid() && Entries() == [] && this.srcDst == srcDst
      ensures fresh(localApps) && fresh(remoteApps) && fresh(remoteHosts) && fresh(connections)
    {
      this.srcDst := srcDst;
      numConn := 0;
      localApps := new nat[MAX_ACTIVE_CONNECTIONS];
      remoteApps := new nat[MAX_ACTIVE_CONNECTIONS];
      remoteHosts := new nat[MAX_ACTIVE_CONNECTIONS];
      connections := new nat[MAX_ACTIVE_CONNECTIONS];
    }

    /** add_connection */
    method AddConnection(c: nat, app: nat, srcApp: nat, srcHost: nat)
      requires Valid() && numConn < MAX_ACTIVE_CONNECTIONS
      modifies this`numConn, localApps, remoteApps, remoteHosts, connections
      ensures Valid() && Entries() == old(Entries()) + [Entry(KeyFor(app, srcApp, srcHost), c)]
    {
      var idx := numConn;
      numConn := idx + 1;
      localApps[idx] := app;
      connections[idx] := c;
      if srcDst {
        remoteApps[idx] := srcApp;
        remoteHosts[idx] := srcHost;
      }
    }

    /** retrieve_connection */
    method RetrieveConnection(app: nat, srcApp: nat, srcHost: nat) returns (c: Option<nat>)
      requires Valid()
      ensures c == Lookup(Entries(), KeyFor(app, srcApp, srcHost))
    {
      var total := numConn;
      ghost var key := KeyFor(app, srcApp, srcHost);
      for i := 0 to total
        invariant Lookup(Entries()[i..], key) == Lookup(Entries(), key)
      {
        assert Entries()[i..][1..] == Entries()[i + 1..];
        if KeyAt(i) == KeyFor(app, srcApp, srcHost) {
          return Some(connections[i]);
        }
      }
      return None;
    }

    /** retrieve_wildcard_connection, in src_dst mode: the first entry whose remote end is all zero. */
    method RetrieveWildcard(app: nat) returns (c: Option<nat>)
      requires Valid() && srcDst
      ensures c == Lookup(Entries(), Key(app, 0, 0))
    {
      c := RetrieveConnection(app, 0, 0);
    }

    /** delete_connection, with line 169 as it stands. */
    method DeleteConnection(app: nat, srcApp: nat, srcHost: nat)
      requires Valid()
      modifies this`numConn, localApps, remoteApps, remoteHosts, connections
      ensures Valid() && Entries() == Apply(old(Entries()), Delete(KeyFor(app, srcApp, srcHost)), srcDst)
    {
      var total := numConn;
      ghost var es, key := Entries(), KeyFor(app, srcApp, srcHost);
      for i := 0 to total
        invariant Valid() && numConn == total && Entries() == es
        invariant forall j :: 0 <= j < i ==> es[j].key != key
      {
        if KeyAt(i) == KeyFor(app, srcApp, srcHost) {
          FirstIndexIs(es, key, i);
          MoveLast(i);
          return;
        }
      }
      FirstIndexIs(es, key, total);
    }

    method MoveLast(i: nat)
      requires Valid() && i < numConn
      modifies this`numConn, localApps, remoteApps, remoteHosts, connections
      ensures Valid() && Entries() == DeleteAt(old(Entries()), i, srcDst)
    {
      var total := numConn - 1;
      numConn := total;
      localApps[i] := localApps[total];
      connections[i] := connections[total];
      if srcDst {
        remoteApps[i] := remoteApps[total];
        remoteHosts[total] := remoteHosts[i];
      }
    }
  }

  lemma {:induction false} FirstIndexIs(es: seq<Entry>, key: Key, i: nat)
    requires i <= |es| && (i < |es| ==> es[i].key == key)
    requires forall j :: 0 <= j < i ==> es[j].key != key
    ensures FirstIndex(es, key) == i
  {
  }
}
