/** The locks a reservation writer asks for: `acquireScheduleLocksShared`, then `lockDepartures`. */
module LockScripts {
  import opened Text
  import opened LockProtocol

  function ScriptOf(tenants: seq<string>, rows: seq<string>): seq<Request> {
    seq(|tenants|, i requires 0 <= i < |tenants| => Request(Tenant(tenants[i]), Shared))
      + seq(|rows|, i requires 0 <= i < |rows| => Request(Row(rows[i]), Exclusive))
  }

  /** A batch over several tenants locks them all, and then its departures, whatever order they were given in. */
  method WriterScript(tenantIds: seq<string>, departureIds: seq<string>, ghost tenantOf: string -> string) returns (script: seq<Request>)
    requires forall r :: r in departureIds ==> tenantOf(r) in tenantIds
    ensures IsWriterScript(script, tenantOf)
    ensures forall t :: Request(Tenant(t), Shared) in script <==> t in tenantIds
    ensures forall r :: Request(Row(r), Exclusive) in script <==> r in departureIds
  {
    var tenants := SortedOnce(tenantIds);
    var rows := SortedOnce(departureIds);
    script := ScriptOf(tenants, rows);
    ScriptMembers(tenants, rows);
  }

  lemma {:induction false} ScriptMembers(tenants: seq<string>, rows: seq<string>)
    requires Sorted(tenants) && Sorted(rows)
    ensures AscendingLocks(ScriptOf(tenants, rows))
    ensures forall t, m :: Request(Tenant(t), m) in ScriptOf(tenants, rows) <==> m == Shared && t in tenants
    ensures forall r, m :: Request(Row(r), m) in ScriptOf(tenants, rows) <==> m == Exclusive && r in rows
  {
    var script := ScriptOf(tenants, rows);
    forall t, m ensures Request(Tenant(t), m) in script <==> m == Shared && t in tenants {
      if m == Shared && t in tenants {
        var i :| 0 <= i < |tenants| && tenants[i] == t;
        assert script[i] == Request(Tenant(t), m);
      }
    }
    forall r, m ensures Request(Row(r), m) in script <==> m == Exclusive && r in rows {
      if m == Exclusive && r in rows {
        var i :| 0 <= i < |rows| && rows[i] == r;
        assert script[|tenants| + i] == Request(Row(r), m);
      }
    }
  }
}
