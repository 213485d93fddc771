/** The tunnel pool: a lock-guarded list changed in place, and its snapshots of the healthy tunnels. */
module Pool {
  import opened Text
  import opened Filter

  /** A tunnel; `handle` is the identity of the shared object, `id` its configured name, `display` its label. */
  datatype Transport = Transport(handle: nat, id: string, display: string)

  /** Readings that depend only on the tunnel, i.e. no health flag flips while they are taken. */
  ghost predicate ReadFrom(ts: seq<Transport>, up: seq<bool>, down: set<nat>) {
    |ts| == |up| && forall i :: 0 <= i < |ts| ==> up[i] == (ts[i].handle !in down)
  }

  /** With no interference a second filter over the result of the first keeps all of it. */
  lemma SecondFilterIsIdentity(ts: seq<Transport>, up: seq<bool>, up2: seq<bool>, down: set<nat>)
    requires ReadFrom(ts, up, down) && ReadFrom(Keep(ts, up), up2, down)
    ensures Keep(Keep(ts, up), up2) == Keep(ts, up)
  {
    var kept := Keep(ts, up);
    forall i | 0 <= i < |kept|
      ensures up2[i]
    {
      KeptIff(ts, up, kept[i]);
    }
    ShrinksIff(kept, up2);
  }

  /** Whether each entry has another identifier. */
  function Others(ts: seq<Transport>, id: string): (flags: seq<bool>)
    ensures |flags| == |ts| && forall i :: 0 <= i < |ts| ==> flags[i] == (ts[i].id != id)
  {
    seq(|ts|, i requires 0 <= i < |ts| => ts[i].id != id)
  }

  /** Entries with other identifiers, in order: what `retain` leaves. */
  function Without(ts: seq<Transport>, id: string): seq<Transport> {
    Keep(ts, Others(ts, id))
  }

  /** Exactly the entries with the identifier go. */
  lemma WithoutIff(ts: seq<Transport>, id: string, t: Transport)
    ensures t in Without(ts, id) <==> t in ts && t.id != id
  {
    KeptIff(ts, Others(ts, id), t);
  }

  class Pool {
    var transports: seq<Transport>

    constructor (initial: seq<Transport>)
      ensures transports == initial
    {
      transports := initial;
    }

    method Add(t: Transport)
      modifies this
      ensures transports == old(transports) + [t]
    {
      transports := transports + [t];
    }

    /**
     * Removes every transport with this identifier, keeps all others in their order, and reports
     * whether there was one.
     */
    method Remove(id: string) returns (removed: bool)
      modifies this
      ensures transports == Keep(old(transports), Others(old(transports), id))
      ensures forall t :: t in transports <==> t in old(transports) && t.id != id
      ensures removed <==> exists i :: 0 <= i < |old(transports)| && old(transports)[i].id == id
    {
      var before := |transports|;
      forall t
        ensures t in Without(transports, id) <==> t in transports && t.id != id
      {
        WithoutIff(transports, id, t);
      }
      ShrinksIff(transports, Others(transports, id));
      transports := KeepFlagged(transports, Others(transports, id));
      removed := |transports| < before;
    }

    /** First transport with this identifier. */
    method Get(id: string) returns (found: Option<Transport>)
      ensures found.None? ==> forall t :: t in transports ==> t.id != id
      ensures found.Some? ==>
                exists i :: 0 <= i < |transports| && transports[i] == found.value && found.value.id == id
                            && forall j :: 0 <= j < i ==> transports[j].id != id
    {
      for i := 0 to |transports|
        invariant forall j :: 0 <= j < i ==> transports[j].id != id
      {
        if transports[i].id == id {
          return Some(transports[i]);
        }
      }
      return None;
    }

    /**
     * The snapshot handed to the router: empty when `try_read` fails, otherwise the entries that
     * answered healthy when they were asked, in pool order.
     */
    method HealthyTransportsSync(locked: bool, up: seq<bool>) returns (healthy: seq<Transport>)
      requires |up| == |transports|
      ensures healthy == if locked then [] else Keep(transports, up)
    {
      if locked {
        return [];
      }
      healthy := KeepFlagged(transports, up);
    }

    method StatusSummary(up: seq<bool>) returns (total: nat, healthy: nat, labels: seq<string>)
      requires |up| == |transports|
      ensures total == |transports| == |labels|
      ensures healthy == |Keep(transports, up)|
      ensures forall i :: 0 <= i < |labels| ==> labels[i] == transports[i].display
    {
      total, healthy, labels := |transports|, 0, [];
      for i := 0 to |transports|
        invariant |labels| == i && forall j :: 0 <= j < i ==> labels[j] == transports[j].display
        invariant healthy == |Keep(transports[..i], up[..i])|
      {
        if up[i] {
          healthy := healthy + 1;
        }
        labels := labels + [transports[i].display];
        assert transports[..i + 1][..i] == transports[..i] && up[..i + 1][..i] == up[..i];
      }
      assert transports[..|transports|] == transports && up[..|transports|] == up;
    }
  }
}
