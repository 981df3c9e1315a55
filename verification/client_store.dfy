/**
 The agent registry: agents in registration order, saved by name. A second
 registration under a known name replaces the entry in place.
 */
module ClientStore {
  import opened Wrappers
  import opened Models
  import Keyed

  /** The registry as `MakeClientStore` creates it. */
  const Empty: seq<ClientInfo> := []

  /** The names of the registered agents. */
  function Names(s: seq<ClientInfo>): set<string> {
    Keyed.KeySet(s, ClientName)
  }

  ghost predicate UniqueNames(s: seq<ClientInfo>) {
    Keyed.UniqueKeys(s, ClientName)
  }

  /** The entries whose name is not `n`, in their order. */
  function Others(s: seq<ClientInfo>, n: string): seq<ClientInfo> {
    Keyed.Without(s, ClientName, n)
  }

  /**
   Save: a known name has its first entry replaced in place and the length
   stays the same; an unseen name is appended at the end. Entries with other
   names keep their values, positions and relative order, and unique names
   stay unique.
   */
  function Save(s: seq<ClientInfo>, info: ClientInfo): (r: seq<ClientInfo>)
    ensures info.name in Names(s) ==> |r| == |s|
    ensures info.name in Names(s) ==>
      exists i :: 0 <= i < |s| && s[i].name == info.name &&
        (forall j :: 0 <= j < i ==> s[j].name != info.name) && r == s[i := info]
    ensures info.name !in Names(s) ==> r == s + [info]
    ensures forall j :: 0 <= j < |s| && s[j].name != info.name ==> j < |r| && r[j] == s[j]
    ensures Others(r, info.name) == Others(s, info.name)
    ensures Names(r) == Names(s) + {info.name}
    ensures UniqueNames(s) ==> UniqueNames(r)
  {
    Keyed.Upsert(s, ClientName, info)
  }

  /** Get: the registered agents, as stored. */
  function Get(s: seq<ClientInfo>): seq<ClientInfo> {
    s
  }

  /** Saving the same record twice leaves the registry as saving it once. */
  lemma SaveIdempotent(s: seq<ClientInfo>, info: ClientInfo)
    ensures Save(Save(s, info), info) == Save(s, info)
  {
    var r := Save(s, info);
    var i := Keyed.IndexOf(r, ClientName, info.name).value;
    assert Keyed.Lookup(r, ClientName, info.name) == Some(info);
    assert r[i] == info;
    assert r[i := info] == r;
  }

  /** The registry after the registrations `regs`, in order. */
  function Registered(regs: seq<ClientInfo>): seq<ClientInfo> {
    if |regs| == 0 then Empty else Save(Registered(regs[..|regs| - 1]), regs[|regs| - 1])
  }

  lemma {:induction false} RegisteredIsUpsertAll(regs: seq<ClientInfo>)
    ensures Registered(regs) == Keyed.UpsertAll([], ClientName, regs)
    decreases |regs|
  {
    if |regs| > 0 {
      RegisteredIsUpsertAll(regs[..|regs| - 1]);
    }
  }

  /**
   Get after any sequence of registrations lists exactly one entry per
   registered name, each the latest registration under that name, in the
   order the names first registered.
   */
  lemma GetAfterRegistrations(regs: seq<ClientInfo>)
    ensures UniqueNames(Get(Registered(regs)))
    ensures Names(Get(Registered(regs))) == Names(regs)
    ensures |Get(Registered(regs))| == |Names(regs)|
    ensures forall i :: 0 <= i < |Get(Registered(regs))| ==>
      Keyed.LastWithKey(regs, ClientName, Get(Registered(regs))[i].name) == Some(Get(Registered(regs))[i])
    ensures Keyed.OrderedByFirstOccurrence(Get(Registered(regs)), ClientName, regs)
  {
    RegisteredIsUpsertAll(regs);
    Keyed.UpsertAllFromEmpty(regs, ClientName);
    Keyed.UpsertAllFromEmptyOrder(regs, ClientName);
  }
}
