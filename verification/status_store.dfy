/**
 The status store: one status record per agent name, saved by name in the
 same way as the registry, with point and bulk lookup.
 */
module StatusStore {
  import opened Wrappers
  import opened Models
  import Keyed

  /** The store as `MakeStatusStore` creates it. */
  const Empty: seq<StatusRecord> := []

  function Names(s: seq<StatusRecord>): set<string> {
    Keyed.KeySet(s, RecordName)
  }

  ghost predicate UniqueNames(s: seq<StatusRecord>) {
    Keyed.UniqueKeys(s, RecordName)
  }

  /** The error text Find reports for a name with no record. */
  function NotFoundMessage(name: string): string {
    "value " + name + " not found"
  }

  /**
   Find: the first record whose name is `name`; when there is none, the
   not-found error (the caller then sees the zero record).
   */
  function Find(s: seq<StatusRecord>, name: string): (r: Result<StatusRecord, string>)
    ensures r.Success? ==>
      exists i :: 0 <= i < |s| && s[i] == r.value && s[i].clientName == name &&
        (forall j :: 0 <= j < i ==> s[j].clientName != name)
    ensures r.Failure? <==> name !in Names(s)
    ensures r.Failure? ==> r.error == NotFoundMessage(name)
  {
    match Keyed.IndexOf(s, RecordName, name)
    case Some(i) => Success(s[i])
    case None =>
      assert name !in Names(s);
      Failure(NotFoundMessage(name))
  }

  /**
   Save: afterwards Find on the record's name yields the record, Find on any
   other name is unchanged, the store grows only for an unseen name, and
   unique names stay unique.
   */
  function Save(s: seq<StatusRecord>, hs: StatusRecord): (r: seq<StatusRecord>)
    ensures Find(r, hs.clientName) == Success(hs)
    ensures forall n :: n != hs.clientName ==> Find(r, n) == Find(s, n)
    ensures hs.clientName in Names(s) ==> |r| == |s|
    ensures hs.clientName in Names(s) ==>
      exists i :: 0 <= i < |s| && s[i].clientName == hs.clientName &&
        (forall j :: 0 <= j < i ==> s[j].clientName != hs.clientName) && r == s[i := hs]
    ensures hs.clientName !in Names(s) ==> r == s + [hs]
    ensures forall j :: 0 <= j < |s| && s[j].clientName != hs.clientName ==> j < |r| && r[j] == s[j]
    ensures Keyed.Without(r, RecordName, hs.clientName) == Keyed.Without(s, RecordName, hs.clientName)
    ensures UniqueNames(s) ==> UniqueNames(r)
  {
    FindAfterUpsert(s, hs);
    Keyed.Upsert(s, RecordName, hs)
  }

  /** Find after the upsert behind Save: a map update at the record's name. */
  lemma FindAfterUpsert(s: seq<StatusRecord>, hs: StatusRecord)
    ensures Find(Keyed.Upsert(s, RecordName, hs), hs.clientName) == Success(hs)
    ensures forall n :: n != hs.clientName ==> Find(Keyed.Upsert(s, RecordName, hs), n) == Find(s, n)
  {
    var r := Keyed.Upsert(s, RecordName, hs);
    forall n ensures Find(r, n).ToOption() == Keyed.Lookup(r, RecordName, n) == (if n == hs.clientName then Some(hs) else Keyed.Lookup(s, RecordName, n)) {
      Keyed.LookupUpsert(s, RecordName, hs, n);
    }
  }

  /**
   SaveAll: Save each record in argument order. Afterwards the store holds
   exactly the names it held plus the names of the batch, it grows by at
   most one record per batch record, and unique names stay unique.
   */
  function SaveAll(s: seq<StatusRecord>, hss: seq<StatusRecord>): (r: seq<StatusRecord>)
    ensures Names(r) == Names(s) + Names(hss)
    ensures |s| <= |r| <= |s| + |hss|
    ensures UniqueNames(s) ==> UniqueNames(r)
  {
    if |hss| == 0 then
      assert Names(hss) == {};
      s
    else
      var prefix := hss[..|hss| - 1];
      var last := hss[|hss| - 1];
      assert Names(hss) == Names(prefix) + {last.clientName} by {
        assert hss == prefix + [last];
      }
      Save(SaveAll(s, prefix), last)
  }

  /** FindAll: every stored record. */
  function FindAll(s: seq<StatusRecord>): seq<StatusRecord> {
    s
  }

  lemma {:induction false} SaveAllIsUpsertAll(s: seq<StatusRecord>, hss: seq<StatusRecord>)
    ensures SaveAll(s, hss) == Keyed.UpsertAll(s, RecordName, hss)
    decreases |hss|
  {
    if |hss| > 0 {
      SaveAllIsUpsertAll(s, hss[..|hss| - 1]);
    }
  }

  /** SaveAll(a + b) is SaveAll(a) followed by SaveAll(b): the records are saved one after another. */
  lemma SaveAllSequential(s: seq<StatusRecord>, a: seq<StatusRecord>, b: seq<StatusRecord>)
    ensures SaveAll(s, a + b) == SaveAll(SaveAll(s, a), b)
  {
    SaveAllIsUpsertAll(s, a + b);
    SaveAllIsUpsertAll(s, a);
    SaveAllIsUpsertAll(SaveAll(s, a), b);
    Keyed.UpsertAllAppend(s, RecordName, a, b);
  }

  /**
   After SaveAll, Find on a name yields the last record of the batch with that
   name; a name absent from the batch is found as before.
   */
  lemma SaveAllLastWins(s: seq<StatusRecord>, hss: seq<StatusRecord>, name: string)
    ensures Find(SaveAll(s, hss), name).ToOption() ==
      match Keyed.LastWithKey(hss, RecordName, name)
      case Some(hs) => Some(hs)
      case None => Find(s, name).ToOption()
  {
    SaveAllIsUpsertAll(s, hss);
    Keyed.LookupUpsertAll(s, RecordName, hss, name);
  }

  /**
   Starting from the empty store, FindAll after SaveAll holds one record per
   distinct name of the batch, so its length is the number of distinct names.
   */
  lemma FindAllCountsNames(hss: seq<StatusRecord>)
    ensures UniqueNames(FindAll(SaveAll(Empty, hss)))
    ensures Names(FindAll(SaveAll(Empty, hss))) == Names(hss)
    ensures |FindAll(SaveAll(Empty, hss))| == |Names(hss)|
  {
    SaveAllIsUpsertAll(Empty, hss);
    Keyed.UpsertAllFromEmpty(hss, RecordName);
  }
}
