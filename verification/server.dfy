/**
 The coordinator's poll cycle: turning one fetch of an agent's health
 endpoint into exactly one status record, saving one record per registered
 agent, and the listener restart budget.
 */
module Server {
  import opened Wrappers
  import opened Models
  import Text
  import Keyed
  import ClientStore
  import StatusStore

  /** Result of decoding a response body as a snapshot. */
  datatype Body = Undecodable(err: string) | Decoded(snapshot: HealthStatus)

  /** Result of the GET to an agent's URL: no response, or a status code and body. */
  datatype Outcome = TransportError(err: string) | Responded(code: int, body: Body)

  /** One fetch: its outcome and the clock reading used to stamp the record. */
  datatype Probe = Probe(outcome: Outcome, at: int)

  /** errorStatus: a down snapshot carrying the error text, every metric zero. */
  function ErrorStatus(err: string): (h: HealthStatus)
    ensures h.down && h.status == err
    ensures h.cpu == ZeroCpu && h.mem == ZeroMem && h.network == ZeroNetwork
  {
    HealthStatus(ZeroCpu, ZeroMem, ZeroNetwork, true, err)
  }

  const BadStatusPrefix := "did not get 200 response, got "

  function BadStatusMessage(code: int): string {
    BadStatusPrefix + Text.IntToString(code)
  }

  /** The fetch produced a snapshot: status 200 and a body that decodes. */
  predicate Fetched(o: Outcome) {
    o.Responded? && o.code == 200 && o.body.Decoded?
  }

  /**
   send: every outcome gives one record named after the agent and stamped
   with the probe's time. A decoded 200 response is stored verbatim; any
   failure gives a down snapshot with zero metrics whose status is the
   transport error, the bad status code, or the decode error.
   */
  function Send(cli: ClientInfo, p: Probe): (r: StatusRecord)
    ensures r.clientName == cli.name && r.updated == p.at
    ensures Fetched(p.outcome) ==> r.data == p.outcome.body.snapshot
    ensures !Fetched(p.outcome) ==>
      r.data.down && r.data.cpu == ZeroCpu && r.data.mem == ZeroMem && r.data.network == ZeroNetwork
    ensures p.outcome.TransportError? ==> r.data.status == p.outcome.err
    ensures p.outcome.Responded? && p.outcome.code != 200 ==>
      BadStatusPrefix <= r.data.status &&
      (p.outcome.code >= 0 ==>
        var digits := r.data.status[|BadStatusPrefix|..];
        Text.AllDigits(digits) && Text.DigitsValue(digits) == p.outcome.code)
    ensures p.outcome.Responded? && p.outcome.code == 200 && p.outcome.body.Undecodable? ==>
      r.data.status == p.outcome.body.err
  {
    match p.outcome
    case TransportError(e) => StatusRecord(cli.name, ErrorStatus(e), p.at)
    case Responded(code, body) =>
      if code != 200 then
        assert BadStatusMessage(code)[|BadStatusPrefix|..] == Text.IntToString(code);
        StatusRecord(cli.name, ErrorStatus(BadStatusMessage(code)), p.at)
      else
        match body
        case Undecodable(e) => StatusRecord(cli.name, ErrorStatus(e), p.at)
        case Decoded(hs) => StatusRecord(cli.name, hs, p.at)
  }

  /**
   The records the fetch loop sends: one per client, in registry order, each
   named after its client and stamped with its probe's time. A client whose
   fetch failed is reported down; one whose fetch succeeded is reported with
   the snapshot it returned.
   */
  function SendAll(clients: seq<ClientInfo>, probes: seq<Probe>): (sent: seq<StatusRecord>)
    requires |probes| == |clients|
    ensures |sent| == |clients|
    ensures forall i :: 0 <= i < |clients| ==> sent[i] == Send(clients[i], probes[i])
    ensures forall i :: 0 <= i < |clients| ==>
      sent[i].clientName == clients[i].name && sent[i].updated == probes[i].at
    ensures forall i :: 0 <= i < |clients| && !Fetched(probes[i].outcome) ==> sent[i].data.down
    ensures forall i :: 0 <= i < |clients| && Fetched(probes[i].outcome) ==>
      sent[i].data == probes[i].outcome.body.snapshot
  {
    seq(|clients|, i requires 0 <= i < |clients| => Send(clients[i], probes[i]))
  }

  /** Number of probes whose fetch did not produce a snapshot. */
  function FailedCount(probes: seq<Probe>): nat {
    if |probes| == 0 then 0
    else FailedCount(probes[..|probes| - 1]) + (if Fetched(probes[|probes| - 1].outcome) then 0 else 1)
  }

  /** Number of records that report their agent down. */
  function DownCount(records: seq<StatusRecord>): nat {
    if |records| == 0 then 0
    else DownCount(records[..|records| - 1]) + (if records[|records| - 1].data.down then 1 else 0)
  }

  /** Whether each record is down, as the matching probe decides it. */
  ghost predicate DownMatches(sent: seq<StatusRecord>, probes: seq<Probe>) {
    |sent| == |probes| &&
    forall i :: 0 <= i < |sent| ==>
      (sent[i].data.down <==> !Fetched(probes[i].outcome) || probes[i].outcome.body.snapshot.down)
  }

  lemma {:induction false} DownCountBounds(sent: seq<StatusRecord>, probes: seq<Probe>)
    requires DownMatches(sent, probes)
    ensures DownCount(sent) >= FailedCount(probes)
    ensures (forall i :: 0 <= i < |probes| && Fetched(probes[i].outcome) ==> !probes[i].outcome.body.snapshot.down) ==>
      DownCount(sent) == FailedCount(probes)
    decreases |sent|
  {
    if |sent| > 0 {
      var n := |sent| - 1;
      assert DownMatches(sent[..n], probes[..n]);
      DownCountBounds(sent[..n], probes[..n]);
    }
  }

  /**
   A fetch loop in which M fetches fail reports at least M agents down, and
   exactly M when no agent that answered reports itself down.
   */
  lemma FailedFetchesReportDown(clients: seq<ClientInfo>, probes: seq<Probe>)
    requires |probes| == |clients|
    ensures DownCount(SendAll(clients, probes)) >= FailedCount(probes)
    ensures (forall i :: 0 <= i < |probes| && Fetched(probes[i].outcome) ==> !probes[i].outcome.body.snapshot.down) ==>
      DownCount(SendAll(clients, probes)) == FailedCount(probes)
  {
    DownCountBounds(SendAll(clients, probes), probes);
  }

  /** One poll cycle: the records sent, and the status store after saving them. */
  datatype Cycle = Cycle(sent: seq<StatusRecord>, store: seq<StatusRecord>)

  /**
   pingAll, sequentially: send for every registered client in order, then
   save each record in the order received.
   */
  function PingAll(statuses: seq<StatusRecord>, clients: seq<ClientInfo>, probes: seq<Probe>): (c: Cycle)
    requires |probes| == |clients|
    ensures |c.sent| == |clients|
    ensures forall i :: 0 <= i < |clients| ==> c.sent[i].clientName == clients[i].name
    ensures StatusStore.Names(c.store) == StatusStore.Names(statuses) + ClientStore.Names(clients)
    ensures |statuses| <= |c.store| <= |statuses| + |clients|
  {
    var sent := SendAll(ClientStore.Get(clients), probes);
    assert StatusStore.Names(sent) == ClientStore.Names(clients) by {
      forall n | n in ClientStore.Names(clients) ensures n in StatusStore.Names(sent) {
        var i :| 0 <= i < |clients| && ClientName(clients[i]) == n;
        assert RecordName(sent[i]) == n;
      }
    }
    Cycle(sent, StatusStore.SaveAll(statuses, sent))
  }

  /**
   After a poll cycle every registered client has a status record and one
   record was sent per client. With distinct client names, each client's
   record is the one sent for it (so a failed fetch leaves it down), and a
   cycle on an empty store leaves exactly one record per client.
   */
  lemma PingAllCoversClients(statuses: seq<StatusRecord>, clients: seq<ClientInfo>, probes: seq<Probe>)
    requires |probes| == |clients|
    ensures |PingAll(statuses, clients, probes).sent| == |clients|
    ensures forall i :: 0 <= i < |clients| ==>
      StatusStore.Find(PingAll(statuses, clients, probes).store, clients[i].name).Success?
    ensures ClientStore.UniqueNames(clients) ==> forall i :: 0 <= i < |clients| ==>
      StatusStore.Find(PingAll(statuses, clients, probes).store, clients[i].name) ==
        Success(PingAll(statuses, clients, probes).sent[i])
    ensures ClientStore.UniqueNames(clients) && statuses == StatusStore.Empty ==>
      |StatusStore.FindAll(PingAll(statuses, clients, probes).store)| == |clients|
  {
    var c := PingAll(statuses, clients, probes);
    var sent := c.sent;
    forall i | 0 <= i < |clients|
      ensures StatusStore.Find(c.store, clients[i].name).Success?
    {
      StatusStore.SaveAllLastWins(statuses, sent, clients[i].name);
      LastWithKeyPresent(sent, i);
    }
    if ClientStore.UniqueNames(clients) {
      assert StatusStore.UniqueNames(sent) by {
        forall i, j | 0 <= i < j < |sent| ensures sent[i].clientName != sent[j].clientName {
          assert ClientName(clients[i]) != ClientName(clients[j]);
        }
      }
      forall i | 0 <= i < |clients|
        ensures StatusStore.Find(c.store, clients[i].name) == Success(sent[i])
      {
        StatusStore.SaveAllLastWins(statuses, sent, clients[i].name);
        Keyed.LastWithKeyUnique(sent, RecordName, i);
      }
      if statuses == StatusStore.Empty {
        StatusStore.FindAllCountsNames(sent);
        Keyed.UniqueKeysCount(sent, RecordName);
      }
    }
  }

  lemma {:induction false} LastWithKeyPresent(xs: seq<StatusRecord>, i: nat)
    requires i < |xs|
    ensures Keyed.LastWithKey(xs, RecordName, xs[i].clientName).Some?
    decreases |xs|
  {
    if i < |xs| - 1 && xs[|xs| - 1].clientName != xs[i].clientName {
      LastWithKeyPresent(xs[..|xs| - 1], i);
    }
  }

  // ---------------------------------------------------------------------------
  // Listener restarts

  /** The supervisor's view of the listener: errors seen, whether one is running, relaunches made. */
  datatype Supervisor = Supervisor(resetCount: nat, listening: bool, relaunches: nat)

  /** The listener started before the supervision loop. */
  const Started := Supervisor(0, true, 0)

  /** An error from the running listener: count it, and relaunch only while the count is below 3. */
  function OnListenerError(s: Supervisor): (r: Supervisor)
    requires s.listening
    ensures r.resetCount == s.resetCount + 1
    ensures r.listening <==> r.resetCount < 3
    ensures r.relaunches == s.relaunches + (if r.listening then 1 else 0)
  {
    var count := s.resetCount + 1;
    if count < 3 then Supervisor(count, true, s.relaunches + 1)
    else Supervisor(count, false, s.relaunches)
  }

  /**
   The supervisor after `k` listener errors. Errors only come from a running
   listener, so at most three can occur; the listener is relaunched after the
   first two and never again, so there are at most two relaunches.
   */
  function AfterErrors(k: nat): (s: Supervisor)
    requires k <= 3
    ensures s.resetCount == k
    ensures s.listening <==> k < 3
    ensures s.relaunches == if k < 3 then k else 2
    ensures s.relaunches <= 2
  {
    if k == 0 then Started else OnListenerError(AfterErrors(k - 1))
  }
}
