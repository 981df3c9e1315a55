/**
 The decisions the coordinator's HTTP handlers make: normalising an agent
 registration, and routing a health request by the segments of its request
 URI. Requests, responses and JSON are abstract: the decoder's result, the
 remote address and the request URI are inputs, and a reply is the status
 codes written and what the body carries.
 */
module Handlers {
  import opened Wrappers
  import opened Models
  import Text
  import Keyed
  import ClientStore
  import StatusStore
  import Server

  const StatusOK := 200
  const StatusCreated := 201
  const StatusBadRequest := 400
  const StatusNotFound := 404
  const StatusInternalServerError := 500

  /** Port assumed for an agent that registers without one. */
  const DefaultPort := 9999

  // ---------------------------------------------------------------------------
  // Registration

  /** The remote address up to its first ':' (all of it when there is none). */
  function RemoteHost(remoteAddr: string): (h: string)
    ensures ':' !in h
    ensures h == remoteAddr || h + [':'] <= remoteAddr
  {
    var parts := Text.Split(remoteAddr, ':');
    assert |parts| > 1 ==> remoteAddr == parts[0] + [':'] + Text.Join(parts[1..], ':');
    parts[0]
  }

  function CallbackUrl(host: string, port: int): string {
    "http://" + host + ":" + Text.IntToString(port) + "/metrics/health"
  }

  /**
   The record saved for a registration: name and key as decoded, port 9999
   when the decoded port is 0 and the decoded port otherwise, and the URL
   rebuilt from the caller's host and that port when the host is non-empty,
   the decoded URL otherwise.
   */
  function Normalize(info: ClientInfo, remoteAddr: string): (r: ClientInfo)
    ensures r.name == info.name && r.key == info.key
    ensures r.port != 0
    ensures info.port != 0 ==> r.port == info.port
    ensures info.port == 0 ==> r.port == DefaultPort
    ensures RemoteHost(remoteAddr) != "" ==>
      r.url == CallbackUrl(RemoteHost(remoteAddr), r.port)
    ensures RemoteHost(remoteAddr) == "" ==> r.url == info.url
  {
    var port := if info.port == 0 then DefaultPort else info.port;
    var host := RemoteHost(remoteAddr);
    var url := if host != "" then CallbackUrl(host, port) else info.url;
    ClientInfo(info.name, port, url, info.key)
  }

  /** What registerHandler leaves behind: the registry and the status codes it wrote, in order. */
  datatype RegisterReply = RegisterReply(store: seq<ClientInfo>, written: seq<int>)

  /**
   net/http keeps the first status a handler writes; a later WriteHeader is
   ignored.
   */
  function EffectiveStatus(written: seq<int>): int
    requires |written| >= 1
  {
    written[0]
  }

  /**
   registerHandler. `decoded` is whatever the JSON decoder filled in and
   `decodeFailed` whether it reported an error. A decode error writes 400
   but the handler goes on: the normalised record is saved and 201 is
   written after the 400.
   */
  function Register(store: seq<ClientInfo>, decoded: ClientInfo, decodeFailed: bool, remoteAddr: string): (r: RegisterReply)
    ensures Keyed.Lookup(r.store, ClientName, decoded.name) == Some(Normalize(decoded, remoteAddr))
    ensures ClientStore.Others(r.store, decoded.name) == ClientStore.Others(store, decoded.name)
    ensures |r.written| >= 1 && r.written[|r.written| - 1] == StatusCreated
    ensures StatusBadRequest in r.written <==> decodeFailed
    ensures EffectiveStatus(r.written) == if decodeFailed then StatusBadRequest else StatusCreated
  {
    var info := Normalize(decoded, remoteAddr);
    var badRequest := if decodeFailed then [StatusBadRequest] else [];
    Keyed.LookupUpsert(store, ClientName, info, info.name);
    RegisterReply(ClientStore.Save(store, info), badRequest + [StatusCreated])
  }

  // ---------------------------------------------------------------------------
  // Health lookups

  /** Which branch of clientInfoHandler a request takes. */
  datatype Route = NotFoundPath | Lookup(name: string) | ListAll

  /**
   The request URI as clientInfoHandler trims it: the `https://` trim is
   applied to the raw URI, so the `http://` trim before it has no effect;
   then one leading and one trailing '/' go. The query stays part of it.
   */
  function TrimmedPath(requestURI: string): string {
    var withoutScheme := Text.TrimPrefix(requestURI, "https://");
    Text.TrimSuffix(Text.TrimPrefix(withoutScheme, "/"), "/")
  }

  function Segments(requestURI: string): seq<string> {
    Text.Split(TrimmedPath(requestURI), '/')
  }

  /**
   More than 3 segments is a bad path, exactly 3 names one agent, fewer lists
   all. Counted in separators: a trimmed path with more than two '/' is a bad
   path, one with exactly two names the text after its last '/', and one with
   fewer lists all.
   */
  function RouteOf(requestURI: string): (r: Route)
    ensures r == NotFoundPath <==> multiset(TrimmedPath(requestURI))['/'] > 2
    ensures r == ListAll <==> multiset(TrimmedPath(requestURI))['/'] < 2
    ensures r.Lookup? ==> '/' !in r.name && Text.IsSuffix(['/'] + r.name, TrimmedPath(requestURI))
  {
    var segments := Segments(requestURI);
    Text.SplitCount(TrimmedPath(requestURI), '/');
    if |segments| > 3 then NotFoundPath
    else if |segments| == 3 then
      Text.SplitLast(TrimmedPath(requestURI), '/');
      Lookup(segments[2])
    else ListAll
  }

  /** The raw query of a request URI: everything after its first '?'. */
  function RawQuery(requestURI: string): string {
    Text.Cut(requestURI, '?').1
  }

  /** A query piece url.ParseQuery keeps and whose key is `key`. */
  predicate KeyedPiece(piece: string, key: string) {
    piece != "" && ';' !in piece && Text.Cut(piece, '=').0 == key
  }

  /**
   url.Values.Get on a parsed query: the value of the first '&'-separated
   piece whose key is `key`, or "" when there is none. As url.ParseQuery
   does, empty pieces and pieces containing ';' are skipped, and a piece
   without '=' has the empty value.
   */
  function QueryGet(pieces: seq<string>, key: string): (v: string)
    ensures
      (exists i :: 0 <= i < |pieces| && KeyedPiece(pieces[i], key) && Text.Cut(pieces[i], '=').1 == v &&
        forall j :: 0 <= j < i ==> !KeyedPiece(pieces[j], key)) ||
      ((forall i :: 0 <= i < |pieces| ==> !KeyedPiece(pieces[i], key)) && v == "")
  {
    if |pieces| == 0 then ""
    else if KeyedPiece(pieces[0], key) then Text.Cut(pieces[0], '=').1
    else
      var v := QueryGet(pieces[1..], key);
      assert forall j :: 1 <= j < |pieces| ==> pieces[j] == pieces[1..][j - 1];
      v
  }

  /** r.URL.Query().Get("poll"): the `poll` value of the request URI's own query. */
  function PollValue(requestURI: string): string {
    QueryGet(Text.Split(RawQuery(requestURI), '&'), "poll")
  }

  /** A long poll is requested only by the query value exactly "true". */
  predicate ShouldPoll(pollValue: string) {
    pollValue == "true"
  }

  datatype ReplyBody = ErrorText(message: string) | OneRecord(record: StatusRecord) | AllRecords(records: seq<StatusRecord>)

  /** A reply: its status, whether the handler long-polled before reading the store, and the body. */
  datatype Reply = Reply(status: int, longPolled: bool, body: ReplyBody)

  /**
   What clientInfoHandler answers once the request is routed. `statuses` is
   the status store as the handler reads it (after the long poll, when there
   is one), `pollValue` the `poll` query value and `encodeFails` whether JSON
   encoding of the result fails. A bad path is 404 without polling or
   reading the store. A one-agent path is 404 unless the store has a record
   under a non-empty name equal to the third segment, and that record
   otherwise. Any shorter path lists the whole store.
   */
  function Answer(statuses: seq<StatusRecord>, route: Route, pollValue: string, encodeFails: bool): (r: Reply)
    ensures route == NotFoundPath ==> r == Reply(StatusNotFound, false, ErrorText("Not Found"))
    ensures route != NotFoundPath ==> r.longPolled == ShouldPoll(pollValue)
    ensures route.Lookup? ==>
      (r.status == StatusNotFound <==> route.name == "" || route.name !in StatusStore.Names(statuses)) &&
      (r.status != StatusNotFound ==>
        r.status == (if encodeFails then StatusInternalServerError else StatusOK) &&
        (!encodeFails ==>
          r.body.OneRecord? && r.body.record.clientName == route.name &&
          StatusStore.Find(statuses, route.name) == Success(r.body.record)))
    ensures route == ListAll && !encodeFails ==>
      r.status == StatusOK && r.body == AllRecords(statuses)
    ensures route == ListAll && encodeFails ==> r.status == StatusInternalServerError
  {
    var shouldPoll := ShouldPoll(pollValue);
    match route
    case NotFoundPath => Reply(StatusNotFound, false, ErrorText("Not Found"))
    case Lookup(name) =>
      var info := StatusStore.Find(statuses, name).GetOr(ZeroRecord);
      if info.clientName == "" then
        Reply(StatusNotFound, shouldPoll, ErrorText("could not find the requested client"))
      else if encodeFails then
        Reply(StatusInternalServerError, shouldPoll, ErrorText("internal error"))
      else
        Reply(StatusOK, shouldPoll, OneRecord(info))
    case ListAll =>
      if encodeFails then Reply(StatusInternalServerError, shouldPoll, ErrorText("internal error"))
      else Reply(StatusOK, shouldPoll, AllRecords(StatusStore.FindAll(statuses)))
  }

  /**
   clientInfoHandler as written: routed by the trimmed request URI, and
   long-polling when the same URI's query has poll=true. It answers 200, 404
   or 500; it long-polls exactly on a path that is not bad and carries
   poll=true; and a 200 carries either the whole store or one stored record
   with a non-empty name.
   */
  function ClientInfoHandler(statuses: seq<StatusRecord>, requestURI: string, encodeFails: bool): (r: Reply)
    ensures r.status == StatusOK || r.status == StatusNotFound || r.status == StatusInternalServerError
    ensures r.longPolled <==> RouteOf(requestURI) != NotFoundPath && PollValue(requestURI) == "true"
    ensures r.status == StatusOK ==>
      r.body == AllRecords(statuses) ||
      (r.body.OneRecord? && r.body.record in statuses && r.body.record.clientName != "")
  {
    Answer(statuses, RouteOf(requestURI), PollValue(requestURI), encodeFails)
  }

  /** Three pieces free of the separator, joined by it, split back into those pieces. */
  lemma SplitThree(a: string, b: string, c: string, sep: char)
    requires sep !in a && sep !in b && sep !in c
    ensures Text.Split(a + [sep] + b + [sep] + c, sep) == [a, b, c]
  {
    var parts := [a, b, c];
    assert Text.Join(parts[2..], sep) == c;
    assert Text.Join(parts[1..], sep) == b + [sep] + c;
    assert Text.Join(parts, sep) == a + [sep] + b + [sep] + c;
    Text.SplitJoin(parts, sep);
  }

  /** Two pieces free of the separator, joined by it, split back into those pieces. */
  lemma SplitTwo(a: string, b: string, sep: char)
    requires sep !in a && sep !in b
    ensures Text.Split(a + [sep] + b, sep) == [a, b]
  {
    var parts := [a, b];
    assert Text.Join(parts[1..], sep) == b;
    assert Text.Join(parts, sep) == a + [sep] + b;
    Text.SplitJoin(parts, sep);
  }

  /** The handler's trimming drops the leading '/' of a path that does not end in '/'. */
  lemma TrimRooted(rest: string)
    requires rest != [] && rest[|rest| - 1] != '/'
    ensures TrimmedPath(['/'] + rest) == rest
  {
    var uri := ['/'] + rest;
    assert !("https://" <= uri) by { assert uri[0] == '/'; }
    assert Text.TrimPrefix(uri, "/") == rest;
    assert !Text.IsSuffix("/", rest) by { assert rest[|rest| - 1] != '/'; }
  }

  /** The handler's trimming drops the leading and trailing '/' of a directory path. */
  lemma TrimDirectory(inner: string)
    ensures TrimmedPath(['/'] + inner + ['/']) == inner
  {
    var dir := ['/'] + inner + ['/'];
    assert !("https://" <= dir) by { assert dir[0] == '/'; }
    assert Text.TrimPrefix(dir, "/") == inner + ['/'];
    assert Text.TrimSuffix(inner + ['/'], "/") == inner;
  }

  /** A rooted path "/<a>/<b>/<name>" names its third segment. */
  lemma RootedName(a: string, b: string, name: string)
    requires '/' !in a && '/' !in b && name != "" && '/' !in name
    ensures RouteOf("/" + a + "/" + b + "/" + name) == Lookup(name)
  {
    var rest := a + ['/'] + b + ['/'] + name;
    assert "/" + a + "/" + b + "/" + name == ['/'] + rest;
    assert rest[|rest| - 1] == name[|name| - 1];
    TrimRooted(rest);
    SplitThree(a, b, name, '/');
  }

  /** The directory "/<a>/<b>/" lists all agents. */
  lemma RootedDirectory(a: string, b: string)
    requires '/' !in a && '/' !in b
    ensures RouteOf("/" + a + "/" + b + "/") == ListAll
  {
    var inner := a + ['/'] + b;
    assert "/" + a + "/" + b + "/" == ['/'] + inner + ['/'];
    TrimDirectory(inner);
    SplitTwo(a, b, '/');
  }

  /** "/aidi/health/<name>" names the agent, and "/aidi/health/" lists all of them. */
  lemma HealthPaths(name: string)
    requires name != "" && '/' !in name
    ensures RouteOf("/aidi/health/" + name) == Lookup(name)
    ensures RouteOf("/aidi/health/") == ListAll
  {
    var a, b := "aidi", "health";
    assert '/' !in a && '/' !in b;
    assert "/aidi/health/" + name == "/" + a + "/" + b + "/" + name;
    RootedName(a, b, name);
    HealthDirectory();
  }

  lemma HealthDirectory()
    ensures RouteOf("/aidi/health/") == ListAll
  {
    var a, b := "aidi", "health";
    assert '/' !in a && '/' !in b;
    assert "/aidi/health/" == "/" + a + "/" + b + "/";
    RootedDirectory(a, b);
  }

  /** A request URI without '?' has no query, so it never asks for a long poll. */
  lemma NoQueryNoPoll(path: string)
    requires '?' !in path
    ensures PollValue(path) == ""
  {
    assert RawQuery(path) == "";
    assert Text.Join([""], '&') == "";
    Text.SplitJoin([""], '&');
  }

  /** A query that is the single piece poll=<v> gives the poll value v. */
  lemma PollOfQuery(path: string, v: string)
    requires '?' !in path && '&' !in v && ';' !in v
    ensures PollValue(path + "?poll=" + v) == v
  {
    var piece := "poll" + ['='] + v;
    assert path + "?poll=" + v == path + ['?'] + piece;
    Text.CutAt(path, piece, '?');
    assert '&' !in "poll";
    assert '&' !in piece;
    assert Text.Join([piece], '&') == piece;
    Text.SplitJoin([piece], '&');
    assert '=' !in "poll";
    Text.CutAt("poll", v, '=');
    assert ';' !in "poll";
    assert ';' !in piece;
  }

  /** "?poll=true" asks for a long poll. */
  lemma PollTrue(path: string)
    requires '?' !in path
    ensures PollValue(path + "?poll=true") == "true"
  {
    TrueIsPlain();
    PollOfQuery(path, "true");
    PollTrueQuery(path);
  }

  lemma TrueIsPlain()
    ensures '&' !in "true" && ';' !in "true"
  {
  }

  lemma PollTrueQuery(path: string)
    ensures path + "?poll=" + "true" == path + "?poll=true"
  {
    assert "?poll=" + "true" == "?poll=true";
    assert path + "?poll=" + "true" == path + ("?poll=" + "true");
  }

  /**
   End to end: after a poll cycle over agents with distinct names, a request
   for one agent's health returns exactly the record that cycle sent for it.
   */
  lemma LookupAfterPoll(statuses: seq<StatusRecord>, clients: seq<ClientInfo>, probes: seq<Server.Probe>, i: nat)
    requires |probes| == |clients| && i < |clients|
    requires ClientStore.UniqueNames(clients)
    requires clients[i].name != "" && '/' !in clients[i].name && '?' !in clients[i].name
    ensures ClientInfoHandler(Server.PingAll(statuses, clients, probes).store, "/aidi/health/" + clients[i].name, false) ==
      Reply(StatusOK, false, OneRecord(Server.PingAll(statuses, clients, probes).sent[i]))
  {
    var c := Server.PingAll(statuses, clients, probes);
    var name := clients[i].name;
    Server.PingAllCoversClients(statuses, clients, probes);
    PlainLookup(c.store, name, c.sent[i]);
  }

  /** "/aidi/health/<name>", with no query, answers the stored record for that name without polling. */
  lemma PlainLookup(statuses: seq<StatusRecord>, name: string, rec: StatusRecord)
    requires name != "" && '/' !in name && '?' !in name
    requires StatusStore.Find(statuses, name) == Success(rec)
    ensures ClientInfoHandler(statuses, "/aidi/health/" + name, false) == Reply(StatusOK, false, OneRecord(rec))
  {
    HealthPaths(name);
    HealthPathNoQuery(name);
    NoQueryNoPoll("/aidi/health/" + name);
    AnswerFound(statuses, name, "", rec);
  }

  lemma HealthPathNoQuery(name: string)
    requires '?' !in name
    ensures '?' !in "/aidi/health/" + name
  {
    assert '?' !in "/aidi/health/";
  }

  /** A one-agent route whose name has no record is answered 404, after the long poll when one was asked for. */
  lemma AnswerMissing(statuses: seq<StatusRecord>, name: string, pollValue: string, encodeFails: bool)
    requires name !in StatusStore.Names(statuses)
    ensures Answer(statuses, Lookup(name), pollValue, encodeFails) ==
      Reply(StatusNotFound, ShouldPoll(pollValue), ErrorText("could not find the requested client"))
  {
  }

  /** A one-agent route whose name has a record answers that record. */
  lemma AnswerFound(statuses: seq<StatusRecord>, name: string, pollValue: string, rec: StatusRecord)
    requires name != "" && StatusStore.Find(statuses, name) == Success(rec)
    ensures Answer(statuses, Lookup(name), pollValue, false) == Reply(StatusOK, ShouldPoll(pollValue), OneRecord(rec))
  {
  }

  /** A request for a name with no record is answered 404. */
  lemma UnknownAgentNotFound(statuses: seq<StatusRecord>, name: string, encodeFails: bool)
    requires name != "" && '/' !in name
    requires name !in StatusStore.Names(statuses)
    ensures ClientInfoHandler(statuses, "/aidi/health/" + name, encodeFails).status == StatusNotFound
  {
    HealthPaths(name);
  }

  // ---------------------------------------------------------------------------
  // The trimming the handler evidently intends

  /** The request URI up to its first '?': the path without the query. */
  function WithoutQuery(requestURI: string): (p: string)
    ensures '?' !in p
    ensures p == requestURI || p + ['?'] <= requestURI
  {
    var cut := Text.Cut(requestURI, '?');
    assert '?' in requestURI ==> cut.0 + ['?'] <= requestURI by {
      if '?' in requestURI {
        assert requestURI == (cut.0 + ['?']) + cut.1;
      }
    }
    cut.0
  }

  /** Trimming with the query dropped and both scheme trims applied in sequence. */
  function IntendedTrimmedPath(requestURI: string): string {
    var path := WithoutQuery(requestURI);
    var withoutScheme := Text.TrimPrefix(Text.TrimPrefix(path, "http://"), "https://");
    Text.TrimSuffix(Text.TrimPrefix(withoutScheme, "/"), "/")
  }

  function IntendedRouteOf(requestURI: string): Route {
    var segments := Text.Split(IntendedTrimmedPath(requestURI), '/');
    if |segments| > 3 then NotFoundPath
    else if |segments| == 3 then Lookup(segments[2])
    else ListAll
  }

  /**
   As written, a query on a one-agent path becomes part of the looked-up
   name: "/aidi/health/test?poll=true" looks up "test?poll=true".
   */
  lemma QueryInLookupName(name: string, query: string)
    requires name != "" && '/' !in name && '/' !in query
    ensures RouteOf("/aidi/health/" + name + "?" + query) == Lookup(name + "?" + query)
  {
    var full := name + "?" + query;
    assert '/' !in full by {
      forall k | 0 <= k < |full| ensures full[k] != '/' {
        if k < |name| { assert full[k] == name[k]; }
        else if k > |name| { assert full[k] == query[k - |name| - 1]; }
      }
    }
    assert "/aidi/health/" + name + "?" + query == "/aidi/health/" + full;
    HealthPaths(full);
  }

  /**
   As written, a query on the list-all path "/aidi/health/" becomes a name
   to look up: "/aidi/health/?poll=true" looks up "?poll=true".
   */
  lemma QueryOnDirectoryIsName(query: string)
    requires '/' !in query
    ensures RouteOf("/aidi/health/?" + query) == Lookup("?" + query)
  {
    var name := "?" + query;
    assert '/' !in name by {
      forall k | 0 <= k < |name| ensures name[k] != '/' {
        if k > 0 { assert name[k] == query[k - 1]; }
      }
    }
    assert "/aidi/health/?" + query == "/aidi/health/" + name;
    HealthPaths(name);
  }

  /** The literal pieces of "/aidi/health/?poll=true". */
  lemma PolledDirectoryUri()
    ensures "/aidi/health/" + "?poll=true" == "/aidi/health/?poll=true"
    ensures "/aidi/health/?" + "poll=true" == "/aidi/health/?poll=true"
    ensures "/aidi/health/" + "?" + "poll=true" == "/aidi/health/?poll=true"
    ensures "?" + "poll=true" == "?poll=true"
    ensures '?' !in "/aidi/health/" && '/' !in "poll=true"
  {
  }

  /**
   As written, a long-polled request for the whole store is answered 404
   after the long poll, unless some agent is literally named "?poll=true".
   */
  lemma PolledListAllNotFound(statuses: seq<StatusRecord>, encodeFails: bool)
    requires "?poll=true" !in StatusStore.Names(statuses)
    ensures ClientInfoHandler(statuses, "/aidi/health/?poll=true", encodeFails) ==
      Reply(StatusNotFound, true, ErrorText("could not find the requested client"))
  {
    PolledDirectoryUri();
    QueryOnDirectoryIsName("poll=true");
    PollTrue("/aidi/health/");
    AnswerMissing(statuses, "?poll=true", "true", encodeFails);
  }

  /** The absolute form "http://<host>/<a>/<b>" of the handler's own comment. */
  function AbsoluteUri(host: string, a: string, b: string): string {
    "http://" + host + "/" + a + "/" + b
  }

  /**
   As written, the absolute form is a bad path: only the "https://" trim is
   kept, so "http:" and an empty segment come first and there are five
   segments.
   */
  lemma SchemeTrimDiscarded(host: string, a: string, b: string)
    requires '/' !in host && '/' !in a && '/' !in b && b != ""
    ensures RouteOf(AbsoluteUri(host, a, b)) == NotFoundPath
  {
    var uri := AbsoluteUri(host, a, b);
    assert uri[4] == ':' && uri[0] == 'h';
    assert Text.TrimPrefix(uri, "https://") == uri;
    assert Text.TrimPrefix(uri, "/") == uri;
    assert Text.TrimSuffix(uri, "/") == uri by { assert uri[|uri| - 1] == b[|b| - 1]; }
    var tail := host + ['/'] + (a + ['/'] + b);
    assert uri == "http:" + ['/'] + ([] + ['/'] + tail);
    Text.SplitAround("http:", [] + ['/'] + tail, '/');
    Text.SplitAround([], tail, '/');
    Text.SplitAround(host, a + ['/'] + b, '/');
    Text.SplitAround(a, b, '/');
  }

  /** A query is cut off at its '?', and a path without '?' is kept whole. */
  lemma CutQuery(path: string, query: string)
    requires '?' !in path
    ensures WithoutQuery(path) == path
    ensures WithoutQuery(path + "?" + query) == path
  {
    assert path + "?" + query == path + ['?'] + query;
    Text.CutAt(path, query, '?');
  }

  /** On a rooted path the intended trimming, once the query is cut, agrees with the handler's. */
  lemma IntendedTrimRooted(path: string, query: string)
    requires path != [] && path[0] == '/' && '?' !in path
    ensures IntendedTrimmedPath(path) == TrimmedPath(path)
    ensures IntendedTrimmedPath(path + "?" + query) == TrimmedPath(path)
  {
    CutQuery(path, query);
    assert !("http://" <= path) && !("https://" <= path) by { assert path[0] == '/'; }
  }

  /**
   With the intended trimming, a one-agent path names the agent whether or
   not a query follows it.
   */
  lemma IntendedRouteIgnoresQuery(name: string, query: string)
    requires name != "" && '/' !in name && '?' !in name
    ensures IntendedRouteOf("/aidi/health/" + name) == Lookup(name)
    ensures IntendedRouteOf("/aidi/health/" + name + "?" + query) == Lookup(name)
  {
    var path := "/aidi/health/" + name;
    HealthPathNoQuery(name);
    IntendedTrimRooted(path, query);
    HealthPaths(name);
  }

  /** With the intended trimming, the absolute form loses its scheme and nothing else. */
  lemma IntendedTrimAbsolute(host: string, a: string, b: string)
    requires host != "" && a != "" && b != ""
    requires '/' !in host && '/' !in a && '/' !in b
    requires '?' !in host && '?' !in a && '?' !in b
    ensures IntendedTrimmedPath(AbsoluteUri(host, a, b)) == host + ['/'] + a + ['/'] + b
  {
    var rest := host + ['/'] + a + ['/'] + b;
    var uri := AbsoluteUri(host, a, b);
    assert uri == "http://" + rest;
    assert '?' !in rest;
    assert '?' !in uri;
    assert WithoutQuery(uri) == uri by {
      assert Text.FirstIndexOf(uri, '?').None?;
    }
    assert Text.TrimPrefix(uri, "http://") == rest;
    assert !("https://" <= rest) by {
      // the first place where `rest` and "https://" differ
      var k := if |host| >= 7 then 6 else if |host| == 6 then 7 else |host|;
      assert k < |rest| && rest[k] != "https://"[k];
    }
    assert !("/" <= rest) by { assert rest[0] == host[0]; }
    assert !Text.IsSuffix("/", rest) by { assert rest[|rest| - 1] == b[|b| - 1]; }
  }

  /** With the intended trimming, the absolute form names its last segment. */
  lemma IntendedRouteStripsScheme(host: string, a: string, b: string)
    requires host != "" && a != "" && b != ""
    requires '/' !in host && '/' !in a && '/' !in b
    requires '?' !in host && '?' !in a && '?' !in b
    ensures IntendedRouteOf(AbsoluteUri(host, a, b)) == Lookup(b)
  {
    IntendedTrimAbsolute(host, a, b);
    SplitThree(host, a, b, '/');
  }

  /** clientInfoHandler with the intended trimming: the query and either scheme are dropped before routing. */
  function IntendedClientInfoHandler(statuses: seq<StatusRecord>, requestURI: string, encodeFails: bool): Reply {
    Answer(statuses, IntendedRouteOf(requestURI), PollValue(requestURI), encodeFails)
  }

  /** With the intended trimming, a query on the list-all path still lists all. */
  lemma IntendedDirectoryIgnoresQuery(query: string)
    ensures IntendedRouteOf("/aidi/health/") == ListAll
    ensures IntendedRouteOf("/aidi/health/?" + query) == ListAll
  {
    PolledDirectoryUri();
    assert "/aidi/health/?" + query == "/aidi/health/" + "?" + query;
    IntendedTrimRooted("/aidi/health/", query);
    HealthDirectory();
  }

  /**
   With the intended trimming, "/aidi/health/?poll=true" long-polls and then
   lists the whole store.
   */
  lemma IntendedPolledListAll(statuses: seq<StatusRecord>)
    ensures IntendedClientInfoHandler(statuses, "/aidi/health/?poll=true", false) ==
      Reply(StatusOK, true, AllRecords(statuses))
  {
    PolledDirectoryUri();
    IntendedDirectoryIgnoresQuery("poll=true");
    PollTrue("/aidi/health/");
  }

  /**
   With the intended trimming, a long-polled request for one agent after a
   poll cycle over agents with distinct names returns the record that cycle
   sent for it, although the query is part of the request URI.
   */
  lemma IntendedPolledLookupAfterPoll(statuses: seq<StatusRecord>, clients: seq<ClientInfo>, probes: seq<Server.Probe>, i: nat)
    requires |probes| == |clients| && i < |clients|
    requires ClientStore.UniqueNames(clients)
    requires clients[i].name != "" && '/' !in clients[i].name && '?' !in clients[i].name
    ensures IntendedClientInfoHandler(Server.PingAll(statuses, clients, probes).store,
        "/aidi/health/" + clients[i].name + "?poll=true", false) ==
      Reply(StatusOK, true, OneRecord(Server.PingAll(statuses, clients, probes).sent[i]))
  {
    var c := Server.PingAll(statuses, clients, probes);
    Server.PingAllCoversClients(statuses, clients, probes);
    IntendedPolledLookup(c.store, clients[i].name, c.sent[i]);
  }

  /**
   With the intended trimming, "/aidi/health/<name>?poll=true" long-polls and
   answers the stored record for that name.
   */
  lemma IntendedPolledLookup(statuses: seq<StatusRecord>, name: string, rec: StatusRecord)
    requires name != "" && '/' !in name && '?' !in name
    requires StatusStore.Find(statuses, name) == Success(rec)
    ensures IntendedClientInfoHandler(statuses, "/aidi/health/" + name + "?poll=true", false) ==
      Reply(StatusOK, true, OneRecord(rec))
  {
    HealthPathNoQuery(name);
    PollTrue("/aidi/health/" + name);
    PollQuerySplit("/aidi/health/" + name);
    IntendedRouteIgnoresQuery(name, "poll=true");
    AnswerFound(statuses, name, "true", rec);
  }

  lemma PollQuerySplit(path: string)
    ensures path + "?poll=true" == path + "?" + "poll=true"
  {
    assert "?poll=true" == "?" + "poll=true";
    assert path + "?" + "poll=true" == path + ("?" + "poll=true");
  }
}
