/**
 Requests are relayed between nodes inside the tunnels they serve, so a request can come back to
 a node. Each node writes its identifier in front of a header and refuses what already names it.
*/
module LoopGuard {
  import opened Wrappers

  /** The headers that a node reads or writes, and all others. */
  datatype HeaderName =
    | Connection | Host | Referer | Origin | Forwarded | XForwardedFor | XForwardedHost | XForwardedPort
    | XForwardedProto | XRealIp
    | Via                         // exposr-via
    | Other(name: string)

  type Headers = map<HeaderName, string>

  // ---------- splitting and trimming ----------

  /** The parts between commas; there is always at least one. */
  function Split(s: string): (parts: seq<string>)
    ensures parts != []
  {
    if s == "" then [""]
    else
      var rest := Split(s[1..]);
      if s[0] == ',' then [""] + rest else [[s[0]] + rest[0]] + rest[1..]
  }

  predicate Space(c: char)
  {
    '\t' <= c <= '\r' || c == ' ' || c == '\U{A0}' || c == '\U{1680}' || '\U{2000}' <= c <= '\U{200A}'
    || c in {'\U{2028}', '\U{2029}', '\U{202F}', '\U{205F}', '\U{3000}', '\U{FEFF}'}
  }

  function TrimStart(s: string): string
  {
    if s != "" && Space(s[0]) then TrimStart(s[1..]) else s
  }

  function TrimEnd(s: string): string
  {
    if s != "" && Space(s[|s| - 1]) then TrimEnd(s[..|s| - 1]) else s
  }

  function Trim(s: string): string
  {
    TrimEnd(TrimStart(s))
  }

  /** The identifier is among the trimmed parts of the header. */
  predicate Listed(via: string, id: string)
  {
    exists k :: 0 <= k < |Split(via)| && Trim(Split(via)[k]) == id
  }

  function AddVia(id: string, via: string): string
  {
    if via != "" then id + "," + via else id
  }

  function ViaOf(headers: Headers): (via: string)
    ensures via == if Via in headers then headers[Via] else ""
  {
    if Via in headers then headers[Via] else ""
  }

  /** Identifiers that survive splitting and trimming; a node's own is a hexadecimal digest. */
  predicate Plain(id: string)
  {
    ',' !in id && (id == "" || (!Space(id[0]) && !Space(id[|id| - 1])))
  }

  // ---------- one node ----------

  datatype Lookup = NoTunnelHost | UnknownTunnel | Tunnel(connected: bool, enabled: bool)

  datatype Outcome = Declined | Status(code: nat) | Forward(via: string)

  function Handle(id: string, lookup: Lookup, via: string): Outcome
  {
    match lookup
    case NoTunnelHost => Declined
    case UnknownTunnel => Status(404)
    case Tunnel(connected, enabled) =>
      if !connected then Status(503)
      else if !enabled then Status(403)
      else if Listed(via, id) then Status(508)
      else Forward(AddVia(id, via))
  }

  // ---------- the headers of a forwarded request ----------

  datatype BaseUrl = BaseUrl(host: string, port: string, scheme: string)

  /** A parsed URL; the host includes the port, and `path` is all that follows. */
  datatype Url = Url(protocol: string, host: string, path: string)

  type Parser = string -> Option<Url>

  /** A URL of the requested host is led to the target, any other URL is left alone, and a bare host is replaced. */
  function Rewritten(value: string, host: Option<string>, target: Url, parse: Parser, render: Url -> string): string
  {
    if !("http" <= value) then target.host
    else if parse(value).Some? && host == Some(parse(value).value.host)
    then render(Url(target.protocol, target.host, parse(value).value.path))
    else value
  }

  function Field(headers: Headers, h: HeaderName): (field: Option<string>)
    ensures h in headers ==> field == Some(headers[h])
    ensures h !in headers ==> field == None
  {
    if h in headers then Some(headers[h]) else None
  }

  /** The headers that name the requested host lead to the target, if that is a web server. */
  ghost predicate Redirected(headers: Headers, out: Headers, target: string, parse: Parser, render: Url -> string)
  {
    forall h :: h == Host || h == Referer || h == Origin ==>
      && (h in out <==> h in headers)
      && (h in headers ==>
            if target == "" || parse(target).None? || !("http" <= parse(target).value.protocol)
            then out[h] == headers[h]
            else
              var to, url := parse(target).value, parse(headers[h]);
              if !("http" <= headers[h]) then out[h] == to.host
              else if url.Some? && Host in headers && url.value.host == headers[Host]
              then out[h] == render(Url(to.protocol, to.host, url.value.path))
              else out[h] == headers[h])
  }

  /** The headers that name the requested host. */
  const NAMING := [Host, Referer, Origin]

  /**
   With a web server as the target, a host, referer or origin header that is no URL becomes the host of
   the target, and one that is a URL of the requested host becomes the target's with its own path.
   Everything else stays.
  */
  method RewriteHeaders(headers: Headers, target: string, parse: Parser, render: Url -> string) returns (out: Headers)
    ensures out.Keys == headers.Keys && Redirected(headers, out, target, parse, render)
    ensures forall h :: h != Host && h != Referer && h != Origin ==> Field(out, h) == Field(headers, h)
  {
    out := headers;
    var host := Field(headers, Host);
    if target == "" {
      return;
    }
    var to := parse(target);
    if to.None? || !("http" <= to.value.protocol) {
      return;
    }
    for k := 0 to |NAMING|
      invariant out.Keys == headers.Keys
      invariant forall h :: h in headers && h !in NAMING[..k] ==> out[h] == headers[h]
      invariant forall h :: h in headers && h in NAMING[..k] ==>
                  out[h] == Rewritten(headers[h], host, to.value, parse, render)
    {
      hide Rewritten;
      var h := NAMING[k];
      assert NAMING[..k + 1] == NAMING[..k] + [h] && h !in NAMING[..k];
      if h in out {
        out := out[h := Rewritten(out[h], host, to.value, parse, render)];
      }
    }
    assert NAMING[..|NAMING|] == [Host, Referer, Origin];
  }

  /** The client is told the base URL it asked for, and its connection header goes on with an upgrade alone. */
  predicate TellsBase(headers: Headers, out: Headers, clientIp: string, isUpgrade: bool, base: Option<BaseUrl>)
  {
    && Field(out, Connection) == (if isUpgrade then Field(headers, Connection) else None)
    && match base
       case Some(url) =>
         && Field(out, XForwardedHost) == Some(url.host) && Field(out, XForwardedProto) == Some(url.scheme)
         && Field(out, XForwardedPort) == (if url.port != "" then Some(url.port) else Field(headers, XForwardedPort))
         && Field(out, Forwarded) ==
            Some("by=_exposr;for=" + clientIp + ";host=" + url.host + ";proto=" + url.scheme)
       case None =>
         && Field(out, XForwardedHost) == Field(out, XForwardedProto) == None
         && Field(out, XForwardedPort) == Field(headers, XForwardedPort)
         && Field(out, Forwarded) == Field(headers, Forwarded)
  }

  lemma TellsBaseAlike(headers: Headers, common: Headers, told: Headers, out: Headers, clientIp: string,
                       isUpgrade: bool, base: Option<BaseUrl>)
    requires TellsBase(common, told, clientIp, isUpgrade, base)
    requires forall h :: h == Connection || h == XForwardedPort || h == Forwarded ==>
               Field(common, h) == Field(headers, h)
    requires forall h :: h in {Connection, XForwardedHost, XForwardedProto, XForwardedPort, Forwarded} ==>
               Field(out, h) == Field(told, h)
    ensures TellsBase(headers, out, clientIp, isUpgrade, base)
  {
    hide Field;
  }

  /** What a node that holds the tunnel itself tells its client. */
  method LocalHeaders(headers: Headers, clientIp: string, isUpgrade: bool, base: Option<BaseUrl>) returns (out: Headers)
    ensures forall h :: h !in {Connection, XForwardedHost, XForwardedProto, XForwardedPort, Forwarded} ==>
              Field(out, h) == Field(headers, h)
    ensures TellsBase(headers, out, clientIp, isUpgrade, base)
  {
    out := headers;
    if !isUpgrade {
      out := out - {Connection};
    }
    out := out - {XForwardedHost, XForwardedProto};
    if base.Some? {
      var url := base.value;
      out := out[XForwardedHost := url.host][XForwardedProto := url.scheme];
      if url.port != "" {
        out := out[XForwardedPort := url.port];
      }
      out := out[Forwarded := "by=_exposr;for=" + clientIp + ";host=" + url.host + ";proto=" + url.scheme];
    }
  }

  lemma RedirectedAlike(headers: Headers, told: Headers, out: Headers, target: string, parse: Parser,
                        render: Url -> string)
    requires forall h :: h == Host || h == Referer || h == Origin ==> Field(told, h) == Field(headers, h)
    ensures Redirected(told, out, target, parse, render) <==> Redirected(headers, out, target, parse, render)
  {
    forall h | h == Host || h == Referer || h == Origin
      ensures (h in told <==> h in headers) && (h in headers ==> told[h] == headers[h])
    {
      assert Field(told, h) == Field(headers, h);
    }
    hide Field;
  }

  /** What goes on to a client of this node: the base URL is told, and the requested host is replaced. */
  method ServedHeaders(headers: Headers, clientIp: string, isUpgrade: bool, base: Option<BaseUrl>, target: string,
                       parse: Parser, render: Url -> string) returns (out: Headers)
    ensures TellsBase(headers, out, clientIp, isUpgrade, base) && Redirected(headers, out, target, parse, render)
    ensures forall h: HeaderName :: h.Other? || h == Via || h == XForwardedFor || h == XRealIp ==>
              Field(out, h) == Field(headers, h)
  {
    hide Redirected, TellsBase, Field;
    var told := LocalHeaders(headers, clientIp, isUpgrade, base);
    out := RewriteHeaders(told, target, parse, render);
    RedirectedAlike(headers, told, out, target, parse, render);
    TellsBaseAlike(headers, headers, told, out, clientIp, isUpgrade, base);
  }

  /** The node writes itself in front of the via header, and says who its client is. */
  method PassingHeaders(headers: Headers, id: string, clientIp: string) returns (out: Headers)
    ensures Field(out, Via) == Some(if Via in headers && headers[Via] != "" then id + "," + headers[Via] else id)
    ensures Field(out, XForwardedFor) == Field(out, XRealIp) == Some(clientIp)
    ensures forall h :: h != Via && h != XForwardedFor && h != XRealIp ==> Field(out, h) == Field(headers, h)
  {
    out := headers[XForwardedFor := clientIp][XRealIp := clientIp];
    if Via in out && out[Via] != "" {
      out := out[Via := id + "," + out[Via]];
    } else {
      out := out[Via := id];
    }
  }

  /**
   The headers of the forwarded request. It goes on with this node in the via header and with the
   client's address. A node that does not hold the tunnel itself changes nothing else; one that does
   tells the base URL and rewrites the headers that name the requested host.
  */
  method RequestHeaders(headers: Headers, id: string, clientIp: string, local: bool, isUpgrade: bool,
                        base: Option<BaseUrl>, target: string, parse: Parser, render: Url -> string)
    returns (out: Headers)
    ensures Field(out, Via) == Some(AddVia(id, ViaOf(headers)))
    ensures Field(out, Via) == Some(if Via in headers && headers[Via] != "" then id + "," + headers[Via] else id)
    ensures Field(out, XForwardedFor) == Field(out, XRealIp) == Some(clientIp)
    ensures !local ==> forall h :: h != Via && h != XForwardedFor && h != XRealIp ==> Field(out, h) == Field(headers, h)
    ensures local ==> TellsBase(headers, out, clientIp, isUpgrade, base)
    ensures forall h: HeaderName :: h.Other? ==> Field(out, h) == Field(headers, h)
    ensures local ==> Redirected(headers, out, target, parse, render)
  {
    hide Redirected, TellsBase, Split, Field;
    out := PassingHeaders(headers, id, clientIp);
    if local {
      ghost var common := out;
      out := ServedHeaders(out, clientIp, isUpgrade, base, target, parse, render);
      RedirectedAlike(headers, common, out, target, parse, render);
      TellsBaseAlike(headers, common, out, out, clientIp, isUpgrade, base);
    }
  }

  /**
   A URL of the requested host leads to the target afterwards, with its own path, if the parser reads
   back what is printed for it; a URL of another host stays.
  */
  lemma RewritingLeadsToTarget(value: string, host: string, target: Url, parse: Parser, render: Url -> string)
    requires "http" <= value && parse(value).Some?
    requires var rewritten := Url(target.protocol, target.host, parse(value).value.path);
             parse(render(rewritten)) == Some(rewritten)
    ensures var before, after := parse(value).value, Rewritten(value, Some(host), target, parse, render);
            if before.host == host
            then parse(after).Some? && parse(after).value.host == target.host && parse(after).value.path == before.path
            else after == value
  {}

  // ---------- the header as a list of nodes ----------

  lemma {:induction false} SplitPlain(s: string)
    requires ',' !in s
    ensures Split(s) == [s]
  {
    if s != "" {
      assert s[0] in s && [s[0]] + s[1..] == s;
      SplitPlain(s[1..]);
    }
  }

  lemma {:induction false} SplitFirst(s: string, rest: string)
    requires ',' !in s
    ensures Split(s + "," + rest) == [s] + Split(rest)
  {
    var whole := s + "," + rest;
    if s == "" {
      assert whole[0] == ',' && whole[1..] == rest;
    } else {
      assert s[0] in s && [s[0]] + s[1..] == s;
      assert whole[0] == s[0] && whole[1..] == s[1..] + "," + rest;
      SplitFirst(s[1..], rest);
    }
  }

  lemma {:induction false} PartsHaveNoComma(s: string, k: nat)
    requires k < |Split(s)|
    ensures ',' !in Split(s)[k]
  {
    if s != "" {
      var rest := Split(s[1..]);
      if s[0] == ',' {
        if k > 0 { PartsHaveNoComma(s[1..], k - 1); }
      } else {
        PartsHaveNoComma(s[1..], k);
      }
    }
  }

  predicate AllSpace(s: string)
  {
    forall k :: 0 <= k < |s| ==> Space(s[k])
  }

  lemma {:induction false} TrimStartResult(s: string)
    ensures TrimStart(s) == "" || !Space(TrimStart(s)[0])
    ensures |TrimStart(s)| <= |s| && TrimStart(s) == s[|s| - |TrimStart(s)|..]
    ensures AllSpace(s[..|s| - |TrimStart(s)|])
  {
    if s != "" && Space(s[0]) {
      var rest := s[1..];
      TrimStartResult(rest);
      hide Space;
      var n := |rest| - |TrimStart(rest)|;
      forall k | 0 <= k <= n ensures Space(s[k]) {
        if k > 0 { assert rest[..n][k - 1] == s[k]; }
      }
    }
  }

  lemma {:induction false} TrimEndResult(s: string)
    ensures TrimEnd(s) == "" || !Space(TrimEnd(s)[|TrimEnd(s)| - 1])
    ensures |TrimEnd(s)| <= |s| && TrimEnd(s) == s[..|TrimEnd(s)|]
    ensures AllSpace(s[|TrimEnd(s)|..])
  {
    if s != "" && Space(s[|s| - 1]) {
      var front := s[..|s| - 1];
      TrimEndResult(front);
      hide Space;
      var n := |TrimEnd(front)|;
      forall k | n <= k < |s| ensures Space(s[k]) {
        if k < |front| { assert front[n..][k - n] == s[k]; }
      }
    }
  }

  /** Trimming takes the white space off both ends, and no more. */
  lemma TrimTakesSpace(s: string) returns (lead: string, tail: string)
    ensures s == lead + Trim(s) + tail && AllSpace(lead) && AllSpace(tail)
    ensures Trim(s) == "" || (!Space(Trim(s)[0]) && !Space(Trim(s)[|Trim(s)| - 1]))
  {
    var started := TrimStart(s);
    TrimStartResult(s);
    TrimEndResult(started);
    lead, tail := s[..|s| - |started|], started[|TrimEnd(started)|..];
  }

  /** Trimmed parts of a header are plain. */
  lemma TrimmedPartIsPlain(via: string, k: nat)
    requires k < |Split(via)|
    ensures Plain(Trim(Split(via)[k]))
  {
    var part := Split(via)[k];
    PartsHaveNoComma(via, k);
    TrimStartResult(part);
    TrimEndResult(TrimStart(part));
    hide TrimStart, TrimEnd, Split, Space;
  }

  lemma PlainIsTrimmed(id: string)
    requires Plain(id)
    ensures Trim(id) == id
  {}

  /** Adding a plain identifier lists it, and beside it exactly what was listed before. */
  lemma AddViaLists(id: string, via: string, other: string)
    requires Plain(id) && other != ""
    ensures Listed(AddVia(id, via), other) <==> other == id || Listed(via, other)
  {
    PlainIsTrimmed(id);
    SplitPlain(id);
    SplitFirst(id, via);
    var parts, prior := Split(AddVia(id, via)), Split(via);
    if via == "" {
      assert prior == [""] && Trim("") == "";
      assert parts[0] == id;
    } else {
      assert parts == [id] + prior;
      assert parts[0] == id;
      assert forall k :: 0 <= k < |prior| ==> parts[k + 1] == prior[k];
      assert forall k :: 0 < k < |parts| ==> parts[k] == prior[k - 1];
    }
  }

  /** The guard recognises what a node wrote, whatever header it wrote it to, exactly if its identifier is plain. */
  lemma GuardSeesOwnMark(id: string)
    ensures (forall via :: Listed(AddVia(id, via), id)) <==> Plain(id)
  {
    if Plain(id) {
      forall via ensures Listed(AddVia(id, via), id) {
        PlainIsTrimmed(id);
        SplitPlain(id);
        SplitFirst(id, via);
        assert Trim(Split(AddVia(id, via))[0]) == id;
      }
    } else if Listed(AddVia(id, ""), id) {
      var k :| 0 <= k < |Split(id)| && Trim(Split(id)[k]) == id;
      TrimmedPartIsPlain(id, k);
    }
  }

  // ---------- a request on its way ----------

  /** One node that a request passes, and what it finds for the host of the request. */
  datatype Hop = Hop(id: string, lookup: Lookup)

  /** Every node on the way forwards the request, with the via header that reached it. */
  predicate Relayed(hops: seq<Hop>, via: string)
  {
    hops == []
    || (Handle(hops[0].id, hops[0].lookup, via).Forward?
        && Relayed(hops[1..], Handle(hops[0].id, hops[0].lookup, via).via))
  }

  function ViaAfter(hops: seq<Hop>, via: string): string
  {
    if hops == [] then via else ViaAfter(hops[1..], AddVia(hops[0].id, via))
  }

  predicate PlainIds(hops: seq<Hop>)
  {
    forall k :: 0 <= k < |hops| ==> Plain(hops[k].id) && hops[k].id != ""
  }

  predicate Visits(hops: seq<Hop>, id: string)
  {
    exists k :: 0 <= k < |hops| && hops[k].id == id
  }

  /** The header lists exactly what it listed at first and the nodes on the way. */
  lemma {:induction false} HeaderIsTheWay(hops: seq<Hop>, via: string, id: string)
    requires PlainIds(hops) && id != ""
    ensures Listed(ViaAfter(hops, via), id) <==> Visits(hops, id) || Listed(via, id)
  {
    if hops != [] {
      AddViaLists(hops[0].id, via, id);
      HeaderIsTheWay(hops[1..], AddVia(hops[0].id, via), id);
      assert Visits(hops, id) <==> hops[0].id == id || Visits(hops[1..], id) by { VisitsFirst(hops, id); }
    }
  }

  /** The nodes on the way, the last one first. */
  function WayBack(hops: seq<Hop>): seq<string>
  {
    if hops == [] then [] else WayBack(hops[1..]) + [hops[0].id]
  }

  /** The parts of the header are the nodes on the way, the last one first, and then those of the first header. */
  lemma {:induction false} HeaderIsWayBack(hops: seq<Hop>, via: string)
    requires PlainIds(hops)
    ensures Split(ViaAfter(hops, via)) ==
            if via == "" && hops != [] then WayBack(hops) else WayBack(hops) + Split(via)
  {
    hide Split, AddVia, Space;
    if hops != [] {
      var id := hops[0].id;
      SplitAdded(id, via);
      HeaderIsWayBack(hops[1..], AddVia(id, via));
      if via != "" { assert WayBack(hops[1..]) + ([id] + Split(via)) == WayBack(hops) + Split(via); }
    }
  }

  lemma SplitAdded(id: string, via: string)
    requires Plain(id) && id != ""
    ensures AddVia(id, via) != "" && Split(AddVia(id, via)) == if via == "" then [id] else [id] + Split(via)
  {
    SplitPlain(id);
    SplitFirst(id, via);
    hide Split;
  }

  lemma VisitsFirst(hops: seq<Hop>, id: string)
    requires hops != []
    ensures Visits(hops, id) <==> hops[0].id == id || Visits(hops[1..], id)
  {
    assert forall k :: 0 <= k < |hops| - 1 ==> hops[1..][k] == hops[k + 1];
    if Visits(hops, id) && hops[0].id != id {
      var k :| 0 <= k < |hops| && hops[k].id == id;
      assert hops[1..][k - 1].id == id;
    }
  }

  /** A request is forwarded by each node at most once, whatever header it came with. */
  lemma {:induction false} ForwardedOnce(hops: seq<Hop>, via: string)
    requires Relayed(hops, via) && PlainIds(hops)
    ensures forall k :: 0 <= k < |hops| ==> !Listed(via, hops[k].id)
    ensures forall j, k :: 0 <= j < k < |hops| ==> hops[j].id != hops[k].id
  {
    if hops != [] {
      ForwardedOnce(hops[1..], AddVia(hops[0].id, via));
      forall k | 0 < k < |hops| ensures hops[k].id != hops[0].id && !Listed(via, hops[k].id) {
        assert hops[k] == hops[1..][k - 1];
        AddViaLists(hops[0].id, via, hops[k].id);
      }
      forall j, k | 0 < j < k < |hops| ensures hops[j].id != hops[k].id {
        assert hops[j] == hops[1..][j - 1] && hops[k] == hops[1..][k - 1];
      }
    }
  }

  lemma {:induction false} DistinctFit(hops: seq<Hop>, nodes: set<string>)
    requires forall k :: 0 <= k < |hops| ==> hops[k].id in nodes
    requires forall j, k :: 0 <= j < k < |hops| ==> hops[j].id != hops[k].id
    ensures |hops| <= |nodes|
  {
    if hops != [] {
      var n := |hops| - 1;
      DistinctFit(hops[..n], nodes - {hops[n].id});
    }
  }

  /** The number of forwards is at most the number of nodes that the first header does not list. */
  lemma ForwardsAreBounded(hops: seq<Hop>, via: string, nodes: set<string>)
    requires Relayed(hops, via) && PlainIds(hops)
    requires forall k :: 0 <= k < |hops| ==> hops[k].id in nodes
    ensures |hops| <= |set id | id in nodes && !Listed(via, id)| <= |nodes|
  {
    ForwardedOnce(hops, via);
    var absent := set id | id in nodes && !Listed(via, id);
    DistinctFit(hops, absent);
    assert absent <= nodes;
    SubsetFits(absent, nodes);
  }

  lemma SubsetFits(a: set<string>, b: set<string>)
    requires a <= b
    ensures |a| <= |b|
  {
    assert b == a + (b - a);
  }

  /**
   What the next node answers. A request that found no usable tunnel is answered the same whatever
   its header. Otherwise the guard refuses exactly a return to a node of the way, or to a node the
   first header named, and the request goes on in all other cases.
  */
  lemma LoopIsRefusedExactly(hops: seq<Hop>, via: string, id: string, lookup: Lookup, other: string)
    requires Relayed(hops, via) && PlainIds(hops) && id != ""
    ensures var outcome, seen := Handle(id, lookup, ViaAfter(hops, via)), Visits(hops, id) || Listed(via, id);
            if lookup == Tunnel(true, true) then
              (outcome == Status(508) <==> seen) && (outcome.Forward? <==> !seen)
            else
              && outcome == Handle(id, lookup, other) && outcome != Status(508) && !outcome.Forward?
              && (outcome == Declined <==> lookup == NoTunnelHost) &&
                   (outcome == Status(404) <==> lookup == UnknownTunnel)
              && (outcome == Status(503) <==> lookup.Tunnel? && !lookup.connected)
              && (outcome == Status(403) <==> lookup.Tunnel? && lookup.connected && !lookup.enabled)
  {
    HeaderIsTheWay(hops, via, id);
  }
}
