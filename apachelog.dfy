/**
 * The request logger: a handler wrapper that gives the wrapped handler a
 * recording proxy in place of the real response writer, times the call,
 * and writes one log line per request once the wrapped handler has returned.
 */
module ApacheLog {
  import opened Wrappers
  import opened HostPort
  import opened LogFormat
  import opened Text

  type Byte = b: int | 0 <= b < 256

  // ---------------------------------------------------------------------------
  // Client address and server port
  // ---------------------------------------------------------------------------

  /**
   * The client address for the log: the host part of the peer address, with
   * IPv6 hosts (those holding ':') in brackets; the peer address itself when
   * it does not split into host and port.
   */
  function GetIP(remoteAddr: string): (ip: string)
    ensures SplitHostPort(remoteAddr).None? ==> ip == remoteAddr
    ensures SplitHostPort(remoteAddr).Some? ==>
      var host := SplitHostPort(remoteAddr).value.0;
      ip == if ':' in host then "[" + host + "]" else host
  {
    match SplitHostPort(remoteAddr)
    case None => remoteAddr
    case Some((host, _)) =>
      if ':' in host then
        if host[0] != '[' then "[" + host + "]" else host
      else host
  }

  /**
   * The server port for the log: the port part of the Host header, or the
   * default port of the connection's scheme ("80" in clear, "443" over TLS)
   * when the header carries none, since default ports are left out of it.
   */
  function GetPort(host: string, tls: bool): (port: string)
    ensures SplitHostPort(host).Some? ==> port == host[LastIndexOf(host, ':') + 1..]
    ensures SplitHostPort(host).None? ==> port == if tls then "443" else "80"
    ensures ':' !in host ==> port == if tls then "443" else "80"
  {
    SplitHostPortLastColon(host);
    match SplitHostPort(host)
    case None => if tls then "443" else "80"
    case Some((_, p)) => p
  }

  /** For the address of any peer, the host is logged, and bracketed exactly when it is an IPv6 literal. */
  lemma GetIPOfPeer(host: string, port: string)
    requires Plain(host) && Plain(port) && ':' !in port
    ensures GetIP(JoinHostPort(host, port)) == if ':' in host then "[" + host + "]" else host
  {
    SplitJoinHostPort(host, port);
  }

  /** An IPv4 peer address, as a server sees it. */
  lemma GetIPExampleV4()
    ensures GetIP("127.0.0.1:36341") == "127.0.0.1"
  {
    var host, port := "127.0.0.1", "36341";
    assert ':' !in host && Plain(host) && Plain(port) && ':' !in port;
    assert "127.0.0.1:36341" == host + ":" + port;
    GetIPOfPeer(host, port);
  }

  /** An IPv6 peer address, as a server sees it: the host keeps its brackets. */
  lemma GetIPExampleV6()
    ensures GetIP("[::1]:44092") == "[::1]"
  {
    var host, port := "::1", "44092";
    assert host[0] == ':' && Plain(host) && Plain(port) && ':' !in port;
    assert "[::1]:44092" == JoinHostPort(host, port);
    GetIPOfPeer(host, port);
    LoopbackBracketed(host);
  }

  /** A proof step for GetIPExampleV6: the bracketed loopback host, compared apart from the splitting. */
  lemma LoopbackBracketed(host: string)
    requires host == "::1"
    ensures "[" + host + "]" == "[::1]"
  {
  }

  /** An address with no port separator cannot be split, so it is logged as it came. */
  lemma GetIPWithoutPort(remoteAddr: string)
    requires ':' !in remoteAddr
    ensures GetIP(remoteAddr) == remoteAddr
  {
  }

  /** A Host header that names a port yields that port, whatever the scheme. */
  lemma GetPortOfHeader(host: string, port: string, tls: bool)
    requires Plain(host) && Plain(port) && ':' !in port
    ensures GetPort(JoinHostPort(host, port), tls) == port
  {
    SplitJoinHostPort(host, port);
  }

  /** A Host header without a port (such as "example.com") yields the scheme's default port. */
  lemma GetPortDefault(host: string, tls: bool)
    requires ':' !in host
    ensures GetPort(host, tls) == (if tls then "443" else "80")
    ensures GetPort(host, tls) != ""
  {
  }

  // ---------------------------------------------------------------------------
  // What reaches the real response writer
  // ---------------------------------------------------------------------------

  /** One call that reached the real writer, with what the writer answered. */
  datatype Event =
    | HeaderSent(status: int)
    | BodySent(data: seq<Byte>, written: nat, failed: bool)

  /** A writer never reports more bytes than it was given, and reports a short write as an error. */
  predicate Honest(e: Event)
  {
    e.BodySent? ==> e.written <= |e.data| && (e.written < |e.data| ==> e.failed)
  }

  /** The status the record logs after these events: the last one set, 200 (OK) when none was. */
  function StatusAfter(events: seq<Event>): int
  {
    if events == [] then 200
    else if events[|events| - 1].HeaderSent? then events[|events| - 1].status
    else StatusAfter(events[..|events| - 1])
  }

  /** The number of bytes the writer accepted over these events. */
  function AcceptedBytes(events: seq<Event>): nat
  {
    if events == [] then 0
    else
      var last := events[|events| - 1];
      AcceptedBytes(events[..|events| - 1]) + (if last.BodySent? then last.written else 0)
  }

  /** The bytes the real writer accepted: the accepted prefix of every write, in order. */
  function Delivered(events: seq<Event>): seq<Byte>
    requires forall k :: 0 <= k < |events| ==> Honest(events[k])
  {
    if events == [] then []
    else
      var last := events[|events| - 1];
      assert Honest(last);
      Delivered(events[..|events| - 1]) + (if last.BodySent? then last.data[..last.written] else [])
  }

  /** Accepted counts add up over consecutive runs of events. */
  lemma {:induction false} AcceptedBytesAppend(a: seq<Event>, b: seq<Event>)
    ensures AcceptedBytes(a + b) == AcceptedBytes(a) + AcceptedBytes(b)
    decreases |b|
  {
    if b != [] {
      assert (a + b)[..|a + b| - 1] == a + b[..|b| - 1];
      AcceptedBytesAppend(a, b[..|b| - 1]);
    } else {
      assert a + b == a;
    }
  }

  /** The byte count never decreases as more events happen. */
  lemma AcceptedBytesMonotone(a: seq<Event>, b: seq<Event>)
    ensures AcceptedBytes(a) <= AcceptedBytes(a + b)
  {
    AcceptedBytesAppend(a, b);
  }

  /** The byte count is exactly the total length of the prefixes the real writer accepted. */
  lemma {:induction false} AcceptedBytesDelivered(events: seq<Event>)
    requires forall k :: 0 <= k < |events| ==> Honest(events[k])
    ensures |Delivered(events)| == AcceptedBytes(events)
  {
    if events != [] {
      AcceptedBytesDelivered(events[..|events| - 1]);
    }
  }

  /** The logged status is the last status set: no later event changes it unless it sets a status itself. */
  lemma {:induction false} StatusAfterLastSet(before: seq<Event>, status: int, after: seq<Event>)
    requires forall k :: 0 <= k < |after| ==> after[k].BodySent?
    ensures StatusAfter(before + [HeaderSent(status)] + after) == status
    decreases |after|
  {
    var all := before + [HeaderSent(status)] + after;
    if after == [] {
      assert all[|all| - 1] == HeaderSent(status);
    } else {
      assert all[|all| - 1] == after[|after| - 1];
      assert all[..|all| - 1] == before + [HeaderSent(status)] + after[..|after| - 1];
      StatusAfterLastSet(before, status, after[..|after| - 1]);
    }
  }

  /** With no status ever set, the logged status is 200 (OK). */
  lemma {:induction false} StatusAfterNoneSet(events: seq<Event>)
    requires forall k :: 0 <= k < |events| ==> events[k].BodySent?
    ensures StatusAfter(events) == 200
  {
    if events != [] {
      StatusAfterNoneSet(events[..|events| - 1]);
    }
  }

  /** The real response writer. How many bytes it accepts on each write is its own choice. */
  class Transport {
    var events: seq<Event>

    constructor ()
      ensures events == []
    {
      events := [];
    }

    method WriteHeader(status: int)
      modifies this
      ensures events == old(events) + [HeaderSent(status)]
    {
      events := events + [HeaderSent(status)];
    }

    /** Accepts some prefix of `p`; a short write comes with an error. */
    method Write(p: seq<Byte>) returns (written: nat, failed: bool)
      modifies this
      ensures written <= |p| && (written < |p| ==> failed)
      ensures events == old(events) + [BodySent(p, written, failed)]
    {
      written :| written <= |p|;
      failed :| written < |p| ==> failed;
      events := events + [BodySent(p, written, failed)];
    }
  }

  /** The output stream log lines go to; its write errors are dropped by the logger. */
  class Sink {
    var text: string

    constructor ()
      ensures text == ""
    {
      text := "";
    }

    method Write(s: string)
      modifies this
      ensures text == old(text) + s
    {
      text := text + s;
    }
  }

  // ---------------------------------------------------------------------------
  // The recording proxy
  // ---------------------------------------------------------------------------

  /**
   * The per-request record: the proxy handed to the wrapped handler in place
   * of the real writer, with the metadata the log line needs.
   */
  class Record {
    const writer: Transport
    var ip: string
    var port: string
    var time: DateTime
    var methodName: string
    var uri: string
    var protocol: string
    var status: int
    var responseBytes: int
    var elapsedTime: int

    /** What the writer had seen before this record forwarded anything. */
    ghost const before: seq<Event>
    /** What this record has forwarded to the writer, in order. */
    ghost var forwarded: seq<Event>

    /** The status is the last one forwarded (200 if none) and the byte count is what the writer accepted. */
    ghost predicate Valid()
      reads this, writer
    {
      && writer.events == before + forwarded
      && (forall k :: 0 <= k < |forwarded| ==> Honest(forwarded[k]))
      && status == StatusAfter(forwarded)
      && responseBytes == AcceptedBytes(forwarded)
    }

    /** The fields the log line reports. */
    function Fields(): Entry
      reads this
    {
      Entry(ip, port, time, methodName, uri, protocol, status, responseBytes, elapsedTime)
    }

    /** A fresh record: status 200, nothing written, zero time and duration. */
    constructor (rw: Transport, ip: string, port: string, methodName: string, uri: string, protocol: string)
      ensures Valid() && writer == rw && before == rw.events && forwarded == []
      ensures Fields() == Entry(ip, port, ZeroTime, methodName, uri, protocol, 200, 0, 0)
    {
      writer := rw;
      this.ip := ip;
      this.port := port;
      time := ZeroTime;
      this.methodName := methodName;
      this.uri := uri;
      this.protocol := protocol;
      status := 200;
      responseBytes := 0;
      elapsedTime := 0;
      before := rw.events;
      forwarded := [];
    }

    /** Forwards the bytes and adds the count the writer accepted; returns the writer's answer. */
    method Write(p: seq<Byte>) returns (written: nat, failed: bool)
      requires Valid()
      modifies this, writer
      ensures Valid()
      ensures written <= |p| && (written < |p| ==> failed)
      ensures forwarded == old(forwarded) + [BodySent(p, written, failed)]
      ensures Fields() == old(Fields()).(responseBytes := old(responseBytes) + written)
    {
      written, failed := writer.Write(p);
      responseBytes := responseBytes + written;
      forwarded := forwarded + [BodySent(p, written, failed)];
      AcceptedBytesAppend(old(forwarded), [BodySent(p, written, failed)]);
    }

    /** Records the status and forwards it; nothing else in the record changes. */
    method WriteHeader(s: int)
      requires Valid()
      modifies this, writer
      ensures Valid()
      ensures forwarded == old(forwarded) + [HeaderSent(s)]
      ensures Fields() == old(Fields()).(status := s)
    {
      status := s;
      writer.WriteHeader(s);
      forwarded := forwarded + [HeaderSent(s)];
      AcceptedBytesAppend(old(forwarded), [HeaderSent(s)]);
    }

    /** Stamps the finish time and the elapsed time; nothing forwarded changes. */
    method Finish(wall: DateTime, elapsed: int)
      requires Valid()
      modifies this
      ensures Valid() && forwarded == old(forwarded)
      ensures Fields() == old(Fields()).(time := wall, elapsedNanos := elapsed)
    {
      time := wall;
      elapsedTime := elapsed;
    }

    /** Writes the record as one formatted line to `out`. */
    method Log(out: Sink)
      modifies out
      ensures out.text == old(out.text) + FormatLine(Fields())
    {
      out.Write(FormatLine(Fields()));
    }
  }

  // ---------------------------------------------------------------------------
  // The wrapped handler and the logging handler
  // ---------------------------------------------------------------------------

  /** What the wrapped handler asks of its response writer. */
  datatype Call = SetStatus(code: int) | WriteBody(data: seq<Byte>)

  /** An event is the writer's answer to a call. */
  predicate Answers(c: Call, e: Event)
  {
    match c
    case SetStatus(code) => e == HeaderSent(code)
    case WriteBody(data) => e.BodySent? && e.data == data && Honest(e)
  }

  /** The events are the writer's answers to the calls, one each, in order. */
  predicate Realizes(calls: seq<Call>, events: seq<Event>)
  {
    |calls| == |events| && forall k :: 0 <= k < |calls| ==> Answers(calls[k], events[k])
  }

  /** The total size of the bodies the calls write. */
  function BodySize(calls: seq<Call>): nat
  {
    if calls == [] then 0
    else
      var last := calls[|calls| - 1];
      BodySize(calls[..|calls| - 1]) + (if last.WriteBody? then |last.data| else 0)
  }

  /** When the writer accepts every write whole, the byte count is the total body size. */
  lemma {:induction false} AcceptedBytesOfFullWrites(calls: seq<Call>, events: seq<Event>)
    requires Realizes(calls, events)
    requires forall k :: 0 <= k < |events| ==> events[k].BodySent? ==> events[k].written == |events[k].data|
    ensures AcceptedBytes(events) == BodySize(calls)
  {
    if calls != [] {
      AcceptedBytesOfFullWrites(calls[..|calls| - 1], events[..|events| - 1]);
    }
  }

  /** The byte count never exceeds the total size of what the handler wrote. */
  lemma {:induction false} AcceptedBytesBounded(calls: seq<Call>, events: seq<Event>)
    requires Realizes(calls, events)
    ensures AcceptedBytes(events) <= BodySize(calls)
  {
    if calls != [] {
      AcceptedBytesBounded(calls[..|calls| - 1], events[..|events| - 1]);
    }
  }

  /** The wrapped handler (in the server, the static file handler), given as the calls it makes. */
  class ScriptedHandler {
    const script: seq<Call>

    constructor (script: seq<Call>)
      ensures this.script == script
    {
      this.script := script;
    }

    /** Makes its calls, in order, on the writer it is given. */
    method ServeHTTP(w: Record)
      requires w.Valid()
      modifies w, w.writer
      ensures w.Valid()
      ensures |w.forwarded| == |old(w.forwarded)| + |script|
      ensures w.forwarded[..|old(w.forwarded)|] == old(w.forwarded)
      ensures Realizes(script, w.forwarded[|old(w.forwarded)|..])
      ensures w.Fields() == old(w.Fields()).(status := w.status, responseBytes := w.responseBytes)
    {
      ghost var start := w.forwarded;
      for k := 0 to |script|
        invariant w.Valid()
        invariant |w.forwarded| == |start| + k
        invariant w.forwarded[..|start|] == start
        invariant Realizes(script[..k], w.forwarded[|start|..])
        invariant w.Fields() == old(w.Fields()).(status := w.status, responseBytes := w.responseBytes)
      {
        ghost var was := w.forwarded;
        match script[k]
        case SetStatus(code) =>
          w.WriteHeader(code);
        case WriteBody(data) =>
          var _, _ := w.Write(data);
        assert w.forwarded == was + [w.forwarded[|was|]];
        assert w.forwarded[|start|..] == was[|start|..] + [w.forwarded[|was|]];
        assert script[..k + 1] == script[..k] + [script[k]];
      }
      assert script[..|script|] == script;
    }
  }

  /** The parts of an inbound request the logger reads. */
  datatype Request = Request(remoteAddr: string, host: string, methodName: string, requestURI: string,
                             proto: string, tls: bool)

  /** A clock reading: a monotonic count of nanoseconds and the wall-clock time it stands for. */
  datatype Instant = Instant(nanos: int, wall: DateTime)

  /** The logging handler: wraps a handler and writes one line per request to `out`. */
  class Handler {
    const inner: ScriptedHandler
    const out: Sink

    /** Wraps `h`, logging to `out`. */
    constructor (h: ScriptedHandler, out: Sink)
      ensures inner == h && this.out == out
    {
      inner := h;
      this.out := out;
    }

    /**
     * Serves one request: builds a fresh record, lets the wrapped handler
     * write through it exactly once, stamps the finish time and the elapsed
     * time, then appends exactly one log line describing the outcome.
     * `start` and `finish` are the clock readings before and after the wrapped call.
     */
    method ServeHTTP(rw: Transport, r: Request, start: Instant, finish: Instant) returns (record: Record)
      modifies rw, out
      ensures fresh(record) && record.writer == rw && record.Valid()
      ensures rw.events == old(rw.events) + record.forwarded
      ensures Realizes(inner.script, record.forwarded)
      ensures record.Fields() == Entry(GetIP(r.remoteAddr), GetPort(r.host, r.tls), finish.wall,
                                       r.methodName, r.requestURI, r.proto,
                                       StatusAfter(record.forwarded), AcceptedBytes(record.forwarded),
                                       finish.nanos - start.nanos)
      ensures out.text == old(out.text) + FormatLine(record.Fields())
      ensures start.nanos <= finish.nanos ==> record.elapsedTime >= 0
    {
      record := new Record(rw, GetIP(r.remoteAddr), GetPort(r.host, r.tls), r.methodName, r.requestURI, r.proto);
      inner.ServeHTTP(record);
      record.Finish(finish.wall, finish.nanos - start.nanos);
      assert record.forwarded[0..] == record.forwarded;
      record.Log(out);
    }
  }
}
