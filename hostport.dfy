/**
 * A stand-in for the standard library's host/port splitting (net.SplitHostPort)
 * and its inverse (net.JoinHostPort). The splitter follows the library's
 * documented algorithm: the port follows the last ':'; a host that starts
 * with '[' must be closed by the ']' just before that colon and is returned
 * without the brackets; an unbracketed host may not contain ':'; and no other
 * '[' or ']' may appear. Every other input is an error (None).
 */
module HostPort {
  import opened Wrappers
  import opened Text

  /** Free of the characters that have a role in a host/port string. */
  predicate Plain(s: string)
  {
    '[' !in s && ']' !in s
  }

  function SplitHostPort(hostport: string): (r: Option<(string, string)>)
    ensures r.Some? ==> Plain(r.value.0) && Plain(r.value.1) && ':' !in r.value.1
    ensures r.Some? ==>
      || hostport == r.value.0 + ":" + r.value.1
      || hostport == "[" + r.value.0 + "]:" + r.value.1
    ensures ':' !in hostport ==> r.None?
  {
    var i := LastIndexOf(hostport, ':');
    if i < 0 then None
    else if hostport[0] == '[' then
      var end := IndexOf(hostport, ']');
      if end < 0 || end + 1 != i then None
      else if '[' in hostport[1..] || ']' in hostport[end + 1..] then None
      else
        assert hostport == "[" + hostport[1..end] + "]:" + hostport[i + 1..];
        assert hostport[1..end] <= hostport[1..];
        Some((hostport[1..end], hostport[i + 1..]))
    else if ':' in hostport[..i] || !Plain(hostport) then None
    else
      assert hostport == hostport[..i] + ":" + hostport[i + 1..];
      Some((hostport[..i], hostport[i + 1..]))
  }

  /** The port a split gives is the text after the last ':'. */
  lemma SplitHostPortLastColon(hostport: string)
    ensures SplitHostPort(hostport).Some? ==>
      SplitHostPort(hostport).value.1 == hostport[LastIndexOf(hostport, ':') + 1..]
  {
  }

  /** The host/port string a server sees: IPv6 literals (hosts with ':') are bracketed. */
  function JoinHostPort(host: string, port: string): string
  {
    if ':' in host then "[" + host + "]:" + port else host + ":" + port
  }

  /** Splitting a joined host and port gives both back. */
  lemma SplitJoinHostPort(host: string, port: string)
    requires Plain(host) && Plain(port) && ':' !in port
    ensures SplitHostPort(JoinHostPort(host, port)) == Some((host, port))
  {
    if ':' in host {
      SplitBracketed(host, port);
    } else {
      SplitUnbracketed(host, port);
    }
  }

  lemma SplitBracketed(host: string, port: string)
    requires Plain(host) && Plain(port) && ':' !in port && ':' in host
    ensures SplitHostPort("[" + host + "]:" + port) == Some((host, port))
  {
    var s := "[" + host + "]:" + port;
    var close := |host| + 1;
    BracketedPieces(host, port);
    LastIndexOfAt(s, ':', close + 1);
    IndexOfAt(s, ']', close);
    SplitAtBrackets(s, close);
  }

  /** Where the pieces of a bracketed host/port string sit. */
  lemma BracketedPieces(host: string, port: string)
    ensures var s := "[" + host + "]:" + port;
      && |s| == |host| + |port| + 3
      && s[0] == '[' && s[|host| + 1] == ']' && s[|host| + 2] == ':'
      && s[..|host| + 1] == "[" + host
      && s[1..|host| + 1] == host
      && s[1..] == host + "]:" + port
      && s[|host| + 2..] == ":" + port
      && s[|host| + 3..] == port
  {
    var t := host + "]:" + port;
    assert "[" + host + "]:" + port == "[" + t;
    assert t[|host| + 1..] == ":" + port;
  }

  /** The bracketed branch of the splitter, once its searches are known. */
  lemma SplitAtBrackets(s: string, close: nat)
    requires close + 1 < |s| && s[0] == '['
    requires LastIndexOf(s, ':') == close + 1 && IndexOf(s, ']') == close
    requires '[' !in s[1..] && ']' !in s[close + 1..]
    ensures SplitHostPort(s) == Some((s[1..close], s[close + 2..]))
  {
  }

  lemma SplitUnbracketed(host: string, port: string)
    requires Plain(host) && Plain(port) && ':' !in port && ':' !in host
    ensures SplitHostPort(host + ":" + port) == Some((host, port))
  {
    var s := host + ":" + port;
    var i := |host|;
    assert s[i] == ':' && s[i + 1..] == port && s[..i] == host;
    LastIndexOfAt(s, ':', i);
    assert host == [] || host[0] != '[' by {
      if host != [] { assert host[0] in host; }
    }
    assert Plain(s) by {
      assert forall c :: c in s ==> c in host || c == ':' || c in port;
    }
  }
}
