# Simple web server with Apache-style request logging — a Dafny model

The system is a small static-file web server. Two parts of it are modelled here.

The first part is the request logger, `go-apachelog/apachelog.go`. It wraps any HTTP handler. For each request it:

- builds a per-request *record*: a proxy response writer that also holds the client address, the server port, the request line, the status and the byte count;
- hands that record to the wrapped handler;
- times the call;
- writes one log line in a variant of the Apache common log format, `ip:port - - [02/Jan/2006 15:04:05] "METHOD URI PROTO" status bytes seconds`, followed by a newline.

The second part is the server's own helpers in `simple_web_server.go`:

- the 32-bit linear congruential generator behind temporary file names (`nextSuffix`);
- the choice of temporary directory from `TMPDIR`, `TMP`, `TEMP` and `/tmp`;
- the bounded create-or-retry loop that picks a fresh temporary file name, reseeding after too many conflicts;
- the reading of the HTTP and HTTPS port lists from their comma-separated flags.

Modules:

- `Wrappers`: `Option`.
- `Text`: first and last index of a character, and `Split`/`Join` at a separator character with the semantics of Go's `strings.Split`. Their round trips are proved.
- `Decimal`: decimal rendering as done by `strconv.Itoa` and `%d`, zero padding, and parsing digits back.
- `HostPort`: a stand-in for `net.SplitHostPort` that follows the library's algorithm, together with its inverse `JoinHostPort`.
- `LogFormat`: the timestamp layout, the `%0.4f` seconds field and the whole log line.
- `ApacheLog`:
  - `getIP` and `getPort`;
  - the real response writer, `Transport`, which accepts as many bytes as it chooses;
  - the record class, `Record`, with `Write`, `WriteHeader` and `Log`;
  - the wrapped handler, given as a script of calls;
  - the logging handler, `Handler`.
- `WebServer`:
  - the generator, a `Generator` class holding the shared `randuint` state;
  - `TempDir`;
  - the retry loop, `TempFilename`, over a `FileSystem` class that answers exclusive creates;
  - the port-list selection.

External inputs are parameters:

- The clock is passed in. `Handler.ServeHTTP` takes the start and finish readings. The retry loop takes a function `clock` that gives the seed a reseed would read: `clock(2k)` when attempt `k` finds a zero state, and `clock(2k + 1)` when the conflict of attempt `k` reseeds.
- How many bytes the real writer accepts is chosen by `Transport.Write`. The model covers every choice that reports short writes as errors.
- Which paths exist, or cannot be created for another reason, is state of the `FileSystem` object.

## Model

| member | source | states |
|---|---|---|
| ApacheLog.Record.constructor | go-apachelog/apachelog.go:113-123 | A fresh record has status 200, byte count 0, the zero time and zero duration, carries the client address, port, method, URI and protocol it was given, and has forwarded nothing yet. |
| ApacheLog.Record.Write | go-apachelog/apachelog.go:84-88 | The bytes go to the real writer. The record's byte count grows by exactly the count the writer accepted, and nothing else in the record changes. It passes on the writer's answer: at most `len(p)` bytes, and an error on a short write. |
| ApacheLog.Record.WriteHeader | go-apachelog/apachelog.go:91-94 | The status is recorded and forwarded to the real writer, and nothing else in the record changes. The record stays consistent with what was forwarded: its status is the last one set, or 200 if none was, and its byte count is what the writer accepted. |
| ApacheLog.Record.Finish | go-apachelog/apachelog.go:129-130 | The record takes the finish wall time and the elapsed time. Nothing else in the record changes, and nothing is forwarded. |
| ApacheLog.Record.Log | go-apachelog/apachelog.go:77-81 | Appends exactly the formatted log line of the record's fields to the output stream. |
| ApacheLog.Handler.constructor | go-apachelog/apachelog.go:104-109 | The logging handler wraps the given handler and logs to the given stream. |
| ApacheLog.Handler.ServeHTTP | go-apachelog/apachelog.go:112-133 | The wrapped handler's calls reach the real writer, one answer per call and in order. The stream then gains exactly one line. That line reports the client address from `GetIP`, the port from `GetPort`, the finish wall time, the request line, the last status set (200 if none was), the bytes the writer accepted, and the finish-minus-start duration. |
| ApacheLog.ScriptedHandler.ServeHTTP | go-apachelog/apachelog.go:126 | The wrapped handler's calls go through the record in order. Each call gets one answer from the real writer, and the record stays consistent with what it forwarded. |
| ApacheLog.Transport.Write | go-apachelog/apachelog.go:85 | The real writer accepts some prefix of the bytes, of its own choosing, and reports an error whenever it accepts fewer than all of them. The write is recorded as one event. |
| ApacheLog.Transport.WriteHeader | go-apachelog/apachelog.go:93 | The real writer records the status it is sent as one event. |
| ApacheLog.Sink.Write | go-apachelog/apachelog.go:79 | The log's output stream accepts every line whole, appending it to what was written before. The logger drops write errors, so none are modelled. |
| ApacheLog.StatusAfterLastSet | go-apachelog/apachelog.go:91-94 | The logged status is the last one the handler set; body writes after it do not change it. |
| ApacheLog.StatusAfterNoneSet | go-apachelog/apachelog.go:121 | A handler that never sets a status is logged with 200. |
| ApacheLog.AcceptedBytesAppend | go-apachelog/apachelog.go:86 | Byte counts add up over consecutive runs of writes. |
| ApacheLog.AcceptedBytesMonotone | go-apachelog/apachelog.go:86 | The logged byte count never decreases as the handler writes more. |
| ApacheLog.AcceptedBytesDelivered | go-apachelog/apachelog.go:85-86 | The logged byte count equals the total length of the prefixes the real writer accepted. Bytes the writer buffers and later fails to flush still count, as in the source; the model has no peer. |
| ApacheLog.AcceptedBytesOfFullWrites | go-apachelog/apachelog.go:84-88 | When the writer accepts every write whole, the logged count is the total size of the bodies the handler wrote. |
| ApacheLog.AcceptedBytesBounded | go-apachelog/apachelog.go:84-88 | The logged count never exceeds the total size of what the handler wrote. |
| ApacheLog.GetIP | go-apachelog/apachelog.go:140-152 | An address that does not split into host and port is returned unchanged. Otherwise the host is returned, in brackets exactly when it contains ':'. |
| ApacheLog.GetIPOfPeer | go-apachelog/apachelog.go:140-152 | For every peer address a server reports, the logged IP is the host, bracketed exactly when it is an IPv6 literal. |
| ApacheLog.GetIPExampleV4 | go-apachelog/apachelog.go:137 | `127.0.0.1:36341` is logged as `127.0.0.1`. |
| ApacheLog.GetIPExampleV6 | go-apachelog/apachelog.go:138 | `[::1]:44092` is logged as `[::1]`. |
| ApacheLog.GetIPWithoutPort | go-apachelog/apachelog.go:141-144 | An address without ':' is an error for the splitter, so it is logged as it came. |
| ApacheLog.GetPort | go-apachelog/apachelog.go:154-165 | When the Host header splits into host and port, the port is the header's text after its last ':'. A header that does not split, including any header with no ':', gives "80" in clear and "443" over TLS. |
| ApacheLog.GetPortOfHeader | go-apachelog/apachelog.go:154-164 | A Host header that names a port yields that port, whatever the scheme. |
| ApacheLog.GetPortDefault | go-apachelog/apachelog.go:156-162 | A Host header with no ':' yields "443" over TLS and "80" otherwise, so it never gives an empty port. (A header ending in ':', such as `example.com:`, splits with an empty port and is logged with one.) |
| HostPort.SplitHostPort | go-apachelog/apachelog.go:141 | A successful split gives a host and a port free of brackets, with no ':' in the port, that rebuild the input with or without brackets around the host. The port is the text after the last ':'. An input without ':' is an error. |
| HostPort.SplitHostPortLastColon | go-apachelog/apachelog.go:155 | The port a successful split gives is the text after the input's last ':'. |
| HostPort.SplitJoinHostPort | go-apachelog/apachelog.go:141 | Splitting the host/port string a server builds gives back the host and the port, for IPv4 and IPv6 hosts alike. |
| LogFormat.FormatTime | go-apachelog/apachelog.go:78 | The timestamp is 20 characters long with one space between date and clock. |
| LogFormat.FormatTimeShape | go-apachelog/apachelog.go:78 | The layout is fixed-width: '/' at offsets 2 and 6, a space at 11, and ':' at 14 and 17. |
| LogFormat.ParseFormatTime | go-apachelog/apachelog.go:78 | The timestamp loses nothing: reading it back gives the same year, month, day, hour, minute and second. |
| LogFormat.ParseFormatDate | go-apachelog/apachelog.go:78 | The date half `02/Jan/2006` reads back as the same year, month and day. |
| LogFormat.ParseFormatClock | go-apachelog/apachelog.go:78 | The clock half `15:04:05` reads back as the same hour, minute and second. |
| LogFormat.FormatSeconds | go-apachelog/apachelog.go:61 | The `%0.4f` seconds field has at least six characters and holds no space and no newline. |
| LogFormat.FormatSecondsShape | go-apachelog/apachelog.go:61 | For a non-negative duration the seconds field is digits, a point and exactly four digits. Its value is the duration in ten-thousandths of a second, rounded. |
| LogFormat.FormatLine | go-apachelog/apachelog.go:61 | Every log line ends in a newline. |
| LogFormat.FormatLineIsOneLine | go-apachelog/apachelog.go:61 | Unless a request field itself holds a newline, the final newline is the line's only one. |
| LogFormat.FormatLineTrailer | go-apachelog/apachelog.go:61 | Whatever the request fields hold, the last three space-separated fields of a line are the status, the byte count and the seconds. The first two parse back as the numbers logged. |
| Decimal.IntToString | go-apachelog/apachelog.go:61 | The `%d` rendering of an integer is non-empty and holds no space and no newline. `ParseIntToString` proves it reads back as the same integer. |
| Decimal.NatToString | simple_web_server.go:103 | The `strconv.Itoa` rendering of a natural number is one or more decimal digits with no leading zero. `ParseNatToString` proves its value is the number. |
| Decimal.ParseIntToString | go-apachelog/apachelog.go:61 | The `%d` rendering of any integer parses back as that integer. |
| Decimal.NatToStringLeadingOne | simple_web_server.go:103 | Rendering 10^w + x, for x below 10^w, gives "1" followed by x zero-padded to w digits. |
| WebServer.Generator.constructor | simple_web_server.go:56 | The shared generator state starts at 0. |
| WebServer.Generator.NextSuffix | simple_web_server.go:94-104 | The state becomes one 32-bit wrapping step of the generator, from the current state or from the reseed when the state is 0. The result is the new state's suffix. |
| WebServer.Lcg | simple_web_server.go:100 | One step of the generator in wrapping 32-bit arithmetic. Every step flips the state's lowest bit. |
| WebServer.Suffix | simple_web_server.go:103 | The suffix of a state is exactly nine decimal digits. |
| WebServer.LcgRoundTrip | simple_web_server.go:100 | A step of the generator can be undone by multiplying by the inverse of 1664525 modulo 2^32. |
| WebServer.LcgInjective | simple_web_server.go:100 | Distinct states step to distinct states. |
| WebServer.LcgNoFixedPoint | simple_web_server.go:100 | A step always changes the state. |
| WebServer.SuffixDigits | simple_web_server.go:103 | A suffix is exactly nine decimal digits, whose value is the state modulo 10^9. |
| WebServer.SuffixOfRendering | simple_web_server.go:103 | Rendering 10^9 + r mod 10^9 and dropping the first character gives r's nine-digit suffix. |
| WebServer.TempDir | simple_web_server.go:66-75 | The directory is never empty. It is the first non-empty of TMPDIR, TMP and TEMP, and "/tmp" when all three are empty. |
| WebServer.JoinPath | simple_web_server.go:79 | A stand-in for `filepath.Join`. The joined path starts with the directory and ends with the file name, with exactly one '/' between them, added only when the directory does not already end in one. Its length is exactly the two parts plus that added separator, so nothing else is inserted. |
| WebServer.FileSystem.CreateExclusive | simple_web_server.go:80 | An exclusive create fails with "exists" exactly when the path exists, and fails otherwise only for a refused path. Only a successful create adds the path. |
| WebServer.Generator.TryName | simple_web_server.go:79-80 | One attempt draws the next suffix, names the candidate file for that attempt, and tries to create it exclusively. |
| WebServer.Generator.Conflict | simple_web_server.go:81-85 | A conflict is counted, and once there have been more than ten the generator is reseeded. |
| WebServer.Generator.TempFilename | simple_web_server.go:77-90 | Between 1 and 10000 attempts are made, every earlier one hitting an existing file. The name returned is the last attempt's candidate. That candidate did not exist unless all 10000 attempts conflicted. Exactly that file is created, unless it existed or was refused. The final generator state is the one prescribed for that run. |
| WebServer.NoReseedBeforeLimit | simple_web_server.go:82-84 | Up to the tenth conflict the loop never reseeds: its states are the generator's own chain. |
| WebServer.NextAttemptMoves | simple_web_server.go:78-85 | Below the conflict limit, the next attempt steps from the state the current one left. So unless that state is 0, the next name is drawn from a new state. |
| WebServer.SelectPorts | simple_web_server.go:194-204 | The default value gives the single default port and any other value is split at ','. Either way, the ports joined with ',' give the flag back. |
| WebServer.PortLists | simple_web_server.go:194-204 | The HTTP list uses the default "80" and the HTTPS list the default "443". Each list joins back to its flag. |
| WebServer.SelectPortsIsSplit | simple_web_server.go:194-204 | The special case for the default agrees with plain splitting, so every list is its flag split at ','. |
| WebServer.SelectPortsEmptyFlag | simple_web_server.go:194-204 | An empty flag gives a list of one empty port, not an empty list, as `strings.Split` does. |
| WebServer.SelectPortsTrailingComma | simple_web_server.go:194-204 | A trailing comma in a flag adds one empty port at the end of the list. |
| WebServer.SelectPortsOfJoin | simple_web_server.go:194-204 | A non-empty list of comma-free ports written as a flag is read back as the same list. |
| Text.Split | simple_web_server.go:197 | A stand-in for `strings.Split` at one separator character. There is always at least one piece, and no piece contains the separator. |
| Text.SplitEmpty | simple_web_server.go:197 | The empty string splits into one empty piece. |
| Text.SplitTrailing | simple_web_server.go:197 | A trailing separator ends one more piece, which is empty. |
| Text.Join | simple_web_server.go:197 | A stand-in for `strings.Join`, the inverse of the split. No pieces give the empty string. The first piece starts the result, and with two or more pieces the separator follows it. |
| Text.JoinSplit | simple_web_server.go:197 | Joining the pieces of a split with the separator gives the input back. |
| Text.SplitJoin | simple_web_server.go:197 | Splitting a join of separator-free pieces gives the pieces back. |

## Left out

- Certificate generation, the listeners, the signal handler, `cleanup`, the version string and flag parsing are not part of this model. They are I/O and process control. The port-list flags enter the model as their string values.
- The lock around the generator state is not modelled. The model is single-threaded, and concurrent logging handlers are not modelled.
- `reseed`, which reads the clock and the process id, is a parameter: the `reseed` argument of `NextSuffix` and the `clock` function of `TempFilename`.
- `time.Now` is a parameter as well, the two `Instant` readings of `Handler.ServeHTTP`. The wall time is given already broken into components, so time zones and calendar arithmetic are not modelled.
- LogFormat.FormatSeconds: the `%0.4f` rendering of the float64 seconds value is modelled as exact rounding, half up, of the nanosecond count to ten-thousandths. Float rounding of ties and of very long durations is not modelled.
- ApacheLog.ScriptedHandler.ServeHTTP: the wrapped handler is a fixed script of calls that sees neither the request nor the writer's answers. A handler that reacts to them is not modelled as such; each of its runs equals some script with the same writer answers, so the logged status and byte count are covered.
- ApacheLog.Record.Write: the byte count is an unbounded integer. The 64-bit wrap-around of `responseBytes` after 2^63 bytes is not modelled.
- ApacheLog.Handler.ServeHTTP: the wrapped handler and the real writer always return in the model. In the source a panic in the wrapped handler leaves `ServeHTTP` before `Log` is called, because nothing defers or recovers. Such a request gets no log line, while the model promises one line for every request.
- ApacheLog.Handler.ServeHTTP: the elapsed time is the unbounded difference of the two clock readings. The source's `time.Duration` is a 64-bit count of nanoseconds, and `Sub` saturates at its bounds. That saturation is not modelled.
- LogFormat.FormatTime: years are limited to 0 through 9999, where the layout's year field has four digits. From year 10000 on, the source prints five digits and the timestamp is longer than 20 characters. Those years are not modelled.
- Log write errors: the `Fprintf` error is dropped by the source. The output stream in the model always accepts the line.
- Only `Write` and `WriteHeader` are intercepted by the record. `Header` is promoted from the embedded response writer, so it reaches the real writer unrecorded, and it is not modelled. The record offers no hijack or flush interface, because embedding an interface promotes only that interface's own methods.
- HostPort.SplitHostPort is a stand-in for the library function, and `JoinPath` is a stand-in for `filepath.Join`. The stand-in joins with one '/' and does not clean `..` or repeated separators.
- ApacheLog.GetIP: with a splitter that never returns a host containing '[', the source's check that the host does not already start with '[' is always true. It is kept in the body, but no separate property is stated about it.
- WebServer.SelectPorts: the source's special case for the default value is redundant, since splitting "80" or "443" gives the same one-element list. `SelectPortsIsSplit` proves this.
- WebServer.FileSystem.CreateExclusive: the errors of an exclusive create other than "exists" are collapsed into one class of refused paths. The file is closed at once, and the mode 0600 is not modelled.
- WebServer.Generator.TempFilename: when all 10000 attempts conflict, the source returns the last name tried even though it exists. The model returns the same name and states that it existed.
