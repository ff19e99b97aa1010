/**
 * The card authorisation client: it renders a card's UID as lower-case
 * hexadecimal, posts it with the device's identifier to the authorisation
 * server over one HTTP/1.1 connection, waits a bounded time for the answer
 * and grants access when the response's status line carries `200`.
 *
 * The network is not modelled: a `Network` value says what the server does
 * during one exchange (whether it accepts the connection, what `millis()`
 * and `available()` answer while the client waits, and the bytes it sends
 * back), and `Client` stands for the Wi-Fi client object, recording what
 * was sent and whether the connection was stopped.
 */
module RfidAuth {
  import opened Platform
  import opened ArduinoString

  /** How long the client waits for the first response byte, in milliseconds. */
  const RESPONSE_TIMEOUT: u32 := 5000

  // ---------------------------------------------------------------------------
  // formatUID: bytes to lower-case hexadecimal, and back
  // ---------------------------------------------------------------------------

  /** One byte as exactly two lower-case hexadecimal digits. */
  function HexPair(b: byte): (r: string)
    ensures |r| == 2 && IsLowerHexDigit(r[0]) && IsLowerHexDigit(r[1])
    ensures DigitValue(r[0]) * 16 + DigitValue(r[1]) == b as int
    ensures r[0] == '0' <==> b < 0x10
  {
    [HexDigit(b as int / 16), HexDigit(b as int % 16)]
  }

  /** What `formatUID` returns for the bytes `bs`. */
  function HexString(bs: seq<byte>): (r: string)
    ensures |r| == 2 * |bs|
    ensures forall i :: 0 <= i < |r| ==> IsLowerHexDigit(r[i])
  {
    if bs == [] then [] else HexPair(bs[0]) + HexString(bs[1..])
  }

  /** The reading of a hexadecimal string, two digits per byte. */
  function ParseHex(s: string): (r: Option<seq<byte>>)
    ensures r.Some? ==> 2 * |r.value| == |s|
    decreases |s|
  {
    if s == [] then Some([])
    else if |s| == 1 || DigitValue(s[0]) < 0 || DigitValue(s[1]) < 0 then None
    else match ParseHex(s[2..])
      case None => None
      case Some(rest) => Some([(DigitValue(s[0]) * 16 + DigitValue(s[1])) as byte] + rest)
  }

  /** Reading back what `formatUID` wrote gives the original bytes. */
  lemma {:induction false} HexRoundTrip(bs: seq<byte>)
    ensures ParseHex(HexString(bs)) == Some(bs)
    decreases |bs|
  {
    if bs != [] {
      var s := HexString(bs);
      var p := HexPair(bs[0]);
      assert s[0] == p[0] && s[1] == p[1] && s[2..] == HexString(bs[1..]);
      assert (DigitValue(s[0]) * 16 + DigitValue(s[1])) as byte == bs[0];
      HexRoundTrip(bs[1..]);
      assert [bs[0]] + bs[1..] == bs;
    }
  }

  /** Different UIDs are never rendered alike. */
  lemma HexInjective(a: seq<byte>, b: seq<byte>)
    requires HexString(a) == HexString(b)
    ensures a == b
  {
    HexRoundTrip(a);
    HexRoundTrip(b);
  }

  /** Byte `i` is rendered at positions `2*i` and `2*i+1`, with a leading
      `0` exactly when it is below `0x10`. */
  lemma {:induction false} HexStringAt(bs: seq<byte>, i: nat)
    requires i < |bs|
    ensures HexString(bs)[2 * i .. 2 * i + 2] == HexPair(bs[i])
    ensures HexString(bs)[2 * i] == '0' <==> bs[i] < 0x10
    decreases i
  {
    if i > 0 {
      HexStringAt(bs[1..], i - 1);
      assert HexString(bs)[2 * i .. 2 * i + 2] == HexString(bs[1..])[2 * (i - 1) .. 2 * (i - 1) + 2];
    }
  }

  lemma {:induction false} HexStringSnoc(bs: seq<byte>, b: byte)
    ensures HexString(bs + [b]) == HexString(bs) + HexPair(b)
    decreases |bs|
  {
    if bs == [] {
      assert [b][1..] == [];
    } else {
      assert (bs + [b])[1..] == bs[1..] + [b];
      HexStringSnoc(bs[1..], b);
    }
  }

  /** The zero `formatUID` writes before a small byte, then `String(b, HEX)`,
      is the byte's two-digit rendering. */
  lemma PaddedHex(b: byte)
    ensures (if b < 0x10 then "0" else "") + Hex(b) == HexPair(b)
  {
  }

  /** `toLowerCase` leaves lower-case hexadecimal alone. */
  lemma LowerHexUnchanged(s: string)
    requires forall i :: 0 <= i < |s| ==> IsLowerHexDigit(s[i])
    ensures ToLowerCase(s) == s
  {
  }

  // ---------------------------------------------------------------------------
  // The request
  // ---------------------------------------------------------------------------

  /** The serialised JSON document `{"UUID": uuid, "content": content}`,
      written as a plain concatenation (no escaping). */
  function JsonBody(uuid: string, content: string): string {
    "{\"UUID\":\"" + uuid + "\",\"content\":\"" + content + "\"}"
  }

  /** The request, line by line. */
  const REQUEST_LINE: string := "POST / HTTP/1.1"
  const HOST_FIELD: string := "Host: "
  const CONTENT_TYPE: string := "Content-Type: application/json"
  const LENGTH_FIELD: string := "Content-Length: "
  const CONNECTION_CLOSE: string := "Connection: close"

  function RequestLines(host: string, json: string): seq<string> {
    [REQUEST_LINE,
     HOST_FIELD + host,
     CONTENT_TYPE,
     LENGTH_FIELD + Decimal(|json|),
     CONNECTION_CLOSE,
     "",
     json]
  }

  /** Lines each terminated by CR LF. */
  function CrLf(lines: seq<string>): string {
    if lines == [] then [] else lines[0] + "\r\n" + CrLf(lines[1..])
  }

  /** Every byte the client writes for one request, in the order of its
      `print` and `println` calls. */
  function Request(host: string, json: string): string {
    REQUEST_LINE + "\r\n"
    + HOST_FIELD + host + "\r\n"
    + CONTENT_TYPE + "\r\n"
    + LENGTH_FIELD + Decimal(|json|) + "\r\n"
    + CONNECTION_CLOSE + "\r\n"
    + "\r\n"
    + json + "\r\n"
  }

  /** Writing the line at `k` with its terminator moves it from the lines
      still to be written to the bytes written. */
  lemma AppendLine(before: string, after: string, lines: seq<string>, k: nat, total: string)
    requires k < |lines|
    requires before + CrLf(lines[k..]) == total
    requires after == before + lines[k] + "\r\n"
    ensures after + CrLf(lines[k + 1..]) == total
  {
    assert lines[k..][1..] == lines[k + 1..];
  }

  /** The request is its seven lines, each terminated by CR LF. */
  lemma RequestIsCrLf(host: string, json: string)
    ensures Request(host, json) == CrLf(RequestLines(host, json))
  {
    var ls := RequestLines(host, json);
    var total := CrLf(ls);
    assert ls[0..] == ls;
    var q0: string := [];
    var q1 := REQUEST_LINE + "\r\n";
    AppendLine(q0, q1, ls, 0, total);
    var q2 := q1 + HOST_FIELD + host + "\r\n";
    AppendLine(q1, q2, ls, 1, total);
    var q3 := q2 + CONTENT_TYPE + "\r\n";
    AppendLine(q2, q3, ls, 2, total);
    var q4 := q3 + LENGTH_FIELD + Decimal(|json|) + "\r\n";
    AppendLine(q3, q4, ls, 3, total);
    var q5 := q4 + CONNECTION_CLOSE + "\r\n";
    AppendLine(q4, q5, ls, 4, total);
    var q6 := q5 + "\r\n";
    AppendLine(q5, q6, ls, 5, total);
    var q7 := q6 + json + "\r\n";
    AppendLine(q6, q7, ls, 6, total);
    assert ls[7..] == [];
  }

  lemma Append3(a: string, b: string, c: string)
    ensures a + (b + c) == a + b + c
  {
  }

  predicate NoNewline(s: string) {
    forall i :: 0 <= i < |s| ==> s[i] != '\n'
  }

  // ---------------------------------------------------------------------------
  // Reading the response
  // ---------------------------------------------------------------------------

  /** `readStringUntil('\n')` on the bytes `rx`: the bytes before the first
      newline (all of them if there is none) and what remains after it. */
  function SplitLine(rx: string): (r: (string, string))
    ensures NoNewline(r.0)
    ensures rx != [] ==> |r.1| < |rx|
    ensures r.0 + (if |r.0| < |rx| then "\n" else "") + r.1 == rx
    decreases |rx|
  {
    if rx == [] then ([], [])
    else if rx[0] == '\n' then ([], rx[1..])
    else
      var (l, rest) := SplitLine(rx[1..]);
      ([rx[0]] + l, rest)
  }

  /** The successive results of `readStringUntil('\n')` until nothing is left. */
  function Lines(rx: string): seq<string>
    decreases |rx|
  {
    if rx == [] then [] else [SplitLine(rx).0] + Lines(SplitLine(rx).1)
  }

  lemma {:induction false} SplitLineAt(a: string, b: string)
    requires NoNewline(a)
    ensures SplitLine(a + "\n" + b) == (a, b)
    decreases |a|
  {
    if a != [] {
      assert (a + "\n" + b)[0] == a[0];
      assert (a + "\n" + b)[1..] == a[1..] + "\n" + b;
      assert NoNewline(a[1..]) by {
        forall i | 0 <= i < |a[1..]| ensures a[1..][i] != '\n' {
          assert a[1..][i] == a[i + 1];
        }
      }
      SplitLineAt(a[1..], b);
      assert [a[0]] + a[1..] == a;
    } else {
      assert a + "\n" + b == "\n" + b;
    }
  }

  /** Lines written with CR LF are read back, each with its trailing CR. */
  lemma {:induction false} LinesOfCrLf(lines: seq<string>)
    requires forall i :: 0 <= i < |lines| ==> NoNewline(lines[i])
    ensures Lines(CrLf(lines)) == seq(|lines|, i requires 0 <= i < |lines| => lines[i] + "\r")
    decreases |lines|
  {
    if lines != [] {
      var s := CrLf(lines);
      assert s == (lines[0] + "\r") + "\n" + CrLf(lines[1..]);
      SplitLineAt(lines[0] + "\r", CrLf(lines[1..]));
      LinesOfCrLf(lines[1..]);
    }
  }

  /** The request is seven CR LF terminated lines: the request line, the
      `Host`, `Content-Type`, `Content-Length` and `Connection` headers, the
      blank line that ends the header, and the body. A reader splitting it at
      newlines, as the client splits its response, finds the end of the header
      at the sixth line, the body right after it, and a `Content-Length` that
      reads back as the body's length. */
  lemma RequestFraming(host: string, json: string)
    requires NoNewline(host) && NoNewline(json)
    ensures var ls := Lines(Request(host, json));
      && |ls| == 7
      && (forall i :: 0 <= i < 7 ==> ls[i] == RequestLines(host, json)[i] + "\r")
      && HeaderLines(ls) == ls[..6]
      && ls[6] == json + "\r"
    ensures ParseDecimal(Decimal(|json|)) == Some(|json|)
  {
    var lines := RequestLines(host, json);
    RequestIsCrLf(host, json);
    RequestLinesOneEach(host, json);
    assert forall i :: 0 <= i < 5 ==> lines[i] != [];
    FramedLines(lines, 5);
    DecimalRoundTrip(|json|);
  }

  /** Lines without newlines, written with CR LF and read back, keep their
      order, and the header ends at the first blank one. */
  lemma FramedLines(lines: seq<string>, blank: nat)
    requires blank < |lines| && lines[blank] == []
    requires forall i :: 0 <= i < blank ==> lines[i] != []
    requires forall i :: 0 <= i < |lines| ==> NoNewline(lines[i])
    ensures var rs := Lines(CrLf(lines));
      && |rs| == |lines|
      && (forall i :: 0 <= i < |lines| ==> rs[i] == lines[i] + "\r")
      && HeaderLines(rs) == rs[..blank + 1]
  {
    LinesOfCrLf(lines);
    var rs := Lines(CrLf(lines));
    assert rs[blank] == "\r";
    assert forall i :: 0 <= i < blank ==> |rs[i]| > 1;
    HeaderOfPrefix(rs, blank);
  }

  /** None of the request's lines holds a newline of its own. */
  lemma RequestLinesOneEach(host: string, json: string)
    requires NoNewline(host) && NoNewline(json)
    ensures forall i :: 0 <= i < |RequestLines(host, json)| ==> NoNewline(RequestLines(host, json)[i])
  {
    var ls := RequestLines(host, json);
    NoNewlineConcat(HOST_FIELD, host);
    NoNewlineConcat(LENGTH_FIELD, Decimal(|json|));
  }

  lemma NoNewlineConcat(a: string, b: string)
    requires NoNewline(a) && NoNewline(b)
    ensures NoNewline(a + b)
  {
    forall k | 0 <= k < |a + b| ensures (a + b)[k] != '\n' {
      if k >= |a| {
        assert (a + b)[k] == b[k - |a|];
      }
    }
  }

  /** `HeaderLines` stops at the first `"\r"`. */
  lemma {:induction false} HeaderOfPrefix(lines: seq<string>, k: nat)
    requires k < |lines| && lines[k] == "\r"
    requires forall i :: 0 <= i < k ==> lines[i] != "\r"
    ensures HeaderLines(lines) == lines[..k + 1]
    decreases k
  {
    if k > 0 {
      HeaderOfPrefix(lines[1..], k - 1);
      assert lines[..k + 1] == [lines[0]] + lines[1..][..k];
    }
  }

  // ---------------------------------------------------------------------------
  // The status-line and header scan
  // ---------------------------------------------------------------------------

  predicate IsStatusLine(line: string) {
    StartsWith(line, "HTTP/1.1")
  }

  /** The test the client applies to a status line. */
  predicate Grants(line: string) {
    IndexOf(line, "200") > 0
  }

  /** The header loop, from a current verdict `authorized`: every status line
      sets the verdict, and a line `"\r"` ends the header. */
  function Scan(lines: seq<string>, authorized: bool): bool {
    if lines == [] then authorized
    else
      var a := if IsStatusLine(lines[0]) then Grants(lines[0]) else authorized;
      if lines[0] == "\r" then a else Scan(lines[1..], a)
  }

  /** The lines up to and including the first `"\r"` (all lines if there is none). */
  function HeaderLines(lines: seq<string>): (h: seq<string>)
    ensures |h| <= |lines| && h == lines[..|h|]
    ensures forall i :: 0 <= i < |h| - 1 ==> h[i] != "\r"
    ensures |h| < |lines| ==> |h| > 0 && h[|h| - 1] == "\r"
  {
    if lines == [] then []
    else if lines[0] == "\r" then [lines[0]]
    else [lines[0]] + HeaderLines(lines[1..])
  }

  /** The last status line among `lines`. */
  function LastStatusLine(lines: seq<string>): (r: Option<string>)
    ensures r.None? <==> forall i :: 0 <= i < |lines| ==> !IsStatusLine(lines[i])
    ensures r.Some? ==> exists i :: 0 <= i < |lines| && lines[i] == r.value && IsStatusLine(lines[i])
                                    && forall j :: i < j < |lines| ==> !IsStatusLine(lines[j])
  {
    if lines == [] then None
    else match LastStatusLine(lines[1..])
      case Some(l) => Some(l)
      case None => if IsStatusLine(lines[0]) then Some(lines[0]) else None
  }

  /** The scan's verdict is decided by the last status line of the header:
      it grants when that line has `200`, and without a status line the
      verdict it started with stands. */
  lemma {:induction false} ScanDecides(lines: seq<string>, authorized: bool)
    ensures Scan(lines, authorized) ==
      match LastStatusLine(HeaderLines(lines))
      case None => authorized
      case Some(l) => Grants(l)
  {
    if lines != [] && lines[0] != "\r" {
      var a := if IsStatusLine(lines[0]) then Grants(lines[0]) else authorized;
      ScanDecides(lines[1..], a);
      assert HeaderLines(lines)[1..] == HeaderLines(lines[1..]);
    }
  }

  /** A status line grants exactly when `200` occurs in it. */
  lemma GrantsMeans(line: string)
    requires IsStatusLine(line)
    ensures Grants(line) <==> exists k :: OccursAt(line, "200", k)
  {
    if exists k :: OccursAt(line, "200", k) {
      var k :| OccursAt(line, "200", k);
      assert line[0..3][0] == line[..8][0] == 'H';
      assert !OccursAt(line, "200", 0);
      assert IndexOf(line, "200") != -1;
    }
  }

  /** Nothing after the line that ends the header affects the verdict. */
  lemma {:induction false} ScanIgnoresBody(header: seq<string>, body: seq<string>, authorized: bool)
    requires forall i :: 0 <= i < |header| ==> header[i] != "\r"
    ensures Scan(header + ["\r"] + body, authorized) == Scan(header + ["\r"], authorized)
    decreases |header|
  {
    if header == [] {
      assert ([] + ["\r"] + body)[0] == "\r";
      assert [] + ["\r"] == ["\r"];
    } else {
      var a := if IsStatusLine(header[0]) then Grants(header[0]) else authorized;
      assert (header + ["\r"] + body)[1..] == header[1..] + ["\r"] + body;
      assert (header + ["\r"])[1..] == header[1..] + ["\r"];
      ScanIgnoresBody(header[1..], body, a);
    }
  }

  /** The client grants only if the header holds a status line with `200`. */
  lemma ScanGrantsOnly(lines: seq<string>)
    requires Scan(lines, false)
    ensures exists i :: 0 <= i < |HeaderLines(lines)| && IsStatusLine(lines[i]) && Grants(lines[i])
  {
    ScanDecides(lines, false);
  }

  /** A response whose status line holds no digit `2` (`403 Forbidden`,
      `404 Not Found`, `500 Internal Server Error`), followed by header fields
      that are not status lines, is refused whatever follows its header. */
  lemma RefusedWithoutTwo(status: string, fields: seq<string>, rest: seq<string>)
    requires forall i :: 0 <= i < |status| ==> status[i] != '2'
    requires forall i :: 0 <= i < |fields| ==> !IsStatusLine(fields[i]) && fields[i] != "\r"
    ensures !Scan([status] + fields + ["\r"] + rest, false)
  {
    forall k | 0 <= k && k + 3 <= |status| ensures !OccursAt(status, "200", k) {
      assert status[k..k + 3][0] == status[k];
    }
    assert !Grants(status);
    var lines := [status] + fields + ["\r"] + rest;
    var n := |fields| + 1;
    assert lines[0] == status && lines[n] == "\r";
    assert forall i :: 1 <= i < n ==> lines[i] == fields[i - 1];
    if status != "\r" {
      HeaderOfPrefix(lines, n);
      var header := HeaderLines(lines);
      ScanDecides(lines, false);
      assert forall i :: 0 < i < |header| ==> !IsStatusLine(header[i]);
    }
  }

  // ---------------------------------------------------------------------------
  // Waiting for the response
  // ---------------------------------------------------------------------------

  /** One turn of the wait loop: what `available()` answered and, when it
      answered nothing, what `millis()` read next. */
  datatype Poll = Poll(available: bool, millis: u32)

  /** What the server and the clock do during one exchange. */
  datatype Network = Network(
    accepts: bool,          // `connect` succeeds
    start: u32,             // `millis()` when the wait begins
    polls: seq<Poll>,       // the turns of the wait loop
    response: string)       // the bytes the server sends back

  /** A turn at which the wait loop leaves: data has arrived or time is up. */
  predicate Leaves(start: u32, p: Poll) {
    p.available || Elapsed(p.millis, start) > RESPONSE_TIMEOUT
  }

  /** The clock runs: the wait loop leaves at some turn. */
  predicate WaitEnds(net: Network) {
    exists i :: 0 <= i < |net.polls| && Leaves(net.start, net.polls[i])
  }

  /** The turn at which the wait loop leaves. */
  function WaitExit(start: u32, polls: seq<Poll>): (k: nat)
    requires exists i :: 0 <= i < |polls| && Leaves(start, polls[i])
    ensures k < |polls| && Leaves(start, polls[k])
    ensures forall j :: 0 <= j < k ==> !Leaves(start, polls[j])
  {
    if Leaves(start, polls[0]) then 0
    else
      var i :| 0 <= i < |polls| && Leaves(start, polls[i]);
      assert Leaves(start, polls[1..][i - 1]);
      1 + WaitExit(start, polls[1..])
  }

  /** The wait ends by the timeout, not by data. */
  predicate TimedOut(net: Network)
    requires WaitEnds(net)
  {
    !net.polls[WaitExit(net.start, net.polls)].available
  }

  /** The timeout fires exactly when more than `RESPONSE_TIMEOUT` ms pass
      with no data available. */
  lemma TimeoutMeans(net: Network)
    requires WaitEnds(net)
    ensures TimedOut(net) <==>
      exists k :: 0 <= k < |net.polls| && Elapsed(net.polls[k].millis, net.start) > RESPONSE_TIMEOUT
                  && forall j :: 0 <= j <= k ==> !net.polls[j].available
  {
    var e := WaitExit(net.start, net.polls);
    if !TimedOut(net) {
      forall k | 0 <= k < |net.polls| && Elapsed(net.polls[k].millis, net.start) > RESPONSE_TIMEOUT
        ensures exists j :: 0 <= j <= k && net.polls[j].available
      {
        if k < e {
          assert Leaves(net.start, net.polls[k]);
        }
        assert net.polls[e].available;
      }
    }
  }

  /** The verdict of one exchange. */
  predicate Granted(net: Network)
    requires net.accepts ==> WaitEnds(net)
  {
    net.accepts && !TimedOut(net) && Scan(Lines(net.response), false)
  }

  /** Every failure is a refusal: a refused connection, a server that stays
      silent past the timeout, or a response without a `200` status line. */
  lemma RefusalCases(net: Network)
    requires net.accepts ==> WaitEnds(net)
    ensures !net.accepts ==> !Granted(net)
    ensures net.accepts && (forall i :: 0 <= i < |net.polls| ==> !net.polls[i].available) ==> !Granted(net)
    ensures Granted(net) ==>
      exists i :: 0 <= i < |HeaderLines(Lines(net.response))|
                  && IsStatusLine(Lines(net.response)[i]) && Grants(Lines(net.response)[i])
  {
    if Granted(net) {
      ScanGrantsOnly(Lines(net.response));
    }
  }

  // ---------------------------------------------------------------------------
  // The Wi-Fi client and the authorisation object
  // ---------------------------------------------------------------------------

  /** The Wi-Fi client, as far as the exchange uses it. */
  class Client {
    /** A connection is established and not yet stopped. */
    var socketOpen: bool
    /** How many times `stop()` was called. */
    var stops: nat
    /** Every byte written, in order. */
    var sent: string
    /** Response bytes not yet read. */
    var unread: string

    constructor ()
      ensures !socketOpen && stops == 0 && sent == [] && unread == []
    {
      socketOpen := false;
      stops := 0;
      sent := [];
      unread := [];
    }

    /** `connect`: succeeds as the network says; the server's answer is then
        what the connection will deliver. */
    method Connect(host: string, port: int, net: Network) returns (ok: bool)
      modifies this
      ensures ok == net.accepts && socketOpen == ok
      ensures unread == (if ok then net.response else [])
      ensures sent == old(sent) && stops == old(stops)
    {
      ok := net.accepts;
      socketOpen := ok;
      unread := if ok then net.response else [];
    }

    method Print(s: string)
      modifies this`sent
      ensures sent == old(sent) + s
    {
      sent := sent + s;
    }

    method Println(s: string)
      modifies this`sent
      ensures sent == old(sent) + s + "\r\n"
    {
      sent := sent + s + "\r\n";
    }

    /** `connected()`: the server closes after its response, so the
        connection counts as up while unread bytes remain. */
    method Connected() returns (c: bool)
      ensures c == (socketOpen && unread != [])
    {
      c := socketOpen && unread != [];
    }

    method Available() returns (a: bool)
      ensures a == (unread != [])
    {
      a := unread != [];
    }

    method ReadStringUntilNewline() returns (line: string)
      modifies this`unread
      ensures (line, unread) == SplitLine(old(unread))
    {
      line, unread := SplitLine(unread).0, SplitLine(unread).1;
    }

    method Read() returns (c: char)
      requires unread != []
      modifies this`unread
      ensures [c] + unread == old(unread)
    {
      c := unread[0];
      unread := unread[1..];
    }

    method Stop()
      modifies this
      ensures !socketOpen && unread == []
      ensures stops == old(stops) + 1 && sent == old(sent)
    {
      socketOpen := false;
      unread := [];
      stops := stops + 1;
    }
  }

  class RFIDAuth {
    const serverAddress: string
    const serverPort: int
    const deviceUUID: string
    const client: Client

    constructor (server: string, port: int, uuid: string)
      ensures serverAddress == server && serverPort == port && deviceUUID == uuid
      ensures fresh(client) && !client.socketOpen && client.stops == 0 && client.sent == []
    {
      serverAddress := server;
      serverPort := port;
      deviceUUID := uuid;
      client := new Client();
    }

    /** `formatUID`: the first `size` bytes of the buffer, two lower-case
        hexadecimal digits each. */
    method FormatUid(uidBytes: UidBuffer, size: byte) returns (s: string)
      requires size as int <= |uidBytes|
      ensures s == HexString(uidBytes[..size])
      ensures |s| == 2 * size as int
      ensures forall i :: 0 <= i < |s| ==> IsLowerHexDigit(s[i])
    {
      var uidString := "";
      var i: byte := 0;
      while i < size
        invariant i <= size
        invariant uidString == HexString(uidBytes[..i])
      {
        if uidBytes[i] < 0x10 {
          uidString := uidString + "0";
        }
        uidString := uidString + Hex(uidBytes[i]);
        PaddedHex(uidBytes[i]);
        HexStringSnoc(uidBytes[..i], uidBytes[i]);
        assert uidBytes[..i + 1] == uidBytes[..i] + [uidBytes[i]];
        i := i + 1;
      }
      LowerHexUnchanged(uidString);
      uidString := ToLowerCase(uidString);
      return uidString;
    }

    /** The request framing of `checkCardAuthorization`. */
    method SendRequest(json: string)
      modifies client`sent
      ensures client.sent == old(client.sent) + Request(serverAddress, json)
    {
      ghost var s0 := client.sent;
      client.Println(REQUEST_LINE);
      ghost var acc := REQUEST_LINE + "\r\n";
      assert client.sent == s0 + acc;
      client.Print(HOST_FIELD);
      Append3(s0, acc, HOST_FIELD);
      acc := acc + HOST_FIELD;
      assert client.sent == s0 + acc;
      client.Println(serverAddress);
      Append3(s0, acc, serverAddress);
      acc := acc + serverAddress;
      Append3(s0, acc, "\r\n");
      acc := acc + "\r\n";
      assert client.sent == s0 + acc;
      client.Println(CONTENT_TYPE);
      Append3(s0, acc, CONTENT_TYPE);
      acc := acc + CONTENT_TYPE;
      Append3(s0, acc, "\r\n");
      acc := acc + "\r\n";
      assert client.sent == s0 + acc;
      client.Print(LENGTH_FIELD);
      Append3(s0, acc, LENGTH_FIELD);
      acc := acc + LENGTH_FIELD;
      assert client.sent == s0 + acc;
      client.Println(Decimal(|json|));
      Append3(s0, acc, Decimal(|json|));
      acc := acc + Decimal(|json|);
      Append3(s0, acc, "\r\n");
      acc := acc + "\r\n";
      assert client.sent == s0 + acc;
      client.Println(CONNECTION_CLOSE);
      Append3(s0, acc, CONNECTION_CLOSE);
      acc := acc + CONNECTION_CLOSE;
      Append3(s0, acc, "\r\n");
      acc := acc + "\r\n";
      assert client.sent == s0 + acc;
      client.Println("");
      assert client.sent == s0 + acc + "\r\n";
      Append3(s0, acc, "\r\n");
      acc := acc + "\r\n";
      assert client.sent == s0 + acc;
      client.Println(json);
      Append3(s0, acc, json);
      acc := acc + json;
      Append3(s0, acc, "\r\n");
      acc := acc + "\r\n";
      assert client.sent == s0 + acc;
    }

    /** The wait for the first response byte: `polls[i]` is the i-th turn of
        the loop. On a timeout the connection is stopped. */
    method AwaitResponse(net: Network) returns (arrived: bool)
      requires WaitEnds(net)
      modifies client
      ensures arrived == !TimedOut(net)
      ensures client.sent == old(client.sent)
      ensures arrived ==> client.socketOpen == old(client.socketOpen)
                          && client.unread == old(client.unread) && client.stops == old(client.stops)
      ensures !arrived ==> !client.socketOpen && client.stops == old(client.stops) + 1
    {
      var timeout := net.start;
      var i := 0;
      while !net.polls[i].available
        invariant 0 <= i <= WaitExit(net.start, net.polls)
        invariant client.socketOpen == old(client.socketOpen) && client.unread == old(client.unread)
        invariant client.sent == old(client.sent) && client.stops == old(client.stops)
        decreases WaitExit(net.start, net.polls) - i
      {
        if Elapsed(net.polls[i].millis, timeout) > RESPONSE_TIMEOUT {
          client.Stop();
          return false;
        }
        i := i + 1;
      }
      return true;
    }

    /** The header loop: read lines while the connection is up, let every
        status line set the verdict, and leave at the line `"\r"`. */
    method ReadHeaders() returns (authorized: bool)
      requires client.socketOpen
      modifies client`unread
      ensures authorized == Scan(Lines(old(client.unread)), false)
    {
      authorized := false;
      var more := client.Connected();
      while more
        invariant more == (client.unread != [])
        invariant Scan(Lines(old(client.unread)), false)
                  == if more then Scan(Lines(client.unread), authorized) else authorized
        decreases |client.unread|
      {
        ghost var rx := client.unread;
        var line := client.ReadStringUntilNewline();
        assert Lines(rx) == [line] + Lines(client.unread);
        if StartsWith(line, "HTTP/1.1") {
          authorized := IndexOf(line, "200") > 0;
        }
        if line == "\r" {
          break;
        }
        more := client.Connected();
      }
    }

    /** The body loop: every remaining byte is read, in order. */
    method ReadBody() returns (response: string)
      modifies client`unread
      ensures response == old(client.unread) && client.unread == []
    {
      response := "";
      var available := client.Available();
      while available
        invariant available == (client.unread != [])
        invariant response + client.unread == old(client.unread)
        decreases |client.unread|
      {
        var c := client.Read();
        response := response + [c];
        available := client.Available();
      }
    }

    /** `checkCardAuthorization`: one exchange with the server. */
    method CheckCardAuthorization(uid: Uid, net: Network) returns (authorized: bool)
      requires uid.size as int <= |uid.uidByte|
      requires net.accepts ==> WaitEnds(net)
      modifies client
      ensures authorized == Granted(net)
      ensures !client.socketOpen
      ensures client.stops == old(client.stops) + (if net.accepts then 1 else 0)
      ensures client.sent == old(client.sent)
        + (if net.accepts then Request(serverAddress, JsonBody(deviceUUID, HexString(uid.uidByte[..uid.size]))) else [])
    {
      var connected := client.Connect(serverAddress, serverPort, net);
      if !connected {
        return false;
      }

      var cardUID := FormatUid(uid.uidByte, uid.size);
      var jsonString := JsonBody(deviceUUID, cardUID);
      SendRequest(jsonString);

      var arrived := AwaitResponse(net);
      if !arrived {
        return false;
      }

      authorized := ReadHeaders();
      var response := ReadBody();

      client.Stop();
      return authorized;
    }
  }
}
