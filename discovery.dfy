/**
 * SSDPServer.datagramReceived of the hub-integrated camera: the answer to a
 * multicast M-SEARCH (UPnP Device Architecture 1.0, section 1.2.3). The
 * datagram is taken as already decoded text; the local address used in
 * LOCATION is a parameter (the result of determine_ip_for_host for the
 * requester).
 */
module Discovery {
  import opened Basics
  import opened Strings

  const Uuid := "d1c58eb4-9220-11e4-96fa-123b93f75cba"

  const Crlf := "\r\n"
  const BlankLine := "\r\n\r\n"

  /** The SEARCH_RESPONSE template with its four placeholders filled in order. */
  function SearchResponse(location: string, target: string, uuid: string, device: string): (r: string)
    ensures |r| == 117 + |location| + |target| + |uuid| + |device|
  {
    "HTTP/1.1 200 OK\r\nCACHE-CONTROL:max-age=30\r\nEXT:\r\nLOCATION:" + location
    + "\r\nSERVER:Linux, UPnP/1.0, Pi_Camera/1.0\r\nST:" + target
    + "\r\nUSN:uuid:" + uuid + "::" + device + "\r\n"
  }

  /** `'http://%s:%d/status' % (ip, status_port)`. */
  function StatusUrl(ip: string, port: nat): (u: string)
    ensures |u| == 15 + |ip| + |NatToString(port)|
    ensures u[..7] == "http://" && u[7..7 + |ip|] == ip && u[7 + |ip|] == ':' && u[|u| - 7..] == "/status"
    ensures u[8 + |ip|..|u| - 7] == NatToString(port)
  {
    var host := "http://" + ip + ":";
    var u := host + NatToString(port) + "/status";
    assert host[..7] == "http://" && host[7..7 + |ip|] == ip;
    assert u[..|host|] == host && host[7 + |ip|] == ':';
    assert u[|host|..|u| - 7] == NatToString(port);
    u
  }

  /** The echo of the ST value in a search response can be read back: different targets give different responses. */
  lemma SearchResponseInjective(location: string, t1: string, t2: string, uuid: string, device: string)
    requires SearchResponse(location, t1, uuid, device) == SearchResponse(location, t2, uuid, device)
    ensures t1 == t2
  {
    var head := "HTTP/1.1 200 OK\r\nCACHE-CONTROL:max-age=30\r\nEXT:\r\nLOCATION:" + location
      + "\r\nSERVER:Linux, UPnP/1.0, Pi_Camera/1.0\r\nST:";
    var h := |head|;
    assert |t1| == |t2|;
    assert SearchResponse(location, t1, uuid, device)[..h + |t1|] == head + t1;
    assert SearchResponse(location, t2, uuid, device)[..h + |t2|] == head + t2;
    assert (head + t1)[h..] == t1 && (head + t2)[h..] == t2;
  }

  /** The LOCATION of a responder names its status port: different ports give different URLs. */
  lemma StatusUrlInjective(ip: string, p1: nat, p2: nat)
    requires StatusUrl(ip, p1) == StatusUrl(ip, p2)
    ensures p1 == p2
  {
    NatToStringValue(p1);
    NatToStringValue(p2);
  }

  /** A UDP peer: `address[0]`, `address[1]`. */
  datatype Address = Address(host: string, port: int)

  /** The fields of an SSDPServer that datagramReceived reads. */
  datatype Responder = Responder(statusPort: nat, deviceTarget: string)

  /** Why a datagram produced no answer before the command was looked at. */
  datatype Fault =
    | NoSeparator                // `split('\r\n\r\n')` gave one piece: ValueError, caught, silent return
    | HeaderWithoutColon(line: string)   // `x[1]` of a one-piece split: uncaught IndexError
    | OneWordRequestLine(line: string)   // `cmd[1]` in the debug log call: uncaught IndexError

  /** The parsed request: the words of the request line and the header dictionary. */
  datatype Request = Request(command: seq<string>, headers: map<string, string>)

  /** A non-empty header line without any colon makes the dictionary build fail. */
  predicate Malformed(line: string) {
    line != "" && ':' !in line
  }

  /** Turning the first ": " into ":" neither creates nor removes the last colon. */
  lemma ColonSurvivesReplace(line: string)
    ensures ':' in ReplaceFirst(line, ": ", ":") <==> ':' in line
  {
    var x := ReplaceFirst(line, ": ", ":");
    match Find(line, ": ")
    case None =>
    case Some(i) =>
      assert line[i..i + 2][0] == line[i];
      assert x[i] == ':';
      if ':' in x {
        var j :| 0 <= j < |x| && x[j] == ':';
        if j > i { assert x[j] == line[j + 1]; } else if j < i { assert x[j] == line[j]; }
      }
  }

  /**
   * One header line: `replace(': ', ':', 1)`, then `split(':', 1)`, then the
   * name lower-cased. None when the line has no colon.
   */
  function HeaderField(line: string): (f: Option<(string, string)>)
    ensures f.Some? <==> ':' in line
  {
    var x := ReplaceFirst(line, ": ", ":");
    ColonSurvivesReplace(line);
    ContainsChar(x, ':');
    match Find(x, ":")
    case None => None
    case Some(i) => Some((Lower(x[..i]), x[i + 1..]))
  }

  /** `line` is a header line whose lower-cased name is `k`. */
  predicate Names(line: string, k: string) {
    line != "" && HeaderField(line).Some? && HeaderField(line).value.0 == k
  }

  /**
   * `dict((x[0].lower(), x[1]) for ...)` over the non-empty lines: a later
   * line with the same name overrides an earlier one; the first malformed
   * line raises.
   */
  function ParseHeaders(lines: seq<string>): (r: Result<map<string, string>, Fault>)
    ensures r.Err? ==> r.error.HeaderWithoutColon? && Malformed(r.error.line)
    decreases |lines|
  {
    if lines == [] then Ok(map[])
    else
      var init := ParseHeaders(lines[..|lines| - 1]);
      var line := lines[|lines| - 1];
      if init.Err? || line == "" then init
      else
        match HeaderField(line)
        case None => Err(HeaderWithoutColon(line))
        case Some(field) => Ok(init.value[field.0 := field.1])
  }

  /** `k` is bound to `v` by some line, and no later line names `k` again. */
  predicate LastBinding(lines: seq<string>, k: string, v: string) {
    exists i :: 0 <= i < |lines| && lines[i] != "" && HeaderField(lines[i]) == Some((k, v))
      && forall j :: i < j < |lines| ==> !Names(lines[j], k)
  }

  /** The dictionary build fails exactly when some non-empty line has no colon, and it reports the first one. */
  lemma {:induction false} ParseHeadersFails(lines: seq<string>)
    ensures ParseHeaders(lines).Err? <==> exists i :: 0 <= i < |lines| && Malformed(lines[i])
    ensures ParseHeaders(lines).Err? ==>
      exists i :: 0 <= i < |lines| && Malformed(lines[i]) && ParseHeaders(lines).error == HeaderWithoutColon(lines[i])
        && forall j :: 0 <= j < i ==> !Malformed(lines[j])
    decreases |lines|
  {
    if lines != [] {
      var n := |lines|;
      var init := lines[..n - 1];
      var line := lines[n - 1];
      ParseHeadersFails(init);
      if ParseHeaders(init).Err? {
        var i :| 0 <= i < |init| && Malformed(init[i]) && ParseHeaders(init).error == HeaderWithoutColon(init[i])
          && forall j :: 0 <= j < i ==> !Malformed(init[j]);
        assert init[i] == lines[i];
        forall j | 0 <= j < i ensures !Malformed(lines[j]) {
          assert lines[j] == init[j];
        }
      } else {
        forall j | 0 <= j < n - 1 ensures !Malformed(lines[j]) {
          assert lines[j] == init[j];
        }
        if Malformed(line) {
          assert ParseHeaders(lines) == Err(HeaderWithoutColon(line));
        }
      }
    }
  }

  /** On success, every non-empty line contributes its name as a key. */
  lemma {:induction false} ParseHeadersKeys(lines: seq<string>)
    requires ParseHeaders(lines).Ok?
    ensures forall i :: 0 <= i < |lines| && lines[i] != "" ==>
      HeaderField(lines[i]).Some? && HeaderField(lines[i]).value.0 in ParseHeaders(lines).value
    decreases |lines|
  {
    if lines != [] {
      var n := |lines|;
      var init := lines[..n - 1];
      var line := lines[n - 1];
      assert ParseHeaders(init).Ok?;
      ParseHeadersKeys(init);
      var m := ParseHeaders(lines).value;
      var m0 := ParseHeaders(init).value;
      assert m0.Keys <= m.Keys;
      forall i | 0 <= i < n && lines[i] != ""
        ensures HeaderField(lines[i]).Some? && HeaderField(lines[i]).value.0 in m
      {
        if i < n - 1 {
          assert lines[i] == init[i];
        }
      }
    }
  }

  /** A binding stays the last one when a line that does not name its key is appended. */
  lemma LastBindingExtend(init: seq<string>, line: string, k: string, v: string)
    requires LastBinding(init, k, v) && !Names(line, k)
    ensures LastBinding(init + [line], k, v)
  {
    var lines := init + [line];
    var i :| 0 <= i < |init| && init[i] != "" && HeaderField(init[i]) == Some((k, v))
      && forall j :: i < j < |init| ==> !Names(init[j], k);
    assert lines[i] == init[i];
    assert forall j :: i < j < |lines| ==> !Names(lines[j], k) by {
      forall j | i < j < |lines| ensures !Names(lines[j], k) {
        if j < |init| { assert lines[j] == init[j]; }
      }
    }
  }

  /** On success, each key holds the value of the last line that names it. */
  lemma {:induction false} ParseHeadersLastWins(lines: seq<string>)
    requires ParseHeaders(lines).Ok?
    ensures forall k :: k in ParseHeaders(lines).value ==> LastBinding(lines, k, ParseHeaders(lines).value[k])
    decreases |lines|
  {
    if lines != [] {
      var n := |lines|;
      var init := lines[..n - 1];
      assert lines == init + [lines[n - 1]];
      assert ParseHeaders(init).Ok?;
      ParseHeadersLastWins(init);
      LastWinsStep(init, lines[n - 1]);
    }
  }

  /** One more line keeps every key bound to its last binding. */
  lemma LastWinsStep(init: seq<string>, line: string)
    requires ParseHeaders(init).Ok? && ParseHeaders(init + [line]).Ok?
    requires forall k :: k in ParseHeaders(init).value ==> LastBinding(init, k, ParseHeaders(init).value[k])
    ensures forall k :: k in ParseHeaders(init + [line]).value ==>
      LastBinding(init + [line], k, ParseHeaders(init + [line]).value[k])
  {
    var lines := init + [line];
    assert lines[..|lines| - 1] == init;
    var r := ParseHeaders(init).value;
    var m := ParseHeaders(lines).value;
    if line == "" {
      assert m == r;
      forall k | k in m ensures LastBinding(lines, k, m[k]) {
        LastBindingExtend(init, line, k, r[k]);
      }
    } else {
      var (k', v') := HeaderField(line).value;
      assert m == r[k' := v'];
      forall k | k in m ensures LastBinding(lines, k, m[k]) {
        if k == k' {
          assert lines[|lines| - 1] == line;
        } else {
          LastBindingExtend(init, line, k, r[k]);
        }
      }
    }
  }

  /** `header.split('\r\n')` for the text before the first blank line (all of it when there is none). */
  function RequestLines(data: string): (lines: seq<string>)
    ensures |lines| >= 1
  {
    Split(Split(data, BlankLine)[0], Crlf)
  }

  /** Some header line, after the request line, is non-empty and colon-free. */
  predicate SomeMalformed(lines: seq<string>) {
    exists i :: 1 <= i < |lines| && Malformed(lines[i])
  }

  /** The header build over the lines after the request line fails exactly when some such line is malformed. */
  lemma HeadersFailTail(lines: seq<string>)
    requires |lines| >= 1
    ensures ParseHeaders(lines[1..]).Err? <==> SomeMalformed(lines)
  {
    var hl := lines[1..];
    ParseHeadersFails(hl);
    if SomeMalformed(lines) {
      var i :| 1 <= i < |lines| && Malformed(lines[i]);
      assert Malformed(hl[i - 1]);
    }
    if ParseHeaders(hl).Err? {
      var i :| 0 <= i < |hl| && Malformed(hl[i]);
      assert Malformed(lines[i + 1]);
    }
  }

  /**
   * Header block, request line, command words and headers, in the source's
   * order of failure: no blank line is silent, a malformed header line then
   * raises, and only then a request line without a space does.
   */
  function ParseDatagram(data: string): (r: Result<Request, Fault>)
    ensures r == Err(NoSeparator) <==> !Contains(data, BlankLine)
    ensures r.Err? && r.error.HeaderWithoutColon? <==> Contains(data, BlankLine) && SomeMalformed(RequestLines(data))
    ensures r == Err(OneWordRequestLine(RequestLines(data)[0])) <==>
      Contains(data, BlankLine) && !SomeMalformed(RequestLines(data)) && !Contains(RequestLines(data)[0], " ")
    ensures r.Ok? <==>
      Contains(data, BlankLine) && !SomeMalformed(RequestLines(data)) && Contains(RequestLines(data)[0], " ")
    ensures r.Ok? ==>
      |r.value.command| >= 2 && r.value.command == Split(RequestLines(data)[0], " ")
      && Join(r.value.command, " ") == RequestLines(data)[0]
      && ParseHeaders(RequestLines(data)[1..]).Ok? && r.value.headers == ParseHeaders(RequestLines(data)[1..]).value
  {
    if |Split(data, BlankLine)| < 2 then Err(NoSeparator)
    else
      var lines := RequestLines(data);
      var command := Split(lines[0], " ");
      HeadersFailTail(lines);
      match ParseHeaders(lines[1..])
      case Err(f) => Err(f)
      case Ok(headers) =>
        if |command| < 2 then Err(OneWordRequestLine(lines[0])) else Ok(Request(command, headers))
  }

  /** The `ST` value, or the empty string when the header is missing. */
  function SearchTarget(headers: map<string, string>): string {
    if "st" in headers then headers["st"] else ""
  }

  /** `cmd[0] == 'M-SEARCH' and cmd[1] == '*'`. */
  predicate IsSearchAll(req: Request)
    requires |req.command| >= 2
  {
    req.command[0] == "M-SEARCH" && req.command[1] == "*"
  }

  /** Everything datagramReceived can end in; only Replied writes to the socket. */
  datatype Outcome =
    | Dropped                            // no blank line: silent return
    | Raised(fault: Fault)               // IndexError escapes the handler
    | Ignored(verb: string, uri: string)
    | Unmatched(target: string)
    | Replied(payload: string, to: Address)

  /** The reply, if any, to one datagram. */
  function DatagramReceived(r: Responder, data: string, from: Address, localIp: string): (out: Outcome)
    ensures out.Dropped? <==> !Contains(data, BlankLine)
    // the two IndexErrors escape: the fault is the one parsing stopped at
    ensures out.Raised? <==> ParseDatagram(data).Err? && ParseDatagram(data).error != NoSeparator
    ensures out.Raised? ==> out.fault == ParseDatagram(data).error
    ensures out.Replied? <==>
      ParseDatagram(data).Ok? && IsSearchAll(ParseDatagram(data).value)
      && Contains(r.deviceTarget, SearchTarget(ParseDatagram(data).value.headers))
    ensures out.Replied? ==>
      out.to == from
      && out.payload == SearchResponse(StatusUrl(localIp, r.statusPort),
                                       SearchTarget(ParseDatagram(data).value.headers), Uuid, r.deviceTarget)
  {
    match ParseDatagram(data)
    case Err(NoSeparator) => Dropped
    case Err(f) => Raised(f)
    case Ok(req) =>
      var target := SearchTarget(req.headers);
      if IsSearchAll(req) then
        if Contains(r.deviceTarget, target) then
          Replied(SearchResponse(StatusUrl(localIp, r.statusPort), target, Uuid, r.deviceTarget), from)
        else Unmatched(target)
      else Ignored(req.command[0], req.command[1])
  }

  /** "Name: value" with a colon-free name parses to the lower-cased name and the exact value. */
  lemma HeaderFieldOfFormatted(name: string, value: string)
    requires ':' !in name
    ensures HeaderField(name + ": " + value) == Some((Lower(name), value))
  {
    var line := name + ": " + value;
    FindAfterFreePrefix(name, ": ", value);
    var x := ReplaceFirst(line, ": ", ":");
    assert line[..|name|] == name && line[|name| + 2..] == value;
    assert x == name + ":" + value;
    FindAfterFreePrefix(name, ":", value);
    assert x[..|name|] == name && x[|name| + 1..] == value;
  }

  /** Without a space right after the first colon, no ": " starts in the name or at that colon. */
  lemma NoColonSpaceBeforeValue(name: string, v: string)
    requires ':' !in name && !(|v| > 0 && v[0] == ' ')
    ensures forall j: nat :: j < |name| + 1 ==> !OccursAt((name + ":") + v, ": ", j)
  {
    var p := name + ":";
    forall j: nat | j < |p| ensures !OccursAt(p + v, ": ", j) {
      if j < |name| {
        assert p + v == name + (":" + v);
        NoOccurrenceBefore(name, ": ", ":" + v, j);
      } else if j + 2 <= |p + v| {
        assert (p + v)[j + 1] == v[0];
        assert (p + v)[j..j + 2][1] == (p + v)[j + 1];
      }
    }
  }

  /** ...so replacing it edits the value only. */
  lemma ReplaceAfterColon(name: string, v: string, line: string)
    requires ':' !in name && !(|v| > 0 && v[0] == ' ')
    requires line == name + ":" + v
    ensures ReplaceFirst(line, ": ", ":") == name + ":" + ReplaceFirst(v, ": ", ":")
  {
    NoColonSpaceBeforeValue(name, v);
    ReplaceFirstShift(name + ":", v, ": ", ":");
  }

  /**
   * What a line "name:v" really yields: a single space right after the first
   * colon is dropped; otherwise the space of the first ": " inside the value
   * is dropped instead.
   */
  lemma HeaderValueAfterColon(name: string, v: string)
    requires ':' !in name
    ensures HeaderField(name + ":" + v)
      == Some((Lower(name), if |v| > 0 && v[0] == ' ' then v[1..] else ReplaceFirst(v, ": ", ":")))
  {
    if |v| > 0 && v[0] == ' ' {
      assert name + ":" + v == name + ": " + v[1..];
      HeaderFieldOfFormatted(name, v[1..]);
    } else {
      var rv := ReplaceFirst(v, ": ", ":");
      var x := name + ":" + rv;
      ReplaceAfterColon(name, v, name + ":" + v);
      FindAfterFreePrefix(name, ":", rv);
      assert x[..|name|] == name && x[|name| + 1..] == rv;
    }
  }

  /** The request line a SmartThings hub sends. */
  const RequestLine := "M-SEARCH * HTTP/1.1"

  function FormatHeader(h: (string, string)): string {
    h.0 + ": " + h.1
  }

  /** A header that may travel beside ST: colon-free name other than ST, no carriage return anywhere. */
  predicate PlainHeader(h: (string, string)) {
    ':' !in h.0 && '\r' !in h.0 && '\r' !in h.1 && Lower(h.0) != "st"
  }

  function SearchLines(st: Option<string>, others: seq<(string, string)>): seq<string> {
    [RequestLine]
    + (if st.Some? then [FormatHeader(("ST", st.value))] else [])
    + seq(|others|, i requires 0 <= i < |others| => FormatHeader(others[i]))
  }

  /** An M-SEARCH datagram with an optional ST header, other headers and any body. */
  function SearchDatagram(st: Option<string>, others: seq<(string, string)>, body: string): string {
    Join(SearchLines(st, others), Crlf) + BlankLine + body
  }

  /** In CRLF-joined non-empty lines without CR, a CR is never followed two places later by another CR. */
  lemma {:induction false} JoinedLinesCr(lines: seq<string>)
    requires |lines| >= 1
    requires forall k :: 0 <= k < |lines| ==> lines[k] != "" && '\r' !in lines[k]
    ensures forall j :: 0 <= j < |Join(lines, Crlf)| && Join(lines, Crlf)[j] == '\r' ==>
      j + 2 < |Join(lines, Crlf)| && Join(lines, Crlf)[j + 2] != '\r'
  {
    if |lines| > 1 {
      var rest := Join(lines[1..], Crlf);
      JoinedLinesCr(lines[1..]);
      var s := Join(lines, Crlf);
      var p := |lines[0]| + 2;
      assert s == lines[0] + Crlf + rest;
      assert rest == Join(lines[1..], Crlf) && rest[..|lines[1]|] == lines[1] by {
        if |lines[1..]| > 1 { assert rest == lines[1] + Crlf + Join(lines[2..], Crlf); }
      }
      forall j | 0 <= j < |s| && s[j] == '\r' ensures j + 2 < |s| && s[j + 2] != '\r' {
        if j >= p {
          assert s[j] == rest[j - p] && s[j + 2 - p + p] == rest[j + 2 - p];
        } else if j == |lines[0]| {
          assert s[j + 2] == rest[0] == lines[1][0];
        }
      }
    }
  }

  lemma BlankLineAt(s: string, j: nat)
    requires OccursAt(s, BlankLine, j)
    ensures s[j] == '\r' && s[j + 2] == '\r'
  {
    assert s[j..j + 4][0] == s[j] && s[j..j + 4][2] == s[j + 2];
  }

  /** The header block of such lines ends at the first blank line that follows them. */
  lemma FindBlankLine(lines: seq<string>, body: string)
    requires |lines| >= 1
    requires forall k :: 0 <= k < |lines| ==> lines[k] != "" && '\r' !in lines[k]
    ensures Find(Join(lines, Crlf) + BlankLine + body, BlankLine) == Some(|Join(lines, Crlf)|)
  {
    var h := Join(lines, Crlf);
    var s := h + BlankLine + body;
    JoinedLinesCr(lines);
    assert s[|h|..|h| + 4] == BlankLine;
    forall j: nat | j < |h| ensures !OccursAt(s, BlankLine, j) {
      assert s[j] == h[j];
      if h[j] == '\r' {
        assert j + 2 < |h|;
        assert s[j + 2] == h[j + 2];
      }
      if OccursAt(s, BlankLine, j) {
        BlankLineAt(s, j);
      }
    }
    FindIsFirst(s, BlankLine, |h|);
  }

  /** Every line of an M-SEARCH built as above is non-empty and free of carriage returns. */
  lemma SearchLinesPlain(st: Option<string>, others: seq<(string, string)>)
    requires st.Some? ==> '\r' !in st.value
    requires forall k :: 0 <= k < |others| ==> PlainHeader(others[k])
    ensures var lines := SearchLines(st, others);
      |lines| >= 1 && forall k :: 0 <= k < |lines| ==> lines[k] != "" && '\r' !in lines[k]
  {
    var lines := SearchLines(st, others);
    var s := if st.Some? then 2 else 1;
    forall k | 0 <= k < |lines| ensures lines[k] != "" && '\r' !in lines[k] {
      if k >= s { assert lines[k] == FormatHeader(others[k - s]); }
    }
  }

  /** The words of the request line. */
  lemma RequestLineWords()
    ensures Split(RequestLine, " ") == ["M-SEARCH", "*", "HTTP/1.1"]
  {
    assert RequestLine == Join(["M-SEARCH", "*", "HTTP/1.1"], " ");
    SplitJoin(["M-SEARCH", "*", "HTTP/1.1"], " ");
  }

  /** Cutting such a datagram at the blank line and then at CRLF recovers its lines. */
  lemma SearchDatagramLines(st: Option<string>, others: seq<(string, string)>, body: string)
    requires st.Some? ==> '\r' !in st.value
    requires forall k :: 0 <= k < |others| ==> PlainHeader(others[k])
    ensures var parts := Split(SearchDatagram(st, others, body), BlankLine);
      |parts| >= 2 && Split(parts[0], Crlf) == SearchLines(st, others)
  {
    var lines := SearchLines(st, others);
    SearchLinesPlain(st, others);
    var header := Join(lines, Crlf);
    var data := header + BlankLine + body;
    FindBlankLine(lines, body);
    assert data[..|header|] == header;
    SplitJoin(lines, Crlf);
  }

  /** A plain header line yields a field whose name is not "st". */
  lemma OtherHeaderField(h: (string, string), line: string)
    requires PlainHeader(h) && line == FormatHeader(h)
    ensures line != "" && HeaderField(line).Some? && HeaderField(line).value.0 != "st"
  {
    HeaderFieldOfFormatted(h.0, h.1);
  }

  lemma SearchLineAt(st: Option<string>, others: seq<(string, string)>, k: nat)
    requires (if st.Some? then 1 else 0) <= k < |SearchLines(st, others)| - 1
    ensures SearchLines(st, others)[1..][k] == FormatHeader(others[k - (if st.Some? then 1 else 0)])
  {
  }

  lemma StHeaderField(st: Option<string>, others: seq<(string, string)>)
    requires st.Some?
    ensures var hl := SearchLines(st, others)[1..];
      |hl| >= 1 && hl[0] != "" && HeaderField(hl[0]) == Some(("st", st.value))
  {
    var hl := SearchLines(st, others)[1..];
    assert hl[0] == "ST" + ": " + st.value;
    assert Lower("ST") == "st";
    HeaderFieldOfFormatted("ST", st.value);
  }

  /** Each header line of such a datagram yields a field; only the ST line names "st". */
  lemma SearchHeaderFields(st: Option<string>, others: seq<(string, string)>)
    requires st.Some? ==> '\r' !in st.value
    requires forall k :: 0 <= k < |others| ==> PlainHeader(others[k])
    ensures var hl := SearchLines(st, others)[1..];
      var s := if st.Some? then 1 else 0;
      && |hl| == s + |others|
      && (forall k :: 0 <= k < |hl| ==> hl[k] != "" && HeaderField(hl[k]).Some?)
      && (forall k :: s <= k < |hl| ==> HeaderField(hl[k]).value.0 != "st")
      && (st.Some? ==> HeaderField(hl[0]) == Some(("st", st.value)))
  {
    var hl := SearchLines(st, others)[1..];
    var s := if st.Some? then 1 else 0;
    assert |hl| == s + |others|;
    forall k | s <= k < |hl| ensures hl[k] != "" && HeaderField(hl[k]).Some? && HeaderField(hl[k]).value.0 != "st" {
      SearchLineAt(st, others, k);
      OtherHeaderField(others[k - s], hl[k]);
    }
    if st.Some? {
      StHeaderField(st, others);
    }
  }

  /** The header lines of such a datagram parse, and "st" holds the ST value exactly when one was sent. */
  lemma SearchHeaders(st: Option<string>, others: seq<(string, string)>)
    requires st.Some? ==> '\r' !in st.value
    requires forall k :: 0 <= k < |others| ==> PlainHeader(others[k])
    ensures var hl := SearchLines(st, others)[1..];
      ParseHeaders(hl).Ok? && SearchTarget(ParseHeaders(hl).value) == if st.Some? then st.value else ""
  {
    var hl := SearchLines(st, others)[1..];
    var s := if st.Some? then 1 else 0;
    SearchHeaderFields(st, others);
    forall k | 0 <= k < |hl| ensures !Malformed(hl[k]) {
      assert HeaderField(hl[k]).Some?;
    }
    ParseHeadersFails(hl);
    assert ParseHeaders(hl).Ok?;
    var m := ParseHeaders(hl).value;
    ParseHeadersLastWins(hl);
    if "st" in m {
      StBinding(st, hl, m["st"]);
    }
    if st.Some? {
      ParseHeadersKeys(hl);
      assert hl[0] != "";
    }
  }

  /** Only the first line of the header lines names "st", so its value is the last binding of "st". */
  lemma StBinding(st: Option<string>, hl: seq<string>, v: string)
    requires var s := if st.Some? then 1 else 0;
      && (forall k :: s <= k < |hl| ==> HeaderField(hl[k]).Some? && HeaderField(hl[k]).value.0 != "st")
      && (st.Some? ==> |hl| >= 1 && HeaderField(hl[0]) == Some(("st", st.value)))
    requires LastBinding(hl, "st", v)
    ensures st.Some? && v == st.value
  {
    var s := if st.Some? then 1 else 0;
    var i :| 0 <= i < |hl| && hl[i] != "" && HeaderField(hl[i]) == Some(("st", v))
      && forall j :: i < j < |hl| ==> !Names(hl[j], "st");
    assert i < s;
  }

  /** Such a datagram parses to the three words of the request line and the parsed header lines. */
  lemma SearchDatagramParses(st: Option<string>, others: seq<(string, string)>, body: string)
    requires st.Some? ==> '\r' !in st.value
    requires forall k :: 0 <= k < |others| ==> PlainHeader(others[k])
    ensures var hl := SearchLines(st, others)[1..];
      ParseHeaders(hl).Ok? &&
      ParseDatagram(SearchDatagram(st, others, body)) == Ok(Request(["M-SEARCH", "*", "HTTP/1.1"], ParseHeaders(hl).value))
  {
    SearchDatagramLines(st, others, body);
    RequestLineWords();
    SearchHeaders(st, others);
  }

  /**
   * Discovery round trip: a well-formed M-SEARCH is answered exactly when its
   * ST value (empty when absent) occurs in the device target, and the answer
   * echoes that value to the requester.
   */
  lemma SearchDatagramAnswer(r: Responder, st: Option<string>, others: seq<(string, string)>,
                             body: string, from: Address, localIp: string)
    requires st.Some? ==> '\r' !in st.value
    requires forall k :: 0 <= k < |others| ==> PlainHeader(others[k])
    ensures var target := if st.Some? then st.value else "";
      DatagramReceived(r, SearchDatagram(st, others, body), from, localIp)
        == if Contains(r.deviceTarget, target)
           then Replied(SearchResponse(StatusUrl(localIp, r.statusPort), target, Uuid, r.deviceTarget), from)
           else Unmatched(target)
  {
    var hl := SearchLines(st, others)[1..];
    SearchDatagramParses(st, others, body);
    SearchHeaders(st, others);
    var req := Request(["M-SEARCH", "*", "HTTP/1.1"], ParseHeaders(hl).value);
    assert ParseDatagram(SearchDatagram(st, others, body)) == Ok(req);
    assert IsSearchAll(req);
  }

  /** A missing ST header means the empty target, which every device target contains. */
  lemma MissingTargetAnswered(r: Responder, others: seq<(string, string)>, body: string, from: Address, localIp: string)
    requires forall k :: 0 <= k < |others| ==> PlainHeader(others[k])
    ensures DatagramReceived(r, SearchDatagram(None, others, body), from, localIp)
      == Replied(SearchResponse(StatusUrl(localIp, r.statusPort), "", Uuid, r.deviceTarget), from)
  {
    SearchDatagramAnswer(r, None, others, body, from, localIp);
    ContainsEmpty(r.deviceTarget);
  }
}
