/** `src/proxy.rs`: the one HTTP/1.1 response the redirect proxy writes back
    (`handle_connection`), and the framing that makes it a complete message: a status line
    (section 4 of RFC 9112), field lines ended by CRLF and an empty line (section 2.1 of
    RFC 9112), a `Content-Length` equal to the body's length in octets (section 8.6 of
    RFC 9110) and `Connection: close` (section 9.6 of RFC 9112). */
module Proxy {
  import opened Wrappers
  import Text

  type Byte = x: int | 0 <= x < 0x100

  type AsciiChar = c: char | c < 0x80 as char

  /** A character allowed in a status line or a field value: no CR and no LF. */
  type LineChar = c: char | c != '\r' && c != '\n'

  /** A character allowed in a field name here: no CR, LF, colon or space. */
  type NameChar = c: char | c != '\r' && c != '\n' && c != ':' && c != ' '

  /** The content type of PlayOnline markup, sent as the header and declared in the body. */
  const PmlContentType: seq<AsciiChar> := "text/x-playonline-pml;charset=UTF-8"

  // PML_BODY, in pieces short enough for the verifier to check each character is ASCII.
  const PmlHead: seq<AsciiChar> := "<pml><head><meta "
  const PmlEquiv: seq<AsciiChar> := "http-equiv=\"Content-Type\" "
  const PmlContentOpen: seq<AsciiChar> := "content=\""
  const PmlTitle: seq<AsciiChar> := "\"><title>Fast</title></head><body>"
  const PmlTimerName: seq<AsciiChar> := "<timer name=\"fast\" "
  const PmlTimerHref: seq<AsciiChar> := "href=\"gameto:1\" "
  const PmlTimerFlags: seq<AsciiChar> := "enable=\"1\" delay=\"0\">"
  const PmlClose: seq<AsciiChar> := "</body></pml>"

  /** `PML_BODY`: a timer that sends the client to `gameto:1` with no delay. */
  const PmlBody: seq<AsciiChar> :=
    PmlHead + PmlEquiv + PmlContentOpen + PmlContentType + PmlTitle
    + PmlTimerName + PmlTimerHref + PmlTimerFlags + PmlClose

  /** Number of octets in the UTF-8 encoding of `s` (Rust's `str::len`). */
  function Utf8Length(s: string): nat
  {
    if s == [] then 0
    else
      var c := s[0] as int;
      (if c < 0x80 then 1 else if c < 0x800 then 2 else if c < 0x1_0000 then 3 else 4)
      + Utf8Length(s[1..])
  }

  /** For ASCII text the octet count is the character count. */
  lemma {:induction false} AsciiUtf8Length(s: seq<AsciiChar>)
    ensures Utf8Length(s) == |s|
  {
    if s != [] {
      AsciiUtf8Length(s[1..]);
    }
  }

  predicate IsDigit(c: char)
  {
    '0' <= c <= '9'
  }

  /** The decimal rendering `format!("{}", n)` produces. */
  function DecimalString(n: nat): (s: string)
    ensures s != []
    ensures forall i :: 0 <= i < |s| ==> IsDigit(s[i])
  {
    var d := ['0' + (n % 10) as char];
    if n < 10 then d else DecimalString(n / 10) + d
  }

  function DigitsValue(s: string): nat
    requires forall i :: 0 <= i < |s| ==> IsDigit(s[i])
  {
    if s == [] then 0
    else
      assert IsDigit(s[|s| - 1]);
      DigitsValue(s[..|s| - 1]) * 10 + (s[|s| - 1] as int - '0' as int)
  }

  /** A `Content-Length` field value: one or more digits (section 8.6 of RFC 9110). */
  function ParseDecimal(s: string): Option<nat>
  {
    if s != [] && forall i :: 0 <= i < |s| ==> IsDigit(s[i]) then Some(DigitsValue(s)) else None
  }

  lemma {:induction false} DecimalRoundTrip(n: nat)
    ensures ParseDecimal(DecimalString(n)) == Some(n)
  {
    var s := DecimalString(n);
    if n < 10 {
      assert s[..|s| - 1] == [];
    } else {
      assert s[..|s| - 1] == DecimalString(n / 10);
      DecimalRoundTrip(n / 10);
      assert DigitsValue(s) == (n / 10) * 10 + n % 10;
    }
  }

  datatype Header = Header(name: seq<NameChar>, value: seq<LineChar>)

  /** A response: status line, field lines, body. */
  datatype Message = Message(statusLine: seq<LineChar>, headers: seq<Header>, body: string)

  function HeaderBlock(hs: seq<Header>): string
  {
    if hs == [] then [] else hs[0].name + ": " + hs[0].value + "\r\n" + HeaderBlock(hs[1..])
  }

  /** The octets of a message on the wire, as section 2.1 of RFC 9112 lays them out. */
  function Serialize(m: Message): string
  {
    m.statusLine + "\r\n" + HeaderBlock(m.headers) + "\r\n" + m.body
  }

  /** Index of the first CRLF in `s`, or `|s|` when there is none. */
  function FindCrlf(s: string): (k: nat)
    ensures k <= |s|
    ensures k < |s| ==> k + 1 < |s| && s[k] == '\r' && s[k + 1] == '\n'
  {
    if |s| < 2 then |s| else if s[0] == '\r' && s[1] == '\n' then 0 else 1 + FindCrlf(s[1..])
  }

  /** Index of the first colon in `s`, or `|s|` when there is none. */
  function FindColon(s: string): (k: nat)
    ensures k <= |s|
    ensures k < |s| ==> s[k] == ':'
    ensures forall i :: 0 <= i < k ==> s[i] != ':'
  {
    if s == [] then 0 else if s[0] == ':' then 0 else 1 + FindColon(s[1..])
  }

  /** Reads one field line `name: value`. */
  function ParseFieldLine(line: string): Option<Header>
  {
    var c := FindColon(line);
    if c == 0 || c + 1 >= |line| || line[c + 1] != ' ' then None
    else if !(forall i :: 0 <= i < c ==> line[i] != '\r' && line[i] != '\n' && line[i] != ' ') then None
    else if !(forall i :: c + 2 <= i < |line| ==> line[i] != '\r' && line[i] != '\n') then None
    else
      var name: seq<NameChar> := line[..c];
      var value: seq<LineChar> := line[c + 2..];
      Some(Header(name, value))
  }

  /** Reads field lines up to the empty line; gives them and what follows. */
  function ParseHeaders(s: string): Option<(seq<Header>, string)>
    decreases |s|
  {
    if |s| >= 2 && s[0] == '\r' && s[1] == '\n' then Some(([], s[2..]))
    else
      var k := FindCrlf(s);
      if k == |s| then None
      else
        match ParseFieldLine(s[..k])
        case None => None
        case Some(h) =>
          match ParseHeaders(s[k + 2..])
          case None => None
          case Some((hs, body)) => Some(([h] + hs, body))
  }

  /** Splits a response into status line, field lines and body. */
  function Parse(s: string): Option<Message>
  {
    var k := FindCrlf(s);
    if k == |s| || !(forall i :: 0 <= i < k ==> s[i] != '\r' && s[i] != '\n') then None
    else
      var statusLine: seq<LineChar> := s[..k];
      match ParseHeaders(s[k + 2..])
      case None => None
      case Some((hs, body)) => Some(Message(statusLine, hs, body))
  }

  lemma {:induction false} FindCrlfAt(x: string, y: string)
    requires forall i :: 0 <= i < |x| ==> x[i] != '\r'
    ensures FindCrlf(x + "\r\n" + y) == |x|
  {
    if x != [] {
      assert (x + "\r\n" + y)[1..] == x[1..] + "\r\n" + y;
      FindCrlfAt(x[1..], y);
    }
  }

  lemma {:induction false} FindColonAt(x: seq<NameChar>, y: string)
    ensures FindColon(x + ":" + y) == |x|
  {
    if x != [] {
      assert (x + ":" + y)[1..] == x[1..] + ":" + y;
      FindColonAt(x[1..], y);
    }
  }

  lemma ParseFieldLineOf(h: Header)
    requires h.name != []
    ensures ParseFieldLine(h.name + ": " + h.value) == Some(h)
  {
    var line := h.name + ": " + h.value;
    assert line == h.name + ":" + (" " + h.value);
    FindColonAt(h.name, " " + h.value);
    assert line[..|h.name|] == h.name;
    assert line[|h.name| + 2..] == h.value;
  }

  lemma ParseHeadersStep(line: string, h: Header, rest: string)
    requires line != [] && line[0] != '\r'
    requires forall i :: 0 <= i < |line| ==> line[i] != '\r'
    requires ParseFieldLine(line) == Some(h)
    ensures ParseHeaders(line + "\r\n" + rest) ==
      match ParseHeaders(rest)
      case None => None
      case Some((hs, body)) => Some(([h] + hs, body))
  {
    var s := line + "\r\n" + rest;
    FindCrlfAt(line, rest);
    assert s[..|line|] == line;
    assert s[|line| + 2..] == rest;
  }

  lemma {:induction false} ParseHeaderBlock(hs: seq<Header>, body: string)
    requires forall i :: 0 <= i < |hs| ==> hs[i].name != []
    ensures ParseHeaders(HeaderBlock(hs) + "\r\n" + body) == Some((hs, body))
  {
    if hs == [] {
      assert HeaderBlock(hs) + "\r\n" + body == "\r\n" + body;
    } else {
      var h := hs[0];
      var line := h.name + ": " + h.value;
      var rest := HeaderBlock(hs[1..]) + "\r\n" + body;
      assert HeaderBlock(hs) + "\r\n" + body == line + "\r\n" + rest;
      ParseFieldLineOf(h);
      ParseHeadersStep(line, h, rest);
      ParseHeaderBlock(hs[1..], body);
      assert hs == [h] + hs[1..];
    }
  }

  /** Field names are non-empty (section 5.1 of RFC 9110). */
  predicate WellFormed(m: Message)
  {
    forall i :: 0 <= i < |m.headers| ==> m.headers[i].name != []
  }

  /** Reading a serialised message back gives the same status line, fields and body. */
  lemma ParseSerialize(m: Message)
    requires WellFormed(m)
    ensures Parse(Serialize(m)) == Some(m)
  {
    var rest := HeaderBlock(m.headers) + "\r\n" + m.body;
    assert Serialize(m) == m.statusLine + "\r\n" + rest;
    FindCrlfAt(m.statusLine, rest);
    assert Serialize(m)[..|m.statusLine|] == m.statusLine;
    assert Serialize(m)[|m.statusLine| + 2..] == rest;
    ParseHeaderBlock(m.headers, m.body);
  }

  /** The value of the first field named `name`, compared ignoring ASCII case
      (field names are case-insensitive, section 5.1 of RFC 9110). */
  function Lookup(hs: seq<Header>, name: string): Option<string>
  {
    if hs == [] then None
    else if Text.EqIgnoreAsciiCase(hs[0].name, name) then Some(hs[0].value)
    else Lookup(hs[1..], name)
  }

  const StatusLine: seq<LineChar> := "HTTP/1.1 200 OK"
  const ContentTypeName: seq<NameChar> := "Content-Type"
  const ContentLengthName: seq<NameChar> := "Content-Length"
  const ConnectionName: seq<NameChar> := "Connection"
  const CloseToken: seq<LineChar> := "close"

  function ContentLengthValue(): (v: seq<LineChar>)
  {
    var d := DecimalString(Utf8Length(PmlBody));
    assert forall i :: 0 <= i < |d| ==> IsDigit(d[i]);
    d
  }

  /** The response as a message: status 200, the PML content type, the body's octet
      length, `Connection: close`, then the body. */
  function RedirectMessage(): Message
  {
    ContentTypeFitsLine();
    Message(StatusLine,
      [Header(ContentTypeName, PmlContentType),
       Header(ContentLengthName, ContentLengthValue()),
       Header(ConnectionName, CloseToken)],
      PmlBody)
  }

  /** The content type may stand as a field value: it has no line break. */
  lemma ContentTypeFitsLine()
    ensures forall i :: 0 <= i < |PmlContentType| ==> PmlContentType[i] != '\r' && PmlContentType[i] != '\n'
  {
  }

  /** The string `handle_connection` formats and writes. */
  function RedirectResponse(request: seq<Byte>): string
  {
    StatusLine + "\r\n"
    + ContentTypeName + ": " + PmlContentType + "\r\n"
    + ContentLengthName + ": " + DecimalString(Utf8Length(PmlBody)) + "\r\n"
    + ConnectionName + ": " + CloseToken + "\r\n"
    + "\r\n" + PmlBody
  }

  /** Whatever request was read, the response is the serialised redirect message, and it
      starts with the status line. */
  lemma ResponseIsRedirectMessage(request: seq<Byte>)
    ensures RedirectResponse(request) == Serialize(RedirectMessage())
  {
    var l0 := ContentTypeName + ": " + PmlContentType + "\r\n";
    var l1 := ContentLengthName + ": " + ContentLengthValue() + "\r\n";
    var l2 := ConnectionName + ": " + CloseToken + "\r\n";
    RedirectHeaderBlock();
    SerializeLines(RedirectMessage(), l0, l1, l2);
    ResponseLines(StatusLine, ContentTypeName, PmlContentType, ContentLengthName, ContentLengthValue(),
                  ConnectionName, CloseToken, PmlBody);
  }

  lemma RedirectHeaderBlock()
    ensures HeaderBlock(RedirectMessage().headers)
      == (ContentTypeName + ": " + PmlContentType + "\r\n")
       + (ContentLengthName + ": " + ContentLengthValue() + "\r\n")
       + (ConnectionName + ": " + CloseToken + "\r\n")
  {
    var hs := RedirectMessage().headers;
    assert HeaderBlock(hs[3..]) == [];
    assert HeaderBlock(hs[2..]) == ConnectionName + ": " + CloseToken + "\r\n";
  }

  lemma SerializeLines(m: Message, l0: string, l1: string, l2: string)
    requires HeaderBlock(m.headers) == l0 + l1 + l2
    ensures Serialize(m) == m.statusLine + "\r\n" + l0 + l1 + l2 + "\r\n" + m.body
  {
  }

  /** Regrouping the formatted response into its status line, field lines and body. */
  lemma ResponseLines(status: string, n0: string, v0: string, n1: string, v1: string,
                      n2: string, v2: string, body: string)
    ensures status + "\r\n" + n0 + ": " + v0 + "\r\n" + n1 + ": " + v1 + "\r\n" + n2 + ": " + v2 + "\r\n"
            + "\r\n" + body
         == status + "\r\n" + (n0 + ": " + v0 + "\r\n") + (n1 + ": " + v1 + "\r\n")
            + (n2 + ": " + v2 + "\r\n") + "\r\n" + body
  {
  }

  lemma StartsWithStatusLine(request: seq<Byte>)
    ensures RedirectResponse(request)[..17] == "HTTP/1.1 200 OK\r\n"
  {
    var r := RedirectResponse(request);
    assert r == (StatusLine + "\r\n") + r[17..];
  }

  /** The response is one well-framed message: its status line is `HTTP/1.1 200 OK` and
      everything after the header block is exactly `PML_BODY`. */
  lemma ResponseFraming(request: seq<Byte>)
    ensures Parse(RedirectResponse(request)) == Some(RedirectMessage())
    ensures RedirectMessage().statusLine == "HTTP/1.1 200 OK"
    ensures RedirectMessage().body == PmlBody
  {
    ResponseIsRedirectMessage(request);
    ParseSerialize(RedirectMessage());
  }

  /** `Content-Length` holds the number of octets of the body. */
  lemma ContentLengthIsBodyLength()
    ensures Lookup(RedirectMessage().headers, "Content-Length").Some?
    ensures ParseDecimal(Lookup(RedirectMessage().headers, "Content-Length").value) == Some(Utf8Length(PmlBody))
    ensures Utf8Length(PmlBody) == |PmlBody|
  {
    var hs := RedirectMessage().headers;
    assert !Text.EqIgnoreAsciiCase(hs[0].name, "Content-Length");
    assert Text.EqIgnoreAsciiCase(hs[1].name, "Content-Length");
    DecimalRoundTrip(Utf8Length(PmlBody));
    AsciiUtf8Length(PmlBody);
  }

  /** The `Content-Type` header is the content type the body itself declares, and the
      connection is closed after the response. */
  lemma ContentTypeAndConnection()
    ensures Lookup(RedirectMessage().headers, "Content-Type") == Some(PmlContentType)
    ensures Text.Contains(PmlBody, PmlContentType)
    ensures Lookup(RedirectMessage().headers, "Connection") == Some("close")
  {
    ContentTypeHeader();
    BodyDeclaresContentType();
    ConnectionHeader();
  }

  lemma ContentTypeHeader()
    ensures Lookup(RedirectMessage().headers, "Content-Type") == Some(PmlContentType)
  {
    var hs := RedirectMessage().headers;
    assert Text.EqIgnoreAsciiCase(hs[0].name, "Content-Type");
  }

  lemma ConnectionHeader()
    ensures Lookup(RedirectMessage().headers, "Connection") == Some("close")
  {
    var hs := RedirectMessage().headers;
    assert !Text.EqIgnoreAsciiCase(hs[0].name, "Connection");
    assert !Text.EqIgnoreAsciiCase(hs[1].name, "Connection");
    assert Text.EqIgnoreAsciiCase(hs[2].name, "Connection");
  }

  lemma BodyDeclaresContentType()
    ensures Text.Contains(PmlBody, PmlContentType)
  {
    var prefix := PmlHead + PmlEquiv + PmlContentOpen;
    var suffix := PmlTitle + PmlTimerName + PmlTimerHref + PmlTimerFlags + PmlClose;
    Split9(PmlHead, PmlEquiv, PmlContentOpen, PmlContentType, PmlTitle, PmlTimerName, PmlTimerHref, PmlTimerFlags, PmlClose);
    Text.OccursInMiddle(prefix, PmlContentType, suffix);
  }

  /** Proof plumbing: regroups a nine-part concatenation; models nothing in the source. */
  lemma Split9(a: string, b: string, c: string, d: string, e: string, f: string, g: string, h: string, i: string)
    ensures a + b + c + d + e + f + g + h + i == (a + b + c) + d + (e + f + g + h + i)
  {
  }
}
