/**
 * The server's response framing: a status line whose reason text comes from one of
 * three tables, fixed headers with the body's byte length, a blank line, the body.
 */
module HttpWire {
  import opened QtTypes
  import opened Wrappers
  import opened Text

  /** A response as the request handler hands it to one of the three senders. */
  datatype Response =
    | Plain(status: nat, message: string)               // sendResponse
    | JsonObject(status: nat, fields: map<string, Json>) // sendJsonResponse
    | JsonArray(status: nat, items: seq<Json>)           // sendJsonArrayResponse

  /** Reason text of `sendResponse`: five known codes, "Unknown" for the rest. */
  function PlainReason(code: int): (r: string)
    ensures r == "Unknown" <==> !(code == 200 || code == 201 || code == 400 || code == 404 || code == 500)
  {
    if code == 200 then "OK"
    else if code == 201 then "Created"
    else if code == 400 then "Bad Request"
    else if code == 404 then "Not Found"
    else if code == 500 then "Internal Server Error"
    else "Unknown"
  }

  /** Reason text of `sendJsonResponse`: the same table without 500. */
  function ObjectReason(code: int): (r: string)
    ensures code != 500 ==> r == PlainReason(code)
    ensures code == 500 ==> r == "Unknown"
  {
    if code == 200 then "OK"
    else if code == 201 then "Created"
    else if code == 400 then "Bad Request"
    else if code == 404 then "Not Found"
    else "Unknown"
  }

  /** Reason text of `sendJsonArrayResponse`: only 200 is known. */
  function ArrayReason(code: int): (r: string)
    ensures r != "Unknown" <==> code == 200
    ensures code == 200 ==> r == PlainReason(code)
  {
    if code == 200 then "OK" else "Unknown"
  }

  const ContentLengthName := "Content-Length: "
  const CrlfCrlf := "\r\n\r\n"
  /** The blank line that ends the header, as bytes on the wire. */
  const BlankLineBytes: seq<byte> := [13, 10, 13, 10]

  /** The status line and the header lines, in the order the senders write them. */
  function HeaderLines(status: nat, reason: string, contentType: string, cors: bool, length: nat): seq<string> {
    ["HTTP/1.1 " + NatToString(status) + " " + reason,
     "Content-Type: " + contentType,
     ContentLengthName + NatToString(length)]
    + (if cors then ["Access-Control-Allow-Origin: *"] else [])
    + ["Connection: close"]
  }

  /** Every line followed by CRLF, then the CRLF of the blank line. */
  function Lines(ls: seq<string>): string {
    if ls == [] then "\r\n" else ls[0] + "\r\n" + Lines(ls[1..])
  }

  /** The body bytes of a response: the message text, or the compact JSON document. */
  function Body(resp: Response, qt: Qt): seq<byte> {
    match resp
    case Plain(_, message) => Utf8(message)
    case JsonObject(_, fields) => qt.compactObject(fields)
    case JsonArray(_, items) => qt.compactArray(items)
  }

  /** The reason text the sender of this kind of response writes. */
  function Reason(resp: Response): string {
    match resp
    case Plain(code, _) => PlainReason(code)
    case JsonObject(code, _) => ObjectReason(code)
    case JsonArray(code, _) => ArrayReason(code)
  }

  /** The header a response is sent with; only the JSON senders add the CORS line. */
  function ResponseHeader(resp: Response, qt: Qt): seq<string> {
    HeaderLines(resp.status, Reason(resp), if resp.Plain? then "text/plain" else "application/json",
                !resp.Plain?, |Body(resp, qt)|)
  }

  /** The bytes written to the socket: the UTF-8 header, then the body unchanged. */
  function Encode(resp: Response, qt: Qt): seq<byte> {
    Utf8(Lines(ResponseHeader(resp, qt))) + Body(resp, qt)
  }

  /** How a client reads the length: the digits of the first line naming Content-Length. */
  function ContentLength(lines: seq<string>): Option<nat> {
    if lines == [] then None
    else if StartsWith(lines[0], ContentLengthName) then
      var digits := lines[0][|ContentLengthName|..];
      if |digits| > 0 && AllDigits(digits) then Some(ParseNat(digits)) else None
    else ContentLength(lines[1..])
  }

  /** Visible ASCII and space: no CR, one byte per character. */
  predicate Printable(s: string) { forall i :: 0 <= i < |s| ==> ' ' <= s[i] <= '~' }

  lemma PrintableConcat(a: string, b: string)
    requires Printable(a) && Printable(b)
    ensures Printable(a + b)
  {
    forall i | 0 <= i < |a + b| ensures ' ' <= (a + b)[i] <= '~' {
      if i >= |a| {
        assert (a + b)[i] == b[i - |a|];
      }
    }
  }

  /**
   * Lines that are non-empty and printable produce exactly one blank line, at the very end.
   */
  lemma {:induction false} LinesBlankAtEnd(ls: seq<string>)
    requires |ls| >= 1
    requires forall i :: 0 <= i < |ls| ==> ls[i] != [] && Printable(ls[i])
    ensures |Lines(ls)| >= 4 && OccursAt(Lines(ls), CrlfCrlf, |Lines(ls)| - 4)
    ensures forall j :: 0 <= j < |Lines(ls)| - 4 ==> !OccursAt(Lines(ls), CrlfCrlf, j)
  {
    var l0, rest, L := ls[0], Lines(ls[1..]), Lines(ls);
    assert L == l0 + "\r\n" + rest;
    assert Printable(l0);
    if |ls| == 1 {
      assert L == l0 + CrlfCrlf;
      forall j | 0 <= j < |L| - 4 ensures !OccursAt(L, CrlfCrlf, j) {
        assert L[j..j + 4][0] == L[j] == l0[j];
      }
    } else {
      LinesBlankAtEnd(ls[1..]);
      assert L[|L| - 4..] == rest[|rest| - 4..];
      assert rest[0] == ls[1][0] && Printable(ls[1]);
      forall j | 0 <= j < |L| - 4 ensures !OccursAt(L, CrlfCrlf, j) {
        if j < |l0| {
          assert L[j..j + 4][0] == L[j] == l0[j];
        } else if j == |l0| {
          assert L[j..j + 4][2] == L[j + 2] == rest[0];
        } else if j == |l0| + 1 {
          assert L[j..j + 4][0] == L[j] == '\n';
        } else {
          var k := j - |l0| - 2;
          assert L[j..j + 4] == rest[k..k + 4];
          assert !OccursAt(rest, CrlfCrlf, k);
        }
      }
    }
  }

  lemma {:induction false} LinesPrintable(ls: seq<string>)
    requires forall i :: 0 <= i < |ls| ==> Printable(ls[i])
    ensures IsAscii(Lines(ls))
  {
    if ls != [] {
      LinesPrintable(ls[1..]);
      var L := Lines(ls);
      assert L == ls[0] + "\r\n" + Lines(ls[1..]);
      assert Printable(ls[0]);
      forall i | 0 <= i < |L| ensures L[i] as int < 0x80 {
        if i < |ls[0]| {
          assert L[i] == ls[0][i];
        } else if i >= |ls[0]| + 2 {
          assert L[i] == Lines(ls[1..])[i - |ls[0]| - 2];
        }
      }
    }
  }

  /** A window of the encoded ASCII text holds the blank-line bytes exactly where the text holds CRLFCRLF. */
  lemma AsciiWindow(text: string, frame: seq<byte>, j: nat)
    requires |text| <= |frame| && forall i :: 0 <= i < |text| ==> frame[i] == text[i] as int
    requires j + 4 <= |text|
    ensures OccursAt(frame, BlankLineBytes, j) <==> OccursAt(text, CrlfCrlf, j)
  {
    var f, w := frame[j..j + 4], text[j..j + 4];
    assert forall t :: 0 <= t < 4 ==> f[t] == w[t] as int;
  }

  /** In an encoded header followed by any body, the first blank line is the header's own. */
  lemma FirstBlankLine(ls: seq<string>, body: seq<byte>)
    requires |ls| >= 1
    requires forall i :: 0 <= i < |ls| ==> ls[i] != [] && Printable(ls[i])
    ensures |Utf8(Lines(ls))| >= 4
    ensures IndexOf(Utf8(Lines(ls)) + body, BlankLineBytes) == |Utf8(Lines(ls))| - 4
  {
    var text := Lines(ls);
    var frame := Utf8(text) + body;
    LinesPrintable(ls);
    Utf8Ascii(text);
    LinesBlankAtEnd(ls);
    var m := |text| - 4;
    assert forall i :: 0 <= i < |text| ==> frame[i] == Utf8(text)[i];
    AsciiWindow(text, frame, m);
    forall j | 0 <= j < m ensures !OccursAt(frame, BlankLineBytes, j) {
      AsciiWindow(text, frame, j);
    }
  }

  lemma DigitsPrintable(n: nat)
    ensures Printable(NatToString(n))
  {
    var d := NatToString(n);
    assert forall i :: 0 <= i < |d| ==> IsDigit(d[i]);
  }

  lemma ReasonTextsPrintable()
    ensures Printable("OK") && Printable("Created") && Printable("Bad Request")
    ensures Printable("Not Found") && Printable("Internal Server Error") && Printable("Unknown")
  {
    assert Printable("OK") && Printable("Created");
    assert Printable("Bad Request") && Printable("Not Found");
    assert Printable("Internal Server Error");
    assert Printable("Unknown");
  }

  lemma ReasonPrintable(resp: Response)
    ensures Printable(Reason(resp))
  {
    ReasonTextsPrintable();
  }

  lemma StatusTextsPrintable()
    ensures Printable("HTTP/1.1 ") && Printable(" ") && Printable("Content-Type: ")
    ensures Printable(ContentLengthName)
  {
    assert Printable("HTTP/1.1 ") && Printable(" ");
    assert Printable("Content-Type: ");
    assert Printable(ContentLengthName);
  }

  lemma ContentTypesPrintable()
    ensures Printable("text/plain") && Printable("application/json")
  {
    assert Printable("text/plain");
    assert Printable("application/json");
  }

  lemma FixedLinesPrintable()
    ensures Printable("Access-Control-Allow-Origin: *") && Printable("Connection: close")
  {
    assert Printable("Access-Control-Allow-Origin: *");
    assert Printable("Connection: close");
  }

  /** Header lines built from printable parts are non-empty and printable. */
  lemma HeaderLinesPrintable(status: nat, reason: string, contentType: string, cors: bool, length: nat)
    requires Printable(reason) && Printable(contentType)
    ensures var ls := HeaderLines(status, reason, contentType, cors, length);
            |ls| >= 1 && forall i :: 0 <= i < |ls| ==> ls[i] != [] && Printable(ls[i])
  {
    var code, digits := NatToString(status), NatToString(length);
    DigitsPrintable(status);
    DigitsPrintable(length);
    StatusTextsPrintable();
    FixedLinesPrintable();
    PrintableConcat("HTTP/1.1 ", code);
    PrintableConcat("HTTP/1.1 " + code, " ");
    PrintableConcat("HTTP/1.1 " + code + " ", reason);
    PrintableConcat("Content-Type: ", contentType);
    PrintableConcat(ContentLengthName, digits);
  }

  lemma NotStartsWith(s: string, prefix: string, i: nat)
    requires i < |prefix| && (i < |s| ==> s[i] != prefix[i])
    ensures !StartsWith(s, prefix)
  {
    if |prefix| <= |s| {
      assert s[..|prefix|][i] == s[i];
    }
  }

  /** The Content-Length line of a header announces the length it was built with. */
  lemma HeaderAnnouncesLength(status: nat, reason: string, contentType: string, cors: bool, length: nat)
    ensures ContentLength(HeaderLines(status, reason, contentType, cors, length)) == Some(length)
  {
    var lines := HeaderLines(status, reason, contentType, cors, length);
    NotStartsWith(lines[0], ContentLengthName, 0);
    NotStartsWith(lines[1], ContentLengthName, 8);
    assert ContentLength(lines) == ContentLength(lines[1..]);
    assert ContentLength(lines[1..]) == ContentLength(lines[2..]);
    assert lines[2..][0] == lines[2] && StartsWith(lines[2], ContentLengthName);
    assert lines[2][|ContentLengthName|..] == NatToString(length);
    ParseNatToString(length);
  }

  /**
   * A client that reads up to the first blank line gets the header lines back and the body
   * right after them, and the Content-Length line among those header lines announces
   * exactly the body's byte length.
   */
  lemma FrameAnnouncesBody(resp: Response, qt: Qt)
    ensures var frame, lines, body := Encode(resp, qt), ResponseHeader(resp, qt), Body(resp, qt);
            var k := IndexOf(frame, BlankLineBytes);
            && 0 <= k && frame[..k + 4] == Utf8(Lines(lines)) && frame[k + 4..] == body
            && ContentLength(lines) == Some(|body|)
  {
    var lines, body := ResponseHeader(resp, qt), Body(resp, qt);
    var contentType := if resp.Plain? then "text/plain" else "application/json";
    ReasonPrintable(resp);
    ContentTypesPrintable();
    HeaderLinesPrintable(resp.status, Reason(resp), contentType, !resp.Plain?, |body|);
    FirstBlankLine(lines, body);
    HeaderAnnouncesLength(resp.status, Reason(resp), contentType, !resp.Plain?, |body|);
  }

  /** A plain response's Content-Length counts bytes: one per character of an ASCII message. */
  lemma PlainAsciiLength(code: nat, message: string)
    requires IsAscii(message)
    ensures forall qt: Qt :: |Body(Plain(code, message), qt)| == |message|
  {
    Utf8Ascii(message);
  }
}
