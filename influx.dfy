/**
  The InfluxDB write request as the three drivers frame it: an HTTP/1.1
  POST header whose Content-Length (section 3.3.2 of RFC 7230) gives the
  body length, a body in line protocol whose field set is written "each
  field followed by ',' except the last, which is followed by a newline",
  and the check of the reply's status code (section 3.1.2 of RFC 7230),
  where 204 No Content (section 6.3.5 of RFC 7231) means the write was
  accepted.
 */
module Influx {
  import opened Text

  // ---------------------------------------------------------------------
  // Request header

  const LengthField := "Content-Length: "
  const HeaderEnd := "\r\n\r\n"

  /** The header every driver prints with
      "POST /write?db=%s&u=%s&p=%s HTTP/1.1\r\nHost: influx:8086\r\nContent-Length: %zd\r\n\r\n". */
  function Header(db: string, user: string, password: string, length: nat): (h: string)
  {
    "POST /write?db=" + db + "&u=" + user + "&p=" + password + " HTTP/1.1\r\nHost: influx:8086\r\n"
      + LengthField + NatToDecimal(length) + HeaderEnd
  }

  /** Length of the longest run of digits at the end of s. */
  function DigitRun(s: string): (k: nat)
    ensures k <= |s|
    ensures AllDigits(s[|s| - k..])
  {
    if s == [] || !IsDigit(s[|s| - 1]) then 0 else 1 + DigitRun(s[..|s| - 1])
  }

  /** What a server reads as the declared body length: the digits after
      "Content-Length: " on the header's last line. */
  function DeclaredLength(h: string): Option<nat>
  {
    if |h| < |HeaderEnd| || h[|h| - |HeaderEnd|..] != HeaderEnd then None
    else
      var s := h[..|h| - |HeaderEnd|];
      var k := DigitRun(s);
      if k == 0 || |s| - k < |LengthField| || s[|s| - k - |LengthField|..|s| - k] != LengthField then None
      else Some(DecimalValue(s[|s| - k..]))
  }

  lemma {:induction false} DigitRunOfDigits(a: string, digits: string)
    requires a != [] && !IsDigit(a[|a| - 1]) && AllDigits(digits)
    ensures DigitRun(a + digits) == |digits|
    decreases |digits|
  {
    if digits == [] {
      assert a + digits == a;
    } else {
      var s := a + digits;
      assert s[..|s| - 1] == a + digits[..|digits| - 1];
      DigitRunOfDigits(a, digits[..|digits| - 1]);
    }
  }

  /** The header declares exactly the length it was built with. */
  lemma HeaderDeclaresLength(db: string, user: string, password: string, length: nat)
    ensures DeclaredLength(Header(db, user, password, length)) == Some(length)
  {
    var h := Header(db, user, password, length);
    var digits := NatToDecimal(length);
    var a := "POST /write?db=" + db + "&u=" + user + "&p=" + password + " HTTP/1.1\r\nHost: influx:8086\r\n"
      + LengthField;
    assert h == a + digits + HeaderEnd;
    assert h[|h| - |HeaderEnd|..] == HeaderEnd;
    var s := h[..|h| - |HeaderEnd|];
    assert s == a + digits;
    DigitRunOfDigits(a, digits);
    assert s[|s| - |digits|..] == digits;
    assert s[|s| - |digits| - |LengthField|..|s| - |digits|] == LengthField;
    DecimalRoundTrip(length);
  }

  // ---------------------------------------------------------------------
  // Reply check

  /** The second space-delimited token of the reply, as the drivers get it
      with two strtok(..., " ") calls; None where strtok returns NULL. */
  function StatusToken(reply: string): Option<string>
  {
    var ts := Tokens(reply, ' ');
    if |ts| < 2 then None else Some(ts[1])
  }

  /** The write is accepted only when that token is exactly "204"; a reply
      with fewer than two tokens is rejected. */
  predicate Accepted(reply: string)
  {
    StatusToken(reply) == Some("204")
  }

  /** For a status line "<version> <code> <reason>", the check accepts
      exactly the code 204, whatever the version and the reason phrase. */
  lemma StatusLineAccepted(version: string, code: string, reason: string)
    requires version != [] && ' ' !in version
    requires code != [] && ' ' !in code
    ensures Accepted(version + " " + code + " " + reason) <==> code == "204"
  {
    var r := version + " " + code + " " + reason;
    assert r == version + [' '] + (code + [' '] + reason);
    TokensSplit(version, code + [' '] + reason, ' ');
    TokensSplit(code, reason, ' ');
    TokensOfPlain(version, ' ');
    TokensOfPlain(code, ' ');
  }

  /** The check as written hands the second token to strcmp without
      testing it for NULL: it is defined only on a reply that has one. */
  predicate CheckDefinedAsWritten(reply: string)
  {
    StatusToken(reply).Some?
  }

  /** An empty reply (the server closed the connection) and a one-word
      reply both leave the second token NULL. */
  lemma NullStatusToken()
    ensures !CheckDefinedAsWritten("") && !CheckDefinedAsWritten("HTTP/1.1")
  {
    TokensOfPlain("HTTP/1.1", ' ');
  }

  /** A reply that is one word, or blank, never passes. */
  lemma ShortReplyRejected(reply: string)
    requires |Tokens(reply, ' ')| < 2
    ensures !Accepted(reply)
  {
  }

  // ---------------------------------------------------------------------
  // Field sets

  /** Fields each followed by ','. */
  function Open(fields: seq<string>): string
  {
    if fields == [] then "" else Open(fields[..|fields| - 1]) + fields[|fields| - 1] + ","
  }

  /** Fields each followed by ',' except the last, which is followed by a
      newline; no field at all gives the empty string. */
  function Line(fields: seq<string>): string
  {
    if fields == [] then "" else Open(fields[..|fields| - 1]) + fields[|fields| - 1] + "\n"
  }

  /** The fields separated by ',' (the reference reading of a field set). */
  function Join(fields: seq<string>): string
  {
    if fields == [] then ""
    else if |fields| == 1 then fields[0]
    else Join(fields[..|fields| - 1]) + "," + fields[|fields| - 1]
  }

  lemma {:induction false} OpenIsJoin(fields: seq<string>)
    requires fields != []
    ensures Open(fields) == Join(fields) + ","
    decreases |fields|
  {
    if 1 < |fields| {
      OpenIsJoin(fields[..|fields| - 1]);
    } else {
      assert fields[..0] == [];
    }
  }

  /** A non-empty field set is the fields joined by ',' and ended by a
      newline. */
  lemma LineIsJoin(fields: seq<string>)
    requires fields != []
    ensures Line(fields) == Join(fields) + "\n"
  {
    if 1 < |fields| {
      OpenIsJoin(fields[..|fields| - 1]);
    } else {
      assert fields[..0] == [];
    }
  }

  /** Splitting the joined field set at ',' gives back the fields, in
      order, provided no field is empty or holds a comma. */
  lemma {:induction false} JoinSplitsBack(fields: seq<string>)
    requires forall k :: 0 <= k < |fields| ==> fields[k] != [] && ',' !in fields[k]
    ensures Tokens(Join(fields), ',') == fields
    decreases |fields|
  {
    if |fields| == 1 {
      TokensOfPlain(fields[0], ',');
    } else if 1 < |fields| {
      var init := fields[..|fields| - 1];
      var last := fields[|fields| - 1];
      assert Join(fields) == Join(init) + [','] + last;
      TokensSplit(Join(init), last, ',');
      JoinSplitsBack(init);
      TokensOfPlain(last, ',');
    }
  }

  /** Extending a field list by one field extends Open by that field and a
      comma, and Line ends the same prefix with a newline instead. */
  lemma OpenLineSnoc(fields: seq<string>, f: string)
    ensures Open(fields + [f]) == Open(fields) + f + ","
    ensures Line(fields + [f]) == Open(fields) + f + "\n"
  {
    assert (fields + [f])[..|fields|] == fields;
  }
}
