/**
  The multipart/form-data body of RFC 7578, with the delimiter syntax of
  section 5.1.1 of RFC 2046: every part opens with `--boundary CRLF`, carries
  a `Content-Disposition: form-data; name="..."` header (section 4.2 of
  RFC 7578, with an optional `filename` parameter) and a `Content-Type`
  header, a blank line, its content and a CRLF; the body closes with
  `--boundary-- CRLF`. This is the reference layout against which the
  registration screen's step-by-step appends are proved.
 */
module Multipart {
  import opened Wrappers
  import opened Utf8

  const CRLF := "\r\n"

  datatype Part = Part(name: string, filename: Option<string>, contentType: string, content: seq<byte>)

  function OpeningDelimiter(boundary: string): string {
    "--" + boundary + "\r\n"
  }

  function ClosingDelimiter(boundary: string): string {
    "--" + boundary + "--\r\n"
  }

  /** The `Content-Disposition` header line of a part, with its CRLF. */
  function DispositionLine(p: Part): string {
    "Content-Disposition: form-data; name=\"" + p.name + "\""
      + (match p.filename case None => "" case Some(f) => "; filename=\"" + f + "\"")
      + "\r\n"
  }

  /** The `Content-Type` header line of a part, followed by the blank line that ends the headers. */
  function ContentTypeLines(p: Part): string {
    "Content-Type: " + p.contentType + "\r\n\r\n"
  }

  /** Everything that comes before a part's content. */
  function PartHead(boundary: string, p: Part): seq<byte> {
    Encode(OpeningDelimiter(boundary)) + Encode(DispositionLine(p)) + Encode(ContentTypeLines(p))
  }

  function PartBytes(boundary: string, p: Part): seq<byte> {
    PartHead(boundary, p) + p.content + Encode(CRLF)
  }

  function PartsBytes(boundary: string, parts: seq<Part>): seq<byte> {
    if parts == [] then [] else PartBytes(boundary, parts[0]) + PartsBytes(boundary, parts[1..])
  }

  /** The whole body: the parts in order, then the closing delimiter. */
  function Body(boundary: string, parts: seq<Part>): seq<byte> {
    PartsBytes(boundary, parts) + Encode(ClosingDelimiter(boundary))
  }

  /** Adding a part at the end adds its bytes just before the closing delimiter. */
  lemma {:induction false} PartsBytesAppend(boundary: string, parts: seq<Part>, p: Part)
    ensures PartsBytes(boundary, parts + [p]) == PartsBytes(boundary, parts) + PartBytes(boundary, p)
  {
    if parts != [] {
      assert (parts + [p])[1..] == parts[1..] + [p];
      PartsBytesAppend(boundary, parts[1..], p);
    } else {
      assert parts + [p] == [p];
    }
  }

  /** A body with at least one part begins with the first part, hence with the opening delimiter. */
  lemma BodyStartsWithFirstPart(boundary: string, parts: seq<Part>)
    requires parts != []
    ensures PartBytes(boundary, parts[0]) <= Body(boundary, parts)
    ensures Encode(OpeningDelimiter(boundary)) <= Body(boundary, parts)
  {
    var first := PartBytes(boundary, parts[0]);
    var rest := PartsBytes(boundary, parts[1..]);
    var close := Encode(ClosingDelimiter(boundary));
    calc {
      Body(boundary, parts);
      PartsBytes(boundary, parts) + close;
      (first + rest) + close;
      { AppendAssoc(first, rest, close); }
      first + (rest + close);
    }
    PrefixOfAppend(first, rest + close);
    PartStartsWithDelimiter(boundary, parts[0]);
    PrefixTransitive(Encode(OpeningDelimiter(boundary)), first, Body(boundary, parts));
  }

  lemma PartStartsWithDelimiter(boundary: string, p: Part)
    ensures Encode(OpeningDelimiter(boundary)) <= PartBytes(boundary, p)
  {
    var open := Encode(OpeningDelimiter(boundary));
    var disp := Encode(DispositionLine(p));
    var ct := Encode(ContentTypeLines(p));
    var tail := disp + ct + p.content + Encode(CRLF);
    calc {
      PartBytes(boundary, p);
      (open + disp + ct) + p.content + Encode(CRLF);
      { AppendAssoc(open, disp, ct); AppendAssoc(open, disp + ct, p.content);
        AppendAssoc(open, disp + ct + p.content, Encode(CRLF)); }
      open + tail;
    }
    PrefixOfAppend(open, tail);
  }

  lemma PrefixOfAppend<T>(a: seq<T>, b: seq<T>)
    ensures a <= a + b
  {
    assert (a + b)[..|a|] == a;
  }

  lemma AppendAssoc<T>(a: seq<T>, b: seq<T>, c: seq<T>)
    ensures (a + b) + c == a + (b + c)
  {
  }

  lemma PrefixTransitive<T>(a: seq<T>, b: seq<T>, c: seq<T>)
    requires a <= b && b <= c
    ensures a <= c
  {
  }

  /**
    With an ASCII boundary, such as a `UUID` string, the opening delimiter
    line takes four bytes more than the boundary and the closing one six.
   */
  lemma DelimiterLengths(boundary: string)
    requires IsAscii(boundary)
    ensures |Encode(OpeningDelimiter(boundary))| == |boundary| + 4
    ensures |Encode(ClosingDelimiter(boundary))| == |boundary| + 6
  {
    EncodeAscii(boundary);
    EncodeAppend("--", boundary);
    EncodeAppend("--" + boundary, "\r\n");
    EncodeAppend("--" + boundary, "--\r\n");
  }

  /** Every body, with or without parts, ends with the closing delimiter. */
  lemma BodyEndsWithClosingDelimiter(boundary: string, parts: seq<Part>)
    ensures |Encode(ClosingDelimiter(boundary))| <= |Body(boundary, parts)|
    ensures Body(boundary, parts)[|Body(boundary, parts)| - |Encode(ClosingDelimiter(boundary))|..]
         == Encode(ClosingDelimiter(boundary))
  {
  }

  /**
    The size of the body: every part costs its head, its content and a CRLF,
    and the closing delimiter comes on top.
   */
  lemma {:induction false} PartsBytesLength(boundary: string, parts: seq<Part>)
    ensures |PartsBytes(boundary, parts)| == PartsOverhead(boundary, parts) + ContentLength(parts)
    ensures |Body(boundary, parts)|
         == PartsOverhead(boundary, parts) + ContentLength(parts) + |Encode(ClosingDelimiter(boundary))|
  {
    if parts != [] {
      PartsBytesLength(boundary, parts[1..]);
    }
  }

  function PartsOverhead(boundary: string, parts: seq<Part>): nat {
    if parts == [] then 0 else |PartHead(boundary, parts[0])| + 2 + PartsOverhead(boundary, parts[1..])
  }

  function ContentLength(parts: seq<Part>): nat {
    if parts == [] then 0 else |parts[0].content| + ContentLength(parts[1..])
  }
}
