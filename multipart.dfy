/**
  The `multipart/form-data` reading in `handler.do_POST`: the boundary is taken
  from the `Content-Type` header, the body is cut at `--boundary`, and the
  `spreadsheet_url` and `csv_file` fields are taken from the parts that name
  them, from after the first blank line, with trailing CR, LF and '-' bytes
  removed.
 */
module Multipart {
  import opened Common
  import opened Seqs

  newtype byte = b: int | 0 <= b < 256
  type bytes = seq<byte>

  const CR: byte := 13
  const LF: byte := 10
  const Dash: byte := 45

  /** The UTF-8 encoding of one character. */
  function Utf8Char(c: char): (r: bytes)
    ensures 1 <= |r| <= 4
    ensures c as int < 0x80 <==> |r| == 1
    ensures c as int < 0x80 ==> r[0] as int == c as int
  {
    var n := c as int;
    if n < 0x80 then [n as byte]
    else if n < 0x800 then [(0xC0 + n / 0x40) as byte, (0x80 + n % 0x40) as byte]
    else if n < 0x10000 then
      [(0xE0 + n / 0x1000) as byte, (0x80 + n / 0x40 % 0x40) as byte, (0x80 + n % 0x40) as byte]
    else
      [(0xF0 + n / 0x40000) as byte, (0x80 + n / 0x1000 % 0x40) as byte,
       (0x80 + n / 0x40 % 0x40) as byte, (0x80 + n % 0x40) as byte]
  }

  /** `s.encode()`: UTF-8, so an ASCII string encodes byte for byte. */
  function Utf8Encode(s: string): (r: bytes)
    ensures |r| >= |s|
    ensures (forall i :: 0 <= i < |s| ==> s[i] as int < 0x80) ==>
      |r| == |s| && forall i :: 0 <= i < |s| ==> r[i] as int == s[i] as int
  {
    if s == [] then []
    else
      var init := s[..|s| - 1];
      assert forall i :: 0 <= i < |init| ==> init[i] == s[i];
      Utf8Encode(init) + Utf8Char(s[|s| - 1])
  }

  /** Encoding is character by character: the encoding of a concatenation is the concatenation of the encodings. */
  lemma {:induction false} Utf8EncodeAppend(a: string, b: string)
    ensures Utf8Encode(a + b) == Utf8Encode(a) + Utf8Encode(b)
    decreases |b|
  {
    if b == [] {
      assert a + b == a;
    } else {
      var init := b[..|b| - 1];
      assert (a + b)[..|a + b| - 1] == a + init;
      assert (a + b)[|a + b| - 1] == b[|b| - 1];
      Utf8EncodeAppend(a, init);
    }
  }

  /** The bytes `rstrip(b"\r\n--")` removes: its argument is a set of bytes, not a suffix. */
  predicate IsStripped(b: byte)
  {
    b == CR || b == LF || b == Dash
  }

  /** `s.rstrip(b"\r\n--")`: the longest prefix of `s` that does not end in a stripped byte. */
  function RStrip(s: bytes): (r: bytes)
    ensures |r| <= |s| && r == s[..|r|]
    ensures r == [] || !IsStripped(r[|r| - 1])
    ensures forall i :: |r| <= i < |s| ==> IsStripped(s[i])
  {
    if s != [] && IsStripped(s[|s| - 1]) then RStrip(s[..|s| - 1]) else s
  }

  /** Any run of CR, LF and '-' bytes after a value is removed with it, not only a final "\r\n". */
  lemma {:induction false} RStripIgnoresStrippedTail(v: bytes, tail: bytes)
    requires forall i :: 0 <= i < |tail| ==> IsStripped(tail[i])
    ensures RStrip(v + tail) == RStrip(v)
    decreases |tail|
  {
    if tail == [] {
      assert v + tail == v;
    } else {
      var shorter := tail[..|tail| - 1];
      assert (v + tail)[..|v + tail| - 1] == v + shorter;
      RStripIgnoresStrippedTail(v, shorter);
    }
  }

  /** A value that ends in '-' loses it: "a-" followed by "\r\n" is read as "a". */
  lemma RStripDropsTrailingDash()
    ensures RStrip([97, Dash, CR, LF]) == [97]
  {
    RStripIgnoresStrippedTail([97], [Dash, CR, LF]);
    assert [97] + [Dash, CR, LF] == [97 as byte, Dash, CR, LF];
  }

  const Blank: bytes := [CR, LF, CR, LF]
  const Dashes: bytes := [Dash, Dash]
  const UrlMarker: bytes := Utf8Encode("name=\"spreadsheet_url\"")
  const CsvMarker: bytes := Utf8Encode("name=\"csv_file\"")
  const MultipartType: string := "multipart/form-data"
  const BoundaryKey: string := "boundary="

  /**
    `part.split(b"\r\n\r\n", 1)`, when it gives two pieces, with the second
    piece passed through `RStrip`; `None` when the part has no blank line.
   */
  function PartValue(part: bytes): (v: Option<bytes>)
    ensures v.None? <==> !Contains(part, Blank)
  {
    match FindFirst(part, Blank)
    case None => None
    case Some(k) => Some(RStrip(part[k + |Blank|..]))
  }

  datatype Field = UrlField | CsvField

  /** The field a part is read as: the URL test comes first, as in the `if`/`elif`. */
  function PartField(part: bytes): Option<Field>
  {
    if Contains(part, UrlMarker) then Some(UrlField)
    else if Contains(part, CsvMarker) then Some(CsvField)
    else None
  }

  /** What a part assigns to field `f`: its value when it is read as that field and has a blank line. */
  function FieldValue(part: bytes, f: Field): Option<bytes>
  {
    if PartField(part) == Some(f) then PartValue(part) else None
  }

  function UrlValue(part: bytes): Option<bytes>
  {
    FieldValue(part, UrlField)
  }

  function CsvValue(part: bytes): Option<bytes>
  {
    FieldValue(part, CsvField)
  }

  /** The last value `give` assigns along `xs`, so the one left after a loop of assignments. */
  function LastGiven<T, U>(xs: seq<T>, give: T -> Option<U>): Option<U>
  {
    if xs == [] then None
    else
      var last := give(xs[|xs| - 1]);
      if last.Some? then last else LastGiven(xs[..|xs| - 1], give)
  }

  /** Nothing is left exactly when no element assigns. */
  lemma {:induction false} LastGivenNone<T, U>(xs: seq<T>, give: T -> Option<U>)
    ensures LastGiven(xs, give).None? <==> forall i :: 0 <= i < |xs| ==> give(xs[i]).None?
  {
    if xs != [] {
      var init := xs[..|xs| - 1];
      LastGivenNone(init, give);
      assert forall i :: 0 <= i < |init| ==> xs[i] == init[i];
    }
  }

  /** What is left is the value of the last element that assigns. */
  lemma {:induction false} LastGivenSome<T, U>(xs: seq<T>, give: T -> Option<U>)
    requires LastGiven(xs, give).Some?
    ensures exists i ::
      0 <= i < |xs| && give(xs[i]) == LastGiven(xs, give) && (forall j :: i < j < |xs| ==> give(xs[j]).None?)
  {
    var last := |xs| - 1;
    if give(xs[last]).None? {
      var init := xs[..last];
      LastGivenSome(init, give);
      var i :| 0 <= i < |init| && give(init[i]) == LastGiven(init, give) &&
        (forall j :: i < j < |init| ==> give(init[j]).None?);
      assert xs[i] == init[i];
      forall j | i < j < |xs| ensures give(xs[j]).None? {
        if j < last {
          assert xs[j] == init[j];
        }
      }
    }
  }

  /** One more element either assigns or leaves the previous value in place. */
  lemma LastGivenPrefix<T, U>(xs: seq<T>, i: nat, give: T -> Option<U>)
    requires i < |xs|
    ensures LastGiven(xs[..i + 1], give) == if give(xs[i]).Some? then give(xs[i]) else LastGiven(xs[..i], give)
  {
    assert xs[..i + 1][..i] == xs[..i];
  }

  /** The `for part in parts` loop: later parts overwrite earlier ones. */
  method ParseFields(parts: seq<bytes>) returns (url: Option<bytes>, csv: Option<bytes>)
    ensures url == LastGiven(parts, UrlValue)
    ensures csv == LastGiven(parts, CsvValue)
  {
    url, csv := None, None;
    var i := 0;
    while i < |parts|
      invariant 0 <= i <= |parts|
      invariant url == LastGiven(parts[..i], UrlValue)
      invariant csv == LastGiven(parts[..i], CsvValue)
    {
      var part := parts[i];
      LastGivenPrefix(parts, i, UrlValue);
      LastGivenPrefix(parts, i, CsvValue);
      if Contains(part, UrlMarker) {
        assert CsvValue(part) == None;
        var lines := FindFirst(part, Blank);
        if lines.Some? {
          url := Some(RStrip(part[lines.value + |Blank|..]));
        }
      } else if Contains(part, CsvMarker) {
        assert UrlValue(part) == None;
        var lines := FindFirst(part, Blank);
        if lines.Some? {
          csv := Some(RStrip(part[lines.value + |Blank|..]));
        }
      } else {
        assert UrlValue(part) == None && CsvValue(part) == None;
      }
      i := i + 1;
    }
    assert parts[..|parts|] == parts;
  }

  /**
    A part laid out as a browser sends it, "\r\n", header lines naming the
    field (any number, each ended by "\r\n" but the last), a blank line, the
    value and "\r\n", gives back the value unless the value itself ends in CR,
    LF or '-'. The header only has to keep the first blank line where it
    belongs: no blank line may be formed before it.
   */
  lemma PartValueRoundTrip(header: bytes, value: bytes)
    requires !Contains([CR, LF] + header + [CR, LF, CR], Blank)
    requires value == [] || !IsStripped(value[|value| - 1])
    ensures PartValue([CR, LF] + header + Blank + value + [CR, LF]) == Some(value)
  {
    var part := [CR, LF] + header + Blank + value + [CR, LF];
    var k := 2 + |header|;
    var pre := [CR, LF] + header + [CR, LF, CR];
    assert pre == part[..k + 3];
    assert part[k..k + |Blank|] == Blank;
    forall j | 0 <= j < k ensures !OccursAt(part, Blank, j) {
      assert !OccursAt(pre, Blank, j);
      assert part[..k + 3][j..j + 4] == part[j..j + 4];
    }
    assert OccursAt(part, Blank, k);
    assert FindFirst(part, Blank) == Some(k);
    var rest := part[k + |Blank|..];
    assert rest == value + [CR, LF];
    RStripIgnoresStrippedTail(value, [CR, LF]);
  }

  /**
    `s.split(sep)[1]`: the text between the first occurrence of `sep` and the
    next one (or the end); `None` where Python raises `IndexError`.
   */
  function SecondPiece<T(==)>(s: seq<T>, sep: seq<T>): (r: Option<seq<T>>)
    requires |sep| > 0
    ensures r.Some? <==> Contains(s, sep)
    ensures r.Some? ==>
      var rest := s[FindFirst(s, sep).value + |sep|..];
      r.value == match FindFirst(rest, sep) case None => rest case Some(j) => rest[..j]
  {
    var pieces := Split(s, sep);
    if |pieces| >= 2 then
      assert pieces[1] == Split(s[FindFirst(s, sep).value + |sep|..], sep)[0];
      Some(pieces[1])
    else None
  }

  datatype Request = Request(spreadsheetUrl: bytes, csvContent: bytes)

  /** The exceptions `do_POST` turns into a 500 response. */
  datatype RequestError = NotMultipart | MissingBoundary | MissingFields

  /** The fields `do_POST` reads from a request, or why it refuses the request. */
  method ParseRequest(contentType: string, body: bytes) returns (r: Result<Request, RequestError>)
    ensures !Contains(contentType, MultipartType) ==> r == Err(NotMultipart)
    ensures Contains(contentType, MultipartType) && !Contains(contentType, BoundaryKey) ==>
      r == Err(MissingBoundary)
    ensures Contains(contentType, MultipartType) && Contains(contentType, BoundaryKey) ==>
      var boundary := SecondPiece(contentType, BoundaryKey).value;
      var parts := Split(body, Dashes + Utf8Encode(boundary));
      var url := LastGiven(parts, UrlValue);
      var csv := LastGiven(parts, CsvValue);
      (r.Ok? <==> url.Some? && url.value != [] && csv.Some? && csv.value != [])
      && (r.Ok? ==> r.value == Request(url.value, csv.value))
      && (r.Err? ==> r.error == MissingFields)
  {
    if !Contains(contentType, MultipartType) {
      return Err(NotMultipart);
    }
    var boundary := SecondPiece(contentType, BoundaryKey);
    if boundary.None? {
      return Err(MissingBoundary);
    }
    var parts := Split(body, Dashes + Utf8Encode(boundary.value));
    var url, csv := ParseFields(parts);
    if url == None || url.value == [] || csv == None || csv.value == [] {
      return Err(MissingFields);
    }
    return Ok(Request(url.value, csv.value));
  }
}
