/** The bootstrap upload server (`scripts/jbang-catalog/UploadFileApp.java`): an
    HTTP handler that accepts a `multipart/form-data` POST with the fields
    `dbFile` and `tokenFile` and stores each field's content in the trapper-keeper
    database and token destinations.

    The body is modelled as the already-decoded request text. The two
    destination files are the whole state the handler changes. `String.split`
    takes a regular expression: a boundary without metacharacters is split
    literally, any other pattern is compiled and split by the `regex`
    parameter, which fails when the pattern is not a valid expression. */
module Upload {
  import opened Wrappers
  import opened Strings

  datatype Request = Request(verb: string, contentType: Option<string>, body: string)

  /** `NoResponse`: no status line is ever sent for the exchange. */
  datatype Response = NoResponse | Reply(status: int, text: string)

  /** Current contents of the database and token destinations. */
  datatype Destinations = Destinations(db: Option<string>, token: Option<string>)

  datatype Outcome = Outcome(dest: Destinations, response: Response)

  /** `regex(s, p)` splits `s` around the matches of the expression `p`, or
      fails with the message of the PatternSyntaxException that compiling `p`
      throws (as for `--abc(`, whose group is never closed). */
  type RegexSplitter = (string, string) -> Result<seq<string>>

  const Crlf: string := "\r\n"
  const HeaderEnd: string := "\r\n\r\n"
  const DbMarker: string := "name=\"dbFile\""
  const TokenMarker: string := "name=\"tokenFile\""
  const Multipart: string := "multipart/form-data"
  const BoundaryKey: string := "boundary="
  const Success: string := "Files uploaded successfully"
  const InvalidType: string := "Invalid content type"
  const UploadForm: string :=
    "<html><body>\n<form method='POST' enctype='multipart/form-data' action='/upload'>\n"
    + "<label for=\"dbFile\">Database File:</label>\n<input type='file' id='dbFile' name='dbFile'/><br>\n"
    + "<label for=\"tokenFile\">Token File:</label>\n<input type='file' id='tokenFile' name='tokenFile'/><br>\n"
    + "<input type='submit' value='Upload'/>\n</form>\n</body></html>\n"

  /** The handler of "/": a GET receives the upload form; any other request
      gets no response, since the handler returns without answering or
      closing the exchange. */
  function HandleRoot(verb: string): (r: Response)
    ensures r.Reply? <==> verb == "GET"
    ensures r.Reply? ==> r.status == 200 && Contains(r.text, "action='/upload'")
  {
    if verb == "GET" then
      assert UploadForm[63..79] == "action='/upload'";
      assert OccursAt(UploadForm, "action='/upload'", 63);
      Reply(200, UploadForm)
    else NoResponse
  }

  predicate IsRegexMeta(c: char) {
    c in ".$|()[]{}^?*+\\"
  }

  predicate LiteralPattern(p: string) {
    forall i :: 0 <= i < |p| ==> !IsRegexMeta(p[i])
  }

  /** Java's `String.split(regex)`: a pattern without metacharacters is split
      literally and never fails; any other pattern may be rejected as invalid. */
  function RegexSplit(s: string, pattern: string, regex: RegexSplitter): (r: Result<seq<string>>)
    requires |pattern| > 0
    ensures LiteralPattern(pattern) ==> r == Ok(JavaSplit(s, pattern))
    ensures r.Err? ==> !LiteralPattern(pattern) && r.error.PatternSyntaxError?
    ensures r.Err? <==> !LiteralPattern(pattern) && regex(s, pattern).Err?
  {
    if LiteralPattern(pattern) then Ok(JavaSplit(s, pattern))
    else
      match regex(s, pattern)
      case Ok(pieces) => Ok(pieces)
      case Err(e) => Err(PatternSyntaxError(e.Message()))
  }

  /** The message of the StringIndexOutOfBoundsException `String.substring`
      throws for out-of-order bounds. */
  function BoundsMessage(begin: int, end: int, length: int): string {
    "begin " + IntToString(begin) + ", end " + IntToString(end) + ", length " + IntToString(length)
  }

  /** `part.substring(part.indexOf("\r\n\r\n") + 4, part.lastIndexOf("\r\n"))`,
      failing with StringIndexOutOfBoundsException when the bounds are out of
      order. A part without a blank line starts its content at index 3. */
  function FileContent(part: string): (r: Result<string>)
    ensures r.Ok? ==> |r.value| + 5 <= |part|
    ensures r.Ok? ==> OccursAt(part, Crlf, |part| - 2) ==> EndsWith(part[..|part| - 2], r.value)
    ensures !Contains(part, Crlf) ==> r.Err?
    ensures r.Err? ==> r.error.IndexError? && StartsWith(r.error.msg, "begin ")
  {
    var b := IndexOf(part, HeaderEnd) + 4;
    var e := LastIndexOf(part, Crlf);
    if b <= e then Ok(part[b..e]) else Err(IndexError(BoundsMessage(b, e, |part|)))
  }

  /** A part without any line break fails with the bounds Java reports: the
      content would begin at index 3 and end at index -1. */
  lemma FileContentWithoutBreak(part: string)
    requires !Contains(part, Crlf)
    ensures FileContent(part) == Err(IndexError("begin 3, end -1, length " + NatToString(|part|)))
  {
    NoBreakBounds(part);
    assert FileContent(part) == Err(IndexError(BoundsMessage(3, -1, |part|)));
    BoundsMessageMissing(|part|);
  }

  lemma NoBreakBounds(part: string)
    requires !Contains(part, Crlf)
    ensures IndexOf(part, HeaderEnd) == -1 && LastIndexOf(part, Crlf) == -1
  {
    assert HeaderEnd == Crlf + Crlf;
    if Contains(part, HeaderEnd) {
      ContainsPrefixOf(part, Crlf, Crlf);
    }
  }

  lemma BoundsMessageMissing(length: nat)
    ensures BoundsMessage(3, -1, length) == "begin 3, end -1, length " + NatToString(length)
  {
    assert IntToString(3) == "3";
    assert IntToString(-1) == "-" + NatToString(1) == "-1";
  }

  /** The multipart encoding of one form field, the partner of `FileContent`. */
  function EncodePart(name: string, content: string): string {
    Crlf + "Content-Disposition: form-data; name=\"" + name + "\"" + HeaderEnd + content + Crlf
  }

  /** The first blank line of `h + "\r\n\r\n" + rest` is the one after `h` when
      `h` has no carriage return after its first character. */
  lemma HeaderEndAt(part: string, h: string, rest: string)
    requires part == h + HeaderEnd + rest
    requires |h| >= 3 && forall i :: 1 <= i < |h| ==> h[i] != '\r'
    ensures IndexOf(part, HeaderEnd) == |h|
  {
    assert part[|h|..|h| + 4] == HeaderEnd;
    assert OccursAt(part, HeaderEnd, |h|);
    forall j | 0 <= j < |h|
      ensures !OccursAt(part, HeaderEnd, j)
    {
      if j == 0 {
        assert part[2] == h[2];
      } else {
        assert part[j] == h[j];
      }
    }
  }

  /** Extracting the content of an encoded field gives back the content. */
  lemma ExtractEncoded(name: string, content: string)
    requires forall i :: 0 <= i < |name| ==> name[i] != '\r'
    ensures FileContent(EncodePart(name, content)) == Ok(content)
  {
    var lead := "Content-Disposition: form-data; name=\"";
    var h := Crlf + lead + name + "\"";
    var part := EncodePart(name, content);
    assert part == h + HeaderEnd + (content + Crlf);
    forall i | 1 <= i < |h|
      ensures h[i] != '\r'
    {
      if i < 2 + |lead| {
      } else if i < 2 + |lead| + |name| {
        assert h[i] == name[i - 2 - |lead|];
      }
    }
    HeaderEndAt(part, h, content + Crlf);
    assert OccursAt(part, Crlf, |part| - 2);
    assert part[|h| + 4..|part| - 2] == content;
  }

  // ---------------------------------------------------------------------------
  // Storing the parts
  // ---------------------------------------------------------------------------

  datatype Field = DbField | TokenField

  /** The field a part is stored as: `dbFile` is tested first, so a part that
      names both fields is stored as the database. */
  predicate Carries(part: string, f: Field) {
    match f
    case DbField => Contains(part, DbMarker)
    case TokenField => !Contains(part, DbMarker) && Contains(part, TokenMarker)
  }

  predicate IsField(part: string) {
    Carries(part, DbField) || Carries(part, TokenField)
  }

  /** A field part whose content cannot be extracted. */
  predicate Fails(part: string) {
    IsField(part) && FileContent(part).Err?
  }

  /** One iteration of the loop over the parts: write the field's content to its
      destination, replacing what was there. */
  function StorePart(dest: Destinations, part: string): (r: Result<Destinations>)
    ensures r.Err? <==> Fails(part)
    ensures r.Err? ==> r.error == FileContent(part).error
    ensures !IsField(part) ==> r == Ok(dest)
    ensures r.Ok? && Carries(part, DbField) ==> r.value.token == dest.token && r.value.db.Some?
    ensures r.Ok? && Carries(part, TokenField) ==> r.value.db == dest.db && r.value.token.Some?
  {
    if Carries(part, DbField) then
      var c :- FileContent(part);
      Ok(dest.(db := Some(c)))
    else if Carries(part, TokenField) then
      var c :- FileContent(part);
      Ok(dest.(token := Some(c)))
    else Ok(dest)
  }

  /** The destinations after the loop and the exception that ended it, if any. */
  datatype Progress = Progress(dest: Destinations, failure: Option<Error>)

  function StoreParts(dest: Destinations, parts: seq<string>): (r: Progress)
    ensures |parts| == 0 ==> r == Progress(dest, None)
    ensures r.failure.Some? ==> r.failure.value.IndexError?
    ensures (forall k :: 0 <= k < |parts| ==> !IsField(parts[k])) ==> r == Progress(dest, None)
    decreases |parts|
  {
    if |parts| == 0 then Progress(dest, None)
    else
      match StorePart(dest, parts[0])
      case Err(e) => Progress(dest, Some(e))
      case Ok(next) => StoreParts(next, parts[1..])
  }

  /** Reference definition: the content of the last part stored as `f`, or
      `fallback` when there is none. */
  function LastContent(parts: seq<string>, f: Field, fallback: Option<string>): Option<string>
    decreases |parts|
  {
    if |parts| == 0 then fallback
    else Keep(parts[|parts| - 1], f, LastContent(parts[..|parts| - 1], f, fallback))
  }

  function Keep(part: string, f: Field, earlier: Option<string>): Option<string> {
    if Carries(part, f) && FileContent(part).Ok? then Some(FileContent(part).value) else earlier
  }

  /** What the destinations hold after storing `parts` without failure. */
  function Stored(dest: Destinations, parts: seq<string>): Destinations {
    Destinations(LastContent(parts, DbField, dest.db), LastContent(parts, TokenField, dest.token))
  }

  lemma {:induction false} LastContentCons(p: string, rest: seq<string>, f: Field, fallback: Option<string>)
    ensures LastContent([p] + rest, f, fallback) == LastContent(rest, f, Keep(p, f, fallback))
    decreases |rest|
  {
    var whole := [p] + rest;
    if |rest| == 0 {
      assert whole == [p] && whole[..0] == [];
    } else {
      var init := rest[..|rest| - 1];
      assert whole[..|whole| - 1] == [p] + init;
      assert whole[|whole| - 1] == rest[|rest| - 1];
      LastContentCons(p, init, f, fallback);
    }
  }

  /** Storing one part that does not fail is storing the one-part sequence. */
  lemma StorePartStored(dest: Destinations, p: string)
    requires !Fails(p)
    ensures StorePart(dest, p) == Ok(Stored(dest, [p]))
  {
    assert [p][..0] == [];
    assert LastContent([p], DbField, dest.db) == Keep(p, DbField, dest.db);
    assert LastContent([p], TokenField, dest.token) == Keep(p, TokenField, dest.token);
  }

  /** The loop over the parts fails exactly when some field part has no
      extractable content. */
  lemma {:induction false} StorePartsFails(dest: Destinations, parts: seq<string>)
    ensures StoreParts(dest, parts).failure.Some? <==> exists k :: 0 <= k < |parts| && Fails(parts[k])
    decreases |parts|
  {
    if |parts| > 0 {
      var p := parts[0];
      var rest := parts[1..];
      if Fails(p) {
        assert StorePart(dest, p).Err?;
      } else {
        StorePartStored(dest, p);
        StorePartsFails(Stored(dest, [p]), rest);
        if k :| 0 <= k < |parts| && Fails(parts[k]) {
          assert k > 0 && rest[k - 1] == parts[k];
        }
        if k :| 0 <= k < |rest| && Fails(rest[k]) {
          assert parts[k + 1] == rest[k];
        }
      }
    }
  }

  /** Without failure, each destination holds the content of the last part of
      its field, or its earlier content when no part names the field. */
  lemma {:induction false} StorePartsLastWins(dest: Destinations, parts: seq<string>)
    requires forall k :: 0 <= k < |parts| ==> !Fails(parts[k])
    ensures StoreParts(dest, parts).failure.None?
    ensures StoreParts(dest, parts).dest == Stored(dest, parts)
    decreases |parts|
  {
    if |parts| > 0 {
      var p := parts[0];
      var rest := parts[1..];
      assert parts == [p] + rest;
      assert !Fails(p);
      StorePartStored(dest, p);
      StorePartsLastWins(Stored(dest, [p]), rest);
      assert [p][..0] == [];
      LastContentCons(p, rest, DbField, dest.db);
      LastContentCons(p, rest, TokenField, dest.token);
    }
  }

  /** When a part fails, the writes of the parts before it are kept. */
  lemma {:induction false} StorePartsKeepsEarlier(dest: Destinations, parts: seq<string>, k: int)
    requires 0 <= k < |parts| && Fails(parts[k])
    requires forall j :: 0 <= j < k ==> !Fails(parts[j])
    ensures StoreParts(dest, parts) == Progress(Stored(dest, parts[..k]), Some(FileContent(parts[k]).error))
    decreases |parts|
  {
    if k == 0 {
      StorePartsHeadFails(dest, parts);
    } else {
      var rest := parts[1..];
      assert rest[k - 1] == parts[k];
      assert forall j :: 0 <= j < k - 1 ==> rest[j] == parts[j + 1];
      StorePartsKeepsEarlier(Stored(dest, [parts[0]]), rest, k - 1);
      StorePartsKeepsPrefix(dest, parts, k, Some(FileContent(parts[k]).error));
    }
  }

  /** The inductive step: storing the first part and then the next `k - 1`
      is storing the first `k`, whatever ended the loop. */
  lemma StorePartsKeepsPrefix(dest: Destinations, parts: seq<string>, k: int, failure: Option<Error>)
    requires 0 < k <= |parts| && !Fails(parts[0])
    requires StoreParts(Stored(dest, [parts[0]]), parts[1..]) == Progress(Stored(Stored(dest, [parts[0]]), parts[1..][..k - 1]), failure)
    ensures StoreParts(dest, parts) == Progress(Stored(dest, parts[..k]), failure)
  {
    StorePartsStep(dest, parts);
    TakeCons(parts, k);
    StoredCons(dest, parts[0], parts[1..][..k - 1]);
  }

  /** A failing first part ends the loop with nothing written. */
  lemma StorePartsHeadFails(dest: Destinations, parts: seq<string>)
    requires |parts| > 0 && Fails(parts[0])
    ensures StoreParts(dest, parts) == Progress(Stored(dest, parts[..0]), Some(FileContent(parts[0]).error))
  {
    assert StorePart(dest, parts[0]) == Err(FileContent(parts[0]).error);
    assert Stored(dest, parts[..0]) == dest by {
      assert parts[..0] == [];
    }
  }

  /** A first part that does not fail is stored, and the loop goes on. */
  lemma StorePartsStep(dest: Destinations, parts: seq<string>)
    requires |parts| > 0 && !Fails(parts[0])
    ensures StoreParts(dest, parts) == StoreParts(Stored(dest, [parts[0]]), parts[1..])
  {
    StorePartStored(dest, parts[0]);
  }

  lemma TakeCons<T>(s: seq<T>, k: nat)
    requires 0 < k <= |s|
    ensures s[..k] == [s[0]] + s[1..][..k - 1]
  {
  }

  /** Storing a part and then the rest is storing the whole sequence. */
  lemma StoredCons(dest: Destinations, p: string, tail: seq<string>)
    ensures Stored(dest, [p] + tail) == Stored(Stored(dest, [p]), tail)
  {
    assert [p][..0] == [];
    assert LastContent([p], DbField, dest.db) == Keep(p, DbField, dest.db);
    assert LastContent([p], TokenField, dest.token) == Keep(p, TokenField, dest.token);
    LastContentCons(p, tail, DbField, dest.db);
    LastContentCons(p, tail, TokenField, dest.token);
  }

  // ---------------------------------------------------------------------------
  // The /upload handler
  // ---------------------------------------------------------------------------

  predicate IsMultipart(contentType: Option<string>) {
    contentType.Some? && Contains(contentType.value, Multipart)
  }

  const ErrorPrefix: string := "Error processing upload: "

  /** The message of the ArrayIndexOutOfBoundsException an array access past
      its end throws. */
  function IndexMessage(index: int, length: int): string {
    "Index " + IntToString(index) + " out of bounds for length " + IntToString(length)
  }

  /** A content type without a boundary has one piece, so `split(...)[1]`
      reports index 1 against length 1. */
  lemma NoBoundaryMessage()
    ensures IndexMessage(1, 1) == "Index 1 out of bounds for length 1"
  {
    assert IntToString(1) == "1";
  }

  /** The handler of "/upload". */
  function HandleUpload(req: Request, dest: Destinations, regex: RegexSplitter): (r: Outcome)
    ensures req.verb != "POST" ==> r == Outcome(dest, NoResponse)
    ensures req.verb == "POST" && !IsMultipart(req.contentType) ==> r == Outcome(dest, Reply(400, InvalidType))
    ensures req.verb == "POST" ==> r.response.Reply? && r.response.status in {200, 400, 500}
    ensures r.response.Reply? && r.response.status == 200 ==>
      req.verb == "POST" && IsMultipart(req.contentType) && r.response.text == Success
    ensures IsMultipart(req.contentType) && !Contains(req.contentType.value, BoundaryKey) ==>
      r.dest == dest && (req.verb == "POST" ==> r.response.Reply? && r.response.status == 500)
    ensures req.verb == "POST" && IsMultipart(req.contentType) && !Contains(req.contentType.value, BoundaryKey) ==>
      r.response == Reply(500, ErrorPrefix + IndexMessage(1, 1))
  {
    if req.verb != "POST" then Outcome(dest, NoResponse)
    else if !IsMultipart(req.contentType) then Outcome(dest, Reply(400, InvalidType))
    else
      var pieces := JavaSplit(req.contentType.value, BoundaryKey);
      if |pieces| < 2 then Outcome(dest, Reply(500, ErrorPrefix + IndexMessage(1, |pieces|)))
      else
        match RegexSplit(req.body, "--" + pieces[1], regex)
        case Err(e) => Outcome(dest, Reply(500, ErrorPrefix + e.Message()))
        case Ok(parts) =>
          var progress := StoreParts(dest, parts);
          if progress.failure.Some? then Outcome(progress.dest, Reply(500, ErrorPrefix + progress.failure.value.Message()))
          else Outcome(progress.dest, Reply(200, Success))
  }

  /** A multipart upload with the given boundary: an empty preamble, the two
      fields, and the closing delimiter. */
  function EncodeForm(boundary: string, db: string, token: string): string {
    JoinWith(["", EncodePart("dbFile", db), EncodePart("tokenFile", token), "--\r\n"], "--" + boundary)
  }

  function FormContentType(boundary: string): string {
    Multipart + "; " + BoundaryKey + boundary
  }

  lemma ContentTypeSplits(boundary: string)
    requires |boundary| > 0 && !Contains(boundary, BoundaryKey)
    ensures IsMultipart(Some(FormContentType(boundary)))
    ensures JavaSplit(FormContentType(boundary), BoundaryKey) == [Multipart + "; ", boundary]
  {
    var ct := FormContentType(boundary);
    var pre := Multipart + "; ";
    assert ct[..|Multipart|] == Multipart;
    assert OccursAt(ct, Multipart, 0);
    assert ct == JoinWith([pre, boundary], BoundaryKey);
    MissingLastNotContained(pre, BoundaryKey);
    SplitJoinWith([pre, boundary], BoundaryKey);
    assert ct[|pre|..|pre| + |BoundaryKey|] == BoundaryKey;
    assert OccursAt(ct, BoundaryKey, |pre|);
  }

  lemma BodySplits(boundary: string, db: string, token: string)
    requires |boundary| > 0
    requires forall i :: 0 <= i < |boundary| ==> boundary[i] != '\r' && boundary[i] != '\n'
    requires !Contains(EncodePart("dbFile", db), "--" + boundary)
    requires !Contains(EncodePart("tokenFile", token), "--" + boundary)
    ensures JavaSplit(EncodeForm(boundary, db, token), "--" + boundary)
         == ["", EncodePart("dbFile", db), EncodePart("tokenFile", token), "--\r\n"]
  {
    var d := "--" + boundary;
    var p1 := EncodePart("dbFile", db);
    var p2 := EncodePart("tokenFile", token);
    var closing := "--\r\n";
    var parts := ["", p1, p2, closing];
    var body := EncodeForm(boundary, db, token);
    forall i | 0 <= i < |d|
      ensures d[i] != '\n'
    {
      if i >= 2 { assert d[i] == boundary[i - 2]; }
    }
    assert p1[|p1| - 1] == '\n' && p2[|p2| - 1] == '\n';
    forall j | 0 <= j <= |closing| - |d|
      ensures !OccursAt(closing, d, j)
    {
      assert d[2] == boundary[0];
      assert closing[j..j + |d|][2] == closing[j + 2];
    }
    SplitJoinWith(parts, d);
    assert body[..|d|] == d;
    assert OccursAt(body, d, 0);
  }

  lemma StoresDbPart(dest: Destinations, db: string)
    ensures StorePart(dest, EncodePart("dbFile", db)) == Ok(dest.(db := Some(db)))
  {
    ExtractEncoded("dbFile", db);
    NamesDb(db);
  }

  lemma NamesDb(db: string)
    ensures Contains(EncodePart("dbFile", db), DbMarker)
  {
    var p1 := EncodePart("dbFile", db);
    assert p1[34..47] == DbMarker;
    assert OccursAt(p1, DbMarker, 34);
  }

  lemma StoresTokenPart(dest: Destinations, token: string)
    requires !Contains(EncodePart("tokenFile", token), DbMarker)
    ensures StorePart(dest, EncodePart("tokenFile", token)) == Ok(dest.(token := Some(token)))
  {
    ExtractEncoded("tokenFile", token);
    NamesToken(token);
  }

  lemma NamesToken(token: string)
    ensures Contains(EncodePart("tokenFile", token), TokenMarker)
  {
    var p2 := EncodePart("tokenFile", token);
    assert p2[34..50] == TokenMarker;
    assert OccursAt(p2, TokenMarker, 34);
  }

  lemma StoreFormParts(dest: Destinations, db: string, token: string)
    requires !Contains(EncodePart("tokenFile", token), DbMarker)
    ensures StoreParts(dest, ["", EncodePart("dbFile", db), EncodePart("tokenFile", token), "--\r\n"])
         == Progress(Destinations(Some(db), Some(token)), None)
  {
    var p1 := EncodePart("dbFile", db);
    var p2 := EncodePart("tokenFile", token);
    var closing := "--\r\n";
    var parts := ["", p1, p2, closing];
    var afterDb := dest.(db := Some(db));
    var afterBoth := afterDb.(token := Some(token));
    StoresDbPart(dest, db);
    StoresTokenPart(afterDb, token);
    assert StorePart(dest, "") == Ok(dest);
    assert StorePart(afterBoth, closing) == Ok(afterBoth);
    assert parts[1..] == [p1, p2, closing];
    assert StoreParts(afterBoth, [closing]) == Progress(afterBoth, None) by {
      assert [closing][1..] == [];
    }
    assert StoreParts(afterDb, [p2, closing]) == Progress(afterBoth, None) by {
      assert [p2, closing][1..] == [closing];
    }
    assert StoreParts(dest, [p1, p2, closing]) == Progress(afterBoth, None) by {
      assert [p1, p2, closing][1..] == [p2, closing];
    }
  }

  /** The message a failing part reports is the bounds of its `substring`. */
  lemma FailedPartMessage(part: string)
    requires FileContent(part).Err?
    ensures FileContent(part).error.Message()
         == BoundsMessage(IndexOf(part, HeaderEnd) + 4, LastIndexOf(part, Crlf), |part|)
  {
  }

  /** An upload whose first failing part is `parts[k]` keeps the contents stored
      before it and answers 500 with the bounds that part's `substring` reported. */
  lemma UploadFailure(req: Request, dest: Destinations, regex: RegexSplitter, parts: seq<string>, k: int)
    requires req.verb == "POST" && IsMultipart(req.contentType)
    requires |JavaSplit(req.contentType.value, BoundaryKey)| >= 2
    requires RegexSplit(req.body, "--" + JavaSplit(req.contentType.value, BoundaryKey)[1], regex) == Ok(parts)
    requires 0 <= k < |parts| && Fails(parts[k])
    requires forall j :: 0 <= j < k ==> !Fails(parts[j])
    ensures var part := parts[k];
      HandleUpload(req, dest, regex) == Outcome(Stored(dest, parts[..k]),
        Reply(500, ErrorPrefix + BoundsMessage(IndexOf(part, HeaderEnd) + 4, LastIndexOf(part, Crlf), |part|)))
  {
    var part := parts[k];
    var e := FileContent(part).error;
    UploadOfParts(req, dest, regex, parts);
    StorePartsKeepsEarlier(dest, parts, k);
    assert StoreParts(dest, parts) == Progress(Stored(dest, parts[..k]), Some(e));
    FailedPartMessage(part);
    assert e.Message() == BoundsMessage(IndexOf(part, HeaderEnd) + 4, LastIndexOf(part, Crlf), |part|);
  }

  /** Once the body is split, the reply depends only on how storing the parts
      went. */
  lemma UploadOfParts(req: Request, dest: Destinations, regex: RegexSplitter, parts: seq<string>)
    requires req.verb == "POST" && IsMultipart(req.contentType)
    requires |JavaSplit(req.contentType.value, BoundaryKey)| >= 2
    requires RegexSplit(req.body, "--" + JavaSplit(req.contentType.value, BoundaryKey)[1], regex) == Ok(parts)
    ensures var progress := StoreParts(dest, parts);
      HandleUpload(req, dest, regex) == Outcome(progress.dest,
        if progress.failure.Some? then Reply(500, ErrorPrefix + progress.failure.value.Message()) else Reply(200, Success))
  {
  }

  /** A boundary the regular-expression compiler rejects stores nothing and
      answers 500 with the PatternSyntaxException's message. */
  lemma InvalidBoundaryStoresNothing(req: Request, dest: Destinations, regex: RegexSplitter, e: Error)
    requires req.verb == "POST" && IsMultipart(req.contentType)
    requires |JavaSplit(req.contentType.value, BoundaryKey)| >= 2
    requires var delimiter := "--" + JavaSplit(req.contentType.value, BoundaryKey)[1];
      !LiteralPattern(delimiter) && regex(req.body, delimiter) == Err(e)
    ensures HandleUpload(req, dest, regex) == Outcome(dest, Reply(500, ErrorPrefix + e.Message()))
  {
    var delimiter := "--" + JavaSplit(req.contentType.value, BoundaryKey)[1];
    assert RegexSplit(req.body, delimiter, regex) == Err(PatternSyntaxError(e.Message()));
  }

  /** A form whose boundary holds a metacharacter goes through the
      regular-expression compiler; when that rejects it, nothing is stored. */
  lemma InvalidFormBoundary(boundary: string, body: string, dest: Destinations, regex: RegexSplitter, e: Error)
    requires |boundary| > 0 && !Contains(boundary, BoundaryKey) && !LiteralPattern(boundary)
    requires regex(body, "--" + boundary) == Err(e)
    ensures HandleUpload(Request("POST", Some(FormContentType(boundary)), body), dest, regex)
         == Outcome(dest, Reply(500, ErrorPrefix + e.Message()))
  {
    var req := Request("POST", Some(FormContentType(boundary)), body);
    ContentTypeSplits(boundary);
    var i :| 0 <= i < |boundary| && IsRegexMeta(boundary[i]);
    assert ("--" + boundary)[i + 2] == boundary[i];
    InvalidBoundaryStoresNothing(req, dest, regex, e);
  }

  /** RFC 2046 allows `(` in a boundary, but `--abc(` is not a valid regular
      expression: an upload with that boundary is refused whatever its body. */
  lemma UnclosedGroupBoundary(body: string, dest: Destinations, regex: RegexSplitter, e: Error)
    requires regex(body, "--abc(") == Err(e)
    ensures HandleUpload(Request("POST", Some(FormContentType("abc(")), body), dest, regex)
         == Outcome(dest, Reply(500, ErrorPrefix + e.Message()))
  {
    assert !Contains("abc(", BoundaryKey) by {
      assert |"abc("| < |BoundaryKey|;
    }
    assert IsRegexMeta("abc("[3]);
    assert "--" + "abc(" == "--abc(";
    InvalidFormBoundary("abc(", body, dest, regex, e);
  }

  /** Uploading a well-formed form stores both fields' contents and answers 200.
      The boundary must not occur in either encoded field (section 5.1.1 of
      RFC 2046 demands this of a multipart body), holds no CR, LF or
      regular-expression metacharacter, and the token part must not name the
      database field. */
  lemma UploadRoundTrip(boundary: string, db: string, token: string, dest: Destinations, regex: RegexSplitter)
    requires |boundary| > 0 && LiteralPattern(boundary)
    requires forall i :: 0 <= i < |boundary| ==> boundary[i] != '\r' && boundary[i] != '\n'
    requires !Contains(boundary, BoundaryKey)
    requires !Contains(EncodePart("dbFile", db), "--" + boundary)
    requires !Contains(EncodePart("tokenFile", token), "--" + boundary)
    requires !Contains(EncodePart("tokenFile", token), DbMarker)
    ensures HandleUpload(Request("POST", Some(FormContentType(boundary)), EncodeForm(boundary, db, token)), dest, regex)
         == Outcome(Destinations(Some(db), Some(token)), Reply(200, Success))
  {
    var d := "--" + boundary;
    forall i | 0 <= i < |d|
      ensures !IsRegexMeta(d[i])
    {
      if i >= 2 { assert d[i] == boundary[i - 2]; }
    }
    ContentTypeSplits(boundary);
    BodySplits(boundary, db, token);
    StoreFormParts(dest, db, token);
  }
}
