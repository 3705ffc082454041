/** clients/java/.../DrizzSession.java: multipart bodies as the client builds them, and the boundary it finds in
    them again. */
module MultipartClient {
  import opened Options
  import opened Streams
  import opened MultipartReader

  datatype Field = Field(name: string, value: string)

  // ---- Extra fields ----

  function Pieces(s: string): seq<string>
    decreases |s|
  {
    var i := IndexOf(s, '&');
    if i == |s| then [s] else [s[..i]] + Pieces(s[i + 1..])
  }

  function WithoutTrailingEmpty(pieces: seq<string>): seq<string> {
    if pieces != [] && pieces[|pieces| - 1] == "" then WithoutTrailingEmpty(pieces[..|pieces| - 1]) else pieces
  }

  /** String.split("&"): trailing empty strings are dropped, unless there is nothing to split. */
  function JavaSplit(s: string): seq<string> {
    if '&' !in s then [s] else WithoutTrailingEmpty(Pieces(s))
  }

  /** A piece without an equals sign is skipped. */
  function FieldsIn(piece: string): seq<Field> {
    var eq := IndexOf(piece, '=');
    if eq == |piece| then [] else [Field(piece[..eq], piece[eq + 1..])]
  }

  function FieldsOf(pieces: seq<string>): seq<Field> {
    if pieces == [] then [] else FieldsOf(pieces[..|pieces| - 1]) + FieldsIn(pieces[|pieces| - 1])
  }

  function ExtraFields(extra: Option<string>): seq<Field> {
    match extra case None => [] case Some(s) => if s == "" then [] else FieldsOf(JavaSplit(s))
  }

  /** "k=v&k2=v2" */
  function Joined(fields: seq<Field>): string {
    if fields == [] then ""
    else if |fields| == 1 then fields[0].name + "=" + fields[0].value
    else fields[0].name + "=" + fields[0].value + "&" + Joined(fields[1..])
  }

  predicate Separable(f: Field) {
    '&' !in f.name && '=' !in f.name && '&' !in f.value
  }

  // ---- Parts ----

  function Parameter(key: string, value: string): string {
    "; " + (key + "=" + ("\"" + (value + "\"")))
  }

  function ParameterText(p: Part): string {
    Parameter(NAME, p.name) + if p.filename.Some? then Parameter(FILENAME, p.filename.value) else ""
  }

  function HeaderLines(p: Part): seq<string> {
    [DISPOSITION + (FORM_DATA + ParameterText(p))]
    + if p.mime.Some? then [CONTENT_TYPE + p.mime.value] else []
  }

  /** Header lines, an empty line, the body. */
  function Content(lines: seq<string>, body: string): string {
    if lines == [] then CRLF + body else lines[0] + CRLF + Content(lines[1..], body)
  }

  function Contents(parts: seq<Part>): (r: seq<string>)
    ensures |r| == |parts|
    ensures forall i :: 0 <= i < |parts| ==> r[i] == Content(HeaderLines(parts[i]), parts[i].body)
  {
    if parts == [] then [] else [Content(HeaderLines(parts[0]), parts[0].body)] + Contents(parts[1..])
  }

  function TextParts(fields: seq<Field>): seq<Part> {
    if fields == [] then []
    else TextParts(fields[..|fields| - 1])
         + [Part(fields[|fields| - 1].name, None, None, fields[|fields| - 1].value)]
  }

  ghost predicate OneLine(s: string) {
    !Occurs(CRLF, s)
  }

  predicate Unescaped(s: string) {
    '"' !in s && '\\' !in s
  }

  /** A name that can stand between quotes in a header. */
  ghost predicate Quotable(s: string) {
    Unescaped(s) && OneLine(s)
  }

  ghost predicate Sendable(p: Part) {
    Quotable(p.name) && (p.filename.Some? ==> Quotable(p.filename.value)) && (p.mime.Some? ==> OneLine(p.mime.value))
  }

  /** No line of the text begins with the boundary and its two dashes. */
  ghost predicate FreeOf(boundary: string, text: string) {
    !Occurs(Delimiter(boundary), CRLF + text)
  }

  ghost predicate IsFormOf(boundary: string, parts: seq<Part>, body: string) {
    CRLF + body == Delimiter(boundary) + Trailer(Contents(parts), Delimiter(boundary))
  }

  // ---- Extra fields, proofs ----

  lemma {:induction false} TrailingEmptyHoldNoFields(pieces: seq<string>)
    ensures FieldsOf(WithoutTrailingEmpty(pieces)) == FieldsOf(pieces)
  {
    if pieces != [] && pieces[|pieces| - 1] == "" {
      TrailingEmptyHoldNoFields(pieces[..|pieces| - 1]);
    }
  }

  lemma {:induction false} FieldsOfCons(piece: string, pieces: seq<string>)
    ensures FieldsOf([piece] + pieces) == FieldsIn(piece) + FieldsOf(pieces)
  {
    var all := [piece] + pieces;
    if pieces == [] {
      assert all[..0] == [];
    } else {
      assert all[..|all| - 1] == [piece] + pieces[..|pieces| - 1];
      FieldsOfCons(piece, pieces[..|pieces| - 1]);
    }
  }

  lemma FieldIsRead(f: Field)
    requires Separable(f)
    ensures FieldsIn(f.name + "=" + f.value) == [f] && '&' !in f.name + "=" + f.value
  {
    IndexIs(f.name, '=', f.value);
    var s := f.name + ['='] + f.value;
    assert s[..|f.name|] == f.name && s[|f.name| + 1..] == f.value;
  }

  lemma FirstPieceIs(piece: string, rest: string)
    requires '&' !in piece
    ensures Pieces(piece + "&" + rest) == [piece] + Pieces(rest)
  {
    var s := piece + "&" + rest;
    IndexIs(piece, '&', rest);
    assert s[..|piece|] == piece && s[|piece| + 1..] == rest;
  }

  lemma FirstPieceSplitsOff(kv: string, rest: string)
    requires '&' !in kv
    ensures FieldsOf(Pieces(kv + "&" + rest)) == FieldsIn(kv) + FieldsOf(Pieces(rest))
  {
    FirstPieceIs(kv, rest);
    FieldsOfCons(kv, Pieces(rest));
  }

  lemma {:induction false} PiecesOfJoined(fields: seq<Field>)
    requires fields != [] && forall f :: f in fields ==> Separable(f)
    ensures FieldsOf(Pieces(Joined(fields))) == fields
  {
    var f := fields[0];
    var kv := f.name + "=" + f.value;
    assert f in fields;
    FieldIsRead(f);
    if |fields| > 1 {
      FirstPieceSplitsOff(kv, Joined(fields[1..]));
      PiecesOfJoined(fields[1..]);
      assert [f] + fields[1..] == fields;
    } else {
      assert Joined(fields) == kv && fields == [f];
      FieldsOfCons(kv, []);
      assert IndexOf(kv, '&') == |kv| && Pieces(kv) == [kv];
    }
  }

  lemma {:induction false} PiecesHaveNoSeparator(s: string)
    ensures forall p :: p in Pieces(s) ==> '&' !in p
    decreases |s|
  {
    var i := IndexOf(s, '&');
    if i < |s| {
      PiecesHaveNoSeparator(s[i + 1..]);
    }
  }

  lemma {:induction false} FieldsOfPiecesAreSeparable(pieces: seq<string>)
    requires forall p :: p in pieces ==> '&' !in p
    ensures forall f :: f in FieldsOf(pieces) ==> Separable(f)
  {
    if pieces != [] {
      var piece := pieces[|pieces| - 1];
      FieldsOfPiecesAreSeparable(pieces[..|pieces| - 1]);
      assert piece in pieces;
    }
  }

  lemma ExtraFieldsAreThePieces(s: string)
    ensures ExtraFields(Some(s)) == FieldsOf(Pieces(s))
  {
    TrailingEmptyHoldNoFields(Pieces(s));
    assert IndexOf(s, '&') == |s| ==> Pieces(s) == [s];
    FieldsOfCons(s, []);
  }

  lemma {:induction false} PiecesOfBoth(a: string, b: string)
    ensures Pieces(a + "&" + b) == Pieces(a) + Pieces(b)
    decreases |a|
  {
    if '&' in a {
      var x, y := a[..IndexOf(a, '&')], a[IndexOf(a, '&') + 1..];
      AroundAmpersand(a);
      AmpersandsAssociate(x, y, b);
      FirstPieceIs(x, y);
      FirstPieceIs(x, y + "&" + b);
      PiecesOfBoth(y, b);
      Associate([x], Pieces(y), Pieces(b));
    } else {
      FirstPieceIs(a, b);
    }
  }

  lemma AmpersandsAssociate(x: string, y: string, b: string)
    ensures x + "&" + y + "&" + b == x + "&" + (y + "&" + b)
  {
    Associate(x + "&", y + "&", b);
    Associate(x + "&", y, "&");
  }

  lemma {:induction false} FieldsOfBoth(a: seq<string>, b: seq<string>)
    ensures FieldsOf(a + b) == FieldsOf(a) + FieldsOf(b)
  {
    if b == [] {
      assert a + b == a;
    } else {
      assert (a + b)[..|a + b| - 1] == a + b[..|b| - 1];
      FieldsOfBoth(a, b[..|b| - 1]);
    }
  }

  /** What a text of extra fields means, for every text: at each ampersand it falls apart; a piece without an
      equals sign means nothing; any other is the field of that name, up to its first equals sign, with all the
      rest as its value. */
  lemma ExtraFieldsMean(a: string, b: string)
    ensures ExtraFields(Some(a + "&" + b)) == ExtraFields(Some(a)) + ExtraFields(Some(b))
    ensures '&' !in a && '=' !in a ==> ExtraFields(Some(a)) == []
    ensures '&' !in a && '&' !in b && '=' !in a ==> ExtraFields(Some(a + "=" + b)) == [Field(a, b)]
    ensures ExtraFields(None) == []
  {
    ExtraFieldsAreThePieces(a + "&" + b);
    ExtraFieldsAreThePieces(a);
    ExtraFieldsAreThePieces(b);
    PiecesOfBoth(a, b);
    FieldsOfBoth(Pieces(a), Pieces(b));
    OnePiece(a);
    if '&' !in a && '&' !in b && '=' !in a {
      FieldIsRead(Field(a, b));
      OnePiece(a + "=" + b);
      ExtraFieldsAreThePieces(a + "=" + b);
    }
  }

  lemma OnePiece(s: string)
    ensures '&' !in s ==> Pieces(s) == [s] && FieldsOf(Pieces(s)) == FieldsIn(s)
    ensures '=' !in s ==> FieldsIn(s) == []
  {
    if '&' !in s {
      FieldsOfCons(s, []);
      assert FieldsOf([s]) == FieldsIn(s) + [];
    }
  }

  /** Fields joined as k=v&k2=v2 are the fields sent exactly if no name or value contains an ampersand and no
      name an equals sign. */
  lemma FieldsAreSentExactlyWhenSeparable(fields: seq<Field>)
    ensures ExtraFields(Some(Joined(fields))) == fields <==> forall f :: f in fields ==> Separable(f)
  {
    var s := Joined(fields);
    ExtraFieldsAreThePieces(s);
    PiecesHaveNoSeparator(s);
    FieldsOfPiecesAreSeparable(Pieces(s));
    if fields != [] && forall f :: f in fields ==> Separable(f) {
      PiecesOfJoined(fields);
    }
  }

  // ---- Reading a part back ----

  lemma LineIsFound(line: string, rest: string)
    requires OneLine(line)
    ensures Find(CRLF, line + CRLF + rest, 0) == Some(|line|)
    ensures (line + CRLF + rest)[..|line|] == line && (line + CRLF + rest)[|line| + 2..] == rest
  {
    DelimiterIsFound(CRLF, line, rest);
  }

  lemma {:induction false} HeadersAreRead(lines: seq<string>, body: string)
    requires forall l :: l in lines ==> HeaderLine(l)
    ensures Headers(Content(lines, body)) == Some((lines, body))
  {
    if lines == [] {
      NoBreakWithoutCR("");
      LineIsFound("", body);
      assert "" + CRLF + body == CRLF + body;
    } else {
      assert HeaderLine(lines[0]);
      LineIsFound(lines[0], Content(lines[1..], body));
      assert forall l :: l in lines[1..] ==> l in lines;
      HeadersAreRead(lines[1..], body);
      assert [lines[0]] + lines[1..] == lines;
    }
  }

  lemma {:induction false} QuotedIsRead(value: string, rest: string)
    requires Unescaped(value)
    ensures ReadQuoted(value + "\"" + rest) == Some((value, rest))
  {
    var s := value + "\"" + rest;
    if value != "" {
      QuotedIsRead(value[1..], rest);
      assert s[1..] == value[1..] + "\"" + rest;
      assert [value[0]] + value[1..] == value;
    }
  }

  lemma NameAndValueAreRead(key: string, value: string, rest: string)
    requires '=' !in key && Unescaped(value)
    ensures ReadParameter(key + "=" + ("\"" + (value + "\"" + rest))) == Some((key, value, rest))
  {
    var tail := value + "\"" + rest;
    var s := key + "=" + ("\"" + tail);
    IndexIs(key, '=', "\"" + tail);
    QuotedIsRead(value, rest);
    assert s[|key| + 2..] == tail && s[..|key|] == key && s[|key| + 1] == '"';
  }

  lemma Nested<T>(p: seq<T>, k: seq<T>, e: seq<T>, q: seq<T>, v: seq<T>, r: seq<T>)
    ensures (p + (k + e + (q + (v + q)))) + r == p + (k + e + (q + (v + q + r)))
  {
    Associate(p, k + e + (q + (v + q)), r);
    Associate(k + e, q + (v + q), r);
    Associate(q, v + q, r);
  }

  lemma ParametersStep(t: string)
    ensures Parameters("; " + t) == match ReadParameter(t)
                                    case None => None
                                    case Some((key, value, rest)) => Prepend(Some((key, value)), Parameters(rest))
  {
    var s := "; " + t;
    assert s[2..] == t && s[0] == ';' && s[1] == ' ';
  }

  lemma ParameterIsRead(key: string, value: string, rest: string)
    requires '=' !in key && Unescaped(value)
    ensures Parameters(Parameter(key, value) + rest) == Prepend(Some((key, value)), Parameters(rest))
  {
    Nested("; ", key, "=", "\"", value, rest);
    NameAndValueAreRead(key, value, rest);
    ParametersStep(key + "=" + ("\"" + (value + "\"" + rest)));
  }

  lemma LastParameterIsRead(key: string, value: string)
    requires '=' !in key && Unescaped(value)
    ensures Parameters(Parameter(key, value)) == Some([(key, value)])
  {
    ParameterIsRead(key, value, "");
    assert Parameter(key, value) + "" == Parameter(key, value);
    assert [(key, value)] + [] == [(key, value)];
  }

  lemma KeysAreDifferentWords()
    ensures '=' !in NAME && CR !in NAME && '=' !in FILENAME && CR !in FILENAME && NAME != FILENAME
  {
    assert NAME[0] != FILENAME[0];
  }

  lemma ParameterTextIsRead(p: Part)
    requires Sendable(p)
    ensures Parameters(ParameterText(p)) ==
              Some([(NAME, p.name)] + if p.filename.Some? then [(FILENAME, p.filename.value)] else [])
  {
    KeysAreDifferentWords();
    match p.filename {
      case Some(filename) =>
        LastParameterIsRead(FILENAME, filename);
        ParameterIsRead(NAME, p.name, Parameter(FILENAME, filename));
      case None =>
        LastParameterIsRead(NAME, p.name);
        assert Parameter(NAME, p.name) + "" == Parameter(NAME, p.name);
        assert [(NAME, p.name)] + [] == [(NAME, p.name)];
    }
  }

  lemma NamesAreFound(name: string, filename: Option<string>)
    ensures var ps := [(NAME, name)] + if filename.Some? then [(FILENAME, filename.value)] else [];
            Lookup(ps, NAME) == Some(name) && Lookup(ps, FILENAME) == filename
  {
    KeysAreDifferentWords();
    var first, second := [(NAME, name)], if filename.Some? then [(FILENAME, filename.value)] else [];
    assert (first + second)[1..] == second;
    assert Lookup(second, FILENAME) == filename;
  }

  lemma StartsWith(prefix: string, rest: string)
    ensures At(prefix, prefix + rest, 0) && (prefix + rest)[|prefix|..] == rest
  {
  }

  ghost predicate HeaderLine(line: string) {
    line != "" && line[0] == 'C' && OneLine(line)
  }

  lemma NoBreakWithoutCR(s: string)
    requires CR !in s
    ensures OneLine(s)
  {
    forall j: nat ensures !At(CRLF, s, j) {
      assert j + 2 <= |s| ==> s[j..j + 2][0] == s[j];
    }
  }

  /** Two texts of one line each stay on one line unless they meet in a line break. */
  lemma StillOneLine(a: string, b: string)
    requires OneLine(a) && OneLine(b)
    requires a == "" || b == "" || a[|a| - 1] != CR || b[0] != LF
    ensures OneLine(a + b)
  {
    var s := a + b;
    forall j: nat ensures !At(CRLF, s, j) {
      assert j + 2 <= |s| ==> s[j..j + 2][0] == s[j] && s[j..j + 2][1] == s[j + 1];
      assert !At(CRLF, a, j);
      assert j + 2 <= |a| ==> s[j..j + 2] == a[j..j + 2];
      if j >= |a| {
        assert !At(CRLF, b, j - |a|);
        assert j + 2 <= |s| ==> s[j..j + 2] == b[j - |a|..j - |a| + 2];
      }
    }
  }

  lemma HeaderNames()
    ensures HeaderLine(DISPOSITION) && HeaderLine(CONTENT_TYPE) && OneLine(FORM_DATA)
    ensures |DISPOSITION| > 8 && |CONTENT_TYPE| > 8 && DISPOSITION[8] != CONTENT_TYPE[8]
    ensures CONTENT_TYPE[|CONTENT_TYPE| - 1] != CR && FORM_DATA[0] != LF
  {
    NoBreakWithoutCR(DISPOSITION);
    NoBreakWithoutCR(CONTENT_TYPE);
    NoBreakWithoutCR(FORM_DATA);
    assert DISPOSITION[8] == 'D' && CONTENT_TYPE[8] == 'T';
  }

  lemma ParameterIsOneLine(key: string, value: string)
    requires CR !in key && OneLine(value)
    ensures OneLine(Parameter(key, value))
  {
    NoBreakWithoutCR("\"");
    NoBreakWithoutCR(key + "=");
    NoBreakWithoutCR("; ");
    StillOneLine(value, "\"");
    StillOneLine("\"", value + "\"");
    StillOneLine(key + "=", "\"" + (value + "\""));
    StillOneLine("; ", key + "=" + ("\"" + (value + "\"")));
  }

  lemma ParameterTextIsOneLine(p: Part)
    requires Sendable(p)
    ensures OneLine(ParameterText(p)) && ParameterText(p) != "" && ParameterText(p)[0] != LF
  {
    KeysAreDifferentWords();
    ParameterIsOneLine(NAME, p.name);
    if p.filename.Some? {
      ParameterIsOneLine(FILENAME, p.filename.value);
      StillOneLine(Parameter(NAME, p.name), Parameter(FILENAME, p.filename.value));
    } else {
      assert Parameter(NAME, p.name) + "" == Parameter(NAME, p.name);
    }
  }

  /** The lines of a part are lines. */
  lemma HeaderLinesAreLines(p: Part)
    requires Sendable(p)
    ensures forall l :: l in HeaderLines(p) ==> HeaderLine(l)
  {
    HeaderNames();
    ParameterTextIsOneLine(p);
    StillOneLine(FORM_DATA, ParameterText(p));
    StillOneLine(DISPOSITION, FORM_DATA + ParameterText(p));
    if p.mime.Some? {
      StillOneLine(CONTENT_TYPE, p.mime.value);
    }
  }

  lemma OtherHeader(header: string, other: string, rest: string)
    requires |header| > 8 && |other| > 8 && header[8] != other[8]
    ensures !At(header, other + rest, 0)
  {
    assert (other + rest)[8] == other[8];
    assert |header| <= |other + rest| ==> (other + rest)[..|header|][8] == (other + rest)[8];
  }

  /** The reader picks from the lines what each is for. */
  lemma HeaderLinesAreRead(p: Part)
    ensures HeaderValue(HeaderLines(p), CONTENT_TYPE) == p.mime
    ensures HeaderValue(HeaderLines(p), DISPOSITION) == Some(FORM_DATA + ParameterText(p))
  {
    HeaderNames();
    var lines, value := HeaderLines(p), FORM_DATA + ParameterText(p);
    assert lines[0] == DISPOSITION + value;
    StartsWith(DISPOSITION, value);
    OtherHeader(CONTENT_TYPE, DISPOSITION, value);
    if p.mime.Some? {
      StartsWith(CONTENT_TYPE, p.mime.value);
      assert lines[1..] == [CONTENT_TYPE + p.mime.value];
    } else {
      assert lines[1..] == [];
    }
  }

  lemma PartIsRead(p: Part)
    requires Sendable(p)
    ensures ReadPart(Content(HeaderLines(p), p.body)) == Some(p)
  {
    HeaderLinesAreLines(p);
    HeaderLinesAreRead(p);
    HeadersAreRead(HeaderLines(p), p.body);
    StartsWith(FORM_DATA, ParameterText(p));
    ParameterTextIsRead(p);
    NamesAreFound(p.name, p.filename);
  }

  lemma EachIsRead(c: string, contents: seq<string>)
    ensures ReadEach([c] + contents) == Prepend(ReadPart(c), ReadEach(contents))
  {
    assert ([c] + contents)[1..] == contents;
  }

  lemma {:induction false} PartsAreRead(parts: seq<Part>)
    requires forall p :: p in parts ==> Sendable(p)
    ensures ReadEach(Contents(parts)) == Some(parts)
  {
    if parts != [] {
      assert parts[0] in parts;
      PartIsRead(parts[0]);
      EachIsRead(Content(HeaderLines(parts[0]), parts[0].body), Contents(parts[1..]));
      PartsAreRead(parts[1..]);
      assert [parts[0]] + parts[1..] == parts;
    }
  }

  // ---- Where the delimiter can occur ----

  lemma DelimiterStart(boundary: string)
    ensures var d := Delimiter(boundary); |d| >= 4 && d[0] == CR && d[1] == LF && d[2] == '-' && d[3] == '-'
    ensures CR !in boundary ==> Delimiter(boundary)[0] !in Delimiter(boundary)[1..]
  {
    assert Delimiter(boundary)[1..] == [LF] + DASHES + boundary;
  }

  lemma SliceOfSuffix(a: string, b: string, i: nat, j: nat)
    requires i <= j <= |b|
    ensures b[i..j] == (a + b)[|a| + i..|a| + j]
  {
  }

  lemma NoDelimiterInLine(boundary: string, line: string, rest: string)
    requires OneLine(line) && rest != "" && rest[0] != '-'
    ensures Occurs(Delimiter(boundary), line + CRLF + rest) ==> Occurs(Delimiter(boundary), rest)
  {
    var d, s := Delimiter(boundary), line + CRLF + rest;
    DelimiterStart(boundary);
    forall j | 0 <= j <= |line| - 2 ensures !(s[j] == CR && s[j + 1] == LF) {
      assert !At(CRLF, line, j) && line[j..j + 2] == [s[j], s[j + 1]];
    }
    if Occurs(d, s) {
      var i: nat :| At(d, s, i);
      assert s[i..i + |d|][0] == s[i] && s[i..i + |d|][1] == s[i + 1] && s[i..i + |d|][2] == s[i + 2];
      assert s[|line|] == CR && s[|line| + 1] == LF && s[|line| + 2] == rest[0];
      var k := i - |line| - 2;
      SliceOfSuffix(line + CRLF, rest, k, k + |d|);
      assert At(d, rest, k);
    }
  }

  lemma {:induction false} DelimiterOnlyInBody(boundary: string, lines: seq<string>, body: string)
    requires forall l :: l in lines ==> HeaderLine(l)
    requires FreeOf(boundary, body)
    ensures !Occurs(Delimiter(boundary), Content(lines, body))
  {
    if lines != [] {
      DelimiterOnlyInBody(boundary, lines[1..], body);
      assert HeaderLine(lines[0]) && (|lines| > 1 ==> HeaderLine(lines[1]));
      assert Content(lines[1..], body)[0] != '-';
      NoDelimiterInLine(boundary, lines[0], Content(lines[1..], body));
    }
  }

  lemma OccursInSuffix(p: string, s: string, k: nat)
    requires k <= |s| && Occurs(p, s[k..])
    ensures Occurs(p, s)
  {
    var i: nat :| At(p, s[k..], i);
    assert s[k + i..k + i + |p|] == s[k..][i..i + |p|];
    assert At(p, s, k + i);
  }

  /** A body that is read stands behind a line break in its part. */
  lemma {:induction false} BodyIsInContent(boundary: string, content: string)
    requires Headers(content).Some? && !FreeOf(boundary, Headers(content).value.1)
    ensures Occurs(Delimiter(boundary), content)
    decreases |content|
  {
    var k := Find(CRLF, content, 0).value;
    if k == 0 {
      assert CRLF + content[2..] == content;
    } else {
      BodyIsInContent(boundary, content[k + 2..]);
      OccursInSuffix(Delimiter(boundary), content, k + 2);
    }
  }

  lemma {:induction false} BodiesWithoutDelimiter(boundary: string, contents: seq<string>)
    requires forall c :: c in contents ==> !Occurs(Delimiter(boundary), c)
    requires ReadEach(contents).Some?
    ensures forall p :: p in ReadEach(contents).value ==> FreeOf(boundary, p.body)
  {
    if contents != [] {
      BodiesWithoutDelimiter(boundary, contents[1..]);
      if !FreeOf(boundary, ReadPart(contents[0]).value.body) {
        BodyIsInContent(boundary, contents[0]);
      }
    }
  }

  // ---- The form ----

  lemma FirstDelimiter(boundary: string, parts: seq<Part>, body: string)
    requires IsFormOf(boundary, parts, body)
    ensures BodyParts(boundary, body) == PartsBehind(Trailer(Contents(parts), Delimiter(boundary)), Delimiter(boundary))
  {
    var d := Delimiter(boundary);
    StartsWith(d, Trailer(Contents(parts), d));
    FindIs(d, CRLF + body, 0);
  }

  lemma {:induction false} FreePartsAreFree(boundary: string, parts: seq<Part>)
    requires forall p :: p in parts ==> Sendable(p) && FreeOf(boundary, p.body)
    ensures forall c :: c in Contents(parts) ==> !Occurs(Delimiter(boundary), c)
  {
    if parts != [] {
      assert parts[0] in parts;
      HeaderLinesAreLines(parts[0]);
      DelimiterOnlyInBody(boundary, HeaderLines(parts[0]), parts[0].body);
      FreePartsAreFree(boundary, parts[1..]);
    }
  }

  lemma FreeFormReadsBack(boundary: string, parts: seq<Part>, body: string)
    requires CR !in boundary && forall p :: p in parts ==> Sendable(p) && FreeOf(boundary, p.body)
    requires IsFormOf(boundary, parts, body)
    ensures ReadForm(boundary, body) == Some(parts)
  {
    var d := Delimiter(boundary);
    FirstDelimiter(boundary, parts, body);
    FreePartsAreFree(boundary, parts);
    DelimiterStart(boundary);
    PartsAreFound(Contents(parts), d);
    PartsAreRead(parts);
  }

  lemma FormThatReadsBackIsFree(boundary: string, parts: seq<Part>, body: string)
    requires IsFormOf(boundary, parts, body) && ReadForm(boundary, body) == Some(parts)
    ensures forall p :: p in parts ==> FreeOf(boundary, p.body)
  {
    var d := Delimiter(boundary);
    FirstDelimiter(boundary, parts, body);
    DelimiterStart(boundary);
    NoDelimiterInParts(Trailer(Contents(parts), d), d);
    BodiesWithoutDelimiter(boundary, BodyParts(boundary, body).value);
  }

  // ---- What the reader takes for a line ----

  lemma OccursInPrefix(p: string, s: string, k: nat)
    requires k <= |s| && Occurs(p, s[..k])
    ensures Occurs(p, s)
  {
    var i: nat :| At(p, s[..k], i);
    assert s[i..i + |p|] == s[..k][i..i + |p|];
    assert At(p, s, i);
  }

  lemma PiecesAreOneLine(s: string, j: nat, k: nat)
    requires OneLine(s) && j <= k <= |s|
    ensures OneLine(s[j..]) && OneLine(s[j..k])
  {
    if !OneLine(s[j..]) { OccursInSuffix(CRLF, s, j); }
    if !OneLine(s[j..k]) {
      assert s[j..k] == s[j..][..k - j];
      OccursInPrefix(CRLF, s[j..], k - j);
    }
  }

  lemma FirstLineHasNoBreak(s: string)
    requires Find(CRLF, s, 0).Some?
    ensures OneLine(s[..Find(CRLF, s, 0).value])
  {
    var k := Find(CRLF, s, 0).value;
    forall j: nat ensures !At(CRLF, s[..k], j) {
      assert !(j < k && At(CRLF, s, j));
      if j + 2 <= k { SliceOfPrefix(s, k, j, j + 2); }
    }
  }

  lemma {:induction false} HeadersAreLines(s: string)
    requires Headers(s).Some?
    ensures forall l :: l in Headers(s).value.0 ==> OneLine(l)
    decreases |s|
  {
    var k := Find(CRLF, s, 0).value;
    if k != 0 {
      FirstLineHasNoBreak(s);
      HeadersAreLines(s[k + 2..]);
    }
  }

  lemma {:induction false} HeaderValueIsOneLine(lines: seq<string>, header: string)
    requires forall l :: l in lines ==> OneLine(l)
    requires HeaderValue(lines, header).Some?
    ensures OneLine(HeaderValue(lines, header).value)
  {
    if At(header, lines[0], 0) {
      assert lines[0] in lines;
      PiecesAreOneLine(lines[0], |header|, |lines[0]|);
    } else {
      assert forall l :: l in lines[1..] ==> l in lines;
      HeaderValueIsOneLine(lines[1..], header);
    }
  }

  // ---- Only what is quotable reads as itself ----

  /** How many backslashes the text begins with. */
  function Leading(s: string): nat {
    if s == "" || s[0] != '\\' then 0 else 1 + Leading(s[1..])
  }

  /** Reading halves the backslashes at the beginning. */
  lemma {:induction false} ReadingHalvesBackslashes(s: string)
    requires ReadQuoted(s).Some?
    ensures Leading(ReadQuoted(s).value.0) == Leading(s) / 2
    decreases |s|
  {
    if s[0] == '\\' {
      var w := ReadQuoted(s[2..]).value.0;
      assert ReadQuoted(s).value.0 == [s[1]] + w && ([s[1]] + w)[1..] == w;
      assert Leading(s) == 1 + Leading(s[1..]);
      if s[1] == '\\' {
        assert s[1..][1..] == s[2..];
        ReadingHalvesBackslashes(s[2..]);
      }
    }
  }

  lemma {:induction false} LeadingStops(v: string, rest: string)
    ensures Leading(v + "\"" + rest) == Leading(v)
  {
    var s := v + "\"" + rest;
    if v != "" && v[0] == '\\' {
      assert s[1..] == v[1..] + "\"" + rest;
      LeadingStops(v[1..], rest);
    }
  }

  /** A quoted value that reads as itself has nothing to escape. */
  lemma {:induction false} ReadsAsItself(v: string, rest: string)
    requires ReadQuoted(v + "\"" + rest).Some? && ReadQuoted(v + "\"" + rest).value.0 == v
    ensures Unescaped(v)
  {
    var s := v + "\"" + rest;
    if v != "" {
      ReadingHalvesBackslashes(s);
      LeadingStops(v, rest);
      assert v[0] == s[0] && s[0] != '\\';
      assert s[1..] == v[1..] + "\"" + rest;
      var w := ReadQuoted(s[1..]).value.0;
      assert ([v[0]] + w)[1..] == w;
      ReadsAsItself(v[1..], rest);
      assert v == [v[0]] + v[1..];
    }
  }

  lemma CutBehind<T>(a: seq<T>, b: seq<T>, n: nat)
    requires |a| <= n <= |a + b|
    ensures (a + b)[..n] == a + b[..n - |a|]
    ensures (a + b)[..n][..|a|] == a && (a + b)[..n][|a|..] == b[..n - |a|]
  {
  }

  /** Where the equals sign and the opening quote are in a parameter that is cut off. */
  lemma CutInside(key: string, whole: string, n: nat)
    requires '=' !in key && n <= |key + "=" + ("\"" + whole)|
    requires ReadParameter((key + "=" + ("\"" + whole))[..n]).Some?
    ensures n >= |key| + 2
    ensures var t := (key + "=" + ("\"" + whole))[..n];
            IndexOf(t, '=') == |key| && t[..|key|] == key && t[|key| + 2..] == whole[..n - |key| - 2]
  {
    var start := key + "=" + "\"";
    Associate(key + "=", "\"", whole);
    var t := (start + whole)[..n];
    EqualsIsFound(key, whole, n);
    assert n >= |start|;
    CutBehind(start, whole, n);
    assert t[..|key|] == t[..|start|][..|key|];
  }

  lemma EqualsIsFound(key: string, whole: string, n: nat)
    requires '=' !in key && n <= |key + "=" + ("\"" + whole)|
    requires ReadParameter((key + "=" + ("\"" + whole))[..n]).Some?
    ensures n >= |key| + 2 && IndexOf((key + "=" + ("\"" + whole))[..n], '=') == |key|
  {
    var t := (key + "=" + ("\"" + whole))[..n];
    var e := IndexOf(t, '=');
    assert forall i :: 0 <= i < |key| && i < n ==> t[i] == key[i];
    assert |key| < n && t[|key|] == '=';
    assert forall i :: 0 <= i < e ==> t[..e][i] == t[i];
  }

  /** A parameter cut off somewhere, or followed by something cut off, is read as itself only if it is whole and
      has nothing to escape. */
  lemma CutParameter(key: string, value: string, tail: string, k: nat, s: string)
    requires '=' !in key && k <= |Parameter(key, value) + tail| && s == (Parameter(key, value) + tail)[..k]
    requires Parameters(s).Some? && Lookup(Parameters(s).value, key) == Some(value)
    ensures Unescaped(value) && k >= |Parameter(key, value)|
  {
    SemicolonIsThere(s);
    var t := CutParameterText(key, value, tail, k);
    assert s == "; " + t;
    CutText(key, value, tail, k - 2, t);
  }

  lemma CutParameterText(key: string, value: string, tail: string, k: nat) returns (t: string)
    requires 2 <= k <= |Parameter(key, value) + tail|
    ensures k - 2 <= |key + "=" + ("\"" + (value + "\"" + tail))|
    ensures t == (key + "=" + ("\"" + (value + "\"" + tail)))[..k - 2]
    ensures (Parameter(key, value) + tail)[..k] == "; " + t
  {
    Nested("; ", key, "=", "\"", value, tail);
    CutBehind("; ", key + "=" + ("\"" + (value + "\"" + tail)), k);
    t := (key + "=" + ("\"" + (value + "\"" + tail)))[..k - 2];
  }

  lemma CutText(key: string, value: string, tail: string, n: nat, t: string)
    requires '=' !in key && n <= |key + "=" + ("\"" + (value + "\"" + tail))|
    requires t == (key + "=" + ("\"" + (value + "\"" + tail)))[..n]
    requires Parameters("; " + t).Some? && Lookup(Parameters("; " + t).value, key) == Some(value)
    ensures Unescaped(value) && n > |key| + 2 + |value|
  {
    FirstValueIsRead(t);
    CutInside(key, value + "\"" + tail, n);
    CutInner(key, value, tail, n);
  }

  lemma SemicolonIsThere(s: string)
    requires Parameters(s).Some? && s != ""
    ensures |s| >= 2
  {
  }

  lemma FirstValueIsRead(t: string)
    requires Parameters("; " + t).Some?
    ensures ReadParameter(t).Some?
    ensures Lookup(Parameters("; " + t).value, ReadParameter(t).value.0) == Some(ReadParameter(t).value.1)
  {
    ParametersStep(t);
  }

  lemma CutInner(key: string, value: string, tail: string, n: nat)
    requires '=' !in key && n <= |key + "=" + ("\"" + (value + "\"" + tail))|
    requires ReadParameter((key + "=" + ("\"" + (value + "\"" + tail)))[..n]).Some?
    requires ReadParameter((key + "=" + ("\"" + (value + "\"" + tail)))[..n]).value.1 == value
    ensures Unescaped(value) && n > |key| + 2 + |value|
  {
    CutInside(key, value + "\"" + tail, n);
    CutValue(value, tail, n - 2 - |key|);
  }

  lemma CutValue(value: string, tail: string, n: nat)
    requires n <= |value + "\"" + tail|
    requires ReadQuoted((value + "\"" + tail)[..n]).Some? && ReadQuoted((value + "\"" + tail)[..n]).value.0 == value
    ensures Unescaped(value) && n > |value|
  {
    CutBehind(value + "\"", tail, n);
    ReadsAsItself(value, tail[..n - |value| - 1]);
  }

  /** The parameters of a part, cut off somewhere, are read as its names only if they are whole and have nothing
      to escape. */
  lemma CutParameters(p: Part, k: nat)
    requires k <= |ParameterText(p)| && Parameters(ParameterText(p)[..k]).Some?
    requires Lookup(Parameters(ParameterText(p)[..k]).value, NAME) == Some(p.name)
    requires Lookup(Parameters(ParameterText(p)[..k]).value, FILENAME) == p.filename
    ensures k == |ParameterText(p)| && Unescaped(p.name) && (p.filename.Some? ==> Unescaped(p.filename.value))
  {
    KeysAreDifferentWords();
    var first := Parameter(NAME, p.name);
    match p.filename {
      case None =>
        assert ParameterText(p) == first + "";
        CutParameter(NAME, p.name, "", k, ParameterText(p)[..k]);
      case Some(filename) =>
        CutParameter(NAME, p.name, Parameter(FILENAME, filename), k, ParameterText(p)[..k]);
        CutFilename(p.name, filename, k, ParameterText(p)[..k]);
    }
  }

  lemma CutFilename(name: string, filename: string, k: nat, s: string)
    requires Unescaped(name) && |Parameter(NAME, name)| <= k <= |Parameter(NAME, name) + Parameter(FILENAME, filename)|
    requires s == (Parameter(NAME, name) + Parameter(FILENAME, filename))[..k]
    requires Parameters(s).Some? && Lookup(Parameters(s).value, FILENAME) == Some(filename)
    ensures Unescaped(filename) && k == |Parameter(NAME, name) + Parameter(FILENAME, filename)|
  {
    KeysAreDifferentWords();
    var first, second := Parameter(NAME, name), Parameter(FILENAME, filename);
    var r := second[..k - |first|];
    CutBehind(first, second, k);
    ParameterIsRead(NAME, name, r);
    var ps := Parameters(r).value;
    assert ([(NAME, name)] + ps)[1..] == ps;
    assert second + "" == second;
    CutParameter(FILENAME, filename, "", k - |first|, r);
  }

  /** The first break in a text that is cut off is the end of its first line, or earlier if there is a break in
      that line. */
  lemma FirstBreakOfCut(line: string, more: string, k: nat)
    requires k <= |line + CRLF + more| && Find(CRLF, (line + CRLF + more)[..k], 0).Some?
    ensures var j := Find(CRLF, (line + CRLF + more)[..k], 0).value;
            && j <= |line| && (line + CRLF + more)[..k][..j] == line[..j]
            && (j < |line| ==> line[j] == CR) && (j == |line| ==> OneLine(line))
  {
    var all := line + CRLF + more;
    var content := all[..k];
    var j := Find(CRLF, content, 0).value;
    assert content[j..j + 2][0] == content[j];
    BreakIsFoundInTime(line, more, k);
    if j == |line| {
      forall i: nat ensures !At(CRLF, line, i) {
        assert !(i < j && At(CRLF, content, i));
        if i + 2 <= |line| { assert line[i..i + 2] == content[i..i + 2]; }
      }
    }
  }

  lemma BreakIsFoundInTime(line: string, more: string, k: nat)
    requires k <= |line + CRLF + more| && Find(CRLF, (line + CRLF + more)[..k], 0).Some?
    ensures Find(CRLF, (line + CRLF + more)[..k], 0).value <= |line|
  {
    var all := line + CRLF + more;
    var j := Find(CRLF, all[..k], 0).value;
    assert all[|line|..|line| + 2] == CRLF;
    if |line| + 2 <= k {
      SliceOfPrefix(all, k, |line|, |line| + 2);
      assert At(CRLF, all[..k], |line|);
    }
  }

  lemma FirstLineOfCut(p: Part, k: nat)
    requires k <= |Content(HeaderLines(p), p.body)|
    requires ReadPart(Content(HeaderLines(p), p.body)[..k]).Some?
    ensures var line, content := HeaderLines(p)[0], Content(HeaderLines(p), p.body)[..k];
            && Find(CRLF, content, 0).Some? && Find(CRLF, content, 0).value <= |line|
            && |DISPOSITION| + |FORM_DATA| <= Find(CRLF, content, 0).value
            && content[..Find(CRLF, content, 0).value] == line[..Find(CRLF, content, 0).value]
            && (Find(CRLF, content, 0).value == |line| ==> OneLine(line))
  {
    var line, more := HeaderLines(p)[0], Content(HeaderLines(p)[1..], p.body);
    assert Content(HeaderLines(p), p.body) == line + CRLF + more;
    FirstBreakOfCut(line, more, k);
    FirstLineStartsWithoutBreak(p);
  }

  lemma FirstLineStartsWithoutBreak(p: Part)
    ensures |HeaderLines(p)[0]| >= |DISPOSITION| + |FORM_DATA|
    ensures forall i :: 0 <= i < |DISPOSITION| + |FORM_DATA| ==> HeaderLines(p)[0][i] != CR
  {
    var line := HeaderLines(p)[0];
    assert line == (DISPOSITION + FORM_DATA) + ParameterText(p);
    assert CR !in DISPOSITION && CR !in FORM_DATA;
    assert forall i :: 0 <= i < |DISPOSITION + FORM_DATA| ==> line[i] == (DISPOSITION + FORM_DATA)[i];
  }

  /** The reader takes the names of a part from its first line. */
  lemma NamesComeFromFirstLine(content: string, text: string)
    requires ReadPart(content).Some? && Find(CRLF, content, 0).Some?
    requires content[..Find(CRLF, content, 0).value] == DISPOSITION + (FORM_DATA + text)
    ensures Parameters(text).Some?
    ensures Lookup(Parameters(text).value, NAME) == Some(ReadPart(content).value.name)
    ensures Lookup(Parameters(text).value, FILENAME) == ReadPart(content).value.filename
  {
    StartsWith(DISPOSITION, FORM_DATA + text);
    StartsWith(FORM_DATA, text);
    assert Find(CRLF, content, 0).value != 0;
  }

  /** A part that is read as itself, even from a content that is cut off, can be sent. */
  lemma PartThatReadsAsItself(p: Part, k: nat)
    requires k <= |Content(HeaderLines(p), p.body)|
    requires ReadPart(Content(HeaderLines(p), p.body)[..k]) == Some(p)
    ensures Sendable(p)
  {
    var line, content := HeaderLines(p)[0], Content(HeaderLines(p), p.body)[..k];
    FirstLineOfCut(p, k);
    var j := Find(CRLF, content, 0).value;
    var n := j - |DISPOSITION| - |FORM_DATA|;
    CutBehind(DISPOSITION, FORM_DATA + ParameterText(p), j);
    CutBehind(FORM_DATA, ParameterText(p), j - |DISPOSITION|);
    NamesComeFromFirstLine(content, ParameterText(p)[..n]);
    CutParameters(p, n);
    NamesAreInLine(p);
    if p.mime.Some? { TypeIsOneLine(content); }
  }

  lemma TypeIsOneLine(content: string)
    requires ReadPart(content).Some? && ReadPart(content).value.mime.Some?
    ensures OneLine(ReadPart(content).value.mime.value)
  {
    HeadersAreLines(content);
    HeaderValueIsOneLine(Headers(content).value.0, CONTENT_TYPE);
  }

  lemma HalvesAreOneLine(a: string, b: string)
    requires OneLine(a + b)
    ensures OneLine(a) && OneLine(b)
  {
    assert (a + b)[0..|a|] == a && (a + b)[|a|..] == b;
    PiecesAreOneLine(a + b, 0, |a|);
    PiecesAreOneLine(a + b, |a|, |a + b|);
  }

  lemma ValueIsInParameter(key: string, value: string)
    requires OneLine(Parameter(key, value))
    ensures OneLine(value)
  {
    HalvesAreOneLine("; ", key + "=" + ("\"" + (value + "\"")));
    HalvesAreOneLine(key + "=", "\"" + (value + "\""));
    HalvesAreOneLine("\"", value + "\"");
    HalvesAreOneLine(value, "\"");
  }

  /** The names stand in the first line as they are. */
  lemma NamesAreInLine(p: Part)
    requires OneLine(HeaderLines(p)[0])
    ensures OneLine(p.name) && (p.filename.Some? ==> OneLine(p.filename.value))
  {
    HalvesAreOneLine(DISPOSITION, FORM_DATA + ParameterText(p));
    HalvesAreOneLine(FORM_DATA, ParameterText(p));
    if p.filename.Some? {
      HalvesAreOneLine(Parameter(NAME, p.name), Parameter(FILENAME, p.filename.value));
      ValueIsInParameter(FILENAME, p.filename.value);
    } else {
      HalvesAreOneLine(Parameter(NAME, p.name), "");
    }
    ValueIsInParameter(NAME, p.name);
  }

  /** A part reads back as itself if and only if it can be sent. */
  lemma PartIsReadExactlyWhenSendable(p: Part)
    ensures ReadPart(Content(HeaderLines(p), p.body)) == Some(p) <==> Sendable(p)
  {
    var content := Content(HeaderLines(p), p.body);
    if Sendable(p) { PartIsRead(p); }
    if ReadPart(content) == Some(p) {
      assert content[..|content|] == content;
      PartThatReadsAsItself(p, |content|);
    }
  }

  /** The first part is read from its own content, cut off where the delimiter is found. */
  lemma FirstPartIsCut(content: string, d: string, rest: string)
    requires d != "" && PartsBehind(CRLF + (content + d + rest), d).Some?
    ensures PartsBehind(CRLF + (content + d + rest), d).value != []
    ensures PartsBehind(CRLF + (content + d + rest), d).value[0] <= content
  {
    var s, t := CRLF + (content + d + rest), content + d + rest;
    assert s[0] == CR && At(CRLF, s, 0) && s[2..] == t;
    assert t[|content|..|content| + |d|] == d;
    assert At(d, t, |content|);
    var k := Find(d, t, 0).value;
    assert k <= |content|;
    assert t[..k] == content[..k];
  }

  lemma {:induction false} PartsThatReadAsThemselves(boundary: string, parts: seq<Part>)
    requires CR !in boundary && forall p :: p in parts ==> FreeOf(boundary, p.body)
    requires PartsBehind(Trailer(Contents(parts), Delimiter(boundary)), Delimiter(boundary)).Some?
    requires ReadEach(PartsBehind(Trailer(Contents(parts), Delimiter(boundary)), Delimiter(boundary)).value) == Some(parts)
    ensures forall p :: p in parts ==> Sendable(p)
  {
    var d := Delimiter(boundary);
    if parts != [] {
      var p := parts[0];
      var content, rest := Content(HeaderLines(p), p.body), Trailer(Contents(parts[1..]), d);
      assert Trailer(Contents(parts), d) == CRLF + (content + d + rest);
      DelimiterStart(boundary);
      FirstPartIsCut(content, d, rest);
      var cs := PartsBehind(CRLF + (content + d + rest), d).value;
      assert cs[0] == content[..|cs[0]|];
      assert ReadPart(cs[0]) == Some(p);
      PartThatReadsAsItself(p, |cs[0]|);
      assert p in parts;
      HeaderLinesAreLines(p);
      DelimiterOnlyInBody(boundary, HeaderLines(p), p.body);
      OnePartIsFound(content, d, rest);
      assert [content] + PartsBehind(rest, d).value == cs && cs[1..] == PartsBehind(rest, d).value;
      assert forall q :: q in parts[1..] ==> q in parts;
      PartsThatReadAsThemselves(boundary, parts[1..]);
    }
  }

  // ---- When a form reads back ----

  /** The names of the part have no quote, no backslash and no line break, its type no line break, and no line
      of its body begins with the boundary. */
  ghost predicate Fits(boundary: string, p: Part) {
    Sendable(p) && FreeOf(boundary, p.body)
  }

  /** A form reads back as exactly its parts if and only if each of them fits. */
  lemma FormReadsBackExactlyWhenPartsFit(boundary: string, parts: seq<Part>, body: string)
    requires CR !in boundary && IsFormOf(boundary, parts, body)
    ensures ReadForm(boundary, body) == Some(parts) <==> forall p :: p in parts ==> Fits(boundary, p)
  {
    if ReadForm(boundary, body) == Some(parts) {
      FormThatReadsBackIsFree(boundary, parts, body);
      FirstDelimiter(boundary, parts, body);
      PartsThatReadAsThemselves(boundary, parts);
    }
    if forall p :: p in parts ==> Fits(boundary, p) {
      FreeFormReadsBack(boundary, parts, body);
    }
  }

  /** A text without the boundary is free of it. */
  lemma NoBoundaryMeansFree(boundary: string, text: string)
    ensures Occurs(boundary, text) || FreeOf(boundary, text)
  {
    var d, s := Delimiter(boundary), CRLF + text;
    if Occurs(d, s) {
      var i: nat :| At(d, s, i);
      assert d[4..] == boundary;
      forall j | 0 <= j < |boundary| ensures text[i + 2 + j] == boundary[j] {
        assert text[i + 2 + j] == s[i + 4 + j] == s[i..i + |d|][4 + j] == d[4 + j] == d[4..][j];
      }
      assert text[i + 2..i + 2 + |boundary|] == boundary;
      assert At(boundary, text, i + 2);
    }
  }

  // ---- The bytes of a form ----

  /** The whole of a form with a file and no text, byte by byte. */
  lemma FileFormIs(boundary: string, fieldName: string, filename: string, mime: string, data: string)
    ensures IsFormOf(boundary, [Part(fieldName, Some(filename), Some(mime), data)],
                     "--" + boundary + "\r\n"
                     + ("Content-Disposition: form-data; name=\"" + fieldName + "\"; filename=\"" + filename + "\"\r\n"
                        + ("Content-Type: " + mime + "\r\n" + ("\r\n" + data)))
                     + ("\r\n--" + boundary + "--\r\n"))
  {
    var p := Part(fieldName, Some(filename), Some(mime), data);
    FileHeaderIs(fieldName, filename, mime, data);
    LastPart(boundary, p);
  }

  /** And what a text adds in front of a form. */
  lemma TextInFrontOfForm(boundary: string, name: string, value: string, parts: seq<Part>, body: string)
    requires IsFormOf(boundary, parts, body)
    ensures IsFormOf(boundary, [Part(name, None, None, value)] + parts,
                     "--" + boundary + "\r\n"
                     + ("Content-Disposition: form-data; name=\"" + name + "\"\r\n" + ("\r\n" + value))
                     + ("\r\n" + body))
  {
    TextHeaderIs(name, value);
    PartInFront(boundary, Part(name, None, None, value), parts, body);
  }

  lemma PartInFront(boundary: string, p: Part, parts: seq<Part>, body: string)
    requires IsFormOf(boundary, parts, body)
    ensures IsFormOf(boundary, [p] + parts,
                     "--" + boundary + "\r\n" + Content(HeaderLines(p), p.body) + ("\r\n" + body))
  {
    var d, c := Delimiter(boundary), Content(HeaderLines(p), p.body);
    assert ([p] + parts)[1..] == parts;
    assert Contents([p] + parts) == [c] + Contents(parts);
    assert ([c] + Contents(parts))[1..] == Contents(parts);
    assert "\r\n" == CRLF && "--" == DASHES;
    Unfolded(CRLF, DASHES, boundary, c, body, Trailer(Contents(parts), d));
  }

  lemma Unfolded<T>(n: seq<T>, dashes: seq<T>, b: seq<T>, c: seq<T>, body: seq<T>, t: seq<T>)
    requires n + body == n + (dashes + b) + t
    ensures n + (dashes + b + n + c + (n + body)) == n + (dashes + b) + (n + (c + (n + (dashes + b)) + t))
  {
    var d := n + (dashes + b);
    assert n + (dashes + b + n + c + (n + body)) == d + (n + (c + (n + body)));
    Associate(c, d, t);
  }

  lemma LastPart(boundary: string, p: Part)
    ensures IsFormOf(boundary, [p],
                     "--" + boundary + "\r\n" + Content(HeaderLines(p), p.body) + ("\r\n--" + boundary + "--\r\n"))
  {
    assert "\r\n" == CRLF && "--" == DASHES && "\r\n--" == CRLF + DASHES && "--\r\n" == DASHES + CRLF;
    var body := DASHES + boundary + DASHES + CRLF;
    LastBoundary(boundary);
    assert IsFormOf(boundary, [], body);
    PartInFront(boundary, p, [], body);
    assert [p] + [] == [p];
    assert CRLF + body == CRLF + DASHES + boundary + (DASHES + CRLF);
  }

  lemma TextHeaderIs(name: string, value: string)
    ensures Content(HeaderLines(Part(name, None, None, value)), value) ==
              "Content-Disposition: form-data; name=\"" + name + "\"\r\n" + ("\r\n" + value)
  {
    var p := Part(name, None, None, value);
    var line := HeaderLines(p)[0];
    NameLine(name);
    assert ParameterText(p) == Parameter(NAME, name);
    assert HeaderLines(p) == [line] && [line][1..] == [];
    assert "\r\n" == CRLF;
    assert "\"\r\n" == "\"" + CRLF;
    var start := "Content-Disposition: form-data; name=\"" + name;
    Associate(start, "\"", CRLF);
  }

  lemma NameLine(name: string)
    ensures DISPOSITION + (FORM_DATA + Parameter(NAME, name)) == "Content-Disposition: form-data; name=\"" + name + "\""
  {
    var start := "Content-Disposition: form-data; name=\"";
    assert start == DISPOSITION + (FORM_DATA + ("; " + (NAME + "=" + "\"")));
    Flat(DISPOSITION, FORM_DATA, "; ", NAME + "=", "\"", name + "\"");
    Associate(start, name, "\"");
  }

  lemma Flat<T>(a: seq<T>, b: seq<T>, c: seq<T>, d: seq<T>, e: seq<T>, f: seq<T>)
    ensures a + (b + (c + (d + (e + f)))) == (a + (b + (c + (d + e)))) + f
  {
    Associate(d, e, f);
    Associate(c, d + e, f);
    Associate(b, c + (d + e), f);
    Associate(a, b + (c + (d + e)), f);
  }

  lemma FileHeaderIs(name: string, filename: string, mime: string, data: string)
    ensures Content(HeaderLines(Part(name, Some(filename), Some(mime), data)), data) ==
              "Content-Disposition: form-data; name=\"" + name + "\"; filename=\"" + filename + "\"\r\n"
              + ("Content-Type: " + mime + "\r\n" + ("\r\n" + data))
  {
    var p := Part(name, Some(filename), Some(mime), data);
    var line, typeLine := HeaderLines(p)[0], CONTENT_TYPE + mime;
    assert HeaderLines(p) == [line, typeLine] && [line, typeLine][1..] == [typeLine] && [typeLine][1..] == [];
    assert "\r\n" == CRLF && "\"\r\n" == "\"" + CRLF;
    FileLine(name, filename);
    var start := "Content-Disposition: form-data; name=\"" + name + "\"; filename=\"" + filename;
    Associate(start, "\"", CRLF);
    assert Content([typeLine], data) == typeLine + CRLF + (CRLF + data);
  }

  lemma FileLine(name: string, filename: string)
    ensures DISPOSITION + (FORM_DATA + (Parameter(NAME, name) + Parameter(FILENAME, filename))) ==
              "Content-Disposition: form-data; name=\"" + name + "\"; filename=\"" + filename + "\""
  {
    NameLine(name);
    var first, second := Parameter(NAME, name), Parameter(FILENAME, filename);
    Associate(FORM_DATA, first, second);
    Associate(DISPOSITION, FORM_DATA + first, second);
    FilenameParameter(filename);
    var start := "Content-Disposition: form-data; name=\"" + name;
    assert "\"; filename=\"" == "\"" + "; filename=\"";
    Associate(start, "\"", "; filename=\"");
    Associate(start + "\"", "; filename=\"", filename);
    Associate(start + "\"", "; filename=\"" + filename, "\"");
  }

  lemma FilenameParameter(filename: string)
    ensures Parameter(FILENAME, filename) == "; filename=\"" + filename + "\""
  {
    assert "; filename=\"" == "; " + (FILENAME + "=" + "\"");
    Associate(FILENAME + "=", "\"", filename + "\"");
    Associate("; ", FILENAME + "=" + "\"", filename + "\"");
    Associate("; filename=\"", filename, "\"");
  }

  // ---- Building and posting ----

  /** The delimiters and contents of parts, one behind the other. */
  function Opened(contents: seq<string>, d: string): string {
    if contents == [] then "" else Opened(contents[..|contents| - 1], d) + (d + CRLF + contents[|contents| - 1])
  }

  lemma {:induction false} OpenedThenTrailer(contents: seq<string>, later: seq<string>, d: string)
    ensures Opened(contents, d) + (d + Trailer(later, d)) == d + Trailer(contents + later, d)
  {
    if contents == [] {
      assert contents + later == later;
    } else {
      var before, c := contents[..|contents| - 1], contents[|contents| - 1];
      OpenedThenTrailer(before, [c] + later, d);
      assert before + ([c] + later) == contents + later;
      assert ([c] + later)[1..] == later;
      assert d + CRLF + c + (d + Trailer(later, d)) == d + (CRLF + (c + d + Trailer(later, d)));
      Associate(Opened(before, d), d + CRLF + c, d + Trailer(later, d));
    }
  }

  /** What has been written so far is these parts, each closed by a line break. */
  ghost predicate Holds(out: string, boundary: string, parts: seq<Part>) {
    CRLF + out == Opened(Contents(parts), Delimiter(boundary)) + CRLF
  }

  lemma Regroup<T>(n: seq<T>, out: seq<T>, o: seq<T>, b: seq<T>, c: seq<T>)
    requires n + out == o + n
    ensures n + (out + (b + n) + (c + n)) == o + (n + b + n + c) + n
  {
    var x := (b + n) + (c + n);
    assert n + (out + (b + n) + (c + n)) == (n + out) + x;
    assert (o + n) + x == o + (n + x);
    assert n + x == n + b + n + c + n;
  }

  lemma TextLines<T>(o: seq<T>, h: seq<T>, n: seq<T>, v: seq<T>)
    ensures o + (h + n) + ([] + n) + (v + n) == o + (h + n + (n + v) + n)
  {
  }

  lemma FileLines<T>(o: seq<T>, h: seq<T>, t: seq<T>, n: seq<T>, v: seq<T>)
    ensures o + (h + n) + (t + n) + ([] + n) + v + ([] + n) == o + (h + n + (t + n + (n + v)) + n)
  {
  }

  lemma PartOpened(out: string, boundary: string, parts: seq<Part>, p: Part)
    requires Holds(out, boundary, parts)
    ensures Holds(out + (DASHES + boundary + CRLF) + (Content(HeaderLines(p), p.body) + CRLF), boundary, parts + [p])
  {
    var d, c := Delimiter(boundary), Content(HeaderLines(p), p.body);
    assert Contents(parts + [p]) == Contents(parts) + [c];
    assert (Contents(parts) + [c])[..|Contents(parts)|] == Contents(parts);
    Regroup(CRLF, out, Opened(Contents(parts), d), DASHES + boundary, c);
  }

  lemma FormClosed(out: string, boundary: string, parts: seq<Part>)
    requires Holds(out, boundary, parts)
    ensures IsFormOf(boundary, parts, out + (DASHES + boundary + DASHES + CRLF))
  {
    var d := Delimiter(boundary);
    var all, last := Opened(Contents(parts), d), DASHES + boundary + DASHES + CRLF;
    OpenedThenTrailer(Contents(parts), [], d);
    assert Contents(parts) + [] == Contents(parts);
    LastBoundary(boundary);
    Associate(CRLF, out, last);
    Associate(all, CRLF, last);
  }

  lemma LastBoundary(boundary: string)
    ensures CRLF + (DASHES + boundary + DASHES + CRLF) == Delimiter(boundary) + Trailer([], Delimiter(boundary))
  {
  }

  method WriteLine(buffer: string, line: string) returns (r: string)
    ensures r == buffer + (line + CRLF)
  {
    r := buffer + line;
    r := r + CRLF;
    Associate(buffer, line, CRLF);
  }

  /** The parts of a request: one for every extra field, then the file. */
  function FormParts(fieldName: string, filename: string, mime: string, data: string, extra: Option<string>): seq<Part> {
    TextParts(ExtraFields(extra)) + [Part(fieldName, Some(filename), Some(mime), data)]
  }

  method WriteTextPart(out: string, boundary: string, ghost parts: seq<Part>, f: Field) returns (r: string)
    requires Holds(out, boundary, parts)
    ensures Holds(r, boundary, parts + [Part(f.name, None, None, f.value)])
  {
    ghost var p := Part(f.name, None, None, f.value);
    var header := DISPOSITION + (FORM_DATA + (Parameter(NAME, f.name) + ""));
    r := WriteLine(out, DASHES + boundary);
    ghost var sofar := r;
    r := WriteLine(r, header);
    r := WriteLine(r, "");
    r := WriteLine(r, f.value);
    PartOpened(out, boundary, parts, p);
    assert HeaderLines(p) == [header];
    assert [header][1..] == [] && Content([header], f.value) == header + CRLF + (CRLF + f.value);
    TextLines(sofar, header, CRLF, f.value);
  }

  method WriteFilePart(out: string, boundary: string, ghost parts: seq<Part>,
                       fieldName: string, filename: string, mime: string, data: string) returns (r: string)
    requires Holds(out, boundary, parts)
    ensures Holds(r, boundary, parts + [Part(fieldName, Some(filename), Some(mime), data)])
  {
    ghost var p := Part(fieldName, Some(filename), Some(mime), data);
    var header := DISPOSITION + (FORM_DATA + (Parameter(NAME, fieldName) + Parameter(FILENAME, filename)));
    var typeLine := CONTENT_TYPE + mime;
    r := WriteLine(out, DASHES + boundary);
    ghost var sofar := r;
    r := WriteLine(r, header);
    r := WriteLine(r, typeLine);
    r := WriteLine(r, "");
    r := r + data;
    r := WriteLine(r, "");
    PartOpened(out, boundary, parts, p);
    assert HeaderLines(p) == [header, typeLine];
    assert [header, typeLine][1..] == [typeLine] && [typeLine][1..] == [];
    assert Content([typeLine], data) == typeLine + CRLF + (CRLF + data);
    assert Content([header, typeLine], data) == header + CRLF + Content([typeLine], data);
    FileLines(sofar, header, typeLine, CRLF, data);
  }

  lemma NothingWritten(boundary: string)
    ensures Holds("", boundary, TextParts([]))
  {
  }

  lemma OneMoreField(kvs: seq<string>, k: nat)
    requires k < |kvs|
    ensures FieldsOf(kvs[..k + 1]) == FieldsOf(kvs[..k]) + FieldsIn(kvs[k])
  {
    assert kvs[..k + 1][..k] == kvs[..k];
  }

  lemma OneMorePart(fields: seq<Field>, f: Field)
    ensures TextParts(fields + [f]) == TextParts(fields) + [Part(f.name, None, None, f.value)]
  {
    assert (fields + [f])[..|fields|] == fields;
  }

  /** One turn of the loop over the extra fields. */
  method WriteField(out: string, boundary: string, ghost fields: seq<Field>, kv: string) returns (r: string)
    requires Holds(out, boundary, TextParts(fields))
    ensures Holds(r, boundary, TextParts(fields + FieldsIn(kv)))
  {
    var eq := IndexOf(kv, '=');
    if eq == |kv| {
      assert fields + [] == fields;
      return out;
    }
    var f := Field(kv[..eq], kv[eq + 1..]);
    OneMorePart(fields, f);
    assert FieldsIn(kv) == [f];
    r := WriteTextPart(out, boundary, TextParts(fields), f);
    assert Holds(r, boundary, TextParts(fields + [f]));
  }

  /** The loop over the extra fields. */
  method WriteTextParts(boundary: string, extra: Option<string>) returns (out: string)
    ensures Holds(out, boundary, TextParts(ExtraFields(extra)))
  {
    out := "";
    NothingWritten(boundary);
    if extra.Some? && extra.value != "" {
      var kvs := JavaSplit(extra.value);
      for k := 0 to |kvs|
        invariant Holds(out, boundary, TextParts(FieldsOf(kvs[..k])))
      {
        OneMoreField(kvs, k);
        out := WriteField(out, boundary, FieldsOf(kvs[..k]), kvs[k]);
      }
      assert kvs[..|kvs|] == kvs;
    }
  }

  /** The body built is the form of the parts, and reads back as exactly those parts if and only if each of
      them fits. */
  method BuildMultipart(boundary: string, fieldName: string, filename: string, mime: string, data: string,
                        extra: Option<string>) returns (out: string)
    ensures IsFormOf(boundary, FormParts(fieldName, filename, mime, data, extra), out)
    ensures CR !in boundary ==>
              (ReadForm(boundary, out) == Some(FormParts(fieldName, filename, mime, data, extra)) <==>
               forall p :: p in FormParts(fieldName, filename, mime, data, extra) ==> Fits(boundary, p))
  {
    ghost var parts := FormParts(fieldName, filename, mime, data, extra);
    out := WriteTextParts(boundary, extra);
    out := WriteFilePart(out, boundary, TextParts(ExtraFields(extra)), fieldName, filename, mime, data);
    FormClosed(out, boundary, parts);
    out := WriteLine(out, DASHES + boundary + DASHES);
    if CR !in boundary { FormReadsBackExactlyWhenPartsFit(boundary, parts, out); }
  }

  /** The first line of a body, if it is found in the first 256 bytes, without its two dashes. */
  ghost predicate FirstLineIs(body: string, boundary: string) {
    && boundary != "" && CR !in boundary
    && |boundary| + 2 < 256
    && At(DASHES + boundary + [CR], body, 0)
  }

  method ExtractBoundary(body: string, fallback: string) returns (r: string)
    ensures (exists b :: FirstLineIs(body, b)) ==> FirstLineIs(body, r)
    ensures !(exists b :: FirstLineIs(body, b)) ==> r == fallback
  {
    var nl := -1;
    for i := 0 to if |body| < 256 then |body| else 256
      invariant nl == -1 && forall j :: 0 <= j < i ==> body[j] != CR
    {
      if body[i] == CR {
        nl := i;
        break;
      }
    }
    FirstLine(body, nl);
    if nl <= 2 {
      return fallback;
    }
    if body[..2] == DASHES {
      return body[2..nl];
    }
    return fallback;
  }

  lemma FirstLineMeans(body: string, b: string)
    requires FirstLineIs(body, b)
    ensures |b| + 2 < |body| && body[|b| + 2] == CR && forall j :: 0 <= j < |b| + 2 ==> body[j] != CR
    ensures body[..2] == DASHES && body[2..|b| + 2] == b
  {
    var line := DASHES + b + [CR];
    assert body[..|line|] == line;
    assert line[..2] == DASHES && line[2..|b| + 2] == b;
    assert forall j :: 0 <= j < |line| ==> body[j] == line[j];
  }

  /** nl is where the first CR is, or -1 if it is not in the first 256 bytes. */
  lemma FirstLine(body: string, nl: int)
    requires nl == -1 ==> forall j :: 0 <= j < |body| && j < 256 ==> body[j] != CR
    requires nl != -1 ==> 0 <= nl < |body| && nl < 256 && body[nl] == CR && forall j :: 0 <= j < nl ==> body[j] != CR
    ensures (exists b :: FirstLineIs(body, b)) <==> nl > 2 && body[..2] == DASHES
    ensures nl > 2 && body[..2] == DASHES ==> FirstLineIs(body, body[2..nl])
  {
    if nl > 2 && body[..2] == DASHES {
      var b := body[2..nl];
      assert body[..nl + 1] == DASHES + b + [CR];
      assert FirstLineIs(body, b);
    }
    if exists b :: FirstLineIs(body, b) {
      var b :| FirstLineIs(body, b);
      FirstLineMeans(body, b);
      assert nl == |b| + 2 && |b| > 0;
    }
  }

  lemma FirstLineIsUnique(body: string, b: string, c: string)
    requires FirstLineIs(body, b) && FirstLineIs(body, c)
    ensures b == c
  {
    FirstLineMeans(body, b);
    FirstLineMeans(body, c);
    assert |b| == |c|;
  }

  lemma Cancel<T>(a: seq<T>, b: seq<T>, c: seq<T>)
    requires a + b == a + c
    ensures b == c
  {
    assert b == (a + b)[|a|..] && c == (a + c)[|a|..];
  }

  lemma FirstLineIsTheBoundary(boundary: string, parts: seq<Part>, body: string)
    requires boundary != "" && CR !in boundary && |boundary| < 254 && parts != []
    requires IsFormOf(boundary, parts, body)
    ensures FirstLineIs(body, boundary)
  {
    var t := Trailer(Contents(parts), Delimiter(boundary));
    assert t[0] == CR;
    Associate(CRLF, DASHES + boundary, t);
    Cancel(CRLF, body, DASHES + boundary + t);
    FirstLineOf(boundary, t);
  }

  lemma FirstLineOf(boundary: string, rest: string)
    requires boundary != "" && CR !in boundary && |boundary| < 254 && rest != "" && rest[0] == CR
    ensures FirstLineIs(DASHES + boundary + rest, boundary)
  {
    assert (DASHES + boundary + rest)[..|boundary| + 3] == DASHES + boundary + [CR];
  }

  /** A boundary that does not fit into the first 256 bytes is not found. */
  lemma LongBoundaryIsNotFound(boundary: string, parts: seq<Part>, body: string)
    requires CR !in boundary && |boundary| >= 254 && parts != [] && IsFormOf(boundary, parts, body)
    ensures !exists b :: FirstLineIs(body, b)
  {
    var t := Trailer(Contents(parts), Delimiter(boundary));
    Associate(CRLF, DASHES + boundary, t);
    Cancel(CRLF, body, DASHES + boundary + t);
    assert CR !in DASHES + boundary;
    assert forall i :: 0 <= i < 256 ==> body[i] == (DASHES + boundary)[i] != CR;
    forall b ensures !FirstLineIs(body, b) {
      if FirstLineIs(body, b) { FirstLineMeans(body, b); }
    }
  }

  /** Building and posting: the boundary named in the request is the one the body was built with, if it is
      shorter than 254 bytes, so the receiver reads exactly the fields and the file given, if and only if each of
      them fits. A longer one would be replaced by the fallback. */
  method Post(boundary: string, fallback: string, fieldName: string, filename: string, mime: string, data: string,
              extra: Option<string>) returns (named: string, body: string)
    requires boundary != "" && CR !in boundary
    ensures named == if |boundary| < 254 then boundary else fallback
    ensures IsFormOf(boundary, FormParts(fieldName, filename, mime, data, extra), body)
    ensures ReadForm(boundary, body) == Some(FormParts(fieldName, filename, mime, data, extra)) <==>
              forall p :: p in FormParts(fieldName, filename, mime, data, extra) ==> Fits(boundary, p)
  {
    body := BuildMultipart(boundary, fieldName, filename, mime, data, extra);
    named := ExtractBoundary(body, fallback);
    if |boundary| < 254 {
      FirstLineIsTheBoundary(boundary, FormParts(fieldName, filename, mime, data, extra), body);
      FirstLineIsUnique(body, named, boundary);
    } else {
      LongBoundaryIsNotFound(boundary, FormParts(fieldName, filename, mime, data, extra), body);
    }
  }

  const TARGET: string := "target"

  /** uploadFile: the target arrives as given exactly if it contains no ampersand; what follows one is lost or
      becomes another field. */
  lemma TargetArrivesExactlyWithoutAmpersand(target: string)
    ensures ExtraFields(Some(TARGET + "=" + target)) == [Field(TARGET, target)] <==> '&' !in target
  {
    var f := Field(TARGET, target);
    assert '&' !in TARGET && '=' !in TARGET;
    assert f in [f] && (Separable(f) <==> '&' !in target);
    FieldsAreSentExactlyWhenSeparable([f]);
  }

  const FILE: string := "file"
  const OCTETS: string := "application/octet-stream"

  /** What uploadFile means to send. */
  function Upload(data: string, filename: string, target: Option<string>): seq<Part> {
    (match target case Some(t) => [Part(TARGET, None, None, t)] case None => [])
    + [Part(FILE, Some(filename), Some(OCTETS), data)]
  }

  function UploadFields(target: Option<string>): Option<string> {
    match target case Some(t) => Some(TARGET + "=" + t) case None => None
  }

  lemma OneTextPart(f: Field)
    ensures TextParts([f]) == [Part(f.name, None, None, f.value)]
  {
    assert [f] == [] + [f];
    OneMorePart([], f);
  }

  lemma UploadIsForm(data: string, filename: string, target: Option<string>)
    requires target.Some? ==> '&' !in target.value
    ensures FormParts(FILE, filename, OCTETS, data, UploadFields(target)) == Upload(data, filename, target)
  {
    match target
    case Some(t) =>
      TargetArrivesExactlyWithoutAmpersand(t);
      OneTextPart(Field(TARGET, t));
    case None =>
  }

  lemma ConstantsFit()
    ensures Quotable(FILE) && Quotable(TARGET) && OneLine(OCTETS)
  {
    NoBreakWithoutCR(FILE);
    NoBreakWithoutCR(TARGET);
    NoBreakWithoutCR(OCTETS);
  }

  // ---- A target with an ampersand ----

  lemma {:induction false} BodyLeavesRoomForHeaders(s: string)
    requires Headers(s).Some?
    ensures Find(CRLF, s, 0).Some? && |Headers(s).value.1| + 2 <= |s|
    ensures Find(CRLF, s, 0).value != 0 ==> |Headers(s).value.1| + Find(CRLF, s, 0).value + 4 <= |s|
    decreases |s|
  {
    var k := Find(CRLF, s, 0).value;
    if k != 0 {
      BodyLeavesRoomForHeaders(s[k + 2..]);
    }
  }

  /** What is read as the body of a text part that is cut off is no longer than the body. */
  lemma CutBodyIsNoLonger(p: Part, k: nat)
    requires p.mime.None? && CR !in HeaderLines(p)[0] && k <= |Content(HeaderLines(p), p.body)|
    requires ReadPart(Content(HeaderLines(p), p.body)[..k]).Some?
    ensures |ReadPart(Content(HeaderLines(p), p.body)[..k]).value.body| <= |p.body|
  {
    var line := HeaderLines(p)[0];
    assert HeaderLines(p) == [line] && [line][1..] == [];
    assert Content([line], p.body) == line + CRLF + (CRLF + p.body);
    FirstLineOfCut(p, k);
    FirstBreakOfCut(line, CRLF + p.body, k);
    BodyLeavesRoomForHeaders(Content(HeaderLines(p), p.body)[..k]);
  }

  lemma {:induction false} FirstTextPart(fields: seq<Field>)
    requires fields != []
    ensures TextParts(fields) != [] && TextParts(fields)[0] == Part(fields[0].name, None, None, fields[0].value)
  {
    if |fields| == 1 {
      OneTextPart(fields[0]);
      assert fields == [fields[0]];
    } else {
      FirstTextPart(fields[..|fields| - 1]);
    }
  }

  lemma Rejoined(n: string, a: string, b: string)
    ensures n + "=" + (a + "&" + b) == (n + "=" + a) + "&" + b
  {
    Associate(n + "=", a + "&", b);
    Associate(n + "=", a, "&");
  }

  lemma FirstFieldIsCut(name: string, a: string, b: string)
    requires Separable(Field(name, a))
    ensures FieldsOf(Pieces(name + "=" + (a + "&" + b))) == [Field(name, a)] + FieldsOf(Pieces(b))
  {
    Rejoined(name, a, b);
    FieldIsRead(Field(name, a));
    FirstPieceSplitsOff(name + "=" + a, b);
  }

  lemma ExtraFieldsOfCut(name: string, a: string, b: string)
    requires Separable(Field(name, a))
    ensures ExtraFields(Some(name + "=" + (a + "&" + b))) == [Field(name, a)] + FieldsOf(Pieces(b))
  {
    FirstFieldIsCut(name, a, b);
    ExtraFieldsAreThePieces(name + "=" + (a + "&" + b));
  }

  lemma AroundAmpersand(s: string)
    requires '&' in s
    ensures s == s[..IndexOf(s, '&')] + "&" + s[IndexOf(s, '&') + 1..]
  {
  }

  lemma TargetIsSeparable(a: string)
    requires '&' !in a
    ensures Separable(Field(TARGET, a))
  {
    assert '&' !in TARGET && '=' !in TARGET;
  }

  lemma TargetIsCutAtAmpersand(target: string)
    requires '&' in target
    ensures ExtraFields(UploadFields(Some(target))) != []
    ensures ExtraFields(UploadFields(Some(target)))[0] == Field(TARGET, target[..IndexOf(target, '&')])
  {
    var a, b := target[..IndexOf(target, '&')], target[IndexOf(target, '&') + 1..];
    AroundAmpersand(target);
    TargetIsSeparable(a);
    ExtraFieldsOfCut(TARGET, a, b);
  }

  lemma CutTargetComesFirst(data: string, filename: string, target: string)
    requires '&' in target
    ensures var parts := FormParts(FILE, filename, OCTETS, data, UploadFields(Some(target)));
            parts != [] && parts[0] == Part(TARGET, None, None, target[..IndexOf(target, '&')])
  {
    TargetIsCutAtAmpersand(target);
    FirstTextPart(ExtraFields(UploadFields(Some(target))));
  }

  /** Whatever a form reads as: if its first part is a text, the first body read is no longer than that. */
  lemma FirstBodyIsNoLonger(boundary: string, parts: seq<Part>, body: string)
    requires CR !in boundary && IsFormOf(boundary, parts, body) && parts != []
    requires parts[0].mime.None? && CR !in HeaderLines(parts[0])[0]
    requires ReadForm(boundary, body).Some?
    ensures ReadForm(boundary, body).value != [] && |ReadForm(boundary, body).value[0].body| <= |parts[0].body|
  {
    var p, d := parts[0], Delimiter(boundary);
    FirstDelimiter(boundary, parts, body);
    FirstPartRead(boundary, parts);
    var cs := PartsBehind(Trailer(Contents(parts), d), d).value;
    assert cs[0] == Content(HeaderLines(p), p.body)[..|cs[0]|];
    CutBodyIsNoLonger(p, |cs[0]|);
  }

  /** A target with an ampersand never arrives, whatever is in the file. */
  lemma AmpersandInTargetIsLost(boundary: string, data: string, filename: string, target: string, body: string)
    requires CR !in boundary && '&' in target
    requires IsFormOf(boundary, FormParts(FILE, filename, OCTETS, data, UploadFields(Some(target))), body)
    ensures ReadForm(boundary, body) != Some(Upload(data, filename, Some(target)))
  {
    var parts := FormParts(FILE, filename, OCTETS, data, UploadFields(Some(target)));
    CutTargetComesFirst(data, filename, target);
    TargetLineHasNoBreak(parts[0]);
    assert Upload(data, filename, Some(target))[0].body == target;
    if ReadForm(boundary, body).Some? {
      FirstBodyIsNoLonger(boundary, parts, body);
    }
  }

  lemma TargetLineHasNoBreak(p: Part)
    requires p.name == TARGET && p.filename.None?
    ensures CR !in HeaderLines(p)[0]
  {
    KeysAreDifferentWords();
    assert CR !in TARGET && CR !in DISPOSITION && CR !in FORM_DATA;
    assert ParameterText(p) == Parameter(NAME, TARGET) + "" == Parameter(NAME, TARGET);
    assert CR !in Parameter(NAME, TARGET);
  }

  lemma FirstPartRead(boundary: string, parts: seq<Part>)
    requires parts != []
    requires PartsBehind(Trailer(Contents(parts), Delimiter(boundary)), Delimiter(boundary)).Some?
    ensures var cs := PartsBehind(Trailer(Contents(parts), Delimiter(boundary)), Delimiter(boundary)).value;
            cs != [] && cs[0] <= Content(HeaderLines(parts[0]), parts[0].body)
  {
    var d := Delimiter(boundary);
    FirstPartIsCut(Content(HeaderLines(parts[0]), parts[0].body), d, Trailer(Contents(parts[1..]), d));
  }

  /** uploadFile: the daemon reads the file, its name and its target exactly as given if and only if the target
      has no ampersand, the name has no quote, no backslash and no line break, and no line of the file or of the
      target begins with the boundary. */
  method UploadFile(boundary: string, fallback: string, data: string, filename: string, target: Option<string>)
    returns (named: string, body: string)
    requires boundary != "" && CR !in boundary && |boundary| < 254
    ensures named == boundary
    ensures ReadForm(named, body) == Some(Upload(data, filename, target)) <==>
              Quotable(filename) && FreeOf(boundary, data)
              && (target.Some? ==> '&' !in target.value && FreeOf(boundary, target.value))
  {
    named, body := Post(boundary, fallback, FILE, filename, OCTETS, data, UploadFields(target));
    if target.Some? && '&' in target.value {
      AmpersandInTargetIsLost(boundary, data, filename, target.value, body);
    } else {
      UploadIsForm(data, filename, target);
      UploadFits(boundary, data, filename, target);
    }
  }

  /** The fixed words of an upload. */
  lemma UploadSays(data: string, filename: string, target: string)
    ensures Upload(data, filename, None) == [Part("file", Some(filename), Some("application/octet-stream"), data)]
    ensures Upload(data, filename, Some(target)) ==
              [Part("target", None, None, target), Part("file", Some(filename), Some("application/octet-stream"), data)]
    ensures UploadFields(Some(target)) == Some("target=" + target) && UploadFields(None) == None
  {
    assert TARGET + "=" == "target=";
  }

  lemma UploadFits(boundary: string, data: string, filename: string, target: Option<string>)
    ensures (forall p :: p in Upload(data, filename, target) ==> Fits(boundary, p)) <==>
              Quotable(filename) && FreeOf(boundary, data) && (target.Some? ==> FreeOf(boundary, target.value))
  {
    ConstantsFit();
    var file := Part(FILE, Some(filename), Some(OCTETS), data);
    assert file in Upload(data, filename, target);
    assert Fits(boundary, file) <==> Quotable(filename) && FreeOf(boundary, data);
    if target.Some? {
      var p := Part(TARGET, None, None, target.value);
      assert p in Upload(data, filename, target) && (Fits(boundary, p) <==> FreeOf(boundary, target.value));
    }
  }

  /** A file called a"b never arrives under its name, whatever is in it. */
  lemma QuoteInFilenameIsLost(boundary: string, data: string, body: string)
    requires CR !in boundary && IsFormOf(boundary, Upload(data, "a\"b", None), body)
    ensures ReadForm(boundary, body) != Some(Upload(data, "a\"b", None))
  {
    var file := Part(FILE, Some("a\"b"), Some(OCTETS), data);
    assert file in Upload(data, "a\"b", None) && "a\"b"[1] == '"';
    FormReadsBackExactlyWhenPartsFit(boundary, Upload(data, "a\"b", None), body);
  }
}
