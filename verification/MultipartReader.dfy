/** A reader of multipart bodies: section 5.1.1 of RFC 2046 for the parts, section 4 of RFC 7578 for the fields
    in them. A character stands for one byte. */
module MultipartReader {
  import opened Options

  const CR: char := '\r'
  const LF: char := '\n'
  const CRLF: string := [CR, LF]
  const DASHES: string := "--"

  /** delimiter := CRLF "--" boundary */
  function Delimiter(boundary: string): string {
    CRLF + (DASHES + boundary)
  }

  predicate At(p: string, s: string, i: nat) {
    i + |p| <= |s| && s[i..i + |p|] == p
  }

  ghost predicate Occurs(p: string, s: string) {
    exists i :: At(p, s, i)
  }

  /** The first place of p in s, at i or later. */
  function Find(p: string, s: string, i: nat): (r: Option<nat>)
    requires i <= |s|
    ensures r.Some? ==> i <= r.value && At(p, s, r.value) && forall j :: i <= j < r.value ==> !At(p, s, j)
    ensures r.None? ==> forall j :: i <= j ==> !At(p, s, j)
    decreases |s| - i
  {
    if At(p, s, i) then Some(i)
    else if i == |s| then None
    else Find(p, s, i + 1)
  }

  /** Spaces and tabs may follow a boundary. */
  function Unpadded(s: string): (r: string)
    ensures |r| <= |s|
    ensures s == "" || (s[0] != ' ' && s[0] != '\t') ==> r == s
  {
    if s != "" && (s[0] == ' ' || s[0] == '\t') then Unpadded(s[1..]) else s
  }

  /** The body parts in s, the text behind a delimiter. */
  function PartsBehind(s: string, delimiter: string): Option<seq<string>>
    decreases |s|
  {
    var u := Unpadded(s);
    if At(DASHES, u, 0) then Some([])
    else if !At(CRLF, u, 0) then None
    else
      var t := u[2..];
      match Find(delimiter, t, 0)
      case None => None
      case Some(k) => Prepend(Some(t[..k]), PartsBehind(t[k + |delimiter|..], delimiter))
  }

  /** What stands before the first boundary is ignored; the body begins a line. */
  function BodyParts(boundary: string, body: string): Option<seq<string>> {
    var d := Delimiter(boundary);
    match Find(d, CRLF + body, 0)
    case None => None
    case Some(k) => PartsBehind((CRLF + body)[k + |d|..], d)
  }

  // ---- The fields ----

  datatype Part = Part(name: string, filename: Option<string>, mime: Option<string>, body: string)

  const DISPOSITION: string := "Content-Disposition: "
  const CONTENT_TYPE: string := "Content-Type: "
  const FORM_DATA: string := "form-data"
  const NAME: string := "name"
  const FILENAME: string := "filename"

  /** The header lines, up to an empty line, and what follows it. */
  function Headers(s: string): Option<(seq<string>, string)>
    decreases |s|
  {
    match Find(CRLF, s, 0)
    case None => None
    case Some(k) =>
      if k == 0 then Some(([], s[2..]))
      else match Headers(s[k + 2..])
        case None => None
        case Some((lines, rest)) => Some(([s[..k]] + lines, rest))
  }

  function HeaderValue(lines: seq<string>, header: string): Option<string> {
    if lines == [] then None
    else if At(header, lines[0], 0) then Some(lines[0][|header|..])
    else HeaderValue(lines[1..], header)
  }

  /** The place of c in s, or the length of s. */
  function IndexOf(s: string, c: char): (i: nat)
    ensures i <= |s| && c !in s[..i] && (i < |s| ==> s[i] == c) && (c in s <==> i < |s|)
  {
    if s == "" || s[0] == c then 0 else
      var i := IndexOf(s[1..], c) + 1;
      assert s[..i] == [s[0]] + s[1..][..i - 1];
      i
  }

  /** The rest of a quoted value and what follows it. A backslash quotes the next character (a quoted-pair in
      the sense of section 3.3 of RFC 822, on which section 5.1 of RFC 2045 builds). */
  function ReadQuoted(s: string): (r: Option<(string, string)>)
    ensures r.Some? ==> |r.value.0| + |r.value.1| < |s|
    decreases |s|
  {
    if s == "" then None
    else if s[0] == '"' then Some(("", s[1..]))
    else if s[0] != '\\' then Quoting(s[0], ReadQuoted(s[1..]))
    else if |s| == 1 then None
    else Quoting(s[1], ReadQuoted(s[2..]))
  }

  function Quoting(c: char, read: Option<(string, string)>): Option<(string, string)> {
    match read case None => None case Some((value, rest)) => Some(([c] + value, rest))
  }

  /** A name and a quoted value, and what follows them. */
  function ReadParameter(s: string): (r: Option<(string, string, string)>)
    ensures r.Some? ==>
              var e := IndexOf(s, '=');
              && e + 2 <= |s| && r.value.0 == s[..e] && |r.value.2| < |s|
              && ReadQuoted(s[e + 2..]) == Some((r.value.1, r.value.2))
  {
    var e := IndexOf(s, '=');
    if e + 1 < |s| && s[e + 1] == '"' then
      match ReadQuoted(s[e + 2..])
      case None => None
      case Some((value, rest)) => Some((s[..e], value, rest))
    else None
  }

  /** The parameters in s, each behind a semicolon and a space. */
  function Parameters(s: string): Option<seq<(string, string)>>
    decreases |s|
  {
    if s == "" then Some([])
    else if |s| < 2 || s[0] != ';' || s[1] != ' ' then None
    else match ReadParameter(s[2..])
      case None => None
      case Some((key, value, rest)) => Prepend(Some((key, value)), Parameters(rest))
  }

  function Lookup(parameters: seq<(string, string)>, key: string): Option<string> {
    if parameters == [] then None
    else if parameters[0].0 == key then Some(parameters[0].1)
    else Lookup(parameters[1..], key)
  }

  function ReadPart(content: string): Option<Part> {
    match Headers(content)
    case None => None
    case Some((lines, body)) =>
      match HeaderValue(lines, DISPOSITION)
      case None => None
      case Some(disposition) =>
        if !At(FORM_DATA, disposition, 0) then None
        else match Parameters(disposition[|FORM_DATA|..])
          case None => None
          case Some(parameters) =>
            match Lookup(parameters, NAME)
            case None => None
            case Some(name) =>
              Some(Part(name, Lookup(parameters, FILENAME), HeaderValue(lines, CONTENT_TYPE), body))
  }

  function ReadEach(contents: seq<string>): Option<seq<Part>> {
    if contents == [] then Some([]) else Prepend(ReadPart(contents[0]), ReadEach(contents[1..]))
  }

  function ReadForm(boundary: string, body: string): Option<seq<Part>> {
    match BodyParts(boundary, body)
    case None => None
    case Some(contents) => ReadEach(contents)
  }

  // ---- How it reads what is put together ----

  lemma FindIs(p: string, s: string, k: nat)
    requires At(p, s, k) && forall j: nat :: j < k ==> !At(p, s, j)
    ensures Find(p, s, 0) == Some(k)
  {
  }

  lemma IndexIs(a: string, c: char, b: string)
    requires c !in a
    ensures IndexOf(a + [c] + b, c) == |a|
  {
    var s := a + [c] + b;
    var i := IndexOf(s, c);
    assert s[|a|] == c && c in s;
    assert forall j :: 0 <= j < |a| ==> s[j] == a[j];
    assert forall j :: 0 <= j < i ==> s[..i][j] == s[j];
  }

  /** A delimiter is found where it was put: it begins with the only CR in it, so it cannot overlap itself. */
  lemma DelimiterIsFound(d: string, content: string, rest: string)
    requires d != [] && d[0] !in d[1..] && !Occurs(d, content)
    ensures Find(d, content + d + rest, 0) == Some(|content|)
  {
    var s := content + d + rest;
    assert s[|content|..|content| + |d|] == d;
    forall j: nat | j < |content| ensures !At(d, s, j) {
      if j + |d| <= |content| {
        assert s[j..j + |d|] == content[j..j + |d|];
        assert !At(d, content, j);
      } else {
        var k := |content| - j;
        assert d[1..][k - 1] == d[k];
        assert s[|content|] == d[0];
        assert j + |d| <= |s| ==> s[j..j + |d|][k] == s[|content|];
      }
    }
    FindIs(d, s, |content|);
  }

  /** What follows the first delimiter of a body with these parts. */
  function Trailer(contents: seq<string>, d: string): string {
    if contents == [] then DASHES + CRLF else CRLF + (contents[0] + d + Trailer(contents[1..], d))
  }

  lemma OnePartIsFound(c: string, d: string, rest: string)
    requires d != [] && d[0] !in d[1..] && !Occurs(d, c)
    ensures PartsBehind(CRLF + (c + d + rest), d) == Prepend(Some(c), PartsBehind(rest, d))
  {
    var s := CRLF + (c + d + rest);
    assert s[0] == CR && At(CRLF, s, 0);
    assert s[2..] == c + d + rest;
    DelimiterIsFound(d, c, rest);
    assert (c + d + rest)[..|c|] == c && (c + d + rest)[|c| + |d|..] == rest;
  }

  lemma {:induction false} PartsAreFound(contents: seq<string>, d: string)
    requires d != [] && d[0] !in d[1..] && forall c :: c in contents ==> !Occurs(d, c)
    ensures PartsBehind(Trailer(contents, d), d) == Some(contents)
  {
    if contents == [] {
      assert At(DASHES, Trailer([], d), 0);
    } else {
      OnePartIsFound(contents[0], d, Trailer(contents[1..], d));
      PartsAreFound(contents[1..], d);
      assert [contents[0]] + contents[1..] == contents;
    }
  }

  lemma SliceOfPrefix(t: string, k: nat, i: nat, j: nat)
    requires i <= j <= k <= |t|
    ensures t[..k][i..j] == t[i..j]
  {
  }

  /** No part that is read contains the delimiter. */
  lemma {:induction false} NoDelimiterInParts(s: string, d: string)
    requires d != "" && PartsBehind(s, d).Some?
    ensures forall c :: c in PartsBehind(s, d).value ==> !Occurs(d, c)
    decreases |s|
  {
    var u := Unpadded(s);
    if !At(DASHES, u, 0) {
      var t := u[2..];
      var k := Find(d, t, 0).value;
      forall j: nat ensures !At(d, t[..k], j) {
        assert !(j < k && At(d, t, j));
        if j + |d| <= k { SliceOfPrefix(t, k, j, j + |d|); }
      }
      NoDelimiterInParts(t[k + |d|..], d);
    }
  }
}
