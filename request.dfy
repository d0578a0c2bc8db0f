/**
 * `BrowserRequest` in server.py: the decoded request text cut into lines,
 * the first line into method, path and HTTP version, every other line into
 * a header dictionary; and the attribute-style header lookup.
 */
module Request {
  import opened Wrappers
  import opened Text

  /** A parsed request. `info` maps each header name, exactly as received, to its value. */
  datatype BrowserRequest = BrowserRequest(httpMethod: string, path: string, httpVersion: string, info: map<string, string>)

  /** Why building a `BrowserRequest` raises. */
  datatype ParseError =
    | NoRequestLine                 // `lines.pop(0)` on an empty list: IndexError
    | BadRequestLine(line: string)  // the first line is not three space-separated pieces: ValueError
    | BadHeaderLine(line: string)   // a later line is not two ": "-separated pieces: ValueError

  /** The lines kept from `pieces`, in order: each one stripped, the empty ones dropped. */
  function KeptLines(pieces: seq<string>): (r: seq<string>)
    ensures |r| <= |pieces|
    ensures forall k :: 0 <= k < |r| ==> r[k] != [] && Trimmed(r[k])
  {
    if pieces == [] then []
    else
      var line := Strip(pieces[|pieces| - 1]);
      KeptLines(pieces[..|pieces| - 1]) + (if line != [] then [line] else [])
  }

  /** The lines the constructor collects from the request text. */
  function Lines(data: string): (r: seq<string>)
    ensures forall k :: 0 <= k < |r| ==> r[k] != [] && Trimmed(r[k])
  {
    KeptLines(Split(data, "\n"))
  }

  /** The pieces a header line splits into on ": ". */
  function FieldParts(line: string): seq<string> {
    Split(line, ": ")
  }

  /** A line the header comprehension can unpack into a name and a value. */
  predicate IsField(line: string) {
    |FieldParts(line)| == 2
  }

  function FieldName(line: string): string {
    FieldParts(line)[0]
  }

  function FieldValue(line: string): string {
    if |FieldParts(line)| >= 2 then FieldParts(line)[1] else []
  }

  /**
   * `{k: v for k, v in (line.split(": ") for line in lines)}`: the lines are
   * unpacked in order, the first one that is not a name and a value raises,
   * and a later line overwrites an earlier one with the same name.
   */
  function Headers(lines: seq<string>): (r: Result<map<string, string>, ParseError>)
    ensures r.Err? ==> r.error.BadHeaderLine? && r.error.line in lines
  {
    if lines == [] then Ok(map[])
    else
      var last := lines[|lines| - 1];
      match Headers(lines[..|lines| - 1])
      case Err(e) => Err(e)
      case Ok(info) =>
        if IsField(last) then Ok(info[FieldName(last) := FieldValue(last)])
        else Err(BadHeaderLine(last))
  }

  /** What `BrowserRequest(data)` builds from the decoded text `data`, or why it raises. */
  function Parse(data: string): (r: Result<BrowserRequest, ParseError>)
    ensures r.Ok? ==> Lines(data) != []
    ensures r.Err? && r.error.BadRequestLine? ==> Lines(data) != [] && r.error.line == Lines(data)[0]
    ensures r.Err? && r.error.BadHeaderLine? ==> Lines(data) != [] && r.error.line in Lines(data)[1..]
  {
    var lines := Lines(data);
    if lines == [] then Err(NoRequestLine)
    else
      var parts := Split(lines[0], " ");
      if |parts| != 3 then Err(BadRequestLine(lines[0]))
      else
        match Headers(lines[1..])
        case Err(e) => Err(e)
        case Ok(info) => Ok(BrowserRequest(parts[0], parts[1], parts[2], info))
  }

  /** The constructor's loop: strips each piece and keeps the non-empty ones, in order. */
  method CollectLines(pieces: seq<string>) returns (lines: seq<string>)
    ensures lines == KeptLines(pieces)
  {
    lines := [];
    for i := 0 to |pieces|
      invariant lines == KeptLines(pieces[..i])
    {
      var line := Strip(pieces[i]);
      assert pieces[..i + 1][..i] == pieces[..i];
      if line != [] {
        lines := lines + [line];
      }
    }
    assert pieces[..|pieces|] == pieces;
  }

  /**
   * The constructor: collects the stripped non-empty lines, pops the first
   * as the request line and reads the rest as headers.
   */
  method NewRequest(data: string) returns (r: Result<BrowserRequest, ParseError>)
    ensures r == Parse(data)
  {
    var lines := CollectLines(Split(data, "\n"));
    if lines == [] {
      return Err(NoRequestLine);
    }
    var requestLine := lines[0];
    lines := lines[1..];
    var parts := Split(requestLine, " ");
    if |parts| != 3 {
      return Err(BadRequestLine(requestLine));
    }
    var info := Headers(lines);
    if info.Err? {
      return Err(info.error);
    }
    r := Ok(BrowserRequest(parts[0], parts[1], parts[2], info.value));
  }

  /* ---------------- Lines ---------------- */

  /** Every character of s is whitespace. */
  predicate AllSpace(s: string) {
    forall k :: 0 <= k < |s| ==> IsSpace(s[k])
  }

  lemma StripEmpty(s: string)
    ensures Strip(s) == [] <==> AllSpace(s)
  {
    StripIsInfix(s);
    var i: nat :| InfixAt(s, Strip(s), i);
  }

  lemma {:induction false} KeptLinesEmpty(pieces: seq<string>)
    ensures KeptLines(pieces) == [] <==> forall k :: 0 <= k < |pieces| ==> AllSpace(pieces[k])
  {
    if pieces != [] {
      var n := |pieces| - 1;
      var init := pieces[..n];
      assert KeptLines(pieces) == KeptLines(init) + (if Strip(pieces[n]) != [] then [Strip(pieces[n])] else []);
      KeptLinesEmpty(init);
      StripEmpty(pieces[n]);
      assert forall k :: 0 <= k < n ==> init[k] == pieces[k];
    }
  }

  lemma {:induction false} JoinAllSpace(parts: seq<string>)
    requires |parts| >= 1
    ensures AllSpace(Join(parts, "\n")) <==> forall k :: 0 <= k < |parts| ==> AllSpace(parts[k])
  {
    if |parts| > 1 {
      var rest := parts[1..];
      JoinAllSpace(rest);
      var s := parts[0] + "\n" + Join(rest, "\n");
      assert s == Join(parts, "\n");
      if AllSpace(s) {
        forall k | 0 <= k < |parts[0]|
          ensures IsSpace(parts[0][k])
        {
          assert s[k] == parts[0][k];
        }
        forall k | 0 <= k < |Join(rest, "\n")|
          ensures IsSpace(Join(rest, "\n")[k])
        {
          assert s[|parts[0]| + 1 + k] == Join(rest, "\n")[k];
        }
        forall k | 0 <= k < |parts|
          ensures AllSpace(parts[k])
        {
          if k > 0 { assert parts[k] == rest[k - 1]; }
        }
      }
    }
  }

  /** The request text holds no line at all exactly when it is nothing but whitespace. */
  lemma NoLinesIffBlank(data: string)
    ensures Lines(data) == [] <==> AllSpace(data)
  {
    var pieces := Split(data, "\n");
    JoinSplit(data, "\n");
    KeptLinesEmpty(pieces);
    JoinAllSpace(pieces);
  }

  lemma {:induction false} KeptLinesAppend(a: seq<string>, b: seq<string>)
    decreases |b|
    ensures KeptLines(a + b) == KeptLines(a) + KeptLines(b)
  {
    if b == [] {
      assert a + b == a;
    } else {
      var b' := b[..|b| - 1];
      assert (a + b)[..|a + b| - 1] == a + b';
      assert (a + b)[|a + b| - 1] == b[|b| - 1];
      KeptLinesAppend(a, b');
    }
  }

  /** A single piece is kept as its stripped self, if that is not empty. */
  lemma KeptLinesOne(piece: string)
    ensures KeptLines([piece]) == if Strip(piece) != [] then [Strip(piece)] else []
  {
    assert [piece][..0] == [];
  }

  /* ---------------- Request line ---------------- */

  /** Python's `sep.join` of three parts. */
  lemma JoinThree(parts: seq<string>, sep: string)
    requires |parts| == 3
    ensures Join(parts, sep) == parts[0] + sep + parts[1] + sep + parts[2]
  {
    var tail := parts[1..];
    assert tail[1..] == [parts[2]];
    assert Join(tail, sep) == parts[1] + sep + parts[2];
    assert Join(parts, sep) == parts[0] + sep + (parts[1] + sep + parts[2]);
  }

  /** What a successful parse is made of. */
  lemma ParseOk(data: string)
    requires Parse(data).Ok?
    ensures Lines(data) != [] && |Split(Lines(data)[0], " ")| == 3
    ensures var req := Parse(data).value; var parts := Split(Lines(data)[0], " ");
      req.httpMethod == parts[0] && req.path == parts[1] && req.httpVersion == parts[2]
      && Headers(Lines(data)[1..]) == Ok(req.info)
  {
  }

  /**
   * A parsed request line is the method, the path and the version joined by
   * single spaces, and none of the three holds a space.
   */
  lemma RequestLineTokens(data: string)
    requires Parse(data).Ok?
    ensures var req := Parse(data).value;
      Lines(data) != [] && Lines(data)[0] == req.httpMethod + " " + req.path + " " + req.httpVersion
      && ' ' !in req.httpMethod && ' ' !in req.path && ' ' !in req.httpVersion
  {
    ParseOk(data);
    var line := Lines(data)[0];
    var parts := Split(line, " ");
    JoinSplit(line, " ");
    JoinThree(parts, " ");
    SplitPiecesFree(line, " ");
    FreeChar(parts[0], ' ');
    FreeChar(parts[1], ' ');
    FreeChar(parts[2], ' ');
  }

  /**
   * Parsing fails on the request line exactly when that line does not hold
   * exactly two spaces (a doubled space counts twice).
   */
  lemma RequestLineNeedsTwoSpaces(data: string)
    ensures (Parse(data).Err? && Parse(data).error.BadRequestLine?)
      <==> Lines(data) != [] && CountChar(Lines(data)[0], ' ') != 2
  {
    var lines := Lines(data);
    if lines != [] {
      SplitCharCount(lines[0], ' ');
    }
  }

  /** Parsing fails with IndexError exactly when the text is blank. */
  lemma NoRequestLineIffBlank(data: string)
    ensures Parse(data) == Err(NoRequestLine) <==> AllSpace(data)
  {
    NoLinesIffBlank(data);
  }

  /* ---------------- Header lines ---------------- */

  /**
   * The comprehension succeeds exactly when every line unpacks into a name
   * and a value; otherwise it fails on the first line that does not.
   */
  lemma {:induction false} HeadersOutcome(lines: seq<string>)
    ensures Headers(lines).Ok? <==> forall k :: 0 <= k < |lines| ==> IsField(lines[k])
    ensures Headers(lines).Err? ==>
      exists k :: 0 <= k < |lines| && !IsField(lines[k])
        && Headers(lines).error == BadHeaderLine(lines[k])
        && forall j :: 0 <= j < k ==> IsField(lines[j])
  {
    if lines != [] {
      var init := lines[..|lines| - 1];
      HeadersOutcome(init);
      assert forall k :: 0 <= k < |init| ==> init[k] == lines[k];
    }
  }

  /** No header line after line k carries the name of line k. */
  predicate LastNamed(lines: seq<string>, k: nat)
    requires k < |lines|
  {
    forall j :: k < j < |lines| ==> FieldName(lines[j]) != FieldName(lines[k])
  }

  /** The header dictionary holds exactly the names of the header lines, each name unchanged. */
  lemma {:induction false} HeadersKeys(lines: seq<string>)
    requires Headers(lines).Ok?
    ensures forall name :: name in Headers(lines).value <==> exists k :: 0 <= k < |lines| && FieldName(lines[k]) == name
  {
    if lines != [] {
      var n := |lines| - 1;
      var init := lines[..n];
      HeadersKeys(init);
      var info := Headers(init).value;
      assert Headers(lines).value == info[FieldName(lines[n]) := FieldValue(lines[n])];
      forall name
        ensures name in Headers(lines).value <==> exists k :: 0 <= k < |lines| && FieldName(lines[k]) == name
      {
        if name in info {
          var k :| 0 <= k < |init| && FieldName(init[k]) == name;
          assert lines[k] == init[k];
        }
        if exists k :: 0 <= k < |lines| && FieldName(lines[k]) == name {
          var k :| 0 <= k < |lines| && FieldName(lines[k]) == name;
          if k < n { assert init[k] == lines[k]; }
        }
      }
    }
  }

  /** A name maps to the value of the last header line carrying it. */
  lemma {:induction false} HeadersValues(lines: seq<string>)
    requires Headers(lines).Ok?
    ensures forall k :: 0 <= k < |lines| && LastNamed(lines, k) ==>
      FieldName(lines[k]) in Headers(lines).value && Headers(lines).value[FieldName(lines[k])] == FieldValue(lines[k])
  {
    if lines != [] {
      var n := |lines| - 1;
      var init := lines[..n];
      HeadersValues(init);
      var info := Headers(init).value;
      assert Headers(lines).value == info[FieldName(lines[n]) := FieldValue(lines[n])];
      forall k | 0 <= k < |lines| && LastNamed(lines, k)
        ensures FieldName(lines[k]) in Headers(lines).value && Headers(lines).value[FieldName(lines[k])] == FieldValue(lines[k])
      {
        if k < n {
          assert init[k] == lines[k];
          assert LastNamed(init, k) by {
            forall j | k < j < |init| ensures FieldName(init[j]) != FieldName(init[k]) {
              assert init[j] == lines[j];
            }
          }
        }
      }
    }
  }

  /* ---------------- Round trip ---------------- */

  /** A request-line token: not empty and free of whitespace. */
  predicate IsToken(s: string) {
    s != [] && forall k :: 0 <= k < |s| ==> !IsSpace(s[k])
  }

  /** A header the parser reads back as sent: trimmed, on one line, with ": " only as the separator. */
  ghost predicate IsWireField(name: string, value: string) {
    name != [] && value != [] && !IsSpace(name[0]) && !IsSpace(value[|value| - 1])
    && '\n' !in name && '\n' !in value && Free(name, ": ") && Free(value, ": ")
  }

  /** The header lines for a list of (name, value) pairs. */
  function FieldLines(fields: seq<(string, string)>): (r: seq<string>)
    ensures |r| == |fields|
  {
    if fields == [] then []
    else FieldLines(fields[..|fields| - 1]) + [fields[|fields| - 1].0 + ": " + fields[|fields| - 1].1]
  }

  /** The dictionary a browser means by a list of header pairs: later pairs win. */
  function FieldMap(fields: seq<(string, string)>): map<string, string> {
    if fields == [] then map[]
    else FieldMap(fields[..|fields| - 1])[fields[|fields| - 1].0 := fields[|fields| - 1].1]
  }

  /** Lines each ended by CR LF, followed by the empty line that closes a request head. */
  function Crlf(lines: seq<string>): string {
    if lines == [] then "\r\n" else lines[0] + "\r\n" + Crlf(lines[1..])
  }

  /** The request head a client sends: request line, header lines, blank line. */
  function WireRequest(httpMethod: string, path: string, version: string, fields: seq<(string, string)>): string {
    Crlf([httpMethod + " " + path + " " + version] + FieldLines(fields))
  }

  /** A trimmed line ended by CR LF is the first line of whatever follows it. */
  lemma LinesCons(l: string, tail: string)
    requires l != [] && Trimmed(l) && '\n' !in l
    ensures Lines(l + "\r\n" + tail) == [l] + Lines(tail)
  {
    var a := l + "\r";
    assert l + "\r\n" + tail == a + "\n" + tail;
    assert '\n' !in a;
    FindCharAfter(a, '\n');
    SplitCons(a, "\n", tail);
    KeptLinesAppend([a], Split(tail, "\n"));
    KeptLinesOne(a);
    StripCarriageReturn(l);
  }

  lemma {:induction false} LinesOfCrlf(lines: seq<string>)
    requires forall k :: 0 <= k < |lines| ==> lines[k] != [] && Trimmed(lines[k]) && '\n' !in lines[k]
    ensures Lines(Crlf(lines)) == lines
  {
    if lines == [] {
      assert IsSpace('\r');
      assert IsSpace('\n');
      assert AllSpace("\r\n");
      NoLinesIffBlank("\r\n");
    } else {
      LinesCons(lines[0], Crlf(lines[1..]));
      LinesOfCrlf(lines[1..]);
    }
  }

  lemma {:induction false} HeadersOfFields(fields: seq<(string, string)>)
    requires forall i :: 0 <= i < |fields| ==> IsWireField(fields[i].0, fields[i].1)
    ensures Headers(FieldLines(fields)) == Ok(FieldMap(fields))
  {
    if fields != [] {
      var n := |fields| - 1;
      var lines := FieldLines(fields);
      assert lines[..n] == FieldLines(fields[..n]);
      HeadersOfFields(fields[..n]);
      SplitField(fields[n].0, fields[n].1);
    }
  }

  /**
   * Round trip: a request head made of a request line and header lines,
   * sent with CR LF line ends, parses back into the same method, path,
   * version and header dictionary.
   */
  lemma ParseWireRequest(httpMethod: string, path: string, version: string, fields: seq<(string, string)>)
    requires IsToken(httpMethod) && IsToken(version) && ' ' !in path && '\n' !in path
    requires forall i :: 0 <= i < |fields| ==> IsWireField(fields[i].0, fields[i].1)
    ensures Parse(WireRequest(httpMethod, path, version, fields)) == Ok(BrowserRequest(httpMethod, path, version, FieldMap(fields)))
  {
    var requestLine := httpMethod + " " + path + " " + version;
    var lines := [requestLine] + FieldLines(fields);
    RequestLineOnWire(httpMethod, path, version);
    FieldLinesOnWire(fields);
    forall k | 0 <= k < |lines|
      ensures lines[k] != [] && Trimmed(lines[k]) && '\n' !in lines[k]
    {
      if k > 0 { assert lines[k] == FieldLines(fields)[k - 1]; }
    }
    LinesOfCrlf(lines);
    assert lines[1..] == FieldLines(fields);
    SplitThreeTokens(httpMethod, path, version);
    HeadersOfFields(fields);
    ParseOfParts(WireRequest(httpMethod, path, version, fields), requestLine, FieldLines(fields),
      httpMethod, path, version, FieldMap(fields));
  }

  /** Every header line of wire fields is non-empty, trimmed and on one line. */
  lemma FieldLinesOnWire(fields: seq<(string, string)>)
    requires forall i :: 0 <= i < |fields| ==> IsWireField(fields[i].0, fields[i].1)
    ensures forall k :: 0 <= k < |fields| ==>
      FieldLines(fields)[k] != [] && Trimmed(FieldLines(fields)[k]) && '\n' !in FieldLines(fields)[k]
  {
    forall k | 0 <= k < |fields|
      ensures FieldLines(fields)[k] != [] && Trimmed(FieldLines(fields)[k]) && '\n' !in FieldLines(fields)[k]
    {
      var f := FieldLinesAt(fields, k);
    }
  }

  /** A request line of two tokens around a path is non-empty, trimmed, on one line and split into three. */
  lemma RequestLineOnWire(httpMethod: string, path: string, version: string)
    requires IsToken(httpMethod) && IsToken(version) && ' ' !in path && '\n' !in path
    ensures var line := httpMethod + " " + path + " " + version;
      line != [] && Trimmed(line) && '\n' !in line
      && ' ' !in httpMethod && ' ' !in version
  {
    var line := httpMethod + " " + path + " " + version;
    assert IsSpace('\n');
    assert line[0] == httpMethod[0];
    assert line[|line| - 1] == version[|version| - 1];
    forall k | 0 <= k < |line|
      ensures line[k] != '\n'
    {
      if k < |httpMethod| {
        assert line[k] == httpMethod[k];
      } else if |httpMethod| < k < |httpMethod| + 1 + |path| {
        assert line[k] == path[k - |httpMethod| - 1];
      } else if k > |httpMethod| + 1 + |path| {
        assert line[k] == version[k - |httpMethod| - |path| - 2];
      }
    }
  }

  /** A parse put together from its lines, request-line pieces and header dictionary. */
  lemma ParseOfParts(data: string, requestLine: string, headerLines: seq<string>,
                     httpMethod: string, path: string, version: string, info: map<string, string>)
    requires Lines(data) == [requestLine] + headerLines
    requires Split(requestLine, " ") == [httpMethod, path, version]
    requires Headers(headerLines) == Ok(info)
    ensures Parse(data) == Ok(BrowserRequest(httpMethod, path, version, info))
  {
    assert Lines(data)[1..] == headerLines;
  }

  /** Each header line is `name: value` for its pair, trimmed and on one line. */
  lemma {:induction false} FieldLinesAt(fields: seq<(string, string)>, i: nat) returns (line: string)
    requires i < |fields| && IsWireField(fields[i].0, fields[i].1)
    ensures line == FieldLines(fields)[i] == fields[i].0 + ": " + fields[i].1
    ensures line != [] && Trimmed(line) && '\n' !in line
  {
    var n := |fields| - 1;
    if i < n {
      line := FieldLinesAt(fields[..n], i);
      assert FieldLines(fields)[i] == FieldLines(fields[..n])[i];
    } else {
      line := fields[i].0 + ": " + fields[i].1;
      var name, value := fields[i].0, fields[i].1;
      assert line[0] == name[0];
      assert line[|line| - 1] == value[|value| - 1];
      assert '\n' !in line by {
        assert line == name + ": " + value;
        forall k | 0 <= k < |line| ensures line[k] != '\n' {
          if k < |name| { assert line[k] == name[k]; }
          else if k >= |name| + 2 { assert line[k] == value[k - |name| - 2]; }
        }
      }
    }
  }

  /* ---------------- Attribute lookup ---------------- */

  /** Upper-case each '_'-separated part's first letter, lower-case the rest. */
  function CapitalizeAll(parts: seq<string>): (r: seq<string>)
    ensures |r| == |parts|
  {
    if parts == [] then [] else [Capitalize(parts[0])] + CapitalizeAll(parts[1..])
  }

  /** The dictionary key `__getattr__` looks up for an attribute name (`user_agent` gives `User-Agent`). */
  function AttrKey(name: string): string {
    Join(CapitalizeAll(Split(name, "_")), "-")
  }

  /** Why `request.<name>` raises: `__getattr__` lets the KeyError of the missing key through. */
  datatype LookupError = KeyError(key: string)

  /** `request.<name>` for an attribute the request does not have itself. */
  function GetAttr(req: BrowserRequest, name: string): (r: Result<string, LookupError>)
    ensures r.Err? <==> AttrKey(name) !in req.info
    ensures r.Err? ==> r.error.key == AttrKey(name)
    ensures r.Ok? ==> r.value in req.info.Values
  {
    var key := AttrKey(name);
    if key in req.info then Ok(req.info[key]) else Err(KeyError(key))
  }

  /** The key character `__getattr__` derives from position i of an attribute name. */
  function KeyChar(name: string, i: nat): char
    requires i < |name|
  {
    if name[i] == '_' then '-'
    else if i == 0 || name[i - 1] == '_' then Upper(name[i])
    else Lower(name[i])
  }

  /**
   * The key is the attribute name character by character: '_' becomes '-',
   * a letter that opens the name or follows '_' is upper-cased, every other
   * letter lower-cased.
   */
  lemma {:induction false} AttrKeyChars(name: string)
    decreases |name|
    ensures |AttrKey(name)| == |name|
    ensures forall i :: 0 <= i < |name| ==> AttrKey(name)[i] == KeyChar(name, i)
  {
    var i0 := Find(name, "_", 0);
    if i0 == -1 {
      FindFirst(name, "_", 0);
      FreeChar(name, '_');
      assert AttrKey(name) == Capitalize(name);
      CapitalizeChars(name);
    } else {
      var a, rest := name[..i0], name[i0 + 1..];
      PrefixBeforeFirstIsFree(name, "_", i0);
      FreeChar(a, '_');
      assert name[i0..i0 + 1] == "_";
      assert name == a + "_" + rest;
      AttrKeyChars(rest);
      KeyCharsOfConcat(a, rest);
    }
  }

  /** Capitalizing keeps the length, upper-cases the first character and lower-cases the others. */
  lemma CapitalizeChars(s: string)
    ensures |Capitalize(s)| == |s|
    ensures forall i :: 0 <= i < |s| ==> Capitalize(s)[i] == if i == 0 then Upper(s[0]) else Lower(s[i])
  {
    if s != [] {
      var c := Capitalize(s);
      forall i | 0 < i < |s|
        ensures c[i] == Lower(s[i])
      {
        assert c[i] == LowerAll(s[1..])[i - 1];
        assert s[1..][i - 1] == s[i];
      }
    }
  }

  /** The key of a first word without '_', then '_', then a rest: the word capitalised, '-', the key of the rest. */
  lemma AttrKeyCons(a: string, rest: string)
    requires '_' !in a
    ensures AttrKey(a + "_" + rest) == Capitalize(a) + "-" + AttrKey(rest)
  {
    FindCharAfter(a, '_');
    SplitCons(a, "_", rest);
    var tail := Split(rest, "_");
    assert CapitalizeAll([a] + tail) == [Capitalize(a)] + CapitalizeAll(tail);
  }

  /** A first word without '_', then '_', then a rest whose key is already known character by character. */
  lemma KeyCharsOfConcat(a: string, rest: string)
    requires '_' !in a
    requires |AttrKey(rest)| == |rest|
    requires forall i :: 0 <= i < |rest| ==> AttrKey(rest)[i] == KeyChar(rest, i)
    ensures var name := a + "_" + rest;
      |AttrKey(name)| == |name| && forall i :: 0 <= i < |name| ==> AttrKey(name)[i] == KeyChar(name, i)
  {
    AttrKeyCons(a, rest);
    CapitalizeChars(a);
    KeyCharsJoined(a, rest, Capitalize(a), AttrKey(rest));
  }

  /** Character-level step: the keys of the two parts, put together with '-', are the key of the whole. */
  lemma KeyCharsJoined(a: string, rest: string, ka: string, kr: string)
    requires '_' !in a
    requires |ka| == |a| && forall i :: 0 <= i < |a| ==> ka[i] == if i == 0 then Upper(a[0]) else Lower(a[i])
    requires |kr| == |rest| && forall i :: 0 <= i < |rest| ==> kr[i] == KeyChar(rest, i)
    ensures var name, key := a + "_" + rest, ka + "-" + kr;
      |key| == |name| && forall i :: 0 <= i < |name| ==> key[i] == KeyChar(name, i)
  {
    var name, key := a + "_" + rest, ka + "-" + kr;
    forall i | 0 <= i < |name|
      ensures key[i] == KeyChar(name, i)
    {
      if i < |a| {
        assert name[i] == a[i] && key[i] == ka[i];
        if i > 0 { assert name[i - 1] == a[i - 1]; }
      } else if i > |a| {
        assert name[i] == rest[i - |a| - 1] && key[i] == kr[i - |a| - 1];
        if i > |a| + 1 { assert name[i - 1] == rest[i - |a| - 2]; }
      }
    }
  }

  /** An attribute name of two words gives the two words capitalised, joined by '-'. */
  lemma AttrKeyTwoWords(a: string, b: string)
    requires '_' !in a && '_' !in b
    ensures AttrKey(a + "_" + b) == Capitalize(a) + "-" + Capitalize(b)
  {
    AttrKeyCons(a, b);
    FreeChar(b, '_');
    SplitFree(b, "_");
    assert CapitalizeAll([b]) == [Capitalize(b)];
  }

  /** The attribute the server's log line reads from a request: `request.user_agent`. */
  const UserAgentAttr: string := "user_agent"

  /** `request.user_agent` looks up the `User-Agent` header. */
  lemma UserAgentKey()
    ensures AttrKey(UserAgentAttr) == "User-Agent"
  {
    var user, agent := "user", "agent";
    AttrKeyTwoWords(user, agent);
    assert user + "_" + agent == UserAgentAttr;
    CapitalizeWords();
    HeaderNameOfWords();
  }

  /** The header name `User-Agent` is its two words joined by '-'. */
  lemma HeaderNameOfWords()
    ensures "User" + "-" + "Agent" == "User-Agent"
  {
  }

  /** The two words of `user_agent`, capitalised. */
  lemma CapitalizeWords()
    ensures Capitalize("user") == "User" && Capitalize("agent") == "Agent"
  {
    CapitalizeChars("user");
    CapitalizeChars("agent");
  }

  /**
   * Looking up an attribute on a parsed request gives the value of the last
   * header line named by the attribute's key, and a KeyError for that key
   * exactly when no header line carries it.
   */
  lemma GetAttrOfParsed(data: string, name: string)
    requires Parse(data).Ok?
    ensures var lines := Lines(data)[1..];
      var r := GetAttr(Parse(data).value, name);
      (r == Err(KeyError(AttrKey(name))) <==> forall k :: 0 <= k < |lines| ==> FieldName(lines[k]) != AttrKey(name))
      && forall k :: 0 <= k < |lines| && FieldName(lines[k]) == AttrKey(name)
           && (forall j :: k < j < |lines| ==> FieldName(lines[j]) != AttrKey(name))
           ==> r == Ok(FieldValue(lines[k]))
  {
    HeadersKeys(Lines(data)[1..]);
    HeadersValues(Lines(data)[1..]);
  }
}
