/**
 * `WebServer` in server.py: the status table, the response preamble, file
 * loading under the home directory, and one request cycle of
 * `serve_request` over an abstract filesystem.
 */
module Server {
  import opened Wrappers
  import opened Text
  import opened Paths
  import opened Request
  import opened Sockets

  /** `WebServer.STATUSES`: the reason phrase of each status code the server sends. */
  const Statuses: map<int, string> := map[200 := "Ok", 404 := "File not found"]

  /** The class-level `response_404`, kept when no 404 page is configured. */
  const DefaultNotFoundPage: string := "<html><h1>404 File Not Found</h1></html>"

  /** The content type of an extension the type table does not know. */
  const FallbackType: string := "application/octet-stream"

  /** The fixed third line of every preamble. */
  const ServerLine: string := "Server: SimplePython Server"

  /** What `open` finds at a path: a regular file with its text, or a directory. */
  datatype Node = File(text: string) | Dir

  /** The files the server can read, by the exact path text handed to `open`. */
  type FileSystem = map<string, Node>

  /** Why opening a path raises. */
  datatype IoError =
    | FileNotFound(path: string)  // FileNotFoundError
    | IsADirectory(path: string)  // IsADirectoryError

  /** `STATUSES[status_code]` for a code the table lacks: KeyError. */
  datatype HeaderError = StatusKeyError(code: int)

  /* ---------------- Construction ---------------- */

  /**
   * The 404 body `__init__` settles on: the default when `page404` is not
   * given (None or empty, both false in Python), otherwise the text of that
   * file; opening a missing file or a directory raises.
   */
  function NotFoundPage(page404: string, fs: FileSystem): (r: Result<string, IoError>)
    ensures page404 == [] ==> r == Ok(DefaultNotFoundPage)
    ensures page404 != [] ==>
      (r.Ok? <==> page404 in fs && fs[page404].File?)
      && (r.Ok? ==> r.value == fs[page404].text)
      && (r.Err? ==> r.error.path == page404)
  {
    if page404 == [] then Ok(DefaultNotFoundPage)
    else if page404 !in fs then Err(FileNotFound(page404))
    else match fs[page404]
      case File(text) => Ok(text)
      case Dir => Err(IsADirectory(page404))
  }

  /* ---------------- Preamble ---------------- */

  /**
   * `mimetypes.types_map.get(ext, "application/octet-stream")` for the
   * extension `os.path.splitext` finds in the path.
   */
  function ContentType(path: string, types: map<string, string>): (r: string)
    ensures r == FallbackType || r in types.Values
  {
    var ext := Extension(path);
    if ext in types then types[ext] else FallbackType
  }

  /**
   * The key looked up in the type table is the path's extension: empty, or
   * a suffix of the path that starts with its only '.' and holds no '/'.
   */
  lemma ContentTypeKey(path: string, types: map<string, string>)
    ensures Extension(path) in types ==> ContentType(path, types) == types[Extension(path)]
    ensures Extension(path) !in types ==> ContentType(path, types) == FallbackType
    ensures var r := ContentType(path, types);
      r == FallbackType
      || exists ext :: ext in types && r == types[ext]
           && (ext == [] || (|ext| <= |path| && ext == path[|path| - |ext|..] && ext[0] == '.'
                             && forall k :: 0 <= k < |ext| ==> ext[k] != '/' && (k > 0 ==> ext[k] != '.')))
  {
    ExtensionIsSuffix(path);
  }

  /** `f"HTTP/1.1 {status_code} {STATUSES[status_code]}"`. */
  function StatusLine(code: int): (r: string)
    requires code in Statuses
    ensures '\n' !in r
  {
    "HTTP/1.1 " + Decimal(code) + " " + Statuses[code]
  }

  /**
   * `get_header`: status line, content type and server line joined by
   * newlines, the last one followed by a blank line; a code without a
   * reason phrase raises.
   */
  function Preamble(code: int, path: string, types: map<string, string>): (r: Result<string, HeaderError>)
    ensures r.Err? <==> code !in Statuses
    ensures r.Err? ==> r.error == StatusKeyError(code)
  {
    if code !in Statuses then Err(StatusKeyError(code))
    else Ok(Join([StatusLine(code), "Content-Type: " + ContentType(path, types), ServerLine + "\n\n"], "\n"))
  }

  /* ---------------- Files ---------------- */

  /**
   * The path `load_file` opens: the request path with every leading '/'
   * removed, joined under the home directory. Since what is joined never
   * starts with '/', the result always starts with the home directory.
   */
  function ResolvedPath(homedir: string, path: string): (r: string)
    ensures |homedir| <= |r| && r[..|homedir|] == homedir
    ensures (homedir == [] || homedir[|homedir| - 1] == '/') ==> r == homedir + StripLeadingSlashes(path)
    ensures homedir != [] && homedir[|homedir| - 1] != '/' ==> r == homedir + "/" + StripLeadingSlashes(path)
  {
    var rest := StripLeadingSlashes(path);
    if homedir == [] || homedir[|homedir| - 1] == '/' then
      assert (homedir + rest)[..|homedir|] == homedir;
      JoinPath(homedir, rest)
    else
      assert (homedir + "/" + rest)[..|homedir|] == homedir;
      JoinPath(homedir, rest)
  }

  /**
   * `load_file`: the file's text with 200, the 404 body with 404 when
   * nothing is there, and IsADirectoryError, which it does not catch, for
   * a directory.
   */
  function LoadFile(homedir: string, notFound: string, fs: FileSystem, path: string): (r: Result<(string, int), IoError>)
    ensures r.Ok? ==> r.value.1 in Statuses
    ensures var full := ResolvedPath(homedir, path);
      (r == Ok((notFound, 404)) <== full !in fs)
      && (r.Ok? && r.value.1 == 200 <==> full in fs && fs[full].File?)
      && (r.Ok? && r.value.1 == 200 ==> r.value.0 == fs[full].text)
      && (r.Err? <==> full in fs && fs[full] == Dir)
      && (r.Err? ==> r.error == IsADirectory(full))
  {
    var full := ResolvedPath(homedir, path);
    if full !in fs then Ok((notFound, 404))
    else match fs[full]
      case File(text) => Ok((text, 200))
      case Dir => Err(IsADirectory(full))
  }

  /**
   * The first half of `serve_request`: load the request path, and on a
   * directory load `<path>/index.html` once instead. The result carries the
   * path finally used, the body and the status code.
   */
  function Resolve(homedir: string, notFound: string, fs: FileSystem, path: string): (r: Result<(string, string, int), IoError>)
    ensures r.Ok? ==> r.value.2 in Statuses
    ensures r.Ok? ==> r.value.0 == path || r.value.0 == JoinPath(path, "index.html")
  {
    match LoadFile(homedir, notFound, fs, path)
    case Ok((body, status)) => Ok((path, body, status))
    case Err(_) =>
      var index := JoinPath(path, "index.html");
      match LoadFile(homedir, notFound, fs, index)
      case Ok((body, status)) => Ok((index, body, status))
      case Err(e) => Err(e)
  }

  /* ---------------- One request cycle ---------------- */

  /** How one `serve_request` ends. */
  datatype Outcome =
    /** `listen` raised while building the request: nothing is sent, the connection stays open. */
    | Dropped(parseError: ParseError)
    /** The retried path is a directory as well: raised before anything is sent. */
    | Failed(ioError: IoError)
    /**
     * `payload` was sent with `status`; the log line then reads
     * `request.user_agent`, which raises KeyError when that header is
     * missing, after the response is out.
     */
    | Answered(request: BrowserRequest, status: int, payload: string, userAgent: Result<string, LookupError>)

  /** What `serve_request` does with the received text, as a function of the server's settings and the files. */
  function Serve(received: string, homedir: string, notFound: string, fs: FileSystem, types: map<string, string>): (c: Outcome)
    ensures c.Dropped? <==> Parse(received).Err?
    ensures c.Answered? ==> c.request == Parse(received).value && (c.status == 200 || c.status == 404)
  {
    Answer(Parse(received), homedir, notFound, fs, types)
  }

  /** The rest of `serve_request`, once `listen` has built the request or raised. */
  function Answer(parsed: Result<BrowserRequest, ParseError>, homedir: string, notFound: string, fs: FileSystem,
                  types: map<string, string>): (c: Outcome)
    ensures c.Dropped? <==> parsed.Err?
    ensures c.Answered? ==> parsed.Ok? && c.request == parsed.value && (c.status == 200 || c.status == 404)
  {
    match parsed
    case Err(e) => Dropped(e)
    case Ok(request) =>
      match Resolve(homedir, notFound, fs, request.path)
      case Err(e) => Failed(e)
      case Ok((path, body, status)) =>
        Answered(request, status, Preamble(status, path, types).value + body, GetAttr(request, UserAgentAttr))
  }

  /** A `WebServer`: its socket, its home directory and the 404 body it settled on. */
  class WebServer {
    const socket: LocaleSocket
    const homedir: string
    const response404: string

    /** The fields `__init__` sets, once the 404 body is known. */
    constructor(port: int, homedir: string, response404: string)
      ensures fresh(socket)
      ensures socket.Valid() && !socket.isOpen && socket.sent == []
      ensures socket.host == "" && socket.port == port
      ensures socket.bufferSize == 1024 && socket.maxQueuedConnections == 5
      ensures this.homedir == homedir && this.response404 == response404
    {
      socket := new LocaleSocket("", port, 1024, 5);
      this.homedir := homedir;
      this.response404 := response404;
    }

    /** `start` up to its endless loop: opens the socket. */
    method Start(bindSucceeds: bool) returns (r: Result<(), SocketError>)
      requires socket.Valid() && !socket.isOpen
      modifies socket
      ensures socket.Valid()
      ensures bindSucceeds ==> r == Ok(()) && socket.isOpen
      ensures !bindSucceeds ==> r == Err(BindFailed) && !socket.isOpen
      ensures socket.connection == NoConnection && socket.sent == old(socket.sent)
    {
      r := socket.Open(bindSucceeds);
    }

    /** `stop`: closes the socket. */
    method Stop()
      requires socket.isOpen
      modifies socket
      ensures socket.Valid()
      ensures !socket.isOpen && socket.connection == NoConnection && socket.sent == old(socket.sent)
    {
      socket.Close();
    }

    /**
     * `serve_request`: accept a connection and parse the request, load the
     * path (retrying a directory with `index.html`), and send the preamble
     * followed by the body. Only an answered request sends anything, and
     * then exactly its payload, closing the connection.
     */
    method ServeRequest(received: string, fs: FileSystem, types: map<string, string>) returns (c: Outcome)
      requires socket.Valid() && socket.isOpen
      modifies socket
      ensures socket.Valid() && socket.isOpen
      ensures c == Serve(received, homedir, response404, fs, types)
      ensures c.Answered? ==> socket.sent == old(socket.sent) + [c.payload] && socket.connection == Closed
      ensures !c.Answered? ==> socket.sent == old(socket.sent) && socket.connection == Live
    {
      var request := socket.Listen(received);
      if request.Err? {
        return Dropped(request.error);
      }
      var req := request.value;
      var path := req.path;
      var loaded := LoadFile(homedir, response404, fs, path);
      if loaded.Err? {
        path := JoinPath(path, "index.html");
        loaded := LoadFile(homedir, response404, fs, path);
        if loaded.Err? {
          return Failed(loaded.error);
        }
      }
      var (body, status) := loaded.value;
      var header := Preamble(status, path, types).value;
      var sentOk := socket.Respond(header + body);
      c := Answered(req, status, header + body, GetAttr(req, UserAgentAttr));
    }
  }

  /**
   * `WebServer(port, homedir, page404)`: a server whose socket is not yet
   * open, or the error of reading the configured 404 page.
   */
  method NewWebServer(port: int, homedir: string, page404: string, fs: FileSystem) returns (r: Result<WebServer, IoError>)
    ensures r.Ok? <==> NotFoundPage(page404, fs).Ok?
    ensures r.Err? ==> r.error == NotFoundPage(page404, fs).error
    ensures r.Ok? ==> fresh(r.value) && fresh(r.value.socket)
    ensures r.Ok? ==> r.value.response404 == NotFoundPage(page404, fs).value && r.value.homedir == homedir
    ensures r.Ok? ==> r.value.socket.Valid() && !r.value.socket.isOpen && r.value.socket.port == port
  {
    var page := NotFoundPage(page404, fs);
    if page.Err? {
      return Err(page.error);
    }
    var server := new WebServer(port, homedir, page.value);
    r := Ok(server);
  }

  /* ---------------- Preamble properties ---------------- */

  /** `str(200)` and `str(404)`. */
  lemma DecimalCodes()
    ensures Decimal(200) == "200" && Decimal(404) == "404"
  {
    assert Decimal(20) == "20";
    assert Decimal(40) == "40";
  }

  /** The status line of a successful response. */
  lemma StatusLineOk()
    ensures StatusLine(200) == "HTTP/1.1 200 Ok"
  {
    DecimalCodes();
  }

  /** The status line of a response for a missing file. */
  lemma StatusLineNotFound()
    ensures StatusLine(404) == "HTTP/1.1 404 File not found"
  {
    DecimalCodes();
  }

  /** Splitting on newlines peels off a first line that holds none. */
  lemma SplitNewlineCons(a: string, rest: string)
    requires '\n' !in a
    ensures Split(a + "\n" + rest, "\n") == [a] + Split(rest, "\n")
  {
    FindCharAfter(a, '\n');
    SplitCons(a, "\n", rest);
  }

  /** A line followed by two newlines splits into the line and two empty pieces. */
  lemma SplitBlankLineEnd(c: string)
    requires '\n' !in c
    ensures Split(c + "\n\n", "\n") == [c, "", ""]
  {
    FreeChar("", '\n');
    SplitFree("", "\n");
    SplitNewlineCons("", "");
    assert "" + "\n" + "" == "\n";
    SplitNewlineCons(c, "\n");
    assert c + "\n" + "\n" == c + "\n\n";
  }

  /** Three newline-free lines, each ended by a newline, then one more newline. */
  lemma SplitPreambleLines(a: string, b: string, c: string)
    requires '\n' !in a && '\n' !in b && '\n' !in c
    ensures Split(a + "\n" + (b + "\n" + (c + "\n\n")), "\n") == [a, b, c, "", ""]
  {
    var t := c + "\n\n";
    var u := b + "\n" + t;
    SplitBlankLineEnd(c);
    SplitNewlineCons(b, t);
    SplitNewlineCons(a, u);
    assert [a] + ([b] + [c, "", ""]) == [a, b, c, "", ""];
  }

  /** The preamble of a known code, written out. */
  lemma PreambleText(code: int, path: string, types: map<string, string>)
    requires code in Statuses
    ensures Preamble(code, path, types)
      == Ok(StatusLine(code) + "\n" + ("Content-Type: " + ContentType(path, types) + "\n" + (ServerLine + "\n\n")))
  {
    var status, ct, last := StatusLine(code), "Content-Type: " + ContentType(path, types), ServerLine + "\n\n";
    assert [ct, last][1..] == [last];
    assert Join([ct, last], "\n") == ct + "\n" + last;
    assert [status, ct, last][1..] == [ct, last];
    assert Join([status, ct, last], "\n") == status + "\n" + Join([ct, last], "\n");
  }

  /**
   * `get_header` gives three lines in order (status, content type, server)
   * separated by newlines and closed by an empty line, so the text ends in
   * two newlines; this needs a content type without a newline.
   */
  lemma PreambleLayout(code: int, path: string, types: map<string, string>)
    requires code in Statuses && '\n' !in ContentType(path, types)
    ensures Preamble(code, path, types).Ok?
    ensures var h := Preamble(code, path, types).value;
      Split(h, "\n") == [StatusLine(code), "Content-Type: " + ContentType(path, types), ServerLine, "", ""]
      && |h| >= 2 && h[|h| - 2] == '\n' && h[|h| - 1] == '\n'
  {
    var status, ct := StatusLine(code), "Content-Type: " + ContentType(path, types);
    PreambleText(code, path, types);
    FixedTextOneLine();
    SplitPreambleLines(status, ct, ServerLine);
  }

  /** The fixed text of the preamble holds no newline. */
  lemma FixedTextOneLine()
    ensures '\n' !in ServerLine && '\n' !in "Content-Type: "
  {
  }

  /** The preamble fails exactly for codes outside the table, and the loader only produces codes inside it. */
  lemma LoadedStatusHasPreamble(homedir: string, notFound: string, fs: FileSystem, path: string, types: map<string, string>)
    requires LoadFile(homedir, notFound, fs, path).Ok?
    ensures var status := LoadFile(homedir, notFound, fs, path).value.1;
      (status == 200 || status == 404) && Preamble(status, path, types).Ok?
  {
  }

  /* ---------------- Content type ---------------- */

  /** A final component `stem.ext` gets the table's type for `.ext`, or the fallback. */
  lemma ContentTypeOfName(dir: string, stem: string, ext: string, types: map<string, string>)
    requires '/' !in stem && '/' !in ext && '.' !in ext && !AllDots(stem)
    ensures var path := dir + "/" + stem + "." + ext;
      ContentType(path, types) == if "." + ext in types then types["." + ext] else FallbackType
  {
    ExtensionOfName(dir, stem, ext);
  }

  /**
   * A final component without a dot, or whose only dot leads it, has no
   * extension: such a file is served as `application/octet-stream` unless
   * the table has an entry for the empty extension.
   */
  lemma ContentTypeWithoutExtension(dir: string, name: string, types: map<string, string>)
    requires '/' !in name && '.' !in name && "" !in types
    ensures ContentType(dir + "/" + name, types) == FallbackType
    ensures ContentType(dir + "/." + name, types) == FallbackType
  {
    NoDotNoExtension(dir, name);
    LeadingDotIsNoExtension(dir, name);
  }

  /* ---------------- Files ---------------- */

  /** Any number of leading slashes resolve to the same file. */
  lemma {:induction false} ResolvedIgnoresLeadingSlash(homedir: string, path: string)
    ensures ResolvedPath(homedir, "/" + path) == ResolvedPath(homedir, path)
  {
    assert ("/" + path)[1..] == path;
  }

  /**
   * No check for `..`: a request path climbing out of the home directory is
   * joined under it as written (`/../etc/passwd` under `/srv` opens
   * `/srv/../etc/passwd`).
   */
  lemma DotDotJoinedAsWritten(homedir: string, rest: string)
    requires homedir != [] && homedir[|homedir| - 1] != '/'
    ensures ResolvedPath(homedir, "/../" + rest) == homedir + "/../" + rest
  {
    var p, q := "/../" + rest, "../" + rest;
    assert p[1..] == q;
    assert StripLeadingSlashes(p) == StripLeadingSlashes(q);
    assert q[0] == '.';
    assert homedir + "/" + q == homedir + "/../" + rest;
  }

  /** A directory whose `index.html` is a file is served from that file with 200. */
  lemma DirectoryServesIndex(homedir: string, notFound: string, fs: FileSystem, path: string, text: string)
    requires ResolvedPath(homedir, path) in fs && fs[ResolvedPath(homedir, path)] == Dir
    requires var index := ResolvedPath(homedir, JoinPath(path, "index.html"));
      index in fs && fs[index] == File(text)
    ensures Resolve(homedir, notFound, fs, path) == Ok((JoinPath(path, "index.html"), text, 200))
  {
  }

  /** A directory without `index.html` gets the 404 body, typed by the retried path. */
  lemma DirectoryWithoutIndex(homedir: string, notFound: string, fs: FileSystem, path: string)
    requires ResolvedPath(homedir, path) in fs && fs[ResolvedPath(homedir, path)] == Dir
    requires ResolvedPath(homedir, JoinPath(path, "index.html")) !in fs
    ensures Resolve(homedir, notFound, fs, path) == Ok((JoinPath(path, "index.html"), notFound, 404))
  {
  }

  /** The retry happens once: an `index.html` that is itself a directory raises. */
  lemma DirectoryRetriedOnce(homedir: string, notFound: string, fs: FileSystem, path: string)
    requires ResolvedPath(homedir, path) in fs && fs[ResolvedPath(homedir, path)] == Dir
    requires var index := ResolvedPath(homedir, JoinPath(path, "index.html"));
      index in fs && fs[index] == Dir
    ensures Resolve(homedir, notFound, fs, path) == Err(IsADirectory(ResolvedPath(homedir, JoinPath(path, "index.html"))))
  {
  }

  /** A path that is no directory is served as it is, with no retry. */
  lemma NoRetryForFiles(homedir: string, notFound: string, fs: FileSystem, path: string)
    requires ResolvedPath(homedir, path) !in fs || fs[ResolvedPath(homedir, path)].File?
    ensures Resolve(homedir, notFound, fs, path).Ok?
    ensures Resolve(homedir, notFound, fs, path).value.0 == path
    ensures Resolve(homedir, notFound, fs, path).value.1 == LoadFile(homedir, notFound, fs, path).value.0
  {
  }

  /** `/` names the home directory itself. */
  lemma RootPath(homedir: string)
    requires homedir != [] && homedir[|homedir| - 1] != '/'
    ensures ResolvedPath(homedir, "/") == homedir + "/"
  {
    assert StripLeadingSlashes("/") == "";
  }

  /** Joining `index.html` to `/` gives `/index.html`. */
  lemma RootIndex()
    ensures JoinPath("/", "index.html") == "/index.html"
  {
    var a, b := "/", "index.html";
    assert b[0] == 'i' && a[|a| - 1] == '/';
    assert a + b == "/index.html";
  }

  /** `/index.html` names `index.html` in the home directory. */
  lemma IndexPath(homedir: string)
    requires homedir != [] && homedir[|homedir| - 1] != '/'
    ensures ResolvedPath(homedir, "/index.html") == homedir + "/index.html"
  {
    var p, q := "/index.html", "index.html";
    assert p[1..] == q && q[0] == 'i';
    assert StripLeadingSlashes(p) == q;
    assert homedir + "/" + q == homedir + "/index.html";
  }

  /** `/` is answered from `<homedir>/index.html` when the home directory has one. */
  lemma RootServesIndex(homedir: string, notFound: string, fs: FileSystem, text: string)
    requires homedir != [] && homedir[|homedir| - 1] != '/'
    requires homedir + "/" in fs && fs[homedir + "/"] == Dir
    requires homedir + "/index.html" in fs && fs[homedir + "/index.html"] == File(text)
    ensures Resolve(homedir, notFound, fs, "/") == Ok(("/index.html", text, 200))
  {
    RootPath(homedir);
    RootIndex();
    IndexPath(homedir);
  }

  /* ---------------- The cycle ---------------- */

  /** Blank received text is dropped with IndexError and nothing is sent. */
  lemma ServeBlank(received: string, homedir: string, notFound: string, fs: FileSystem, types: map<string, string>)
    requires AllSpace(received)
    ensures Serve(received, homedir, notFound, fs, types) == Dropped(NoRequestLine)
  {
    NoRequestLineIffBlank(received);
  }

  /**
   * A request is answered exactly when it parses and its path does not end
   * up at a directory twice; the answer is the preamble for the path finally
   * used followed by the body, and its status is 200 or 404.
   */
  lemma ServeAnswers(parsed: Result<BrowserRequest, ParseError>, homedir: string, notFound: string, fs: FileSystem,
                     types: map<string, string>)
    ensures var c := Answer(parsed, homedir, notFound, fs, types);
      c.Answered? <==> parsed.Ok? && Resolve(homedir, notFound, fs, parsed.value.path).Ok?
    ensures var c := Answer(parsed, homedir, notFound, fs, types);
      c.Answered? ==>
        var res := Resolve(homedir, notFound, fs, c.request.path).value;
        c.request == parsed.value && c.status == res.2 && (c.status == 200 || c.status == 404)
        && c.payload == Preamble(c.status, res.0, types).value + res.1
  {
    match parsed
    case Err(e) =>
      assert Answer(parsed, homedir, notFound, fs, types) == Dropped(e);
    case Ok(request) =>
      match Resolve(homedir, notFound, fs, request.path)
      case Err(e) =>
        assert Answer(parsed, homedir, notFound, fs, types) == Failed(e);
      case Ok((path, body, status)) =>
        assert status in Statuses;
        assert Answer(parsed, homedir, notFound, fs, types)
          == Answered(request, status, Preamble(status, path, types).value + body, GetAttr(request, UserAgentAttr));
  }

  /**
   * The log line's `request.user_agent` reads the `User-Agent` header, and
   * raises KeyError exactly when the request has none.
   */
  lemma ServeUserAgent(parsed: Result<BrowserRequest, ParseError>, homedir: string, notFound: string, fs: FileSystem,
                       types: map<string, string>)
    requires Answer(parsed, homedir, notFound, fs, types).Answered?
    ensures var c := Answer(parsed, homedir, notFound, fs, types);
      ("User-Agent" in c.request.info ==> c.userAgent == Ok(c.request.info["User-Agent"]))
      && ("User-Agent" !in c.request.info ==> c.userAgent == Err(KeyError("User-Agent")))
  {
    UserAgentKey();
  }

  /**
   * A missing file is answered with 404 and the configured body, and its
   * content type still comes from the extension of the requested path.
   */
  lemma ServeMissingFile(parsed: Result<BrowserRequest, ParseError>, homedir: string, notFound: string, fs: FileSystem,
                         types: map<string, string>)
    requires parsed.Ok? && ResolvedPath(homedir, parsed.value.path) !in fs
    ensures var request := parsed.value;
      Answer(parsed, homedir, notFound, fs, types)
      == Answered(request, 404, Preamble(404, request.path, types).value + notFound, GetAttr(request, UserAgentAttr))
  {
  }

  /**
   * A request for `/` to a home directory that holds `index.html` is
   * answered with 200, that page's text, and the content type of `.html`.
   */
  lemma ServeRootRequest(parsed: Result<BrowserRequest, ParseError>, homedir: string, notFound: string, fs: FileSystem,
                         types: map<string, string>, text: string)
    requires parsed.Ok? && parsed.value.path == "/"
    requires homedir != [] && homedir[|homedir| - 1] != '/'
    requires homedir + "/" in fs && fs[homedir + "/"] == Dir
    requires homedir + "/index.html" in fs && fs[homedir + "/index.html"] == File(text)
    ensures var request := parsed.value;
      Answer(parsed, homedir, notFound, fs, types)
      == Answered(request, 200,
                  "HTTP/1.1 200 Ok" + "\n" + ("Content-Type: " + ContentType("/index.html", types) + "\n" + (ServerLine + "\n\n"))
                  + text,
                  GetAttr(request, UserAgentAttr))
  {
    var request := parsed.value;
    RootServesIndex(homedir, notFound, fs, text);
    ServeResolved(parsed, request, homedir, notFound, fs, types, "/index.html", text, 200);
    OkPreamble("/index.html", types);
  }

  /** Serving a request that parses and resolves. */
  lemma ServeResolved(parsed: Result<BrowserRequest, ParseError>, request: BrowserRequest, homedir: string, notFound: string,
                      fs: FileSystem, types: map<string, string>, path: string, body: string, status: int)
    requires parsed == Ok(request)
    requires Resolve(homedir, notFound, fs, request.path) == Ok((path, body, status))
    ensures status in Statuses
    ensures Answer(parsed, homedir, notFound, fs, types)
      == Answered(request, status, Preamble(status, path, types).value + body, GetAttr(request, UserAgentAttr))
  {
  }

  /** The preamble of a 200 response, written out. */
  lemma OkPreamble(path: string, types: map<string, string>)
    ensures Preamble(200, path, types)
      == Ok("HTTP/1.1 200 Ok" + "\n" + ("Content-Type: " + ContentType(path, types) + "\n" + (ServerLine + "\n\n")))
  {
    PreambleText(200, path, types);
    StatusLineOk();
  }

  /** `GET /` followed by an empty line is one line, split on its one space into two pieces. */
  lemma TwoTokenLine()
    ensures Lines("GET /\r\n\r\n") == ["GET /"]
    ensures |Split("GET /", " ")| == 2
  {
    var line := "GET /";
    assert line[0] == 'G' && line[|line| - 1] == '/';
    assert '\n' !in line;
    assert Crlf([line]) == line + "\r\n" + Crlf([]) by {
      assert [line][1..] == [];
    }
    assert line + "\r\n" + "\r\n" == "GET /\r\n\r\n";
    LinesOfCrlf([line]);
    SplitCharCount(line, ' ');
    assert CountChar(line, ' ') == 1;
  }

  /** A request line with a single space fails as `GET /` does: ValueError, nothing sent. */
  lemma ServeTwoTokenLine(homedir: string, notFound: string, fs: FileSystem, types: map<string, string>)
    ensures Serve("GET /\r\n\r\n", homedir, notFound, fs, types) == Dropped(BadRequestLine("GET /"))
  {
    TwoTokenLine();
  }
}
