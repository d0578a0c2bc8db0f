# A verified model of SimplePython Server

`server.py` is a small HTTP file server. It has three classes:

- `BrowserRequest` turns the text a browser sent into a method, a path, an HTTP version and a header dictionary. Its `__getattr__` looks up a header by an attribute name (`request.user_agent` reads `User-Agent`).
- `LocaleSocket` wraps the listening socket: open, close, listen (accept, receive, parse) and respond (send, then close the connection).
- `WebServer` holds a status table, a home directory and a 404 body. `serve_request` loads the requested path under the home directory. A directory is retried once as `<path>/index.html`. It sends a three-line preamble (status, content type, server name) and then the body.

The model is split into modules:

- `Wrappers`: `Option` and `Result`.
- `Text`: the Python string operations the server relies on. These are `str.strip` (with Python's whitespace set), `str.split` with a separator, `str.join`, `str.capitalize` and `str(n)` for a natural number.
- `Paths`: `str.lstrip("/")`, POSIX `os.path.join` of two paths, and the extension `os.path.splitext` returns.
- `Request`: `BrowserRequest`.
  - `Parse` specifies the constructor. `NewRequest` and `CollectLines` are the constructor's loop, proved against `Parse`.
  - `GetAttr` models `__getattr__`.
- `Sockets`: `LocaleSocket` as a class. It records whether the socket is open, what became of the accepted connection, and every payload sent so far.
- `Server`: `WebServer`.
  - The status table, `get_header` (`Preamble`) and `load_file` (`LoadFile`).
  - The directory retry (`Resolve`).
  - One `serve_request` cycle, both as a function (`Serve`/`Answer`) and as the class method `WebServer.ServeRequest` proved against it.

The model follows the code as written, including where it departs from standard HTTP or from what a reader might expect:

- Header names are stored exactly as received, not normalised.
- The request line is split on single spaces, not on any whitespace, so `GET  /  HTTP/1.1` is rejected.
- A request path holding `..` is joined under the home directory as written (`Server.DotDotJoinedAsWritten`).
- A missing header raises `KeyError`, because `__getattr__` catches `IndexError`, which the lookup never raises.
- That `KeyError` only happens when the log line is built, after the response has been sent. `Outcome.Answered` therefore carries both the payload and the lookup result.

Assertions in `LocaleSocket` become preconditions. The exceptions the modelled code raises are error values in the model:

- IndexError and ValueError while parsing.
- KeyError from a status code or a header that is missing.
- FileNotFoundError and IsADirectoryError while opening a file.
- The socket errors of `bind` and `respond`.

The errors under "Left out" are not modelled.

## Model

| member | source | states |
|---|---|---|
| Text.TrimStartSuffix | server.py:18 | `strip` removes only whitespace from the front: the rest is a suffix of the line, and everything cut away is whitespace |
| Text.TrimEndPrefix | server.py:18 | `strip` removes only whitespace from the back: the rest is a prefix, and everything cut away is whitespace |
| Text.StripIsInfix | server.py:18 | a stripped line is a contiguous piece of the original line |
| Text.Strip | server.py:18 | `strip()` never lengthens a line, and leaves no whitespace at either end |
| Text.StripTrimmed | server.py:18 | stripping is idempotent: a line with no whitespace at either end is unchanged |
| Text.StripCarriageReturn | server.py:17-18 | the `\r` left by splitting a CR LF line on `\n` is removed by `strip` |
| Text.Find | server.py:22-23 | the index found for a separator is a real occurrence at or after the start |
| Text.FindFirst | server.py:22-23 | the index found is the first occurrence, and -1 means there is none |
| Text.JoinSplit | server.py:17 | joining the pieces of `split(sep)` with `sep` gives back the text (round trip) |
| Text.Split | server.py:17 | `split(sep)` always yields at least one piece; Text.SplitFree gives the single piece when sep does not occur |
| Text.SplitPiecesFree | server.py:17 | no piece of `split(sep)` contains the separator |
| Text.SplitCons | server.py:17 | splitting at the first separator gives the text before it, then the pieces of the rest |
| Text.SplitFree | server.py:30 | text without the separator splits into itself alone |
| Text.SplitCharCount | server.py:22 | splitting on one character gives one more piece than the character occurs (`GET /` gives two) |
| Text.SplitThreeTokens | server.py:22 | three tokens without spaces joined by single spaces split back into the three tokens |
| Text.SplitField | server.py:23 | a name and a value without `": "` joined by `": "` split back into the two |
| Text.FreeChar | server.py:30 | a text is free of a one-character separator exactly when the character does not occur in it |
| Text.CountCharAppend | server.py:22 | the number of occurrences adds up over a concatenation |
| Text.LowerAll | server.py:30 | lower-casing keeps the length and maps each character with `Lower` |
| Text.Capitalize | server.py:30 | `capitalize()` keeps the length; Request.CapitalizeChars gives each character |
| Text.Decimal | server.py:155 | `str(n)` is a non-empty run of digits, with a leading zero only for 0 |
| Text.DecimalValue | server.py:155 | `str(n)` reads back as n: the digits stand for the number |
| Paths.StripLeadingSlashes | server.py:163 | `lstrip("/")` never yields text starting with '/' and never lengthens it |
| Paths.StripLeadingSlashesSuffix | server.py:163 | what `lstrip("/")` leaves is a suffix, and only '/' characters were cut |
| Paths.JoinPath | server.py:163 | `os.path.join`: an absolute second path replaces the first. Otherwise it is appended directly when the first is empty or ends in '/', and after exactly one inserted '/' when it does not |
| Paths.LastIndexOf | server.py:152 | the index is that of the last occurrence of the character, or -1 |
| Paths.Extension | server.py:152 | the extension is empty or starts with '.' |
| Paths.ExtensionIsSuffix | server.py:152 | a non-empty extension is a suffix of the path with one '.', at its start, and no '/' |
| Paths.ExtensionOfName | server.py:152 | a final component `stem.ext` whose stem is not all dots has extension `.ext` |
| Paths.ExtensionOfBareName | server.py:152 | a bare name `stem.ext` with no '/' at all (such as `index.html`) whose stem is not all dots has extension `.ext` |
| Paths.LeadingDotIsNoExtension | server.py:152 | a final component whose only dot leads it (`.bashrc`) has no extension |
| Paths.NoDotNoExtension | server.py:152 | a final component without a dot has no extension, whatever the directories hold |
| Request.KeptLines | server.py:15-20 | the kept lines are never more than the pieces, and each is non-empty and stripped |
| Request.Lines | server.py:15-20 | every line collected from the request text is non-empty and stripped |
| Request.CollectLines | server.py:15-20 | the constructor's loop keeps exactly the stripped non-empty pieces, in order |
| Request.NewRequest | server.py:14-23 | the constructor builds what `Parse` specifies, or raises the same error |
| Request.Parse | server.py:14-23 | a parse succeeds only with a request line. A ValueError for the request line names the first line, and one for a header names a later line |
| Request.NoLinesIffBlank | server.py:17-20 | no line is kept exactly when the text is all whitespace |
| Request.KeptLinesAppend | server.py:17-20 | line collection distributes over concatenated pieces |
| Request.ParseOk | server.py:22-23 | a successful parse takes method, path and version from the first line's three pieces, and the headers from the rest |
| Request.RequestLineTokens | server.py:22 | a parsed request line is method, path and version joined by single spaces, none of them holding a space |
| Request.RequestLineNeedsTwoSpaces | server.py:22 | the request line is rejected (ValueError) exactly when it does not hold exactly two spaces |
| Request.NoRequestLineIffBlank | server.py:22 | `lines.pop(0)` raises IndexError exactly when the text is blank |
| Request.HeadersOutcome | server.py:23 | the headers parse exactly when every line is a name and a value; otherwise the error names the first line that is not |
| Request.Headers | server.py:23 | the header comprehension can only fail with ValueError, on one of its own lines |
| Request.HeadersKeys | server.py:23 | the dictionary's keys are exactly the header lines' names, unchanged |
| Request.HeadersValues | server.py:23 | each name maps to the value of the last line carrying it |
| Request.ParseWireRequest | server.py:14-23 | round trip: a CR LF request head built from a method, path, version and header pairs parses back to them, with later pairs winning |
| Request.FieldLinesAt | server.py:23 | each header line is `name: value`, non-empty, stripped and on one line |
| Request.CapitalizeChars | server.py:30 | `capitalize` upper-cases the first character and lower-cases the rest, keeping the length |
| Request.AttrKeyCons | server.py:30 | the key of `word_rest` is the capitalised word, '-', then the key of the rest |
| Request.AttrKeyChars | server.py:30 | the key has the attribute name's length; '_' becomes '-', a letter at the start or after '_' is upper-cased, and every other letter is lower-cased |
| Request.AttrKeyTwoWords | server.py:30 | an attribute of two words `a_b` gives the key `Capitalize(a)-Capitalize(b)` |
| Request.GetAttr | server.py:28-32 | the lookup raises KeyError exactly when the derived key is missing, and the error carries that key (never AttributeError). A value found comes from the header dictionary |
| Request.UserAgentKey | server.py:30 | `request.user_agent` looks up `User-Agent` |
| Request.GetAttrOfParsed | server.py:28-32 | an attribute lookup on a parsed request gives the value of the last header line with the key, and KeyError exactly when no line has it |
| Sockets.LocaleSocket.constructor | server.py:38-44 | a new socket is closed, with no connection, nothing sent and the given settings |
| Sockets.LocaleSocket.Open | server.py:57-67 | only a closed socket opens; a failed bind leaves it closed and reports the error |
| Sockets.LocaleSocket.Close | server.py:69-75 | only an open socket closes; any connection is dropped |
| Sockets.LocaleSocket.Listen | server.py:77-84 | accepts a connection and yields what `Parse` gives for the received text; nothing is sent |
| Sockets.LocaleSocket.Respond | server.py:86-89 | a live connection gets the payload and is closed; with no connection or a closed one it raises and sends nothing |
| Sockets.RespondOncePerConnection | server.py:77-89 | a second `respond` on the same connection raises, and only the first payload goes out |
| Sockets.ReopenAfterFailedBind | server.py:57-75 | after a failed bind the socket is closed and can be opened again |
| Server.NotFoundPage | server.py:113-115 | with no 404 page the class default (line 99) is kept; otherwise the file's text is used, and a missing file or a directory raises |
| Server.ContentType | server.py:152-156 | the content type is always `application/octet-stream` or one of the table's types |
| Server.ContentTypeKey | server.py:152-156 | the key looked up is `Extension(path)`: its table entry when present, the fallback type when not. That key is empty, or a suffix of the path starting at its only '.' with no '/' |
| Server.Preamble | server.py:151-159 | the header fails exactly for a code outside the status table |
| Server.StatusLine | server.py:155 | a status line holds no newline |
| Server.PreambleText | server.py:153-158 | the header written out: status line, content type line and server line, joined by newlines and ending in a blank line |
| Server.PreambleLayout | server.py:153-158 | the header splits into exactly the status, content type and server lines plus two empty pieces, so it ends in two newlines |
| Server.StatusLineOk | server.py:155 | the status line for 200 is `HTTP/1.1 200 Ok` |
| Server.StatusLineNotFound | server.py:155 | the status line for 404 is `HTTP/1.1 404 File not found` |
| Server.OkPreamble | server.py:151-159 | the header of a 200 response written out |
| Server.ContentTypeOfName | server.py:152-156 | `stem.ext` is typed by the table's entry for `.ext`, or the fallback |
| Server.ContentTypeWithoutExtension | server.py:152-156 | a name without an extension (or with only a leading dot) gets `application/octet-stream` |
| Server.ResolvedPath | server.py:163 | the path opened always starts with the home directory. It is followed by the request path without its leading slashes, with one '/' inserted exactly when the home directory is not empty and does not end in '/' |
| Server.ResolvedIgnoresLeadingSlash | server.py:163 | an extra leading '/' resolves to the same file |
| Server.DotDotJoinedAsWritten | server.py:163 | `/../x` is opened as `<home>/../x`: no traversal check |
| Server.LoadFile | server.py:161-166 | a file gives its text with 200, nothing there gives the 404 body with 404, and a directory raises IsADirectoryError |
| Server.LoadedStatusHasPreamble | server.py:161-166 | every status the loader yields is 200 or 404 and has a header |
| Server.Resolve | server.py:134-138 | the path finally used is the request path or `<path>/index.html`, and the status is in the table |
| Server.DirectoryServesIndex | server.py:136-138 | a directory with an `index.html` file is served from it with 200 |
| Server.DirectoryWithoutIndex | server.py:136-138 | a directory without `index.html` gets the 404 body, typed by the retried path |
| Server.DirectoryRetriedOnce | server.py:136-138 | an `index.html` that is itself a directory raises: the retry happens once |
| Server.NoRetryForFiles | server.py:134-135 | a path that is not a directory is served with no retry |
| Server.RootPath | server.py:163 | `/` resolves to the home directory itself |
| Server.RootIndex | server.py:137 | the retry of `/` is `/index.html` |
| Server.IndexPath | server.py:163 | `/index.html` resolves to `index.html` in the home directory |
| Server.RootServesIndex | server.py:134-138 | `/` is served from `<home>/index.html` with 200 |
| Server.ServeAnswers | server.py:131-141 | a request is answered exactly when it parses and its path resolves; the payload is the header of the path used, followed by the body, and the status is 200 or 404 |
| Server.Answer | server.py:131-149 | a request is dropped exactly when building it raised; an answered one carries the parsed request and status 200 or 404 |
| Server.Serve | server.py:131-149 | the cycle stops in `listen` exactly when the received text does not parse; an answered request is the parsed one, with status 200 or 404 |
| Server.ServeUserAgent | server.py:142-148 | the log's user agent is the `User-Agent` header, or KeyError exactly when it is missing |
| Server.ServeMissingFile | server.py:131-141 | a missing file is answered with 404 and the 404 body, typed by the requested path |
| Server.ServeRootRequest | server.py:131-141 | `/` with an `index.html` gets `HTTP/1.1 200 Ok`, the type of `.html`, the server line and the page |
| Server.ServeResolved | server.py:131-141 | a request that parses and resolves is answered with the header of the path used plus the body |
| Server.ServeBlank | server.py:132 | blank received text raises in `listen` and nothing is sent |
| Server.TwoTokenLine | server.py:17-22 | `GET /` followed by an empty line is one line with two space-separated pieces |
| Server.ServeTwoTokenLine | server.py:132 | a request line with only two pieces raises ValueError in `listen` and nothing is sent |
| Server.WebServer.constructor | server.py:102-111 | the server's socket is new and closed, on the given port with host "", a 1024-byte buffer and a backlog of 5 |
| Server.NewWebServer | server.py:102-115 | a server is built exactly when its 404 body can be read, and keeps that body and the home directory |
| Server.WebServer.Start | server.py:120-121 | a successful bind leaves the socket open; a failed bind reports BindFailed and leaves it closed (server.py:63-65) |
| Server.WebServer.Stop | server.py:128-129 | the socket is closed, with no connection |
| Server.WebServer.ServeRequest | server.py:131-149 | one cycle does what `Serve` specifies; an answered request sends exactly its payload and closes the connection, and any other outcome sends nothing |

## Left out

- `main` (server.py:169-194), which reads a port from the console and probes ports through `validator`: console input, randomness and `validator` are not part of this model.
- The endless loop of `start` (server.py:125-126): `WebServer.Start` stops after opening the socket, and `WebServer.ServeRequest` models one iteration. In the source, any exception in a cycle leaves the loop, ending `start` and, through `main`, the process. That covers three outcomes:
  - `Dropped`: `listen` raised while building the request.
  - `Failed`: the retried path is also a directory.
  - `Answered` whose `userAgent` is `Err`: a request without a `User-Agent` header stops the server right after it has been answered (server.py:147).
  
  The model states each outcome per cycle, not the server's termination.
- `log` and the log line's text (server.py:117-118, 142-149): printing is left out. Only the header lookup the line performs is kept, as `Outcome.Answered.userAgent`.
- `__repr__` of both classes, and `__enter__`/`__exit__`: they are text for debugging and aliases of `Open`/`Close`.
- Real sockets: bind success and the received text are parameters. One `recv` of at most `buffer_size` bytes is modelled as the whole received text; chunking and truncation of what is received are not modelled.
- UTF-8 decoding with replacement (server.py:17) and `.encode()` (server.py:141): the model works on decoded text.
- `os.path.abspath(homedir)` (server.py:111): the home directory is taken as given, already absolute.
- The filesystem is a map from the exact path text handed to `open` to a file or a directory. OS path normalisation and symbolic links are not modelled. Other OS errors (such as permission denied) are not modelled either; they propagate out of `serve_request`.
- Server.LoadFile: `NotADirectoryError` is not modelled. A path that runs through a regular file (`/index.html/x`) raises it from `open` and propagates, but the flat map answers it with 404.
- Server.LoadFile: the `ValueError` that `open` raises for a path holding a NUL character (`GET /a\x00b HTTP/1.1`) is not modelled; such a path is simply absent from the map and is answered with 404.
- Server.LoadFile, Server.NotFoundPage: `f.read()` (server.py:115, 164) decodes strictly. A file whose bytes are not valid text (an image, say) raises `UnicodeDecodeError` out of `serve_request` or `__init__`. `File(text)` models only files that decode. It stands for what `f.read()` returns in text mode, after universal-newline translation, so a file with CR LF line ends is served with LF line ends, not byte for byte.
- The contents of `mimetypes.types_map`: the type table is a parameter.
- Text.Upper, Text.Lower: `capitalize` is modelled for ASCII letters only. Python's full Unicode case mapping is not modelled.
- Sockets.LocaleSocket.Respond: `socket.send` (server.py:88) may send only part of the payload; `Respond` records the whole payload as sent.
- Sockets.LocaleSocket.Respond: when `send` itself fails on a live connection (a client that went away), the OS error is not modelled.
