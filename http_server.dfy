/**
 * The request decision of the HTTP/1.0 static file server
 * (Assignment_03/server.c): the MIME lookup, the request-line scan, the
 * ordered chain of checks in `handle_client`, and the text of the error and
 * 302 responses (status line as in section 6.1 of RFC 1945).
 *
 * The file system is an abstract map from a path, looked up verbatim, to
 * what `stat` and `access(…, R_OK)` would say of it. The date a response
 * carries is a parameter. What the server then streams (the file's bytes,
 * the rows of a directory listing) is not modelled: the decision names the
 * path it would send.
 */
module HttpServer {
  import opened CString

  const BufferSize: nat := 4096
  const MaxPathLength: nat := 4096

  // ---------------------------------------------------------------- MIME

  /** The extensions `get_mime_type` knows, with the type each maps to. */
  const MimeTable: map<string, string> := map[
    ".html" := "text/html", ".htm" := "text/html",
    ".jpg" := "image/jpeg", ".jpeg" := "image/jpeg",
    ".gif" := "image/gif", ".png" := "image/png", ".css" := "text/css",
    ".au" := "audio/basic", ".wav" := "audio/wav", ".avi" := "video/x-msvideo",
    ".mpeg" := "video/mpeg", ".mpg" := "video/mpeg", ".mp3" := "audio/mpeg"]

  /** The chain of `strcmp`s on the extension, in the order the server tries them. */
  function MimeOfExtension(ext: string): Option<string> {
    if ext == ".html" || ext == ".htm" then Some("text/html")
    else if ext == ".jpg" || ext == ".jpeg" then Some("image/jpeg")
    else if ext == ".gif" then Some("image/gif")
    else if ext == ".png" then Some("image/png")
    else if ext == ".css" then Some("text/css")
    else if ext == ".au" then Some("audio/basic")
    else if ext == ".wav" then Some("audio/wav")
    else if ext == ".avi" then Some("video/x-msvideo")
    else if ext == ".mpeg" || ext == ".mpg" then Some("video/mpeg")
    else if ext == ".mp3" then Some("audio/mpeg")
    else None
  }

  /** `get_mime_type`: the extension is the text from the last '.' on. */
  function MimeType(name: string): Option<string> {
    match LastIndexOf(name, '.')
    case None => None
    case Some(i) => MimeOfExtension(name[i..])
  }

  /** The `strcmp` chain is exactly a lookup in the table, case-sensitively. */
  lemma MimeOfExtensionIsTable(ext: string)
    ensures MimeOfExtension(ext) == if ext in MimeTable then Some(MimeTable[ext]) else None
  {
  }

  /**
   * A name `stem + "." + ext` whose `ext` holds no dot has the MIME type the
   * table gives ".ext", whatever dots the stem contains; a name without a
   * dot has none.
   */
  lemma {:induction false} MimeTypeByLastExtension(stem: string, ext: string)
    requires '.' !in ext
    ensures MimeType(stem + "." + ext) ==
              if "." + ext in MimeTable then Some(MimeTable["." + ext]) else None
    ensures '.' !in stem ==> MimeType(stem) == None
  {
    var name := stem + "." + ext;
    assert name[|stem|] == '.';
    assert forall j :: |stem| < j < |name| ==> name[j] == ext[j - |stem| - 1];
    var i := LastIndexOf(name, '.').value;
    assert i == |stem|;
    assert name[i..] == "." + ext;
    MimeOfExtensionIsTable("." + ext);
  }

  // ------------------------------------------------------- request line

  /** Number of leading characters of `s` that `%s` would take (non-space). */
  function WordPrefix(s: string): (n: nat)
    ensures n <= |s|
    ensures forall i :: 0 <= i < n ==> !IsSpace(s[i])
    ensures n < |s| ==> IsSpace(s[n])
  {
    if s != [] && !IsSpace(s[0]) then
      var k := WordPrefix(s[1..]);
      assert forall i :: 1 <= i < |s| ==> s[i] == s[1..][i - 1];
      1 + k
    else 0
  }

  /**
   * One `%<width>s` conversion of `sscanf`: skip white space, then take at
   * most `width` non-space characters; None at the end of the input. The
   * second component is the input still to be scanned.
   */
  function ScanWord(s: string, width: nat): (r: Option<(string, string)>)
    requires 0 < width
    ensures r.Some? ==> 0 < |r.value.0| <= width && r.value.0 + r.value.1 == s[SpacePrefix(s)..]
    ensures r.Some? ==> forall i :: 0 <= i < |r.value.0| ==> !IsSpace(r.value.0[i])
    ensures r.None? <==> SpacePrefix(s) == |s|
  {
    var w := SpacePrefix(s);
    if w == |s| then None
    else
      var rest := s[w..];
      var n := if WordPrefix(rest) < width then WordPrefix(rest) else width;
      CString.SplitAt(rest, n);
      Some((rest[..n], rest[n..]))
  }

  datatype RequestLine = RequestLine(verb: string, path: string, protocol: string)

  /** `sscanf(buffer, "%15s %2047s %15s", …) == 3`, with the three words. */
  function ScanRequestLine(buffer: string): Option<RequestLine> {
    match ScanWord(buffer, 15)
    case None => None
    case Some((verb, rest1)) =>
      match ScanWord(rest1, 2047)
      case None => None
      case Some((path, rest2)) =>
        match ScanWord(rest2, 15)
        case None => None
        case Some((protocol, _)) => Some(RequestLine(verb, path, protocol))
  }

  /** What the request line yields: three non-empty words free of white space, within their widths. */
  lemma ScanRequestLineBounds(buffer: string)
    requires ScanRequestLine(buffer).Some?
    ensures var r := ScanRequestLine(buffer).value;
            && 0 < |r.verb| <= 15 && 0 < |r.path| <= 2047 && 0 < |r.protocol| <= 15
            && IsWord(r.verb) && IsWord(r.path) && IsWord(r.protocol)
  {
  }

  predicate IsWord(w: string) { forall i :: 0 <= i < |w| ==> !IsSpace(w[i]) }

  lemma {:induction false} WordPrefixOfWordThen(w: string, rest: string)
    requires IsWord(w)
    requires rest == [] || IsSpace(rest[0])
    ensures WordPrefix(w + rest) == |w|
  {
    if w != [] {
      assert (w + rest)[1..] == w[1..] + rest;
      WordPrefixOfWordThen(w[1..], rest);
    }
  }

  lemma {:induction false} SpacePrefixOfSpaces(sp: string, rest: string)
    requires forall i :: 0 <= i < |sp| ==> IsSpace(sp[i])
    requires rest == [] || !IsSpace(rest[0])
    ensures SpacePrefix(sp + rest) == |sp|
  {
    if sp != [] {
      assert (sp + rest)[1..] == sp[1..] + rest;
      SpacePrefixOfSpaces(sp[1..], rest);
    }
  }

  predicate AllSpace(s: string) { forall i :: 0 <= i < |s| ==> IsSpace(s[i]) }

  /**
   * A conversion reads back a word that fits its width, whatever white space
   * precedes it, and stops at the white space (or end) that follows it.
   */
  lemma ScanWordOfWord(sp: string, w: string, rest: string, width: nat)
    requires AllSpace(sp)
    requires 0 < |w| <= width && IsWord(w)
    requires rest == [] || IsSpace(rest[0])
    ensures ScanWord(sp + w + rest, width) == Some((w, rest))
  {
    var s := sp + w + rest;
    assert s == sp + (w + rest);
    SpacePrefixOfSpaces(sp, w + rest);
    assert s[|sp|..] == w + rest;
    WordPrefixOfWordThen(w, rest);
    assert (w + rest)[..|w|] == w && (w + rest)[|w|..] == rest;
  }

  /**
   * The scan reads back a request line made of three words that fit their
   * widths, separated by single spaces and followed by white space (the
   * line's CR LF) or nothing.
   */
  lemma ScanRequestLineOf(verb: string, path: string, protocol: string, rest: string)
    requires 0 < |verb| <= 15 && 0 < |path| <= 2047 && 0 < |protocol| <= 15
    requires IsWord(verb) && IsWord(path) && IsWord(protocol)
    requires rest == [] || IsSpace(rest[0])
    ensures ScanRequestLine(verb + " " + path + " " + protocol + rest) ==
              Some(RequestLine(verb, path, protocol))
  {
    var tail2 := " " + protocol + rest;
    var tail1 := " " + path + tail2;
    assert verb + " " + path + " " + protocol + rest == [] + verb + tail1;
    ScanWordOfWord([], verb, tail1, 15);
    ScanWordOfWord(" ", path, tail2, 2047);
    ScanWordOfWord(" ", protocol, rest, 15);
  }

  /**
   * A line holding only two words (and white space after them) does not
   * scan: the third conversion meets the end of the input.
   */
  lemma ScanRequestLineOfTwoWords(verb: string, path: string, rest: string)
    requires 0 < |verb| <= 15 && 0 < |path| <= 2047
    requires IsWord(verb) && IsWord(path) && AllSpace(rest)
    ensures ScanRequestLine(verb + " " + path + rest) == None
  {
    var tail1 := " " + path + rest;
    assert verb + " " + path + rest == [] + verb + tail1;
    ScanWordOfWord([], verb, tail1, 15);
    ScanWordOfWord(" ", path, rest, 2047);
    SpacePrefixOfSpaces(rest, []);
    assert rest + [] == rest;
  }

  // ------------------------------------------------------- file system

  datatype FileKind = Directory | Regular | Special
  /** What `stat` and `access(path, R_OK)` report of an existing path. */
  datatype FileInfo = FileInfo(kind: FileKind, readable: bool)
  type FileSystem = map<string, FileInfo>

  // ---------------------------------------------------------- responses

  datatype ErrorKind = BadRequest | NotSupported | NotFound | Forbidden | PathTooLong | ResponseTooLarge

  function Code(k: ErrorKind): nat {
    match k
    case BadRequest => 400
    case NotSupported => 501
    case NotFound => 404
    case Forbidden => 403
    case PathTooLong => 500
    case ResponseTooLarge => 500
  }

  function StatusText(k: ErrorKind): string {
    match k
    case BadRequest => "Bad Request"
    case NotSupported => "Not supported"
    case NotFound => "Not Found"
    case Forbidden => "Forbidden"
    case PathTooLong => "Internal Server Error"
    case ResponseTooLarge => "Internal Server Error"
  }

  function Message(k: ErrorKind): string {
    match k
    case BadRequest => "Bad Request."
    case NotSupported => "Method is not supported."
    case NotFound => "File not found."
    case Forbidden => "Access denied."
    case PathTooLong => "Path too long"
    case ResponseTooLarge => "Response too large"
  }

  /** The HTML page of an error, before the 512-byte buffer cuts it. */
  function ErrorPage(k: ErrorKind): string {
    var code := Dec(Code(k));
    "<HTML><HEAD><TITLE>" + code + " " + StatusText(k) + "</TITLE></HEAD>\r\n"
    + "<BODY><H4>" + code + " " + StatusText(k) + "</H4>\r\n"
    + Message(k) + "\r\n"
    + "</BODY></HTML>\r\n"
  }

  /** The page `send_error_response` formats into its 512-byte buffer. */
  function ErrorBody(k: ErrorKind): string { Truncate(ErrorPage(k), 511) }

  /** The status line of section 6.1 of RFC 1945 for an error. */
  function StatusLine(k: ErrorKind): string {
    "HTTP/1.0 " + Dec(Code(k)) + " " + StatusText(k) + "\r\n"
  }

  /** The header fields after the status line, for a body of `length` characters. */
  function ErrorFields(date: string, length: nat): string {
    "Server: webserver/1.0\r\n"
    + "Date: " + date + "\r\n"
    + "Content-Type: text/html\r\n"
    + "Content-Length: " + Dec(length) + "\r\n"
    + "Connection: close\r\n"
    + "\r\n"
  }

  /** `send_error_response`: everything written, cut to the 4096-byte buffer. */
  function ErrorResponse(k: ErrorKind, date: string): string {
    Truncate(StatusLine(k) + ErrorFields(date, |ErrorBody(k)|) + ErrorBody(k), BufferSize - 1)
  }

  lemma {:induction false} DecSmall(n: nat)
    requires n < 1000
    ensures |Dec(n)| <= 3
  {
    if n >= 10 { DecSmall(n / 10); }
  }

  /** `%d` of a three-digit number is its three digits. */
  lemma DecThreeDigits(n: nat)
    requires 100 <= n < 1000
    ensures Dec(n) == [DigitChar(n / 100), DigitChar(n / 10 % 10), DigitChar(n % 10)]
  {
    assert n / 10 / 10 == n / 100;
    assert Dec(n / 10) == Dec(n / 100) + [DigitChar(n / 10 % 10)];
  }

  /** Every error code is three digits; the first is '4' or '5'. */
  lemma CodeSpelling(k: ErrorKind)
    ensures |Dec(Code(k))| == 3
    ensures Dec(Code(k))[0] == if Code(k) < 500 then '4' else '5'
  {
    DecThreeDigits(Code(k));
  }

  /** No error page reaches the 512-byte buffer's limit: it is never cut. */
  lemma ErrorBodyUncut(k: ErrorKind)
    ensures ErrorBody(k) == ErrorPage(k)
    ensures |ErrorBody(k)| < 200
  {
    CodeSpelling(k);
  }

  /**
   * An error response is sent whole: the status line, the header fields
   * announcing the body's exact length, and that body. Its status digit at
   * offset 9 (the one a client tests for a redirect) is the code's first
   * digit, so never '3'. (`date` is what `strftime` wrote into 128 bytes.)
   */
  lemma ErrorResponseFraming(k: ErrorKind, date: string)
    requires |date| <= 127
    ensures var body := ErrorPage(k);
            ErrorResponse(k, date) == StatusLine(k) + ErrorFields(date, |body|) + body
    ensures ErrorResponse(k, date)[..|StatusLine(k)|] == StatusLine(k)
    ensures ErrorResponse(k, date)[9] == Dec(Code(k))[0] != '3'
  {
    ErrorResponseWhole(k, date);
    StatusLineDigit(k);
    ConcatPrefix(StatusLine(k), ErrorFields(date, |ErrorPage(k)|), ErrorPage(k), 9);
  }

  /** The response is shorter than the 4096-byte buffer, so nothing of it is cut. */
  lemma ErrorResponseWhole(k: ErrorKind, date: string)
    requires |date| <= 127
    ensures ErrorResponse(k, date) == StatusLine(k) + ErrorFields(date, |ErrorPage(k)|) + ErrorPage(k)
  {
    ErrorBodyUncut(k);
    StatusLineDigit(k);
    assert |ErrorFields(date, |ErrorPage(k)|)| < 250 by { DecSmall(|ErrorPage(k)|); }
  }

  /** The first |a| characters of a + b + c are a. */
  lemma ConcatPrefix(a: string, b: string, c: string, i: nat)
    requires i < |a|
    ensures (a + b + c)[..|a|] == a && (a + b + c)[i] == a[i]
  {
  }

  lemma StatusLineDigit(k: ErrorKind)
    ensures |StatusLine(k)| < 40
    ensures StatusLine(k)[9] == Dec(Code(k))[0] != '3'
  {
    CodeSpelling(k);
    var code := Dec(Code(k));
    assert StatusLine(k) == "HTTP/1.0 " + (code + " " + StatusText(k) + "\r\n");
  }

  /** The page `send_302_response` sends after its headers. */
  const FoundBody: string :=
    "<HTML><HEAD><TITLE>302 Found</TITLE></HEAD>\r\n"
    + "<BODY><H4>302 Found</H4>\r\n"
    + "Directories must end with a slash.\r\n"
    + "</BODY></HTML>\r\n"

  const FoundLine: string := "HTTP/1.0 302 Found\r\n"

  /** The header fields of a redirect to `location`. */
  function FoundFields(date: string, location: string): string {
    "Server: webserver/1.0\r\n"
    + "Date: " + date + "\r\n"
    + "Location: " + location + "\r\n"
    + "Content-Type: text/html\r\n"
    + "Content-Length: " + Dec(|FoundBody|) + "\r\n"
    + "Connection: close\r\n"
    + "\r\n"
  }

  /**
   * `send_302_response`: the Location is the request path with "/"
   * appended; a path of MAX_PATH_LENGTH-2 characters or more, or headers
   * that do not fit the 4096-byte buffer, become a 500 instead.
   */
  function FoundResponse(path: string, date: string): string {
    if |path| >= MaxPathLength - 2 then ErrorResponse(PathTooLong, date)
    else
      var location := Truncate(path, MaxPathLength - 2) + "/";
      var head := FoundLine + FoundFields(date, location);
      if |head| >= BufferSize then ErrorResponse(ResponseTooLarge, date)
      else head + FoundBody
  }

  /**
   * For every path the request scan can produce (at most 2047 characters)
   * the redirect itself is sent: its status line is "302 Found", its digit
   * at offset 9 is the '3' clients test, and the Location header carries the
   * path with a slash appended.
   */
  lemma FoundResponseOfRequestPath(path: string, date: string)
    requires |path| <= 2047 && |date| <= 127
    ensures FoundResponse(path, date) == FoundLine + FoundFields(date, path + "/") + FoundBody
    ensures FoundResponse(path, date)[..|FoundLine|] == FoundLine
    ensures FoundResponse(path, date)[9] == '3'
  {
    DecSmall(|FoundBody|);
    var rest := FoundFields(date, path + "/") + FoundBody;
    assert FoundLine + FoundFields(date, path + "/") + FoundBody == FoundLine + rest;
    assert (FoundLine + rest)[..|FoundLine|] == FoundLine;
    assert (FoundLine + rest)[9] == FoundLine[9];
  }

  /**
   * A path too long for the Location buffer gets the 500 "Path too long"
   * response rather than a redirect.
   */
  lemma FoundResponseOfLongPath(path: string, date: string)
    requires |path| >= MaxPathLength - 2
    ensures FoundResponse(path, date) == ErrorResponse(PathTooLong, date)
  {
  }

  // ---------------------------------------------------------- decision

  /** What `handle_client` ends up sending. */
  datatype Outcome =
    | NoReply                                // the read returned nothing: close
    | Error(kind: ErrorKind)                 // send_error_response
    | Redirect(path: string)                 // send_302_response(path)
    | SendFile(file: string)                 // send_file_content(file)
    | SendListing(path: string, dir: string) // send_directory_content(path, dir)

  /** `strncmp(protocol, "HTTP/", 5) == 0`. */
  predicate HttpProtocol(protocol: string) { |protocol| >= 5 && protocol[..5] == "HTTP/" }

  /** `full_path`: base directory and request path, cut to the 4096-byte buffer. */
  function FullPath(basePath: string, path: string): string {
    Truncate(basePath + path, MaxPathLength - 1)
  }

  /** The index file tried for a directory; a doubled slash is left as it is. */
  function IndexPath(fullPath: string): string { fullPath + "/index.html" }

  /** The file-system half of `handle_client`, for a GET of `path` (non-empty). */
  function Resolve(path: string, full: string, fs: FileSystem): Outcome
    requires |path| > 0
  {
    if full !in fs then Error(NotFound)
    else match fs[full].kind
      case Directory =>
        if path[|path| - 1] != '/' then Redirect(path)
        else if |full| >= MaxPathLength - 12 then Error(PathTooLong)
        else if IndexPath(full) in fs && fs[IndexPath(full)].readable then SendFile(IndexPath(full))
        else SendListing(path, full)
      case Regular =>
        if !fs[full].readable then Error(Forbidden) else SendFile(full)
      case Special => Error(Forbidden)
  }

  /**
   * `handle_client`. `received` is what the one `read` returned (empty for
   * end of file or an error); `basePath` is the server's working directory.
   */
  function HandleClient(received: string, basePath: string, fs: FileSystem): Outcome
    requires |received| <= BufferSize - 1
  {
    if received == [] then NoReply
    else match ScanRequestLine(CStr(received))
    case None => Error(BadRequest)
    case Some(RequestLine(verb, path, protocol)) =>
      if !HttpProtocol(protocol) then Error(BadRequest)
      else if verb != "GET" then Error(NotSupported)
      else Resolve(path, FullPath(basePath, path), fs)
  }

  /**
   * The request line is judged before the file system is consulted: a
   * request whose line does not scan or does not name HTTP gets a 400, one
   * whose method is not GET a 501, whatever the file system holds; a GET
   * that scans is resolved against the file system and never gets either.
   */
  lemma RequestLineChecksComeFirst(received: string, basePath: string, fs: FileSystem)
    requires 0 < |received| <= BufferSize - 1
    ensures var r := ScanRequestLine(CStr(received));
            var out := HandleClient(received, basePath, fs);
            && (out == Error(BadRequest) <==> r.None? || !HttpProtocol(r.value.protocol))
            && (out == Error(NotSupported) <==> r.Some? && HttpProtocol(r.value.protocol) && r.value.verb != "GET")
            && (r.Some? && HttpProtocol(r.value.protocol) && r.value.verb == "GET" ==>
                  out == Resolve(r.value.path, FullPath(basePath, r.value.path), fs))
  {
    var r := ScanRequestLine(CStr(received));
    if r.Some? {
      ScanRequestLineBounds(CStr(received));
      ResolveOutcomes(r.value.path, FullPath(basePath, r.value.path), fs);
    }
  }

  /**
   * The outcomes of a GET, each with exactly the condition that leads to
   * it: 404 for a missing path; a redirect for a directory named without its
   * trailing slash; 403 for an unreadable regular file or anything that is
   * neither a directory nor a regular file; the file itself when readable;
   * and for a directory its readable index file, otherwise a listing, or a
   * 500 when the index path would not fit.
   */
  lemma ResolveOutcomes(path: string, full: string, fs: FileSystem)
    requires |path| > 0
    ensures var out := Resolve(path, full, fs);
            && (out == Error(NotFound) <==> full !in fs)
            && (out == Redirect(path) <==> full in fs && fs[full].kind == Directory && path[|path| - 1] != '/')
            && (out == Error(Forbidden) <==>
                  full in fs && (fs[full].kind == Special || (fs[full].kind == Regular && !fs[full].readable)))
            && (out == SendFile(full) <==> full in fs && fs[full].kind == Regular && fs[full].readable)
            && (out == Error(PathTooLong) <==>
                  full in fs && fs[full].kind == Directory && path[|path| - 1] == '/' && |full| >= MaxPathLength - 12)
            && (out == SendFile(IndexPath(full)) <==>
                  && full in fs && fs[full].kind == Directory && path[|path| - 1] == '/'
                  && |full| < MaxPathLength - 12
                  && IndexPath(full) in fs && fs[IndexPath(full)].readable)
            && (out == SendListing(path, full) <==>
                  && full in fs && fs[full].kind == Directory && path[|path| - 1] == '/'
                  && |full| < MaxPathLength - 12
                  && !(IndexPath(full) in fs && fs[IndexPath(full)].readable))
            && (out.Redirect? || out.SendListing? || out.SendFile? || out == Error(NotFound)
                || out == Error(Forbidden) || out == Error(PathTooLong))
  {
    assert |IndexPath(full)| > |full|;
  }

  /**
   * A request of only two words (such as "MALFORMED REQUEST" followed by
   * its blank line) gets a 400 whatever the file system holds.
   */
  lemma TwoWordRequestIsBadRequest(verb: string, path: string, rest: string, basePath: string, fs: FileSystem)
    requires 0 < |verb| <= 15 && 0 < |path| <= 2047
    requires IsWord(verb) && IsWord(path) && AllSpace(rest)
    requires NoNul(verb + " " + path + rest) && |verb + " " + path + rest| <= BufferSize - 1
    ensures HandleClient(verb + " " + path + rest, basePath, fs) == Error(BadRequest)
  {
    CStrOfNoNul(verb + " " + path + rest);
    ScanRequestLineOfTwoWords(verb, path, rest);
  }

  /**
   * A GET of a path under an HTTP protocol is resolved against the file
   * system; with the directory-without-slash case of `ResolveOutcomes`
   * this is the redirect of "/test_files" to "/test_files/".
   */
  lemma GetRequestIsResolved(path: string, protocol: string, rest: string, line: string, basePath: string, fs: FileSystem)
    requires 0 < |path| <= 2047 && 5 <= |protocol| <= 15
    requires IsWord(path) && IsWord(protocol) && protocol[..5] == "HTTP/"
    requires rest == [] || IsSpace(rest[0])
    requires line == "GET " + path + " " + protocol + rest
    requires NoNul(line) && |line| <= BufferSize - 1
    ensures HandleClient(line, basePath, fs) == Resolve(path, FullPath(basePath, path), fs)
  {
    CStrOfNoNul(line);
    GetLineWords(path, protocol, rest, line);
    ScanRequestLineOf("GET", path, protocol, rest);
    assert ScanRequestLine(CStr(line)) == Some(RequestLine("GET", path, protocol));
    assert HttpProtocol(protocol);
  }

  /** The text of a GET line is the verb, a blank, and the rest of the line. */
  lemma GetLineWords(path: string, protocol: string, rest: string, line: string)
    requires line == "GET " + path + " " + protocol + rest
    ensures line == "GET" + " " + path + " " + protocol + rest
  {
    assert "GET " == "GET" + " ";
  }

}
