/**
 * The URL handling of the HTTP client (Assignment_02/client.c): parsing an
 * `http://` URL into host, port and path, building the GET request with its
 * query string and `Host` header (section 5.4 of RFC 7230), following a
 * redirect's `Location` header (the merge of section 5.2.3 of RFC 3986,
 * without dot-segment removal), and the command line `[-r n p1=v1 …] URL`.
 *
 * The sockets and the fetch loop of `send_request` are not modelled: a
 * response is the sequence of characters it received.
 */
module HttpClient {
  import opened CString
  import HttpServer

  const MaxUrlLength: nat := 1024
  const MaxHostLength: nat := 256
  const MaxPathLength: nat := 512
  const MaxRequestLength: nat := 2048

  /** `URLComponents`. */
  datatype Url = Url(host: string, path: string, port: int)

  const Scheme: string := "http://"

  predicate HasScheme(s: string) { |s| >= 7 && s[..7] == Scheme }

  /** What `parse_url` guarantees of the components it fills in. */
  predicate Parsed(u: Url) {
    && ':' !in u.host && '/' !in u.host && |u.host| < MaxHostLength
    && 0 < u.port < 65536
    && 0 < |u.path| < MaxPathLength && u.path[0] == '/'
  }

  /**
   * `parse_url`. After the scheme, the port is taken only when a ':' comes
   * before the first '/'; the host ends at that ':' (or at the first '/', or
   * the end), and the path starts at the first '/' (or is "/").
   */
  function ParseUrl(url: string): (r: Option<Url>)
    ensures r.Some? ==> HasScheme(url) && Parsed(r.value) && r.value.host <= url[7..]
    ensures r.Some? && HasScheme(url) && ':' !in url[7..] ==> r.value.port == 80
  {
    if !HasScheme(url) then None
    else
      var rest := url[7..];
      var slash := IndexOf(rest, '/');
      var colon := IndexOf(rest, ':');
      if colon.Some? && (slash.None? || colon.value < slash.value) then
        assert '/' !in rest[..colon.value] by {
          if slash.Some? { assert rest[..colon.value] <= rest[..slash.value]; }
        }
        ParseWithPort(rest, colon.value)
      else
        var hostLen := if slash.Some? then slash.value else |rest|;
        if hostLen >= MaxHostLength then None
        else
          assert ':' !in rest[..hostLen] by {
            if colon.Some? { assert rest[..hostLen] <= rest[..colon.value]; }
          }
          Some(Url(rest[..hostLen], PathFrom(rest, slash), 80))
  }

  /**
   * The port branch of `parse_url`, with `colon` the first ':' and no '/'
   * before it: `strtol` must stop at a '/' or the end and give 1..65535.
   * The ':' is overwritten by the terminator, so the host stops there, yet
   * its measured length runs up to the path and so includes ":port"; that
   * length must be below MAX_HOST_LENGTH.
   */
  function ParseWithPort(rest: string, colon: nat): (r: Option<Url>)
    requires colon < |rest| && rest[colon] == ':' && ':' !in rest[..colon] && '/' !in rest[..colon]
    ensures r.Some? ==> Parsed(r.value) && r.value.host <= rest
  {
    PortOf(rest, colon, StrToL(rest[colon + 1..]))
  }

  /** The port branch once `strtol` has read `conv` from the text after the ':'. */
  function PortOf(rest: string, colon: nat, conv: Conversion): (r: Option<Url>)
    requires colon < |rest| && rest[colon] == ':' && ':' !in rest[..colon] && '/' !in rest[..colon]
    requires colon + 1 + conv.end <= |rest|
    ensures r.Some? ==> Parsed(r.value) && r.value.host <= rest
  {
    var after := rest[colon + 1 + conv.end..];
    if !(after == [] || after[0] == '/') then None
    else if conv.value <= 0 || conv.value >= 65536 then None
    else
      var pathStart: Option<nat> := if after != [] then Some(colon + 1 + conv.end) else IndexOf(rest, '/');
      var hostLen := if pathStart.Some? then pathStart.value else colon;
      if hostLen >= MaxHostLength then None
      else
        assert pathStart.Some? ==> colon < pathStart.value < |rest| && rest[pathStart.value] == '/';
        Some(Url(rest[..colon], PathFrom(rest, pathStart), conv.value))
  }

  /** The path copied from `path_start` (at a '/'), or "/" when there is none. */
  function PathFrom(rest: string, pathStart: Option<nat>): (p: string)
    requires pathStart.Some? ==> pathStart.value < |rest| && rest[pathStart.value] == '/'
    ensures 0 < |p| < MaxPathLength && p[0] == '/'
  {
    if pathStart.Some? then Truncate(rest[pathStart.value..], MaxPathLength - 1) else "/"
  }

  /** The text `:port` the client writes after the host, empty for port 80. */
  function PortSuffix(port: int): string {
    if port == 80 then "" else ":" + IntDec(port)
  }

  /** The URL `sprintf("http://%s[:%d]%s", …)` spells for a host, port and path. */
  function UrlText(u: Url): string {
    Scheme + u.host + PortSuffix(u.port) + u.path
  }

  /** The components `ParseUrl` can return and reads back from their spelling. */
  predicate WellFormed(u: Url) {
    && ':' !in u.host && '/' !in u.host
    && 0 < u.port < 65536
    && 0 < |u.path| < MaxPathLength && u.path[0] == '/'
    && |u.host| + |PortSuffix(u.port)| < MaxHostLength
  }

  /**
   * `parse_url` reads back what the client spells: the URL of well-formed
   * components parses to exactly those components.
   */
  lemma ParseUrlText(u: Url)
    requires WellFormed(u)
    ensures ParseUrl(UrlText(u)) == Some(u)
  {
    var url := UrlText(u);
    if u.port == 80 {
      var rest := u.host + u.path;
      assert url == Scheme + rest;
      SchemeThen(url, rest);
      ParseUrlNoPort(url, rest, u.host, u.path);
    } else {
      var digits := Dec(u.port);
      var rest := u.host + [':'] + (digits + u.path);
      assert url == Scheme + rest;
      SchemeThen(url, rest);
      ParseUrlPort(url, rest, u.host, u.port, digits, u.path);
    }
  }

  /** A URL is the scheme followed by what comes after it. */
  lemma SchemeThen(url: string, rest: string)
    requires url == Scheme + rest
    ensures HasScheme(url) && url[7..] == rest
  {
    assert url[..7] == Scheme;
  }

  /** After the scheme, a host and a path with no ':' before the path: port 80. */
  lemma ParseUrlNoPort(url: string, rest: string, host: string, path: string)
    requires HasScheme(url) && url[7..] == rest && rest == host + path
    requires ':' !in host && '/' !in host && |host| < MaxHostLength
    requires 0 < |path| < MaxPathLength && path[0] == '/'
    ensures ParseUrl(url) == Some(Url(host, path, 80))
  {
    assert rest == host + [path[0]] + path[1..];
    IndexOfAt(host, path[1..], '/');
    IndexOfAfter(host, path, ':');
    assert rest[..|host|] == host;
    assert rest[|host|..] == path;
    PathFromOf(rest, |host|, path);
    ParseUrlTakesNoPort(url, rest, |host|);
  }

  /** With a '/' before any ':', `parse_url` keeps port 80 and the host up to the '/'. */
  lemma ParseUrlTakesNoPort(url: string, rest: string, slash: nat)
    requires HasScheme(url) && url[7..] == rest
    requires IndexOf(rest, '/') == Some(slash) && slash < MaxHostLength
    requires IndexOf(rest, ':').None? || IndexOf(rest, ':').value > slash
    ensures slash < |rest| && rest[slash] == '/'
    ensures ParseUrl(url) == Some(Url(rest[..slash], PathFrom(rest, Some(slash)), 80))
  {
  }

  /**
   * After the scheme, a host, ':', the decimal spelling of a port and a
   * path: that port, whichever it is (80 included), with that host and path.
   */
  lemma ParseExplicitPort(url: string, host: string, port: int, path: string)
    requires ':' !in host && '/' !in host
    requires 0 < port < 65536
    requires 0 < |path| < MaxPathLength && path[0] == '/'
    requires |host| + 1 + |Dec(port)| < MaxHostLength
    requires url == Scheme + host + ":" + Dec(port) + path
    ensures ParseUrl(url) == Some(Url(host, path, port))
  {
    var digits := Dec(port);
    var rest := host + [':'] + (digits + path);
    assert url == Scheme + rest;
    SchemeThen(url, rest);
    ParseUrlPort(url, rest, host, port, digits, path);
  }

  /** `ParseExplicitPort` over the text after the scheme. */
  lemma ParseUrlPort(url: string, rest: string, host: string, port: int, digits: string, path: string)
    requires HasScheme(url) && url[7..] == rest
    requires ':' !in host && '/' !in host
    requires 0 < port < 65536 && digits == Dec(port)
    requires 0 < |path| < MaxPathLength && path[0] == '/'
    requires |host| + 1 + |digits| < MaxHostLength
    requires rest == host + [':'] + (digits + path)
    ensures ParseUrl(url) == Some(Url(host, path, port))
  {
    IndexOfAt(host, digits + path, ':');
    var front := host + [':'] + digits;
    assert '/' !in front by {
      forall i | 0 <= i < |front| ensures front[i] != '/' {
        if i > |host| { assert IsDigit(digits[i - |host| - 1]); }
      }
    }
    assert rest == front + [path[0]] + path[1..];
    IndexOfAt(front, path[1..], '/');
    assert rest[..|host|] == host;
    ParseUrlTakesPort(url, rest, |host|, |front|);
    PortBranch(rest, host, port, digits, path);
  }

  /** With a ':' before the first '/', `parse_url` takes the port branch. */
  lemma ParseUrlTakesPort(url: string, rest: string, colon: nat, slash: nat)
    requires HasScheme(url) && url[7..] == rest
    requires IndexOf(rest, ':') == Some(colon) && IndexOf(rest, '/') == Some(slash) && colon < slash
    requires '/' !in rest[..colon]
    ensures ParseUrl(url) == ParseWithPort(rest, colon)
  {
  }

  /** The port branch on a host, ':', the digits of a port, and a path. */
  lemma PortBranch(rest: string, host: string, port: int, digits: string, path: string)
    requires ':' !in host && '/' !in host
    requires 0 < port < 65536 && digits == Dec(port)
    requires 0 < |path| < MaxPathLength && path[0] == '/'
    requires |host| + 1 + |digits| < MaxHostLength
    requires rest == host + [':'] + (digits + path)
    ensures rest[|host|] == ':' && ':' !in rest[..|host|] && '/' !in rest[..|host|]
    ensures ParseWithPort(rest, |host|) == Some(Url(host, path, port))
  {
    PortSplit(rest, host, digits, path);
    PortDigitsAt(rest, |host|, port, digits, path);
    ParseWithPortIs(rest, |host|, Conversion(port, |digits|));
    PortOfPath(rest, |host|, port, |digits|, path);
  }

  /** The pieces of a host, ':', digits and a path. */
  lemma PortSplit(rest: string, host: string, digits: string, path: string)
    requires rest == host + [':'] + (digits + path)
    ensures rest[..|host|] == host && rest[|host|] == ':'
    ensures rest[|host| + 1..] == digits + path && rest[|host| + 1 + |digits|..] == path
  {
    assert rest[..|host|] == host;
    assert rest[|host| + 1..] == digits + path;
  }

  /** The port branch is `PortOf` of what `strtol` reads. */
  lemma ParseWithPortIs(rest: string, colon: nat, conv: Conversion)
    requires colon < |rest| && rest[colon] == ':' && ':' !in rest[..colon] && '/' !in rest[..colon]
    requires StrToL(rest[colon + 1..]) == conv
    ensures colon + 1 + conv.end <= |rest|
    ensures ParseWithPort(rest, colon) == PortOf(rest, colon, conv)
  {
  }

  /** `PortOf` of a port in range read from `n` characters that a path follows. */
  lemma PortOfPath(rest: string, colon: nat, port: int, n: nat, path: string)
    requires colon < |rest| && rest[colon] == ':' && ':' !in rest[..colon] && '/' !in rest[..colon]
    requires 0 < port < 65536
    requires 0 < |path| < MaxPathLength && path[0] == '/'
    requires colon + 1 + n < MaxHostLength && colon + 1 + n <= |rest| && rest[colon + 1 + n..] == path
    ensures PortOf(rest, colon, Conversion(port, n)) == Some(Url(rest[..colon], path, port))
  {
    PathFromOf(rest, colon + 1 + n, path);
    var after := rest[colon + 1 + n..];
    assert after != [] && after[0] == '/';
  }

  /** The path copied from a '/' at `start` when the rest of the text is short enough. */
  lemma PathFromOf(rest: string, start: nat, path: string)
    requires start < |rest| && rest[start..] == path
    requires 0 < |path| < MaxPathLength && path[0] == '/'
    ensures rest[start] == '/' && PathFrom(rest, Some(start)) == path
  {
    assert rest[start] == path[0];
  }

  /** `PortDigits` on the text after the ':' at `colon`. */
  lemma PortDigitsAt(rest: string, colon: nat, port: int, digits: string, path: string)
    requires 0 < port < 65536 && digits == Dec(port)
    requires path != [] && path[0] == '/'
    requires colon < |rest| && rest[colon + 1..] == digits + path
    ensures StrToL(rest[colon + 1..]) == Conversion(port, |digits|)
  {
    PortDigits(rest[colon + 1..], port, digits, path);
  }

  /** `strtol` on the digits of a port followed by a path stops at the path. */
  lemma PortDigits(portText: string, port: int, digits: string, path: string)
    requires 0 < port < 65536 && digits == Dec(port)
    requires path != [] && path[0] == '/'
    requires portText == digits + path
    ensures StrToL(portText) == Conversion(port, |digits|) && portText[|digits|..] == path
  {
    StrToLOfDec(port, path);
  }

  // ------------------------------------------------ rejected URLs

  /** `parse_url` takes the port branch: a ':' comes before the first '/' (or there is no '/'). */
  predicate PortBranchTaken(rest: string) {
    var slash := IndexOf(rest, '/');
    var colon := IndexOf(rest, ':');
    colon.Some? && (slash.None? || colon.value < slash.value)
  }

  /** Where `strtol` stops after the ':' of the port branch. */
  function PortStop(rest: string): (stop: nat)
    requires PortBranchTaken(rest)
    ensures IndexOf(rest, ':').value < stop <= |rest|
  {
    var colon := IndexOf(rest, ':').value;
    colon + 1 + StrToL(rest[colon + 1..]).end
  }

  /**
   * The port read up to `stop` is refused: `strtol` stopped at neither '/'
   * nor the end, or the port is outside 1..65535.
   */
  predicate PortFails(rest: string, stop: nat, port: int)
    requires stop <= |rest|
  {
    (stop < |rest| && rest[stop] != '/') || port <= 0 || port >= 65536
  }

  /**
   * The `host_len` of the port branch: up to `path_start`, which is where
   * `strtol` stopped when that is a '/' (so ":port" is counted), and
   * otherwise the length of the host text, which ends at the overwritten ':'.
   */
  function PortHostLength(rest: string, colon: nat, stop: nat): nat
    requires stop <= |rest|
  {
    if stop < |rest| then stop
    else match IndexOf(rest, '/') case Some(k) => k case None => colon
  }

  /** The port branch is taken and refuses the port. */
  predicate PortRejected(rest: string) {
    && PortBranchTaken(rest)
    && PortFails(rest, PortStop(rest), StrToL(rest[IndexOf(rest, ':').value + 1..]).value)
  }

  /** The `host_len` that `parse_url` compares with MAX_HOST_LENGTH. */
  function MeasuredHostLength(rest: string): nat {
    if PortBranchTaken(rest) then PortHostLength(rest, IndexOf(rest, ':').value, PortStop(rest))
    else match IndexOf(rest, '/') case Some(k) => k case None => |rest|
  }

  /**
   * `parse_url` fails exactly for a missing `http://`, a port branch whose
   * `strtol` stops at neither '/' nor the end or whose port is outside
   * 1..65535, or a measured host length of MAX_HOST_LENGTH or more.
   */
  lemma ParseUrlRejects(url: string)
    ensures ParseUrl(url).None? <==>
      || !HasScheme(url)
      || PortRejected(url[7..])
      || MeasuredHostLength(url[7..]) >= MaxHostLength
  {
    if HasScheme(url) {
      var rest := url[7..];
      if PortBranchTaken(rest) {
        var colon := IndexOf(rest, ':').value;
        ParseUrlTakesPortBranch(url, rest, colon);
        PortOfRejects(rest, colon, StrToL(rest[colon + 1..]));
      } else {
        ParseUrlHostBranch(url, rest);
      }
    }
  }

  /** In the port branch `parse_url` is `ParseWithPort` at the first ':'. */
  lemma ParseUrlTakesPortBranch(url: string, rest: string, colon: nat)
    requires HasScheme(url) && url[7..] == rest
    requires PortBranchTaken(rest) && IndexOf(rest, ':') == Some(colon)
    ensures colon < |rest| && rest[colon] == ':' && ':' !in rest[..colon] && '/' !in rest[..colon]
    ensures ParseUrl(url) == ParseWithPort(rest, colon)
  {
    assert '/' !in rest[..colon] by {
      var slash := IndexOf(rest, '/');
      if slash.Some? { assert rest[..colon] <= rest[..slash.value]; }
    }
  }

  /** Outside the port branch `parse_url` fails exactly on the measured host length. */
  lemma ParseUrlHostBranch(url: string, rest: string)
    requires HasScheme(url) && url[7..] == rest && !PortBranchTaken(rest)
    ensures ParseUrl(url).None? <==> MeasuredHostLength(rest) >= MaxHostLength
  {
  }

  /** The port branch fails exactly on a rejected port or the measured host length. */
  lemma PortOfRejects(rest: string, colon: nat, conv: Conversion)
    requires PortBranchTaken(rest) && IndexOf(rest, ':') == Some(colon)
    requires colon < |rest| && rest[colon] == ':' && ':' !in rest[..colon] && '/' !in rest[..colon]
    requires conv == StrToL(rest[colon + 1..])
    ensures ParseWithPort(rest, colon).None? <==> PortRejected(rest) || MeasuredHostLength(rest) >= MaxHostLength
  {
    ParseWithPortIs(rest, colon, conv);
    PortConditionsAt(rest, colon, conv);
    PortOfNone(rest, colon, conv);
  }

  /** In the port branch the rejection conditions are those of the port `strtol` read. */
  lemma PortConditionsAt(rest: string, colon: nat, conv: Conversion)
    requires PortBranchTaken(rest) && IndexOf(rest, ':') == Some(colon)
    requires conv == StrToL(rest[colon + 1..])
    ensures colon + 1 + conv.end <= |rest|
    ensures PortRejected(rest) == PortFails(rest, colon + 1 + conv.end, conv.value)
    ensures MeasuredHostLength(rest) == PortHostLength(rest, colon, colon + 1 + conv.end)
  {
    assert PortStop(rest) == colon + 1 + conv.end;
  }

  /** `PortOf` fails exactly when the port is refused or the host length is too large. */
  lemma PortOfNone(rest: string, colon: nat, conv: Conversion)
    requires colon < |rest| && rest[colon] == ':' && ':' !in rest[..colon] && '/' !in rest[..colon]
    requires colon + 1 + conv.end <= |rest|
    ensures PortOf(rest, colon, conv).None? <==>
      PortFails(rest, colon + 1 + conv.end, conv.value) || PortHostLength(rest, colon, colon + 1 + conv.end) >= MaxHostLength
  {
    var stop := colon + 1 + conv.end;
    var after := rest[stop..];
    assert after == [] <==> stop == |rest|;
    assert after != [] ==> after[0] == rest[stop];
  }

  /** A ':' with no '/' before it selects the port branch. */
  lemma PortBranchAt(rest: string, colon: nat)
    requires IndexOf(rest, ':') == Some(colon) && '/' !in rest[..colon]
    ensures PortBranchTaken(rest)
  {
  }

  /** The port branch after the first ':' fails once its port is refused or its host length is too large. */
  lemma ParseUrlPortFails(url: string, rest: string, colon: nat, conv: Conversion)
    requires HasScheme(url) && url[7..] == rest
    requires IndexOf(rest, ':') == Some(colon) && '/' !in rest[..colon]
    requires conv == StrToL(rest[colon + 1..])
    requires colon + 1 + conv.end <= |rest|
    requires PortFails(rest, colon + 1 + conv.end, conv.value) || PortHostLength(rest, colon, colon + 1 + conv.end) >= MaxHostLength
    ensures ParseUrl(url).None?
  {
    PortBranchAt(rest, colon);
    ParseUrlTakesPortBranch(url, rest, colon);
    ParseWithPortIs(rest, colon, conv);
    PortOfNone(rest, colon, conv);
  }

  /**
   * Text after the port that is neither a digit nor a path is rejected,
   * whatever the host and port.
   */
  lemma ParseUrlJunkAfterPort(url: string, host: string, port: int, junk: string)
    requires ':' !in host && '/' !in host
    requires 0 < port < 65536
    requires junk != [] && junk[0] != '/' && !IsDigit(junk[0])
    requires url == Scheme + host + ":" + Dec(port) + junk
    ensures ParseUrl(url).None?
  {
    StrToLOfDec(port, junk);
    StopOutsidePath(url, host, Dec(port), junk, Conversion(port, |Dec(port)|));
  }

  /** A port whose `strtol` stops at a character other than '/' is refused. */
  lemma StopOutsidePath(url: string, host: string, digits: string, junk: string, conv: Conversion)
    requires ':' !in host && '/' !in host
    requires junk != [] && junk[0] != '/'
    requires StrToL(digits + junk) == conv && conv.end == |digits|
    requires url == Scheme + host + ":" + digits + junk
    ensures ParseUrl(url).None?
  {
    var rest := host + [':'] + (digits + junk);
    PortText(url, host, digits, junk, rest);
    ParseUrlPortFails(url, rest, |host|, conv);
  }

  /** The text after the scheme of a host, ':', the digits of a port and what follows them. */
  lemma PortText(url: string, host: string, digits: string, tail: string, rest: string)
    requires ':' !in host && '/' !in host
    requires url == Scheme + host + ":" + digits + tail && rest == host + [':'] + (digits + tail)
    ensures HasScheme(url) && url[7..] == rest
    ensures IndexOf(rest, ':') == Some(|host|) && '/' !in rest[..|host|]
    ensures rest[|host| + 1..] == digits + tail
    ensures tail != [] ==> |host| + 1 + |digits| < |rest| && rest[|host| + 1 + |digits|] == tail[0]
  {
    assert url == Scheme + rest;
    SchemeThen(url, rest);
    PortSplit(rest, host, digits, tail);
    IndexOfAt(host, digits + tail, ':');
  }

  /** "http://h:80x/" does not parse. */
  lemma ParseUrlGarbageAfterPort()
    ensures ParseUrl("http://h:80x/").None?
  {
    assert Dec(80) == "80";
    assert "http://h:80x/" == Scheme + "h" + ":" + Dec(80) + "x/";
    ParseUrlJunkAfterPort("http://h:80x/", "h", 80, "x/");
  }

  /**
   * The host length is measured up to the path, so an explicit port counts
   * against MAX_HOST_LENGTH: a host that fits on its own is rejected once
   * ":port" brings it to 256 characters.
   */
  lemma ParseUrlCountsPort(url: string, host: string, port: int, path: string)
    requires ':' !in host && '/' !in host
    requires 0 < port < 65536
    requires 0 < |path| && path[0] == '/'
    requires |host| + 1 + |Dec(port)| >= MaxHostLength
    requires url == Scheme + host + ":" + Dec(port) + path
    ensures ParseUrl(url).None?
  {
    PortDigits(Dec(port) + path, port, Dec(port), path);
    PathAfterLongHost(url, host, Dec(port), path, Conversion(port, |Dec(port)|));
  }

  /** A port that a path follows is refused when the host, ':' and the port reach MAX_HOST_LENGTH. */
  lemma PathAfterLongHost(url: string, host: string, digits: string, path: string, conv: Conversion)
    requires ':' !in host && '/' !in host
    requires path != [] && path[0] == '/'
    requires StrToL(digits + path) == conv && conv.end == |digits|
    requires |host| + 1 + |digits| >= MaxHostLength
    requires url == Scheme + host + ":" + digits + path
    ensures ParseUrl(url).None?
  {
    var rest := host + [':'] + (digits + path);
    PortText(url, host, digits, path, rest);
    ParseUrlPortFails(url, rest, |host|, conv);
  }

  /** A 251-character host followed by ":8080/" is rejected although the host alone is under 256. */
  lemma ParseUrlLongHostWithPort(host: string)
    requires |host| == 251 && ':' !in host && '/' !in host
    ensures |host| < MaxHostLength && ParseUrl(Scheme + host + ":8080/").None?
  {
    assert Dec(8080) == "8080";
    assert Scheme + host + ":8080/" == Scheme + host + ":" + Dec(8080) + "/";
    ParseUrlCountsPort(Scheme + host + ":8080/", host, 8080, "/");
  }

  // ---------------------------------------------------------- request

  /** The parameters joined by '&', as the `strcat` loop lays them out. */
  function Query(params: seq<string>): string {
    if |params| == 0 then ""
    else if |params| == 1 then params[0]
    else Query(params[..|params| - 1]) + "&" + params[|params| - 1]
  }

  /** `full_path`: the path, then '?' and the query when there are parameters. */
  function Target(path: string, params: seq<string>): string {
    if |params| > 0 then path + "?" + Query(params) else path
  }

  /** The request `snprintf` formats into MAX_REQUEST_LENGTH bytes. */
  function RequestText(u: Url, params: seq<string>): string {
    Truncate("GET " + Target(u.path, params) + " HTTP/1.1\r\n"
             + "Host: " + u.host + "\r\n"
             + "Connection: close\r\n"
             + "\r\n", MaxRequestLength - 1)
  }

  /**
   * `construct_request`, with `params` the first `param_count` arguments.
   * The `strcat`s into the 512-byte `full_path` are unchecked: the
   * precondition is that the target fits.
   */
  method ConstructRequest(u: Url, params: seq<string>) returns (request: string)
    requires |Target(u.path, params)| < MaxPathLength
    ensures request == RequestText(u, params)
  {
    var fullPath := u.path;
    if |params| > 0 {
      fullPath := fullPath + "?";
      var i := 0;
      while i < |params|
        invariant 0 <= i <= |params|
        invariant fullPath == u.path + "?" + Query(params[..i])
      {
        if i > 0 {
          fullPath := fullPath + "&";
        }
        fullPath := fullPath + params[i];
        assert params[..i + 1][..i] == params[..i];
        i := i + 1;
      }
      assert params[..|params|] == params;
    }
    request := Truncate("GET " + fullPath + " HTTP/1.1\r\n"
                        + "Host: " + u.host + "\r\n"
                        + "Connection: close\r\n"
                        + "\r\n", MaxRequestLength - 1);
  }

  /** The fields of `s` between the `sep`s, reading from the right. */
  function Split(s: string, sep: char): (r: seq<string>)
    ensures |r| > 0
  {
    match LastIndexOf(s, sep)
    case None => [s]
    case Some(i) => Split(s[..i], sep) + [s[i + 1..]]
  }

  /** Splitting at the last '&' peels off what follows it. */
  lemma SplitSnoc(front: string, last: string, q: string)
    requires '&' !in last && q == front + "&" + last
    ensures Split(q, '&') == Split(front, '&') + [last]
  {
    assert q == front + ['&'] + last;
    LastIndexOfBefore(front, last, '&');
    assert q[..|front|] == front;
    assert q[|front| + 1..] == last;
  }

  /** The query string splits back into the parameters, when none holds a '&'. */
  lemma {:induction false} QuerySplit(params: seq<string>)
    requires |params| > 0
    requires forall i :: 0 <= i < |params| ==> '&' !in params[i]
    ensures Split(Query(params), '&') == params
    decreases |params|
  {
    if |params| > 1 {
      var init := params[..|params| - 1];
      var last := params[|params| - 1];
      QuerySplit(init);
      SplitSnoc(Query(init), last, Query(params));
      assert init + [last] == params;
    } else {
      assert LastIndexOf(params[0], '&').None?;
    }
  }

  /**
   * The request fits MAX_REQUEST_LENGTH whole, and the server's request
   * line scan reads its method, target and protocol back, when the target
   * holds no white space.
   */
  lemma ServerReadsRequest(u: Url, params: seq<string>)
    requires |Target(u.path, params)| < MaxPathLength && |u.host| < MaxHostLength
    requires 0 < |Target(u.path, params)| && HttpServer.IsWord(Target(u.path, params))
    ensures HttpServer.ScanRequestLine(RequestText(u, params))
              == Some(HttpServer.RequestLine("GET", Target(u.path, params), "HTTP/1.1"))
  {
    var target := Target(u.path, params);
    var rest := "\r\n" + "Host: " + u.host + "\r\n" + "Connection: close\r\n" + "\r\n";
    var text := "GET " + target + " HTTP/1.1\r\n" + "Host: " + u.host + "\r\n" + "Connection: close\r\n" + "\r\n";
    RequestLineSplit(target, u.host, rest, text);
    assert RequestText(u, params) == text;
    RequestWords();
    HttpServer.ScanRequestLineOf("GET", target, "HTTP/1.1", rest);
  }

  /** The request starts with its request line: method, target and protocol, then CRLF. */
  lemma RequestLineSplit(target: string, host: string, rest: string, text: string)
    requires |target| < MaxPathLength && |host| < MaxHostLength
    requires rest == "\r\n" + "Host: " + host + "\r\n" + "Connection: close\r\n" + "\r\n"
    requires text == "GET " + target + " HTTP/1.1\r\n" + "Host: " + host + "\r\n" + "Connection: close\r\n" + "\r\n"
    ensures text == "GET" + " " + target + " " + "HTTP/1.1" + rest
    ensures |text| <= MaxRequestLength - 1 && IsSpace(rest[0])
  {
    assert text == "GET" + " " + target + " " + "HTTP/1.1" + rest;
  }

  /** The method and the protocol the client sends are words. */
  lemma RequestWords()
    ensures HttpServer.IsWord("GET") && HttpServer.IsWord("HTTP/1.1")
  {
    assert forall i :: 0 <= i < 3 ==> !IsSpace("GET"[i]);
    assert forall i :: 0 <= i < 8 ==> !IsSpace("HTTP/1.1"[i]);
  }

  // ------------------------------------------------------- redirects

  const LocationTag: string := "\nLocation: "
  const CrLfLocationTag: string := "\r\nLocation: "

  /** Where `strstr` finds the header: "\nLocation: ", failing that "\r\nLocation: ". */
  function LocationHeader(response: string): (r: Option<nat>)
    ensures r.Some? ==> OccursAt(response, LocationTag, r.value) || OccursAt(response, CrLfLocationTag, r.value)
  {
    match Find(response, LocationTag)
    case Some(k) => Some(k)
    case None => Find(response, CrLfLocationTag)
  }

  /**
   * The second search never finds what the first missed: a header is found
   * exactly when "\nLocation: " occurs, and then at its first occurrence.
   */
  lemma LocationHeaderIsFirstTag(response: string)
    ensures LocationHeader(response).Some? <==> exists j: nat :: OccursAt(response, LocationTag, j)
    ensures LocationHeader(response).Some? ==> LocationHeader(response) == Find(response, LocationTag)
  {
    if Find(response, LocationTag).None? {
      match Find(response, CrLfLocationTag)
      case None =>
      case Some(k) =>
        assert response[k + 1..k + 1 + |LocationTag|] == response[k..k + |CrLfLocationTag|][1..];
        assert OccursAt(response, LocationTag, k + 1);
        assert false;
    }
  }

  /** `strchr(location_header, ':') + 2`: just past the tag that was found. */
  function ValueStart(response: string, k: nat): (start: nat)
    requires OccursAt(response, LocationTag, k) || OccursAt(response, CrLfLocationTag, k)
    ensures OccursAt(response, LocationTag, k) ==> start == k + |LocationTag|
    ensures !OccursAt(response, LocationTag, k) ==> start == k + |CrLfLocationTag|
    ensures start <= |response|
  {
    var tail := response[k..];
    if OccursAt(response, LocationTag, k) then
      assert tail[..|LocationTag|] == LocationTag;
      assert tail[9] == ':';
      assert forall j :: 0 <= j < 9 ==> tail[j] == LocationTag[j] != ':';
      k + IndexOf(tail, ':').value + 2
    else
      assert tail[..|CrLfLocationTag|] == CrLfLocationTag;
      assert tail[10] == ':';
      assert forall j :: 0 <= j < 10 ==> tail[j] == CrLfLocationTag[j] != ':';
      k + IndexOf(tail, ':').value + 2
  }

  /** The value up to the end of its line: the first "\r\n", failing that '\n'. */
  function LineOf(region: string): (line: string)
    ensures line <= region
  {
    match Find(region, "\r\n")
    case Some(e) => region[..e]
    case None =>
      match IndexOf(region, '\n')
      case Some(e) => region[..e]
      case None => region
  }

  /** Number of leading ' ' characters (the trim skips only those). */
  function LeadingBlanks(s: string): (n: nat)
    ensures n <= |s| && (forall i :: 0 <= i < n ==> s[i] == ' ') && (n < |s| ==> s[n] != ' ')
  {
    if s != [] && s[0] == ' ' then
      var k := LeadingBlanks(s[1..]);
      assert forall i :: 1 <= i < |s| ==> s[i] == s[1..][i - 1];
      1 + k
    else 0
  }

  predicate TrailingJunk(c: char) { c == ' ' || c == '\r' || c == '\n' }

  /**
   * The trailing trim: drops ' ', CR and LF from the end while more than one
   * character is left (the loop stops at the start, which it never clears).
   */
  function TrimEnd(s: string): (r: string)
    ensures r <= s
    ensures |s| > 0 ==> |r| > 0
    ensures |r| > 1 ==> !TrailingJunk(r[|r| - 1])
    ensures forall i :: |r| <= i < |s| ==> TrailingJunk(s[i])
  {
    if |s| > 1 && TrailingJunk(s[|s| - 1]) then TrimEnd(s[..|s| - 1]) else s
  }

  lemma TrimEndStops(t: string)
    requires |t| <= 1 || !TrailingJunk(t[|t| - 1])
    ensures TrimEnd(t) == t
  {
  }

  /** The trimmed value of a line. */
  function Trimmed(line: string): string {
    TrimEnd(line[LeadingBlanks(line)..])
  }

  /**
   * The two trim loops of `extract_location_url`: the first moves the start
   * past the blanks, the second shortens what follows from its end.
   */
  method TrimLocation(line: string) returns (value: string)
    ensures value == Trimmed(line)
  {
    var start := 0;
    while start < |line| && line[start] == ' '
      invariant 0 <= start <= |line|
      invariant forall i :: 0 <= i < start ==> line[i] == ' '
    {
      start := start + 1;
    }
    LeadingBlanksIs(line, start);
    var t := line[start..];
    var n := |t|;
    assert t[..n] == t;
    while n > 1 && TrailingJunk(t[n - 1])
      invariant 0 <= n <= |t| && (|t| > 0 ==> n > 0)
      invariant TrimEnd(t[..n]) == TrimEnd(t)
    {
      assert t[..n][..n - 1] == t[..n - 1];
      n := n - 1;
    }
    value := t[..n];
    TrimEndStops(value);
  }

  lemma {:induction false} LeadingBlanksIs(s: string, n: nat)
    requires n <= |s| && (forall i :: 0 <= i < n ==> s[i] == ' ') && (n < |s| ==> s[n] != ' ')
    ensures LeadingBlanks(s) == n
  {
    if n > 0 {
      assert forall i :: 0 <= i < n - 1 ==> s[1..][i] == s[i + 1];
      LeadingBlanksIs(s[1..], n - 1);
    }
  }

  /** The trimmed `Location` value of a response, None when it has no such header. */
  function LocationValue(response: string): Option<string> {
    match LocationHeader(response)
    case None => None
    case Some(k) => Some(Trimmed(LineOf(response[ValueStart(response, k)..])))
  }

  /**
   * The Location value resolved against the current URL: an absolute
   * `http://` value as it is; a value starting with '/' on the current host
   * and port; any other value after the current path's directory (up to its
   * last '/'), or after "/" when that path has no '/'.
   */
  function ResolveLocation(v: string, cur: Url): string {
    var origin := Scheme + cur.host + PortSuffix(cur.port);
    if HasScheme(v) then v
    else if |v| > 0 && v[0] == '/' then origin + v
    else match LastIndexOf(cur.path, '/')
      case Some(i) => origin + cur.path[..i] + "/" + v
      case None => origin + "/" + v
  }

  /**
   * The merge of section 5.2.3 of RFC 3986 for a reference that is only a
   * relative path: the base path up to and including its last '/', then the
   * reference ("/" + reference for an empty base path).
   */
  function Merge(basePath: string, reference: string): string {
    if basePath == [] then "/" + reference
    else match LastIndexOf(basePath, '/')
      case Some(i) => basePath[..i + 1] + reference
      case None => reference
  }

  /** The sprintf into the 1024-byte `location_url` fits. */
  predicate LocationFits(response: string, cur: Url) {
    LocationValue(response).Some? ==> |ResolveLocation(LocationValue(response).value, cur)| < MaxUrlLength
  }

  /** `extract_location_url`: the resolved Location, or None (return 0). */
  function ExtractLocationUrl(response: string, cur: Url): (r: Option<string>)
    requires LocationFits(response, cur)
    ensures r.Some? <==> exists j: nat :: OccursAt(response, LocationTag, j)
    ensures r.Some? ==> |r.value| < MaxUrlLength
  {
    LocationHeaderIsFirstTag(response);
    match LocationValue(response)
    case None => None
    case Some(v) => Some(ResolveLocation(v, cur))
  }

  /**
   * What the redirect is resolved to: an absolute value is kept, a value
   * starting with '/' replaces the current path, and any other value is
   * merged with it as section 5.2.3 of RFC 3986 does; host and port are the
   * current ones. The new URL parses back to exactly those components.
   */
  lemma ResolveLocationParses(v: string, cur: Url)
    requires WellFormed(cur) && !HasScheme(v)
    requires var target := if |v| > 0 && v[0] == '/' then v else Merge(cur.path, v);
             |target| < MaxPathLength
    ensures var target := if |v| > 0 && v[0] == '/' then v else Merge(cur.path, v);
            ResolveLocation(v, cur) == UrlText(Url(cur.host, target, cur.port))
            && ParseUrl(ResolveLocation(v, cur)) == Some(Url(cur.host, target, cur.port))
  {
    if |v| > 0 && v[0] == '/' {
      ParseUrlText(Url(cur.host, v, cur.port));
    } else {
      ResolveRelative(v, cur);
      ParseUrlText(Url(cur.host, Merge(cur.path, v), cur.port));
    }
  }

  lemma ResolveRelative(v: string, cur: Url)
    requires 0 < |cur.path| && cur.path[0] == '/' && !HasScheme(v) && !(|v| > 0 && v[0] == '/')
    ensures ResolveLocation(v, cur) == UrlText(Url(cur.host, Merge(cur.path, v), cur.port))
    ensures Merge(cur.path, v)[0] == '/'
  {
    var i := LastIndexOf(cur.path, '/').value;
    assert cur.path[..i + 1] == cur.path[..i] + "/";
    var origin := Scheme + cur.host + PortSuffix(cur.port);
    assert origin + cur.path[..i] + "/" + v == origin + (cur.path[..i + 1] + v);
  }

  /** An absolute Location is followed verbatim. */
  lemma ResolveAbsolute(v: string, cur: Url)
    requires HasScheme(v)
    ensures ResolveLocation(v, cur) == v
  {
  }

  /** The test at line 259: byte 9 of the (zero-filled) response buffer is '3'. */
  predicate IsRedirect(received: string) {
    |received| > 9 && received[9] == '3'
  }

  /**
   * One pass of the redirect branch of `send_request`: for a 3xx response
   * with a Location header that parses, the URL to fetch next; otherwise
   * None, and the client stops.
   */
  function NextUrl(received: string, cur: Url): Option<Url>
    requires LocationFits(CStr(received), cur)
  {
    if !IsRedirect(received) then None
    else match ExtractLocationUrl(CStr(received), cur)
      case None => None
      case Some(location) => ParseUrl(location)
  }

  /** The server's error responses never send the client after a redirect. */
  lemma ErrorResponseIsNotRedirect(k: HttpServer.ErrorKind, date: string, cur: Url)
    requires |date| <= 127
    requires LocationFits(CStr(HttpServer.ErrorResponse(k, date)), cur)
    ensures !IsRedirect(HttpServer.ErrorResponse(k, date))
    ensures NextUrl(HttpServer.ErrorResponse(k, date), cur) == None
  {
    HttpServer.ErrorResponseFraming(k, date);
  }

  // ---------------------------------------------------------------------
  // The command line of `main`

  /** What a successful scan of the command line yields. */
  datatype Arguments = Arguments(params: seq<string>, url: string)

  /** Every parameter is a `name=value` pair (holds a '='). */
  predicate AllAssignments(ps: seq<string>) {
    forall i :: 0 <= i < |ps| ==> '=' in ps[i]
  }

  /**
   * The count after "-r": `strtol` must stop at the end of the argument, and
   * the `long` it yields, stored in an `int`, must not be negative.
   */
  function FlagCount(arg: string): (n: Option<nat>)
    ensures n.Some? <==> StrToL(arg).end == |arg| && ToInt32(StrToL(arg).value) >= 0
    ensures n.Some? ==> n.value == ToInt32(StrToL(arg).value)
  {
    var c := StrToL(arg);
    var n := ToInt32(c.value);
    if c.end != |arg| || n < 0 then None else Some(n)
  }

  /** The decimal spelling of a count up to INT_MAX reads back as that count. */
  lemma FlagCountOfDec(k: nat)
    requires k <= IntMax
    ensures FlagCount(Dec(k)) == Some(k)
  {
    StrToLOfDec(k, []);
    assert Dec(k) + [] == Dec(k);
    var c := StrToL(Dec(k));
    assert c == Conversion(k, |Dec(k)|);
    assert ToInt32(c.value) == k;
  }

  /**
   * What the "-r" branch at index i takes: the count after the flag, then
   * that many arguments holding '='; None is the usage error.
   */
  function FlagParams(args: seq<string>, i: nat): (r: Option<seq<string>>)
    requires i + 1 < |args|
    ensures r.Some? ==> i + 2 + |r.value| <= |args| && AllAssignments(r.value)
    ensures r.Some? ==> r.value == args[i + 2..i + 2 + |r.value|]
    ensures r.Some? ==> FlagCount(args[i + 1]) == Some(|r.value|)
    ensures FlagCount(args[i + 1]).None? ==> r.None?
  {
    match FlagCount(args[i + 1])
    case None => None
    case Some(n) =>
      if i + 2 + n <= |args| && AllAssignments(args[i + 2..i + 2 + n]) then Some(args[i + 2..i + 2 + n])
      else None
  }

  /**
   * The scan of `main`'s loop over argv[1..], from index i and the state it
   * has reached (the parameters it holds, the URL it has seen). "-r" must be
   * followed by a count that `strtol` reads in full and that is not negative
   * once narrowed to `int`, then by that many arguments holding '='; a second
   * "-r" replaces the parameters (an "-r 0" leaves none in use, since only
   * the first `param_count` of them are sent); any other argument is the
   * URL, and a second one is an error, as is reaching the end without one.
   * None is the usage error, exit status 1.
   */
  function ScanArgs(args: seq<string>, i: nat, params: seq<string>, url: Option<string>): Option<Arguments>
    requires i <= |args|
    decreases |args| - i, 1
  {
    if i == |args| then
      if url.None? then None else Some(Arguments(params, url.value))
    else if args[i] == "-r" then ScanFlag(args, i, url)
    else if url.Some? then None
    else ScanArgs(args, i + 1, params, Some(args[i]))
  }

  /** The scan at an "-r": its list replaces the parameters held so far. */
  function ScanFlag(args: seq<string>, i: nat, url: Option<string>): Option<Arguments>
    requires i < |args|
    decreases |args| - i, 0
  {
    if i + 1 == |args| then None
    else match FlagParams(args, i)
      case None => None
      case Some(ps) => ScanArgs(args, i + 2 + |ps|, ps, url)
  }

  /** The command line argv[1..argc] as `main` reads it. */
  function ParseArgs(args: seq<string>): Option<Arguments> {
    ScanArgs(args, 0, [], None)
  }

  /**
   * The inner loop of the "-r" branch: the `count` arguments from `from` on,
   * or None when argv runs out first or one of them has no '='.
   */
  method TakeParams(args: seq<string>, from: nat, count: nat) returns (taken: Option<seq<string>>)
    requires from <= |args|
    ensures taken == if from + count <= |args| && AllAssignments(args[from..from + count])
                     then Some(args[from..from + count]) else None
  {
    var ps: seq<string> := [];
    var j := 0;
    while j < count
      invariant 0 <= j <= count && from + j <= |args|
      invariant ps == args[from..from + j] && AllAssignments(ps)
    {
      if from + j >= |args| {
        return None;
      }
      if '=' !in args[from + j] {
        assert from + count <= |args| ==> args[from..from + count][j] == args[from + j];
        return None;
      }
      ps := ps + [args[from + j]];
      j := j + 1;
    }
    taken := Some(ps);
  }

  /**
   * The "-r" branch of `main`'s loop at index i: the count after the flag,
   * then the parameters it announces, and the index after them.
   */
  method ReadFlag(args: seq<string>, i: nat) returns (taken: Option<seq<string>>, next: nat)
    requires i + 1 < |args|
    ensures taken == FlagParams(args, i)
    ensures taken.Some? ==> next == i + 2 + |taken.value|
  {
    var c := StrToL(args[i + 1]);
    var count := ToInt32(c.value);
    if c.end != |args[i + 1]| || count < 0 {
      assert FlagCount(args[i + 1]).None?;
      return None, i;
    }
    assert FlagCount(args[i + 1]) == Some(count);
    taken := TakeParams(args, i + 2, count);
    next := i + 2 + count;
  }

  /** `main`'s loop over its arguments. */
  method ParseArguments(args: seq<string>) returns (r: Option<Arguments>)
    ensures r == ParseArgs(args)
  {
    var params: seq<string> := [];
    var url: Option<string> := None;
    var i := 0;
    while i < |args|
      invariant 0 <= i <= |args|
      invariant ScanArgs(args, i, params, url) == ParseArgs(args)
    {
      if args[i] == "-r" {
        if i + 1 >= |args| {
          ScanAtFlagFails(args, i, params, url);
          return None;
        }
        var taken, next := ReadFlag(args, i);
        ScanAtRead(args, i, params, url, taken, next);
        if taken.None? {
          return None;
        }
        params := taken.value;
        i := next;
      } else {
        if url.Some? {
          ScanAtSecondUrl(args, i, params, url);
          return None;
        }
        ScanAtUrl(args, i, params);
        url := Some(args[i]);
        i := i + 1;
      }
    }
    if url.None? {
      return None;
    }
    r := Some(Arguments(params, url.value));
  }

  /** What a scan accepts: parameters that are all assignments and a URL that is not "-r". */
  lemma {:induction false} ScanArgsSound(args: seq<string>, i: nat, params: seq<string>, url: Option<string>)
    requires i <= |args|
    requires AllAssignments(params) && (url.Some? ==> url.value != "-r")
    ensures var r := ScanArgs(args, i, params, url);
      r.Some? ==>
        && AllAssignments(r.value.params)
        && r.value.url != "-r"
        && (url.None? ==> r.value.url in args)
        && (url.Some? ==> r.value.url == url.value)
    decreases |args| - i
  {
    if i == |args| {
      return;
    }
    if args[i] == "-r" {
      if i + 1 < |args| && FlagParams(args, i).Some? {
        var ps := FlagParams(args, i).value;
        ScanAtFlag(args, i, ps, params, url);
        ScanArgsSound(args, i + 2 + |ps|, ps, url);
      } else {
        ScanAtFlagFails(args, i, params, url);
      }
    } else if url.None? {
      ScanAtUrl(args, i, params);
      ScanArgsSound(args, i + 1, params, Some(args[i]));
    } else {
      ScanAtSecondUrl(args, i, params, url);
    }
  }

  /** Whatever `main` accepts names one URL and only `name=value` parameters. */
  lemma ParseArgsSound(args: seq<string>)
    ensures ParseArgs(args).Some? ==>
              AllAssignments(ParseArgs(args).value.params) && ParseArgs(args).value.url in args
              && ParseArgs(args).value.url != "-r"
  {
    ScanArgsSound(args, 0, [], None);
  }

  /** The "-r" list read back: a count that reads as the number of parameters, then the parameters. */
  lemma FlagParamsOf(args: seq<string>, i: nat, ps: seq<string>)
    requires i + 2 + |ps| <= |args| && args[i + 2..i + 2 + |ps|] == ps
    requires AllAssignments(ps) && FlagCount(args[i + 1]) == Some(|ps|)
    ensures FlagParams(args, i) == Some(ps)
  {
  }

  /** The scan at an "-r" that takes the parameters `ps` goes on after them. */
  lemma ScanAtFlag(args: seq<string>, i: nat, ps: seq<string>, params: seq<string>, url: Option<string>)
    requires i + 1 < |args| && args[i] == "-r" && FlagParams(args, i) == Some(ps)
    ensures ScanArgs(args, i, params, url) == ScanArgs(args, i + 2 + |ps|, ps, url)
  {
  }

  /** The scan at an "-r" once `ReadFlag` has read its list, or found it missing. */
  lemma ScanAtRead(args: seq<string>, i: nat, params: seq<string>, url: Option<string>,
                   taken: Option<seq<string>>, next: nat)
    requires i + 1 < |args| && args[i] == "-r" && taken == FlagParams(args, i)
    requires taken.Some? ==> next == i + 2 + |taken.value|
    ensures taken.None? ==> ScanArgs(args, i, params, url).None?
    ensures taken.Some? ==> next <= |args| && ScanArgs(args, i, params, url) == ScanArgs(args, next, taken.value, url)
  {
    if taken.None? {
      ScanAtFlagFails(args, i, params, url);
    } else {
      ScanAtFlag(args, i, taken.value, params, url);
    }
  }

  /** The scan at an "-r" with no count after it, or whose list is not there: a usage error. */
  lemma ScanAtFlagFails(args: seq<string>, i: nat, params: seq<string>, url: Option<string>)
    requires i < |args| && args[i] == "-r" && (i + 1 == |args| || FlagParams(args, i).None?)
    ensures ScanArgs(args, i, params, url).None?
  {
  }

  /** The scan at a plain argument after the URL: a usage error. */
  lemma ScanAtSecondUrl(args: seq<string>, i: nat, params: seq<string>, url: Option<string>)
    requires i < |args| && args[i] != "-r" && url.Some?
    ensures ScanArgs(args, i, params, url).None?
  {
  }

  /** The scan at the first plain argument takes it as the URL. */
  lemma ScanAtUrl(args: seq<string>, i: nat, params: seq<string>)
    requires i < |args| && args[i] != "-r"
    ensures ScanArgs(args, i, params, None) == ScanArgs(args, i + 1, params, Some(args[i]))
  {
  }

  /**
   * The usage line read back: "-r", a count that reads as the number of
   * parameters (such as its decimal spelling, by FlagCountOfDec), the
   * parameters, then the URL; or the URL first and the "-r" list after it.
   */
  lemma ParseArgsOfUsage(ps: seq<string>, count: string, url: string)
    requires AllAssignments(ps) && url != "-r" && FlagCount(count) == Some(|ps|)
    ensures ParseArgs(["-r", count] + ps + [url]) == Some(Arguments(ps, url))
    ensures ParseArgs([url, "-r", count] + ps) == Some(Arguments(ps, url))
  {
    FlagFirst(ps, count, url, ["-r", count] + ps + [url]);
    UrlFirst(ps, count, url, [url, "-r", count] + ps);
  }

  /** `ParseArgsOfUsage` with the "-r" list first. */
  lemma FlagFirst(ps: seq<string>, count: string, url: string, a: seq<string>)
    requires AllAssignments(ps) && url != "-r" && FlagCount(count) == Some(|ps|)
    requires a == ["-r", count] + ps + [url]
    ensures ParseArgs(a) == Some(Arguments(ps, url))
  {
    var n := |ps|;
    assert a[0] == "-r" && a[1] == count && a[2..2 + n] == ps && a[2 + n] == url;
    FlagParamsOf(a, 0, ps);
    ScanAtFlag(a, 0, ps, [], None);
    ScanAtUrl(a, 2 + n, ps);
  }

  /** `ParseArgsOfUsage` with the URL first. */
  lemma UrlFirst(ps: seq<string>, count: string, url: string, b: seq<string>)
    requires AllAssignments(ps) && url != "-r" && FlagCount(count) == Some(|ps|)
    requires b == [url, "-r", count] + ps
    ensures ParseArgs(b) == Some(Arguments(ps, url))
  {
    var n := |ps|;
    assert b[0] == url && b[1] == "-r" && b[2] == count && b[3..3 + n] == ps;
    ScanAtUrl(b, 0, []);
    FlagParamsOf(b, 1, ps);
    ScanAtFlag(b, 1, ps, [], Some(url));
  }

  /** Two plain arguments mean two URLs: a usage error. */
  lemma ParseArgsTwoUrls(a: string, b: string, rest: seq<string>)
    requires a != "-r" && b != "-r"
    ensures ParseArgs([a, b] + rest) == None
  {
    var args := [a, b] + rest;
    assert args[0] == a && args[1] == b;
    assert ParseArgs(args) == ScanArgs(args, 1, [], Some(a));
  }

  /** A command line with only the "-r" list has no URL: a usage error. */
  lemma ParseArgsNoUrl(ps: seq<string>, count: string)
    requires AllAssignments(ps) && FlagCount(count) == Some(|ps|)
    ensures ParseArgs(["-r", count] + ps) == None
  {
    var a := ["-r", count] + ps;
    assert a[0] == "-r" && a[1] == count && a[2..2 + |ps|] == ps;
    FlagParamsOf(a, 0, ps);
    ScanAtFlag(a, 0, ps, [], None);
  }

  /** A count larger than the arguments after it is a usage error. */
  lemma ParseArgsShortList(ps: seq<string>, count: string, k: nat)
    requires |ps| < k && FlagCount(count) == Some(k)
    ensures ParseArgs(["-r", count] + ps) == None
  {
    var a := ["-r", count] + ps;
    assert a[0] == "-r" && a[1] == count && k > |a| - 2;
    assert FlagParams(a, 0).None?;
    ScanAtFlagFails(a, 0, [], None);
  }

  /** A count that `strtol` does not read to its end is a usage error. */
  lemma ParseArgsBadCount(count: string, rest: seq<string>)
    requires StrToL(count).end != |count|
    ensures ParseArgs(["-r", count] + rest) == None
  {
    var a := ["-r", count] + rest;
    assert a[0] == "-r" && a[1] == count;
    assert FlagParams(a, 0).None?;
    ScanAtFlagFails(a, 0, [], None);
  }

  /** What `main` hands to `send_request`: the parsed URL and the parameters. */
  datatype Start = Start(url: Url, params: seq<string>)

  /** `main` up to `send_request`: the argument scan, then `parse_url` of the URL. */
  function Startup(args: seq<string>): (r: Option<Start>)
    ensures r.Some? ==> Parsed(r.value.url) && AllAssignments(r.value.params)
  {
    ParseArgsSound(args);
    match ParseArgs(args)
    case None => None
    case Some(a) =>
      match ParseUrl(a.url)
      case None => None
      case Some(u) => Some(Start(u, a.params))
  }

  /** A command line spelled from a URL and its parameters starts that request. */
  lemma StartupOfUsage(u: Url, ps: seq<string>)
    requires WellFormed(u) && AllAssignments(ps) && |ps| <= IntMax
    ensures Startup(["-r", Dec(|ps|)] + ps + [UrlText(u)]) == Some(Start(u, ps))
  {
    assert UrlText(u)[0] == 'h';
    FlagCountOfDec(|ps|);
    ParseArgsOfUsage(ps, Dec(|ps|), UrlText(u));
    ParseUrlText(u);
  }
}
