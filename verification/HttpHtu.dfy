/** The `htu` claim of an HTTP management call, as the Python and the Go SDK each split the URL. */
module HttpHtu {
  import opened Bytes
  import opened JsonNumbers
  import opened Utf

  const SLASH: nat := 47
  const QUERY: nat := 63
  const HASH: nat := 35
  const AT: nat := 64
  const COLON: nat := 58
  const OPEN: nat := 91
  const CLOSE: nat := 93
  const SEP: Text := [58, 47, 47]
  const HTTP: Text := [104, 116, 116, 112]
  const HTTPS: Text := [104, 116, 116, 112, 115]

  /** What ends the authority, and what ends the path. */
  const CUTS: seq<nat> := [SLASH, QUERY, HASH]
  const TAIL_CUTS: seq<nat> := [QUERY, HASH]

  predicate Visible(s: Text) {
    forall i :: 0 <= i < |s| ==> 0x21 <= s[i] <= 0x7E
  }

  // ── Searching ─────────────────────────────────────────────────────────────────────────────────

  /** The first place of any of `cs`, or the end: what Go's `IndexAny` finds. */
  function IndexAny(s: Text, cs: seq<nat>): (i: nat)
    ensures i <= |s| && (i < |s| ==> s[i] in cs) && forall j :: 0 <= j < i ==> s[j] !in cs
  {
    if s == [] || s[0] in cs then 0 else 1 + IndexAny(s[1..], cs)
  }

  /** The least of the places of each, or the end: how Python takes the minimum of `find`s. */
  function LeastFind(s: Text, cs: seq<nat>): (i: nat)
    ensures i <= |s|
  {
    if cs == [] then |s|
    else
      var here, others := Find(s, cs[0]), LeastFind(s, cs[1..]);
      if here < others then here else others
  }

  lemma {:induction false} CutsAgree(s: Text, cs: seq<nat>)
    ensures LeastFind(s, cs) == IndexAny(s, cs)
  {
    if cs != [] {
      CutsAgree(s, cs[1..]);
      assert forall c :: c in cs <==> c == cs[0] || c in cs[1..];
      var i, here, others := IndexAny(s, cs), Find(s, cs[0]), IndexAny(s, cs[1..]);
      if i < |s| {
        assert s[i] == cs[0] || s[i] in cs[1..];
      }
    }
  }

  /** The first place of `://`, or the end. */
  function FindSep(s: Text): (i: nat)
    ensures i <= |s| && (i < |s| ==> i + 3 <= |s| && s[i] == 58 && s[i + 1] == 47 && s[i + 2] == 47)
  {
    if s == [] || (|s| >= 3 && s[0] == 58 && s[1] == 47 && s[2] == 47) then 0 else 1 + FindSep(s[1..])
  }

  // ── Splitting ─────────────────────────────────────────────────────────────────────────────────

  datatype Split = Split(scheme: Text, host: Text, port: Option<nat>, path: Text)

  predicate AllDigits(s: Text) {
    forall i :: 0 <= i < |s| ==> IsDigit(s[i])
  }

  /** One to five digits of at most 65535; an empty port is none. */
  function PortOf(text: Text): (r: Option<Option<nat>>) {
    if text == [] then Some(None)
    else if |text| > 5 || !AllDigits(text) then None
    else
      var n := NumOf(text);
      if n > 65535 then None else Some(Some(n))
  }

  /** The host and the port text of an authority. */
  function HostPort(authority: Text): (r: Option<(Text, Text)>) {
    if authority != [] && authority[0] == OPEN then
      var close := Find(authority, CLOSE);
      if close == |authority| || close < 2 then None
      else
        var after := authority[close + 1..];
        if after == [] then Some((authority[..close + 1], []))
        else if after[0] != COLON then None
        else Some((authority[..close + 1], after[1..]))
    else
      var colon := Find(authority, COLON);
      if colon == |authority| then Some((authority, []))
      else
        var port := authority[colon + 1..];
        if Find(port, COLON) < |port| then None else Some((authority[..colon], port))
  }

  /** The parts of an authority and a path, the authority without userinfo. */
  function SplitAuthority(scheme: Text, authority: Text, path: Text): (r: Option<Split>) {
    var hostPort := HostPort(authority);
    if Find(authority, AT) < |authority| || hostPort.None? || hostPort.value.0 == [] then None
    else
      var port := PortOf(hostPort.value.1);
      if port.None? then None
      else Some(Split(scheme, Lower(hostPort.value.0), port.value, if path == [] then [SLASH] else path))
  }

  function PythonRest(scheme: Text, rest: Text): (r: Option<Split>) {
    var cut := LeastFind(rest, CUTS);
    var authority, tail := rest[..cut], rest[cut..];
    SplitAuthority(scheme, authority, tail[..LeastFind(tail, TAIL_CUTS)])
  }

  /** The Python splitter, down to the parts it puts together again. */
  function PythonSplit(url: Text): (r: Option<Split>) {
    var sep := FindSep(url);
    if url == [] || !Visible(url) || sep == |url| then None
    else
      var scheme, rest := Lower(url[..sep]), url[sep + 3..];
      if scheme != HTTP && scheme != HTTPS then None else PythonRest(scheme, rest)
  }

  function DefaultPort(scheme: Text): (r: nat) {
    if scheme == HTTPS then 443 else 80
  }

  function PortText(port: Option<nat>, unless: nat): (r: Text) {
    if port.Some? && port.value != unless then [COLON] + DecDigits(port.value) else []
  }

  function Render(s: Split): (r: Text) {
    HTTPS + SEP + (s.host + (PortText(s.port, DefaultPort(s.scheme)) + s.path))
  }

  function PythonHtu(url: Text): (r: Option<Text>) {
    var s := PythonSplit(url);
    if s.None? then None else Some(Render(s.value))
  }

  // ── The Go splitter ───────────────────────────────────────────────────────────────────────────

  method GoHostPort(authority: Text) returns (r: Option<(Text, Text)>)
    ensures r == HostPort(authority)
  {
    var host: Text, portText: Text := [], [];
    if authority != [] && authority[0] == OPEN {
      var closeAt := Find(authority, CLOSE);
      if closeAt == |authority| || closeAt < 2 {
        return None;
      }
      host := authority[..closeAt + 1];
      var after := authority[closeAt + 1..];
      if after != [] && after[0] != COLON {
        return None;
      }
      if after != [] {
        portText := after[1..];
      }
    } else {
      var colon := Find(authority, COLON);
      if colon == |authority| {
        host := authority;
      } else {
        host, portText := authority[..colon], authority[colon + 1..];
        if COLON in portText {
          return None;
        }
      }
    }
    r := Some((host, portText));
  }

  method GoAuthority(portText: Text, scheme: Text, host: Text) returns (auth: Option<Text>)
    ensures auth.None? <==> PortOf(portText).None?
    ensures auth.Some? ==> auth.value == host + PortText(PortOf(portText).value, DefaultPort(scheme))
  {
    if portText == [] {
      assert host + [] == host;
      return Some(host);
    }
    if !(1 <= |portText| <= 5 && AllDigits(portText)) {
      return None;
    }
    var port := NumOf(portText);
    if port > 65535 {
      return None;
    }
    var def := 80;
    if scheme == HTTPS {
      def := 443;
    }
    var result := host;
    if port != def {
      result := host + [COLON] + DecDigits(port);
    }
    assert host + [] == host && host + ([COLON] + DecDigits(port)) == host + [COLON] + DecDigits(port);
    auth := Some(result);
  }

  method GoRest(scheme: Text, rest: Text) returns (r: Option<Text>)
    ensures r.None? <==> PythonRest(scheme, rest).None?
    ensures r.Some? ==> r.value == Render(PythonRest(scheme, rest).value)
  {
    var cut := IndexAny(rest, CUTS);
    CutsAgree(rest, CUTS);
    var authority, tail := rest[..cut], rest[cut..];
    var path := tail[..IndexAny(tail, TAIL_CUTS)];
    CutsAgree(tail, TAIL_CUTS);
    if AT in authority {
      return None;
    }
    var hostPort := GoHostPort(authority);
    if hostPort.None? || hostPort.value.0 == [] {
      return None;
    }
    var host := Lower(hostPort.value.0);
    var auth := GoAuthority(hostPort.value.1, scheme, host);
    if auth.None? {
      return None;
    }
    if path == [] {
      path := [SLASH];
    }
    r := Some(HTTPS + SEP + (auth.value + path));
    Assoc(host, PortText(PortOf(hostPort.value.1).value, DefaultPort(scheme)), path);
  }

  /** The Go splitter, branch by branch, gives what the Python one gives on every string. */
  method GoHtu(url: Text) returns (r: Option<Text>)
    ensures r == PythonHtu(url)
  {
    if !(url != [] && Visible(url)) {
      return None;
    }
    var sep := FindSep(url);
    if sep == |url| {
      return None;
    }
    var scheme, rest := Lower(url[..sep]), url[sep + 3..];
    if scheme != HTTP && scheme != HTTPS {
      return None;
    }
    r := GoRest(scheme, rest);
  }

  // ── Applying it again ─────────────────────────────────────────────────────────────────────────

  predicate HostChar(c: nat) {
    0x21 <= c <= 0x7E && c != '@' as int && c != '/' as int && c != '?' as int && c != '#' as int
  }

  predicate HostChars(s: Text) {
    forall i :: 0 <= i < |s| ==> HostChar(s[i])
  }

  /** What a splitter's host looks like: bracketed up to its first closing bracket, or without a colon. */
  predicate HostShape(host: Text) {
    host != [] && if host[0] == '[' as int then |host| >= 3 && Find(host, ']' as int) == |host| - 1 else Find(host, ':' as int) == |host|
  }

  predicate PathOk(path: Text) {
    path != [] && path[0] == '/' as int && Visible(path) && forall i :: 0 <= i < |path| ==> path[i] != '?' as int && path[i] != '#' as int
  }

  predicate SplitOk(s: Split) {
    && (s.scheme == HTTP || s.scheme == HTTPS)
    && HostChars(s.host) && HostShape(s.host) && Lower(s.host) == s.host
    && (s.port.Some? ==> s.port.value <= 65535)
    && PathOk(s.path)
  }

  lemma LowerTwice(s: Text)
    ensures Lower(Lower(s)) == Lower(s)
  {
    assert forall i :: 0 <= i < |s| ==> Lower(Lower(s))[i] == Lower(s)[i];
  }

  lemma FindUnique(s: Text, c: nat, i: nat)
    requires i <= |s| && (i < |s| ==> s[i] == c) && forall j :: 0 <= j < i ==> s[j] != c
    ensures Find(s, c) == i
  {
  }

  /** Lower-casing moves no bracket and no colon. */
  lemma LowerFind(s: Text, c: nat)
    requires c == OPEN || c == CLOSE || c == COLON
    ensures Find(Lower(s), c) == Find(s, c)
  {
    FindUnique(Lower(s), c, Find(s, c));
  }

  lemma LowerHostChars(s: Text)
    requires HostChars(s)
    ensures HostChars(Lower(s))
  {
  }

  lemma LoweredHost(host: Text)
    requires HostChars(host) && HostShape(host)
    ensures HostChars(Lower(host)) && HostShape(Lower(host)) && Lower(Lower(host)) == Lower(host)
  {
    LowerTwice(host);
    LowerHostChars(host);
    LowerFind(host, CLOSE);
    LowerFind(host, COLON);
    assert Lower(host)[0] == LowerChar(host[0]);
  }

  lemma HostPortShape(authority: Text)
    requires HostPort(authority).Some? && HostPort(authority).value.0 != []
    ensures HostPort(authority).value.0 <= authority && HostShape(HostPort(authority).value.0)
  {
    var host := HostPort(authority).value.0;
    if authority[0] == OPEN {
      FindUnique(host, CLOSE, |host| - 1);
    } else {
      FindUnique(host, COLON, |host|);
    }
  }

  lemma SplitAuthorityOk(scheme: Text, authority: Text, path: Text)
    requires (scheme == HTTP || scheme == HTTPS) && SplitAuthority(scheme, authority, path).Some?
    requires Visible(authority) && forall i :: 0 <= i < |authority| ==> authority[i] !in CUTS
    requires path == [] || PathOk(path)
    ensures SplitOk(SplitAuthority(scheme, authority, path).value)
  {
    var host := HostPort(authority).value.0;
    HostPortShape(authority);
    assert HostChars(authority) by {
      forall i | 0 <= i < |authority| ensures HostChar(authority[i]) {
        assert authority[i] !in CUTS;
      }
    }
    LoweredHost(host);
  }

  lemma PathPart(tail: Text)
    requires Visible(tail) && (tail == [] || tail[0] in CUTS)
    ensures var path := tail[..LeastFind(tail, TAIL_CUTS)]; path == [] || PathOk(path)
  {
    CutsAgree(tail, TAIL_CUTS);
    assert forall c :: c in CUTS ==> c == SLASH || c in TAIL_CUTS;
  }

  /** Every split has a well-formed host, port and path. */
  lemma PythonRestOk(scheme: Text, rest: Text)
    requires (scheme == HTTP || scheme == HTTPS) && Visible(rest) && PythonRest(scheme, rest).Some?
    ensures SplitOk(PythonRest(scheme, rest).value)
  {
    CutsAgree(rest, CUTS);
    var cut := LeastFind(rest, CUTS);
    var authority, tail := rest[..cut], rest[cut..];
    PathPart(tail);
    SplitAuthorityOk(scheme, authority, tail[..LeastFind(tail, TAIL_CUTS)]);
  }

  /** What an accepted URL has passed. */
  lemma SplitGuards(url: Text)
    requires PythonSplit(url).Some?
    ensures Visible(url) && FindSep(url) < |url|
    ensures var scheme := Lower(url[..FindSep(url)]);
            (scheme == HTTP || scheme == HTTPS) && PythonSplit(url) == PythonRest(scheme, url[FindSep(url) + 3..])
  {
  }

  lemma VisibleFrom(s: Text, k: nat)
    requires Visible(s) && k <= |s|
    ensures Visible(s[k..])
  {
  }

  lemma PythonSplitOk(url: Text)
    requires PythonSplit(url).Some?
    ensures SplitOk(PythonSplit(url).value)
  {
    var sep := FindSep(url);
    SplitGuards(url);
    VisibleFrom(url, sep + 3);
    PythonRestOk(Lower(url[..sep]), url[sep + 3..]);
  }

  lemma {:induction false} FindSepAfter(scheme: Text, rest: Text)
    requires Find(scheme, COLON) == |scheme|
    ensures FindSep(scheme + (SEP + rest)) == |scheme|
  {
    var s := scheme + (SEP + rest);
    if scheme != [] {
      assert s[1..] == scheme[1..] + (SEP + rest);
      assert s[0] == scheme[0];
      FindUnique(scheme[1..], COLON, |scheme| - 1);
      FindSepAfter(scheme[1..], rest);
    }
  }

  lemma {:induction false} IndexAnyAfter(s: Text, rest: Text, cs: seq<nat>)
    requires (forall i :: 0 <= i < |s| ==> s[i] !in cs) && (rest == [] || rest[0] in cs)
    ensures IndexAny(s + rest, cs) == |s|
  {
    if s == [] {
      assert [] + rest == rest;
    } else {
      assert (s + rest)[1..] == s[1..] + rest;
      IndexAnyAfter(s[1..], rest, cs);
    }
  }

  lemma BracketedAgain(host: Text, port: Text)
    requires HostShape(host) && host[0] == OPEN
    ensures HostPort(host).Some? && HostPort(host).value == (host, [])
    ensures HostPort(host + ([COLON] + port)).Some? && HostPort(host + ([COLON] + port)).value == (host, port)
  {
    var with := host + ([COLON] + port);
    FindUnique(with, CLOSE, |host| - 1);
    assert with[..|host|] == host && with[|host|..] == [COLON] + port && ([COLON] + port)[1..] == port;
    assert host[..|host|] == host && host[|host|..] == [];
  }

  lemma PlainAgain(host: Text, port: Text)
    requires HostShape(host) && host[0] != OPEN && Find(port, COLON) == |port|
    ensures HostPort(host).Some? && HostPort(host).value == (host, [])
    ensures HostPort(host + ([COLON] + port)).Some? && HostPort(host + ([COLON] + port)).value == (host, port)
  {
    var with := host + ([COLON] + port);
    FindUnique(with, COLON, |host|);
    assert with[..|host|] == host && with[|host| + 1..] == port;
  }

  /** A port of at most five digits is read back. */
  lemma PortReadsBack(n: nat)
    requires n <= 65535
    ensures PortOf(DecDigits(n)).Some? && PortOf(DecDigits(n)).value == Some(n)
    ensures Find(DecDigits(n), COLON) == |DecDigits(n)| && HostChars(DecDigits(n))
  {
    DecDigitsValue(n);
    FindUnique(DecDigits(n), COLON, |DecDigits(n)|);
    var a, b, c, d := n / 10, n / 10 / 10, n / 10 / 10 / 10, n / 10 / 10 / 10 / 10;
    assert d < 10 && |DecDigits(d)| == 1;
    assert |DecDigits(c)| <= 2;
    assert |DecDigits(b)| <= 3;
    assert |DecDigits(a)| <= 4;
  }

  /** The port that is written out. */
  function Shown(s: Split): (r: Option<nat>) {
    if s.port.Some? && s.port.value != DefaultPort(s.scheme) then s.port else None
  }

  function Authority(s: Split): (r: Text) {
    s.host + PortText(s.port, DefaultPort(s.scheme))
  }

  lemma AuthorityChars(s: Split)
    requires SplitOk(s)
    ensures HostChars(Authority(s)) && Find(Authority(s), AT) == |Authority(s)|
  {
    if Shown(s).Some? {
      PortReadsBack(Shown(s).value);
    }
    FindUnique(Authority(s), AT, |Authority(s)|);
  }

  lemma HostPortAgain(s: Split)
    requires SplitOk(s)
    ensures HostPort(Authority(s)).Some? && HostPort(Authority(s)).value.0 == s.host
    ensures PortOf(HostPort(Authority(s)).value.1) == Some(Shown(s))
  {
    var port := if Shown(s).Some? then DecDigits(Shown(s).value) else [];
    if Shown(s).Some? {
      PortReadsBack(Shown(s).value);
    } else {
      assert Authority(s) == s.host;
    }
    if s.host[0] == OPEN {
      BracketedAgain(s.host, port);
    } else {
      PlainAgain(s.host, port);
    }
  }

  lemma AuthorityAgain(s: Split)
    requires SplitOk(s)
    ensures var again := SplitAuthority(HTTPS, Authority(s), s.path);
            again.Some? && again.value == Split(HTTPS, s.host, Shown(s), s.path)
  {
    AuthorityChars(s);
    HostPortAgain(s);
  }

  lemma RestAgain(s: Split)
    requires SplitOk(s)
    ensures PythonRest(HTTPS, Authority(s) + s.path) == SplitAuthority(HTTPS, Authority(s), s.path)
  {
    var authority := Authority(s);
    var rest := authority + s.path;
    AuthorityChars(s);
    assert SLASH in CUTS && forall c :: HostChar(c) ==> c !in CUTS;
    IndexAnyAfter(authority, s.path, CUTS);
    CutsAgree(rest, CUTS);
    assert rest[..|authority|] == authority && rest[|authority|..] == s.path;
    IndexAnyAfter(s.path, [], TAIL_CUTS);
    assert s.path + [] == s.path && s.path[..|s.path|] == s.path;
    CutsAgree(s.path, TAIL_CUTS);
  }

  lemma SchemeParts(scheme: Text, rest: Text)
    requires Visible(scheme) && Visible(rest) && Find(scheme, COLON) == |scheme|
    ensures var url := scheme + (SEP + rest);
            && url != [] && Visible(url) && FindSep(url) == |scheme| < |url|
            && url[..|scheme|] == scheme && url[|scheme| + 3..] == rest
  {
    FindSepAfter(scheme, rest);
  }

  lemma SplitByParts(url: Text, scheme: Text, rest: Text)
    requires url != [] && Visible(url) && FindSep(url) == |scheme| < |url|
    requires url[..|scheme|] == scheme && url[|scheme| + 3..] == rest && Lower(scheme) == scheme && scheme == HTTPS
    ensures PythonSplit(url) == PythonRest(scheme, rest)
  {
  }

  lemma SchemeAgain(rest: Text)
    requires Visible(rest)
    ensures PythonSplit(HTTPS + (SEP + rest)) == PythonRest(HTTPS, rest)
  {
    FindUnique(HTTPS, COLON, 5);
    SchemeParts(HTTPS, rest);
    assert Lower(HTTPS) == HTTPS;
    SplitByParts(HTTPS + (SEP + rest), HTTPS, rest);
  }

  lemma RenderLayout(s: Split)
    ensures Render(s) == HTTPS + (SEP + (Authority(s) + s.path))
  {
    Assoc(s.host, PortText(s.port, DefaultPort(s.scheme)), s.path);
    Assoc(HTTPS, SEP, Authority(s) + s.path);
  }

  /** Splitting an `htu` gives back its parts. */
  lemma HtuSplits(s: Split)
    requires SplitOk(s)
    ensures PythonSplit(Render(s)).Some? && PythonSplit(Render(s)).value == Split(HTTPS, s.host, Shown(s), s.path)
  {
    AuthorityChars(s);
    RenderLayout(s);
    SchemeAgain(Authority(s) + s.path);
    RestAgain(s);
    AuthorityAgain(s);
  }

  /** The htu determines the host, the path and the port where one is written out, and nothing else of the URL: not its
      scheme, its query or fragment, nor whether a default port was given. */
  lemma HtuDetermines(url: Text, other: Text)
    requires PythonHtu(url).Some? && PythonHtu(other).Some?
    ensures var s, t := PythonSplit(url).value, PythonSplit(other).value;
            PythonHtu(url).value == PythonHtu(other).value <==> s.host == t.host && Shown(s) == Shown(t) && s.path == t.path
  {
    PythonSplitOk(url);
    PythonSplitOk(other);
    HtuSplits(PythonSplit(url).value);
    HtuSplits(PythonSplit(other).value);
    ShownAlike(PythonSplit(url).value);
    ShownAlike(PythonSplit(other).value);
  }

  lemma ShownAlike(s: Split)
    ensures PortText(s.port, DefaultPort(s.scheme)) == if Shown(s).Some? then [COLON] + DecDigits(Shown(s).value) else []
  {
  }

  /** Applying the function to its own output changes nothing, except on an `http` URL with port 443: the output
      drops the scheme that port was not the default of. */
  lemma AppliedAgain(url: Text)
    requires PythonHtu(url).Some?
    ensures var htu, s := PythonHtu(url).value, PythonSplit(url).value;
            && PythonHtu(htu).Some?
            && (PythonHtu(htu).value == htu <==> !(s.scheme == HTTP && s.port == Some(443)))
  {
    var s := PythonSplit(url).value;
    PythonSplitOk(url);
    HtuSplits(s);
    var again := Split(HTTPS, s.host, Shown(s), s.path);
    if s.scheme == HTTP && s.port == Some(443) {
      assert |Render(again)| < |Render(s)|;
    } else {
      assert PortText(again.port, DefaultPort(HTTPS)) == PortText(s.port, DefaultPort(s.scheme));
    }
  }

  // ── The grammar ───────────────────────────────────────────────────────────────────────────────

  /** `scheme "://" host [":" port] [path] [tail]`, the tail being a query, a fragment or both. */
  datatype Url = Url(scheme: Text, host: Text, port: Option<Text>, path: Text, tail: Text)

  function PortPart(u: Url): (r: Text) {
    if u.port.Some? then [58] + u.port.value else []
  }

  function Written(u: Url): (r: Text) {
    u.scheme + (Chars("://") + (u.host + PortPart(u) + (u.path + u.tail)))
  }

  /** A letter, small or capital. */
  predicate Letter(c: nat, small: char) {
    'a' <= small <= 'z' && (c == small as int || c == small as int - 32)
  }

  /** `http` or `https` in any mixture of cases. */
  predicate SchemeOk(s: Text) {
    && 4 <= |s| <= 5 && Letter(s[0], 'h') && Letter(s[1], 't') && Letter(s[2], 't') && Letter(s[3], 'p')
    && (|s| == 5 ==> Letter(s[4], 's'))
  }

  function SchemeOf(u: Url): (r: Text) {
    if |u.scheme| == 5 then HTTPS else HTTP
  }

  predicate PortDigits(s: Text) {
    |s| <= 5 && (forall i :: 0 <= i < |s| ==> 48 <= s[i] <= 57) && (s != [] ==> AllDigits(s) && NumOf(s) <= 65535)
  }

  predicate Grammatical(u: Url) {
    && SchemeOk(u.scheme)
    && HostChars(u.host) && HostShape(u.host)
    && (u.port.Some? ==> PortDigits(u.port.value))
    && (u.path == [] || PathOk(u.path))
    && Visible(u.tail) && (u.tail == [] || u.tail[0] == 63 || u.tail[0] == 35)
  }

  /** The port the URL names, unless it names none or the default of its scheme. */
  function NamedPort(u: Url): (r: Option<nat>)
    requires Grammatical(u)
  {
    if u.port == None || u.port == Some([]) then None
    else
      var n := NumOf(u.port.value);
      if n == (if |u.scheme| == 5 then 443 else 80) then None else Some(n)
  }

  /** Capitals made small. */
  function SmallLetters(s: Text): (r: Text) {
    seq(|s|, i requires 0 <= i < |s| => if 65 <= s[i] <= 90 then s[i] + 32 else s[i])
  }

  /** `https`, the host with its capitals made small, the named port, and the path. */
  function HtuOf(u: Url): (r: Text)
    requires Grammatical(u)
  {
    Chars("https://")
    + (SmallLetters(u.host)
    + ((if NamedPort(u).Some? then Chars(":") + DecDigits(NamedPort(u).value) else [])
    + (if u.path == [] then [47] else u.path)))
  }

  lemma SchemeLowered(u: Url)
    requires SchemeOk(u.scheme)
    ensures Lower(u.scheme) == SchemeOf(u) && Visible(u.scheme) && Find(u.scheme, COLON) == |u.scheme|
  {
    FindUnique(u.scheme, COLON, |u.scheme|);
  }

  lemma SchemeRecognised(s: Text)
    ensures Lower(s) == HTTP || Lower(s) == HTTPS ==> SchemeOk(s)
  {
    assert forall i :: 0 <= i < |s| ==> LowerChar(s[i]) == Lower(s)[i];
  }

  lemma PartsOfAuthority(u: Url)
    requires Grammatical(u)
    ensures var authority := u.host + PortPart(u);
            && HostChars(authority) && Find(authority, AT) == |authority|
            && HostPort(authority).Some?
            && HostPort(authority).value == (u.host, if u.port.Some? then u.port.value else [])
  {
    var authority := u.host + PortPart(u);
    var port := if u.port.Some? then u.port.value else [];
    FindUnique(authority, AT, |authority|);
    FindUnique(port, COLON, |port|);
    if u.port.None? {
      assert authority == u.host;
    }
    if u.host[0] == OPEN {
      BracketedAgain(u.host, port);
    } else {
      PlainAgain(u.host, port);
    }
  }

  lemma PartsOfRest(u: Url, scheme: Text)
    requires Grammatical(u)
    ensures PythonRest(scheme, u.host + PortPart(u) + (u.path + u.tail)) == SplitAuthority(scheme, u.host + PortPart(u), u.path)
  {
    var authority, after := u.host + PortPart(u), u.path + u.tail;
    var rest := authority + after;
    PartsOfAuthority(u);
    assert SLASH in CUTS && QUERY in CUTS && HASH in CUTS && forall c :: HostChar(c) ==> c !in CUTS;
    assert QUERY in TAIL_CUTS && HASH in TAIL_CUTS;
    IndexAnyAfter(authority, after, CUTS);
    CutsAgree(rest, CUTS);
    assert rest[..|authority|] == authority && rest[|authority|..] == after;
    IndexAnyAfter(u.path, u.tail, TAIL_CUTS);
    CutsAgree(after, TAIL_CUTS);
    assert after[..|u.path|] == u.path;
  }

  lemma LiteralChars()
    ensures Chars("://") == SEP && Chars("https://") == HTTPS + SEP && Chars(":") == [COLON]
  {
  }

  lemma PortOfUrl(u: Url)
    requires Grammatical(u)
    ensures var port := PortOf(if u.port.Some? then u.port.value else []);
            port.Some? && PortText(port.value, DefaultPort(SchemeOf(u)))
                       == if NamedPort(u).Some? then Chars(":") + DecDigits(NamedPort(u).value) else []
  {
    LiteralChars();
  }

  lemma HostOfUrl(host: Text)
    ensures Lower(host) == SmallLetters(host)
  {
  }

  lemma RenderOfParts(u: Url, s: Split)
    requires Grammatical(u) && s.host == Lower(u.host) && s.path == (if u.path == [] then [SLASH] else u.path)
    requires PortText(s.port, DefaultPort(s.scheme)) == if NamedPort(u).Some? then Chars(":") + DecDigits(NamedPort(u).value) else []
    ensures Render(s) == HtuOf(u)
  {
    LiteralChars();
    HostOfUrl(u.host);
  }

  lemma SplitOfAuthority(u: Url)
    requires Grammatical(u)
    ensures var s := SplitAuthority(SchemeOf(u), u.host + PortPart(u), u.path); s.Some? && Render(s.value) == HtuOf(u)
  {
    PartsOfAuthority(u);
    PortOfUrl(u);
    RenderOfParts(u, SplitAuthority(SchemeOf(u), u.host + PortPart(u), u.path).value);
  }

  lemma WrittenVisible(u: Url)
    requires Grammatical(u)
    ensures Visible(u.host + PortPart(u) + (u.path + u.tail))
  {
    PartsOfAuthority(u);
  }

  lemma SplitOfUrl(u: Url)
    requires Grammatical(u)
    ensures PythonSplit(Written(u)) == PythonRest(SchemeOf(u), u.host + PortPart(u) + (u.path + u.tail))
  {
    SchemeLowered(u);
    WrittenVisible(u);
    LiteralChars();
    SchemeParts(u.scheme, u.host + PortPart(u) + (u.path + u.tail));
  }

  /** Every URL of the grammar has the htu its parts say: `https`, the host in small letters, the port unless it is
      the default of the URL's own scheme, and the path or `/`; the query and the fragment are left off. */
  lemma HtuOfUrl(u: Url)
    requires Grammatical(u)
    ensures PythonHtu(Written(u)) == Some(HtuOf(u))
  {
    SplitOfUrl(u);
    PartsOfRest(u, SchemeOf(u));
    SplitOfAuthority(u);
  }

  // ── Nothing else is accepted ──────────────────────────────────────────────────────────────────

  lemma AuthorityParts(authority: Text) returns (host: Text, port: Option<Text>)
    requires HostPort(authority).Some? && HostPort(authority).value.0 != []
    ensures host == HostPort(authority).value.0 && authority == host + if port.Some? then [58] + port.value else []
    ensures HostPort(authority).value.1 == if port.Some? then port.value else []
  {
    host := HostPort(authority).value.0;
    HostPortShape(authority);
    port := if authority == host then None else Some(HostPort(authority).value.1);
    assert authority == authority[..|host|] + authority[|host|..];
  }

  lemma PortAccepted(text: Text)
    requires PortOf(text).Some?
    ensures PortDigits(text)
  {
  }

  lemma HostAccepted(scheme: Text, authority: Text, path: Text) returns (host: Text, port: Option<Text>)
    requires SplitAuthority(scheme, authority, path).Some?
    requires Visible(authority) && forall i :: 0 <= i < |authority| ==> authority[i] !in CUTS
    ensures HostChars(host) && HostShape(host) && (port.Some? ==> PortDigits(port.value))
    ensures authority == host + if port.Some? then [58] + port.value else []
  {
    host, port := AuthorityParts(authority);
    HostPortShape(authority);
    PortAccepted(HostPort(authority).value.1);
    forall i | 0 <= i < |authority| ensures HostChar(authority[i]) {
      assert authority[i] !in CUTS;
    }
  }

  lemma CutParts(after: Text, end: nat)
    requires end <= |after| && Visible(after)
    ensures after == after[..end] + after[end..] && Visible(after[end..])
  {
  }

  lemma TailStart(after: Text)
    ensures var end := LeastFind(after, TAIL_CUTS); end < |after| ==> after[end] == 63 || after[end] == 35
  {
    CutsAgree(after, TAIL_CUTS);
  }

  lemma TailAccepted(after: Text)
    requires Visible(after) && (after == [] || after[0] in CUTS)
    ensures var end := LeastFind(after, TAIL_CUTS);
            && after == after[..end] + after[end..] && Visible(after[end..])
            && (after[..end] == [] || PathOk(after[..end]))
            && (after[end..] == [] || after[end..][0] == 63 || after[end..][0] == 35)
  {
    var end := LeastFind(after, TAIL_CUTS);
    PathPart(after);
    CutParts(after, end);
    TailStart(after);
  }

  lemma AuthorityAndTail(rest: Text)
    requires Visible(rest)
    ensures var cut := LeastFind(rest, CUTS);
            && rest == rest[..cut] + rest[cut..] && Visible(rest[..cut]) && Visible(rest[cut..])
            && (forall i :: 0 <= i < |rest[..cut]| ==> rest[..cut][i] !in CUTS)
            && (rest[cut..] == [] || rest[cut..][0] in CUTS)
  {
    CutsAgree(rest, CUTS);
  }

  lemma RestParts(scheme: Text, rest: Text) returns (u: Url)
    requires Visible(rest) && PythonRest(Lower(scheme), rest).Some? && SchemeOk(scheme)
    ensures u.scheme == scheme && Grammatical(u) && rest == u.host + PortPart(u) + (u.path + u.tail)
  {
    AuthorityAndTail(rest);
    var cut := LeastFind(rest, CUTS);
    var authority, after := rest[..cut], rest[cut..];
    var end := LeastFind(after, TAIL_CUTS);
    var host, port := HostAccepted(Lower(scheme), authority, after[..end]);
    TailAccepted(after);
    u := Url(scheme, host, port, after[..end], after[end..]);
  }

  lemma SplitAtSep(url: Text, sep: nat)
    requires sep + 3 <= |url| && url[sep] == 58 && url[sep + 1] == 47 && url[sep + 2] == 47
    ensures url == url[..sep] + (Chars("://") + url[sep + 3..])
  {
    LiteralChars();
    assert url[sep..sep + 3] == SEP;
    assert url == url[..sep] + (url[sep..sep + 3] + url[sep + 3..]);
  }

  lemma WrittenIs(u: Url, url: Text, rest: Text)
    requires url == u.scheme + (Chars("://") + rest) && rest == u.host + PortPart(u) + (u.path + u.tail)
    ensures url == Written(u)
  {
  }

  /** What an accepted URL has passed, in the grammar's terms. */
  predicate Passed(url: Text, sep: nat) {
    && sep + 3 <= |url| && url[sep] == 58 && url[sep + 1] == 47 && url[sep + 2] == 47 && Visible(url)
    && SchemeOk(url[..sep]) && PythonRest(Lower(url[..sep]), url[sep + 3..]).Some?
  }

  lemma AcceptedPassed(url: Text)
    requires PythonSplit(url).Some?
    ensures Passed(url, FindSep(url))
  {
    SplitGuards(url);
    SchemeRecognised(url[..FindSep(url)]);
  }

  lemma UrlOfParts(url: Text, sep: nat) returns (u: Url)
    requires Passed(url, sep)
    ensures Grammatical(u) && url == Written(u)
  {
    VisibleFrom(url, sep + 3);
    u := RestParts(url[..sep], url[sep + 3..]);
    SplitAtSep(url, sep);
    WrittenIs(u, url, url[sep + 3..]);
  }

  /** Whatever is accepted is a URL of the grammar. */
  lemma AcceptedIsGrammatical(url: Text) returns (u: Url)
    requires PythonHtu(url).Some?
    ensures Grammatical(u) && url == Written(u) && PythonHtu(url) == Some(HtuOf(u))
  {
    AcceptedPassed(url);
    u := UrlOfParts(url, FindSep(url));
    HtuOfUrl(u);
  }
}
