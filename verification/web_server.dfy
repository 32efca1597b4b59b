/**
 The request routing of `handle_connection` in
 examples/web-server/src/bin/main.rs, with the socket, the sleep and the file
 system stripped away: a 512-byte request buffer is classified by two literal
 byte prefixes into a status line, a page to serve and whether to sleep first,
 and the response is the status line followed by the page's contents.
 */
module WebServer {
  import opened Rust

  type byte = bv8

  /** Size of the request buffer `[0; 512]`. */
  const BUFFER_SIZE: nat := 512

  /** The bytes of an ASCII string, as a `b"..."` literal denotes them. */
  function AsciiBytes(s: string): (r: seq<byte>)
    requires forall i :: 0 <= i < |s| ==> s[i] as int < 128
    ensures |r| == |s|
    ensures forall i :: 0 <= i < |s| ==> r[i] as int == s[i] as int
  {
    seq(|s|, i requires 0 <= i < |s| => s[i] as int as byte)
  }

  const GET: seq<byte> := AsciiBytes("GET / HTTP/1.1\r\n")
  const SLEEP: seq<byte> := AsciiBytes("GET /sleep HTTP/1.1\r\n")

  const STATUS_OK: string := "HTTP/1.1 200 OK\r\n\r\n"
  const STATUS_NOT_FOUND: string := "HTTP/1.1 404 Not Found\r\n\r\n"
  const HELLO_PAGE: string := "assets/hello.html"
  const NOT_FOUND_PAGE: string := "assets/404.html"

  /** `buffer.starts_with(prefix)`: the buffer is at least as long and agrees byte for byte. */
  function StartsWith(buffer: seq<byte>, prefix: seq<byte>): (r: bool)
    ensures r <==> |prefix| <= |buffer| && forall i :: 0 <= i < |prefix| ==> buffer[i] == prefix[i]
  {
    |prefix| <= |buffer| && buffer[..|prefix|] == prefix
  }

  /** Which branch of the `if`/`else if`/`else` a request takes. */
  datatype Route = Index | SlowIndex | NotFound

  /** What the handler decided: the status line, the file to read, and whether it sleeps first. */
  datatype Decision = Decision(statusLine: string, filename: string, sleeps: bool)

  /** The handler's exchange as seen from outside: the text written back, and whether it slept. */
  datatype Exchange = Exchange(response: string, slept: bool)

  /** No request starts with both prefixes: they differ at byte 5 (a space against `s`). */
  lemma PrefixesDisjoint(buffer: seq<byte>)
    ensures !(StartsWith(buffer, GET) && StartsWith(buffer, SLEEP))
  {
    assert GET[5] == 0x20 && SLEEP[5] == 0x73;
  }

  /**
   The branch taken, testing `GET` first and `SLEEP` second. Because the
   prefixes are disjoint, each 200 branch is taken exactly when its own prefix
   matches, whatever the other one does.
   */
  function Classify(buffer: seq<byte>): (r: Route)
    ensures r == Index <==> StartsWith(buffer, GET)
    ensures r == SlowIndex <==> StartsWith(buffer, SLEEP)
    ensures r == NotFound <==> !StartsWith(buffer, GET) && !StartsWith(buffer, SLEEP)
  {
    PrefixesDisjoint(buffer);
    if StartsWith(buffer, GET) then Index
    else if StartsWith(buffer, SLEEP) then SlowIndex
    else NotFound
  }

  /** The `(status_line, filename)` pair of each branch, and whether the branch sleeps. */
  function DecisionFor(route: Route): (d: Decision)
    ensures d.sleeps <==> route == SlowIndex
    ensures d.statusLine == STATUS_OK <==> route != NotFound
    ensures d.filename == HELLO_PAGE <==> d.statusLine == STATUS_OK
  {
    match route
    case Index => Decision(STATUS_OK, HELLO_PAGE, false)
    case SlowIndex => Decision(STATUS_OK, HELLO_PAGE, true)
    case NotFound => Decision(STATUS_NOT_FOUND, NOT_FOUND_PAGE, false)
  }

  /** The routing decision for a request buffer. */
  function Decide(buffer: seq<byte>): (d: Decision)
    requires |buffer| == BUFFER_SIZE
    ensures StartsWith(buffer, GET) ==> d == Decision(STATUS_OK, HELLO_PAGE, false)
    ensures StartsWith(buffer, SLEEP) ==> d == Decision(STATUS_OK, HELLO_PAGE, true)
    ensures !StartsWith(buffer, GET) && !StartsWith(buffer, SLEEP) ==>
              d == Decision(STATUS_NOT_FOUND, NOT_FOUND_PAGE, false)
    ensures d.sleeps <==> StartsWith(buffer, SLEEP)
  {
    DecisionFor(Classify(buffer))
  }

  /**
   `handle_connection` after the read: decide, sleep if told to, read the
   chosen file (panicking if it is missing) and answer with the status line
   followed by the file's contents. The file system is the map `files`.
   */
  function HandleConnection(buffer: seq<byte>, files: map<string, string>): (r: Run<Exchange>)
    requires |buffer| == BUFFER_SIZE
    ensures r.Panicked? <==> Decide(buffer).filename !in files
    ensures r.Panicked? ==> r.panic == FileNotFound(Decide(buffer).filename)
    ensures r.Done? ==>
              var d := Decide(buffer);
              && |d.statusLine| <= |r.value.response|
              && r.value.response[..|d.statusLine|] == d.statusLine
              && r.value.response[|d.statusLine|..] == files[d.filename]
    ensures r.Done? ==> (r.value.slept <==> StartsWith(buffer, SLEEP))
  {
    var d := Decide(buffer);
    if d.filename in files then Done(Exchange(d.statusLine + files[d.filename], d.sleeps))
    else Panicked(FileNotFound(d.filename))
  }

  /** The same classification with the two 200 branches tested in the opposite order. */
  function ClassifySleepFirst(buffer: seq<byte>): (r: Route)
  {
    if StartsWith(buffer, SLEEP) then SlowIndex
    else if StartsWith(buffer, GET) then Index
    else NotFound
  }

  /** The order of the two 200 branches does not matter. */
  lemma BranchOrderIrrelevant(buffer: seq<byte>)
    ensures Classify(buffer) == ClassifySleepFirst(buffer)
  {
    PrefixesDisjoint(buffer);
  }

  /** A prefix test only looks at as many bytes as the prefix has. */
  lemma StartsWithAgree(b1: seq<byte>, b2: seq<byte>, prefix: seq<byte>, n: nat)
    requires |prefix| <= n <= |b1| && n <= |b2|
    requires b1[..n] == b2[..n]
    ensures StartsWith(b1, prefix) <==> StartsWith(b2, prefix)
  {
    assert b1[..|prefix|] == b1[..n][..|prefix|];
    assert b2[..|prefix|] == b2[..n][..|prefix|];
  }

  /** The decision depends only on the first 21 bytes, the length of the longer prefix. */
  lemma DecidedByRequestLine(b1: seq<byte>, b2: seq<byte>)
    requires |b1| == BUFFER_SIZE && |b2| == BUFFER_SIZE
    requires b1[..|SLEEP|] == b2[..|SLEEP|]
    ensures |SLEEP| == 21
    ensures Decide(b1) == Decide(b2)
  {
    StartsWithAgree(b1, b2, GET, |SLEEP|);
    StartsWithAgree(b1, b2, SLEEP, |SLEEP|);
  }

  /** A response read back as a status line this server emits and the body after it. */
  datatype ParsedResponse = Parsed(statusLine: string, body: string) | Unrecognised

  /** Split a response after whichever of the two status lines begins it. */
  function ParseResponse(response: string): (p: ParsedResponse)
  {
    if |STATUS_OK| <= |response| && response[..|STATUS_OK|] == STATUS_OK then
      Parsed(STATUS_OK, response[|STATUS_OK|..])
    else if |STATUS_NOT_FOUND| <= |response| && response[..|STATUS_NOT_FOUND|] == STATUS_NOT_FOUND then
      Parsed(STATUS_NOT_FOUND, response[|STATUS_NOT_FOUND|..])
    else
      Unrecognised
  }

  /**
   The status line and the file contents are recovered from every response
   the handler writes: the status line is a prefix of the response and the
   contents are all that follows it.
   */
  lemma ResponseRoundTrip(buffer: seq<byte>, files: map<string, string>)
    requires |buffer| == BUFFER_SIZE
    ensures var r := HandleConnection(buffer, files);
            r.Done? ==> ParseResponse(r.value.response) == Parsed(Decide(buffer).statusLine, files[Decide(buffer).filename])
  {
    var r := HandleConnection(buffer, files);
    if r.Done? {
      var d := Decide(buffer);
      var response := r.value.response;
      if d.statusLine == STATUS_NOT_FOUND {
        // the two status lines part at index 9: '2' against '4'
        assert response[9] == STATUS_NOT_FOUND[9] != STATUS_OK[9];
        assert response[..|STATUS_OK|] != STATUS_OK;
      }
    }
  }
}
