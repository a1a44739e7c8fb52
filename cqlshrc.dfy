/** `readCqlshrc` (pkg/easycass/filetools.go): the hostname and port of the database
    endpoint, read from the bundle's `cqlshrc` file by a line scan rather than a full
    parse of its format. */
module Cqlshrc {
  import opened Results
  import opened Text
  import opened Strconv
  import opened LineScanner

  /** The errors `readCqlshrc` can return. */
  datatype CqlshrcError =
    | MalformedHostnameLine          // a "hostname" line that is not one `=`-separated pair
    | MalformedPortLine              // a "port" line that is not one `=`-separated pair
    | BadPort(cause: NumError)       // `strconv.ParseInt` rejected the port text
    | TokenTooLong                   // `scanner.Err()` reported `bufio.ErrTooLong`
    | MissingPort
    | MissingHostname
    | MissingHostnameAndPort

  /** The three named results of `readCqlshrc`: hostname, port and err. */
  datatype Outcome = Outcome(hostname: string, port: int, err: Option<CqlshrcError>)

  /** The scan loop's state after a line: still scanning with the current hostname and
      port, or returned (early, successfully or not) with them. */
  datatype Progress =
    | Scanning(hostname: string, port: int)
    | Returned(hostname: string, port: int, err: Option<CqlshrcError>)

  /** Both values are good: the loop returns. */
  predicate Complete(hostname: string, port: int)
  {
    hostname != "" && port > 0
  }

  function AfterChecks(hostname: string, port: int): Progress
  {
    if Complete(hostname, port) then Returned(hostname, port, None) else Scanning(hostname, port)
  }

  /** One iteration of the loop on `line`. A line cannot start with both "hostname" and
      "port", so at most one of the two blocks applies. When `ParseInt` fails the port
      keeps its old value. */
  function ApplyLine(line: string, hostname: string, port: int): (r: Progress)
    ensures r.Scanning? ==> !Complete(r.hostname, r.port)
    ensures r.Returned? && r.err.None? ==> Complete(r.hostname, r.port)
  {
    if "hostname" <= line then
      var segments := Split(line, '=');
      if |segments| != 2 then Returned(hostname, port, Some(MalformedHostnameLine))
      else AfterChecks(TrimSpace(segments[1]), port)
    else if "port" <= line then
      var segments := Split(line, '=');
      if |segments| != 2 then Returned(hostname, port, Some(MalformedPortLine))
      else
        match ParseInt64(TrimSpace(segments[1]))
        case Err(e) => Returned(hostname, port, Some(BadPort(e)))
        case Ok(port64) => AfterChecks(hostname, port64)
    else AfterChecks(hostname, port)
  }

  /** The loop over `lines`, starting from the given hostname and port. */
  function Scan(lines: seq<string>, hostname: string, port: int): (r: Progress)
    requires !Complete(hostname, port)
    ensures r.Scanning? ==> !Complete(r.hostname, r.port)
    ensures r.Returned? && r.err.None? ==> Complete(r.hostname, r.port)
    ensures r.Scanning? ==> InInt64(port) ==> InInt64(r.port)
    ensures r.Returned? ==> InInt64(port) ==> InInt64(r.port)
  {
    if lines == [] then Scanning(hostname, port)
    else
      match ApplyLine(lines[0], hostname, port)
      case Returned(h, p, e) => Returned(h, p, e)
      case Scanning(h, p) => Scan(lines[1..], h, p)
  }

  /** The `switch` after the loop: which value is missing. A negative port matches none
      of its cases. */
  function MissingValue(hostname: string, port: int): Option<CqlshrcError>
  {
    if hostname != "" && port == 0 then Some(MissingPort)
    else if hostname == "" && port > 0 then Some(MissingHostname)
    else if hostname == "" && port == 0 then Some(MissingHostnameAndPort)
    else None
  }

  /** `readCqlshrc` on the scanner's lines and its final error: an early return stands;
      otherwise a scanner error comes first, then the `switch`. */
  function ParseLines(lines: seq<string>, tooLong: bool): (r: Outcome)
    ensures InInt64(r.port)
    ensures r.err.None? ==> Complete(r.hostname, r.port) || r.port < 0
  {
    match Scan(lines, "", 0)
    case Returned(h, p, e) => Outcome(h, p, e)
    case Scanning(h, p) =>
      if tooLong then Outcome(h, p, Some(TokenTooLong)) else Outcome(h, p, MissingValue(h, p))
  }

  /** `readCqlshrc(buf)`. */
  function Parse(buf: seq<Byte>): (r: Outcome)
    ensures InInt64(r.port)
    ensures r.err.None? ==> Complete(r.hostname, r.port) || r.port < 0
    ensures buf == [] ==> r == Outcome("", 0, Some(MissingHostnameAndPort))
  {
    ParseLines(ScanLines(buf).lines, ScanLines(buf).tooLong)
  }

  /** A line after which the loop goes on leaves the rest of the scan to the next line. */
  lemma ScanStep(lines: seq<string>, hostname: string, port: int)
    requires lines != [] && !Complete(hostname, port)
    requires ApplyLine(lines[0], hostname, port).Scanning?
    ensures Scan(lines, hostname, port) ==
      Scan(lines[1..], ApplyLine(lines[0], hostname, port).hostname, ApplyLine(lines[0], hostname, port).port)
  {
  }

  /** `readCqlshrc`: scans the lines, updating `hostname` and `port` in place, and returns
      as soon as both are good. */
  method ReadCqlshrc(buf: seq<Byte>) returns (hostname: string, port: int, err: Option<CqlshrcError>)
    ensures Outcome(hostname, port, err) == Parse(buf)
    ensures err.None? ==> Complete(hostname, port) || port < 0
    ensures InInt64(port)
  {
    var scanner := ScanLines(buf);
    var lines := scanner.lines;
    hostname, port, err := "", 0, None;
    var i := 0;
    while i < |lines|
      invariant 0 <= i <= |lines|
      invariant !Complete(hostname, port) && InInt64(port)
      invariant Scan(lines, "", 0) == Scan(lines[i..], hostname, port)
    {
      var line := lines[i];
      ghost var before := (hostname, port);
      if "hostname" <= line {
        var segments := Split(line, '=');
        if |segments| != 2 {
          err := Some(MalformedHostnameLine);
          return;
        }
        hostname := TrimSpace(segments[1]);
      }
      if "port" <= line {
        var segments := Split(line, '=');
        if |segments| != 2 {
          err := Some(MalformedPortLine);
          return;
        }
        var port64 := ParseInt64(TrimSpace(segments[1]));
        if port64.Err? {
          err := Some(BadPort(port64.error));
          return;
        }
        port := port64.value;
      }
      if hostname != "" && port > 0 {
        return;
      }
      assert ApplyLine(line, before.0, before.1) == Scanning(hostname, port);
      ScanStep(lines[i..], before.0, before.1);
      assert lines[i..][1..] == lines[i + 1..];
      i := i + 1;
    }
    if scanner.tooLong {
      err := Some(TokenTooLong);
      return;
    }
    if hostname != "" && port == 0 {
      err := Some(MissingPort);
    } else if hostname == "" && port > 0 {
      err := Some(MissingHostname);
    } else if hostname == "" && port == 0 {
      err := Some(MissingHostnameAndPort);
    }
  }

  /** The hostname a line sets, if it is a well-formed "hostname" line. */
  function HostnameValue(line: string): Option<string>
  {
    var segments := Split(line, '=');
    if "hostname" <= line && |segments| == 2 then Some(TrimSpace(segments[1])) else None
  }

  /** The port a line sets, if it is a well-formed "port" line with a parsable number. */
  function PortValue(line: string): Option<int>
  {
    var segments := Split(line, '=');
    if "port" <= line && |segments| == 2 && ParseInt64(TrimSpace(segments[1])).Ok?
    then Some(ParseInt64(TrimSpace(segments[1])).value)
    else None
  }

  /** The loop is compositional: scanning `a + b` is scanning `a`, then, unless the loop
      returned inside `a`, scanning `b` from where `a` left off. */
  lemma {:induction false} ScanAppend(a: seq<string>, b: seq<string>, hostname: string, port: int)
    requires !Complete(hostname, port)
    ensures Scan(a + b, hostname, port) ==
      if Scan(a, hostname, port).Returned? then Scan(a, hostname, port)
      else Scan(b, Scan(a, hostname, port).hostname, Scan(a, hostname, port).port)
  {
    if a == [] {
      assert a + b == b;
    } else {
      assert (a + b)[0] == a[0] && (a + b)[1..] == a[1..] + b;
      var r := ApplyLine(a[0], hostname, port);
      if r.Scanning? {
        ScanAppend(a[1..], b, r.hostname, r.port);
      }
    }
  }

  /** The first line at which the loop returns decides the result, whatever follows it
      and whatever the scanner reports afterwards. */
  lemma FirstReturnDecides(lines: seq<string>, k: nat, tooLong: bool)
    requires k < |lines| && Scan(lines[..k], "", 0).Scanning?
    requires ApplyLine(lines[k], Scan(lines[..k], "", 0).hostname, Scan(lines[..k], "", 0).port).Returned?
    ensures var r := ApplyLine(lines[k], Scan(lines[..k], "", 0).hostname, Scan(lines[..k], "", 0).port);
            ParseLines(lines, tooLong) == Outcome(r.hostname, r.port, r.err)
  {
    var s := Scan(lines[..k], "", 0);
    assert lines == lines[..k] + lines[k..];
    ScanAppend(lines[..k], lines[k..], "", 0);
    assert lines[k..][0] == lines[k];
  }

  /** A "hostname" or "port" line reached by the loop that does not hold exactly one '='
      (so none, or two or more) fails the whole parse at once. */
  lemma MalformedLineFails(lines: seq<string>, k: nat, tooLong: bool)
    requires k < |lines| && Scan(lines[..k], "", 0).Scanning?
    requires "hostname" <= lines[k] || "port" <= lines[k]
    requires Count(lines[k], '=') != 1
    ensures ParseLines(lines, tooLong).err ==
      Some(if "hostname" <= lines[k] then MalformedHostnameLine else MalformedPortLine)
  {
    FirstReturnDecides(lines, k, tooLong);
  }

  /** A "port" line reached by the loop whose text after '=' is not a 64-bit base-10
      integer fails the whole parse with `ParseInt`'s error. */
  lemma BadPortFails(lines: seq<string>, k: nat, tooLong: bool)
    requires k < |lines| && Scan(lines[..k], "", 0).Scanning?
    requires "port" <= lines[k] && Count(lines[k], '=') == 1
    requires ParseInt64(TrimSpace(Split(lines[k], '=')[1])).Err?
    ensures ParseLines(lines, tooLong).err == Some(BadPort(ParseInt64(TrimSpace(Split(lines[k], '=')[1])).error))
  {
    FirstReturnDecides(lines, k, tooLong);
  }

  /** Once the loop has returned, later lines (malformed or conflicting ones included)
      and a later scanner error change nothing. */
  lemma LaterLinesIgnored(a: seq<string>, b: seq<string>, tooLong: bool)
    requires Scan(a, "", 0).Returned?
    ensures ParseLines(a + b, tooLong) == ParseLines(a, false)
  {
    ScanAppend(a, b, "", 0);
  }

  /** The same at the level of the file's bytes: text appended after a line at which the
      loop returned cannot change the result. */
  lemma LaterBytesIgnored(x: seq<Byte>, y: seq<Byte>)
    requires |x| > 0 && x[|x| - 1] == Newline && !ScanLines(x).tooLong
    requires Scan(ScanLines(x).lines, "", 0).Returned?
    ensures Parse(x + y) == Parse(x)
  {
    ScanLinesAppend(x, y);
    LaterLinesIgnored(ScanLines(x).lines, ScanLines(y).lines, ScanLines(y).tooLong);
  }

  /** Whatever the loop ends with came from the lines: the hostname is the starting one or
      the trimmed text after '=' on some "hostname" line; the port is the starting one or
      the parsed text after '=' on some "port" line. */
  lemma {:induction false} ScanProvenance(lines: seq<string>, hostname: string, port: int)
    requires !Complete(hostname, port)
    ensures Scan(lines, hostname, port).hostname == hostname ||
      exists i :: 0 <= i < |lines| && HostnameValue(lines[i]) == Some(Scan(lines, hostname, port).hostname)
    ensures Scan(lines, hostname, port).port == port ||
      exists i :: 0 <= i < |lines| && PortValue(lines[i]) == Some(Scan(lines, hostname, port).port)
  {
    if lines != [] {
      var r := ApplyLine(lines[0], hostname, port);
      assert r.hostname == hostname || HostnameValue(lines[0]) == Some(r.hostname);
      assert r.port == port || PortValue(lines[0]) == Some(r.port);
      if r.Scanning? {
        ScanProvenance(lines[1..], r.hostname, r.port);
        var final := Scan(lines[1..], r.hostname, r.port);
        if final.hostname != r.hostname {
          var i :| 0 <= i < |lines[1..]| && HostnameValue(lines[1..][i]) == Some(final.hostname);
          assert lines[i + 1] == lines[1..][i];
        }
        if final.port != r.port {
          var i :| 0 <= i < |lines[1..]| && PortValue(lines[1..][i]) == Some(final.port);
          assert lines[i + 1] == lines[1..][i];
        }
      }
    }
  }

  /** On success the port, and the hostname when it is not empty, are values that lines of
      the file set. */
  lemma SuccessComesFromLines(buf: seq<Byte>)
    requires Parse(buf).err.None?
    ensures Parse(buf).hostname != "" ==>
      exists i :: 0 <= i < |ScanLines(buf).lines| && HostnameValue(ScanLines(buf).lines[i]) == Some(Parse(buf).hostname)
    ensures exists i :: 0 <= i < |ScanLines(buf).lines| && PortValue(ScanLines(buf).lines[i]) == Some(Parse(buf).port)
  {
    ScanProvenance(ScanLines(buf).lines, "", 0);
  }

  /** No error means the loop returned successfully, or the input ran out cleanly with a
      negative port, which none of the end-of-input cases catches. */
  lemma SuccessCases(lines: seq<string>, tooLong: bool)
    ensures ParseLines(lines, tooLong).err.None? <==>
      Scan(lines, "", 0) == Returned(ParseLines(lines, tooLong).hostname, ParseLines(lines, tooLong).port, None) ||
      (Scan(lines, "", 0).Scanning? && !tooLong && Scan(lines, "", 0).port < 0)
  {
  }

  /** When the input runs out without both values, a scanner error is reported first;
      otherwise the error names what is missing, and a negative port gets none. */
  lemma EndOfInputErrors(lines: seq<string>, tooLong: bool)
    requires Scan(lines, "", 0).Scanning?
    ensures var s := Scan(lines, "", 0);
      var err := ParseLines(lines, tooLong).err;
      && (tooLong ==> err == Some(TokenTooLong))
      && (!tooLong && s.hostname != "" && s.port == 0 ==> err == Some(MissingPort))
      && (!tooLong && s.hostname == "" && s.port > 0 ==> err == Some(MissingHostname))
      && (!tooLong && s.hostname == "" && s.port == 0 ==> err == Some(MissingHostnameAndPort))
      && (!tooLong && s.port < 0 ==> err == None)
  {
  }

  /** Some line of `lines` starts with `key`. */
  predicate AnyStartsWith(lines: seq<string>, key: string)
    decreases |lines|
  {
    lines != [] && (key <= lines[0] || AnyStartsWith(lines[1..], key))
  }

  lemma {:induction false} AnyStartsWithIff(lines: seq<string>, key: string)
    ensures AnyStartsWith(lines, key) <==> exists i :: 0 <= i < |lines| && key <= lines[i]
  {
    if lines != [] {
      AnyStartsWithIff(lines[1..], key);
      if AnyStartsWith(lines[1..], key) {
        var i :| 0 <= i < |lines[1..]| && key <= lines[1..][i];
        assert lines[i + 1] == lines[1..][i];
      }
      if exists i :: 0 <= i < |lines| && key <= lines[i] {
        var i :| 0 <= i < |lines| && key <= lines[i];
        if i > 0 {
          assert lines[1..][i - 1] == lines[i];
        }
      }
    }
  }

  /** A line that is consistent with hostname `h` and port `p`: if it is a "hostname"
      line it is well formed and sets `h`, if it is a "port" line it is well formed and
      sets `p`, and otherwise the loop passes over it. */
  predicate Agrees(line: string, h: string, p: int)
  {
    && ("hostname" <= line ==> HostnameValue(line) == Some(h))
    && ("port" <= line ==> PortValue(line) == Some(p))
  }

  /** Over lines that all agree with `h` and `p`, the loop ends with `h` if some line is a
      "hostname" line and `p` if some line is a "port" line (each value otherwise kept),
      returning successfully exactly when those two are good. */
  lemma {:induction false} ScanAgreeing(lines: seq<string>, h: string, p: int, hostname: string, port: int)
    requires forall i :: 0 <= i < |lines| ==> Agrees(lines[i], h, p)
    requires !Complete(hostname, port)
    requires (hostname == "" || hostname == h) && (port == 0 || port == p)
    ensures Scan(lines, hostname, port) ==
      AfterChecks(if AnyStartsWith(lines, "hostname") then h else hostname,
                  if AnyStartsWith(lines, "port") then p else port)
  {
    if lines != [] {
      var line := lines[0];
      assert Agrees(line, h, p);
      assert "hostname" <= line ==> !("port" <= line) by {
        if "hostname" <= line { assert line[0] == 'h'; }
      }
      var r := ApplyLine(line, hostname, port);
      if r.Scanning? {
        assert forall i :: 0 <= i < |lines[1..]| ==> Agrees(lines[1..][i], h, p) by {
          forall i | 0 <= i < |lines[1..]|
            ensures Agrees(lines[1..][i], h, p)
          {
            assert lines[1..][i] == lines[i + 1];
          }
        }
        ScanAgreeing(lines[1..], h, p, r.hostname, r.port);
      }
    }
  }

  /** A file whose only "hostname" line sets a non-empty `h` and whose only "port" line
      sets a positive `p`, in either order and among any other lines, yields exactly `h`
      and `p`, whatever the scanner reports afterwards. */
  lemma BothValuesFound(lines: seq<string>, tooLong: bool, a: nat, b: nat, h: string, p: int)
    requires a < |lines| && "hostname" <= lines[a] && Count(lines[a], '=') == 1
    requires TrimSpace(Split(lines[a], '=')[1]) == h && h != ""
    requires b < |lines| && "port" <= lines[b] && Count(lines[b], '=') == 1
    requires ParseInt64(TrimSpace(Split(lines[b], '=')[1])) == Ok(p) && p > 0
    requires forall i :: 0 <= i < |lines| && i != a ==> !("hostname" <= lines[i])
    requires forall i :: 0 <= i < |lines| && i != b ==> !("port" <= lines[i])
    ensures ParseLines(lines, tooLong) == Outcome(h, p, None)
  {
    assert forall i :: 0 <= i < |lines| ==> Agrees(lines[i], h, p);
    AnyStartsWithIff(lines, "hostname");
    AnyStartsWithIff(lines, "port");
    ScanAgreeing(lines, h, p, "", 0);
  }

  /** A file whose only "hostname" line sets `h` and which has no "port" line reports the
      missing port (both values, when `h` is empty), after any scanner error. */
  lemma OnlyHostnameFound(lines: seq<string>, tooLong: bool, a: nat, h: string)
    requires a < |lines| && "hostname" <= lines[a] && Count(lines[a], '=') == 1
    requires TrimSpace(Split(lines[a], '=')[1]) == h
    requires forall i :: 0 <= i < |lines| && i != a ==> !("hostname" <= lines[i])
    requires forall i :: 0 <= i < |lines| ==> !("port" <= lines[i])
    ensures ParseLines(lines, tooLong) ==
      Outcome(h, 0, Some(if tooLong then TokenTooLong else if h != "" then MissingPort else MissingHostnameAndPort))
  {
    assert forall i :: 0 <= i < |lines| ==> Agrees(lines[i], h, 0);
    AnyStartsWithIff(lines, "hostname");
    AnyStartsWithIff(lines, "port");
    ScanAgreeing(lines, h, 0, "", 0);
  }

  /** A file whose only "port" line sets `p` and which has no "hostname" line reports the
      missing hostname (both values, when `p` is zero), after any scanner error; a
      negative `p` gets no error at all. */
  lemma OnlyPortFound(lines: seq<string>, tooLong: bool, b: nat, p: int)
    requires b < |lines| && "port" <= lines[b] && Count(lines[b], '=') == 1
    requires ParseInt64(TrimSpace(Split(lines[b], '=')[1])) == Ok(p)
    requires forall i :: 0 <= i < |lines| ==> !("hostname" <= lines[i])
    requires forall i :: 0 <= i < |lines| && i != b ==> !("port" <= lines[i])
    ensures ParseLines(lines, tooLong) ==
      Outcome("", p, if tooLong then Some(TokenTooLong)
                     else if p > 0 then Some(MissingHostname)
                     else if p == 0 then Some(MissingHostnameAndPort)
                     else None)
  {
    assert forall i :: 0 <= i < |lines| ==> Agrees(lines[i], "", p);
    AnyStartsWithIff(lines, "hostname");
    AnyStartsWithIff(lines, "port");
    ScanAgreeing(lines, "", p, "", 0);
  }

  /** A file with neither a "hostname" nor a "port" line reports both values missing,
      after any scanner error. */
  lemma NeitherFound(lines: seq<string>, tooLong: bool)
    requires forall i :: 0 <= i < |lines| ==> !("hostname" <= lines[i]) && !("port" <= lines[i])
    ensures ParseLines(lines, tooLong) ==
      Outcome("", 0, Some(if tooLong then TokenTooLong else MissingHostnameAndPort))
  {
    assert forall i :: 0 <= i < |lines| ==> Agrees(lines[i], "", 0);
    AnyStartsWithIff(lines, "hostname");
    AnyStartsWithIff(lines, "port");
    ScanAgreeing(lines, "", 0, "", 0);
  }

  /** "hostname =" followed by text without '=' is a well-formed "hostname" line. */
  lemma HostnameLine(value: string)
    requires '=' !in value
    ensures "hostname" <= "hostname =" + value && !("port" <= "hostname =" + value)
    ensures HostnameValue("hostname =" + value) == Some(TrimSpace(value))
  {
    var line := "hostname =" + value;
    assert line == "hostname " + ['='] + value;
    assert line[0] == 'h';
    SplitPair("hostname ", value, '=');
  }

  /** "port =" followed by text without '=' that parses is a well-formed "port" line. */
  lemma PortLine(value: string)
    requires '=' !in value && ParseInt64(TrimSpace(value)).Ok?
    ensures "port" <= "port =" + value && !("hostname" <= "port =" + value)
    ensures PortValue("port =" + value) == Some(ParseInt64(TrimSpace(value)).value)
  {
    var line := "port =" + value;
    assert line == "port " + ['='] + value;
    assert line[0] == 'p';
    SplitPair("port ", value, '=');
  }

  /** A "hostname" line and a "port" line setting good values, in either order. */
  lemma HostnameAndPortLines(hostLine: string, portLine: string, h: string, p: int, tooLong: bool)
    requires "hostname" <= hostLine && !("port" <= hostLine) && HostnameValue(hostLine) == Some(h) && h != ""
    requires "port" <= portLine && !("hostname" <= portLine) && PortValue(portLine) == Some(p) && p > 0
    ensures ParseLines([hostLine, portLine], tooLong) == Outcome(h, p, None)
    ensures ParseLines([portLine, hostLine], tooLong) == Outcome(h, p, None)
  {
    assert Agrees(hostLine, h, p) && Agrees(portLine, h, p);
    ScanAgreeing([hostLine, portLine], h, p, "", 0);
    ScanAgreeing([portLine, hostLine], h, p, "", 0);
  }

  /** The usual two-line file, in either order: "hostname =" and "port =" followed by
      values without '=' give the trimmed hostname and the parsed port. */
  lemma TwoLineFile(host: string, portText: string, p: int, tooLong: bool)
    requires '=' !in host && '=' !in portText
    requires TrimSpace(host) != ""
    requires ParseInt64(TrimSpace(portText)) == Ok(p) && p > 0
    ensures ParseLines(["hostname =" + host, "port =" + portText], tooLong) == Outcome(TrimSpace(host), p, None)
    ensures ParseLines(["port =" + portText, "hostname =" + host], tooLong) == Outcome(TrimSpace(host), p, None)
  {
    HostnameLine(host);
    PortLine(portText);
    HostnameAndPortLines("hostname =" + host, "port =" + portText, TrimSpace(host), p, tooLong);
  }

  /** Of two "hostname" lines before the "port" line, the later one sets the hostname. */
  lemma LaterHostnameLineWins(first: string, second: string, portText: string, p: int, tooLong: bool)
    requires '=' !in first && '=' !in second && '=' !in portText
    requires TrimSpace(second) != ""
    requires ParseInt64(TrimSpace(portText)) == Ok(p) && p > 0
    ensures ParseLines(["hostname =" + first, "hostname =" + second, "port =" + portText], tooLong)
      == Outcome(TrimSpace(second), p, None)
  {
    var line1, line2, line3 := "hostname =" + first, "hostname =" + second, "port =" + portText;
    HostnameLine(first);
    HostnameLine(second);
    PortLine(portText);
    ScanStep([line1, line2, line3], "", 0);
    assert [line1, line2, line3][1..] == [line2, line3];
    ScanStep([line2, line3], TrimSpace(first), 0);
    assert [line2, line3][1..] == [line3];
    assert Agrees(line3, TrimSpace(second), p);
    ScanAgreeing([line3], TrimSpace(second), p, TrimSpace(second), 0);
  }
}
