/** Reading a secure connect bundle: the loop that collects the wanted zip members,
    `readConfigJSON`, and the two entry points `ExtractProperties` and `readZip`. */
module Bundle {
  import opened Results
  import opened Text
  import opened Strconv
  import Base64
  import Cqlshrc
  import LineScanner
  import opened ZipInfo

  // Names of the zip members the bundle reader wants.
  const CertName := "cert"
  const KeyName := "key"
  const CaCrtName := "ca.crt"
  const ConfigJsonName := "config.json"
  const CqlshrcName := "cqlshrc"
  const WantedNames: set<string> := {CertName, KeyName, CaCrtName, ConfigJsonName, CqlshrcName}

  // Names of the properties `ExtractProperties` returns.
  const PropertyHostname := "hostname"
  const PropertyPort := "port"
  const PropertyKeyspace := "keyspace"
  const PropertyCert := "certPEMBlock"
  const PropertyKey := "keyPemBlock"
  const PropertyCaCrt := "pemCerts"
  const PropertyNames: set<string> :=
    {PropertyHostname, PropertyPort, PropertyKeyspace, PropertyCert, PropertyKey, PropertyCaCrt}

  /** What opening and reading a zip member gives: all its bytes, or a failure of
      `Open` or of `ReadAll`. */
  datatype Body = Readable(bytes: seq<Byte>) | OpenFails | ReadFails

  datatype Member = Member(name: string, body: Body)

  /** The bundle as `zip.OpenReader` sees it: not an openable zip archive, or the
      archive's members in directory order. */
  datatype Archive = Unopenable | Opened(members: seq<Member>)

  datatype BundleError =
    | ArchiveUnopenable
    | MemberOpenFailed(name: string)
    | MemberReadFailed(name: string)
    | ConfigJsonInvalid
    | CqlshrcInvalid(cause: Cqlshrc.CqlshrcError)

  /** The error a wanted member that cannot be read produces. */
  function FailureOf(m: Member): BundleError
  {
    if m.body.OpenFails? then MemberOpenFailed(m.name) else MemberReadFailed(m.name)
  }

  /** One turn of the member loop: a wanted member is read into the map (replacing an
      earlier member of the same name), any other member is skipped. */
  function Keep(files: map<string, seq<Byte>>, m: Member): Result<map<string, seq<Byte>>, BundleError>
  {
    if m.name !in WantedNames then Ok(files)
    else if m.body.Readable? then Ok(files[m.name := m.body.bytes])
    else Err(FailureOf(m))
  }

  /** The map the member loop has built after the given members, or the error it
      returned at. */
  function Collect(members: seq<Member>): (r: Result<map<string, seq<Byte>>, BundleError>)
    ensures r.Ok? ==> r.value.Keys <= WantedNames
    decreases |members|
  {
    if members == [] then Ok(map[])
    else
      var files :- Collect(members[..|members| - 1]);
      Keep(files, members[|members| - 1])
  }

  /** The body of the last member with the given name, if there is one. */
  function Latest(members: seq<Member>, name: string): Option<Body>
    decreases |members|
  {
    if members == [] then None
    else if members[|members| - 1].name == name then Some(members[|members| - 1].body)
    else Latest(members[..|members| - 1], name)
  }

  /** The bytes the last member with the given name holds; none when there is no such
      member (a missing map key reads as a nil slice). */
  function LatestBytes(members: seq<Member>, name: string): seq<Byte>
  {
    match Latest(members, name)
    case Some(Readable(bytes)) => bytes
    case _ => []
  }

  /** The member loop shared by `ExtractProperties` and `readZip`. */
  method ReadMembers(members: seq<Member>) returns (r: Result<map<string, seq<Byte>>, BundleError>)
    ensures r == Collect(members)
  {
    var files: map<string, seq<Byte>> := map[];
    var i := 0;
    while i < |members|
      invariant 0 <= i <= |members|
      invariant Collect(members[..i]) == Ok(files)
    {
      var m := members[i];
      assert members[..i + 1][..i] == members[..i];
      if m.name in WantedNames {
        match m.body {
          case OpenFails =>
            CollectErrorSticks(members, i + 1);
            return Err(MemberOpenFailed(m.name));
          case ReadFails =>
            CollectErrorSticks(members, i + 1);
            return Err(MemberReadFailed(m.name));
          case Readable(buf) =>
            files := files[m.name := buf];
        }
      }
      i := i + 1;
    }
    assert members[..i] == members;
    return Ok(files);
  }

  /** Once the loop has returned an error, later members are never looked at. */
  lemma {:induction false} CollectErrorSticks(members: seq<Member>, k: nat)
    requires k <= |members| && Collect(members[..k]).Err?
    ensures Collect(members) == Collect(members[..k])
    decreases |members| - k
  {
    if k < |members| {
      assert members[..k + 1][..k] == members[..k];
      CollectErrorSticks(members, k + 1);
    } else {
      assert members[..k] == members;
    }
  }

  /** Every wanted member among the first k can be opened and read. */
  predicate ReadableUpTo(members: seq<Member>, k: nat)
    requires k <= |members|
  {
    forall i :: 0 <= i < k && members[i].name in WantedNames ==> members[i].body.Readable?
  }

  /** The loop succeeds exactly when every wanted member can be opened and read. */
  lemma {:induction false} CollectSucceeds(members: seq<Member>)
    ensures Collect(members).Ok? <==> ReadableUpTo(members, |members|)
    decreases |members|
  {
    if members != [] {
      var init := members[..|members| - 1];
      CollectSucceeds(init);
      assert forall i :: 0 <= i < |init| ==> init[i] == members[i];
    }
  }

  /** The loop fails with the error of the first wanted member that cannot be read. */
  lemma CollectFirstFailure(members: seq<Member>, k: nat)
    requires k < |members| && members[k].name in WantedNames && !members[k].body.Readable?
    requires ReadableUpTo(members, k)
    ensures Collect(members) == Err(FailureOf(members[k]))
  {
    assert Collect(members[..k]).Ok? by { ReadablePrefix(members, k); }
    assert Collect(members[..k + 1]) == Err(FailureOf(members[k])) by { FailingMemberStops(members, k); }
    CollectErrorSticks(members, k + 1);
  }

  /** The loop gets past members that can all be read. */
  lemma ReadablePrefix(members: seq<Member>, k: nat)
    requires k <= |members|
    requires ReadableUpTo(members, k)
    ensures Collect(members[..k]).Ok?
  {
    var prefix := members[..k];
    CollectSucceeds(prefix);
    assert forall i :: 0 <= i < |prefix| ==> prefix[i] == members[i];
  }

  /** One step of the above: the member that cannot be read ends the loop. */
  lemma FailingMemberStops(members: seq<Member>, k: nat)
    requires k < |members| && members[k].name in WantedNames && !members[k].body.Readable?
    requires Collect(members[..k]).Ok?
    ensures Collect(members[..k + 1]) == Err(FailureOf(members[k]))
  {
    assert members[..k + 1][..k] == members[..k];
    assert members[..k + 1][k] == members[k];
  }

  /** After a successful loop the map holds exactly the wanted names that occur, each
      with the bytes of the LAST member of that name. */
  lemma {:induction false} CollectContents(members: seq<Member>)
    requires Collect(members).Ok?
    ensures forall name :: name in Collect(members).value <==> name in WantedNames && Latest(members, name).Some?
    ensures forall name :: name in Collect(members).value ==>
      Latest(members, name) == Some(Readable(Collect(members).value[name]))
    decreases |members|
  {
    if members != [] {
      CollectContents(members[..|members| - 1]);
    }
  }

  /** A name absent from the map is absent from the archive's wanted members. */
  lemma {:induction false} LatestNone(members: seq<Member>, name: string)
    ensures Latest(members, name).None? <==> forall i :: 0 <= i < |members| ==> members[i].name != name
    decreases |members|
  {
    if members != [] {
      var init := members[..|members| - 1];
      LatestNone(init, name);
      assert forall i :: 0 <= i < |init| ==> init[i] == members[i];
    }
  }

  /** Members whose names are not wanted make no difference, wherever they are. */
  lemma {:induction false} UnwantedMemberIgnored(a: seq<Member>, m: Member, b: seq<Member>)
    requires m.name !in WantedNames
    ensures Collect(a + [m] + b) == Collect(a + b)
    decreases |b|
  {
    if b == [] {
      assert a + [m] + b == a + [m] && (a + [m])[..|a|] == a && a + b == a;
    } else {
      var init := b[..|b| - 1];
      assert (a + [m] + b)[..|a + [m] + b| - 1] == a + [m] + init;
      assert (a + b)[..|a + b| - 1] == a + init;
      UnwantedMemberIgnored(a, m, init);
    }
  }

  /** The map lookup of the Go code: a missing key reads as an empty (nil) slice. */
  function Lookup(files: map<string, seq<Byte>>, name: string): seq<Byte>
  {
    if name in files then files[name] else []
  }

  /** What the JSON decoder makes of config.json: not a JSON object of the expected
      shape, or an object whose "keyspace" member is a string or is null or absent. */
  datatype ConfigDocument = Malformed | Document(keyspace: Option<string>)

  /** `readConfigJSON`: only the keyspace is taken from config.json; empty input is a
      JSON syntax error, and a null or absent keyspace reads as "". */
  function ReadConfigJson(buf: seq<Byte>, decode: seq<Byte> -> ConfigDocument): (r: Result<string, BundleError>)
    ensures r.Ok? <==> buf != [] && decode(buf).Document?
    ensures r.Err? ==> r.error == ConfigJsonInvalid
    ensures r.Ok? ==> r.value == (if decode(buf).keyspace.Some? then decode(buf).keyspace.value else "")
  {
    if buf == [] then Err(ConfigJsonInvalid)
    else match decode(buf)
      case Malformed => Err(ConfigJsonInvalid)
      case Document(keyspace) => Ok(if keyspace.Some? then keyspace.value else "")
  }

  /** The values both entry points take from a bundle before they shape their result. */
  datatype Extracted = Extracted(hostname: string, port: int, keyspace: string,
                                 cert: seq<Byte>, key: seq<Byte>, caCerts: seq<Byte>)

  /** The steps `ExtractProperties` and `readZip` share: open the archive, collect the
      members, take the keyspace from config.json, then hostname and port from cqlshrc. */
  function Extract(archive: Archive, decode: seq<Byte> -> ConfigDocument): (r: Result<Extracted, BundleError>)
    ensures r.Ok? ==> InInt64(r.value.port)
    ensures r.Ok? ==> Cqlshrc.Complete(r.value.hostname, r.value.port) || r.value.port < 0
  {
    match archive
    case Unopenable => Err(ArchiveUnopenable)
    case Opened(members) =>
      var files :- Collect(members);
      var keyspace :- ReadConfigJson(Lookup(files, ConfigJsonName), decode);
      var c := Cqlshrc.Parse(Lookup(files, CqlshrcName));
      if c.err.Some? then Err(CqlshrcInvalid(c.err.value))
      else Ok(Extracted(c.hostname, c.port, keyspace,
                        Lookup(files, CertName), Lookup(files, KeyName), Lookup(files, CaCrtName)))
  }

  /** A bundle that reads successfully is described by its last member of each wanted
      name: cert, key and ca.crt are taken verbatim (empty when absent), the keyspace is
      config.json's and hostname and port are what cqlshrc yields. */
  lemma ExtractFromLatest(members: seq<Member>, decode: seq<Byte> -> ConfigDocument)
    requires Extract(Opened(members), decode).Ok?
    ensures var e := Extract(Opened(members), decode).value;
      && e.cert == LatestBytes(members, CertName)
      && e.key == LatestBytes(members, KeyName)
      && e.caCerts == LatestBytes(members, CaCrtName)
      && ReadConfigJson(LatestBytes(members, ConfigJsonName), decode) == Ok(e.keyspace)
      && Cqlshrc.Parse(LatestBytes(members, CqlshrcName)) == Cqlshrc.Outcome(e.hostname, e.port, None)
  {
    CollectContents(members);
  }

  /** After a successful loop, looking a wanted name up in the map gives the bytes of
      the last member of that name. */
  lemma LookupIsLatest(members: seq<Member>, name: string)
    requires Collect(members).Ok? && name in WantedNames
    ensures Lookup(Collect(members).value, name) == LatestBytes(members, name)
  {
    CollectContents(members);
  }

  /** config.json is read before cqlshrc: when it is bad, the bundle fails on it whatever
      cqlshrc holds. */
  lemma ConfigJsonErrorFirst(members: seq<Member>, decode: seq<Byte> -> ConfigDocument)
    requires Collect(members).Ok?
    requires ReadConfigJson(LatestBytes(members, ConfigJsonName), decode).Err?
    ensures Extract(Opened(members), decode) == Err(ConfigJsonInvalid)
  {
    LookupIsLatest(members, ConfigJsonName);
  }

  /** A bundle without config.json fails on it, before cqlshrc is looked at. */
  lemma MissingConfigJsonFails(members: seq<Member>, decode: seq<Byte> -> ConfigDocument)
    requires Collect(members).Ok?
    requires forall i :: 0 <= i < |members| ==> members[i].name != ConfigJsonName
    ensures Extract(Opened(members), decode) == Err(ConfigJsonInvalid)
  {
    LatestNone(members, ConfigJsonName);
    ConfigJsonErrorFirst(members, decode);
  }

  /** A bundle without cqlshrc fails for want of both hostname and port. */
  lemma MissingCqlshrcFails(members: seq<Member>, decode: seq<Byte> -> ConfigDocument)
    requires Collect(members).Ok?
    requires ReadConfigJson(LatestBytes(members, ConfigJsonName), decode).Ok?
    requires forall i :: 0 <= i < |members| ==> members[i].name != CqlshrcName
    ensures Extract(Opened(members), decode) == Err(CqlshrcInvalid(Cqlshrc.MissingHostnameAndPort))
  {
    LookupIsLatest(members, ConfigJsonName);
    LookupIsLatest(members, CqlshrcName);
    LatestNone(members, CqlshrcName);
    assert LineScanner.ScanLines([]) == LineScanner.Lines([], false);
  }

  /** The property map `ExtractProperties` returns: the port in decimal, the three
      certificate files in standard base64 (an absent file giving ""). */
  function PropertyMap(e: Extracted): (m: map<string, string>)
    ensures m.Keys == PropertyNames
  {
    map[PropertyHostname := e.hostname,
        PropertyPort := Itoa(e.port),
        PropertyKeyspace := e.keyspace,
        PropertyCert := Base64.Encode(e.cert),
        PropertyKey := Base64.Encode(e.key),
        PropertyCaCrt := Base64.Encode(e.caCerts)]
  }

  /** Every property can be read back: the port parses to the port and each certificate
      value decodes to the file's bytes. */
  lemma PropertyMapDecodes(e: Extracted)
    requires InInt64(e.port)
    ensures ParseInt64(PropertyMap(e)[PropertyPort]) == Ok(e.port)
    ensures Base64.Decode(PropertyMap(e)[PropertyCert]) == Some(e.cert)
    ensures Base64.Decode(PropertyMap(e)[PropertyKey]) == Some(e.key)
    ensures Base64.Decode(PropertyMap(e)[PropertyCaCrt]) == Some(e.caCerts)
  {
    ItoaParseRoundTrip(e.port);
    Base64.DecodeEncode(e.cert);
    Base64.DecodeEncode(e.key);
    Base64.DecodeEncode(e.caCerts);
  }

  /** A certificate file missing from the bundle is exported as the empty string. */
  lemma AbsentFileExportsEmpty(members: seq<Member>, decode: seq<Byte> -> ConfigDocument, name: string)
    requires Extract(Opened(members), decode).Ok?
    requires name in {CertName, KeyName, CaCrtName}
    requires forall i :: 0 <= i < |members| ==> members[i].name != name
    ensures var m := PropertyMap(Extract(Opened(members), decode).value);
      m[if name == CertName then PropertyCert else if name == KeyName then PropertyKey else PropertyCaCrt] == ""
  {
    ExtractFromLatest(members, decode);
    LatestNone(members, name);
  }

  /** The steps `ExtractProperties` and `readZip` share: open the archive, collect the
      wanted members, read `config.json`, then `cqlshrc`; the first failing step returns. */
  method ReadBundle(archive: Archive, decode: seq<Byte> -> ConfigDocument) returns (r: Result<Extracted, BundleError>)
    ensures r == Extract(archive, decode)
  {
    if archive.Unopenable? {
      return Err(ArchiveUnopenable);
    }
    var collected := ReadMembers(archive.members);
    if collected.Err? {
      return Err(collected.error);
    }
    var files := collected.value;
    var keyspace := ReadConfigJson(Lookup(files, ConfigJsonName), decode);
    if keyspace.Err? {
      return Err(keyspace.error);
    }
    var hostname, port, err := Cqlshrc.ReadCqlshrc(Lookup(files, CqlshrcName));
    if err.Some? {
      return Err(CqlshrcInvalid(err.value));
    }
    return Ok(Extracted(hostname, port, keyspace.value,
                        Lookup(files, CertName), Lookup(files, KeyName), Lookup(files, CaCrtName)));
  }

  /** `ExtractProperties`: the bundle's contents as the six textual properties. */
  method ExtractProperties(archive: Archive, decode: seq<Byte> -> ConfigDocument)
    returns (r: Result<map<string, string>, BundleError>)
    ensures r.Ok? <==> Extract(archive, decode).Ok?
    ensures r.Err? ==> r.error == Extract(archive, decode).error
    ensures r.Ok? ==> r.value == PropertyMap(Extract(archive, decode).value)
  {
    var extracted := ReadBundle(archive, decode);
    if extracted.Err? {
      return Err(extracted.error);
    }
    return Ok(PropertyMap(extracted.value));
  }

  /** `readZip`. */
  method ReadZip(archive: Archive, decode: seq<Byte> -> ConfigDocument) returns (r: Result<ZipInfo, BundleError>)
    ensures r.Ok? <==> Extract(archive, decode).Ok?
    ensures r.Err? ==> r.error == Extract(archive, decode).error
    ensures r.Ok? ==> var e := Extract(archive, decode).value;
      r == Ok(NewZipinfo(e.hostname, e.port, e.keyspace, e.cert, e.key, e.caCerts).value)
  {
    var extracted := ReadBundle(archive, decode);
    if extracted.Err? {
      return Err(extracted.error);
    }
    var e := extracted.value;
    var info := NewZipinfo(e.hostname, e.port, e.keyspace, e.cert, e.key, e.caCerts);
    return Ok(info.value);
  }

  /** The two entry points agree: feeding the properties `ExtractProperties` returns to
      `fromProperties` rebuilds what `readZip` returns, whenever the hostname is set. */
  lemma PropertiesRebuildZipInfo(archive: Archive, decode: seq<Byte> -> ConfigDocument)
    requires Extract(archive, decode).Ok? && Extract(archive, decode).value.hostname != ""
    ensures var e := Extract(archive, decode).value;
      var m := PropertyMap(e);
      FromProperties(m[PropertyHostname], m[PropertyPort], m[PropertyKeyspace],
                     m[PropertyCert], m[PropertyKey], m[PropertyCaCrt])
      == NewZipinfo(e.hostname, e.port, e.keyspace, e.cert, e.key, e.caCerts)
  {
    var e := Extract(archive, decode).value;
    FromPropertiesRoundTrip(e.hostname, e.port, e.keyspace, e.cert, e.key, e.caCerts);
  }

  /** They disagree on one kind of bundle: a cqlshrc that sets a negative port and no
      hostname is accepted by both readers, but its properties cannot be read back. */
  lemma EmptyHostnameNotRebuilt(archive: Archive, decode: seq<Byte> -> ConfigDocument)
    requires Extract(archive, decode).Ok? && Extract(archive, decode).value.hostname == ""
    ensures Extract(archive, decode).value.port < 0
    ensures var m := PropertyMap(Extract(archive, decode).value);
      FromProperties(m[PropertyHostname], m[PropertyPort], m[PropertyKeyspace],
                     m[PropertyCert], m[PropertyKey], m[PropertyCaCrt]) == Err(HostnameNotSet)
  {
  }
}
