# easy-cass-go secure connect bundle reader, in Dafny

This project models how easy-cass-go reads a Cassandra "secure connect bundle". The
bundle is a zip archive holding a client certificate (`cert`), its key (`key`), the CA
certificates (`ca.crt`), a `config.json` and a `cqlshrc` file.

- `ExtractProperties` turns a bundle into six string properties.
- `readZip` turns it into a `zipinfo` (hostname, port, TLS configuration, keyspace).
- `fromProperties` rebuilds a `zipinfo` from the six properties.

Modules:

- `Text`: Go strings as byte strings, plus `strings.HasPrefix` (sequence prefix `<=`),
  `strings.Split` on one separator (for text and for bytes alike) and `strings.TrimSpace`.
- `Strconv`: `strconv.ParseInt(s, 10, 64)` (which is `strconv.Atoi` on a 64-bit `int`) and
  `strconv.Itoa`, with both of `ParseInt`'s errors (`ErrSyntax`, `ErrRange`).
- `Base64`: standard base64 with padding (section 4 of RFC 4648), as
  `base64.StdEncoding.EncodeToString` and `DecodeString` do it. The decoder skips '\r' and
  '\n' and accepts nonzero trailing bits.
- `LineScanner`: `bufio.Scanner` with `ScanLines` over an in-memory buffer.
  - A line ends at '\n', and one trailing '\r' is dropped.
  - A last line without '\n' is delivered when it is not empty.
  - A line of 64 KiB or more stops the scan with `ErrTooLong`.
  - The byte-by-byte scan is proved equal to a reference reading of the input's
    '\n'-separated pieces.
- `Cqlshrc`: `readCqlshrc`, as the loop that updates `hostname` and `port` line by line.
  - A line starting with "hostname" or "port" must split on '=' into exactly two pieces.
  - The port is parsed with `ParseInt`.
  - The loop returns as soon as the hostname is set and the port is positive.
  - At end of input, a scanner error is reported first; otherwise a `switch` names the
    missing value.
  - A negative port matches no case of that `switch`, so it is returned with no error.
- `ZipInfo`: `newZipinfo` (never fails) and `fromProperties`.
  - `fromProperties` checks, in this order: the hostname is non-empty, the port parses,
    then `cert`, `key` and `caCerts` each decode from base64.
- `Bundle`: the member loop shared by `ExtractProperties` and `readZip`, `readConfigJSON`,
  the six-key property map and the two entry points.
  - The loop keeps the members named exactly `cert`, `key`, `ca.crt`, `config.json` or
    `cqlshrc`; a later member overwrites an earlier one of the same name.
  - The keyspace comes from `config.json`, and the hostname and port from `cqlshrc`.

Inputs from outside the program are parameters:

- The archive is a value: either it cannot be opened, or it is a sequence of members.
  Each member has a name and either its bytes or a failure to open or to read it.
- The JSON decoder is a function parameter from bytes to a decoded `config.json`.
- TLS material is opaque: a certificate records the PEM blocks it was built from, and a
  CA pool records the PEM text it was filled from.

Go's `int` is taken to be 64 bits wide. Ports therefore lie in the `int64` range, and
`Atoi` and `ParseInt(…, 10, 64)` coincide.

## Model

| member | source | states |
|---|---|---|
| Text.BytesToString | pkg/easycass/filetools.go:140 | a scanned line's text has one character per byte, of the same value |
| Text.Split | pkg/easycass/filetools.go:144 | splitting on '=' gives one piece more than there are '=' characters, and no piece holds a '=' |
| Text.JoinSplit | pkg/easycass/filetools.go:144 | re-joining the pieces with '=' gives back the line |
| Text.SplitPair | pkg/easycass/filetools.go:144-145 | a key and a value without '=' joined by one '=' split into exactly that key and that value |
| Text.SplitOnce | pkg/easycass/filetools.go:145-149 | a line that splits into exactly two pieces is the text before its one '=', the '=', then the text after it |
| Text.TrimSpace | pkg/easycass/filetools.go:149 | the trimmed value neither starts nor ends with white space; it is the text after the leading white space, up to trailing white space only |
| Strconv.ParseInt64 | pkg/easycass/filetools.go:160 | a parsed port always lies in the int64 range |
| Strconv.ParseDecimal | pkg/easycass/filetools.go:160 | an optionally signed run of decimal digits parses to its value when that fits in int64, and otherwise fails with ErrRange |
| Strconv.ParseOnlyDecimal | pkg/easycass/filetools.go:160 | only an optionally signed run of decimal digits parses, and it parses to its value |
| Strconv.Itoa | pkg/easycass/filetools.go:70 | the port property is an optional '-' followed by decimal digits |
| Strconv.ItoaParseRoundTrip | pkg/easycass/zipinfo.go:26 | parsing the decimal text of any int64 gives that number back |
| Base64.Encode | pkg/easycass/filetools.go:72-74 | no bytes encode to empty text; any bytes encode to at least four characters, more characters than bytes |
| Base64.EncodeLength | pkg/easycass/filetools.go:72-74 | encoded text has four characters per started group of three bytes |
| Base64.EncodePadBitsOne | pkg/easycass/filetools.go:72-74 | after a final single byte the text ends in "==" and the digit before it has its four unused bits zero |
| Base64.EncodePadBitsTwo | pkg/easycass/filetools.go:72-74 | after two final bytes the text ends in "=" and the digit before it has its two unused bits zero |
| Base64.EncodeAlphabet | pkg/easycass/filetools.go:72-74 | encoded text holds only alphabet characters and '=' |
| Base64.Decode | pkg/easycass/zipinfo.go:31-44 | empty text decodes to no bytes, and decoded output has at most three bytes for every four characters of input |
| Base64.DecodeEncode | pkg/easycass/zipinfo.go:31-44 | decoding what was encoded gives back exactly the original bytes |
| Base64.DecodeAccepts | pkg/easycass/zipinfo.go:31-44 | text decodes exactly when, with '\r' and '\n' dropped, it is whole quanta of alphabet characters in which '=' stands only last or as the final "==" |
| Base64.DecodeRejectsMisplacedPad | pkg/easycass/zipinfo.go:31-34 | a '=' that neither ends the text nor comes right before a final '=' makes decoding fail |
| Base64.LaxPaddingAccepted | pkg/easycass/zipinfo.go:31-34 | a final "xy==" quantum is accepted whatever the unused bits of y hold, giving the byte made of x and the top bits of y |
| Base64.DecodeRejectsForeignChar | pkg/easycass/zipinfo.go:31-34 | text holding a character outside the alphabet, other than '=', '\r' or '\n', fails to decode |
| Base64.DecodeNeedsWholeQuanta | pkg/easycass/zipinfo.go:31-34 | text whose length without newlines is not a multiple of four fails to decode |
| LineScanner.ScanLinesPieces | pkg/easycass/filetools.go:136-140 | the scanner's lines and error are exactly the reference reading `LinesOf` of the input's '\n'-separated pieces |
| LineScanner.LinesOfPrefix | pkg/easycass/filetools.go:139-140 | the delivered lines are those of the first pieces, in order, each piece under 64 KiB |
| LineScanner.LinesOfTooLong | pkg/easycass/filetools.go:174-177 | `ErrTooLong` exactly when some piece reaches 64 KiB, the first such piece being the one after the delivered lines |
| LineScanner.LinesOfCount | pkg/easycass/filetools.go:139-140 | without `ErrTooLong`, every piece is delivered except a last empty one |
| LineScanner.ScanLinesShape | pkg/easycass/filetools.go:138-140 | every scanned line is shorter than 64 KiB and holds no '\n' |
| LineScanner.ScanLinesAppend | pkg/easycass/filetools.go:139 | scanning input made of complete lines and then more input gives the lines of each part in order; the error is the later part's |
| Cqlshrc.ApplyLine | pkg/easycass/filetools.go:143-170 | after a line, the loop goes on only while the values are not both good, and it returns with no error only when they are |
| Cqlshrc.Scan | pkg/easycass/filetools.go:139-171 | the loop goes on only while the values are not both good, returns with no error only when they are, and a port that starts in the int64 range stays in it |
| Cqlshrc.ParseLines | pkg/easycass/filetools.go:173-190 | the port is in the int64 range, and no error means both values are good or the port is negative |
| Cqlshrc.Parse | pkg/easycass/filetools.go:135-191 | the port is in the int64 range; no error means both values are good or the port is negative; an empty file reports both values missing |
| Cqlshrc.ReadCqlshrc | pkg/easycass/filetools.go:135-191 | the loop, which updates hostname and port in place and returns early, computes `Parse`; no error means both values are good or the port is negative |
| Cqlshrc.ScanAppend | pkg/easycass/filetools.go:139-171 | scanning two runs of lines is scanning the first, then, unless the loop returned, the second from where the first left off |
| Cqlshrc.FirstReturnDecides | pkg/easycass/filetools.go:143-170 | the first line at which the loop returns decides the result, whatever follows it and whatever the scanner reports afterwards |
| Cqlshrc.MalformedLineFails | pkg/easycass/filetools.go:143-158 | a "hostname" or "port" line reached by the loop with no '=' or with two or more fails the parse with the matching message |
| Cqlshrc.BadPortFails | pkg/easycass/filetools.go:159-163 | a "port" line reached by the loop whose value does not parse fails the parse with ParseInt's error |
| Cqlshrc.LaterLinesIgnored | pkg/easycass/filetools.go:168-170 | once the loop has returned, later lines and a later scanner error change nothing |
| Cqlshrc.LaterBytesIgnored | pkg/easycass/filetools.go:168-170 | bytes appended after the line at which the loop returned do not change the result |
| Cqlshrc.ScanProvenance | pkg/easycass/filetools.go:149-164 | the final hostname is the initial one or the trimmed value of some "hostname" line; the final port is the initial one or the parsed value of some "port" line |
| Cqlshrc.SuccessComesFromLines | pkg/easycass/filetools.go:149-164 | on success, the port is the value some "port" line of the file sets, and a non-empty hostname the value some "hostname" line sets (which line: see `BothValuesFound` and `LaterHostnameLineWins`) |
| Cqlshrc.ScanAgreeing | pkg/easycass/filetools.go:139-171 | over lines whose "hostname" lines all set `h` and whose "port" lines all set `p`, the loop ends with `h` if there is a "hostname" line and `p` if there is a "port" line, each value otherwise kept, and returns successfully exactly when those are good |
| Cqlshrc.BothValuesFound | pkg/easycass/filetools.go:139-170 | a file whose only "hostname" line has one '=' and a non-empty trimmed value `h`, and whose only "port" line has one '=' and a value parsing to a positive `p`, in either order and among any other lines, yields exactly `h` and `p` with no error, whatever the scanner reports |
| Cqlshrc.OnlyHostnameFound | pkg/easycass/filetools.go:174-189 | one good "hostname" line and no "port" line: the scanner error if any, otherwise the missing port (both missing when the hostname is empty) |
| Cqlshrc.OnlyPortFound | pkg/easycass/filetools.go:174-189 | one good "port" line and no "hostname" line: the scanner error if any, otherwise the missing hostname for a positive port, both missing for port 0, and no error for a negative port |
| Cqlshrc.NeitherFound | pkg/easycass/filetools.go:174-189 | no "hostname" and no "port" line: the scanner error if any, otherwise both values missing |
| Cqlshrc.HostnameLine | pkg/easycass/filetools.go:143-149 | "hostname =" followed by text without '=' is a "hostname" line, not a "port" line, and sets the trimmed text |
| Cqlshrc.PortLine | pkg/easycass/filetools.go:153-164 | "port =" followed by text without '=' that parses is a "port" line, not a "hostname" line, and sets the parsed value |
| Cqlshrc.HostnameAndPortLines | pkg/easycass/filetools.go:139-170 | a good "hostname" line and a good "port" line, in either order, yield their two values with no error |
| Cqlshrc.TwoLineFile | pkg/easycass/filetools.go:139-170 | the file "hostname =" value, "port =" value (or the reverse order) yields the trimmed hostname and the parsed port |
| Cqlshrc.LaterHostnameLineWins | pkg/easycass/filetools.go:143-150 | of two "hostname" lines before the "port" line, the later one sets the hostname |
| Cqlshrc.SuccessCases | pkg/easycass/filetools.go:168-190 | no error exactly when the loop returned successfully, or the input ran out cleanly with a negative port |
| Cqlshrc.EndOfInputErrors | pkg/easycass/filetools.go:174-189 | at end of input, a scanner error comes first; otherwise: hostname without port gives "port" missing, port without hostname gives "hostname" missing, neither gives both missing, a negative port gives no error |
| ZipInfo.NewZipinfo | pkg/easycass/zipinfo.go:49-67 | never fails; hostname, port and keyspace are kept, the TLS server name is the hostname, and the TLS material is built from the given blocks |
| ZipInfo.FromProperties | pkg/easycass/zipinfo.go:21-47 | succeeds exactly when the hostname is set, the port parses and all three blocks decode; otherwise the first failing check, in that order, names the error |
| ZipInfo.FromPropertiesRoundTrip | pkg/easycass/zipinfo.go:26-46 | properties written as decimal and base64 rebuild exactly what `newZipinfo` builds from the raw values |
| ZipInfo.FromPropertiesDecodes | pkg/easycass/zipinfo.go:26-46 | a successful rebuild has the port's decimal value and TLS material from the decoded blocks |
| Bundle.Collect | pkg/easycass/filetools.go:38-53 | the map the member loop builds only ever holds the five wanted names |
| Bundle.ReadMembers | pkg/easycass/filetools.go:38-53 | the member loop, which fills the map in place, computes `Collect` |
| Bundle.CollectErrorSticks | pkg/easycass/filetools.go:41-49 | once the loop has returned an error, later members are not looked at |
| Bundle.CollectSucceeds | pkg/easycass/filetools.go:38-53 | the loop succeeds exactly when every wanted member can be opened and read |
| Bundle.CollectFirstFailure | pkg/easycass/filetools.go:41-49 | the loop fails with the error of the first wanted member that cannot be opened or read |
| Bundle.CollectContents | pkg/easycass/filetools.go:38-53 | the map holds exactly the wanted names present, each with the bytes of the last member of that name |
| Bundle.UnwantedMemberIgnored | pkg/easycass/filetools.go:39-40 | a member with any other name makes no difference, wherever it is |
| Bundle.LookupIsLatest | pkg/easycass/filetools.go:51-63 | a lookup of a wanted name gives the last such member's bytes, or nothing when there is none |
| Bundle.ReadConfigJson | pkg/easycass/filetools.go:123-130 | succeeds exactly on non-empty input that decodes; the keyspace is the decoded one, "" when absent or null |
| Bundle.Extract | pkg/easycass/filetools.go:28-66 | a bundle that reads successfully has an int64 port, and a good hostname and port unless the port is negative |
| Bundle.ExtractFromLatest | pkg/easycass/filetools.go:38-74 | a bundle that reads successfully takes cert, key and ca.crt verbatim from its last members of those names (empty when absent), the keyspace from the last config.json and hostname and port from the last cqlshrc |
| Bundle.ConfigJsonErrorFirst | pkg/easycass/filetools.go:55-66 | a bad config.json fails the bundle whatever cqlshrc holds |
| Bundle.MissingConfigJsonFails | pkg/easycass/filetools.go:56-59 | a bundle with no config.json fails on it |
| Bundle.MissingCqlshrcFails | pkg/easycass/filetools.go:63-66 | a bundle with no cqlshrc fails for want of both hostname and port |
| Bundle.PropertyMap | pkg/easycass/filetools.go:68-75 | the map has exactly the six property names |
| Bundle.PropertyMapDecodes | pkg/easycass/filetools.go:68-75 | the port property parses back to the port and each certificate property decodes back to the file's bytes |
| Bundle.AbsentFileExportsEmpty | pkg/easycass/filetools.go:72-74 | a certificate file missing from the bundle is exported as "" |
| Bundle.ReadBundle | pkg/easycass/filetools.go:28-66 | the steps both entry points share, each failing step returning at once, compute `Extract` |
| Bundle.ExtractProperties | pkg/easycass/filetools.go:28-76 | succeeds exactly when the bundle reads, then returns its property map, and otherwise returns the bundle's error |
| Bundle.ReadZip | pkg/easycass/filetools.go:80-121 | succeeds exactly when the bundle reads, then returns what `newZipinfo` builds from it, and otherwise returns the bundle's error |
| Bundle.PropertiesRebuildZipInfo | pkg/easycass/zipinfo.go:21-46 | feeding `ExtractProperties`' map to `fromProperties` rebuilds what `readZip` returns, whenever the hostname is set |
| Bundle.EmptyHostnameNotRebuilt | pkg/easycass/zipinfo.go:22-24 | a bundle read with an empty hostname has a negative port, and its properties are rejected for the missing hostname |

## Left out

- Opening and decompressing the zip archive, and closing it, are not modelled. The archive is a value whose members either give their bytes or fail to open or to read.
- The JSON grammar is not modelled; the decoder is a parameter. Empty input is always an error, as it is for `json.Unmarshal`.
- Bundle.ReadConfigJson: on a decoding error, the keyspace that `readConfigJSON` may still have filled in is not returned, because both callers discard it.
- X.509 and PEM parsing (`tls.X509KeyPair`, `x509.CertPool.AppendCertsFromPEM`) are not modelled; TLS values record their input bytes. Because the key pair's error is ignored, an unparsable pair is indistinguishable here from a good one.
- Text.TrimSpace: trims ASCII white space only. Go also trims Unicode white space (for example U+0085 or U+00A0) encoded in UTF-8 at either end.
- Strconv.ParseInt64: the error records only its kind (`ErrSyntax` or `ErrRange`), not the function name and input text Go's `NumError` carries.
- Base64.Decode: a decoding failure carries no byte offset, whereas Go's `CorruptInputError` does.
- ZipInfo.FromProperties: errors are values, not Go's message text. The three decoding errors name the failing property, whereas Go's messages all read "cert decode error".
- A 32-bit Go `int` is not modelled. On such a platform, `Atoi` would reject ports that `ParseInt(…, 10, 64)` accepts, and `int(port64)` would truncate them.
- Cqlshrc.ReadCqlshrc: `bufio.Scanner` can only report `ErrTooLong` over an in-memory buffer; reader errors cannot occur there and are not modelled.
- Keyspace tables (pkg/easycass/keyspace.go) are not part of this model: they are a process-wide map behind a mutex, filled by a database query.
- Session and cluster setup (pkg/easycass/session.go, pkg/easycass/cluster.go) are not part of this model: they only configure the external gocql driver.
- The command-line tool and the example programs (cmd/extractprops/main.go, examples/simplesession/main.go, examples/configuredsession/main.go) are not part of this model: they handle flags and printing.
