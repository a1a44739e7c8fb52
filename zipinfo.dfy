/** The connection information a secure connect bundle yields (`zipinfo`), built either
    from the bundle's raw files (`newZipinfo`) or from the textual properties that
    `ExtractProperties` hands out (`fromProperties`). */
module ZipInfo {
  import opened Results
  import opened Text
  import opened Strconv
  import Base64

  /** The certificate `tls.X509KeyPair` builds from a certificate and a key PEM block.
      X.509 parsing is not modelled: the value records the blocks it was built from. */
  datatype Certificate = KeyPair(certPEM: seq<Byte>, keyPEM: seq<Byte>)

  /** A fresh `x509.CertPool` after `AppendCertsFromPEM` of the given PEM text. */
  datatype CertPool = PoolFrom(pem: seq<Byte>)

  /** The three fields of `tls.Config` the bundle sets. */
  datatype TlsConfig = TlsConfig(certificates: seq<Certificate>, rootCAs: CertPool, serverName: string)

  datatype ZipInfo = ZipInfo(hostname: string, port: int, tlsConfig: TlsConfig, keyspace: string)

  /** Which of the three base64 properties failed to decode. */
  datatype CertField = CertBlock | KeyBlock | CaCertsBlock

  datatype PropertyError =
    | HostnameNotSet
    | BadPortValue(cause: NumError)
    | CertDecodeFailed(field: CertField)

  /** Building the connection information never fails: the key pair's error is dropped,
      the TLS server name is the hostname, and the other values are kept as given. */
  function NewZipinfo(hostname: string, port: int, keyspace: string,
                      certPEM: seq<Byte>, keyPEM: seq<Byte>, pemCerts: seq<Byte>): (r: Result<ZipInfo, PropertyError>)
    ensures r.Ok?
    ensures r.value.hostname == hostname && r.value.tlsConfig.serverName == hostname
    ensures r.value.port == port && r.value.keyspace == keyspace
    ensures r.value.tlsConfig.certificates == [KeyPair(certPEM, keyPEM)]
    ensures r.value.tlsConfig.rootCAs == PoolFrom(pemCerts)
  {
    var tlsConfig := TlsConfig([KeyPair(certPEM, keyPEM)], PoolFrom(pemCerts), hostname);
    Ok(ZipInfo(hostname, port, tlsConfig, keyspace))
  }

  /** Rebuilds the connection information from its textual properties: the hostname must
      be non-empty, the port a 64-bit decimal, and the three certificate values standard
      base64; the first check that fails names the error. */
  function FromProperties(hostname: string, port: string, keyspace: string,
                          cert: string, key: string, caCerts: string): (r: Result<ZipInfo, PropertyError>)
    ensures r.Ok? <==>
      hostname != "" && ParseInt64(port).Ok? &&
      Base64.Decode(cert).Some? && Base64.Decode(key).Some? && Base64.Decode(caCerts).Some?
    ensures r.Ok? ==> r.value.hostname == hostname && r.value.tlsConfig.serverName == hostname
    ensures r.Ok? ==> r.value.keyspace == keyspace && InInt64(r.value.port)
    // the checks run in this order, the first failing one naming the error
    ensures hostname == "" ==> r == Err(HostnameNotSet)
    ensures (hostname != "" && ParseInt64(port).Err?) ==> r == Err(BadPortValue(ParseInt64(port).error))
    ensures (hostname != "" && ParseInt64(port).Ok? && Base64.Decode(cert).None?) ==>
      r == Err(CertDecodeFailed(CertBlock))
    ensures (hostname != "" && ParseInt64(port).Ok? && Base64.Decode(cert).Some? && Base64.Decode(key).None?) ==>
      r == Err(CertDecodeFailed(KeyBlock))
    ensures (hostname != "" && ParseInt64(port).Ok? && Base64.Decode(cert).Some? && Base64.Decode(key).Some? &&
      Base64.Decode(caCerts).None?) ==> r == Err(CertDecodeFailed(CaCertsBlock))
  {
    if hostname == "" then Err(HostnameNotSet)
    else match ParseInt64(port)
      case Err(e) => Err(BadPortValue(e))
      case Ok(portValue) =>
        match Base64.Decode(cert)
        case None => Err(CertDecodeFailed(CertBlock))
        case Some(certPEM) =>
          match Base64.Decode(key)
          case None => Err(CertDecodeFailed(KeyBlock))
          case Some(keyPEM) =>
            match Base64.Decode(caCerts)
            case None => Err(CertDecodeFailed(CaCertsBlock))
            case Some(pemCerts) => NewZipinfo(hostname, portValue, keyspace, certPEM, keyPEM, pemCerts)
  }

  /** Properties written the way `ExtractProperties` writes them (decimal port, base64
      certificate blocks) rebuild exactly what `newZipinfo` builds from the raw values. */
  lemma FromPropertiesRoundTrip(hostname: string, port: int, keyspace: string,
                                certPEM: seq<Byte>, keyPEM: seq<Byte>, pemCerts: seq<Byte>)
    requires hostname != "" && InInt64(port)
    ensures FromProperties(hostname, Itoa(port), keyspace,
                           Base64.Encode(certPEM), Base64.Encode(keyPEM), Base64.Encode(pemCerts))
            == NewZipinfo(hostname, port, keyspace, certPEM, keyPEM, pemCerts)
  {
    ItoaParseRoundTrip(port);
    Base64.DecodeEncode(certPEM);
    Base64.DecodeEncode(keyPEM);
    Base64.DecodeEncode(pemCerts);
  }

  /** A successful rebuild is `newZipinfo` applied to the parsed port and the decoded
      blocks: nothing else feeds into the result. */
  lemma FromPropertiesDecodes(hostname: string, port: string, keyspace: string, cert: string, key: string, caCerts: string)
    requires FromProperties(hostname, port, keyspace, cert, key, caCerts).Ok?
    ensures IsDecimal(port)
    ensures FromProperties(hostname, port, keyspace, cert, key, caCerts).value.port == DecimalValue(port)
    ensures FromProperties(hostname, port, keyspace, cert, key, caCerts).value.tlsConfig.certificates ==
      [KeyPair(Base64.Decode(cert).value, Base64.Decode(key).value)]
    ensures FromProperties(hostname, port, keyspace, cert, key, caCerts).value.tlsConfig.rootCAs ==
      PoolFrom(Base64.Decode(caCerts).value)
  {
    ParseOnlyDecimal(port);
  }
}
