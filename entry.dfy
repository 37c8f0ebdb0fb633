/** `createServer`: which kind of server the top-level entry point starts for the given options. */
module Entry {
  import opened Wrappers
  import CloudBitServer

  /** The options as `createServer` tests them: whether `key` and `cert` are truthy, and `port`
      when it is a number (`None` when it is absent, so that `isNaN` holds). */
  datatype Options = Options(key: bool, cert: bool, port: Option<int>)

  /** The server started and the port it listens on. */
  datatype ServerKind = Http(port: int) | Https(port: int)

  const DefaultPort: int := 3000

  function CreateServer(options: Option<Options>): (k: ServerKind)
    ensures k.Https? <==> options.Some? && options.value.key && options.value.cert
    ensures k.Https? ==> k.port == CloudBitServer.HttpsListenPort(options.value.port)
    ensures options.None? ==> k == Http(DefaultPort)
    ensures options.Some? && !(options.value.key && options.value.cert) ==>
              k == Http(match options.value.port case Some(p) => p case None => DefaultPort)
  {
    if options.None? then Http(DefaultPort)
    else if options.value.key && options.value.cert then Https(CloudBitServer.HttpsListenPort(options.value.port))
    else if options.value.port.Some? then Http(options.value.port.value)
    else Http(DefaultPort)
  }

  /** With a key and a certificate the port has no say in the kind of server, and the listening
      port is 3000 unless a port was given. */
  lemma HttpsWhateverThePort(port: Option<int>)
    ensures CreateServer(Some(Options(true, true, port))).Https?
    ensures port.None? ==> CreateServer(Some(Options(true, true, port))) == Https(3000)
  {
    CloudBitServer.HttpsListenPortDefault();
  }

  /** The HTTPS port is not the one asked for: 443 becomes 3003. */
  lemma HttpsOn443ListensOn3003()
    ensures CreateServer(Some(Options(true, true, Some(443)))) == Https(3003)
  {
    CloudBitServer.HttpsListenPort443();
  }

  /** A key without a certificate falls through to HTTP on the requested port. */
  lemma KeyWithoutCertIsHttp(p: int)
    ensures CreateServer(Some(Options(true, false, Some(p)))) == Http(p)
  {
  }
}
