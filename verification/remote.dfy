/**
 * `callremote`: how the request to a cluster endpoint is put together before
 * it is handed to the HTTP client. The `ips` list is appended to the path,
 * one trailing slash is removed from the endpoint, the options are merged
 * over the defaults without `endpoint`, `token` and `ips`, and the result is
 * signed. The HTTP call itself is not modelled.
 */
module Remote {
  import opened Wrappers
  import opened Strings
  import opened Signing

  /** The caller's options; an absent key is `None`. */
  datatype CallOptions = CallOptions(
    endpoint: Option<string>,
    token: Option<string>,
    ips: Option<seq<string>>,
    verb: Option<string>,
    headers: Option<Headers>,
    data: Option<Query>,
    timeout: Option<int>)

  /** The options object handed to the HTTP client. */
  datatype HttpOptions = HttpOptions(
    verb: string,
    headers: Headers,
    data: Option<Query>,
    timeout: int,
    dataType: string,
    rejectUnauthorized: bool)

  /** The request as sent: to `endpoint + path`, with `options`. */
  datatype Outbound = Outbound(endpoint: string, path: string, options: HttpOptions)
  {
    function Url(): string { endpoint + path }
  }

  /** The exception `callremote` throws before any request is made. */
  datatype CallError =
    | IpsMissing       // `options.ips.join(',')` on an absent `ips`
    | EndpointMissing  // `endpoint.endsWith('/')` on an absent endpoint
    | TokenMissing     // HMAC keyed with an absent token

  const DefaultVerb: string := "GET"
  const DefaultTimeout: int := 15000
  const DataType: string := "json"

  /** The `ips=` parameter as the code appends it: `indexOf('?')` is truthy unless it is 0. */
  function AppendIpsAsWritten(queryPath: string, ips: string): (p: string)
    ensures p == queryPath + [if |queryPath| > 0 && queryPath[0] == '?' then '&' else '?'] + "ips=" + ips
  {
    if IndexOf(queryPath, '?') != 0 then queryPath + "?ips=" + ips
    else queryPath + "&ips=" + ips
  }

  /** The `ips=` parameter as evidently intended: the path, one separator, then `ips=` and the list.
      The separator opens a query only when the path has none, so no second `?` is ever added. */
  function AppendIpsIntended(queryPath: string, ips: string): (p: string)
    ensures |p| == |queryPath| + 5 + |ips|
    ensures p[..|queryPath|] == queryPath && p[|queryPath| + 1..] == "ips=" + ips
    ensures p[|queryPath|] == '&' || p[|queryPath|] == '?'
    ensures Count(p, '?') == Count(queryPath, '?') + Count(ips, '?') + (if Count(queryPath, '?') == 0 then 1 else 0)
  {
    var sep := if '?' in queryPath then '&' else '?';
    var p := queryPath + [sep] + "ips=" + ips;
    assert p == queryPath + ([sep] + ("ips=" + ips));
    CountConcat(queryPath, [sep] + ("ips=" + ips), '?');
    CountConcat([sep], "ips=" + ips, '?');
    CountConcat("ips=", ips, '?');
    assert Count("ips=", '?') == 0;
    assert p[|queryPath| + 1..] == "ips=" + ips;
    p
  }

  /** A path whose first `?` is not its first character gets a second `?`. */
  lemma AsWrittenAddsSecondQuery(queryPath: string, ips: string)
    requires '?' in queryPath && queryPath[0] != '?'
    ensures Count(AppendIpsAsWritten(queryPath, ips), '?') >= 2
  {
    var p := AppendIpsAsWritten(queryPath, ips);
    assert p == queryPath + ("?ips=" + ips);
    CountConcat(queryPath, "?ips=" + ips, '?');
    assert ("?ips=" + ips)[0] == '?';
  }

  /** A concrete case: `/a?x` with the node `n` becomes `/a?x?ips=n`. */
  lemma AsWrittenExample()
    ensures AppendIpsAsWritten("/a?x", "n") == "/a?x?ips=n"
  {
    var q := "/a?x";
    assert q[0] == '/';
    assert q + ['?'] + "ips=" + "n" == "/a?x?ips=n";
  }

  /** The intended rule keeps a path with at most one `?` at exactly one `?`. */
  lemma IntendedSingleQuery(queryPath: string, ips: string)
    requires Count(queryPath, '?') <= 1 && '?' !in ips
    ensures Count(AppendIpsIntended(queryPath, ips), '?') == 1
  {
    var sep := if '?' in queryPath then '&' else '?';
    var tail := [sep] + "ips=" + ips;
    assert AppendIpsIntended(queryPath, ips) == queryPath + tail;
    CountConcat(queryPath, tail, '?');
    assert tail == [sep] + ("ips=" + ips);
    CountConcat([sep], "ips=" + ips, '?');
    CountConcat("ips=", ips, '?');
    assert Count("ips=", '?') == 0;
  }

  /** The two rules disagree exactly on paths whose first `?` is not their first character. */
  lemma AsWrittenAgreesUnlessQueryInside(queryPath: string, ips: string)
    ensures AppendIpsAsWritten(queryPath, ips) == AppendIpsIntended(queryPath, ips)
        <==> !('?' in queryPath && queryPath[0] != '?')
  {
    var w := AppendIpsAsWritten(queryPath, ips);
    var i := AppendIpsIntended(queryPath, ips);
    if '?' in queryPath && queryPath[0] != '?' {
      assert w[|queryPath|] == '?' && i[|queryPath|] == '&';
    }
  }

  /** `endpoint.endsWith('/')` then drop the last character: at most one slash goes. */
  function StripTrailingSlash(endpoint: string): (e: string)
    ensures |endpoint| > 0 && endpoint[|endpoint| - 1] == '/' ==> e + "/" == endpoint
    ensures !(|endpoint| > 0 && endpoint[|endpoint| - 1] == '/') ==> e == endpoint
  {
    if |endpoint| > 0 && endpoint[|endpoint| - 1] == '/' then endpoint[..|endpoint| - 1]
    else endpoint
  }

  /** `_.merge(defaultOptions, options)` without `endpoint`, `token` and `ips`: the part `sign` sees.
      The ensures name where each field of the request comes from; they are field accessors. */
  function RequestOf(opts: CallOptions): (req: Request)
    ensures req.verb == opts.verb.GetOr(DefaultVerb)
    ensures req.headers == opts.headers.GetOr(map[])
    ensures req.data == opts.data
  {
    Request(opts.verb.GetOr(DefaultVerb), opts.headers.GetOr(map[]), opts.data)
  }

  /** `endpoint`, `token` and `ips` are deleted before signing, and `timeout` is not signed: changing
      them leaves the signed request as it was. */
  lemma RequestIgnoresConnection(opts: CallOptions, endpoint: Option<string>, token: Option<string>,
                                 ips: Option<seq<string>>, timeout: Option<int>)
    ensures RequestOf(opts.(endpoint := endpoint, token := token, ips := ips, timeout := timeout)) == RequestOf(opts)
  {
  }

  /** What `callremote` does once the `ips=` parameter is on the path: strip the endpoint, merge the
      defaults, sign, and hand the signed path and options to the HTTP client. */
  function Send(path: string, opts: CallOptions, date: string, crypto: Crypto, codec: Codec): (o: Outbound)
    requires opts.endpoint.Some? && opts.token.Some?
    ensures o.endpoint == StripTrailingSlash(opts.endpoint.value)
    ensures o.options.verb == opts.verb.GetOr(DefaultVerb)
    ensures o.options.timeout == opts.timeout.GetOr(DefaultTimeout)
    ensures o.options.dataType == DataType && !o.options.rejectUnauthorized
    ensures "Date" in o.options.headers && o.options.headers["Date"] == date
    ensures Accepts(Request(o.options.verb, o.options.headers, o.options.data), o.path, opts.token.value, crypto, codec)
    ensures CarriesBody(o.options.verb) ==> o.path == path && o.options.data == opts.data
    ensures !CarriesBody(o.options.verb) ==> o.options.data.None?
    ensures !CarriesBody(o.options.verb) && opts.data.None? ==> o.path == path
    ensures !CarriesBody(o.options.verb) && opts.data.Some? ==> o.path == FoldData(path, opts.data.value, codec)
  {
    var s := Sign(path, RequestOf(opts), opts.token.value, date, crypto, codec);
    SignedRequestAccepted(path, RequestOf(opts), opts.token.value, date, crypto, codec);
    Outbound(StripTrailingSlash(opts.endpoint.value), s.queryPath, HttpOptions(
      s.request.verb, s.request.headers, s.request.data,
      opts.timeout.GetOr(DefaultTimeout), DataType, false))
  }

  /** The exception thrown for options missing `ips`, `endpoint` or `token`, checked in that order. */
  function Missing(opts: CallOptions): (e: Option<CallError>)
    ensures e.None? <==> opts.ips.Some? && opts.endpoint.Some? && opts.token.Some?
    ensures opts.ips.None? ==> e == Some(IpsMissing)
    ensures opts.ips.Some? && opts.endpoint.None? ==> e == Some(EndpointMissing)
    ensures opts.ips.Some? && opts.endpoint.Some? && opts.token.None? ==> e == Some(TokenMissing)
  {
    if opts.ips.None? then Some(IpsMissing)
    else if opts.endpoint.None? then Some(EndpointMissing)
    else if opts.token.None? then Some(TokenMissing)
    else None
  }

  /** `callremote(queryPath, options)` up to the HTTP call, with the clock read supplied as `date`. */
  function CallRemote(queryPath: string, opts: CallOptions, date: string, crypto: Crypto, codec: Codec)
    : (r: Result<Outbound, CallError>)
    ensures r.Failure? <==> Missing(opts).Some?
    ensures r.Failure? ==> r.error == Missing(opts).value
    ensures r.Success? ==>
      var o := r.value;
      var path := AppendIpsAsWritten(queryPath, Join(opts.ips.value, ','));
      && o.endpoint == StripTrailingSlash(opts.endpoint.value)
      && o.options.verb == opts.verb.GetOr(DefaultVerb)
      && "Date" in o.options.headers && o.options.headers["Date"] == date
      && Accepts(Request(o.options.verb, o.options.headers, o.options.data), o.path, opts.token.value, crypto, codec)
      && (CarriesBody(o.options.verb) || opts.data.None? ==> o.path == path)
      && (!CarriesBody(o.options.verb) && opts.data.Some? ==> o.path == FoldData(path, opts.data.value, codec))
  {
    if Missing(opts).Some? then Failure(Missing(opts).value)
    else Success(Send(AppendIpsAsWritten(queryPath, Join(opts.ips.value, ',')), opts, date, crypto, codec))
  }

  /** `callremote` with the corrected `ips=` rule. */
  function CallRemoteIntended(queryPath: string, opts: CallOptions, date: string, crypto: Crypto, codec: Codec)
    : (r: Result<Outbound, CallError>)
    ensures r.Failure? <==> Missing(opts).Some?
    ensures r.Failure? ==> r.error == Missing(opts).value
    ensures r.Success? ==>
      var o := r.value;
      var path := AppendIpsIntended(queryPath, Join(opts.ips.value, ','));
      && o.endpoint == StripTrailingSlash(opts.endpoint.value)
      && o.options.verb == opts.verb.GetOr(DefaultVerb)
      && "Date" in o.options.headers && o.options.headers["Date"] == date
      && Accepts(Request(o.options.verb, o.options.headers, o.options.data), o.path, opts.token.value, crypto, codec)
      && (CarriesBody(o.options.verb) || opts.data.None? ==> o.path == path)
      && (!CarriesBody(o.options.verb) && opts.data.Some? ==> o.path == FoldData(path, opts.data.value, codec))
  {
    if Missing(opts).Some? then Failure(Missing(opts).value)
    else Success(Send(AppendIpsIntended(queryPath, Join(opts.ips.value, ',')), opts, date, crypto, codec))
  }

  /** The code as written sends the same request as the corrected rule unless the path's first `?` is not
      its first character; for a body method or without data, it then sends a path with a second `?`. */
  lemma CallRemoteAgrees(queryPath: string, opts: CallOptions, date: string, crypto: Crypto, codec: Codec)
    ensures !('?' in queryPath && queryPath[0] != '?') ==>
      CallRemote(queryPath, opts, date, crypto, codec) == CallRemoteIntended(queryPath, opts, date, crypto, codec)
    ensures var r := CallRemote(queryPath, opts, date, crypto, codec);
      '?' in queryPath && queryPath[0] != '?' && r.Success? && (CarriesBody(r.value.options.verb) || opts.data.None?) ==>
        Count(r.value.path, '?') >= 2
  {
    AsWrittenAgreesUnlessQueryInside(queryPath, if opts.ips.Some? then Join(opts.ips.value, ',') else "");
    if '?' in queryPath && queryPath[0] != '?' && opts.ips.Some? {
      AsWrittenAddsSecondQuery(queryPath, Join(opts.ips.value, ','));
    }
  }

  /** A GET without data goes to the endpoint, less one trailing slash, followed by the path and `ips=`. */
  lemma PlainGetUrl(queryPath: string, opts: CallOptions, date: string, crypto: Crypto, codec: Codec)
    requires opts.ips.Some? && opts.endpoint.Some? && opts.token.Some?
    requires opts.verb.None? && opts.data.None?
    requires |queryPath| > 0 && queryPath[0] != '?'
    ensures var r := CallRemote(queryPath, opts, date, crypto, codec);
      r.Success? && r.value.Url() == StripTrailingSlash(opts.endpoint.value) + queryPath + "?ips=" + Join(opts.ips.value, ',')
  {
  }
}
