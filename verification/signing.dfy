/**
 * Request signing (`sign`): the six-line string-to-sign, the signature over
 * it, and the three headers set on the request. MD5, HMAC-SHA1, JSON
 * serialisation and the URL/query-string library calls are uninterpreted
 * functions supplied by the caller; the date is an input.
 */
module Signing {
  import opened Wrappers
  import opened Strings

  type Headers = map<string, string>
  type Query = map<string, string>

  /** Node's crypto helpers `md5base64` and `sha1` (HMAC-SHA1, base64). */
  datatype Crypto = Crypto(
    md5Base64: string -> string,
    hmacSha1Base64: (string, string) -> string)

  /** `JSON.stringify`, `url.parse(p, true).pathname` and `.query`, and `qs.stringify`. */
  datatype Codec = Codec(
    json: Query -> string,
    pathname: string -> string,
    query: string -> Query,
    stringify: Query -> string)

  /** The part of the options object `sign` reads and writes. */
  datatype Request = Request(verb: string, headers: Headers, data: Option<Query>)

  /** What `sign` returns, together with the options object as it leaves it. */
  datatype Signed = Signed(signature: string, queryPath: string, request: Request)

  /** The six signed fields, in order. */
  datatype Canonical = Canonical(
    verb: string,
    accept: string,
    contentMd5: string,
    contentType: string,
    date: string,
    path: string)

  const Accept: string := "application/json"
  const DefaultContentType: string := "application/json"
  const AuthPrefix: string := "system admin:"

  /** The methods whose body is sent and digested. */
  predicate CarriesBody(verb: string) {
    verb in ["POST", "PUT", "PATCH"]
  }

  /** `headers[k]` is a truthy string: present and not empty. */
  predicate Truthy(h: Headers, k: string) {
    k in h && h[k] != ""
  }

  /** `headers['content-type'] || headers['Content-Type'] || 'application/json'`. */
  function ContentType(h: Headers): (ct: string)
    ensures ct != ""
    ensures Truthy(h, "content-type") ==> ct == h["content-type"]
    ensures !Truthy(h, "content-type") && Truthy(h, "Content-Type") ==> ct == h["Content-Type"]
    ensures !Truthy(h, "content-type") && !Truthy(h, "Content-Type") ==> ct == DefaultContentType
  {
    if Truthy(h, "content-type") then h["content-type"]
    else if Truthy(h, "Content-Type") then h["Content-Type"]
    else DefaultContentType
  }

  /** The Content-MD5 field: the digest of the JSON body (or of "") for body methods, empty otherwise. */
  function ContentMd5(r: Request, crypto: Crypto, codec: Codec): string {
    if CarriesBody(r.verb) then
      crypto.md5Base64(if r.data.Some? then codec.json(r.data.value) else "")
    else ""
  }

  /** `_.merge(query, data)` on flat string maps: the data's keys overwrite the query's. */
  function MergeQuery(q: Query, d: Query): (m: Query)
    ensures m.Keys == q.Keys + d.Keys
    ensures forall k :: k in d ==> m[k] == d[k]
    ensures forall k :: k in q && k !in d ==> m[k] == q[k]
  {
    q + d
  }

  /** The path a body-less request is signed and sent with once its data is folded into the query. */
  function FoldData(queryPath: string, data: Query, codec: Codec): string {
    codec.pathname(queryPath) + "?" + codec.stringify(MergeQuery(codec.query(queryPath), data))
  }

  function Fields(c: Canonical): seq<string> {
    [c.verb, c.accept, c.contentMd5, c.contentType, c.date, c.path]
  }

  /** No field contains a line break, so the fields can be told apart in the joined string. */
  predicate SingleLine(c: Canonical) {
    forall i :: 0 <= i < |Fields(c)| ==> '\n' !in Fields(c)[i]
  }

  /** `${method}\n${accept}\n${contentMd5}\n${contentType}\n${date}\n${queryPath}`. */
  function StringToSign(c: Canonical): string {
    Join(Fields(c), '\n')
  }

  /** The six fields are recovered from the string-to-sign by splitting on line breaks. */
  lemma StringToSignFields(c: Canonical)
    requires SingleLine(c)
    ensures Split(StringToSign(c), '\n') == Fields(c)
  {
    SplitJoin(Fields(c), '\n');
  }

  /** Different single-line field tuples have different strings to sign: changing any one field changes it. */
  lemma StringToSignInjective(c1: Canonical, c2: Canonical)
    requires SingleLine(c1) && SingleLine(c2)
    requires StringToSign(c1) == StringToSign(c2)
    ensures c1 == c2
  {
    StringToSignFields(c1);
    StringToSignFields(c2);
    assert Fields(c1) == Fields(c2);
  }

  /** `sign(queryPath, options, token)` with the clock read supplied as `date`. */
  function Sign(queryPath: string, req: Request, token: string, date: string, crypto: Crypto, codec: Codec): (s: Signed)
    ensures s.request.verb == req.verb
    ensures s.request.headers.Keys == req.headers.Keys + {"Content-Type", "Authorization", "Date"}
    ensures forall k :: k in req.headers && k != "Content-Type" && k != "Authorization" && k != "Date" ==>
      s.request.headers[k] == req.headers[k]
    ensures s.request.headers["Content-Type"] == ContentType(req.headers)
    ensures s.request.headers["Authorization"] == AuthPrefix + s.signature
    ensures s.request.headers["Date"] == date
    ensures s.signature == crypto.hmacSha1Base64(StringToSign(Canonical(
      req.verb, Accept, ContentMd5(req, crypto, codec), ContentType(req.headers), date, s.queryPath)), token)
    ensures CarriesBody(req.verb) ==> s.queryPath == queryPath && s.request.data == req.data
    ensures !CarriesBody(req.verb) ==> s.request.data.None? && ContentMd5(req, crypto, codec) == ""
    ensures !CarriesBody(req.verb) && req.data.None? ==> s.queryPath == queryPath
    ensures !CarriesBody(req.verb) && req.data.Some? ==> s.queryPath == FoldData(queryPath, req.data.value, codec)
  {
    var contentType := ContentType(req.headers);
    var contentMd5 := ContentMd5(req, crypto, codec);
    var path :=
      if !CarriesBody(req.verb) && req.data.Some? then FoldData(queryPath, req.data.value, codec)
      else queryPath;
    var data := if CarriesBody(req.verb) then req.data else None;
    var signature := crypto.hmacSha1Base64(
      StringToSign(Canonical(req.verb, Accept, contentMd5, contentType, date, path)), token);
    var headers := req.headers["Content-Type" := contentType]["Authorization" := AuthPrefix + signature]["Date" := date];
    Signed(signature, path, Request(req.verb, headers, data))
  }

  /** The check a node holding the same token makes: recompute the six fields from the request it
      received (method, body, Content-Type and Date headers, path) and compare the signature. */
  predicate Accepts(r: Request, path: string, token: string, crypto: Crypto, codec: Codec) {
    && "Content-Type" in r.headers && "Date" in r.headers && "Authorization" in r.headers
    && r.headers["Authorization"] == AuthPrefix + crypto.hmacSha1Base64(StringToSign(Canonical(
         r.verb, Accept, ContentMd5(r, crypto, codec), r.headers["Content-Type"], r.headers["Date"], path)), token)
  }

  /** Every signed request is accepted by a node that shares the token, at the path it is sent to. */
  lemma SignedRequestAccepted(queryPath: string, req: Request, token: string, date: string, crypto: Crypto, codec: Codec)
    ensures var s := Sign(queryPath, req, token, date, crypto, codec);
      Accepts(s.request, s.queryPath, token, crypto, codec)
  {
    var s := Sign(queryPath, req, token, date, crypto, codec);
    assert ContentMd5(s.request, crypto, codec) == ContentMd5(req, crypto, codec);
  }
}
