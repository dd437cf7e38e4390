/** The serverless proxy in front of the stock-picker engine
    (`api/proxy/stock-picker/run.ts`): it accepts only POST, forwards the
    request headers minus the hop-by-hop ones, and relays the engine's
    status, headers (again minus hop-by-hop ones) and body text. The network
    call is a parameter: the outcome the engine gives to the request. */
module Proxy {
  import opened Wrappers
  import Text

  const UpstreamUrl: string := "http://internet-facing-863698164.eu-north-1.elb.amazonaws.com/api/stock-picker/run"

  /** Headers that belong to one connection and are never forwarded,
      compared lower-cased. */
  const HopByHop: set<string> := {
    "connection", "keep-alive", "proxy-authenticate", "proxy-authorization", "te",
    "trailer", "transfer-encoding", "upgrade", "host", "content-length"
  }

  predicate IsHopByHop(name: string) {
    Text.Lower(name) in HopByHop
  }

  /** A request header value as the runtime gives it: absent, one string, or
      the values of a repeated header. */
  datatype HeaderValue = Missing | Single(text: string) | Multiple(values: seq<string>)

  /** `!value`: an absent or empty value is skipped; a list, even an empty
      one, is not. */
  predicate IsFalsy(v: HeaderValue) {
    v.Missing? || (v.Single? && v.text == "")
  }

  /** The text forwarded for a value: a list is joined with ", ". */
  function Rendered(v: HeaderValue): string {
    match v
    case Missing => ""
    case Single(t) => t
    case Multiple(vs) => Text.Join(vs, ", ")
  }

  /** The entry is forwarded, under its lower-cased name `key`. */
  predicate SetsKey(entry: (string, HeaderValue), key: string) {
    !IsFalsy(entry.1) && !IsHopByHop(entry.0) && Text.Lower(entry.0) == key
  }

  /** `buildUpstreamHeaders`: the request headers in order, each non-empty,
      non-hop-by-hop one set under its name; the header store is
      case-insensitive, so a later name overrides an earlier one that differs
      only in case. */
  function BuildUpstreamHeaders(entries: seq<(string, HeaderValue)>): (r: map<string, string>)
    ensures forall k :: k in r ==> k !in HopByHop && Text.Lower(k) == k
  {
    if entries == [] then map[]
    else
      var last := entries[|entries| - 1];
      var m := BuildUpstreamHeaders(entries[..|entries| - 1]);
      Text.LowerIdempotent(last.0);
      if !IsFalsy(last.1) && !IsHopByHop(last.0) then m[Text.Lower(last.0) := Rendered(last.1)] else m
  }

  /** The response headers relayed to the client: those of the engine's
      response that are not hop-by-hop, in order. */
  function FilterResponseHeaders(headers: seq<(string, string)>): (r: seq<(string, string)>)
    ensures forall h :: h in r <==> h in headers && !IsHopByHop(h.0)
    ensures |r| <= |headers|
  {
    if headers == [] then []
    else
      var rest := FilterResponseHeaders(headers[1..]);
      assert forall h :: h in headers <==> h == headers[0] || h in headers[1..];
      (if IsHopByHop(headers[0].0) then [] else [headers[0]]) + rest
  }

  /** The request sent to the engine. */
  datatype UpstreamRequest = UpstreamRequest(url: string, verb: string, headers: map<string, string>, body: string)

  /** What the engine call gave: no response at all, or a response whose
      body text could (`Some`) or could not (`None`) be read. */
  datatype Upstream = FetchFailed | Answered(status: int, headers: seq<(string, string)>, text: Option<string>)

  /** A response body: a JSON error object or relayed text. */
  datatype Body = JsonError(error: string) | Relayed(text: string)

  datatype Response = Response(status: int, headers: seq<(string, string)>, body: Body)

  const MethodNotAllowed: Response := Response(405, [("Allow", "POST")], JsonError("Method Not Allowed"))

  /** The handler. `body` is the serialised request body; `upstream` is what
      the engine answers to the request returned first, if one is sent. A
      body that cannot be read fails after the headers are already set, so
      the 502 carries them. */
  function Handle(verb: Option<string>, headers: seq<(string, HeaderValue)>, body: string,
                  upstream: Upstream): (r: (Option<UpstreamRequest>, Response))
    ensures r.0.Some? <==> verb == Some("POST")
    ensures r.0.None? ==> r.1 == MethodNotAllowed
    ensures r.0.Some? ==> r.0.value.url == UpstreamUrl && r.0.value.verb == "POST" && r.0.value.body == body
    ensures r.0.Some? ==> r.0.value.headers == BuildUpstreamHeaders(headers)
    ensures r.0.Some? ==> forall k :: k in r.0.value.headers ==> k !in HopByHop
    ensures forall h :: h in r.1.headers ==> !IsHopByHop(h.0) || r.1 == MethodNotAllowed
    ensures r.1.status == 405 || r.1.status == 502 || (upstream.Answered? && r.1.status == upstream.status)
  {
    if verb != Some("POST") then (None, MethodNotAllowed)
    else
      var request := UpstreamRequest(UpstreamUrl, "POST", BuildUpstreamHeaders(headers), body);
      match upstream
      case FetchFailed => (Some(request), Response(502, [], JsonError("Bad Gateway")))
      case Answered(status, hs, text) =>
        var relayed := FilterResponseHeaders(hs);
        if text.None? then (Some(request), Response(502, relayed, JsonError("Bad Gateway")))
        else (Some(request), Response(status, relayed, Relayed(text.value)))
  }

  // ----- lemmas -----

  /** A key reaches the engine exactly when some entry sets it, and it carries
      the value of the last entry that does. */
  lemma {:induction false} UpstreamHeadersExact(entries: seq<(string, HeaderValue)>, key: string)
    ensures key in BuildUpstreamHeaders(entries) <==> exists i :: 0 <= i < |entries| && SetsKey(entries[i], key)
    ensures key in BuildUpstreamHeaders(entries) ==>
      exists i :: 0 <= i < |entries| && SetsKey(entries[i], key) &&
        BuildUpstreamHeaders(entries)[key] == Rendered(entries[i].1) &&
        forall j :: i < j < |entries| ==> !SetsKey(entries[j], key)
  {
    if entries != [] {
      var n := |entries| - 1;
      var prefix := entries[..n];
      var r := BuildUpstreamHeaders(entries);
      UpstreamHeadersExact(prefix, key);
      assert forall i :: 0 <= i < n ==> entries[i] == prefix[i];
      if SetsKey(entries[n], key) {
        assert r[key] == Rendered(entries[n].1);
      } else {
        assert key in r <==> key in BuildUpstreamHeaders(prefix);
        if key in r {
          var i :| 0 <= i < n && SetsKey(prefix[i], key) && BuildUpstreamHeaders(prefix)[key] == Rendered(prefix[i].1) &&
            forall j :: i < j < n ==> !SetsKey(prefix[j], key);
          assert r[key] == Rendered(entries[i].1);
          assert forall j :: i < j < |entries| ==> !SetsKey(entries[j], key);
        }
      }
    }
  }

  /** Only the hop-by-hop headers are dropped from a response: relaying keeps
      the order, and headers that are all end-to-end pass unchanged. */
  lemma {:induction false} FilterKeepsClean(headers: seq<(string, string)>)
    requires forall h :: h in headers ==> !IsHopByHop(h.0)
    ensures FilterResponseHeaders(headers) == headers
  {
    if headers != [] {
      assert headers[0] in headers;
      assert forall h :: h in headers[1..] ==> h in headers;
      FilterKeepsClean(headers[1..]);
    }
  }

  /** Relaying works header by header, so it keeps the order. */
  lemma {:induction false} FilterDistributes(a: seq<(string, string)>, b: seq<(string, string)>)
    ensures FilterResponseHeaders(a + b) == FilterResponseHeaders(a) + FilterResponseHeaders(b)
  {
    if a == [] {
      assert a + b == b;
    } else {
      assert (a + b)[0] == a[0];
      assert (a + b)[1..] == a[1..] + b;
      FilterDistributes(a[1..], b);
    }
  }

  /** Relaying relayed headers changes nothing. */
  lemma FilterIdempotent(headers: seq<(string, string)>)
    ensures FilterResponseHeaders(FilterResponseHeaders(headers)) == FilterResponseHeaders(headers)
  {
    FilterKeepsClean(FilterResponseHeaders(headers));
  }

  /** A readable engine response is relayed with its status and text. */
  lemma PassThrough(headers: seq<(string, HeaderValue)>, body: string, status: int,
                    hs: seq<(string, string)>, text: string)
    ensures
      var r := Handle(Some("POST"), headers, body, Answered(status, hs, Some(text)));
      r.1.status == status && r.1.body == Relayed(text) && r.1.headers == FilterResponseHeaders(hs)
  {
  }

  /** With a clean response the proxy is transparent: the engine gets the
      body and the built request headers, and the client gets the engine's
      status, headers and text as they were. */
  lemma Transparent(headers: seq<(string, HeaderValue)>, body: string, status: int,
                    hs: seq<(string, string)>, text: string)
    requires forall h :: h in hs ==> !IsHopByHop(h.0)
    ensures
      var r := Handle(Some("POST"), headers, body, Answered(status, hs, Some(text)));
      && r.0 == Some(UpstreamRequest(UpstreamUrl, "POST", BuildUpstreamHeaders(headers), body))
      && r.1 == Response(status, hs, Relayed(text))
  {
    FilterKeepsClean(hs);
  }

  /** No response, or a body that cannot be read, gives 502 Bad Gateway. */
  lemma BadGateway(headers: seq<(string, HeaderValue)>, body: string, upstream: Upstream)
    requires upstream.FetchFailed? || upstream.text.None?
    ensures
      var r := Handle(Some("POST"), headers, body, upstream);
      r.1.status == 502 && r.1.body == JsonError("Bad Gateway") &&
      (upstream.FetchFailed? ==> r.1.headers == [])
  {
  }

  /** Any method other than exactly "POST" (the comparison is case-sensitive)
      is refused without contacting the engine. */
  lemma MethodGate(verb: Option<string>, headers: seq<(string, HeaderValue)>, body: string, upstream: Upstream)
    requires verb != Some("POST")
    ensures Handle(verb, headers, body, upstream) == (None, MethodNotAllowed)
  {
  }

  /** A list value is forwarded, even an empty one (as ""); an empty string
      is not. */
  lemma ListValuesForwarded(name: string, values: seq<string>)
    requires !IsHopByHop(name)
    ensures BuildUpstreamHeaders([(name, Multiple(values))]) == map[Text.Lower(name) := Text.Join(values, ", ")]
    ensures BuildUpstreamHeaders([(name, Single(""))]) == map[]
  {
    assert [(name, Multiple(values))][..0] == [];
    assert [(name, Single(""))][..0] == [];
  }
}
