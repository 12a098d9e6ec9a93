/**
 * Voter-identity resolution for anonymous voters (`getClientIP`): the first
 * truthy header among x-forwarded-for, cf-connecting-ip and x-real-ip, in
 * that priority, with the literal "unknown" when none is set.
 *
 * The request's headers are a map from lower-case header name to value;
 * a name absent from the map is a header that `headers.get` reports as null.
 */
module ClientIp {
  import opened Wrappers
  import opened JsStrings

  type Headers = map<string, string>

  const ForwardedFor := "x-forwarded-for"
  const RealIp := "x-real-ip"
  const CfConnectingIp := "cf-connecting-ip"
  const Unknown := "unknown"

  /** `headers.get(name)`: the value, or null. */
  function Get(headers: Headers, name: string): (r: Option<string>)
    ensures r.Some? <==> name in headers
    ensures r.Some? ==> r.value == headers[name]
  {
    if name in headers then Some(headers[name]) else None
  }

  /** `getClientIP(request)`. */
  function GetClientIp(headers: Headers): (ip: string)
  {
    var forwardedFor := Get(headers, ForwardedFor);
    var realIp := Get(headers, RealIp);
    var cfConnectingIp := Get(headers, CfConnectingIp);
    if TruthyString(forwardedFor) then
      var ips := TrimAll(Split(forwardedFor.value, ','));
      ips[0]
    else if TruthyString(cfConnectingIp) then cfConnectingIp.value
    else if TruthyString(realIp) then realIp.value
    else Unknown
  }

  /** `pieces.map(ip => ip.trim())`. */
  function TrimAll(pieces: seq<string>): (r: seq<string>)
    ensures |r| == |pieces|
    ensures forall k :: 0 <= k < |r| ==> r[k] == Trim(pieces[k])
  {
    seq(|pieces|, k requires 0 <= k < |pieces| => Trim(pieces[k]))
  }

  /** With a non-empty x-forwarded-for the identity is its first comma-separated piece, trimmed. */
  lemma ForwardedForPiece(headers: Headers)
    requires ForwardedFor in headers && headers[ForwardedFor] != ""
    ensures GetClientIp(headers) == Trim(Split(headers[ForwardedFor], ',')[0])
  {
  }

  /**
   * A non-empty x-forwarded-for wins over the other headers: the identity is
   * its text up to the first comma, trimmed.
   */
  lemma ForwardedForWins(headers: Headers)
    requires ForwardedFor in headers && headers[ForwardedFor] != ""
    ensures var v := headers[ForwardedFor];
            GetClientIp(headers) == Trim(v[..IndexOf(v, ',')])
  {
    ForwardedForPiece(headers);
    SplitFirstPiece(headers[ForwardedFor], ',');
  }

  /**
   * An identity taken from x-forwarded-for contains no comma and has no
   * whitespace at either end (it may be empty, as for ",1.2.3.4").
   */
  lemma ForwardedForShape(headers: Headers)
    requires ForwardedFor in headers && headers[ForwardedFor] != ""
    ensures ',' !in GetClientIp(headers)
    ensures var ip := GetClientIp(headers);
            ip == [] || (!IsJsWhitespace(ip[0]) && !IsJsWhitespace(ip[|ip| - 1]))
  {
    ForwardedForPiece(headers);
    var piece := Split(headers[ForwardedFor], ',')[0];
    TrimKeepsAbsent(piece, JsWhitespace, ',');
    TrimEnds(piece, JsWhitespace);
  }

  /** A leading comma gives the empty identity. */
  lemma LeadingCommaGivesEmpty()
    ensures GetClientIp(map[ForwardedFor := ",1.2.3.4"]) == ""
  {
    var h := map[ForwardedFor := ",1.2.3.4"];
    ForwardedForWins(h);
    assert IndexOf(",1.2.3.4", ',') == 0;
  }

  /**
   * Without a truthy x-forwarded-for, cf-connecting-ip is returned verbatim
   * and wins over x-real-ip.
   */
  lemma CfConnectingIpBeatsRealIp(headers: Headers)
    requires !TruthyString(Get(headers, ForwardedFor))
    requires CfConnectingIp in headers && headers[CfConnectingIp] != ""
    ensures GetClientIp(headers) == headers[CfConnectingIp]
  {
  }

  /** With only x-real-ip truthy, it is returned verbatim. */
  lemma RealIpVerbatim(headers: Headers)
    requires !TruthyString(Get(headers, ForwardedFor))
    requires !TruthyString(Get(headers, CfConnectingIp))
    requires RealIp in headers && headers[RealIp] != ""
    ensures GetClientIp(headers) == headers[RealIp]
  {
  }

  /**
   * With none of the three headers truthy (absent or ""), the result is the
   * literal "unknown"; any other result is read from one of the headers.
   */
  lemma UnknownFallback(headers: Headers)
    ensures !TruthyString(Get(headers, ForwardedFor))
            && !TruthyString(Get(headers, CfConnectingIp))
            && !TruthyString(Get(headers, RealIp))
            ==> GetClientIp(headers) == Unknown
    ensures GetClientIp(headers) != Unknown
            ==> TruthyString(Get(headers, ForwardedFor))
                || TruthyString(Get(headers, CfConnectingIp))
                || TruthyString(Get(headers, RealIp))
  {
  }

  /**
   * The identity depends on the three headers alone: requests that agree on
   * them get the same identity, so all header-less voters share "unknown".
   */
  lemma OnlyThreeHeadersMatter(h1: Headers, h2: Headers)
    requires Get(h1, ForwardedFor) == Get(h2, ForwardedFor)
    requires Get(h1, CfConnectingIp) == Get(h2, CfConnectingIp)
    requires Get(h1, RealIp) == Get(h2, RealIp)
    ensures GetClientIp(h1) == GetClientIp(h2)
  {
  }

  /** A request with none of the three headers resolves to "unknown". */
  lemma HeaderlessIsUnknown(headers: Headers)
    requires ForwardedFor !in headers && CfConnectingIp !in headers && RealIp !in headers
    ensures GetClientIp(headers) == Unknown
  {
  }
}
