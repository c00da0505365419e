/**
 The HTTP side of the chat widget: the request `fetchChatCompletion` sends and
 the way it turns the server's answer into a reply, an authentication
 redirect or an error. The page location and the token read from the URL
 fragment are explicit inputs; `fetch` itself is replaced by the exchange it
 produced.
 */
module ChatClient {
  import opened Wrappers
  import Decimal

  const Endpoint: string := "https://api.peerwave.ai/api/chat"
  const ModelName: string := "fastest"
  const ContentTypeKey: string := "Content-Type"
  const RedirectKey: string := "Redirect"
  const AuthorizationKey: string := "Authorization"
  const JsonMediaType: string := "application/json"
  const RedirectSentinel: string := "Redirecting to Peerwave auth"
  const FailurePrefix: string := "Failed to get chat completion: "

  /** JavaScript truthiness of a `string | null`: null and "" are both falsy. */
  predicate Truthy(v: Option<string>) {
    v.Some? && v.value != ""
  }

  datatype ChatMessage = ChatMessage(role: string, content: string)

  /** The JSON request body, before serialisation. */
  datatype ChatBody = ChatBody(model: string, messages: seq<ChatMessage>)

  datatype ChatRequest = ChatRequest(
    url: string,
    httpMethod: string,
    headers: map<string, string>,
    body: ChatBody)

  /**
   The request headers: the two fixed entries, plus the token as
   `Authorization` only when it is truthy.
   */
  function Headers(token: Option<string>, pathname: string, search: string): (h: map<string, string>)
    ensures h.Keys == {ContentTypeKey, RedirectKey} + (if Truthy(token) then {AuthorizationKey} else {})
    ensures ContentTypeKey in h && h[ContentTypeKey] == JsonMediaType
    ensures RedirectKey in h && h[RedirectKey] == pathname + search
    ensures AuthorizationKey in h <==> Truthy(token)
    ensures AuthorizationKey in h ==> h[AuthorizationKey] == token.value
  {
    var base := map[ContentTypeKey := JsonMediaType, RedirectKey := pathname + search];
    if Truthy(token) then base[AuthorizationKey := token.value] else base
  }

  /** The POST request that carries `message` as the single user message. */
  function BuildRequest(message: string, token: Option<string>, pathname: string, search: string): (r: ChatRequest)
    ensures r.url == Endpoint && r.httpMethod == "POST"
    ensures r.body.model == ModelName
    ensures |r.body.messages| == 1
    ensures r.body.messages[0].role == "user" && r.body.messages[0].content == message
    ensures r.headers == Headers(token, pathname, search)
  {
    ChatRequest(Endpoint, "POST", Headers(token, pathname, search), ChatBody(ModelName, [ChatMessage("user", message)]))
  }

  /** What a server reads as the caller's credential: the `Authorization` header, if any. */
  function CredentialOf(req: ChatRequest): Option<string> {
    if AuthorizationKey in req.headers then Some(req.headers[AuthorizationKey]) else None
  }

  /**
   A request carries a credential exactly when the token is truthy, and then
   it is the token itself; the return path is always the page path and query.
   */
  lemma RequestCarriesToken(message: string, token: Option<string>, pathname: string, search: string)
    ensures var req := BuildRequest(message, token, pathname, search);
      && (CredentialOf(req).Some? <==> Truthy(token))
      && (Truthy(token) ==> CredentialOf(req) == token)
      && req.headers[RedirectKey] == pathname + search
  {
  }

  /**
   The parts of a `fetch` response the code looks at: `ok`, `status`, the
   `Location` header (`null` when absent), the body as text, and, for a
   success, `message.content` of the JSON body.
   */
  datatype HttpResponse = HttpResponse(
    ok: bool,
    status: nat,
    location: Option<string>,
    bodyText: string,
    content: string)

  datatype Outcome =
    | Reply(content: string)
    | AuthRedirect(location: string)
    | Failed(message: string)

  /**
   The error text for a non-ok response without a usable `Location` header:
   the fixed prefix, the status in decimal, one space, then the body text.
   */
  function FailureMessage(status: nat, bodyText: string): (m: string)
    ensures |m| > |FailurePrefix| + |bodyText| && m[..|FailurePrefix|] == FailurePrefix
    ensures m[|m| - |bodyText|..] == bodyText && m[|m| - |bodyText| - 1] == ' '
  {
    FailurePrefix + Decimal.NatToString(status) + " " + bodyText
  }

  /** First position of `c` in `s`. */
  function IndexOf(s: string, c: char): (r: Option<nat>)
    ensures r.Some? ==> r.value < |s| && s[r.value] == c && c !in s[..r.value]
    ensures r.None? ==> c !in s
  {
    if |s| == 0 then None
    else if s[0] == c then Some(0)
    else
      match IndexOf(s[1..], c)
      case None => None
      case Some(i) =>
        assert s[..i + 1] == [s[0]] + s[1..][..i];
        Some(i + 1)
  }

  /**
   Recovers the status code and body text from an error message of the
   failure kind: the prefix, a canonical decimal numeral, a space, and the
   body. Any other message gives None.
   */
  function ParseFailureMessage(m: string): Option<(nat, string)> {
    if |m| >= |FailurePrefix| && m[..|FailurePrefix|] == FailurePrefix then
      var rest := m[|FailurePrefix|..];
      match IndexOf(rest, ' ')
      case None => None
      case Some(i) =>
        if Decimal.Canonical(rest[..i]) then Some((Decimal.DigitsValue(rest[..i]), rest[i + 1..]))
        else None
    else None
  }

  /** The failure message keeps both the status and the whole body text. */
  lemma FailureMessageRoundTrip(status: nat, bodyText: string)
    ensures ParseFailureMessage(FailureMessage(status, bodyText)) == Some((status, bodyText))
  {
    var digits := Decimal.NatToString(status);
    var m := FailureMessage(status, bodyText);
    var rest := digits + " " + bodyText;
    assert m == FailurePrefix + rest;
    assert m[..|FailurePrefix|] == FailurePrefix;
    assert m[|FailurePrefix|..] == rest;
    assert rest[|digits|] == ' ';
    var i := IndexOf(rest, ' ');
    assert i == Some(|digits|);
    assert rest[..|digits|] == digits;
    assert rest[|digits| + 1..] == bodyText;
    Decimal.ParseNatToString(status);
  }

  /** Every message the parser accepts is exactly the failure message it names. */
  lemma ParsedFailureMessageIsExact(m: string)
    ensures ParseFailureMessage(m).Some? ==>
      m == FailureMessage(ParseFailureMessage(m).value.0, ParseFailureMessage(m).value.1)
  {
    if ParseFailureMessage(m).Some? {
      var rest := m[|FailurePrefix|..];
      var i := IndexOf(rest, ' ').value;
      var digits := rest[..i];
      Decimal.NatToStringParseNat(digits);
      assert Decimal.NatToString(Decimal.DigitsValue(digits)) == digits;
      assert rest == digits + " " + rest[i + 1..];
      assert m == m[..|FailurePrefix|] + rest;
    }
  }

  /** The redirect sentinel is never mistaken for a failure message. */
  lemma SentinelIsNotFailure(status: nat, bodyText: string)
    ensures ParseFailureMessage(RedirectSentinel) == None
    ensures FailureMessage(status, bodyText) != RedirectSentinel
  {
  }

  /** Distinct (status, body) pairs give distinct failure messages. */
  lemma FailureMessageInjective(s1: nat, b1: string, s2: nat, b2: string)
    requires FailureMessage(s1, b1) == FailureMessage(s2, b2)
    ensures s1 == s2 && b1 == b2
  {
    FailureMessageRoundTrip(s1, b1);
    FailureMessageRoundTrip(s2, b2);
  }

  /**
   How `fetchChatCompletion` reads a response: an ok response yields its
   content; otherwise a truthy `Location` header means an authentication
   redirect, and anything else an error carrying the status and body text.
   */
  function Classify(resp: HttpResponse): (r: Outcome)
    ensures resp.ok ==> r == Reply(resp.content)
    ensures !resp.ok && Truthy(resp.location) ==> r == AuthRedirect(resp.location.value)
    ensures !resp.ok && !Truthy(resp.location) ==>
      r == Failed(FailureMessage(resp.status, resp.bodyText))
      && ParseFailureMessage(r.message) == Some((resp.status, resp.bodyText))
    ensures r.AuthRedirect? ==> r.location != ""
  {
    if !resp.ok then
      if Truthy(resp.location) then AuthRedirect(resp.location.value)
      else
        FailureMessageRoundTrip(resp.status, resp.bodyText);
        Failed(FailureMessage(resp.status, resp.bodyText))
    else Reply(resp.content)
  }

  /** A value thrown in JavaScript: an `Error` with its message, or anything else. */
  datatype Thrown = ErrorObject(message: string) | OtherValue

  /** How the returned promise settles. */
  datatype Completion = Resolved(content: string) | Rejected(thrown: Thrown)

  /** What a `fetch` call produced: a response, or a rejection before any response arrived. */
  datatype Exchange = Delivered(response: HttpResponse) | NetworkFailure(thrown: Thrown)

  /**
   One call of `fetchChatCompletion`: how its promise settles, and the page
   it sent the browser to, if any.
   */
  datatype CallResult = CallResult(completion: Completion, navigation: Option<string>)

  function FetchChatCompletion(exchange: Exchange): (r: CallResult)
    ensures r.navigation.Some? <==>
      exchange.Delivered? && !exchange.response.ok && Truthy(exchange.response.location)
    ensures r.navigation.Some? ==>
      r.navigation.value == exchange.response.location.value
      && r.completion == Rejected(ErrorObject(RedirectSentinel))
    ensures r.completion.Resolved? <==> exchange.Delivered? && exchange.response.ok
    ensures r.completion.Resolved? ==> r.completion.content == exchange.response.content
    ensures exchange.NetworkFailure? ==> r.completion == Rejected(exchange.thrown)
    ensures exchange.Delivered? && !exchange.response.ok && !Truthy(exchange.response.location) ==>
      r.completion
      == Rejected(ErrorObject(FailureMessage(exchange.response.status, exchange.response.bodyText)))
  {
    match exchange
    case NetworkFailure(t) => CallResult(Rejected(t), None)
    case Delivered(resp) =>
      match Classify(resp)
      case Reply(c) => CallResult(Resolved(c), None)
      case AuthRedirect(l) => CallResult(Rejected(ErrorObject(RedirectSentinel)), Some(l))
      case Failed(m) => CallResult(Rejected(ErrorObject(m)), None)
  }

  /**
   A non-ok response without a usable `Location` rejects with an `Error`
   whose message is exactly the failure text, from which the status and the
   body text can be read back.
   */
  lemma FailedCallCarriesStatus(resp: HttpResponse)
    requires !resp.ok && !Truthy(resp.location)
    ensures var r := FetchChatCompletion(Delivered(resp));
      && r.navigation == None
      && r.completion == Rejected(ErrorObject(FailureMessage(resp.status, resp.bodyText)))
      && ParseFailureMessage(r.completion.thrown.message) == Some((resp.status, resp.bodyText))
  {
  }
}
