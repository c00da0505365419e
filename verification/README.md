# ChatCompletion widget — a Dafny model

This project models the decision logic of the `ChatCompletion` React component. The component sends one
fixed chat prompt to the Peerwave chat-completion endpoint and shows the reply. If the server refuses the
request and sends a non-empty `Location` header, it hands the page over to Peerwave's authentication. All I/O is replaced by values:

- `wrappers.dfy`: `Option`, used wherever the source has `string | null`.
- `decimal.dfy`: module `Decimal`. It gives the decimal spelling a template literal produces for an
  integral status code, plus its parser, and proves the two inverse in both directions.
- `chat_client.dfy`: module `ChatClient`. It covers the request `fetchChatCompletion` builds (headers
  and body) and the classification of the response into `Reply`, `AuthRedirect` or `Failed`. It also has
  the parser that recovers the status and body text from a failure message. The token, the page path and
  the query string are parameters. `fetch` is replaced by the `Exchange` it produced: a response record
  `(ok, status, location, bodyText, content)` or a network rejection. Navigation is returned as a value.
- `chat_widget.dfy`: module `ChatWidget`. It covers the state `(response, isLoading, error)`, the setter
  calls of `handleChatCompletion` in source order, `buttonText`, the mount effect, and traces of clicks
  and settlings. The central result is `ReachableStatesShowLoadingLabel`. In every state reachable from
  mounting, `isLoading` implies an empty response. So while an attempt is in flight the button reads
  "Getting Response..." and is disabled. It never reads "Try Again", even though `buttonText` lets a
  response override loading.

A click is possible only while the button is enabled (src/components/ChatCompletion.tsx:42). So a `Click`
event happens only when not loading, and the next attempt starts only after the current one settles.

## Model

| member | source | states |
|---|---|---|
| ChatClient.Headers | src/components/ChatCompletion.tsx:62-71 | The keys are exactly Content-Type and Redirect, plus Authorization iff the token is non-null and non-empty. Content-Type is application/json, Redirect is path + query, and Authorization is the token itself. |
| ChatClient.BuildRequest | src/components/ChatCompletion.tsx:73-85 | A POST to the fixed endpoint with model "fastest" and exactly one message, whose role is user and whose content is the given message. |
| ChatClient.RequestCarriesToken | src/components/ChatCompletion.tsx:67-71 | A request carries a credential iff the token is truthy. When it does, the credential is the token. |
| ChatClient.FailureMessage | src/components/ChatCompletion.tsx:95-99 | The message starts with "Failed to get chat completion: " and ends with the whole body text, preceded by one space. |
| ChatClient.Classify | src/components/ChatCompletion.tsx:87-104 | ok gives the content. Not ok with a non-empty Location gives a redirect to exactly that location. Not ok otherwise gives exactly "Failed to get chat completion: " + status + " " + body text, which parses back to the status and the body text. |
| ChatClient.FailureMessageRoundTrip | src/components/ChatCompletion.tsx:95-99 | The "Failed to get chat completion: status body" message can be parsed back to the exact status and body text. |
| ChatClient.ParsedFailureMessageIsExact | src/components/ChatCompletion.tsx:95-99 | Any message the parser accepts is exactly the failure message of the status and body it reads, so no other spelling (a zero-padded status, say) is accepted. |
| ChatClient.FailureMessageInjective | src/components/ChatCompletion.tsx:95-99 | Different (status, body) pairs give different failure messages. |
| ChatClient.SentinelIsNotFailure | src/components/ChatCompletion.tsx:90-99 | The redirect sentinel "Redirecting to Peerwave auth" is never a failure message and does not parse as one. |
| ChatClient.FetchChatCompletion | src/components/ChatCompletion.tsx:61-105 | For a Location that parses as a URL: the page navigates iff the response is not ok and has a truthy Location, and then it goes to that location and rejects with the sentinel. The promise resolves iff the response is ok, and then with its content. A non-ok response without a usable Location rejects with an Error whose message is exactly the failure text. A network rejection propagates unchanged. |
| ChatClient.FailedCallCarriesStatus | src/components/ChatCompletion.tsx:87-99 | A non-ok response without a usable Location does not navigate and rejects with an Error whose message is exactly the failure text, from which the status and body text read back. |
| Decimal.NatToString | src/components/ChatCompletion.tsx:96-98 | The rendered status is non-empty and all digits. It starts with '0' only for 0, which is then the only digit. |
| Decimal.ParseNatToString | src/components/ChatCompletion.tsx:96-98 | Parsing a rendered status gives back the status. |
| Decimal.NatToStringParseNat | src/components/ChatCompletion.tsx:96-98 | Every canonical numeral is the rendering of the number it parses to. |
| Decimal.NatToStringInjective | src/components/ChatCompletion.tsx:96-98 | Distinct statuses render differently. |
| ChatWidget.ButtonText | src/components/ChatCompletion.tsx:49-54 | The label is "Try Again" iff there is a response. It is "Getting Response..." iff there is no response and loading. It is "Send Message" iff neither holds. |
| ChatWidget.Label | src/components/ChatCompletion.tsx:43 | The rendered label is "Try Again" iff the response is non-empty, "Getting Response..." iff the response is empty and loading, and "Send Message" otherwise. |
| ChatWidget.Start | src/components/ChatCompletion.tsx:11-13 | From any prior state, starting an attempt leaves response and error empty and loading set. The label is then "Getting Response..." and the button is disabled. |
| ChatWidget.StartWritesNeverShowStaleResponse | src/components/ChatCompletion.tsx:11-13 | Starting from a clickable state, after each single setter call of the start, loading implies an empty response and the loading label. |
| ChatWidget.ErrorText | src/components/ChatCompletion.tsx:17-18 | A thrown Error shows its message; any other thrown value shows "An error occurred". |
| ChatWidget.Settle | src/components/ChatCompletion.tsx:15-20 | Loading always ends false. Success sets the response and keeps the error. Failure sets the error to the Error's message, or to "An error occurred" for a non-Error value, and keeps the response. |
| ChatWidget.AttemptEndState | src/components/ChatCompletion.tsx:10-21 | A whole attempt ends in (content, false, "") on success and in ("", false, error text) on failure, whatever the earlier state. |
| ChatWidget.AttemptOnResponse | src/components/ChatCompletion.tsx:10-21 | For each kind of HTTP answer, the state and navigation an attempt ends with: the reply, the sentinel plus navigation, or exactly ("", false, failure text), whose error reads back to the status and body. |
| ChatWidget.Mount | src/components/ChatCompletion.tsx:24-29 | Mounting dispatches exactly one attempt iff the token is non-null and non-empty, and zero otherwise. With zero the state stays initial; with one it is loading with nothing shown. |
| ChatWidget.Step | src/components/ChatCompletion.tsx:10-21 | A click gives ("", true, ""). A settling lowers loading and sets the reply on success, or the displayed error text on failure, keeping the other field. |
| ChatWidget.Run | src/components/ChatCompletion.tsx:10-21 | After a possible non-empty trace, loading holds iff the last event was a click; a trace starting with a click needs a non-loading start. |
| ChatWidget.RunAcceptsExactlyAlternating | src/components/ChatCompletion.tsx:10-21 | A trace is possible iff it alternates presses and settlings, starting with a press when nothing is in flight and with a settling otherwise. Press and settling are the handler's start and the await's completion. |
| ChatWidget.StepPreservesConsistent | src/components/ChatCompletion.tsx:10-21 | A possible click or settling keeps the invariant: loading implies empty response and error, and response and error are never both shown. |
| ChatWidget.RunPreservesConsistent | src/components/ChatCompletion.tsx:4-21 | The invariant holds after every possible trace of clicks and settlings. |
| ChatWidget.ConsistentLabel | src/components/ChatCompletion.tsx:42-53 | In a consistent state, the label is "Getting Response..." iff loading. |
| ChatWidget.ReachableStatesShowLoadingLabel | src/components/ChatCompletion.tsx:42-43 | After mounting with any token and any possible trace, loading holds iff the label is "Getting Response...". While loading the button is disabled and the response is empty. |
| ChatWidget.AttemptsAreSequential | src/components/ChatCompletion.tsx:42 | Along any possible trace, clicks equal settlings up to the single attempt the loading flag reports in flight. |
| ChatWidget.WidgetRequest | src/components/ChatCompletion.tsx:76-84 | Every request the widget sends has model "fastest" and the fixed prompt as its only user message. It carries the credential iff the token is truthy. |

## Left out

- `getToken` (src/components/ChatCompletion.tsx:56-59): reading `window.location.hash` and `URLSearchParams` parsing are browser library code. The token is an `Option<string>` input, and the page path and query are string inputs.
- `fetch` and the network: replaced by the `Exchange` it produced. Timeouts and retries do not exist in the source.
- Navigation through `window.location.href`: returned as `CallResult.navigation` instead of performed.
- ChatClient.FetchChatCompletion: assumes the Location value parses as a URL. Assigning an unparsable one to `window.location.href` (src/components/ChatCompletion.tsx:92) throws. Then no navigation happens, and the promise rejects with that error instead of the sentinel. URL parsing is browser library code.
- `JSON.stringify`, `response.json()`, `response.text()`: the body is the `ChatBody` datatype, and the response's text and `message.content` are given fields. A malformed success body, a non-string `content` and a rejection of `response.text()` are not modelled.
- `response.ok` is a given field. Fetch defines it as a status from 200 to 299; the model does not tie the two.
- JSX rendering (the error paragraph, the prompt, the response section) and `console.log`: only the button's label and disabled flag are modelled.
- React batching and scheduling: a start and a settlement are each applied as one step. Inside the settlement writes, the state after `setResponse` and before `setIsLoading(false)` is not claimed to satisfy the loading invariant.
- Overlapping requests and writes after unmount: the model takes attempts as sequential and the component as mounted.
