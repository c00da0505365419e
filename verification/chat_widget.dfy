/**
 The `ChatCompletion` component as a state machine over its three state
 hooks `(response, isLoading, error)`: the attempt handler, the button label,
 the automatic attempt on mount, and the traces a user can drive it through.
 Rendering is reduced to the label and the disabled flag of the button.
 */
module ChatWidget {
  import opened Wrappers
  import opened ChatClient

  const StaticMessage: string := "Hello! Can you tell me a fun fact about space?"
  const TryAgainLabel: string := "Try Again"
  const LoadingLabel: string := "Getting Response..."
  const SendLabel: string := "Send Message"
  const GenericError: string := "An error occurred"

  datatype ViewState = ViewState(response: string, isLoading: bool, error: string)

  /** The values the three state hooks start with. */
  const Initial: ViewState := ViewState("", false, "")

  /** One call of a state setter. */
  datatype Write = SetResponse(text: string) | SetIsLoading(flag: bool) | SetError(text: string)

  function Apply(s: ViewState, w: Write): ViewState {
    match w
    case SetResponse(t) => s.(response := t)
    case SetIsLoading(b) => s.(isLoading := b)
    case SetError(t) => s.(error := t)
  }

  /** The setter calls applied in order. */
  function ApplyAll(s: ViewState, ws: seq<Write>): ViewState
    decreases |ws|
  {
    if |ws| == 0 then s else ApplyAll(Apply(s, ws[0]), ws[1..])
  }

  /** Two setter calls in a row. */
  lemma ApplyTwo(s: ViewState, a: Write, b: Write)
    ensures ApplyAll(s, [a, b]) == Apply(Apply(s, a), b)
  {
    assert [a, b][1..] == [b];
    assert [b][1..] == [];
    assert ApplyAll(s, [a, b]) == ApplyAll(Apply(s, a), [b]);
    assert ApplyAll(Apply(s, a), [b]) == ApplyAll(Apply(Apply(s, a), b), []);
  }

  /** The label of the button; a response on screen takes precedence over loading. */
  function ButtonText(hasResponse: bool, isLoading: bool): (r: string)
    ensures r == TryAgainLabel <==> hasResponse
    ensures r == LoadingLabel <==> !hasResponse && isLoading
    ensures r == SendLabel <==> !hasResponse && !isLoading
  {
    if hasResponse then TryAgainLabel
    else if isLoading then LoadingLabel
    else SendLabel
  }

  /** The label rendered for a state, with "has a response" read as a non-empty response. */
  function Label(s: ViewState): (r: string)
    ensures r == TryAgainLabel <==> s.response != ""
    ensures r == LoadingLabel <==> s.response == "" && s.isLoading
    ensures r == SendLabel <==> s.response == "" && !s.isLoading
  {
    ButtonText(s.response != "", s.isLoading)
  }

  /** The button's `disabled` attribute. */
  predicate Disabled(s: ViewState) {
    s.isLoading
  }

  /** The writes that open an attempt: clear the response, raise the flag, clear the error. */
  const StartWrites: seq<Write> := [SetResponse(""), SetIsLoading(true), SetError("")]

  /** Opening an attempt forgets everything the previous state held. */
  function Start(s: ViewState): (r: ViewState)
    ensures r.response == "" && r.error == "" && r.isLoading
    ensures Label(r) == LoadingLabel && Disabled(r)
  {
    assert StartWrites[1..] == [SetIsLoading(true), SetError("")];
    ApplyTwo(s.(response := ""), SetIsLoading(true), SetError(""));
    ApplyAll(s, StartWrites)
  }

  /**
   Taken one setter call at a time from a state where the button could be
   pressed, the opening writes never show a stale response with the flag
   raised, because the response is cleared before the flag is set.
   */
  lemma StartWritesNeverShowStaleResponse(s: ViewState, k: nat)
    requires !s.isLoading && k <= |StartWrites|
    ensures var t := ApplyAll(s, StartWrites[..k]);
      t.isLoading ==> t.response == "" && Label(t) == LoadingLabel
  {
    var t := ApplyAll(s, StartWrites[..k]);
    if k == 1 {
      assert StartWrites[..1] == [SetResponse("")];
      assert StartWrites[..1][1..] == [];
    } else if k == 2 {
      assert StartWrites[..2] == [SetResponse(""), SetIsLoading(true)];
      ApplyTwo(s, SetResponse(""), SetIsLoading(true));
    } else if k == 3 {
      assert StartWrites[..k] == StartWrites;
    }
  }

  /** What the `catch` branch displays for a thrown value. */
  function ErrorText(t: Thrown): (r: string)
    ensures t.ErrorObject? ==> r == t.message
    ensures t.OtherValue? ==> r == GenericError
  {
    match t
    case ErrorObject(m) => m
    case OtherValue => GenericError
  }

  /**
   Settling an attempt: a resolved promise sets the response, a rejected one
   the error; either way the flag is lowered and the other field is untouched.
   */
  function Settle(s: ViewState, c: Completion): (r: ViewState)
    ensures !r.isLoading && !Disabled(r)
    ensures c.Resolved? ==> r.response == c.content && r.error == s.error
    ensures c.Rejected? ==> r.error == ErrorText(c.thrown) && r.response == s.response
  {
    match c
    case Resolved(x) =>
      ApplyTwo(s, SetResponse(x), SetIsLoading(false));
      ApplyAll(s, [SetResponse(x), SetIsLoading(false)])
    case Rejected(t) =>
      ApplyTwo(s, SetError(ErrorText(t)), SetIsLoading(false));
      ApplyAll(s, [SetError(ErrorText(t)), SetIsLoading(false)])
  }

  /**
   A whole attempt, whatever the state it began in: success leaves only the
   reply, failure only the error text, and the flag is always lowered.
   */
  lemma AttemptEndState(s: ViewState, c: Completion)
    ensures c.Resolved? ==> Settle(Start(s), c) == ViewState(c.content, false, "")
    ensures c.Rejected? ==> Settle(Start(s), c) == ViewState("", false, ErrorText(c.thrown))
  {
  }

  /**
   An authentication redirect shows the sentinel error while the browser
   navigates; a non-ok answer without `Location` shows the status and body text.
   */
  lemma AttemptOnResponse(s: ViewState, resp: HttpResponse)
    ensures var call := FetchChatCompletion(Delivered(resp));
      var t := Settle(Start(s), call.completion);
      && (resp.ok ==> t == ViewState(resp.content, false, ""))
      && (!resp.ok && Truthy(resp.location) ==>
            t == ViewState("", false, RedirectSentinel) && call.navigation == Some(resp.location.value))
      && (!resp.ok && !Truthy(resp.location) ==>
            t == ViewState("", false, FailureMessage(resp.status, resp.bodyText))
            && ParseFailureMessage(t.error) == Some((resp.status, resp.bodyText)))
  {
  }

  /** The state after mounting and the number of attempts the mount effect dispatched. */
  datatype Mounted = Mounted(state: ViewState, dispatched: nat)

  /** The mount effect: one attempt when the token is truthy, none otherwise. */
  function Mount(token: Option<string>): (r: Mounted)
    ensures r.dispatched <= 1
    ensures r.dispatched == 1 <==> token.Some? && token.value != ""
    ensures r.dispatched == 0 ==> r.state == Initial
    ensures r.dispatched == 1 ==> r.state.isLoading && r.state.response == "" && r.state.error == ""
  {
    if Truthy(token) then Mounted(Start(Initial), 1) else Mounted(Initial, 0)
  }

  /** What can happen to a mounted widget: a button press, or the pending call settling. */
  datatype Event = Click | Settled(exchange: Exchange)

  /** A press needs an enabled button; a settling needs an attempt in flight. */
  predicate Enabled(s: ViewState, e: Event) {
    match e
    case Click => !Disabled(s)
    case Settled(_) => s.isLoading
  }

  /**
   A press opens an attempt; a settling closes it with what the call
   produced: the reply on success, the displayed error text otherwise.
   */
  function Step(s: ViewState, e: Event): (r: ViewState)
    ensures e.Click? ==> r == ViewState("", true, "")
    ensures e.Settled? ==> !r.isLoading
    ensures e.Settled? ==> var c := FetchChatCompletion(e.exchange).completion;
      c.Resolved? ==> r.response == c.content && r.error == s.error
    ensures e.Settled? ==> var c := FetchChatCompletion(e.exchange).completion;
      c.Rejected? ==> r.error == ErrorText(c.thrown) && r.response == s.response
  {
    match e
    case Click => Start(s)
    case Settled(x) => Settle(s, FetchChatCompletion(x).completion)
  }

  /** Runs a trace of events; None when some event was not possible at its turn. */
  function Run(s: ViewState, evs: seq<Event>): (r: Option<ViewState>)
    ensures r.Some? && |evs| == 0 ==> r.value == s
    ensures r.Some? && |evs| > 0 ==> (r.value.isLoading <==> evs[|evs| - 1].Click?)
    ensures r.Some? && |evs| > 0 && evs[0].Click? ==> !s.isLoading
    decreases |evs|
  {
    if |evs| == 0 then Some(s)
    else if Enabled(s, evs[0]) then Run(Step(s, evs[0]), evs[1..])
    else None
  }

  /**
   A trace alternates presses and settlings, beginning with a press when
   nothing is in flight and with a settling otherwise.
   */
  predicate Alternating(loading: bool, evs: seq<Event>) {
    forall i | 0 <= i < |evs| :: evs[i].Click? == ((i % 2 == 0) == !loading)
  }

  /** The possible traces are exactly the alternating ones. */
  lemma {:induction false} RunAcceptsExactlyAlternating(s: ViewState, evs: seq<Event>)
    ensures Run(s, evs).Some? <==> Alternating(s.isLoading, evs)
    decreases |evs|
  {
    if |evs| > 0 {
      var tail := evs[1..];
      assert Enabled(s, evs[0]) <==> evs[0].Click? == !s.isLoading;
      assert Alternating(s.isLoading, evs) <==>
        evs[0].Click? == !s.isLoading && Alternating(!s.isLoading, tail) by {
        forall j | 0 <= j < |tail|
          ensures tail[j] == evs[j + 1] && ((j + 1) % 2 == 0) == !(j % 2 == 0)
        {
        }
      }
      if Enabled(s, evs[0]) {
        assert Step(s, evs[0]).isLoading == !s.isLoading;
        RunAcceptsExactlyAlternating(Step(s, evs[0]), tail);
      }
    }
  }

  /**
   The invariant of the reachable states: while loading, nothing is shown,
   and a response and an error are never shown together.
   */
  predicate Consistent(s: ViewState) {
    && (s.isLoading ==> s.response == "" && s.error == "")
    && (s.response == "" || s.error == "")
  }

  lemma StepPreservesConsistent(s: ViewState, e: Event)
    requires Consistent(s) && Enabled(s, e)
    ensures Consistent(Step(s, e))
  {
  }

  lemma {:induction false} RunPreservesConsistent(s: ViewState, evs: seq<Event>)
    requires Consistent(s)
    ensures Run(s, evs).Some? ==> Consistent(Run(s, evs).value)
    decreases |evs|
  {
    if |evs| > 0 && Enabled(s, evs[0]) {
      StepPreservesConsistent(s, evs[0]);
      RunPreservesConsistent(Step(s, evs[0]), evs[1..]);
    }
  }

  /** In a consistent state the label reads "Getting Response..." exactly while the button is disabled. */
  lemma ConsistentLabel(s: ViewState)
    requires Consistent(s)
    ensures Label(s) == LoadingLabel <==> s.isLoading
  {
  }

  /**
   Every state reachable from mounting, whatever the token and the events
   that followed, is consistent; so while an attempt is in flight the button
   is disabled and reads "Getting Response...", never "Try Again".
   */
  lemma ReachableStatesShowLoadingLabel(token: Option<string>, evs: seq<Event>)
    ensures var r := Run(Mount(token).state, evs);
      r.Some? ==>
        && Consistent(r.value)
        && (r.value.isLoading <==> Label(r.value) == LoadingLabel)
        && (r.value.isLoading ==> Disabled(r.value) && r.value.response == "")
  {
    var m := Mount(token).state;
    assert Consistent(m);
    RunPreservesConsistent(m, evs);
    var r := Run(m, evs);
    if r.Some? {
      ConsistentLabel(r.value);
    }
  }

  function Clicks(evs: seq<Event>): nat
    decreases |evs|
  {
    if |evs| == 0 then 0 else (if evs[0].Click? then 1 else 0) + Clicks(evs[1..])
  }

  function Settlements(evs: seq<Event>): nat
    decreases |evs|
  {
    if |evs| == 0 then 0 else (if evs[0].Settled? then 1 else 0) + Settlements(evs[1..])
  }

  function InFlight(s: ViewState): nat {
    if s.isLoading then 1 else 0
  }

  /**
   Attempts are sequential: along any possible trace, presses and settlings
   balance exactly up to the one attempt the loading flag says is in flight.
   */
  lemma {:induction false} AttemptsAreSequential(s: ViewState, evs: seq<Event>)
    ensures var r := Run(s, evs);
      r.Some? ==> InFlight(s) + Clicks(evs) == Settlements(evs) + InFlight(r.value)
    decreases |evs|
  {
    if |evs| > 0 && Enabled(s, evs[0]) {
      AttemptsAreSequential(Step(s, evs[0]), evs[1..]);
    }
  }

  /** Each request the widget sends carries the fixed prompt and the page's token and return path. */
  lemma WidgetRequest(token: Option<string>, pathname: string, search: string)
    ensures var req := BuildRequest(StaticMessage, token, pathname, search);
      && req.body.messages == [ChatMessage("user", StaticMessage)]
      && req.body.model == "fastest"
      && (CredentialOf(req) == if Truthy(token) then token else None)
  {
  }
}
