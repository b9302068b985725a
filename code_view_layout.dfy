/** The page layout that wraps a demo with the code panel: outside the home page it
    asks the component-code endpoint for the demo's source and shows the answer,
    or an error text, in place of "Loading code...". */
module CodeViewLayout {
  import opened Wrappers
  import FormUrlEncoding
  import ComponentCodeRoute

  const LoadingText: string := "Loading code..."
  const ErrorPrefix: string := "Error loading code: "
  const FetchFailedMessage: string := "Failed to fetch component code"
  const HomePath: string := "/"

  /** How one fetch ends: an OK response whose JSON has a `code` field, a response
      that is not OK, or a rejection (network failure, unparsable JSON) with its message. */
  datatype FetchOutcome = Ok(code: string) | NotOk | Failed(message: string)

  /** The text the layout shows once a fetch has ended that way. */
  function ShownText(outcome: FetchOutcome): (text: string)
    ensures outcome.Ok? ==> text == outcome.code
    ensures outcome.NotOk? ==> text == ErrorPrefix + FetchFailedMessage
    ensures outcome.Failed? ==> |ErrorPrefix| <= |text| && text[..|ErrorPrefix|] == ErrorPrefix && text[|ErrorPrefix|..] == outcome.message
  {
    match outcome
    case Ok(code) => code
    case NotOk => ErrorPrefix + FetchFailedMessage
    case Failed(message) => ErrorPrefix + message
  }

  /** A response that is not OK is turned into a thrown error with the fixed message,
      so it ends in the same text as a rejection carrying that message; every error
      text starts with the prefix, and only an OK fetch shows code as it came. */
  lemma NotOkIsThrownFailure(outcome: FetchOutcome)
    ensures ShownText(NotOk) == ShownText(Failed(FetchFailedMessage))
    ensures !outcome.Ok? ==> |ErrorPrefix| <= |ShownText(outcome)| && ShownText(outcome)[..|ErrorPrefix|] == ErrorPrefix
  {
  }

  /** What the browser makes of the endpoint's response: `response.ok` holds for the
      2xx statuses, and then the body's `code` field is read. */
  function OutcomeOf(r: ComponentCodeRoute.Response): FetchOutcome {
    if 200 <= r.status < 300 && r.body.CodeBody? then Ok(r.body.code) else NotOk
  }

  /** Served through the endpoint, the layout shows the file's exact text when the
      endpoint can read it, and the fixed fetch-failure text for every error status. */
  lemma ShownTextThroughRoute(componentPath: string, cwd: string, fs: ComponentCodeRoute.FileSystem)
    ensures var r := ComponentCodeRoute.RespondContained(Some(componentPath), cwd, fs);
            var shown := ShownText(OutcomeOf(ComponentCodeRoute.Get(FormUrlEncoding.RequestQuery(componentPath), cwd, fs)));
            && (r.status == 200 ==> shown == r.body.code)
            && (r.status != 200 ==> shown == ErrorPrefix + FetchFailedMessage)
  {
    ComponentCodeRoute.GetOfRequestQuery(componentPath, cwd, fs);
  }

  class Layout {
    /** The text handed to the code panel. */
    var componentCode: string
    var pathname: string
    var componentPath: string
    /** Every query string sent to the endpoint so far, oldest first. */
    var requests: seq<seq<FormUrlEncoding.Byte>>

    /** Mounting: the text starts as the loading text, and outside the home page the
        effect sends the first request. */
    constructor(pathname: string, componentPath: string)
      ensures this.pathname == pathname && this.componentPath == componentPath
      ensures componentCode == LoadingText
      ensures pathname == HomePath ==> requests == []
      ensures pathname != HomePath ==> requests == [FormUrlEncoding.RequestQuery(componentPath)]
    {
      this.pathname := pathname;
      this.componentPath := componentPath;
      componentCode := LoadingText;
      requests := if pathname == HomePath then [] else [FormUrlEncoding.RequestQuery(componentPath)];
    }

    /** A new `componentPath` prop: the effect runs again, and only then, sending one
        more request; the text on screen is left as it is. */
    method SetComponentPath(p: string)
      modifies this
      ensures componentPath == p && pathname == old(pathname) && componentCode == old(componentCode)
      ensures requests == if p != old(componentPath) && pathname != HomePath
                          then old(requests) + [FormUrlEncoding.RequestQuery(p)]
                          else old(requests)
    {
      if p != componentPath && pathname != HomePath {
        requests := requests + [FormUrlEncoding.RequestQuery(p)];
      }
      componentPath := p;
    }

    /** Request `k` ends. Nothing compares `k` with the latest request: whichever
        response is handled last decides the text. */
    method Complete(k: nat, outcome: FetchOutcome)
      requires k < |requests|
      modifies this
      ensures componentCode == ShownText(outcome)
      ensures pathname == old(pathname) && componentPath == old(componentPath) && requests == old(requests)
    {
      componentCode := ShownText(outcome);
    }
  }

  /** A demo whose path changes from `a` to `b`: the answer to `b` arrives first and
      the late answer to `a` overwrites it, so the panel shows `a`'s code while the
      layout's path is `b`. */
  method LateResponseWins() returns (shownPath: string, shown: string)
    ensures shownPath == "b" && shown == "code of a"
  {
    var layout := new Layout("/demo", "a");
    layout.SetComponentPath("b");
    assert |layout.requests| == 2;
    layout.Complete(1, Ok("code of b"));
    layout.Complete(0, Ok("code of a"));
    shownPath := layout.componentPath;
    shown := layout.componentCode;
  }
}
