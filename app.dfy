/** The client controller (src/js/app.js): the module-level `state`, the
    load-more button and the handlers wired to the page. Every `await` is a
    point where the browser may run other handlers, so each handler is split
    there: the part before it returns the request it would send, and the part
    after it takes the service's answer as a parameter. */
module App {
  import opened Wrappers
  import opened JsBuiltins
  import opened Ui
  import MockServer

  /** What a chatService call resolves to: `{ data }` or `{ error }`. */
  datatype ServiceResult<T> = Ok(data: T) | Err(error: string)

  /** `if (result.error)`: an empty error string does not count as a failure. */
  predicate Failed<T>(r: ServiceResult<T>) {
    r.Err? && r.error != ""
  }

  /** The body of a message page: `data` and `total`, either possibly missing. */
  datatype PagePayload = PagePayload(data: Option<seq<MsgValue>>, total: Option<int>)

  const LoginFailedPrefix := "登录失败："
  const LoadFailedPrefix := "加载失败："
  const SendFailedPrefix := "错误："

  /** Whether init falls back to login after register answered. */
  predicate TriesLogin(register: ServiceResult<string>) {
    register == Err(MockServer.UserExists)
  }

  /** The `result` init holds once register, and login if it was tried, have answered. */
  function SignIn(register: ServiceResult<string>, login: ServiceResult<string>): (r: ServiceResult<string>)
    ensures TriesLogin(register) ==> r == login
    ensures !TriesLogin(register) ==> r == register
  {
    if register.Err? && register.error != "" && register.error == MockServer.UserExists then login else register
  }

  /** Everything appendMessage adds for a list of messages, one after another. */
  function RenderAll(list: seq<MsgValue>): (r: seq<Element>)
    ensures |r| <= |list|
  {
    if list == [] then [] else RenderAll(list[..|list| - 1]) + Render(list[|list| - 1])
  }

  lemma RenderAllStep(list: seq<MsgValue>, i: nat)
    requires i < |list|
    ensures RenderAll(list[..i + 1]) == RenderAll(list[..i]) + Render(list[i])
  {
    assert list[..i + 1][..i] == list[..i];
  }

  /** One more message of the list, pushed and rendered. */
  lemma PushStep(m0: seq<MsgValue>, c0: seq<Element>, list: seq<MsgValue>, i: nat)
    requires i < |list|
    ensures m0 + list[..i] + [list[i]] == m0 + list[..i + 1]
    ensures c0 + RenderAll(list[..i]) + Render(list[i]) == c0 + RenderAll(list[..i + 1])
  {
    assert list[..i + 1] == list[..i] + [list[i]];
    RenderAllStep(list, i);
  }

  /** What the list of a page becomes: `result.data.data || []`. */
  function PageList(p: PagePayload): (r: seq<MsgValue>)
    ensures p.data.Some? ==> r == p.data.value
    ensures p.data.None? ==> r == []
  {
    p.data.GetOr([])
  }

  /** A stored message as the client receives it: the server sends `id`, `role`,
      `content` and `timestamp`, and no `type`. */
  function FromServer(m: MockServer.Message): MsgValue {
    Obj(Some(if m.role == MockServer.User then "user" else "bot"), None, Text(m.content))
  }

  /** appendMessage dispatches on `type`, which stored messages lack, so a page of
      history adds nothing to the container. */
  lemma {:induction false} HistoryRendersNothing(history: seq<MockServer.Message>)
    ensures RenderAll(seq(|history|, i requires 0 <= i < |history| => FromServer(history[i]))) == []
    decreases |history|
  {
    if history != [] {
      var all := seq(|history|, i requires 0 <= i < |history| => FromServer(history[i]));
      var front := history[..|history| - 1];
      assert all[..|all| - 1] == seq(|front|, i requires 0 <= i < |front| => FromServer(front[i]));
      HistoryRendersNothing(front);
      assert Render(all[|all| - 1]) == [];
    }
  }

  /** sendMessage resolves to the reply as a bare string, and appendMessage
      renders nothing for a value without `type`: the reply is stored but not shown. */
  lemma ReplyRendersNothing(reply: string)
    ensures Render(Str(reply)) == []
  {
  }

  /** The page: the chat view, the input area, `state` and the load-more button. */
  class ChatApp {
    const view: ChatView
    const input: InputArea
    var messages: seq<MsgValue>
    var loading: bool
    var page: int
    var total: int
    var loadMoreVisible: bool

    /** The loading flag and the indicator go together, the page number never
        drops below 1, and the send button follows the trimmed input. */
    ghost predicate Valid()
      reads this, view, input
    {
      && view.Valid()
      && (loading <==> view.loadingGroup)
      && page >= 1
      && input.sendVisible == HasContent(input.value)
      && input.hasSendBtn == input.sendVisible
    }

    /** Module start-up: the state record, the hidden load-more button and the
        first resize and toggle of the empty input. */
    constructor (m: Measurement)
      ensures Valid() && fresh(view) && fresh(input)
      ensures messages == [] && !loading && page == 1 && total == 0 && !loadMoreVisible
      ensures view.children == [] && input.value == "" && !input.sendVisible
      ensures input.height == (if PlanResize(m).writeHeight then Px(PlanResize(m).target) else AutoHeight)
      ensures input.overflowY == PlanResize(m).overflow
    {
      view := new ChatView();
      input := new InputArea();
      messages := [];
      loading := false;
      page := 1;
      total := 0;
      loadMoreVisible := false;
      new;
      input.AutoResize(m);
      input.ToggleSendButton();
      TrimEmptyIff("");
    }

    /** loadMessages after fetchMessages has answered. */
    method LoadMessages(result: ServiceResult<PagePayload>)
      requires Valid()
      modifies this, view
      ensures Valid() && old(messages) <= messages
      ensures loading == old(loading) && page == old(page) && view.loadingGroup == old(view.loadingGroup)
      ensures Failed(result) ==>
                && messages == old(messages) && total == old(total)
                && loadMoreVisible == old(loadMoreVisible)
                && view.children == old(view.children) + [Bubble(Received, LoadFailedPrefix + result.error)]
      ensures result == Err("") ==>
                && messages == old(messages) && total == old(total)
                && loadMoreVisible == old(loadMoreVisible) && view.children == old(view.children)
      ensures result.Ok? ==>
                && messages == old(messages) + PageList(result.data)
                && total == OrDefault(result.data.total, 0)
                && view.children == old(view.children) + RenderAll(PageList(result.data))
                && (loadMoreVisible <==> |messages| < total)
    {
      if Failed(result) {
        view.AppendBotMessage(LoadFailedPrefix + result.error);
        return;
      }
      if result.Err? {
        // `result.data` is undefined here, so reading `.data` throws.
        return;
      }
      var list := PageList(result.data);
      total := OrDefault(result.data.total, 0);
      PushAll(list);
      loadMoreVisible := !(|messages| >= total);
    }

    /** `state.messages.push(msg)` followed by appendMessage. */
    method Push(msg: MsgValue)
      requires view.Valid()
      modifies this, view
      ensures view.Valid() && view.loadingGroup == old(view.loadingGroup)
      ensures messages == old(messages) + [msg]
      ensures view.children == old(view.children) + Render(msg)
      ensures loading == old(loading) && page == old(page) && total == old(total)
      ensures loadMoreVisible == old(loadMoreVisible)
    {
      messages := messages + [msg];
      view.AppendMessage(msg);
    }

    /** The forEach of loadMessages: each message is pushed and appended in turn. */
    method PushAll(list: seq<MsgValue>)
      requires view.Valid()
      modifies this, view
      ensures view.Valid() && view.loadingGroup == old(view.loadingGroup)
      ensures messages == old(messages) + list
      ensures view.children == old(view.children) + RenderAll(list)
      ensures loading == old(loading) && page == old(page) && total == old(total)
      ensures loadMoreVisible == old(loadMoreVisible)
    {
      for i := 0 to |list|
        invariant view.Valid() && view.loadingGroup == old(view.loadingGroup)
        invariant messages == old(messages) + list[..i]
        invariant view.children == old(view.children) + RenderAll(list[..i])
        invariant loading == old(loading) && page == old(page) && total == old(total)
        invariant loadMoreVisible == old(loadMoreVisible)
      {
        PushStep(old(messages), old(view.children), list, i);
        Push(list[i]);
      }
      assert list[..|list|] == list;
    }

    /** init after register, and login when it was tried, have answered: on
        failure a bot bubble, otherwise the page to load. */
    method Init(register: ServiceResult<string>, login: ServiceResult<string>)
      returns (triedLogin: bool, load: Option<int>)
      requires Valid()
      modifies view
      ensures Valid()
      ensures triedLogin <==> TriesLogin(register)
      ensures load.Some? <==> !Failed(SignIn(register, login))
      ensures load.Some? ==> load.value == page && view.children == old(view.children)
      ensures load.None? ==>
                view.children == old(view.children) + [Bubble(Received, LoginFailedPrefix + SignIn(register, login).error)]
      ensures view.loadingGroup == old(view.loadingGroup)
    {
      var result := register;
      triedLogin := false;
      if result.Err? && result.error != "" {
        if result.error == MockServer.UserExists {
          triedLogin := true;
          result := login;
        }
      }
      if result.Err? && result.error != "" {
        view.AppendBotMessage(LoginFailedPrefix + result.error);
        return triedLogin, None;
      }
      return triedLogin, Some(page);
    }

    /** resetInput. */
    method ResetInput(m: Measurement)
      requires Valid()
      modifies input
      ensures Valid()
      ensures input.value == "" && !input.sendVisible
      ensures var plan := PlanResize(m);
              && input.height == (if plan.writeHeight then Px(plan.target) else AutoHeight)
              && input.overflowY == plan.overflow
    {
      input.value := "";
      input.height := AutoHeight;
      input.AutoResize(m);
      input.ToggleSendButton();
      TrimEmptyIff("");
    }

    /** What handleSend does up to its `await`, read against the state before it. */
    twostate predicate SendStarted(m: Measurement, new request: Option<string>)
      reads this, view, input
    {
      var text := Trim(old(input.value));
      if text == "" then
        && request.None?
        && messages == old(messages) && loading == old(loading)
        && view.children == old(view.children) && view.loadingGroup == old(view.loadingGroup)
        && input.value == old(input.value) && input.height == old(input.height)
        && input.overflowY == old(input.overflowY)
      else
        && request == Some(text)
        && messages == old(messages) + [Obj(Some("user"), Some("text"), Text(text))]
        && view.children == old(view.children) + [Bubble(Sent, text)]
                            + (if old(view.loadingGroup) then [] else [LoadingIndicator])
        && loading && view.loadingGroup
        && input.value == "" && !input.sendVisible
        && input.overflowY == PlanResize(m).overflow
        && input.height == (if PlanResize(m).writeHeight then Px(PlanResize(m).target) else AutoHeight)
    }

    /** handleSend up to `await sendMessage(text)`: returns the text it sends, if any. */
    method SendStart(m: Measurement) returns (request: Option<string>)
      requires Valid()
      modifies this, view, input
      ensures Valid() && old(messages) <= messages
      ensures page == old(page) && total == old(total) && loadMoreVisible == old(loadMoreVisible)
      ensures SendStarted(m, request)
    {
      var text := Trim(input.value);
      if text == "" {
        return None;
      }
      Submit(text, m);
      return Some(text);
    }

    /** The body of handleSend once the trimmed text is known to be non-empty. */
    method Submit(text: string, m: Measurement)
      requires Valid()
      modifies this, view, input
      ensures Valid()
      ensures messages == old(messages) + [Obj(Some("user"), Some("text"), Text(text))]
      ensures view.children == old(view.children) + [Bubble(Sent, text)]
                               + (if old(view.loadingGroup) then [] else [LoadingIndicator])
      ensures loading && view.loadingGroup
      ensures input.value == "" && !input.sendVisible && input.overflowY == PlanResize(m).overflow
      ensures input.height == (if PlanResize(m).writeHeight then Px(PlanResize(m).target) else AutoHeight)
      ensures page == old(page) && total == old(total) && loadMoreVisible == old(loadMoreVisible)
    {
      TextRendersOneBubble(Some("user"), Text(text));
      Push(Obj(Some("user"), Some("text"), Text(text)));
      ghost var pushed, shown := messages, view.children;
      assert pushed == old(messages) + [Obj(Some("user"), Some("text"), Text(text))];
      assert Valid() && page == old(page) && total == old(total);
      ResetInput(m);
      assert messages == pushed && view.children == shown && page == old(page);
      StartLoading();
    }

    /** `state.loading = true; showLoading(..)`. */
    method StartLoading()
      requires Valid()
      modifies this, view
      ensures Valid() && loading && view.loadingGroup
      ensures view.children == old(view.children) + (if old(view.loadingGroup) then [] else [LoadingIndicator])
      ensures messages == old(messages) && page == old(page) && total == old(total)
      ensures loadMoreVisible == old(loadMoreVisible)
    {
      loading := true;
      view.ShowLoading();
    }

    /** handleSend after sendMessage has answered: the indicator goes, `loading`
        clears, and either an error bubble is shown or the reply is stored. */
    method SendFinish(result: ServiceResult<string>)
      requires Valid()
      modifies this, view
      ensures Valid() && old(messages) <= messages
      ensures !loading && !view.loadingGroup
      ensures page == old(page) && total == old(total) && loadMoreVisible == old(loadMoreVisible)
      ensures Failed(result) ==>
                && messages == old(messages)
                && view.children == RemoveLoading(old(view.children)) + [Bubble(Received, SendFailedPrefix + result.error)]
      ensures !Failed(result) ==>
                && messages == old(messages) + [if result.Ok? then Str(result.data) else Absent]
                && view.children == RemoveLoading(old(view.children))
    {
      view.HideLoading();
      loading := false;
      if Failed(result) {
        view.AppendBotMessage(SendFailedPrefix + result.error);
      } else {
        // `result.data` is the reply string, or undefined for an empty error.
        Push(if result.Ok? then Str(result.data) else Absent);
      }
    }

    /** The keypress handler: Enter without Shift sends; any other key does nothing. */
    method KeyPress(key: string, shiftKey: bool, m: Measurement)
      returns (triggered: bool, request: Option<string>)
      requires Valid()
      modifies this, view, input
      ensures Valid() && old(messages) <= messages
      ensures triggered <==> key == "Enter" && !shiftKey
      ensures triggered ==> SendStarted(m, request)
      ensures !triggered ==>
                && request.None? && messages == old(messages) && loading == old(loading)
                && view.children == old(view.children) && input.value == old(input.value)
                && input.height == old(input.height) && input.overflowY == old(input.overflowY)
      ensures page == old(page) && total == old(total) && loadMoreVisible == old(loadMoreVisible)
    {
      triggered := key == "Enter" && !shiftKey;
      request := None;
      if triggered {
        request := SendStart(m);
      }
    }

    /** The input handler: the new text is measured and the button follows it. */
    method OnInput(newValue: string, m: Measurement)
      requires Valid()
      modifies input
      ensures Valid()
      ensures input.value == newValue
      ensures input.sendVisible <==> Trim(newValue) != ""
      ensures var plan := PlanResize(m);
              && input.height == (if plan.writeHeight then Px(plan.target) else old(input.height))
              && input.overflowY == plan.overflow
    {
      input.value := newValue;
      input.AutoResize(m);
      input.ToggleSendButton();
    }

    /** The focus and blur handlers: the button is re-evaluated, nothing else moves. */
    method OnFocusChange()
      requires Valid()
      modifies input
      ensures Valid()
      ensures input.value == old(input.value) && input.height == old(input.height)
      ensures input.overflowY == old(input.overflowY)
      ensures input.sendVisible == old(input.sendVisible)
    {
      input.ToggleSendButton();
    }

    /** The load-more handler up to its fetch: the next page is requested. */
    method ClickLoadMore() returns (requested: int)
      requires Valid()
      modifies this
      ensures Valid()
      ensures page == old(page) + 1 && requested == page
      ensures messages == old(messages) && total == old(total) && loading == old(loading)
      ensures loadMoreVisible == old(loadMoreVisible)
    {
      page := page + 1;
      requested := page;
    }
  }
}
