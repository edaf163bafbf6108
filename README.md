# Chat demo: mock backend, client controller and widget helpers

This project models a toy chat demo and proves properties of the model. It has three parts:

- The Express mock backend (`mockServer.js`). An in-memory `users` map from username to `{ password, messages }`. Registration and login issue a token, which is the base64 of the username. The Bearer middleware decodes that token back to a user. The messages endpoint lists a user's history one `slice` at a time, and posting a message appends the user's entry and an `Echo: ` reply.
- The browser controller (`src/js/app.js`). The module-level `state` record (`messages`, `loading`, `page`, `total`), the load-more button, `init` with its register-then-login fallback, `loadMessages`, `resetInput`, `handleSend`, and the keypress, input, focus/blur and load-more handlers.
- The widget helpers (`src/js/ui.js`):
  - the textarea auto-resize clamp;
  - the send-button toggle;
  - the `appendMessage` dispatch with its bubbles and link, image and audio cards;
  - the single loading indicator shared by `showLoading` and `hideLoading`.

Files:

- `wrappers.dfy`: the Option type and the `byte` type.
- `jsbuiltins.dfy`: the JavaScript built-ins whose exact behaviour matters here:
  - `parseInt(..) || d`;
  - `indexOf`, and `replace`, which only replaces the first occurrence;
  - `trim`, over the ECMAScript white-space and line-terminator set;
  - `Array.prototype.slice` with relative, clamped indices.
- `base64.dfy`: base64 as defined in section 4 of RFC 4648, with a decoder that accepts only padded groups of four. It proves that decoding undoes encoding.
- `utf8.dfy`: UTF-8 with a strict decoder, which refuses overlong forms and surrogates. It proves that decoding undoes encoding.
- `server.dfy`: the backend.
  - The class `Server` owns the `users` map.
  - `Register` and `PostMessage` are methods that update it. `Login`, `Authenticate` and `GetMessages` only read it.
  - `StoreInvariant` is the invariant every handler keeps. Each history is made of user/bot pairs with ids 1, 2, 3, …, and each bot entry echoes the user entry before it.
- `ui.dfy`: the widget helpers.
  - `ChatView` holds the messages container as a sequence of abstract elements, plus the module-level `loadingGroup`.
  - `InputArea` holds the textarea and send-button flags.
  - The clamps and the per-message rendering are pure functions.
- `app.dfy`: the controller, as the class `ChatApp` over one `ChatView` and one `InputArea`. Each handler that awaits a service call is split at its `await`. `SendStart` returns the text it would send. `SendFinish`, `LoadMessages` and `Init` take the service's answer as a parameter. Because of that split, handlers may interleave in any order, and the class invariant `Valid` still holds whatever the order. It states three things:
  - `loading` is set exactly while the indicator is shown;
  - `page` never drops below 1;
  - the send button tracks the trimmed input.

Four behaviours of the code depart from what the demo evidently sets out to do. The model follows the code in each:

- Server messages carry no `type`, and `appendMessage` dispatches on `type`. A loaded history therefore adds nothing to the container (`App.HistoryRendersNothing`).
- The reply of a send is stored in `state.messages` as a bare string. A bare string has no `type` either, so the reply is never shown (`App.ReplyRendersNothing`).
- The backend has only the echo reply. There is no variant with an operator-supplied reply.
- `result.error` is tested for truthiness, so an empty error string is not a failure. `handleSend` then pushes `undefined`. `loadMessages` then throws at `result.data.data`, which the model renders as "no change".

## Model

| member | source | states |
|---|---|---|
| `JsBuiltins.OrDefault` | mockServer.js:52-53 | `parseInt(..) \|\| d`: a missing or non-numeric value gives `d`, and so does 0; any other value is kept |
| `JsBuiltins.OrDefaultReal` | src/js/ui.js:8-10 | `parseFloat(..) \|\| d`: the result is `d` or a non-zero measured value, and a non-zero measured value is always kept |
| `JsBuiltins.IndexOf` | mockServer.js:17 | returns the first position where the pattern occurs; None exactly when it occurs nowhere |
| `JsBuiltins.ReplaceFirst` | mockServer.js:17 | only the first occurrence of the pattern is replaced. Without one, the text is returned unchanged. With one at position i, the text before i is kept, the replacement stands at i, and everything after the occurrence follows it unchanged |
| `JsBuiltins.ReplaceKeepsLaterOccurrence` | mockServer.js:17 | an occurrence that starts after the first one ends survives the replace, moved by the length difference: a second "Bearer " stays in the token |
| `JsBuiltins.ReplaceLeadingPattern` | mockServer.js:17 | cutting "Bearer " from "Bearer " + t gives back t |
| `JsBuiltins.SkipLeading` | src/js/ui.js:43 | the first index at or after `i` that holds no white space; everything before it, from `i` on, is white space |
| `JsBuiltins.SkipTrailing` | src/js/ui.js:43 | the end of the text once trailing white space is dropped; everything from it up to `j` is white space |
| `JsBuiltins.Trim` | src/js/ui.js:43 | `trim()` is the text from the first non-white-space character on, cut so that only white space follows it: a non-empty result starts at `SkipLeading(s, 0)`, ends with a non-white-space character and is followed by white space only. It is non-empty whenever some character is not white space |
| `JsBuiltins.TrimEmptyIff` | src/js/ui.js:43 | `trim()` is empty exactly when every character is white space |
| `JsBuiltins.TrimIdempotent` | src/js/ui.js:43 | trimming twice equals trimming once |
| `JsBuiltins.RelativeIndex` | mockServer.js:56 | a slice index resolved against the length: negative values count from the end, and the result is clamped to [0, len] in every case |
| `JsBuiltins.Slice` | mockServer.js:56 | `slice(start, end)` is the contiguous window starting at the resolved start; its length is the difference of the resolved indices, or 0 |
| `JsBuiltins.SliceNonNegative` | mockServer.js:56 | with 0 <= start <= end, the slice is `s[min(start,len)..min(end,len)]` |
| `JsBuiltins.IsJsWhitespace` | src/js/ui.js:43 | the code points `trim()` strips: the WhiteSpace and LineTerminator characters of the ECMAScript standard, the byte order mark U+FEFF included |
| `Base64.CharOf` | mockServer.js:12 | the alphabet character of a 6-bit value, after Table 1 of RFC 4648; it is never the pad `=` |
| `Base64.ValueOf` | mockServer.js:18 | the value read back from a character: whenever there is one, `CharOf` maps it back to that very character; `=` and characters outside the alphabet have none |
| `Base64.ValueOfCharOf` | mockServer.js:12 | every 6-bit value survives the trip through its alphabet character |
| `Base64.Encode` | mockServer.js:12 | padded base64 text has 4·⌈n/3⌉ characters |
| `Base64.GroupArithmetic` | mockServer.js:12 | the bit slicing of one 24-bit group can be undone |
| `Base64.Decode` | mockServer.js:18 | accepted text is a whole number of four-character groups, and it decodes to no octets exactly when it is empty |
| `Base64.DecodeOne` | mockServer.js:12-18 | a final group with one octet decodes to that octet |
| `Base64.DecodeTwo` | mockServer.js:12-18 | a final group with two octets decodes to those octets |
| `Base64.DecodeGroup` | mockServer.js:12-18 | a full group decodes to its three octets, followed by whatever the rest decodes to |
| `Base64.DecodeEncode` | mockServer.js:12-18 | decoding the base64 of any octets gives those octets back |
| `Base64.EncodeInjective` | mockServer.js:12 | different octet sequences never have the same base64 |
| `Utf8.EncodeChar` | mockServer.js:12 | a code point takes one to four octets |
| `Utf8.Encode` | mockServer.js:12 | a string of n characters takes between n and 4n octets |
| `Utf8.ScalarChar` | mockServer.js:18 | a decoded value is the character with that code point |
| `Utf8.DecodeChar` | mockServer.js:18 | a decoded character consumes between 1 and the available number of octets |
| `Utf8.EncodeDecodeChar` | mockServer.js:18 | a character the decoder accepts is encoded by exactly the octets it consumed |
| `Utf8.Decode` | mockServer.js:18 | whatever the decoder accepts is exactly the UTF-8 of its result, so it admits only the forms the encoder produces |
| `Utf8.DecodeEncodeChar` | mockServer.js:12-18 | the octets of a character decode back to it, whatever follows them |
| `Utf8.DecodeEncode` | mockServer.js:12-18 | decoding the UTF-8 of any string gives the string back |
| `MockServer.Given` | mockServer.js:30 | `!field` is false: the body field is present and not empty |
| `MockServer.GenerateToken` | mockServer.js:11-13 | a token's length is a multiple of four, and a non-empty username has a non-empty token |
| `MockServer.TokenUsername` | mockServer.js:18 | a name decoded from a token is spelt, in UTF-8, by exactly the token's octets; the empty token names '' |
| `MockServer.HeaderUsername` | mockServer.js:16-18 | a missing or empty Authorization header decodes to ''. A header without "Bearer " in it is decoded as a whole |
| `MockServer.TokenRoundTrip` | mockServer.js:11-18 | the username decoded from `generateToken(u)` is `u` |
| `MockServer.TokenInjective` | mockServer.js:11-13 | two users with the same token are the same user |
| `MockServer.Conversation` | mockServer.js:66-79 | a non-empty well-shaped history ends with a bot entry |
| `MockServer.ConversationAnswered` | mockServer.js:66-79 | in a well-shaped history every user entry is followed by a bot entry that echoes it |
| `MockServer.StoreInvariant` | mockServer.js:28-36 | the store invariant: no account is named '', every password is non-empty and every history is well-shaped |
| `MockServer.StoreAnswered` | mockServer.js:60-81 | in a store that keeps the invariant, no history ends in an unanswered user entry |
| `MockServer.EchoPair` | mockServer.js:66-78 | the two entries a post appends: the user's message with id n+1, then the bot's `Echo: ` + message with id n+2 |
| `MockServer.ConversationExtend` | mockServer.js:65-79 | appending a non-empty user entry and its echo, with ids n+1 and n+2, keeps a history well-shaped |
| `MockServer.StoreUpdate` | mockServer.js:65-79 | replacing one user's history with a well-shaped one, keeping the password, keeps the store invariant |
| `MockServer.PostKeepsStore` | mockServer.js:65-79 | appending a non-empty user entry and its echo to one registered user's history keeps the store invariant |
| `MockServer.Server.constructor` | mockServer.js:9 | the store starts empty and keeps the invariant |
| `MockServer.Server.Authenticate` | mockServer.js:15-26 | a header authenticates exactly the registered user its token decodes to; every other header is answered 401 |
| `MockServer.Server.Register` | mockServer.js:28-39 | a missing or empty username or password gives 400 "Missing username or password" and changes nothing. An existing name gives 400 "User exists" and changes nothing. Otherwise the user is added with an empty history, no other entry changes, and the token is returned. The store invariant is kept |
| `MockServer.Server.Login` | mockServer.js:41-49 | succeeds, returning the user's token, exactly when the user exists and the password equals the stored one; otherwise 401 "Invalid credentials". It reads the store only |
| `MockServer.Server.GetMessages` | mockServer.js:51-58 | 401 exactly when authentication fails. Otherwise `total` is the history's length and `page` is the defaulted page. `data` is `slice((page-1)*limit, (page-1)*limit+limit)` with the defaults 1 and 20. It reads the store only |
| `MockServer.Server.PostMessage` | mockServer.js:60-81 | authentication failure gives 401 and a missing or empty message gives 400, both with the store unchanged. Otherwise exactly the user entry n+1 and the echo entry n+2 are appended to the caller's history, no other user changes, the reply is `Echo: ` + message, and the store invariant is kept |
| `MockServer.BearerTokenAuthenticates` | mockServer.js:11-26 | "Bearer " + `generateToken(u)` authenticates as `u` exactly when `u` is registered |
| `MockServer.MissingHeaderUnauthorized` | mockServer.js:15-31 | a missing or empty Authorization header is always 401, since the empty username is never registered |
| `MockServer.LoginTokenAuthenticates` | mockServer.js:41-49 | the token a successful login returns authenticates as the user who logged in |
| `MockServer.PageWindow` | mockServer.js:52-57 | for page, limit >= 1 the page is the window [(page-1)·limit, page·limit) of the history, cut at its end, with at most `limit` entries |
| `MockServer.FirstPage` | mockServer.js:52-57 | page 1 holds the first `limit` entries in posting order |
| `MockServer.NegativeLimitDropsTail` | mockServer.js:53-56 | a negative limit on page 1 drops the last abs(limit) entries instead of giving an empty page |
| `MockServer.NegativePageCountsFromEnd` | mockServer.js:52-56 | a negative page counts its window from the end of the history |
| `Ui.LineHeight` | src/js/ui.js:8 | `parseFloat(lineHeight) \|\| 20` |
| `Ui.Padding` | src/js/ui.js:9-10 | the top and bottom paddings, each `parseFloat(..) \|\| 0`, added |
| `Ui.MinHeight` | src/js/ui.js:11 | one line plus the paddings |
| `Ui.MaxHeight` | src/js/ui.js:12 | four lines plus the paddings |
| `Ui.PlanResize` | src/js/ui.js:8-37 | the target never exceeds four lines plus padding. With a non-negative line height it is never below one line plus padding. A content height within those bounds is kept as it is, content at or above the cap gets exactly the cap, and content at or below the floor gets exactly the floor |
| `Ui.OverflowWhenTallerThanCap` | src/js/ui.js:30-37 | overflow is `auto` exactly when the floored content height exceeds the cap; with a non-negative line height, exactly when the measured content does |
| `Ui.HeightWrittenOnlyOnChange` | src/js/ui.js:33-37 | the height is written exactly when it moves by more than one pixel, and overflow is always set |
| `Ui.HasContent` | src/js/ui.js:43 | `input.value.trim().length > 0` |
| `Ui.HasContentIff` | src/js/ui.js:43 | the input has content exactly when some character is not white space |
| `Ui.InputArea.AutoResize` | src/js/ui.js:6-40 | the height becomes the target when `PlanResize` says to write it, and stays otherwise; overflow follows the plan; nothing else changes |
| `Ui.InputArea.ToggleSendButton` | src/js/ui.js:42-51 | `visible` and `has-send-btn` are both set exactly when the trimmed text is non-empty; the text and the size are untouched |
| `Ui.Truthy` | src/js/ui.js:86-103 | `if (data.x)` on a string field: the field is present and non-empty |
| `Ui.OrEmpty` | src/js/ui.js:90 | `x \|\| ''` |
| `Ui.LinkCardOf` | src/js/ui.js:79-118 | the image, with the thumbnail as its source, is present exactly when a thumbnail is given. Title and description are present exactly when they are non-empty, and then carry the given text. The href is the url. The link text is `linkText`, or `查看详情 →` when it is missing. The image's alt is the title, or `''` without one |
| `Ui.ImageCardOf` | src/js/ui.js:120-129 | an image card whose source is the given url and whose alt is `alt \|\| ''` |
| `Ui.ProgressWidth` | src/js/ui.js:154-160 | the width is 20 px a second, clamped to [60, 200] |
| `Ui.ProgressWidthMonotone` | src/js/ui.js:159 | a longer clip never gets a narrower bar |
| `Ui.Round` | src/js/ui.js:158 | `Math.round` is the integer within half of x, with halves rounding up |
| `Ui.AudioCardOf` | src/js/ui.js:131-167 | the width and the label are set at creation, together, exactly when a non-zero duration is given. The width is then `ProgressWidth(duration)`, which lies in [60, 200], and the label is the rounded duration |
| `Ui.SideOf` | src/js/ui.js:206 | `msg.role === 'user' ? 'sent' : 'received'` |
| `Ui.ContentText` | src/js/ui.js:59-72 | `${content}` in a bubble: a string content is itself, an object content reads `[object Object]` |
| `Ui.CardFor` | src/js/ui.js:206-213 | a card is built exactly for the types `link`, `image` and `audio`: a link card for `link`, and an image or audio card whose source is the content's url for `image` and `audio` |
| `Ui.Render` | src/js/ui.js:194-220 | appendMessage adds at most one element, and one exactly when the message is an object whose type is text, link, image or audio. It never adds a loading indicator. The side is `sent` exactly for role `user` |
| `Ui.TextRendersOneBubble` | src/js/ui.js:196-201 | a text message becomes one bubble carrying its content, sent exactly for role `user` |
| `Ui.CardsRenderOneGroup` | src/js/ui.js:205-217 | a link, image or audio message becomes exactly one group, on the side its role gives, holding the card that `createLinkCard`, `createImageCard` or `createAudioCard` builds from its content |
| `Ui.LoadingCount` | src/js/ui.js:222-240 | the number of indicators never exceeds the number of children |
| `Ui.RemoveLoading` | src/js/ui.js:234-240 | removal leaves no indicator and shortens the children by the number of indicators |
| `Ui.LoadingCountAppend` | src/js/ui.js:229 | counting indicators distributes over concatenation |
| `Ui.RemoveLoadingAppend` | src/js/ui.js:234-240 | removing indicators distributes over concatenation |
| `Ui.RemoveLoadingNoop` | src/js/ui.js:234-240 | children without an indicator are left as they are |
| `Ui.LoadingIndex` | src/js/ui.js:234-237 | the first indicator's position: it holds an indicator and none comes before it |
| `Ui.RemoveLoadingBetween` | src/js/ui.js:234-237 | removing the one indicator between two runs without one leaves the two runs joined |
| `Ui.RemoveLoadingOne` | src/js/ui.js:234-237 | with exactly one indicator, removal takes out that element and keeps everything else in order |
| `Ui.ChatView.Valid` | src/js/ui.js:222-240 | the `loadingGroup` singleton is set exactly when one indicator is among the children, and otherwise no indicator is |
| `Ui.ChatView.AppendUserMessage` | src/js/ui.js:53-64 | appends one sent bubble carrying the text |
| `Ui.ChatView.AppendBotMessage` | src/js/ui.js:66-77 | appends one received bubble carrying the text |
| `Ui.ChatView.AppendMessage` | src/js/ui.js:194-220 | appends exactly `Render(msg)` and keeps the indicator state |
| `Ui.ChatView.ShowLoading` | src/js/ui.js:222-232 | appends one indicator when none is shown and nothing otherwise; the singleton is then set |
| `Ui.ChatView.HideLoading` | src/js/ui.js:234-240 | removes the indicator if one is shown, at its position and nothing else, and leaves the children as they are otherwise; the singleton is always reset |
| `App.Failed` | src/js/app.js:20-34 | `if (result.error)`: an error answer counts as a failure only when its message is non-empty |
| `App.TriesLogin` | src/js/app.js:20-21 | login is tried exactly when register answered the error "User exists" |
| `App.SignIn` | src/js/app.js:19-24 | the result init acts on is login's exactly when register failed with exactly "User exists", and register's otherwise |
| `App.RenderAll` | src/js/app.js:40-43 | rendering a list adds at most one element per message |
| `App.RenderAllStep` | src/js/app.js:40-43 | rendering one more message appends what that message renders to |
| `App.PushStep` | src/js/app.js:40-43 | one more iteration of the forEach extends both the stored list and the rendered children by the next message |
| `App.PageList` | src/js/app.js:38 | `result.data.data \|\| []`: the page's list when present, the empty list otherwise |
| `App.FromServer` | mockServer.js:66-79 | a stored message as the client receives it: role `user` or `bot`, the content as text, and no `type` |
| `App.HistoryRendersNothing` | src/js/app.js:40-43 | stored messages, which the server sends without `type`, add nothing to the container |
| `App.ReplyRendersNothing` | src/js/app.js:76-77 | the reply, a bare string, adds nothing to the container |
| `App.ChatApp.Valid` | src/js/app.js:11-16 | what every handler keeps: `loading` is set exactly when the indicator is shown, the page never drops below 1, and `visible` and `has-send-btn` follow the trimmed input |
| `App.ChatApp.constructor` | src/js/app.js:9-16 | start-up: empty state on page 1, total 0, load-more hidden, empty input with the button hidden. The first resize (app.js:112) leaves the height at `auto` or writes the planned target, as `PlanResize` decides, and sets overflow to the plan |
| `App.ChatApp.LoadMessages` | src/js/app.js:32-49 | a failure renders one `加载失败：` bubble and leaves messages, total and the button unchanged. An empty error changes nothing. A success appends the page's list in order to both the state and the container, sets total to `total \|\| 0`, and shows load-more exactly when fewer messages than total are held |
| `App.ChatApp.Push` | src/js/app.js:40-43 | one push onto `state.messages` and its rendering |
| `App.ChatApp.PushAll` | src/js/app.js:40-43 | the forEach appends the list in order to `state.messages` and its rendering to the container |
| `App.ChatApp.Init` | src/js/app.js:18-30 | login is tried exactly when register failed with exactly "User exists". A remaining error renders one `登录失败：` bubble and loads nothing. Otherwise the current page is requested |
| `App.ChatApp.ResetInput` | src/js/app.js:50-55 | the input is emptied, its height is reset to `auto` and then re-planned, and the button is hidden |
| `App.ChatApp.SendStart` | src/js/app.js:57-69 | input that is empty after trimming changes nothing and sends nothing. Otherwise it pushes `{role:'user', type:'text', content: trimmed}`, renders its bubble, empties the input, resets its height to `auto` and re-plans it, sets `loading`, shows the indicator and sends the trimmed text. Messages only grow |
| `App.ChatApp.Submit` | src/js/app.js:61-67 | once the trimmed text is non-empty: exactly the user's text message is pushed and its sent bubble rendered, the input is emptied, its height is reset to `auto` and re-planned, the button is hidden, `loading` is set and one indicator is shown unless one already is. Page, total and load-more are kept |
| `App.ChatApp.StartLoading` | src/js/app.js:66-67 | `loading` is set and one indicator is shown unless one already is; messages, page, total and load-more are kept |
| `App.ChatApp.SendFinish` | src/js/app.js:70-78 | the indicator is removed and `loading` cleared on either outcome. A failure renders one `错误：` bubble with messages unchanged. Otherwise exactly the reply, or `undefined` for an empty error, is pushed |
| `App.ChatApp.KeyPress` | src/js/app.js:96-101 | a send happens exactly for Enter without Shift, and then does what `SendStart` does; for any other key the handler changes nothing: no message, no element, and the input's text, height and overflow stay as they are |
| `App.ChatApp.OnInput` | src/js/app.js:81-84 | the new text is resized and the button follows its trimmed content |
| `App.ChatApp.OnFocusChange` | src/js/app.js:86-92 | focus and blur re-evaluate the button; the text, height and overflow are kept |
| `App.ChatApp.ClickLoadMore` | src/js/app.js:103-106 | the page increases by exactly one and that page is requested; nothing else changes |

## Left out

- `src/js/chatService.js` is not part of this model. Its `fetch` calls, timeouts and `AbortController` are I/O. Its outcomes enter the model as `App.ServiceResult` parameters. It posts to `/chat`, which the mock backend does not serve, and `app.js` imports functions from it that it does not export. Neither mismatch is visible in this model.
- Express, CORS, JSON body parsing and `app.listen` (mockServer.js:1-6, 83-86) are server plumbing. Each handler takes the request fields it reads and returns its status and body.
- `Date.now()` timestamps are free `int` parameters of `PostMessage`.
- `parseInt` itself is left out. Query values enter already parsed, as `Option<int>`, with None standing for NaN.
- `Ui.PlanResize`, `Ui.ProgressWidth` and `Ui.Round` compute in exact `real` arithmetic. The browser computes the heights' sums, the `> maxHeight` and `Math.abs(..) > 1` comparisons, `sec * 20` and `Math.round` in IEEE double precision, so the two may differ at rounding boundaries.
- The `(page - 1) * limit` arithmetic is exact here. JavaScript computes it in double precision, which differs only past 2^53.
- `Base64.Decode` accepts only padded groups of four over the RFC 4648 alphabet, and `Utf8.Decode` refuses malformed sequences: for both, other input gives None. `Base64.Decode` does not check that the unused pad bits are zero, as section 3.5 of RFC 4648 permits, so "QR==" decodes like "QQ==". Node's `Buffer` decoding is lenient and decodes malformed tokens to some string anyway. A malformed token that happens to name a registered user is therefore not modelled.
- `Utf8.EncodeChar` covers Dafny's `char`, which holds only scalar values. How Node encodes lone surrogates is not modelled.
- Non-string request bodies are left out. JavaScript would coerce an object `message` to `[object Object]`.
- DOM measurement in `autoResizeTextarea` (ui.js:7, 14-28: computed style, the hidden clone, `scrollHeight`) enters as a `Ui.Measurement` parameter. `parseFloat` enters as `Option<real>`, with None standing for NaN.
- `e.preventDefault()` (app.js:98) and the browser's default key action are not modelled. A non-Enter key or Shift+Enter inserts text, which reaches the model only through `App.ChatApp.OnInput`. Cancelling the default on Enter is what keeps the input empty after a send, so `App.ChatApp.KeyPress` leaves the input as `SendStart` leaves it.
- `updateSendButtonPosition` (ui.js:1-4) and the resize handler that calls it (app.js:108-110) are left out. They only write a constant CSS offset.
- Scrolling, `innerHTML` markup and the "刚刚" time label, CSS class strings, and `data.ext` serialised into `dataset` are left out.
- Audio playback with its `loadedmetadata`, `click`, `timeupdate` and `ended` handlers (ui.js:166-189) is browser event handling. `Ui.AudioCardOf` records only whether the label and width are set at creation.
- A card message whose `content` is missing would throw on property access. `Ui.Payload` always holds a string or an object.
- `Ui.AudioCardOf` takes `duration` as an `Option<real>`. `Number(..)` coercion of a non-numeric duration is left out.
- `App.ChatApp.Init` takes the outcomes of register and login as parameters. The login outcome is used only when login is tried.
- `App.ChatApp.ClickLoadMore` and `App.ChatApp.LoadMessages` are separate steps, because `loadMessages` is not awaited. Which load answers first is up to the caller.
- `ChatApp.Valid` covers the interleavings of overlapping sends and loads. The order in which a browser would actually schedule them is not modelled.
