/** The chat widget's rendering helpers (src/js/ui.js) over an abstract DOM:
    the messages container is a sequence of rendered elements, the textarea and
    its send button are a handful of style and class flags, and whatever the
    browser measures comes in as a parameter. */
module Ui {
  import opened Wrappers
  import opened JsBuiltins

  function Max(a: real, b: real): real { if a >= b then a else b }
  function Min(a: real, b: real): real { if a <= b then a else b }
  function Abs(a: real): real { if a >= 0.0 then a else -a }

  // ---------------------------------------------------------------------------
  // autoResizeTextarea

  /** What autoResizeTextarea reads from the page: the computed line height and
      paddings as parseFloat gives them (None for NaN), the element's
      offsetHeight, and the scrollHeight of a hidden clone holding the same text. */
  datatype Measurement = Measurement(
    lineHeight: Option<real>,
    paddingTop: Option<real>,
    paddingBottom: Option<real>,
    currentHeight: real,
    contentHeight: real)

  datatype Height = AutoHeight | Px(px: real)
  datatype Overflow = OverflowUnset | OverflowAuto | OverflowHidden

  /** The decision autoResizeTextarea takes: the target height, whether it
      writes it to the element, and the new overflow-y. */
  datatype ResizePlan = ResizePlan(target: real, writeHeight: bool, overflow: Overflow)

  const DefaultLineHeight := 20.0
  const MaxLines := 4.0

  function LineHeight(m: Measurement): real {
    OrDefaultReal(m.lineHeight, DefaultLineHeight)
  }

  function Padding(m: Measurement): real {
    OrDefaultReal(m.paddingTop, 0.0) + OrDefaultReal(m.paddingBottom, 0.0)
  }

  /** One line plus the paddings. */
  function MinHeight(m: Measurement): real {
    LineHeight(m) + Padding(m)
  }

  /** Four lines plus the paddings. */
  function MaxHeight(m: Measurement): real {
    LineHeight(m) * MaxLines + Padding(m)
  }

  function PlanResize(m: Measurement): (r: ResizePlan)
    ensures r.target <= MaxHeight(m)
    ensures LineHeight(m) >= 0.0 ==> MinHeight(m) <= r.target
    ensures MinHeight(m) <= m.contentHeight <= MaxHeight(m) ==> r.target == m.contentHeight
    ensures m.contentHeight >= MaxHeight(m) ==> r.target == MaxHeight(m)
    ensures m.contentHeight <= MinHeight(m) <= MaxHeight(m) ==> r.target == MinHeight(m)
  {
    var content := Max(m.contentHeight, MinHeight(m));
    var target := Min(content, MaxHeight(m));
    ResizePlan(target, Abs(m.currentHeight - target) > 1.0,
               if content > MaxHeight(m) then OverflowAuto else OverflowHidden)
  }

  /** With a non-negative line height the textarea scrolls exactly when the
      measured text is taller than four lines; otherwise the comparison is with
      the one-line floor. */
  lemma OverflowWhenTallerThanCap(m: Measurement)
    ensures LineHeight(m) >= 0.0 ==>
              (PlanResize(m).overflow == OverflowAuto <==> m.contentHeight > MaxHeight(m))
    ensures PlanResize(m).overflow == OverflowAuto <==> Max(m.contentHeight, MinHeight(m)) > MaxHeight(m)
  {
  }

  /** The height is written only when it moves by more than one pixel. */
  lemma HeightWrittenOnlyOnChange(m: Measurement)
    ensures PlanResize(m).writeHeight <==> Abs(m.currentHeight - PlanResize(m).target) > 1.0
    ensures PlanResize(m).overflow != OverflowUnset
  {
  }

  /** `input.value.trim().length > 0`. */
  predicate HasContent(s: string) {
    Trim(s) != ""
  }

  lemma HasContentIff(s: string)
    ensures HasContent(s) <==> exists i :: 0 <= i < |s| && !IsJsWhitespace(s[i])
  {
    TrimEmptyIff(s);
  }

  /** The textarea, the send button and the input container, by the style
      properties and classes the widget sets on them. */
  class InputArea {
    var value: string
    var height: Height           // el.style.height
    var overflowY: Overflow      // el.style.overflowY
    var sendVisible: bool        // 'visible' on the send button
    var hasSendBtn: bool         // 'has-send-btn' on the input container

    constructor ()
      ensures value == "" && height == AutoHeight && overflowY == OverflowUnset
      ensures !sendVisible && !hasSendBtn
    {
      value := "";
      height := AutoHeight;
      overflowY := OverflowUnset;
      sendVisible := false;
      hasSendBtn := false;
    }

    /** autoResizeTextarea, given what the browser measures. */
    method AutoResize(m: Measurement)
      modifies this
      ensures var plan := PlanResize(m);
              && height == (if plan.writeHeight then Px(plan.target) else old(height))
              && overflowY == plan.overflow
      ensures value == old(value) && sendVisible == old(sendVisible) && hasSendBtn == old(hasSendBtn)
    {
      var lineHeight := OrDefaultReal(m.lineHeight, DefaultLineHeight);
      var paddingTop := OrDefaultReal(m.paddingTop, 0.0);
      var paddingBottom := OrDefaultReal(m.paddingBottom, 0.0);
      var minHeight := lineHeight + paddingTop + paddingBottom;
      var maxHeight := lineHeight * MaxLines + paddingTop + paddingBottom;
      var contentHeight := Max(m.contentHeight, minHeight);
      var target := Min(contentHeight, maxHeight);
      if Abs(m.currentHeight - target) > 1.0 {
        height := Px(target);
      }
      overflowY := if contentHeight > maxHeight then OverflowAuto else OverflowHidden;
    }

    /** toggleSendButton: the button is visible, and the container makes room
        for it, exactly when the trimmed text is non-empty. */
    method ToggleSendButton()
      modifies this
      ensures value == old(value) && height == old(height) && overflowY == old(overflowY)
      ensures sendVisible == HasContent(value) && hasSendBtn == sendVisible
    {
      var hasContent := HasContent(value);
      if hasContent {
        sendVisible := true;
        hasSendBtn := true;
      } else {
        sendVisible := false;
        hasSendBtn := false;
      }
    }
  }

  // ---------------------------------------------------------------------------
  // Cards

  /** The properties the card builders read from a message's `content`. */
  datatype CardData = CardData(
    thumbnail: Option<string>,
    title: Option<string>,
    description: Option<string>,
    url: Option<string>,
    linkText: Option<string>,
    alt: Option<string>,
    duration: Option<real>)

  const NoFields := CardData(None, None, None, None, None, None, None)

  /** A message's `content`: a string, or an object with card properties. */
  datatype Payload = Text(text: string) | Fields(fields: CardData)

  /** Property lookup on `content`: a string has none of the card properties. */
  function FieldsOf(p: Payload): CardData {
    match p
    case Text(_) => NoFields
    case Fields(d) => d
  }

  /** A string property that passes `if (x)`. */
  predicate Truthy(o: Option<string>) {
    o.Some? && o.value != ""
  }

  /** `x || ''`. */
  function OrEmpty(o: Option<string>): (r: string)
    ensures Truthy(o) ==> r == o.value
    ensures !Truthy(o) ==> r == ""
  {
    if Truthy(o) then o.value else ""
  }

  datatype CardImage = CardImage(src: string, alt: string)

  datatype Card =
    | LinkCard(image: Option<CardImage>, title: Option<string>, description: Option<string>,
               href: Option<string>, linkText: string)
    | ImageCard(src: Option<string>, alt: string)
    | AudioCard(src: Option<string>, durationLabel: Option<int>, width: Option<real>)

  const DefaultLinkText := "查看详情 →"

  /** createLinkCard: the image is there exactly when a thumbnail is given, and
      the link always has text. */
  function LinkCardOf(d: CardData): (c: Card)
    ensures c.LinkCard?
    ensures c.image.Some? <==> Truthy(d.thumbnail)
    ensures c.image.Some? ==> c.image.value.src == d.thumbnail.value
    ensures c.image.Some? ==> c.image.value.alt == OrEmpty(d.title)
    ensures c.title.Some? <==> Truthy(d.title)
    ensures c.title.Some? ==> c.title == d.title
    ensures c.description.Some? <==> Truthy(d.description)
    ensures c.description.Some? ==> c.description == d.description
    ensures c.href == d.url
    ensures c.linkText == (if Truthy(d.linkText) then d.linkText.value else DefaultLinkText)
    ensures c.linkText != ""
  {
    LinkCard(
      if Truthy(d.thumbnail) then Some(CardImage(d.thumbnail.value, OrEmpty(d.title))) else None,
      if Truthy(d.title) then d.title else None,
      if Truthy(d.description) then d.description else None,
      d.url,
      if Truthy(d.linkText) then d.linkText.value else DefaultLinkText)
  }

  /** createImageCard. */
  function ImageCardOf(d: CardData): (c: Card)
    ensures c.ImageCard? && c.src == d.url
    ensures c.alt == OrEmpty(d.alt)
  {
    ImageCard(d.url, OrEmpty(d.alt))
  }

  const MinWidth := 60.0
  const MaxWidth := 200.0
  const WidthPerSec := 20.0

  /** The audio progress width: twenty pixels a second, kept within [60, 200]. */
  function ProgressWidth(sec: real): (w: real)
    ensures MinWidth <= w <= MaxWidth
    ensures MinWidth <= sec * WidthPerSec <= MaxWidth ==> w == sec * WidthPerSec
    ensures sec * WidthPerSec < MinWidth ==> w == MinWidth
    ensures sec * WidthPerSec > MaxWidth ==> w == MaxWidth
  {
    Max(MinWidth, Min(MaxWidth, sec * WidthPerSec))
  }

  /** A longer clip never gets a narrower bar. */
  lemma ProgressWidthMonotone(a: real, b: real)
    requires a <= b
    ensures ProgressWidth(a) <= ProgressWidth(b)
  {
  }

  /** `Math.round`: halves round up. */
  function Round(x: real): (n: int)
    ensures n as real - 0.5 <= x < n as real + 0.5
  {
    (x + 0.5).Floor
  }

  /** createAudioCard: with a non-zero duration the label and the width are set
      at once; otherwise they wait for the audio's metadata. */
  function AudioCardOf(d: CardData): (c: Card)
    ensures c.AudioCard? && c.src == d.url
    ensures c.width.Some? <==> d.duration.Some? && d.duration.value != 0.0
    ensures c.width.Some? ==> MinWidth <= c.width.value <= MaxWidth
    ensures c.width.Some? ==> c.width.value == ProgressWidth(d.duration.value)
    ensures c.durationLabel.Some? <==> c.width.Some?
    ensures c.durationLabel.Some? ==> c.durationLabel.value == Round(d.duration.value)
  {
    if d.duration.Some? && d.duration.value != 0.0
    then AudioCard(d.url, Some(Round(d.duration.value)), Some(ProgressWidth(d.duration.value)))
    else AudioCard(d.url, None, None)
  }

  // ---------------------------------------------------------------------------
  // appendMessage

  /** A message as appendMessage receives it: null/undefined, a bare string, or
      an object with (possibly missing) `role` and `type`. */
  datatype MsgValue = Absent | Str(s: string) | Obj(role: Option<string>, kind: Option<string>, content: Payload)

  datatype Side = Sent | Received

  /** A child of the messages container. */
  datatype Element = Bubble(side: Side, text: string) | CardGroup(side: Side, card: Card) | LoadingIndicator

  const MessageTypes: set<string> := {"text", "link", "image", "audio"}

  function SideOf(role: Option<string>): Side {
    if role == Some("user") then Sent else Received
  }

  /** `${content}` in a bubble's markup. */
  function ContentText(p: Payload): string {
    match p
    case Text(t) => t
    case Fields(_) => "[object Object]"
  }

  /** The card appendMessage builds for a non-text `type`, if any. */
  function CardFor(kind: Option<string>, content: Payload): (r: Option<Card>)
    ensures r.Some? <==> kind == Some("link") || kind == Some("image") || kind == Some("audio")
    ensures kind == Some("link") ==> r.value.LinkCard?
    ensures kind == Some("image") ==> r.value.ImageCard? && r.value.src == FieldsOf(content).url
    ensures kind == Some("audio") ==> r.value.AudioCard? && r.value.src == FieldsOf(content).url
  {
    if kind == Some("link") then Some(LinkCardOf(FieldsOf(content)))
    else if kind == Some("image") then Some(ImageCardOf(FieldsOf(content)))
    else if kind == Some("audio") then Some(AudioCardOf(FieldsOf(content)))
    else None
  }

  /** What appendMessage adds to the container. */
  function Render(msg: MsgValue): (r: seq<Element>)
    ensures |r| <= 1
    ensures r != [] <==> msg.Obj? && msg.kind.Some? && msg.kind.value in MessageTypes
    ensures forall e :: e in r ==> !e.LoadingIndicator?
    ensures r != [] ==> (r[0].side == Sent <==> msg.role == Some("user"))
  {
    match msg
    case Obj(role, kind, content) =>
      if kind == Some("text") then [Bubble(SideOf(role), ContentText(content))]
      else
        (match CardFor(kind, content)
         case None => []
         case Some(card) => [CardGroup(SideOf(role), card)])
    case _ => []
  }

  /** A text message becomes one bubble carrying its content, on the sent side exactly for role 'user'. */
  lemma TextRendersOneBubble(role: Option<string>, content: Payload)
    ensures var r := Render(Obj(role, Some("text"), content));
            && |r| == 1 && r[0].Bubble? && r[0].text == ContentText(content)
            && (r[0].side == Sent <==> role == Some("user"))
  {
  }

  /** A link, image or audio message becomes one group holding the card its builder makes from the content. */
  lemma CardsRenderOneGroup(role: Option<string>, content: Payload)
    ensures Render(Obj(role, Some("link"), content)) == [CardGroup(SideOf(role), LinkCardOf(FieldsOf(content)))]
    ensures Render(Obj(role, Some("image"), content)) == [CardGroup(SideOf(role), ImageCardOf(FieldsOf(content)))]
    ensures Render(Obj(role, Some("audio"), content)) == [CardGroup(SideOf(role), AudioCardOf(FieldsOf(content)))]
  {
  }

  // ---------------------------------------------------------------------------
  // The loading indicator

  /** How many loading indicators a sequence of children holds. */
  function LoadingCount(s: seq<Element>): (n: nat)
    ensures n <= |s|
  {
    if s == [] then 0
    else LoadingCount(s[..|s| - 1]) + (if s[|s| - 1].LoadingIndicator? then 1 else 0)
  }

  /** The children with the loading indicator taken out. */
  function RemoveLoading(s: seq<Element>): (r: seq<Element>)
    ensures |r| == |s| - LoadingCount(s)
    ensures LoadingCount(r) == 0
  {
    if s == [] then []
    else
      var last := if s[|s| - 1].LoadingIndicator? then [] else [s[|s| - 1]];
      LoadingCountAppend(RemoveLoading(s[..|s| - 1]), last);
      RemoveLoading(s[..|s| - 1]) + last
  }

  lemma {:induction false} LoadingCountAppend(a: seq<Element>, b: seq<Element>)
    ensures LoadingCount(a + b) == LoadingCount(a) + LoadingCount(b)
    decreases |b|
  {
    if b != [] {
      assert (a + b)[..|a + b| - 1] == a + b[..|b| - 1];
      LoadingCountAppend(a, b[..|b| - 1]);
    } else {
      assert a + b == a;
    }
  }

  /** Removal works element by element: it distributes over concatenation. */
  lemma {:induction false} RemoveLoadingAppend(a: seq<Element>, b: seq<Element>)
    ensures RemoveLoading(a + b) == RemoveLoading(a) + RemoveLoading(b)
    decreases |b|
  {
    if b != [] {
      assert (a + b)[..|a + b| - 1] == a + b[..|b| - 1];
      RemoveLoadingAppend(a, b[..|b| - 1]);
    } else {
      assert a + b == a;
    }
  }

  /** Children without an indicator are left as they are. */
  lemma {:induction false} RemoveLoadingNoop(s: seq<Element>)
    requires LoadingCount(s) == 0
    ensures RemoveLoading(s) == s
  {
    if s != [] {
      RemoveLoadingNoop(s[..|s| - 1]);
    }
  }

  /** The position of the first loading indicator. */
  function LoadingIndex(s: seq<Element>): (i: nat)
    requires LoadingCount(s) >= 1
    ensures i < |s| && s[i].LoadingIndicator?
    ensures LoadingCount(s[..i]) == 0
  {
    var init := s[..|s| - 1];
    if LoadingCount(init) >= 1 then
      var i := LoadingIndex(init);
      assert init[..i] == s[..i];
      i
    else |s| - 1
  }

  /** Taking out the one indicator between two indicator-free runs leaves the runs. */
  lemma RemoveLoadingBetween(pre: seq<Element>, post: seq<Element>)
    requires LoadingCount(pre) == 0 && LoadingCount(post) == 0
    ensures RemoveLoading(pre + [LoadingIndicator] + post) == pre + post
  {
    var one: seq<Element> := [LoadingIndicator];
    var mid := pre + one;
    assert RemoveLoading(one) == [] by {
      assert one[..0] == [];
    }
    RemoveLoadingAppend(pre, one);
    RemoveLoadingNoop(pre);
    assert RemoveLoading(mid) == pre;
    RemoveLoadingAppend(mid, post);
    RemoveLoadingNoop(post);
    assert RemoveLoading(mid + post) == pre + post;
  }

  /** With exactly one indicator present, removing it takes out that one element and nothing else. */
  lemma RemoveLoadingOne(s: seq<Element>)
    requires LoadingCount(s) == 1
    ensures RemoveLoading(s) == s[..LoadingIndex(s)] + s[LoadingIndex(s) + 1..]
  {
    var i := LoadingIndex(s);
    var pre, post := s[..i], s[i + 1..];
    assert s == pre + [LoadingIndicator] + post;
    LoadingCountAppend(pre + [LoadingIndicator], post);
    LoadingCountAppend(pre, [LoadingIndicator]);
    assert LoadingCount([LoadingIndicator]) == 1 by {
      assert [LoadingIndicator][..0] == [];
    }
    RemoveLoadingBetween(pre, post);
  }

  /** The messages container's children, together with the module-level
      `loadingGroup` that showLoading and hideLoading share. */
  class ChatView {
    var children: seq<Element>
    var loadingGroup: bool

    ghost predicate Valid()
      reads this
    {
      LoadingCount(children) == if loadingGroup then 1 else 0
    }

    constructor ()
      ensures Valid() && children == [] && !loadingGroup
    {
      children := [];
      loadingGroup := false;
    }

    method Append(e: Element)
      requires Valid() && !e.LoadingIndicator?
      modifies this
      ensures Valid() && loadingGroup == old(loadingGroup)
      ensures children == old(children) + [e]
    {
      LoadingCountAppend(children, [e]);
      children := children + [e];
    }

    /** appendUserMessage. */
    method AppendUserMessage(text: string)
      requires Valid()
      modifies this
      ensures Valid() && loadingGroup == old(loadingGroup)
      ensures children == old(children) + [Bubble(Sent, text)]
    {
      Append(Bubble(Sent, text));
    }

    /** appendBotMessage. */
    method AppendBotMessage(text: string)
      requires Valid()
      modifies this
      ensures Valid() && loadingGroup == old(loadingGroup)
      ensures children == old(children) + [Bubble(Received, text)]
    {
      Append(Bubble(Received, text));
    }

    /** appendMessage: dispatch on `type`. */
    method AppendMessage(msg: MsgValue)
      requires Valid()
      modifies this
      ensures Valid() && loadingGroup == old(loadingGroup)
      ensures children == old(children) + Render(msg)
    {
      if msg.Absent? || msg == Str("") {
        return;
      }
      // A bare string has neither `type` nor `role`.
      var kind := if msg.Obj? then msg.kind else None;
      var role := if msg.Obj? then msg.role else None;
      var content := if msg.Obj? then msg.content else Text(msg.s);
      if kind == Some("text") {
        if role == Some("user") {
          AppendUserMessage(ContentText(content));
        } else {
          AppendBotMessage(ContentText(content));
        }
        return;
      }
      var side := if role == Some("user") then Sent else Received;
      var element := CardFor(kind, content);
      if element.Some? {
        Append(CardGroup(side, element.value));
      }
    }

    /** showLoading: at most one indicator at a time. */
    method ShowLoading()
      requires Valid()
      modifies this
      ensures Valid() && loadingGroup
      ensures children == old(children) + (if old(loadingGroup) then [] else [LoadingIndicator])
    {
      if loadingGroup {
        return;
      }
      LoadingCountAppend(children, [LoadingIndicator]);
      loadingGroup := true;
      children := children + [LoadingIndicator];
    }

    /** hideLoading: removes the indicator if there is one, and always resets the singleton. */
    method HideLoading()
      requires Valid()
      modifies this
      ensures Valid() && !loadingGroup
      ensures children == RemoveLoading(old(children))
      ensures !old(loadingGroup) ==> children == old(children)
      ensures old(loadingGroup) ==>
                var i := LoadingIndex(old(children));
                children == old(children)[..i] + old(children)[i + 1..]
    {
      if loadingGroup {
        RemoveLoadingOne(children);
      } else {
        RemoveLoadingNoop(children);
      }
      children := RemoveLoading(children);
      loadingGroup := false;
    }
  }
}
