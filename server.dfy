/** The in-memory mock backend (mockServer.js): a user store keyed by
    username, a base64 bearer token, and four handlers — register, login,
    paginated message listing and posting with an echo reply. HTTP plumbing is
    abstracted: a handler takes the request fields it reads and returns the
    status and JSON body it would send. */
module MockServer {
  import opened Wrappers
  import opened JsBuiltins
  import Base64
  import Utf8

  datatype Role = User | Bot

  /** One stored chat turn. `timestamp` is the value `Date.now()` returned. */
  datatype Message = Message(id: int, role: Role, content: string, timestamp: int)

  /** The record `users` maps a username to: `{ password, messages }`. */
  datatype Account = Account(password: string, messages: seq<Message>)

  type Users = map<string, Account>

  /** What a handler sends back: a 200 body, or an error status with `{ error }`. */
  datatype Response =
    | TokenIssued(token: string)
    | Page(data: seq<Message>, page: int, total: int)
    | Replied(reply: string)
    | Failed(status: int, error: string)

  const BearerPrefix := "Bearer "
  const EchoPrefix := "Echo: "
  const DefaultPage := 1
  const DefaultLimit := 20
  const MissingCredentials := "Missing username or password"
  const UserExists := "User exists"
  const InvalidCredentials := "Invalid credentials"
  const Unauthorized := "Unauthorized"
  const MessageRequired := "Message required"

  /** A string body field that passes `!field`: present and not empty. */
  predicate Given(field: Option<string>) {
    field.Some? && field.value != ""
  }

  // ---------------------------------------------------------------------------
  // Tokens

  /** `generateToken`: base64 of the username's UTF-8 octets. */
  function GenerateToken(username: string): (t: string)
    ensures |t| % 4 == 0
    ensures username != "" ==> t != ""
  {
    var octets := Utf8.Encode(username);
    var t := Base64.Encode(octets);
    var groups := (|octets| + 2) / 3;
    FourGroups(groups);
    assert |t| == 4 * groups;
    t
  }

  /** A whole number of four-character groups is a multiple of four characters long. */
  lemma FourGroups(k: int)
    ensures (4 * k) % 4 == 0
  {
  }

  /** The username a token stands for; None when it is not well-formed base64 of
      UTF-8. A name it accepts is spelt, in UTF-8, by exactly the token's octets. */
  function TokenUsername(token: string): (r: Option<string>)
    ensures r.Some? ==> Base64.Decode(token) == Some(Utf8.Encode(r.value))
    ensures token == "" ==> r == Some("")
  {
    match Base64.Decode(token)
    case None => None
    case Some(octets) => Utf8.Decode(octets)
  }

  /** A token names the user it was generated for. */
  lemma TokenRoundTrip(username: string)
    ensures TokenUsername(GenerateToken(username)) == Some(username)
  {
    Base64.DecodeEncode(Utf8.Encode(username));
    Utf8.DecodeEncode(username);
  }

  /** Different users never share a token. */
  lemma TokenInjective(u: string, v: string)
    requires GenerateToken(u) == GenerateToken(v)
    ensures u == v
  {
    TokenRoundTrip(u);
    TokenRoundTrip(v);
  }

  /** The username `authMiddleware` decodes from an Authorization header: a
      missing header counts as '', and the first "Bearer " anywhere in it is cut out. */
  function HeaderUsername(header: Option<string>): (r: Option<string>)
    ensures header.None? || header == Some("") ==> r == Some("")
    ensures header.Some? && IndexOf(header.value, BearerPrefix).None? ==> r == TokenUsername(header.value)
  {
    assert ReplaceFirst("", BearerPrefix, "") == "";
    TokenUsername(ReplaceFirst(header.GetOr(""), BearerPrefix, ""))
  }

  // ---------------------------------------------------------------------------
  // The store invariant

  /** The shape every history keeps: user/bot pairs with ids 1, 2, 3, ... in
      order, each user entry non-empty and each bot entry echoing the user
      entry before it. */
  predicate Conversation(msgs: seq<Message>)
    ensures Conversation(msgs) && msgs != [] ==> msgs[|msgs| - 1].role == Bot
  {
    && |msgs| % 2 == 0
    && (forall i :: 0 <= i < |msgs| ==> msgs[i].id == i + 1)
    && (forall i :: 0 <= i < |msgs| ==> (msgs[i].role == User <==> i % 2 == 0))
    && (forall i :: 0 <= i < |msgs| && i % 2 == 0 ==> msgs[i].content != "")
    && (forall i :: 0 <= i < |msgs| && i % 2 == 1 ==> msgs[i].content == EchoPrefix + msgs[i - 1].content)
  }

  /** What register and post keep true of the whole store: no account is named
      '', every password is non-empty and every history is well-shaped. */
  predicate StoreInvariant(users: Users)
  {
    && "" !in users
    && forall u :: u in users ==> users[u].password != "" && Conversation(users[u].messages)
  }

  /** Every user entry of a well-shaped history is answered by the bot entry
      right after it, which echoes it. */
  lemma ConversationAnswered(msgs: seq<Message>, i: int)
    requires Conversation(msgs) && 0 <= i < |msgs| && msgs[i].role == User
    ensures i + 1 < |msgs| && msgs[i + 1].role == Bot
    ensures msgs[i + 1].content == EchoPrefix + msgs[i].content
  {
    assert i % 2 == 0;
    assert i + 1 != |msgs|;
    assert (i + 1) % 2 == 1;
  }

  /** In a store that keeps the invariant, no account's history ends in an
      unanswered user entry. */
  lemma StoreAnswered(users: Users, u: string)
    requires StoreInvariant(users) && u in users && users[u].messages != []
    ensures users[u].messages[|users[u].messages| - 1].role == Bot
  {
    var msgs := users[u].messages;
    assert Conversation(msgs);
    assert |msgs| % 2 == 0 && (|msgs| - 1) % 2 == 1;
  }

  /** The two entries one successful post appends. */
  function EchoPair(n: nat, message: string, now1: int, now2: int): seq<Message> {
    [Message(n + 1, User, message, now1), Message(n + 2, Bot, EchoPrefix + message, now2)]
  }

  /** Appending two entries one after the other appends the pair. */
  lemma AppendTwo(msgs: seq<Message>, x: Message, y: Message)
    ensures msgs + [x] + [y] == msgs + [x, y]
  {
  }

  /** Appending a user entry and its echo keeps a history well-shaped. */
  lemma ConversationExtend(msgs: seq<Message>, message: string, now1: int, now2: int)
    requires Conversation(msgs) && message != ""
    ensures Conversation(msgs + EchoPair(|msgs|, message, now1, now2))
  {
    var ext := msgs + EchoPair(|msgs|, message, now1, now2);
    var n := |msgs|;
    assert ext[n].role == User && ext[n + 1].role == Bot;
    forall i | 0 <= i < |ext| && i % 2 == 1
      ensures ext[i].content == EchoPrefix + ext[i - 1].content
    {
      if i < n {
        assert ext[i] == msgs[i] && ext[i - 1] == msgs[i - 1];
      }
    }
  }

  /** Replacing one user's history by a well-shaped one keeps the store invariant. */
  lemma StoreUpdate(users: Users, u: string, account: Account)
    requires StoreInvariant(users) && u in users
    requires account.password == users[u].password && Conversation(account.messages)
    ensures StoreInvariant(users[u := account])
  {
  }

  /** A successful post, which appends a user entry and its echo to the poster's
      history, keeps the store invariant. */
  lemma PostKeepsStore(users: Users, u: string, message: string, now1: int, now2: int)
    requires StoreInvariant(users) && u in users && message != ""
    ensures var before := users[u];
            StoreInvariant(users[u := before.(messages := before.messages + EchoPair(|before.messages|, message, now1, now2))])
  {
    var before := users[u];
    ConversationExtend(before.messages, message, now1, now2);
    StoreUpdate(users, u, before.(messages := before.messages + EchoPair(|before.messages|, message, now1, now2)));
  }

  // ---------------------------------------------------------------------------
  // The server

  class Server {
    /** `users`: username -> { password, messages }. */
    var users: Users

    ghost predicate Valid()
      reads this
    {
      StoreInvariant(users)
    }

    constructor ()
      ensures Valid() && users == map[]
    {
      users := map[];
    }

    /** `authMiddleware`: the registered user an Authorization header names, or
        None when the request is answered 401. */
    function Authenticate(header: Option<string>): (r: Option<string>)
      reads this
      ensures r.Some? ==> r.value in users && HeaderUsername(header) == r
      ensures r.None? ==> HeaderUsername(header).None? || HeaderUsername(header).value !in users
    {
      match HeaderUsername(header)
      case None => None
      case Some(u) => if u in users then Some(u) else None
    }

    /** POST /api/register. */
    method Register(username: Option<string>, password: Option<string>) returns (r: Response)
      requires Valid()
      modifies this
      ensures Valid()
      ensures !Given(username) || !Given(password) ==>
                r == Failed(400, MissingCredentials) && users == old(users)
      ensures Given(username) && Given(password) && username.value in old(users) ==>
                r == Failed(400, UserExists) && users == old(users)
      ensures Given(username) && Given(password) && username.value !in old(users) ==>
                && r == TokenIssued(GenerateToken(username.value))
                && users == old(users)[username.value := Account(password.value, [])]
    {
      if !Given(username) || !Given(password) {
        return Failed(400, MissingCredentials);
      }
      if username.value in users {
        return Failed(400, UserExists);
      }
      users := users[username.value := Account(password.value, [])];
      r := TokenIssued(GenerateToken(username.value));
    }

    /** POST /api/login: succeeds exactly when the user exists and the stored
        password equals the supplied one. */
    function Login(username: Option<string>, password: Option<string>): (r: Response)
      reads this
      ensures r.TokenIssued? || r == Failed(401, InvalidCredentials)
      ensures r.TokenIssued? <==>
                username.Some? && username.value in users && password == Some(users[username.value].password)
      ensures r.TokenIssued? ==> r.token == GenerateToken(username.value)
    {
      if username.Some? && username.value in users && password == Some(users[username.value].password)
      then TokenIssued(GenerateToken(username.value))
      else Failed(401, InvalidCredentials)
    }

    /** GET /api/messages?page&limit: a `slice` of the caller's history, the
        page number used and the history's length. */
    function GetMessages(header: Option<string>, pageQuery: Option<int>, limitQuery: Option<int>): (r: Response)
      reads this
      ensures r.Page? || r == Failed(401, Unauthorized)
      ensures r.Page? <==> Authenticate(header).Some?
      ensures r.Page? ==>
                var msgs := users[Authenticate(header).value].messages;
                var limit := OrDefault(limitQuery, DefaultLimit);
                && r.total == |msgs|
                && r.page == OrDefault(pageQuery, DefaultPage)
                && r.data == Slice(msgs, (r.page - 1) * limit, (r.page - 1) * limit + limit)
    {
      match Authenticate(header)
      case None => Failed(401, Unauthorized)
      case Some(u) =>
        var page := OrDefault(pageQuery, DefaultPage);
        var limit := OrDefault(limitQuery, DefaultLimit);
        var start := (page - 1) * limit;
        var msgs := users[u].messages;
        Page(Slice(msgs, start, start + limit), page, |msgs|)
    }

    /** POST /api/messages: appends the user's entry and its echo, and replies with the echo. */
    method PostMessage(header: Option<string>, message: Option<string>, now1: int, now2: int)
      returns (r: Response)
      requires Valid()
      modifies this
      ensures Valid()
      ensures old(Authenticate(header)).None? ==> r == Failed(401, Unauthorized) && users == old(users)
      ensures old(Authenticate(header)).Some? && !Given(message) ==>
                r == Failed(400, MessageRequired) && users == old(users)
      ensures old(Authenticate(header)).Some? && Given(message) ==>
                var u := old(Authenticate(header)).value;
                var before := old(users)[u];
                && r == Replied(EchoPrefix + message.value)
                && users == old(users)[u := Account(before.password,
                                                    before.messages + EchoPair(|before.messages|, message.value, now1, now2))]
    {
      var who := Authenticate(header);
      if who.None? {
        return Failed(401, Unauthorized);
      }
      if !Given(message) {
        return Failed(400, MessageRequired);
      }
      var u, m := who.value, message.value;
      var account := users[u];
      var userMessages := account.messages;
      var userMessage := Message(|userMessages| + 1, User, m, now1);
      userMessages := userMessages + [userMessage];
      var botMessage := Message(|userMessages| + 1, Bot, EchoPrefix + m, now2);
      assert [userMessage, botMessage] == EchoPair(|account.messages|, m, now1, now2);
      AppendTwo(account.messages, userMessage, botMessage);
      userMessages := userMessages + [botMessage];
      PostKeepsStore(users, u, m, now1, now2);
      users := users[u := account.(messages := userMessages)];
      r := Replied(botMessage.content);
    }
  }

  // ---------------------------------------------------------------------------
  // Properties of the handlers

  /** "Bearer " followed by a user's token authenticates as that user exactly
      when the user is registered. */
  lemma BearerTokenAuthenticates(s: Server, username: string)
    ensures s.Authenticate(Some(BearerPrefix + GenerateToken(username))) ==
            (if username in s.users then Some(username) else None)
  {
    ReplaceLeadingPattern(BearerPrefix, GenerateToken(username));
    TokenRoundTrip(username);
  }

  /** A request without an Authorization header, or with an empty one, is
      always 401: it names the empty username, which register never admits. */
  lemma MissingHeaderUnauthorized(s: Server)
    requires s.Valid()
    ensures s.Authenticate(None) == None
    ensures s.Authenticate(Some("")) == None
  {
    assert ReplaceFirst("", BearerPrefix, "") == "";
    assert Base64.Decode("") == Some([]);
    assert Utf8.Decode([]) == Some("");
  }

  /** The token a successful login returns authenticates as the user who logged in. */
  lemma LoginTokenAuthenticates(s: Server, username: Option<string>, password: Option<string>)
    requires s.Login(username, password).TokenIssued?
    ensures s.Authenticate(Some(BearerPrefix + s.Login(username, password).token)) == username
  {
    BearerTokenAuthenticates(s, username.value);
  }

  /** The arithmetic of `start = (page - 1) * limit` for a positive page and limit. */
  lemma PageBounds(page: int, limit: int)
    requires page >= 1 && limit >= 1
    ensures (page - 1) * limit >= 0
    ensures (page - 1) * limit + limit == page * limit
  {
  }

  /** With page >= 1 and limit >= 1 the listing is the contiguous window
      [(page-1)*limit, page*limit) of the history, cut at its end, so it holds
      at most `limit` entries. */
  lemma PageWindow(msgs: seq<Message>, page: int, limit: int)
    requires page >= 1 && limit >= 1
    ensures var start := (page - 1) * limit;
            var end := page * limit;
            var from := if start < |msgs| then start else |msgs|;
            var to := if end < |msgs| then end else |msgs|;
            && Slice(msgs, start, start + limit) == msgs[from..to]
            && |Slice(msgs, start, start + limit)| <= limit
  {
    PageBounds(page, limit);
    SliceNonNegative(msgs, (page - 1) * limit, page * limit);
  }

  /** The first page of `limit` entries is the first `limit` entries in posting order. */
  lemma FirstPage(msgs: seq<Message>, limit: int)
    requires limit >= 1
    ensures Slice(msgs, 0, limit) == if limit < |msgs| then msgs[..limit] else msgs
  {
    SliceNonNegative(msgs, 0, limit);
  }

  /** A negative limit on page 1 does not give an empty page: `slice(0, limit)`
      counts the end from the back, dropping the last |limit| entries. */
  lemma NegativeLimitDropsTail(msgs: seq<Message>, limit: int)
    requires limit < 0
    ensures Slice(msgs, 0, limit) == if |msgs| + limit <= 0 then [] else msgs[..|msgs| + limit]
  {
  }

  /** A negative page with a positive limit counts its window from the end of the history. */
  lemma NegativePageCountsFromEnd(msgs: seq<Message>, page: int, limit: int)
    requires page < 0 && limit >= 1
    ensures var start := (page - 1) * limit;
            var from := if |msgs| + start < 0 then 0 else |msgs| + start;
            var to := if |msgs| + start + limit < 0 then 0 else |msgs| + start + limit;
            Slice(msgs, start, start + limit) == msgs[from..to]
  {
    NegativePageBounds(page, limit);
  }

  lemma NegativePageBounds(page: int, limit: int)
    requires page < 0 && limit >= 1
    ensures (page - 1) * limit + limit < 0
  {
  }
}
