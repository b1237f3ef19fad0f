/** The WeChat push clients of package dowxpush: the access-token cache shared by Core
    (dowxpush/core.go) and Sandbox (dowxpush/sandbox.go), the push that follows it, and
    the WeChat Work messages QiYe builds (dowxpush/qiye.go).

    The clock and the network are parameters. An instant is a count of nanoseconds;
    `now` is the reading taken before the cache check and `readAt` the one taken after
    the token reply was read. A reply is the decoded answer the server would give, and
    the requests are returned so that a caller can see what was sent. */
module DoWxPush {
  import opened Wrappers
  import opened QyMsg
  import Strs

  /** The largest whole number of seconds `time.ParseDuration` accepts: (1 << 63) / 10^9,
      rounded down. Past it the nanosecond count overflows. */
  const MaxDurationSeconds: int := 9223372036
  const NanosPerSecond: int := 1000000000

  /** Core expires every token three minutes early. Sandbox uses no margin. */
  const CoreMarginSeconds: int := 180

  /** Whether `time.ParseDuration(fmt.Sprintf("%ds", secs))` succeeds. */
  predicate DurationParses(secs: int)
  {
    -MaxDurationSeconds <= secs <= MaxDurationSeconds
  }

  /** The answer to the token request (tokenResult). */
  datatype TokenReply =
    | GetFailed
    | TokenUndecodable
    | TokenDecoded(accessToken: string, expiresIn: int)

  /** The answer to the push request (PushResult). */
  datatype PushReply =
    | PostFailed
    | PushUndecodable
    | PushDecoded(errcode: int)

  datatype WxError =
    | RequestFailed
    | Undecodable
    | NoToken
    | BadDuration
    | TokenFailed(cause: WxError)
    | PostError
    | ReplyUndecodable
    | Rejected(errcode: int)

  /** The cached token and the instant it stops being reused. */
  datatype Cache = Cache(token: string, expires: int)

  /** A cached token is reused while it is non-empty and `now` is before its expiry. */
  predicate Fresh(c: Cache, now: int)
  {
    c.token != "" && now < c.expires
  }

  /** The cache after getToken, whether a token was requested, and the error returned. */
  datatype Refreshed = Refreshed(cache: Cache, requested: bool, err: Option<WxError>)

  /** getToken with an expiry margin of `margin` seconds. A reply that cannot be used
      leaves the cache alone, except that a lifetime ParseDuration refuses keeps the new
      token with the old expiry, because the token is stored before the lifetime is parsed. */
  function Refresh(c: Cache, now: int, reply: TokenReply, readAt: int, margin: int): (r: Refreshed)
    ensures r.requested <==> !Fresh(c, now)
    ensures r.err.None? ==> r.cache.token != ""
    ensures r.err.Some? ==> r.requested && r.cache.expires == c.expires
    ensures r.err.Some? && r.err != Some(BadDuration) ==> r.cache == c
    ensures r.requested && r.err.None? ==>
      reply.TokenDecoded? && r.cache == Cache(reply.accessToken, readAt + (reply.expiresIn - margin) * NanosPerSecond)
  {
    if Fresh(c, now) then Refreshed(c, false, None)
    else match reply
      case GetFailed => Refreshed(c, true, Some(RequestFailed))
      case TokenUndecodable => Refreshed(c, true, Some(Undecodable))
      case TokenDecoded(token, secs) =>
        if token == "" then Refreshed(c, true, Some(NoToken))
        else if !DurationParses(secs - margin) then Refreshed(Cache(token, c.expires), true, Some(BadDuration))
        else Refreshed(Cache(token, readAt + (secs - margin) * NanosPerSecond), true, None)
  }

  /** A freshly fetched token is reused, without a request, by every later call before
      its expiry. */
  lemma CachedTokenReused(c: Cache, now: int, reply: TokenReply, readAt: int, margin: int,
                          later: int, reply2: TokenReply, readAt2: int)
    requires var r := Refresh(c, now, reply, readAt, margin); r.requested && r.err.None?
    requires later < Refresh(c, now, reply, readAt, margin).cache.expires
    ensures var c2 := Refresh(c, now, reply, readAt, margin).cache;
      Refresh(c2, later, reply2, readAt2, margin) == Refreshed(c2, false, None)
  {
  }

  /** When both accept the same reply, Core's token expires exactly three minutes before
      Sandbox's. */
  lemma CoreExpiresEarlier(c: Cache, now: int, reply: TokenReply, readAt: int)
    requires !Fresh(c, now)
    requires Refresh(c, now, reply, readAt, CoreMarginSeconds).err.None?
    requires Refresh(c, now, reply, readAt, 0).err.None?
    ensures Refresh(c, now, reply, readAt, 0).cache.expires
         == Refresh(c, now, reply, readAt, CoreMarginSeconds).cache.expires + CoreMarginSeconds * NanosPerSecond
  {
  }

  /** The token kept after a refused lifetime is never reused: as long as an empty token
      never has a future expiry, the next call with a clock that has not gone back
      requests a new one. */
  lemma BadDurationRefetched(c: Cache, now: int, reply: TokenReply, readAt: int, margin: int,
                             later: int, reply2: TokenReply, readAt2: int)
    requires c.token == "" ==> c.expires <= now
    requires now <= later
    requires Refresh(c, now, reply, readAt, margin).err == Some(BadDuration)
    ensures Refresh(Refresh(c, now, reply, readAt, margin).cache, later, reply2, readAt2, margin).requested
  {
  }

  /** The state and the requests of one push. */
  datatype Pushed = Pushed(cache: Cache, tokenRequested: bool, posted: Option<string>, err: Option<WxError>)

  /** Core.push and Sandbox.PushTpl: refresh the token, then post to `sendHead` followed
      by the token, and judge the reply by its errcode. */
  function PushOutcome(c: Cache, now: int, reply: TokenReply, readAt: int, margin: int,
                       sendHead: string, answer: PushReply): (p: Pushed)
    ensures var t := Refresh(c, now, reply, readAt, margin);
      && p.cache == t.cache && p.tokenRequested == t.requested
      && (t.err.Some? ==> p.posted.None? && p.err == Some(TokenFailed(t.err.value)))
      && (t.err.None? ==> p.posted == Some(sendHead + t.cache.token))
    ensures p.posted.Some? ==> p.cache.token != ""
    ensures p.err.None? <==> p.posted.Some? && answer == PushDecoded(0)
  {
    var t := Refresh(c, now, reply, readAt, margin);
    if t.err.Some? then Pushed(t.cache, t.requested, None, Some(TokenFailed(t.err.value)))
    else
      var err := match answer
        case PostFailed => Some(PostError)
        case PushUndecodable => Some(ReplyUndecodable)
        case PushDecoded(code) => if code != 0 then Some(Rejected(code)) else None;
      Pushed(t.cache, t.requested, Some(sendHead + t.cache.token), err)
  }

  /** A second push before the token expires requests no token and posts to the same
      address as the first. */
  lemma SecondPushReusesToken(c: Cache, now: int, reply: TokenReply, readAt: int, margin: int,
                              sendHead: string, answer: PushReply,
                              later: int, reply2: TokenReply, readAt2: int, answer2: PushReply)
    requires PushOutcome(c, now, reply, readAt, margin, sendHead, answer).posted.Some?
    requires later < PushOutcome(c, now, reply, readAt, margin, sendHead, answer).cache.expires
    ensures var p := PushOutcome(c, now, reply, readAt, margin, sendHead, answer);
      var q := PushOutcome(p.cache, later, reply2, readAt2, margin, sendHead, answer2);
      !q.tokenRequested && q.cache == p.cache && q.posted == p.posted
  {
    var p := PushOutcome(c, now, reply, readAt, margin, sendHead, answer);
    assert Fresh(p.cache, later);
  }

  /** A token address with two `%s` verbs, for the application id and the secret. */
  datatype TokenFormat = TokenFormat(head: string, middle: string)

  function TokenURL(f: TokenFormat, appid: string, secret: string): string
  {
    f.head + appid + f.middle + secret
  }

  const QyTokenFormat := TokenFormat("https://qyapi.weixin.qq.com/cgi-bin/gettoken?corpid=", "&corpsecret=")
  const QySendHead := "https://qyapi.weixin.qq.com/cgi-bin/message/send?access_token="
  const SandboxTokenFormat := TokenFormat("https://api.weixin.qq.com/cgi-bin/token?grant_type=client_credential&appid=", "&secret=")
  const SandboxPushHead := "https://api.weixin.qq.com/cgi-bin/message/template/send?access_token="

  /** A JSON post of `data` to `url`. */
  datatype Post<D> = Post(url: string, data: D)

  /** The pushing core: application credentials and the cached token. */
  class Core {
    const appid: string
    const secret: string
    var token: string
    var expires: int

    function State(): Cache
      reads this
    {
      Cache(token, expires)
    }

    /** NewQiYe's Core: no token, expiring at creation. */
    constructor NewQiYe(corpid: string, corpsecret: string, now: int)
      ensures appid == corpid && secret == corpsecret
      ensures State() == Cache("", now)
    {
      appid := corpid;
      secret := corpsecret;
      token := "";
      expires := now;
    }

    /** getToken: reuse the cached token or fetch `url`. */
    method GetToken(url: string, now: int, reply: TokenReply, readAt: int)
      returns (fetched: Option<string>, err: Option<WxError>)
      modifies this
      ensures var r := Refresh(old(State()), now, reply, readAt, CoreMarginSeconds);
        && State() == r.cache && err == r.err
        && fetched == (if r.requested then Some(url) else None)
    {
      if token != "" && now < expires {
        return None, None;
      }
      fetched := Some(url);
      match reply {
        case GetFailed =>
          err := Some(RequestFailed);
        case TokenUndecodable =>
          err := Some(Undecodable);
        case TokenDecoded(accessToken, expiresIn) =>
          if accessToken == "" {
            err := Some(NoToken);
            return;
          }
          token := accessToken;
          if !DurationParses(expiresIn - CoreMarginSeconds) {
            err := Some(BadDuration);
            return;
          }
          expires := readAt + (expiresIn - CoreMarginSeconds) * NanosPerSecond;
          err := None;
      }
    }

    /** push: refresh the token, then post `data` and judge the reply. */
    method Push<D>(tokenFormat: TokenFormat, sendHead: string, data: D,
                   now: int, reply: TokenReply, readAt: int, answer: PushReply)
      returns (fetched: Option<string>, post: Option<Post<D>>, err: Option<WxError>)
      modifies this
      ensures var p := PushOutcome(old(State()), now, reply, readAt, CoreMarginSeconds, sendHead, answer);
        && State() == p.cache && err == p.err
        && fetched == (if p.tokenRequested then Some(TokenURL(tokenFormat, appid, secret)) else None)
        && post == (if p.posted.Some? then Some(Post(p.posted.value, data)) else None)
    {
      var tokenErr;
      fetched, tokenErr := GetToken(TokenURL(tokenFormat, appid, secret), now, reply, readAt);
      if tokenErr.Some? {
        return fetched, None, Some(TokenFailed(tokenErr.value));
      }
      post := Some(Post(sendHead + token, data));
      match answer {
        case PostFailed =>
          err := Some(PostError);
        case PushUndecodable =>
          err := Some(ReplyUndecodable);
        case PushDecoded(code) =>
          err := if code != 0 then Some(Rejected(code)) else None;
      }
    }
  }

  /** The `data` field of a template message: keyword name to its fields. */
  type Payload = map<string, map<string, string>>

  /** The body PushTpl posts; a nil payload is None. */
  datatype TplData = TplData(touser: string, templateID: string, url: string, data: Option<Payload>)

  /** The template payload for a title, a message and a time. */
  function GenGeneralTpl(title: string, msg: string, time: string): (p: Payload)
    ensures p.Keys == {"title", "msg", "time"}
    ensures forall k :: k in p ==> p[k].Keys == {"value"}
    ensures Strs.HasSuffix(p["title"]["value"], "\n") && Strs.TrimSuffix(p["title"]["value"], "\n") == title
    ensures Strs.HasSuffix(p["msg"]["value"], "\n\n") && Strs.TrimSuffix(p["msg"]["value"], "\n\n") == msg
    ensures p["time"]["value"] == time
  {
    var p := map["title" := map["value" := title + "\n"],
                 "msg" := map["value" := msg + "\n\n"],
                 "time" := map["value" := time]];
    assert Strs.HasSuffix(p["title"]["value"], "\n");
    assert Strs.HasSuffix(p["msg"]["value"], "\n\n");
    p
  }

  /** The official-account test client. */
  class Sandbox {
    const appid: string
    const secret: string
    var token: string
    var expires: int

    function State(): Cache
      reads this
    {
      Cache(token, expires)
    }

    /** NewSandbox: no token, expiring at creation. */
    constructor NewSandbox(appid: string, secret: string, now: int)
      ensures this.appid == appid && this.secret == secret
      ensures State() == Cache("", now)
    {
      this.appid := appid;
      this.secret := secret;
      token := "";
      expires := now;
    }

    /** getToken: reuse the cached token or fetch the test-account token address. */
    method GetToken(now: int, reply: TokenReply, readAt: int)
      returns (fetched: Option<string>, err: Option<WxError>)
      modifies this
      ensures var r := Refresh(old(State()), now, reply, readAt, 0);
        && State() == r.cache && err == r.err
        && fetched == (if r.requested then Some(TokenURL(SandboxTokenFormat, appid, secret)) else None)
    {
      if token != "" && now < expires {
        return None, None;
      }
      fetched := Some(TokenURL(SandboxTokenFormat, appid, secret));
      match reply {
        case GetFailed =>
          err := Some(RequestFailed);
        case TokenUndecodable =>
          err := Some(Undecodable);
        case TokenDecoded(accessToken, expiresIn) =>
          if accessToken == "" {
            err := Some(NoToken);
            return;
          }
          token := accessToken;
          if !DurationParses(expiresIn) {
            err := Some(BadDuration);
            return;
          }
          expires := readAt + expiresIn * NanosPerSecond;
          err := None;
      }
    }

    /** PushTpl: refresh the token, then post the template message and judge the reply. */
    method PushTpl(toUID: string, tplID: string, payload: Option<Payload>, url: string,
                   now: int, reply: TokenReply, readAt: int, answer: PushReply)
      returns (fetched: Option<string>, post: Option<Post<TplData>>, err: Option<WxError>)
      modifies this
      ensures var p := PushOutcome(old(State()), now, reply, readAt, 0, SandboxPushHead, answer);
        && State() == p.cache && err == p.err
        && fetched == (if p.tokenRequested then Some(TokenURL(SandboxTokenFormat, appid, secret)) else None)
        && post == (if p.posted.Some? then Some(Post(p.posted.value, TplData(toUID, tplID, url, payload))) else None)
    {
      var tokenErr;
      fetched, tokenErr := GetToken(now, reply, readAt);
      if tokenErr.Some? {
        return fetched, None, Some(TokenFailed(tokenErr.value));
      }
      post := Some(Post(SandboxPushHead + token, TplData(toUID, tplID, url, payload)));
      match answer {
        case PostFailed =>
          err := Some(PostError);
        case PushUndecodable =>
          err := Some(ReplyUndecodable);
        case PushDecoded(code) =>
          err := if code != 0 then Some(Rejected(code)) else None;
      }
    }
  }

  /** QiYe.PushText: the content, a newline and the date. */
  function QyText(agentid: int, content: string, users: string, date: string): (m: Message)
    ensures m.TextMsg? && WellFormed(m)
    ensures m.head.agentid == agentid && m.head.touser == Recipients(users)
  {
    TextMsg(Head(Recipients(users), "text", agentid), Stamp(content, "\n", date))
  }

  /** QiYe.PushCard: the description opens with the date on a line of its own; the link
      is passed through, empty or not. */
  function QyCard(agentid: int, title: string, description: string, users: string,
                  url: string, btnTxt: string, date: string): (m: Message)
    ensures m.CardMsg? && WellFormed(m)
    ensures m.head.agentid == agentid && m.head.touser == Recipients(users)
    ensures m.textcard.title == title && m.textcard.url == url && m.textcard.btntxt == btnTxt
  {
    CardMsg(Head(Recipients(users), "textcard", agentid), Card(title, date + "\n" + description, url, btnTxt))
  }

  /** QiYe.PushMarkdown: the content, a newline and the date. */
  function QyMarkdown(agentid: int, content: string, users: string, date: string): (m: Message)
    ensures m.MarkdownMsg? && WellFormed(m)
    ensures m.head.agentid == agentid && m.head.touser == Recipients(users)
  {
    MarkdownMsg(Head(Recipients(users), "markdown", agentid), Stamp(content, "\n", date))
  }

  /** The content and the date of a text or Markdown message can be read back when the
      date has no newline. */
  lemma QyStampReadBack(agentid: int, content: string, users: string, date: string)
    requires '\n' !in date
    ensures Unstamp(QyText(agentid, content, users, date).content, "\n") == Some((content, date))
    ensures Unstamp(QyMarkdown(agentid, content, users, date).content, "\n") == Some((content, date))
  {
    UnstampStamp(content, "\n", date);
  }

  /** The card description splits at its first newline into the date and the caller's
      description, when the date has no newline. */
  lemma QyCardReadBack(agentid: int, title: string, description: string, users: string,
                       url: string, btnTxt: string, date: string)
    requires '\n' !in date
    ensures var d := QyCard(agentid, title, description, users, url, btnTxt, date).textcard.description;
      var i := Strs.IndexOf(d, '\n');
      i == |date| && d[..i] == date && d[i + 1..] == description
  {
    FirstNewline(date, description);
  }

  const InfoOpen := "<font color='info'>"
  const CommentOpen := "<font color='comment'>"
  const WarningOpen := "<font color='warning'>"
  const FontClose := "</font>"

  /** QiYe.MdInfoText: green Markdown text. */
  function MdInfoText(text: string): (r: string)
    ensures Unwrap(InfoOpen, FontClose, r) == Some(text)
  {
    UnwrapWrap(InfoOpen, FontClose, text);
    Wrap(InfoOpen, FontClose, text)
  }

  /** QiYe.MdCommentText: grey Markdown text. */
  function MdCommentText(text: string): (r: string)
    ensures Unwrap(CommentOpen, FontClose, r) == Some(text)
  {
    UnwrapWrap(CommentOpen, FontClose, text);
    Wrap(CommentOpen, FontClose, text)
  }

  /** QiYe.MdWarningText: orange-red Markdown text. */
  function MdWarningText(text: string): (r: string)
    ensures Unwrap(WarningOpen, FontClose, r) == Some(text)
  {
    UnwrapWrap(WarningOpen, FontClose, text);
    Wrap(WarningOpen, FontClose, text)
  }

  /** The WeChat Work client: a Core with the WeChat Work addresses. */
  class QiYe {
    const core: Core

    constructor NewQiYe(corpid: string, corpsecret: string, now: int)
      ensures fresh(core)
      ensures core.appid == corpid && core.secret == corpsecret && core.State() == Cache("", now)
    {
      core := new Core.NewQiYe(corpid, corpsecret, now);
    }

    /** QiYe.PushText: build the text message and push it with the core. */
    method PushText(agentid: int, content: string, users: string, date: string,
                    now: int, reply: TokenReply, readAt: int, answer: PushReply)
      returns (fetched: Option<string>, post: Option<Post<Message>>, err: Option<WxError>)
      modifies core
      ensures var p := PushOutcome(old(core.State()), now, reply, readAt, CoreMarginSeconds, QySendHead, answer);
        && core.State() == p.cache && err == p.err
        && fetched == (if p.tokenRequested then Some(TokenURL(QyTokenFormat, core.appid, core.secret)) else None)
        && post == (if p.posted.Some? then Some(Post(p.posted.value, QyText(agentid, content, users, date))) else None)
    {
      fetched, post, err := core.Push(QyTokenFormat, QySendHead, QyText(agentid, content, users, date), now, reply, readAt, answer);
    }

    /** QiYe.PushCard: build the card message and push it with the core. */
    method PushCard(agentid: int, title: string, description: string, users: string,
                    url: string, btnTxt: string, date: string,
                    now: int, reply: TokenReply, readAt: int, answer: PushReply)
      returns (fetched: Option<string>, post: Option<Post<Message>>, err: Option<WxError>)
      modifies core
      ensures var p := PushOutcome(old(core.State()), now, reply, readAt, CoreMarginSeconds, QySendHead, answer);
        && core.State() == p.cache && err == p.err
        && fetched == (if p.tokenRequested then Some(TokenURL(QyTokenFormat, core.appid, core.secret)) else None)
        && post == (if p.posted.Some? then Some(Post(p.posted.value, QyCard(agentid, title, description, users, url, btnTxt, date))) else None)
    {
      fetched, post, err := core.Push(QyTokenFormat, QySendHead, QyCard(agentid, title, description, users, url, btnTxt, date), now, reply, readAt, answer);
    }

    /** QiYe.PushMarkdown: build the Markdown message and push it with the core. */
    method PushMarkdown(agentid: int, content: string, users: string, date: string,
                        now: int, reply: TokenReply, readAt: int, answer: PushReply)
      returns (fetched: Option<string>, post: Option<Post<Message>>, err: Option<WxError>)
      modifies core
      ensures var p := PushOutcome(old(core.State()), now, reply, readAt, CoreMarginSeconds, QySendHead, answer);
        && core.State() == p.cache && err == p.err
        && fetched == (if p.tokenRequested then Some(TokenURL(QyTokenFormat, core.appid, core.secret)) else None)
        && post == (if p.posted.Some? then Some(Post(p.posted.value, QyMarkdown(agentid, content, users, date))) else None)
    {
      fetched, post, err := core.Push(QyTokenFormat, QySendHead, QyMarkdown(agentid, content, users, date), now, reply, readAt, answer);
    }
  }
}
