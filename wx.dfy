/** The WeChat Work client of package dowx (dowx/qiye.go): the messages its Push*
    methods hand to the shared pusher, and the tag helpers for coloured text. The send
    date is a parameter. */
module DoWx {
  import opened Wrappers
  import opened QyMsg
  import Strs

  const GrayOpen := "<div class='gray'>"
  const NormalOpen := "<div class='normal'>"
  const HighlightOpen := "<div class='highlight'>"
  const DivClose := "</div>"
  const InfoOpen := "<font color='info'>"
  const CommentOpen := "<font color='comment'>"
  const WarningOpen := "<font color='warning'>"
  const FontClose := "</font>"
  const LinkClose := "</a>"

  /** Cards need a link: an empty one is replaced by this placeholder. */
  const DefaultCardURL := "https://example.com"

  /** Grey text inside a card. */
  function GenCardGrayText(text: string): (r: string)
    ensures Unwrap(GrayOpen, DivClose, r) == Some(text)
  {
    UnwrapWrap(GrayOpen, DivClose, text);
    Wrap(GrayOpen, DivClose, text)
  }

  /** Black text inside a card. */
  function GenCardNormalText(text: string): (r: string)
    ensures Unwrap(NormalOpen, DivClose, r) == Some(text)
  {
    UnwrapWrap(NormalOpen, DivClose, text);
    Wrap(NormalOpen, DivClose, text)
  }

  /** Orange-red text inside a card. */
  function GenCardHighlightText(text: string): (r: string)
    ensures Unwrap(HighlightOpen, DivClose, r) == Some(text)
  {
    UnwrapWrap(HighlightOpen, DivClose, text);
    Wrap(HighlightOpen, DivClose, text)
  }

  /** Green text inside a Markdown message. */
  function GenMdInfoText(text: string): (r: string)
    ensures Unwrap(InfoOpen, FontClose, r) == Some(text)
  {
    UnwrapWrap(InfoOpen, FontClose, text);
    Wrap(InfoOpen, FontClose, text)
  }

  /** Grey text inside a Markdown message. */
  function GenMdCommentText(text: string): (r: string)
    ensures Unwrap(CommentOpen, FontClose, r) == Some(text)
  {
    UnwrapWrap(CommentOpen, FontClose, text);
    Wrap(CommentOpen, FontClose, text)
  }

  /** Orange-red text inside a Markdown message. */
  function GenMdWarningText(text: string): (r: string)
    ensures Unwrap(WarningOpen, FontClose, r) == Some(text)
  {
    UnwrapWrap(WarningOpen, FontClose, text);
    Wrap(WarningOpen, FontClose, text)
  }

  /** The opening anchor tag for a link target. */
  function LinkOpen(url: string): string
  {
    "<a href='" + url + "'>"
  }

  /** A hyperlink whose visible text is `title`. */
  function GenHyperlink(url: string, title: string): (r: string)
    ensures Unwrap(LinkOpen(url), LinkClose, r) == Some(title)
  {
    UnwrapWrap(LinkOpen(url), LinkClose, title);
    Wrap(LinkOpen(url), LinkClose, title)
  }

  /** The three card colours never produce the same text: the class name differs right
      after the common `<div class='`. */
  lemma CardColoursDistinct(a: string, b: string)
    ensures GenCardGrayText(a) != GenCardNormalText(b)
    ensures GenCardGrayText(a) != GenCardHighlightText(b)
    ensures GenCardNormalText(a) != GenCardHighlightText(b)
  {
    assert GenCardGrayText(a)[12] == 'g';
    assert GenCardNormalText(b)[12] == 'n';
    assert GenCardHighlightText(b)[12] == 'h';
    assert GenCardNormalText(a)[12] == 'n';
  }

  /** The three Markdown colours never produce the same text: the colour name differs
      right after the common `<font color='`. */
  lemma MdColoursDistinct(a: string, b: string)
    ensures GenMdInfoText(a) != GenMdCommentText(b)
    ensures GenMdInfoText(a) != GenMdWarningText(b)
    ensures GenMdCommentText(a) != GenMdWarningText(b)
  {
    assert GenMdInfoText(a)[13] == 'i';
    assert GenMdCommentText(b)[13] == 'c';
    assert GenMdWarningText(b)[13] == 'w';
    assert GenMdCommentText(a)[13] == 'c';
  }

  /** The link a card opens: never empty, and the caller's own link when given. */
  function CardURL(url: string): (r: string)
    ensures r != ""
    ensures url != "" ==> r == url
    ensures url == "" ==> r == DefaultCardURL
  {
    if url == "" then DefaultCardURL else url
  }

  /** QiYe.PushText: the content is sent as given. */
  function PushText(agentid: int, content: string, users: string): (m: Message)
    ensures m.TextMsg? && WellFormed(m)
    ensures m.head.agentid == agentid && m.head.touser == Recipients(users)
    ensures m.content == content
  {
    TextMsg(Head(Recipients(users), "text", agentid), content)
  }

  /** QiYe.PushTextMsg: title, a blank line, the message, a blank line and the date. */
  function PushTextMsg(agentid: int, title: string, msg: string, users: string, date: string): (m: Message)
    ensures m.TextMsg? && WellFormed(m)
    ensures m.head.agentid == agentid && m.head.touser == Recipients(users)
  {
    TextMsg(Head(Recipients(users), "text", agentid), Stamp(title + "\n\n" + msg, "\n\n", date))
  }

  /** The title and the date of PushTextMsg can be read back: the title ends at the first
      newline and the date follows the last one, when neither has a newline of its own. */
  lemma PushTextMsgReadBack(agentid: int, title: string, msg: string, users: string, date: string)
    requires '\n' !in title && '\n' !in date
    ensures var c := PushTextMsg(agentid, title, msg, users, date).content;
      && Unstamp(c, "\n\n") == Some((title + "\n\n" + msg, date))
      && Strs.IndexOf(c, '\n') == |title| && c[..|title|] == title
  {
    var c := PushTextMsg(agentid, title, msg, users, date).content;
    assert Unstamp(c, "\n\n") == Some((title + "\n\n" + msg, date)) by {
      UnstampStamp(title + "\n\n" + msg, "\n\n", date);
    }
    assert Strs.IndexOf(c, '\n') == |title| && c[..|title|] == title by {
      assert c == title + "\n" + ("\n" + msg + "\n\n" + date);
      FirstNewline(title, "\n" + msg + "\n\n" + date);
    }
  }

  /** QiYe.PushCard: the description opens with the date in grey on a line of its own. */
  function PushCard(agentid: int, title: string, description: string, users: string,
                    url: string, btnTxt: string, date: string): (m: Message)
    ensures m.CardMsg? && WellFormed(m)
    ensures m.head.agentid == agentid && m.head.touser == Recipients(users)
    ensures m.textcard.title == title && m.textcard.btntxt == btnTxt
    ensures m.textcard.url == CardURL(url)
  {
    CardMsg(Head(Recipients(users), "textcard", agentid),
            Card(title, GenCardGrayText(date) + "\n" + description, CardURL(url), btnTxt))
  }

  /** The card description splits at its first newline into the grey date and the
      caller's description, when the date has no newline. */
  lemma PushCardReadBack(agentid: int, title: string, description: string, users: string,
                         url: string, btnTxt: string, date: string)
    requires '\n' !in date
    ensures var d := PushCard(agentid, title, description, users, url, btnTxt, date).textcard.description;
      var i := Strs.IndexOf(d, '\n');
      && 0 <= i
      && Unwrap(GrayOpen, DivClose, d[..i]) == Some(date)
      && d[i + 1..] == description
  {
    var g := GenCardGrayText(date);
    assert '\n' !in g by {
      forall k | 0 <= k < |g| ensures g[k] != '\n' {
        if k < |GrayOpen| {
          assert g[k] == GrayOpen[k];
        } else if k < |GrayOpen| + |date| {
          assert g[k] == date[k - |GrayOpen|];
        } else {
          assert g[k] == DivClose[k - |GrayOpen| - |date|];
        }
      }
    }
    FirstNewline(g, description);
  }

  /** QiYe.PushMarkdown: the content, a blank line and the date. */
  function PushMarkdown(agentid: int, content: string, users: string, date: string): (m: Message)
    ensures m.MarkdownMsg? && WellFormed(m)
    ensures m.head.agentid == agentid && m.head.touser == Recipients(users)
  {
    MarkdownMsg(Head(Recipients(users), "markdown", agentid), Stamp(content, "\n\n", date))
  }

  /** The content and the date of PushMarkdown can be read back when the date has no
      newline. */
  lemma PushMarkdownReadBack(agentid: int, content: string, users: string, date: string)
    requires '\n' !in date
    ensures Unstamp(PushMarkdown(agentid, content, users, date).content, "\n\n") == Some((content, date))
  {
    UnstampStamp(content, "\n\n", date);
  }
}
