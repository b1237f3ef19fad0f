/** Record shapes of WeChat Work ("QiYe") messages and the text helpers that the two
    push packages, dowx and dowxpush, build them with. */
module QyMsg {
  import opened Wrappers
  import Strs

  /** The QYMsg header, restricted to the fields the builders set. */
  datatype Head = Head(touser: string, msgtype: string, agentid: int)

  /** QYMsgItemCard. */
  datatype Card = Card(title: string, description: string, url: string, btntxt: string)

  /** QYMsgText, QYMsgCard and QYMsgMarkdown: the header plus one body item. */
  datatype Message =
    | TextMsg(head: Head, content: string)
    | CardMsg(head: Head, textcard: Card)
    | MarkdownMsg(head: Head, content: string)

  /** The JSON key under which each message kind carries its body item. */
  function BodyKey(m: Message): string
  {
    match m
    case TextMsg(_, _) => "text"
    case CardMsg(_, _) => "textcard"
    case MarkdownMsg(_, _) => "markdown"
  }

  /** What the server needs: `msgtype` names the key that holds the body, and there is
      a target to deliver to. */
  predicate WellFormed(m: Message)
  {
    m.head.msgtype == BodyKey(m) && m.head.touser != ""
  }

  /** The target that means every member of the application. */
  const AllUsers := "@all"

  /** The `touser` a builder sends to: an empty list of users means everybody. */
  function Recipients(users: string): (r: string)
    ensures r != ""
    ensures r == AllUsers || r == users
    ensures users != "" ==> r == users
  {
    if users == "" then AllUsers else users
  }

  /** `fmt.Sprintf(open + "%s" + close, text)`: one fixed tag around the text. */
  function Wrap(open: string, close: string, text: string): string
  {
    open + text + close
  }

  /** Reads back the text inside a fixed tag, if `s` has that tag. */
  function Unwrap(open: string, close: string, s: string): (r: Option<string>)
    ensures r.Some? ==> |r.value| == |s| - |open| - |close|
  {
    if |open| + |close| <= |s| && s[..|open|] == open && s[|s| - |close|..] == close
    then Some(s[|open|..|s| - |close|])
    else None
  }

  /** Unwrapping a wrapped text gives the text back. */
  lemma UnwrapWrap(open: string, close: string, text: string)
    ensures Unwrap(open, close, Wrap(open, close, text)) == Some(text)
  {
    var s := Wrap(open, close, text);
    assert s[..|open|] == open;
    assert s[|s| - |close|..] == close;
    assert s[|open|..|s| - |close|] == text;
  }

  /** Whatever Unwrap accepts is a wrapped text. */
  lemma WrapUnwrap(open: string, close: string, s: string)
    requires Unwrap(open, close, s).Some?
    ensures Wrap(open, close, Unwrap(open, close, s).value) == s
  {
    var t := Unwrap(open, close, s).value;
    assert s == s[..|open|] + t + s[|s| - |close|..];
  }

  /** A message text with the send date appended after the separator `sep`. */
  function Stamp(body: string, sep: string, date: string): string
  {
    body + sep + date
  }

  /** Splits a stamped text at its last newline, provided the separator `sep` ends there. */
  function Unstamp(s: string, sep: string): Option<(string, string)>
  {
    var i := Strs.LastIndex(s, '\n');
    if 0 <= i && |sep| <= i + 1 && s[i + 1 - |sep|..i + 1] == sep
    then Some((s[..i + 1 - |sep|], s[i + 1..]))
    else None
  }

  /** The last newline of a stamped text is the end of the separator when the date has no
      newline of its own. */
  lemma StampLastNewline(body: string, sep: string, date: string)
    requires |sep| > 0 && sep[|sep| - 1] == '\n'
    requires '\n' !in date
    ensures Strs.LastIndex(Stamp(body, sep, date), '\n') == |body| + |sep| - 1
  {
    var s := Stamp(body, sep, date);
    var p := |body| + |sep| - 1;
    assert s[p] == '\n';
    forall k | p < k < |s| ensures s[k] != '\n' {
      assert s[k] == date[k - p - 1];
    }
  }

  /** The body and the date can be read back from a stamped text whose date has no
      newline: the date is a suffix the receiver can always find. */
  lemma UnstampStamp(body: string, sep: string, date: string)
    requires |sep| > 0 && sep[|sep| - 1] == '\n'
    requires '\n' !in date
    ensures Unstamp(Stamp(body, sep, date), sep) == Some((body, date))
  {
    var s := Stamp(body, sep, date);
    StampLastNewline(body, sep, date);
    var i := |body| + |sep| - 1;
    assert s[i + 1 - |sep|..i + 1] == sep;
    assert s[..i + 1 - |sep|] == body;
    assert s[i + 1..] == date;
  }

  /** The first newline of `head + "\n" + rest` ends `head` when `head` has none. */
  lemma FirstNewline(head: string, rest: string)
    requires '\n' !in head
    ensures Strs.IndexOf(head + "\n" + rest, '\n') == |head|
    ensures (head + "\n" + rest)[..|head|] == head
    ensures (head + "\n" + rest)[|head| + 1..] == rest
  {
    var s := head + "\n" + rest;
    assert s[|head|] == '\n';
    forall k | 0 <= k < |head| ensures s[k] != '\n' {
      assert s[k] == head[k];
    }
  }
}
