/** Escaping for the Telegram Bot API "MarkdownV2 style": every character of a chosen set
    is preceded by a backslash, every other character is kept as it is. The two Telegram
    packages replace each match of a one-character regular-expression class with
    backslash-and-match, which is this character-by-character map. */
module Markdown {

  /** The characters the "MarkdownV2 style" section of the Telegram Bot API reserves. */
  const MarkdownV2Specials: set<char> :=
    {'_', '*', '[', ']', '(', ')', '~', '`', '>', '#', '+', '-', '=', '|', '{', '}', '.', '!'}

  /** The one character `LegalMk` escapes. */
  const HashOnly: set<char> := {'#'}

  const Backslash: char := '\\'

  /** How many characters of `s` belong to `specials`. */
  function Count(s: string, specials: set<char>): nat
  {
    if s == [] then 0 else (if s[0] in specials then 1 else 0) + Count(s[1..], specials)
  }

  function EscapeChar(c: char, specials: set<char>): string
  {
    if c in specials then [Backslash, c] else [c]
  }

  /** `s` with a backslash put before each character of `specials`. */
  function Escape(s: string, specials: set<char>): (r: string)
    ensures |r| == |s| + Count(s, specials)
    ensures |s| > 0 ==> |r| > 0
  {
    if s == [] then [] else EscapeChar(s[0], specials) + Escape(s[1..], specials)
  }

  /** The inverse reading: a backslash followed by a character of `specials` stands for
      that character; everything else stands for itself. */
  function Unescape(r: string, specials: set<char>): (s: string)
    ensures |s| <= |r|
    decreases |r|
  {
    if r == [] then []
    else if r[0] == Backslash && |r| >= 2 && r[1] in specials then [r[1]] + Unescape(r[2..], specials)
    else [r[0]] + Unescape(r[1..], specials)
  }

  /** The escape works character by character: it distributes over concatenation. */
  lemma {:induction false} EscapeConcat(a: string, b: string, specials: set<char>)
    ensures Escape(a + b, specials) == Escape(a, specials) + Escape(b, specials)
    decreases |a|
  {
    if a != [] {
      assert (a + b)[0] == a[0];
      assert (a + b)[1..] == a[1..] + b;
      EscapeConcat(a[1..], b, specials);
    } else {
      assert a + b == b;
    }
  }

  /** An escaped text never starts with a reserved character: a reserved character always
      comes right after its backslash, and the backslash itself is not reserved. */
  lemma EscapeHead(s: string, specials: set<char>)
    requires Backslash !in specials
    requires s != []
    ensures Escape(s, specials)[0] !in specials
  {
  }

  /** Removing the inserted backslashes gives back the text, whatever it holds (a
      backslash already in the text included). */
  lemma {:induction false} UnescapeEscape(s: string, specials: set<char>)
    requires Backslash !in specials
    ensures Unescape(Escape(s, specials), specials) == s
    decreases |s|
  {
    if s != [] {
      var rest := Escape(s[1..], specials);
      UnescapeEscape(s[1..], specials);
      if s[0] in specials {
        assert Escape(s, specials) == [Backslash, s[0]] + rest;
        assert ([Backslash, s[0]] + rest)[2..] == rest;
      } else {
        var r := [s[0]] + rest;
        assert Escape(s, specials) == r;
        assert r[1..] == rest;
        if rest != [] {
          EscapeHead(s[1..], specials);
          assert r[1] == rest[0];
        }
      }
    }
  }

  /** A text is left as it is exactly when it holds no reserved character. */
  lemma {:induction false} EscapeUnchanged(s: string, specials: set<char>)
    ensures Escape(s, specials) == s <==> Count(s, specials) == 0
    ensures Count(s, specials) == 0 <==> forall k :: 0 <= k < |s| ==> s[k] !in specials
    decreases |s|
  {
    if s != [] {
      EscapeUnchanged(s[1..], specials);
      if s[0] !in specials && Count(s, specials) == 0 {
        assert Escape(s, specials) == [s[0]] + Escape(s[1..], specials);
        assert s == [s[0]] + s[1..];
      }
      if forall k :: 0 <= k < |s| ==> s[k] !in specials {
        assert forall k :: 0 <= k < |s[1..]| ==> s[1..][k] == s[k + 1];
      }
    }
  }

  /** `EscapeMk` (dotg) and `ReplaceMk` (dotgpush): the "MarkdownV2 style" escape. */
  function EscapeMk(text: string): (r: string)
    ensures |r| == |text| + Count(text, MarkdownV2Specials)
    ensures Unescape(r, MarkdownV2Specials) == text
  {
    UnescapeEscape(text, MarkdownV2Specials);
    Escape(text, MarkdownV2Specials)
  }

  /** `LegalMk`: only '#' is escaped. */
  function LegalMk(text: string): (r: string)
    ensures |r| == |text| + Count(text, HashOnly)
    ensures Unescape(r, HashOnly) == text
  {
    UnescapeEscape(text, HashOnly);
    Escape(text, HashOnly)
  }

  /** On a text whose only reserved character is '#', the two escapes agree. */
  lemma {:induction false} LegalMkAgrees(text: string)
    requires forall k :: 0 <= k < |text| && text[k] in MarkdownV2Specials ==> text[k] == '#'
    ensures LegalMk(text) == EscapeMk(text)
    decreases |text|
  {
    if text != [] {
      LegalMkAgrees(text[1..]);
      assert text[0] in MarkdownV2Specials <==> text[0] in HashOnly;
    }
  }

  /* The case of `TestEscapeMk`. Its text is handled in eight pieces of at most four
     characters, each escaped on its own and then joined by `EscapeConcat`. */

  lemma EscapePiece0()
    ensures Escape("测试_不", MarkdownV2Specials) == "测试\\_不"
  {
  }

  lemma EscapePiece1()
    ensures Escape("错*继续", MarkdownV2Specials) == "错\\*继续"
  {
  }

  lemma EscapePiece2()
    ensures Escape("[中括号", MarkdownV2Specials) == "\\[中括号"
  {
  }

  lemma EscapePiece3()
    ensures Escape("](小括", MarkdownV2Specials) == "\\]\\(小括"
  {
  }

  lemma EscapePiece4()
    ensures Escape("号)大于", MarkdownV2Specials) == "号\\)大于"
  {
  }

  lemma EscapePiece5()
    ensures Escape(">井号#", MarkdownV2Specials) == "\\>井号\\#"
  {
  }

  lemma EscapePiece6()
    ensures Escape("感叹号!", MarkdownV2Specials) == "感叹号\\!"
  {
  }

  lemma EscapePiece7()
    ensures Escape("结尾。", MarkdownV2Specials) == "结尾。"
  {
  }

  /** The pieces spell the text of `TestEscapeMk`. */
  lemma EscapeMkTestText()
    ensures "测试_不错*继续[中括号](小括号)大于>井号#感叹号!结尾。"
         == "测试_不" + "错*继续" + "[中括号" + "](小括"
         + "号)大于" + ">井号#" + "感叹号!" + "结尾。"
  {
  }

  /** The pieces spell the answer `TestEscapeMk` expects. */
  lemma EscapeMkTestWant()
    ensures "测试\\_不错\\*继续\\[中括号\\]\\(小括号\\)大于\\>井号\\#感叹号\\!结尾。"
         == "测试\\_不" + "错\\*继续" + "\\[中括号" + "\\]\\(小括"
         + "号\\)大于" + "\\>井号\\#" + "感叹号\\!" + "结尾。"
  {
  }

  /** `TestEscapeMk`: Chinese text with '_', '*', both brackets, both parentheses, '>', '#'
      and '!' gets exactly one backslash before each of those and nothing else. */
  lemma EscapeMkTestExample()
    ensures EscapeMk("测试_不" + "错*继续" + "[中括号" + "](小括"
         + "号)大于" + ">井号#" + "感叹号!" + "结尾。")
         == "测试\\_不" + "错\\*继续" + "\\[中括号" + "\\]\\(小括"
         + "号\\)大于" + "\\>井号\\#" + "感叹号\\!" + "结尾。"
  {
    EscapeConcat("测试_不" + "错*继续" + "[中括号" + "](小括" + "号)大于" + ">井号#" + "感叹号!", "结尾。", MarkdownV2Specials);
    EscapeConcat("测试_不" + "错*继续" + "[中括号" + "](小括" + "号)大于" + ">井号#", "感叹号!", MarkdownV2Specials);
    EscapeConcat("测试_不" + "错*继续" + "[中括号" + "](小括" + "号)大于", ">井号#", MarkdownV2Specials);
    EscapeConcat("测试_不" + "错*继续" + "[中括号" + "](小括", "号)大于", MarkdownV2Specials);
    EscapeConcat("测试_不" + "错*继续" + "[中括号", "](小括", MarkdownV2Specials);
    EscapeConcat("测试_不" + "错*继续", "[中括号", MarkdownV2Specials);
    EscapeConcat("测试_不", "错*继续", MarkdownV2Specials);
    EscapePiece0();
    EscapePiece1();
    EscapePiece2();
    EscapePiece3();
    EscapePiece4();
    EscapePiece5();
    EscapePiece6();
    EscapePiece7();
  }
}
