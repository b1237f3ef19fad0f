/** The parts of Go's `strings` and `strconv` packages the modelled code relies on:
    byte-free views of strings as sequences of code points, decimal formatting with
    `%d` / `%02d`, and `strconv.Atoi` on a 64-bit platform. */
module Strs {
  import opened Wrappers

  const Int64Min: int := -0x8000_0000_0000_0000
  const Int64Max: int := 0x7fff_ffff_ffff_ffff

  predicate IsDigit(c: char) { '0' <= c <= '9' }

  predicate AllDigits(s: string) { forall i :: 0 <= i < |s| ==> IsDigit(s[i]) }

  function DigitChar(d: nat): (c: char)
    requires d < 10
    ensures IsDigit(c)
  {
    ('0' as int + d) as char
  }

  function DigitValue(c: char): (d: nat)
    requires IsDigit(c)
    ensures d < 10
  {
    c as int - '0' as int
  }

  /** The decimal digits of `n`, as `%d` prints a non-negative integer. */
  function Itoa(n: nat): (s: string)
    ensures |s| >= 1 && AllDigits(s)
    ensures n < 10 ==> |s| == 1
    ensures 10 <= n < 100 ==> |s| == 2
    decreases n
  {
    if n < 10 then [DigitChar(n)] else Itoa(n / 10) + [DigitChar(n % 10)]
  }

  /** `%d` of any integer. */
  function FormatInt(i: int): (s: string)
    ensures |s| >= 1
  {
    if i < 0 then "-" + Itoa(-i) else Itoa(i)
  }

  /** `%02d` of a non-negative integer: at least two digits, zero-padded on the left. */
  function Pad2(n: nat): (s: string)
    ensures |s| >= 2 && AllDigits(s)
    ensures n < 100 ==> |s| == 2
  {
    if n < 10 then "0" + Itoa(n) else Itoa(n)
  }

  /** The number a string of decimal digits denotes (leading zeros allowed). */
  function DigitsValue(s: string): nat
    requires AllDigits(s)
  {
    if s == [] then 0 else DigitsValue(s[..|s| - 1]) * 10 + DigitValue(s[|s| - 1])
  }

  lemma {:induction false} DigitsValueItoa(n: nat)
    ensures DigitsValue(Itoa(n)) == n
    decreases n
  {
    if n >= 10 {
      var s := Itoa(n);
      assert s[..|s| - 1] == Itoa(n / 10);
      DigitsValueItoa(n / 10);
    }
  }

  /** Different numbers print differently. */
  lemma ItoaInjective(i: nat, j: nat)
    requires i != j
    ensures Itoa(i) != Itoa(j)
  {
    DigitsValueItoa(i);
    DigitsValueItoa(j);
  }

  /** `%02d` loses nothing: the number reads back from its padded digits. */
  lemma Pad2Value(n: nat)
    ensures DigitsValue(Pad2(n)) == n
  {
    DigitsValueItoa(n);
    if n < 10 {
      var s := Pad2(n);
      assert s[..|s| - 1] == "0";
    }
  }

  lemma Pad2Injective(i: nat, j: nat)
    ensures Pad2(i) == Pad2(j) ==> i == j
  {
    Pad2Value(i);
    Pad2Value(j);
  }

  /** `strconv.Atoi` with a 64-bit `int`: an optional sign, then one or more decimal
      digits, and a value that fits; anything else is an error. */
  function Atoi(s: string): (r: Option<int>)
    ensures r.Some? ==> Int64Min <= r.value <= Int64Max
    ensures r.Some? ==> |s| >= 1
  {
    if |s| == 0 then None
    else
      var body := if s[0] == '-' || s[0] == '+' then s[1..] else s;
      if |body| == 0 || !AllDigits(body) then None
      else
        var magnitude: int := DigitsValue(body);
        var v := if s[0] == '-' then -magnitude else magnitude;
        if Int64Min <= v <= Int64Max then Some(v) else None
  }

  /** `strconv.Atoi` reads back what `%d` wrote, for every 64-bit integer. */
  lemma AtoiFormatInt(i: int)
    requires Int64Min <= i <= Int64Max
    ensures Atoi(FormatInt(i)) == Some(i)
  {
    var s := FormatInt(i);
    if i < 0 {
      var digits := Itoa(-i);
      assert s == "-" + digits;
      assert s[0] == '-' && s[1..] == digits;
      DigitsValueItoa(-i);
    } else {
      assert s == Itoa(i);
      assert IsDigit(s[0]);
      DigitsValueItoa(i);
    }
  }

  /** `strings.LastIndex` with a one-character separator. */
  function LastIndex(s: string, c: char): (r: int)
    ensures -1 <= r < |s|
    ensures r >= 0 ==> s[r] == c && forall k :: r < k < |s| ==> s[k] != c
    ensures r == -1 ==> forall k :: 0 <= k < |s| ==> s[k] != c
  {
    if |s| == 0 then -1
    else if s[|s| - 1] == c then |s| - 1
    else LastIndex(s[..|s| - 1], c)
  }

  /** `strings.Index` with a one-character separator. */
  function IndexOf(s: string, c: char): (r: int)
    ensures -1 <= r < |s|
    ensures r >= 0 ==> s[r] == c && forall k :: 0 <= k < r ==> s[k] != c
    ensures r == -1 ==> forall k :: 0 <= k < |s| ==> s[k] != c
  {
    if |s| == 0 then -1
    else if s[0] == c then 0
    else var r := IndexOf(s[1..], c); if r < 0 then -1 else r + 1
  }

  /** `strings.Split` with a one-character separator. */
  function Split(s: string, c: char): (parts: seq<string>)
    ensures |parts| >= 1
    ensures forall k :: 0 <= k < |parts| ==> c !in parts[k]
    decreases |s|
  {
    var i := IndexOf(s, c);
    if i < 0 then [s]
    else
      var head, rest := s[..i], Split(s[i + 1..], c);
      assert c !in head by {
        forall k | 0 <= k < |head| ensures head[k] != c { assert head[k] == s[k]; }
      }
      [head] + rest
  }

  /** `strings.Join`. */
  function JoinWith(parts: seq<string>, sep: string): string
  {
    if |parts| == 0 then ""
    else if |parts| == 1 then parts[0]
    else parts[0] + sep + JoinWith(parts[1..], sep)
  }

  /** Splitting and re-joining on the same separator is the identity. */
  lemma {:induction false} JoinSplit(s: string, c: char)
    ensures JoinWith(Split(s, c), [c]) == s
    decreases |s|
  {
    var i := IndexOf(s, c);
    if i >= 0 {
      JoinSplit(s[i + 1..], c);
      assert s == s[..i] + [c] + s[i + 1..];
    }
  }

  predicate HasPrefix(s: string, p: string) { |p| <= |s| && s[..|p|] == p }

  predicate HasSuffix(s: string, x: string) { |x| <= |s| && s[|s| - |x|..] == x }

  /** `strings.TrimSuffix`. */
  function TrimSuffix(s: string, x: string): (r: string)
    ensures HasSuffix(s, x) ==> r + x == s
    ensures !HasSuffix(s, x) ==> r == s
  {
    if HasSuffix(s, x) then s[..|s| - |x|] else s
  }

  /** `strings.TrimRight`: drops trailing characters that occur anywhere in `cutset`. */
  function TrimRightSet(s: string, cutset: string): (r: string)
    ensures HasPrefix(s, r)
    ensures |r| > 0 ==> r[|r| - 1] !in cutset
    ensures forall k :: |r| <= k < |s| ==> s[k] in cutset
  {
    if |s| > 0 && s[|s| - 1] in cutset then TrimRightSet(s[..|s| - 1], cutset) else s
  }

  /** `strings.Replace(s, old, "", 1)` with a one-character `old`: removes its first occurrence. */
  function RemoveFirst(s: string, c: char): (r: string)
    ensures IndexOf(s, c) < 0 ==> r == s
    ensures IndexOf(s, c) >= 0 ==> r == s[..IndexOf(s, c)] + s[IndexOf(s, c) + 1..]
  {
    var i := IndexOf(s, c);
    if i < 0 then s else s[..i] + s[i + 1..]
  }

  function LowerChar(c: char): char { if 'A' <= c <= 'Z' then (c as int + 32) as char else c }

  function UpperChar(c: char): char { if 'a' <= c <= 'z' then (c as int - 32) as char else c }

  /** `strings.ToLower`, on the ASCII letters. */
  function ToLower(s: string): (r: string)
    ensures |r| == |s| && forall k :: 0 <= k < |s| ==> r[k] == LowerChar(s[k])
  {
    if s == [] then [] else [LowerChar(s[0])] + ToLower(s[1..])
  }

  /** `strings.ToUpper`, on the ASCII letters. */
  function ToUpper(s: string): (r: string)
    ensures |r| == |s| && forall k :: 0 <= k < |s| ==> r[k] == UpperChar(s[k])
  {
    if s == [] then [] else [UpperChar(s[0])] + ToUpper(s[1..])
  }

  /** `unicode.IsSpace`: the Latin-1 spaces and the other White_Space code points. */
  predicate IsSpace(c: char)
  {
    c == '\t' || c == '\n' || c == '\U{000B}' || c == '\U{000C}' || c == '\r' || c == ' '
    || c == '\U{0085}' || c == '\U{00A0}' || c == '\U{1680}'
    || ('\U{2000}' <= c <= '\U{200A}') || c == '\U{2028}' || c == '\U{2029}'
    || c == '\U{202F}' || c == '\U{205F}' || c == '\U{3000}'
  }

  function TrimLeftSpace(s: string): (r: string)
    ensures |r| <= |s| && r == s[|s| - |r|..]
    ensures |r| > 0 ==> !IsSpace(r[0])
  {
    if |s| > 0 && IsSpace(s[0]) then TrimLeftSpace(s[1..]) else s
  }

  function TrimRightSpace(s: string): (r: string)
    ensures HasPrefix(s, r)
    ensures forall k :: |r| <= k < |s| ==> IsSpace(s[k])
    ensures |r| > 0 ==> !IsSpace(r[|r| - 1])
  {
    if |s| > 0 && IsSpace(s[|s| - 1]) then TrimRightSpace(s[..|s| - 1]) else s
  }

  /** `strings.TrimSpace`. */
  function TrimSpace(s: string): (r: string)
    ensures |r| <= |s|
    ensures |r| > 0 ==> !IsSpace(r[0]) && !IsSpace(r[|r| - 1])
  {
    TrimRightSpace(TrimLeftSpace(s))
  }

  /** A string is blank after `strings.TrimSpace` exactly when every character is a space. */
  lemma {:induction false} TrimSpaceBlank(s: string)
    ensures TrimSpace(s) == "" <==> forall k :: 0 <= k < |s| ==> IsSpace(s[k])
  {
    TrimLeftBlank(s);
  }

  lemma {:induction false} TrimLeftBlank(s: string)
    ensures (TrimLeftSpace(s) == "" <==> forall k :: 0 <= k < |s| ==> IsSpace(s[k]))
    ensures TrimRightSpace(TrimLeftSpace(s)) == "" <==> TrimLeftSpace(s) == ""
    decreases |s|
  {
    if |s| > 0 && IsSpace(s[0]) {
      TrimLeftBlank(s[1..]);
      assert forall k :: 1 <= k < |s| ==> s[k] == s[1..][k - 1];
    }
  }
}
