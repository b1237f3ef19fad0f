/** Package `dotext`: the byte-order-mark test, the unit choice of human-readable sizes, and
    the extraction of a catalogue number ("番号") from free text. */
module DoText {
  import opened Strs
  import opened Streams
  import opened Wrappers

  /** The UTF-8 encoding of U+FEFF. */
  const Bom: Bytes := [0xEF, 0xBB, 0xBF]

  /** `HasUTF8BOM`: whether the data begins with the UTF-8 byte-order mark. */
  function HasUtf8Bom(bs: Bytes): (r: bool)
    ensures r <==> HasBytePrefix(bs, Bom)
  {
    |bs| >= 3 && bs[0] == 239 && bs[1] == 187 && bs[2] == 191
  }

  predicate HasBytePrefix(bs: Bytes, p: Bytes)
  {
    |p| <= |bs| && bs[..|p|] == p
  }

  /** Data that starts with the mark is reported, whatever follows; data without it is not. */
  lemma BomPrefix(rest: Bytes)
    ensures HasUtf8Bom(Bom + rest)
    ensures HasUtf8Bom(rest) ==> |rest| >= 3
  {
    assert (Bom + rest)[..3] == Bom;
  }

  // ---- BytesHumanReadable ----

  /** 1024 to the power `k`. */
  function Pow1024(k: nat): (r: nat)
    ensures r >= 1
  {
    if k == 0 then 1 else 1024 * Pow1024(k - 1)
  }

  lemma {:induction false} PowMonotone(a: nat, b: nat)
    requires a <= b
    ensures Pow1024(a) <= Pow1024(b)
    decreases b
  {
    if a < b {
      PowMonotone(a, b - 1);
    }
  }

  lemma PowSeven()
    ensures Pow1024(7) == 0x40_0000_0000_0000_0000
  {
    assert Pow1024(2) == 0x10_0000;
    assert Pow1024(4) == 0x100_0000_0000;
    assert Pow1024(6) == 0x1000_0000_0000_0000;
  }

  /** The unit index of a size of at least 1024 bytes: 0 for K, 1 for M, and so on; the size
      lies between 1024 to the power index + 1 and 1024 times that. */
  function UnitIndex(b: nat): (e: nat)
    requires b >= 1024
    ensures Pow1024(e + 1) <= b < Pow1024(e + 2)
  {
    if b < 1024 * 1024 then 0
    else
      var q := b / 1024;
      var e := UnitIndex(q);
      assert Pow1024(e + 2) == 1024 * Pow1024(e + 1);
      assert Pow1024(e + 3) == 1024 * Pow1024(e + 2);
      e + 1
  }

  /** The bracket fixes the index. */
  lemma UnitUnique(b: nat, e: nat)
    requires Pow1024(e + 1) <= b < Pow1024(e + 2)
    ensures UnitIndex(b) == e
  {
    var u := UnitIndex(b);
    if u < e {
      PowMonotone(u + 2, e + 1);
    } else if u > e {
      PowMonotone(e + 2, u + 1);
    }
  }

  /** A power of 1024 that a 64-bit size reaches is at most the sixth. */
  lemma PowBelow(k: nat, b: nat)
    requires Pow1024(k) <= b < 0x1_0000_0000_0000_0000
    ensures k <= 6
  {
    PowGrows(k);
  }

  lemma {:induction false} PowGrows(k: nat)
    ensures k >= 7 ==> Pow1024(k) >= 0x40_0000_0000_0000_0000
  {
    if k == 7 {
      PowSeven();
    } else if k > 7 {
      PowGrows(k - 1);
    }
  }

  /** A 64-bit size never needs a unit beyond 'E', so the index is within "KMGTPE". */
  lemma UnitIndexBound(b: nat)
    requires 1024 <= b < 0x1_0000_0000_0000_0000
    ensures UnitIndex(b) <= 5
  {
    PowBelow(UnitIndex(b) + 1, b);
  }

  /** 123456789 bytes are shown in MB (as "117.74 MB"). */
  lemma MegabyteExample()
    ensures UnitIndex(123456789) == 1 && "KMGTPE"[1] == 'M'
  {
    assert Pow1024(2) == 1048576 && Pow1024(3) == 1073741824;
    UnitUnique(123456789, 1);
  }

  /** What `BytesHumanReadable` prints: the count and " B" below 1024, and otherwise the
      size divided by `div`, with two decimals, followed by " ", the unit letter and "B". */
  datatype Readable = Plain(text: string) | Scaled(div: nat, unit: char)

  lemma StepBracket(bytes: nat, n: nat, div: nat)
    requires div > 0 && n >= 1024 && n * div <= bytes < (n + 1) * div
    ensures (n / 1024) * (div * 1024) <= bytes < (n / 1024 + 1) * (div * 1024)
  {
    var q, r := n / 1024, n % 1024;
    assert n == 1024 * q + r && 0 <= r < 1024;
    assert (n / 1024) * (div * 1024) == (1024 * q) * div;
    assert (1024 * q) * div <= (1024 * q) * div + r * div == n * div;
    assert (n / 1024 + 1) * (div * 1024) == (1024 * q) * div + 1024 * div;
    assert (n + 1) * div == (1024 * q) * div + (r + 1) * div;
    assert (r + 1) * div <= 1024 * div;
  }

  lemma EndBracket(bytes: nat, n: nat, div: nat)
    requires div > 0 && 1 <= n < 1024 && n * div <= bytes < (n + 1) * div
    ensures div <= bytes < 1024 * div
  {
    assert div <= n * div;
    assert (n + 1) * div <= 1024 * div;
  }

  /** `BytesHumanReadable` on a `uint64`: the loop divides by 1024 until the quotient is
      below 1024, and the unit is the one whose power of 1024 brackets the size. */
  method BytesHumanReadable(bytes: nat) returns (r: Readable)
    requires bytes < 0x1_0000_0000_0000_0000
    ensures bytes < 1024 ==> r == Plain(Itoa(bytes) + " B")
    ensures bytes >= 1024 ==>
      UnitIndex(bytes) <= 5 && r == Scaled(Pow1024(UnitIndex(bytes) + 1), "KMGTPE"[UnitIndex(bytes)])
  {
    if bytes < 1024 {
      return Plain(Itoa(bytes) + " B");
    }
    var div, exp := 1024, 0;
    var n := bytes / 1024;
    while n >= 1024
      invariant div == Pow1024(exp + 1)
      invariant 1 <= n && n * div <= bytes < (n + 1) * div
      invariant exp <= 5
    {
      StepBracket(bytes, n, div);
      assert Pow1024(exp + 2) <= bytes by {
        assert Pow1024(exp + 2) == div * 1024;
        assert n * div >= 1024 * div;
      }
      PowBelow(exp + 2, bytes);
      div := div * 1024;
      exp := exp + 1;
      n := n / 1024;
    }
    EndBracket(bytes, n, div);
    UnitUnique(bytes, exp);
    return Scaled(div, "KMGTPE"[exp]);
  }

  // ---- ResolveFanhao ----

  predicate IsLetter(c: char)
  {
    'a' <= c <= 'z' || 'A' <= c <= 'Z'
  }

  /** `[-_\s]`, where `\s` is RE2's `[\t\n\f\r ]`. */
  predicate IsSep(c: char)
  {
    c == '-' || c == '_' || c == '\t' || c == '\n' || c == '\U{000C}' || c == '\r' || c == ' '
  }

  /** The end of the run of letters starting at `i`. */
  function LetterEnd(s: string, i: nat): (j: nat)
    requires i <= |s|
    ensures i <= j <= |s|
    ensures forall k :: i <= k < j ==> IsLetter(s[k])
    ensures j == |s| || !IsLetter(s[j])
    decreases |s| - i
  {
    if i < |s| && IsLetter(s[i]) then LetterEnd(s, i + 1) else i
  }

  /** The end of the run of digits starting at `i`. */
  function DigitEnd(s: string, i: nat): (j: nat)
    requires i <= |s|
    ensures i <= j <= |s|
    ensures forall k :: i <= k < j ==> IsDigit(s[k])
    ensures j == |s| || !IsDigit(s[j])
    decreases |s| - i
  {
    if i < |s| && IsDigit(s[i]) then DigitEnd(s, i + 1) else i
  }

  /** A match of `([a-zA-Z]+)([-_\s]?)([0-9]+)` starting at `i`, as the letters and the
      digits. The letters are the whole run from `i` (the classes are disjoint, so a shorter
      run never lets the rest match), then an optional separator, then all the digits. */
  function MatchAt(s: string, i: nat): (r: Option<(string, string)>)
    requires i <= |s|
    ensures r.Some? ==>
      && r.value.0 != "" && r.value.1 != ""
      && (forall k :: 0 <= k < |r.value.0| ==> IsLetter(r.value.0[k]))
      && AllDigits(r.value.1)
  {
    if i == |s| || !IsLetter(s[i]) then None
    else
      var j := LetterEnd(s, i);
      if j < |s| && IsDigit(s[j]) then Some((s[i..j], s[j..DigitEnd(s, j)]))
      else if j + 1 < |s| && IsSep(s[j]) && IsDigit(s[j + 1]) then Some((s[i..j], s[j + 1..DigitEnd(s, j + 1)]))
      else None
  }

  /** The leftmost position from `i` on where a match starts, or -1. */
  function Leftmost(s: string, i: nat): (k: int)
    requires i <= |s|
    ensures k == -1 || i <= k < |s|
    ensures k >= 0 ==> MatchAt(s, k).Some?
    ensures forall p :: i <= p < |s| && (k == -1 || p < k) ==> MatchAt(s, p).None?
    decreases |s| - i
  {
    if i == |s| then -1
    else if MatchAt(s, i).Some? then i
    else Leftmost(s, i + 1)
  }

  /** The digits widened to three by leading zeros; longer runs are kept. */
  function Pad3(d: string): (r: string)
    requires d != ""
    ensures |d| >= 3 ==> r == d
    ensures |d| < 3 ==> |r| == 3 && r[3 - |d|..] == d && forall k :: 0 <= k < 3 - |d| ==> r[k] == '0'
  {
    if |d| == 1 then assert ("00" + d)[2..] == d; "00" + d
    else if |d| == 2 then assert ("0" + d)[1..] == d; "0" + d
    else d
  }

  /** Zero-padding keeps the number's value. */
  lemma Pad3Value(d: string)
    requires d != [] && AllDigits(d)
    ensures AllDigits(Pad3(d)) && DigitsValue(Pad3(d)) == DigitsValue(d)
  {
    if |d| == 1 {
      assert "00" + d == ['0'] + (['0'] + d);
      assert DigitsValue(['0'] + d) == DigitsValue(d) by { LeadingZero(d); }
      LeadingZero(['0'] + d);
    } else if |d| == 2 {
      LeadingZero(d);
    }
  }

  lemma {:induction false} LeadingZero(d: string)
    requires AllDigits(d)
    ensures DigitsValue(['0'] + d) == DigitsValue(d)
    decreases |d|
  {
    if d != [] {
      var init := d[..|d| - 1];
      assert (['0'] + d)[..|d|] == ['0'] + init;
      LeadingZero(init);
    }
  }

  /** `ResolveFanhao`: "" when the text holds no match; otherwise the letters of the
      leftmost match, "-", and its digits padded to three. */
  function ResolveFanhao(text: string): (r: string)
    ensures r == "" <==> forall p :: 0 <= p < |text| ==> MatchAt(text, p).None?
    ensures r != "" ==> var m := MatchAt(text, Leftmost(text, 0)).value;
      r == m.0 + "-" + Pad3(m.1)
  {
    var k := Leftmost(text, 0);
    if k < 0 then ""
    else
      var m := MatchAt(text, k).value;
      m.0 + "-" + Pad3(m.1)
  }

  /** The result is letters, one '-', and at least three digits that read as the number of
      the match. */
  lemma ResolveFanhaoShape(text: string)
    requires ResolveFanhao(text) != ""
    ensures var m := MatchAt(text, Leftmost(text, 0)).value;
      var r := ResolveFanhao(text);
      && r == m.0 + "-" + Pad3(m.1)
      && '-' !in m.0
      && |Pad3(m.1)| >= 3 && AllDigits(Pad3(m.1))
      && DigitsValue(Pad3(m.1)) == DigitsValue(m.1)
  {
    var m := MatchAt(text, Leftmost(text, 0)).value;
    Pad3Value(m.1);
    assert forall k :: 0 <= k < |m.0| ==> m.0[k] != '-';
  }

  /** The match in "see abp_12." starts at the "abp". */
  lemma MatchExample()
    ensures MatchAt("see abp_12.", 4) == Some(("abp", "12"))
  {
    var s := "see abp_12.";
    assert LetterEnd(s, 4) == 7 by {
      assert IsLetter(s[4]) && IsLetter(s[5]) && IsLetter(s[6]) && !IsLetter(s[7]);
      assert LetterEnd(s, 7) == 7;
    }
    assert !IsDigit(s[7]) && IsSep(s[7]) && IsDigit(s[8]);
    assert DigitEnd(s, 8) == 10 by {
      assert IsDigit(s[8]) && IsDigit(s[9]) && !IsDigit(s[10]);
      assert DigitEnd(s, 10) == 10;
    }
    assert s[4..7] == "abp" && s[8..10] == "12";
  }

  /** The word "see" before it is followed by a space and a letter, so no match starts
      there. */
  lemma NoMatchBefore()
    ensures forall p :: 0 <= p < 4 ==> MatchAt("see abp_12.", p).None?
  {
    var s := "see abp_12.";
    assert LetterEnd(s, 3) == 3;
    assert LetterEnd(s, 2) == 3;
    assert LetterEnd(s, 1) == 3;
    assert LetterEnd(s, 0) == 3;
    assert !IsDigit(s[3]) && !IsDigit(s[4]);
  }

  /** In "see abp_12." the leftmost match is the one at "abp". */
  lemma LeftmostExample()
    ensures Leftmost("see abp_12.", 0) == 4
  {
    MatchExample();
    NoMatchBefore();
  }

  /** "abp_12" after a word resolves to "abp-012". */
  lemma ResolveFanhaoPads()
    ensures ResolveFanhao("see abp_12.") == "abp-012"
  {
    var s := "see abp_12.";
    LeftmostExample();
    MatchExample();
    var r := ResolveFanhao(s);
    assert r != "" by {
      assert MatchAt(s, 4).Some?;
    }
    var pad := Pad3("12");
    assert pad == "012" by {
      assert pad == "0" + "12";
    }
    assert r == "abp" + "-" + pad;
    assert "abp" + "-" + "012" == "abp-012";
  }

  /** Without a digit there is nothing to resolve. */
  lemma NoDigitNoFanhao(text: string)
    requires forall k :: 0 <= k < |text| ==> !IsDigit(text[k])
    ensures ResolveFanhao(text) == ""
  {
    forall p | 0 <= p < |text|
      ensures MatchAt(text, p).None?
    {
    }
  }
}
