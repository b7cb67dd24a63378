/** Well-formed UTF-8, the check behind `String::from_utf8` and
    `CString::into_string`. A Rust `String` is modelled as its UTF-8 bytes. */
module Utf8 {
  import opened OrtTypes

  predicate IsContinuation(b: byte) {
    0x80 <= b <= 0xBF
  }

  /** Length of the well-formed byte sequence that starts `s` (table 3-7 of the
      Unicode Standard, chapter 3), or 0 when `s` does not start with one. */
  function LeadingCharWidth(s: seq<byte>): (w: nat)
    requires |s| > 0
    ensures w <= 4 && w <= |s|
    ensures w > 0 ==> forall i :: 1 <= i < w ==> IsContinuation(s[i])
  {
    var b := s[0];
    if b <= 0x7F then 1
    else if 0xC2 <= b <= 0xDF then
      if |s| >= 2 && IsContinuation(s[1]) then 2 else 0
    else if b == 0xE0 then
      if |s| >= 3 && 0xA0 <= s[1] <= 0xBF && IsContinuation(s[2]) then 3 else 0
    else if 0xE1 <= b <= 0xEC || 0xEE <= b <= 0xEF then
      if |s| >= 3 && IsContinuation(s[1]) && IsContinuation(s[2]) then 3 else 0
    else if b == 0xED then
      if |s| >= 3 && 0x80 <= s[1] <= 0x9F && IsContinuation(s[2]) then 3 else 0
    else if b == 0xF0 then
      if |s| >= 4 && 0x90 <= s[1] <= 0xBF && IsContinuation(s[2]) && IsContinuation(s[3]) then 4 else 0
    else if 0xF1 <= b <= 0xF3 then
      if |s| >= 4 && IsContinuation(s[1]) && IsContinuation(s[2]) && IsContinuation(s[3]) then 4 else 0
    else if b == 0xF4 then
      if |s| >= 4 && 0x80 <= s[1] <= 0x8F && IsContinuation(s[2]) && IsContinuation(s[3]) then 4 else 0
    else 0
  }

  /** `s` is a sequence of well-formed UTF-8 characters. */
  predicate ValidUtf8(s: seq<byte>)
    decreases |s|
  {
    s == [] || (LeadingCharWidth(s) > 0 && ValidUtf8(s[LeadingCharWidth(s)..]))
  }

  /** Bytes below 0x80 are valid UTF-8 on their own. */
  lemma {:induction false} AsciiIsValid(s: seq<byte>)
    requires forall i :: 0 <= i < |s| ==> s[i] < 0x80
    ensures ValidUtf8(s)
    decreases |s|
  {
    if s != [] {
      AsciiIsValid(s[1..]);
    }
  }

  /** The UTF-8 bytes of a text of printable ASCII characters: one byte per
      character, its code point, so never a NUL. */
  function Ascii(text: string): (b: seq<byte>)
    requires forall i :: 0 <= i < |text| ==> ' ' <= text[i] < 0x7F as char
    ensures |b| == |text| && forall i :: 0 <= i < |text| ==> b[i] == text[i] as int
    ensures 0 !in b && ValidUtf8(b)
  {
    var b := seq(|text|, i requires 0 <= i < |text| => text[i] as int as byte);
    AsciiIsValid(b);
    b
  }

  /** Appending bytes does not change the character a valid prefix starts with. */
  lemma LeadingCharWidthOfExtension(a: seq<byte>, b: seq<byte>)
    requires |a| > 0 && LeadingCharWidth(a) > 0
    ensures LeadingCharWidth(a + b) == LeadingCharWidth(a)
  {
    var w := LeadingCharWidth(a);
    assert forall i :: 0 <= i < w ==> (a + b)[i] == a[i];
  }

  /** A well-formed first character followed by valid UTF-8 is valid UTF-8. */
  lemma ValidUtf8Cons(s: seq<byte>, w: nat, tail: seq<byte>)
    requires |s| > 0 && LeadingCharWidth(s) == w && w > 0
    requires s[w..] == tail && ValidUtf8(tail)
    ensures ValidUtf8(s)
  {
  }

  /** Valid UTF-8 is closed under concatenation. */
  lemma {:induction false} ConcatIsValid(a: seq<byte>, b: seq<byte>)
    requires ValidUtf8(a) && ValidUtf8(b)
    ensures ValidUtf8(a + b)
    decreases |a|
  {
    if a == [] {
      assert a + b == b;
    } else {
      var w := LeadingCharWidth(a);
      ConcatIsValid(a[w..], b);
      ConcatAfterLeadingChar(a, b, w);
    }
  }

  /** The first character of `a` followed by valid UTF-8 `a[w..] + b` makes
      `a + b` valid UTF-8. */
  lemma ConcatAfterLeadingChar(a: seq<byte>, b: seq<byte>, w: nat)
    requires |a| > 0 && LeadingCharWidth(a) == w && w > 0
    requires ValidUtf8(a[w..] + b)
    ensures ValidUtf8(a + b)
  {
    LeadingCharWidthOfExtension(a, b);
    assert (a + b)[w..] == a[w..] + b;
    ValidUtf8Cons(a + b, w, a[w..] + b);
  }
}
