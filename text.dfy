/**
 * Bytes and the two text checks the capture relies on: `String::from_utf8`
 * (well-formed UTF-8, as in table 3-7 of the Unicode Standard, chapter 3)
 * and the `http` crate's `HeaderValue::to_str` (visible ASCII or TAB).
 */
module Text {
  import opened Wrappers

  newtype byte = x: int | 0 <= x < 256

  /** A UTF-8 continuation byte, 80..BF. */
  predicate IsContinuation(b: byte) {
    0x80 <= b <= 0xBF
  }

  /**
   * Length of the well-formed UTF-8 sequence at the start of `s`, or 0 when
   * `s` does not start with one.
   */
  function LeadingSequenceLength(s: seq<byte>): (n: nat)
    ensures n <= |s| && n <= 4
  {
    if |s| == 0 then 0
    else if s[0] <= 0x7F then 1
    else if 0xC2 <= s[0] <= 0xDF then
      (if |s| >= 2 && IsContinuation(s[1]) then 2 else 0)
    else if s[0] == 0xE0 then
      (if |s| >= 3 && 0xA0 <= s[1] <= 0xBF && IsContinuation(s[2]) then 3 else 0)
    else if 0xE1 <= s[0] <= 0xEC || 0xEE <= s[0] <= 0xEF then
      (if |s| >= 3 && IsContinuation(s[1]) && IsContinuation(s[2]) then 3 else 0)
    else if s[0] == 0xED then
      (if |s| >= 3 && 0x80 <= s[1] <= 0x9F && IsContinuation(s[2]) then 3 else 0)
    else if s[0] == 0xF0 then
      (if |s| >= 4 && 0x90 <= s[1] <= 0xBF && IsContinuation(s[2]) && IsContinuation(s[3]) then 4 else 0)
    else if 0xF1 <= s[0] <= 0xF3 then
      (if |s| >= 4 && IsContinuation(s[1]) && IsContinuation(s[2]) && IsContinuation(s[3]) then 4 else 0)
    else if s[0] == 0xF4 then
      (if |s| >= 4 && 0x80 <= s[1] <= 0x8F && IsContinuation(s[2]) && IsContinuation(s[3]) then 4 else 0)
    else 0
  }

  /**
   * `s` is a concatenation of well-formed UTF-8 sequences. The bytes C0, C1
   * and F5..FF never occur in one.
   */
  predicate ValidUtf8(s: seq<byte>)
    ensures ValidUtf8(s) ==> forall i :: 0 <= i < |s| ==> s[i] != 0xC0 && s[i] != 0xC1 && s[i] < 0xF5
    decreases |s|
  {
    if s == [] then true
    else
      var n := LeadingSequenceLength(s);
      n > 0 && ValidUtf8(s[n..])
  }

  predicate IsAscii(s: seq<byte>) {
    forall i :: 0 <= i < |s| ==> s[i] < 0x80
  }

  /** Bytes below 0x80 are each a one-byte UTF-8 sequence. */
  lemma {:induction false} AsciiIsUtf8(s: seq<byte>)
    requires IsAscii(s)
    ensures ValidUtf8(s)
    decreases |s|
  {
    if s != [] {
      assert LeadingSequenceLength(s) == 1;
      assert IsAscii(s[1..]) by {
        forall i | 0 <= i < |s[1..]| ensures s[1..][i] < 0x80 {
          assert s[1..][i] == s[i + 1];
        }
      }
      AsciiIsUtf8(s[1..]);
    }
  }

  /** The `http` crate's rule for a header value that `to_str` accepts. */
  predicate IsVisibleAscii(b: byte) {
    (32 <= b < 127) || b == 9
  }

  predicate IsHeaderText(v: seq<byte>) {
    forall i :: 0 <= i < |v| ==> IsVisibleAscii(v[i])
  }

  /** The characters of an ASCII byte sequence, one per byte. */
  function AsciiString(v: seq<byte>): (s: string)
    requires IsAscii(v)
  {
    seq(|v|, i requires 0 <= i < |v| => v[i] as int as char)
  }

  /**
   * `HeaderValue::to_str`: the value as text when every byte is visible
   * ASCII, otherwise an error.
   */
  function HeaderToStr(v: seq<byte>): (r: Option<string>)
    ensures r.Some? <==> IsHeaderText(v)
    ensures r.Some? ==> |r.value| == |v|
    ensures r.Some? ==> forall i :: 0 <= i < |v| ==> r.value[i] as int == v[i] as int
  {
    if IsHeaderText(v) then Some(AsciiString(v)) else None
  }
}
