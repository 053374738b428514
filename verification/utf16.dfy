/** JavaScript string lengths. A JavaScript string is a sequence of UTF-16 code units, so a character
    above U+FFFF (stored as a surrogate pair) counts twice. Joi's `min` and `length` rules and
    Mongoose's `minlength` and `maxlength` validators all read this length. */
module Utf16 {
  /** A character of the Basic Multilingual Plane: one UTF-16 code unit. */
  predicate Bmp(c: char)
  {
    c as int < 0x1_0000
  }

  /** `s.length` in JavaScript. */
  function Length(s: string): (n: nat)
    ensures |s| <= n <= 2 * |s|
    ensures n == |s| <==> forall i :: 0 <= i < |s| ==> Bmp(s[i])
    decreases |s|
  {
    if |s| == 0 then 0
    else
      var rest := Length(s[1..]);
      assert forall i :: 1 <= i < |s| ==> s[i] == s[1..][i - 1];
      (if Bmp(s[0]) then 1 else 2) + rest
  }

  /** Two emoji are two characters but four code units: a two-emoji name meets a minimum length of 3. */
  lemma AstralCountsTwice()
    ensures |"\U{1F600}\U{1F600}"| == 2
    ensures Length("\U{1F600}\U{1F600}") == 4
  {
    assert !Bmp("\U{1F600}\U{1F600}"[0]);
    assert "\U{1F600}\U{1F600}"[1..] == "\U{1F600}";
    assert "\U{1F600}"[1..] == "";
  }
}
