/** Order keys as the text that is stored: digits are characters and keys compare as strings. */
module OrderKeyText {
  import opened Wrappers
  import opened Lexicographic
  import opened OrderIntegers
  import opened OrderKeys

  /** The d-th character of "0-9A-Za-z". */
  function DigitChar(d: Digit): char {
    if d < 10 then (d + 48) as char
    else if d < 36 then (d + 55) as char
    else (d + 61) as char
  }

  /** Position of a character in the alphabet, if it has one. */
  function CharDigit(c: char): Option<Digit> {
    var code := c as int;
    if '0' <= c <= '9' then Some(code - 48)
    else if 'A' <= c <= 'Z' then Some(code - 55)
    else if 'a' <= c <= 'z' then Some(code - 61)
    else None
  }

  function Codes(text: string): seq<int> {
    seq(|text|, i requires 0 <= i < |text| => text[i] as int)
  }

  function Text(k: Digits): (text: string)
    ensures |text| == |k|
  {
    if k == [] then "" else [DigitChar(k[0])] + Text(k[1..])
  }

  function Parse(text: string): Option<Digits> {
    if text == "" then Some([])
    else
      var d, rest := CharDigit(text[0]), Parse(text[1..]);
      if d.Some? && rest.Some? then Some([d.value] + rest.value) else None
  }

  /** The stored form of a key: the letters and digits test, then the test on the key itself. */
  predicate IsOrderKeyText(text: string) {
    Parse(text).Some? && IsOrderKey(Parse(text).value)
  }

  /** Texts over the alphabet and digit strings are in one-to-one correspondence. */
  lemma {:induction false} TextRoundTrip(k: Digits, text: string)
    ensures Parse(Text(k)) == Some(k)
    ensures Parse(text) == Some(k) <==> text == Text(k)
    decreases |k|
  {
    if k == [] {
    } else {
      assert Text(k)[1..] == Text(k[1..]) && k == [k[0]] + k[1..];
      assert CharDigit(DigitChar(k[0])) == Some(k[0]);
      TextRoundTrip(k[1..], if text == "" then "" else text[1..]);
      assert text != "" ==> text == [text[0]] + text[1..];
      if text == Text(k) { assert text[1..] == Text(k[1..]); }
    }
  }

  /** What is stored as a key is the text of exactly one key. */
  lemma KeyTexts(text: string)
    ensures IsOrderKeyText(text) <==> exists k :: IsOrderKey(k) && Text(k) == text
  {
    if IsOrderKeyText(text) { TextRoundTrip(Parse(text).value, text); }
    if k :| IsOrderKey(k) && Text(k) == text { TextRoundTrip(k, text); }
  }

  /** The alphabet is in code order, so a byte-wise collation of the texts sorts the keys. */
  lemma {:induction false} TextOrder(a: Digits, b: Digits)
    ensures Less(Codes(Text(a)), Codes(Text(b))) <==> Less(a, b)
    decreases |a|
  {
    if a == [] || b == [] {
    } else {
      TextOrder(a[1..], b[1..]);
      assert Codes(Text(a))[1..] == Codes(Text(a[1..])) && Codes(Text(b))[1..] == Codes(Text(b[1..]));
    }
  }
}
