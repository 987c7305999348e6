/** The WhatsApp click-to-chat link builder (src/utils/whatsapp.ts). */
module Whatsapp {
  import opened JsBuiltins
  import opened UriEncoding

  /** The characters `[0-9+]` that the phone filter keeps. */
  predicate IsDialChar(c: char) {
    ('0' <= c <= '9') || c == '+'
  }

  predicate AllDial(s: string) {
    forall i | 0 <= i < |s| :: IsDialChar(s[i])
  }

  /** `s.replace(/[^0-9+]/g, "")`. */
  function KeepDialChars(s: string): (r: string)
    ensures AllDial(r) && |r| <= |s|
  {
    if s == [] then []
    else (if IsDialChar(s[0]) then [s[0]] else []) + KeepDialChars(s[1..])
  }

  /** The filter works character by character: with `KeepDialCharsOfDial` this pins it
      down as "keep exactly the dial characters, in their order". */
  lemma {:induction false} KeepDialCharsAppend(a: string, b: string)
    ensures KeepDialChars(a + b) == KeepDialChars(a) + KeepDialChars(b)
  {
    if a == [] {
      assert a + b == b;
    } else {
      assert (a + b)[0] == a[0];
      assert (a + b)[1..] == a[1..] + b;
      KeepDialCharsAppend(a[1..], b);
    }
  }

  /** Dial characters are kept and nothing else is: a string of dial characters is left
      as it is, and any other character disappears. */
  lemma {:induction false} KeepDialCharsOfDial(s: string)
    requires AllDial(s)
    ensures KeepDialChars(s) == s
  {
    if s != [] {
      KeepDialCharsOfDial(s[1..]);
    }
  }

  lemma KeepDialCharsDrops(c: char)
    ensures !IsDialChar(c) <==> KeepDialChars([c]) == []
  {
  }

  /** Filtering twice is filtering once. */
  lemma KeepDialCharsIdempotent(s: string)
    ensures KeepDialChars(KeepDialChars(s)) == KeepDialChars(s)
  {
    KeepDialCharsOfDial(KeepDialChars(s));
  }

  /** `.replace(/^\+/, "")`: one leading plus goes. */
  function StripLeadingPlus(s: string): (r: string)
    ensures |s| > 0 && s[0] == '+' ==> r == s[1..]
    ensures !(|s| > 0 && s[0] == '+') ==> r == s
  {
    if |s| > 0 && s[0] == '+' then s[1..] else s
  }

  /** `normalizePhone(input)`, with `null`/`undefined` input as `None`. The result is made
      of dial characters; it starts with a plus only when the kept characters started
      with two. */
  function NormalizePhone(input: Option<string>): (r: string)
    ensures AllDial(r)
    ensures var kept := KeepDialChars(OrEmpty(input));
      (|kept| > 0 && kept[0] == '+' ==> r == kept[1..]) && (!(|kept| > 0 && kept[0] == '+') ==> r == kept)
    ensures |r| > 0 && r[0] == '+' ==> var kept := KeepDialChars(OrEmpty(input)); |kept| >= 2 && kept[..2] == "++"
  {
    StripLeadingPlus(KeepDialChars(OrEmpty(input)))
  }

  /** The digits of a string, in order. */
  function Digits(s: string): (r: string)
  {
    if s == [] then []
    else (if '0' <= s[0] <= '9' then [s[0]] else []) + Digits(s[1..])
  }

  lemma {:induction false} DigitsOfKept(s: string)
    ensures Digits(KeepDialChars(s)) == Digits(s)
  {
    if s != [] {
      DigitsOfKept(s[1..]);
      DigitsAppend(if IsDialChar(s[0]) then [s[0]] else [], KeepDialChars(s[1..]));
    }
  }

  lemma {:induction false} DigitsAppend(a: string, b: string)
    ensures Digits(a + b) == Digits(a) + Digits(b)
  {
    if a == [] {
      assert a + b == b;
    } else {
      assert (a + b)[0] == a[0];
      assert (a + b)[1..] == a[1..] + b;
      DigitsAppend(a[1..], b);
    }
  }

  /** Normalising never loses or reorders a digit of the input. */
  lemma NormalizeKeepsDigits(input: Option<string>)
    ensures Digits(NormalizePhone(input)) == Digits(OrEmpty(input))
  {
    var kept := KeepDialChars(OrEmpty(input));
    DigitsOfKept(OrEmpty(input));
    if |kept| > 0 && kept[0] == '+' {
      assert kept == [kept[0]] + kept[1..];
      DigitsAppend([kept[0]], kept[1..]);
    }
  }

  /** The result is digits only exactly when the kept characters have no plus beyond a
      single leading one. */
  lemma NormalizeDigitsOnly(input: Option<string>)
    ensures var r := NormalizePhone(input); var kept := KeepDialChars(OrEmpty(input));
      (forall i | 0 <= i < |r| :: r[i] != '+') <==> (forall i | 1 <= i < |kept| :: kept[i] != '+')
  {
    var r := NormalizePhone(input);
    var kept := KeepDialChars(OrEmpty(input));
    if |kept| > 0 && kept[0] == '+' {
      assert forall i | 1 <= i < |kept| :: kept[i] == r[i - 1];
    } else {
      assert r == kept;
    }
  }

  /** The quirks kept from the code: a second leading plus and interior pluses survive,
      a leading "00" is not rewritten, and a missing number gives "". */
  lemma NormalizeQuirks()
    ensures NormalizePhone(Some("++1")) == "+1"
    ensures NormalizePhone(Some("1+2")) == "1+2"
    ensures NormalizePhone(Some("0033")) == "0033"
    ensures NormalizePhone(None) == "" && NormalizePhone(Some("")) == ""
  {
    KeepDialCharsOfDial("++1");
    KeepDialCharsOfDial("1+2");
    KeepDialCharsOfDial("0033");
  }

  const WaPrefix: string := "https://wa.me/"
  const TextQuery: string := "?text="

  /** `buildWhatsappUrl(phone, message)`. */
  function BuildWhatsappUrl(phone: Option<string>, message: Option<string>): (url: string)
    ensures |url| >= |WaPrefix| + |TextQuery| && url[..|WaPrefix|] == WaPrefix
    ensures message.None? || message == Some("") ==> url[|url| - |TextQuery|..] == TextQuery
  {
    WaPrefix + NormalizePhone(phone) + TextQuery + EncodeURIComponent(OrEmpty(message))
  }

  /** Reads a link back: the number before the first `?` and the decoded `text` value. */
  function ParseWhatsappUrl(url: string): (r: Option<(string, string)>)
  {
    if |url| < |WaPrefix| || url[..|WaPrefix|] != WaPrefix then None
    else
      var rest := url[|WaPrefix|..];
      var k := IndexOf(rest, '?');
      if |rest| - k < |TextQuery| || rest[k..k + |TextQuery|] != TextQuery then None
      else match DecodeURIComponent(rest[k + |TextQuery|..])
        case None => None
        case Some(text) => Some((rest[..k], text))
  }

  /** The link carries the normalised number and the whole message: parsing it back
      gives both, whatever the message holds. */
  lemma ParseBuild(phone: Option<string>, message: Option<string>)
    ensures ParseWhatsappUrl(BuildWhatsappUrl(phone, message)) == Some((NormalizePhone(phone), OrEmpty(message)))
  {
    DecodeEncode(OrEmpty(message));
    ParseParts(NormalizePhone(phone), EncodeURIComponent(OrEmpty(message)), OrEmpty(message));
  }

  lemma ParseParts(num: string, enc: string, text: string)
    requires AllDial(num) && DecodeURIComponent(enc) == Some(text)
    ensures ParseWhatsappUrl(WaPrefix + num + TextQuery + enc) == Some((num, text))
  {
    var url := WaPrefix + num + TextQuery + enc;
    var rest := num + TextQuery + enc;
    assert url == WaPrefix + rest;
    assert url[..|WaPrefix|] == WaPrefix;
    assert url[|WaPrefix|..] == rest;
    NoQuestionMark(num, TextQuery + enc);
    assert rest[|num|..|num| + |TextQuery|] == TextQuery;
    assert rest[|num| + |TextQuery|..] == enc;
    assert rest[..|num|] == num;
  }

  lemma NoQuestionMark(num: string, tail: string)
    requires AllDial(num) && |tail| > 0 && tail[0] == '?'
    ensures IndexOf(num + tail, '?') == |num|
  {
    assert (num + tail)[|num|] == '?';
    assert forall i | 0 <= i < |num| :: (num + tail)[i] == num[i];
  }
}
