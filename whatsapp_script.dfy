/** The WhatsApp self-check script (scripts/testWhatsapp.js): its own copy of the link
    builder and the links it prints for three spellings of one Congolese number. */
module WhatsappScript {
  import opened JsBuiltins
  import opened UriEncoding
  import opened Whatsapp

  /** `localBuildWhatsappUrl`, written out step by step as the script does. */
  function LocalBuildWhatsappUrl(phone: Option<string>, message: Option<string>): (url: string)
    ensures |url| >= 14 && url[..14] == "https://wa.me/"
  {
    var digits := KeepDialChars(OrEmpty(phone));
    var noPlus := if |digits| > 0 && digits[0] == '+' then digits[1..] else digits;
    var text := EncodeURIComponent(OrEmpty(message));
    "https://wa.me/" + noPlus + "?text=" + text
  }

  /** The script's copy agrees with the library on every input. */
  lemma LocalMatchesLibrary(phone: Option<string>, message: Option<string>)
    ensures LocalBuildWhatsappUrl(phone, message) == BuildWhatsappUrl(phone, message)
  {
  }

  const Samples: seq<string> := ["+243 812 345 678", "00243-812-345-678", "243812345678"]
  const SampleMessage: string := "Bonjour, concernant le colis ABC123"
  const EncodedSampleMessage: string := "Bonjour%2C%20concernant%20le%20colis%20ABC123"

  /** The sample message encoded: the comma and spaces are escaped, the rest passes. */
  lemma SampleMessageEncoding()
    ensures EncodeURIComponent(SampleMessage) == EncodedSampleMessage
  {
    SampleWords();
    SampleSentence();
    EncodedSampleSentence();
    EncodeSentence("Bonjour", "concernant", "le", "colis", "ABC123");
  }

  predicate AllUnreserved(s: string) {
    forall i | 0 <= i < |s| :: IsUnreserved(s[i])
  }

  lemma SampleWords()
    ensures AllUnreserved("Bonjour") && AllUnreserved("concernant") && AllUnreserved("le")
    ensures AllUnreserved("colis") && AllUnreserved("ABC123")
  {
  }

  lemma SampleSentence()
    ensures SampleMessage == "Bonjour" + "," + " " + "concernant" + " " + "le" + " " + "colis" + " " + "ABC123"
  {
  }

  lemma EncodedSampleSentence()
    ensures EncodedSampleMessage == "Bonjour" + "%2C" + "%20" + "concernant" + "%20" + "le" + "%20" + "colis" + "%20" + "ABC123"
  {
  }

  lemma EscapedPunctuation()
    ensures EncodeURIComponent(",") == "%2C" && EncodeURIComponent(" ") == "%20"
  {
    assert Utf8Bytes(',') == [44] && Utf8Bytes(' ') == [32];
    assert PercentBytes([44]) == PercentByte(44) && PercentBytes([32]) == PercentByte(32);
  }

  /** Encoding `a` then a separator then `b`, piece by piece. */
  lemma EncodeAround(a: string, sep: string, b: string)
    ensures EncodeURIComponent(a + sep + b) == EncodeURIComponent(a) + EncodeURIComponent(sep) + EncodeURIComponent(b)
  {
    EncodeAppend(a + sep, b);
    EncodeAppend(a, sep);
  }

  lemma EncodeSentence(w1: string, w2: string, w3: string, w4: string, w5: string)
    requires AllUnreserved(w1) && AllUnreserved(w2) && AllUnreserved(w3) && AllUnreserved(w4) && AllUnreserved(w5)
    ensures EncodeURIComponent(w1 + "," + " " + w2 + " " + w3 + " " + w4 + " " + w5)
         == w1 + "%2C" + "%20" + w2 + "%20" + w3 + "%20" + w4 + "%20" + w5
  {
    EncodeUnreserved(w1);
    EncodeUnreserved(w2);
    EncodeUnreserved(w3);
    EncodeUnreserved(w4);
    EncodeUnreserved(w5);
    EscapedPunctuation();
    var p1 := w1 + ",";
    EncodeAppend(w1, ",");
    var p2 := p1 + " " + w2;
    EncodeAround(p1, " ", w2);
    var p3 := p2 + " " + w3;
    EncodeAround(p2, " ", w3);
    var p4 := p3 + " " + w4;
    EncodeAround(p3, " ", w4);
    EncodeAround(p4, " ", w5);
  }

  /** Dial groups separated by one non-dial character keep only the groups. */
  lemma KeepGroups(g1: string, g2: string, g3: string, g4: string, sep: string)
    requires AllDial(g1) && AllDial(g2) && AllDial(g3) && AllDial(g4)
    requires |sep| == 1 && !IsDialChar(sep[0])
    ensures KeepDialChars(g1 + sep + g2 + sep + g3 + sep + g4) == g1 + g2 + g3 + g4
  {
    KeepDialCharsOfDial(g1);
    KeepDialCharsOfDial(g2);
    KeepDialCharsOfDial(g3);
    KeepDialCharsOfDial(g4);
    assert KeepDialChars(sep) == [];
    var p2 := g1 + sep + g2;
    KeepAround(g1, sep, g2);
    var p3 := p2 + sep + g3;
    KeepAround(p2, sep, g3);
    KeepAround(p3, sep, g4);
  }

  lemma KeepAround(a: string, sep: string, b: string)
    requires KeepDialChars(sep) == []
    ensures KeepDialChars(a + sep + b) == KeepDialChars(a) + KeepDialChars(b)
  {
    KeepDialCharsAppend(a + sep, b);
    KeepDialCharsAppend(a, sep);
  }

  lemma SampleSpellings()
    ensures Samples[0] == "+243" + " " + "812" + " " + "345" + " " + "678"
    ensures Samples[1] == "00243" + "-" + "812" + "-" + "345" + "-" + "678"
    ensures "+243" + "812" + "345" + "678" == "+243812345678"
    ensures "00243" + "812" + "345" + "678" == "00243812345678"
    ensures "+243812345678"[1..] == "243812345678"
    ensures AllDial("+243") && AllDial("00243") && AllDial("812") && AllDial("345") && AllDial("678")
    ensures AllDial("243812345678")
  {
  }

  /** The numbers the three samples normalise to: the spaced international form and the
      bare form agree, and the "00" prefix is kept. */
  lemma SampleNumbers()
    ensures NormalizePhone(Some(Samples[0])) == "243812345678"
    ensures NormalizePhone(Some(Samples[1])) == "00243812345678"
    ensures NormalizePhone(Some(Samples[2])) == "243812345678"
  {
    SampleSpellings();
    KeepGroups("+243", "812", "345", "678", " ");
    KeepGroups("00243", "812", "345", "678", "-");
    KeepDialCharsOfDial("243812345678");
  }

  /** A link spelled out from the number and the encoded text it carries. */
  lemma LinkOf(phone: Option<string>, message: Option<string>, num: string, enc: string)
    requires NormalizePhone(phone) == num && EncodeURIComponent(OrEmpty(message)) == enc
    ensures BuildWhatsappUrl(phone, message) == WaPrefix + num + TextQuery + enc
  {
  }

  /** The three links the script prints. */
  lemma SampleLinks()
    ensures BuildWhatsappUrl(Some(Samples[0]), Some(SampleMessage)) == WaPrefix + "243812345678" + TextQuery + EncodedSampleMessage
    ensures BuildWhatsappUrl(Some(Samples[1]), Some(SampleMessage)) == WaPrefix + "00243812345678" + TextQuery + EncodedSampleMessage
    ensures BuildWhatsappUrl(Some(Samples[2]), Some(SampleMessage)) == BuildWhatsappUrl(Some(Samples[0]), Some(SampleMessage))
  {
    SampleNumbers();
    SampleMessageEncoding();
    LinkOf(Some(Samples[0]), Some(SampleMessage), "243812345678", EncodedSampleMessage);
    LinkOf(Some(Samples[1]), Some(SampleMessage), "00243812345678", EncodedSampleMessage);
    LinkOf(Some(Samples[2]), Some(SampleMessage), "243812345678", EncodedSampleMessage);
  }

  /** The loop over the samples: one link per phone, in order, each built by the
      script's copy and therefore equal to the library's link. */
  method BuildLinks(phones: seq<string>, message: string) returns (urls: seq<string>)
    ensures |urls| == |phones|
    ensures forall i | 0 <= i < |phones| :: urls[i] == BuildWhatsappUrl(Some(phones[i]), Some(message))
  {
    urls := [];
    for i := 0 to |phones|
      invariant |urls| == i
      invariant forall j | 0 <= j < i :: urls[j] == BuildWhatsappUrl(Some(phones[j]), Some(message))
    {
      var url := LocalBuildWhatsappUrl(Some(phones[i]), Some(message));
      LocalMatchesLibrary(Some(phones[i]), Some(message));
      urls := urls + [url];
    }
  }

  /** The script's run: the three links it prints. */
  method RunSamples() returns (urls: seq<string>)
    ensures |urls| == |Samples|
    ensures urls[0] == WaPrefix + "243812345678" + TextQuery + EncodedSampleMessage
    ensures urls[1] == WaPrefix + "00243812345678" + TextQuery + EncodedSampleMessage
    ensures urls[2] == urls[0]
  {
    urls := BuildLinks(Samples, SampleMessage);
    SampleLinks();
  }
}
