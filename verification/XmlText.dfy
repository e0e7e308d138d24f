/** `xml__encode_text` of the bundled test runner: five whole-string replacements
    that amount to one encoding into the predefined entities of section 4.6 of
    XML 1.0. */
module XmlText {
  import opened Text

  function ReplaceOne(d: char, c: char, rep: string): string {
    if d == c then rep else [d]
  }

  // ${s//c/rep}
  function ReplaceAll(s: string, c: char, rep: string): string {
    if s == "" then "" else ReplaceOne(s[0], c, rep) + ReplaceAll(s[1..], c, rep)
  }

  function EncodeChar(c: char): string {
    if c == '&' then "&amp;"
    else if c == '<' then "&lt;"
    else if c == '>' then "&gt;"
    else if c == '\"' then "&quot;"
    else if c == '\'' then "&apos;"
    else [c]
  }

  // Every character encoded on its own.
  function Encode(s: string): string {
    if s == "" then "" else EncodeChar(s[0]) + Encode(s[1..])
  }

  function Replaced(s: string): string {
    var markup := ReplaceAll(ReplaceAll(ReplaceAll(s, '&', "&amp;"), '<', "&lt;"), '>', "&gt;");
    ReplaceAll(ReplaceAll(markup, '\"', "&quot;"), '\'', "&apos;")
  }

  lemma {:induction false} ReplaceConcat(a: string, b: string, c: char, rep: string)
    ensures ReplaceAll(a + b, c, rep) == ReplaceAll(a, c, rep) + ReplaceAll(b, c, rep)
  {
    hide ReplaceOne;
    if a == "" {
      assert a + b == b;
    } else {
      ReplaceConcat(a[1..], b, c, rep);
      assert (a + b)[1..] == a[1..] + b;
    }
  }

  lemma {:induction false} ReplaceAbsent(s: string, c: char, rep: string)
    requires c !in s
    ensures ReplaceAll(s, c, rep) == s
  {
    if s != "" {
      ReplaceAbsent(s[1..], c, rep);
    }
  }

  lemma ReplaceChar(d: char, c: char, rep: string)
    ensures ReplaceAll([d], c, rep) == ReplaceOne(d, c, rep)
  {
    assert [d][1..] == "";
  }

  // One character through the five replacements.
  lemma ReplacedChar(d: char)
    ensures Replaced([d]) == EncodeChar(d)
  {
    hide ReplaceAll;
    ReplaceChar(d, '&', "&amp;");
    ReplaceChar(d, '<', "&lt;");
    ReplaceChar(d, '>', "&gt;");
    ReplaceChar(d, '\"', "&quot;");
    ReplaceChar(d, '\'', "&apos;");
    if d == '&' || d == '<' || d == '>' || d == '\"' {
      var e := EncodeChar(d);
      ReplaceAbsent(e, '<', "&lt;");
      ReplaceAbsent(e, '>', "&gt;");
      ReplaceAbsent(e, '\"', "&quot;");
      ReplaceAbsent(e, '\'', "&apos;");
    }
  }

  lemma ReplacedConcat(a: string, b: string)
    ensures Replaced(a + b) == Replaced(a) + Replaced(b)
  {
    hide ReplaceAll;
    var a1, b1 := ReplaceAll(a, '&', "&amp;"), ReplaceAll(b, '&', "&amp;");
    var a2, b2 := ReplaceAll(a1, '<', "&lt;"), ReplaceAll(b1, '<', "&lt;");
    var a3, b3 := ReplaceAll(a2, '>', "&gt;"), ReplaceAll(b2, '>', "&gt;");
    var a4, b4 := ReplaceAll(a3, '\"', "&quot;"), ReplaceAll(b3, '\"', "&quot;");
    ReplaceConcat(a, b, '&', "&amp;");
    ReplaceConcat(a1, b1, '<', "&lt;");
    ReplaceConcat(a2, b2, '>', "&gt;");
    ReplaceConcat(a3, b3, '\"', "&quot;");
    ReplaceConcat(a4, b4, '\'', "&apos;");
  }

  lemma {:induction false} ReplacementsAreOneEncoding(s: string)
    ensures Replaced(s) == Encode(s)
  {
    if s != "" {
      hide Replaced, EncodeChar;
      ReplacementsAreOneEncoding(s[1..]);
      assert s == [s[0]] + s[1..];
      ReplacedConcat([s[0]], s[1..]);
      ReplacedChar(s[0]);
    }
  }

  method EncodeText(text: string) returns (encoded: string)
    ensures encoded == Encode(text)
  {
    encoded := ReplaceAll(text, '&', "&amp;");
    encoded := ReplaceAll(encoded, '<', "&lt;");
    encoded := ReplaceAll(encoded, '>', "&gt;");
    encoded := ReplaceAll(encoded, '\"', "&quot;");
    encoded := ReplaceAll(encoded, '\'', "&apos;");
    ReplacementsAreOneEncoding(text);
  }

  // ----- decoding

  // The entity a text begins with.
  function FirstEntity(s: string): Option<(string, char)> {
    if "&amp;" <= s then Some(("&amp;", '&'))
    else if "&lt;" <= s then Some(("&lt;", '<'))
    else if "&gt;" <= s then Some(("&gt;", '>'))
    else if "&quot;" <= s then Some(("&quot;", '\"'))
    else if "&apos;" <= s then Some(("&apos;", '\''))
    else None
  }

  // Reading text with entities; an ampersand that begins none is an error.
  function Decode(s: string): Option<string> {
    if s == "" then Some("")
    else if s[0] == '&' then
      match FirstEntity(s)
      case None => None
      case Some(e) =>
        match Decode(s[|e.0|..])
        case None => None
        case Some(rest) => Some([e.1] + rest)
    else
      match Decode(s[1..])
      case None => None
      case Some(rest) => Some([s[0]] + rest)
  }

  predicate IsSpecial(c: char) {
    c == '&' || c == '<' || c == '>' || c == '\"' || c == '\''
  }

  lemma EntityOfChar(c: char, rest: string)
    requires IsSpecial(c)
    ensures FirstEntity(EncodeChar(c) + rest) == Some((EncodeChar(c), c))
  {
    var s := EncodeChar(c) + rest;
    assert |s| >= 4 && s[..|EncodeChar(c)|] == EncodeChar(c);
    assert s[1] == EncodeChar(c)[1] && s[2] == EncodeChar(c)[2];
    assert "&amp;"[1] == 'a' && "&amp;"[2] == 'm' && "&lt;"[1] == 'l' && "&gt;"[1] == 'g' && "&quot;"[1] == 'q';
    assert "&apos;"[1] == 'a' && "&apos;"[2] == 'p';
  }

  // Decoding undoes the encoding, for every text.
  lemma {:induction false} DecodeOfEncode(s: string)
    ensures Decode(Encode(s)) == Some(s)
  {
    if s != "" {
      hide EncodeChar, FirstEntity;
      var c, rest := s[0], Encode(s[1..]);
      DecodeOfEncode(s[1..]);
      var t := EncodeChar(c) + rest;
      EncodedCharFacts(c);
      assert t[|EncodeChar(c)|..] == rest;
      if IsSpecial(c) {
        EntityOfChar(c, rest);
      }
      assert s == [c] + s[1..];
    }
  }

  lemma EncodedCharFacts(c: char)
    ensures EncodeChar(c) != "" && EncodeChar(c)[0] == (if IsSpecial(c) then '&' else c)
    ensures !IsSpecial(c) ==> EncodeChar(c) == [c]
    ensures forall i :: 0 <= i < |EncodeChar(c)| ==> !IsSpecial(EncodeChar(c)[i]) || EncodeChar(c)[i] == '&'
    ensures forall i :: 1 <= i < |EncodeChar(c)| ==> !IsSpecial(EncodeChar(c)[i])
  {
  }

  // The output has no raw <, >, " or ', and every ampersand begins one of the
  // five entities.
  lemma {:induction false} EncodedTextIsSafe(s: string, i: nat)
    requires i < |Encode(s)|
    ensures IsSpecial(Encode(s)[i]) ==> Encode(s)[i] == '&' && FirstEntity(Encode(s)[i..]).Some?
  {
    hide EncodeChar, FirstEntity;
    var c, rest := s[0], Encode(s[1..]);
    EncodedCharFacts(c);
    if i >= |EncodeChar(c)| {
      EncodedTextIsSafe(s[1..], i - |EncodeChar(c)|);
      assert Encode(s)[i..] == rest[i - |EncodeChar(c)|..];
    } else if i == 0 && IsSpecial(c) {
      EntityOfChar(c, rest);
      assert Encode(s)[0..] == EncodeChar(c) + rest;
    }
  }

  // Conversely every text like that is the encoding of what it decodes to.
  lemma {:induction false} EncodeOfDecode(t: string)
    requires forall i :: 0 <= i < |t| ==> !IsSpecial(t[i]) || t[i] == '&'
    requires Decode(t).Some?
    ensures Encode(Decode(t).value) == t
  {
    if t != "" {
      if t[0] == '&' {
        var e := FirstEntity(t).value;
        EntityIsEncoding(t);
        EncodeOfDecode(t[|e.0|..]);
        var rest := Decode(t[|e.0|..]).value;
        assert ([e.1] + rest)[1..] == rest;
        assert t == e.0 + t[|e.0|..];
      } else {
        EncodeOfDecode(t[1..]);
        var rest := Decode(t[1..]).value;
        assert ([t[0]] + rest)[1..] == rest;
        EncodedCharFacts(t[0]);
      }
    }
  }

  lemma EntityIsEncoding(t: string)
    requires FirstEntity(t).Some?
    ensures var e := FirstEntity(t).value;
            e.0 <= t && e.0 != "" && EncodeChar(e.1) == e.0
  {
  }

  // ----- told by the characters

  lemma {:induction false} EncodePointwise(a: string, b: string)
    ensures Encode(a + b) == Encode(a) + Encode(b)
  {
    hide EncodeChar, Encode;
    if a == "" {
      assert a + b == b;
      EncodeNone();
    } else {
      EncodePointwise(a[1..], b);
      EncodeNext(a);
      EncodeNext(a + b);
      assert (a + b)[1..] == a[1..] + b && (a + b)[0] == a[0];
      assert EncodeChar(a[0]) + (Encode(a[1..]) + Encode(b)) == EncodeChar(a[0]) + Encode(a[1..]) + Encode(b);
    }
  }

  lemma EncodeNone()
    ensures Encode("") == ""
  {
  }

  lemma EncodeNext(s: string)
    requires s != ""
    ensures Encode(s) == EncodeChar(s[0]) + Encode(s[1..])
  {
  }

  // The predefined entities; every other character stands for itself.
  lemma EncodedCharacters(c: char)
    ensures Encode("&") == "&amp;" && Encode("<") == "&lt;" && Encode(">") == "&gt;"
    ensures Encode("\"") == "&quot;" && Encode("\'") == "&apos;"
    ensures c != '&' && c != '<' && c != '>' && c != '\"' && c != '\'' ==> Encode([c]) == [c]
  {
    assert [c][1..] == "" && "&"[1..] == "" && "<"[1..] == "" && ">"[1..] == "" && "\""[1..] == "" && "\'"[1..] == "";
    assert Encode("") == "";
    assert "&amp;" + "" == "&amp;" && "&lt;" + "" == "&lt;" && "&gt;" + "" == "&gt;";
    assert "&quot;" + "" == "&quot;" && "&apos;" + "" == "&apos;";
  }
}
