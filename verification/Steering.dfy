/**
 Escaping the user's objective for the steering prompt (`agent/goal/src/steering.rs`), after section 2.4 of XML 1.0.
 */
module Steering {

  /** `str::replace` of one character. */
  function Replace(s: string, c: char, to: string): string {
    if s == "" then "" else (if s[0] == c then to else [s[0]]) + Replace(s[1..], c, to)
  }

  function EscapeXmlText(input: string): string {
    Replace(Replace(Replace(input, '&', "&amp;"), '<', "&lt;"), '>', "&gt;")
  }

  function EscapeChar(c: char): string {
    if c == '&' then "&amp;" else if c == '<' then "&lt;" else if c == '>' then "&gt;" else [c]
  }

  function EscapeEach(s: string): string {
    if s == "" then "" else EscapeChar(s[0]) + EscapeEach(s[1..])
  }

  lemma {:induction false} ReplaceOfConcat(s: string, t: string, c: char, to: string)
    ensures Replace(s + t, c, to) == Replace(s, c, to) + Replace(t, c, to)
  {
    if s == "" {
      assert s + t == t;
    } else {
      assert (s + t)[1..] == s[1..] + t;
      ReplaceOfConcat(s[1..], t, c, to);
    }
  }

  /** Text without the character stays. */
  lemma {:induction false} ReplaceOfOthers(s: string, c: char, to: string)
    requires c !in s
    ensures Replace(s, c, to) == s
  {
    if s != "" {
      ReplaceOfOthers(s[1..], c, to);
    }
  }

  lemma ReplaceOfOneChar(c: char, d: char, to: string)
    ensures Replace([c], d, to) == if c == d then to else [c]
  {
    assert [c][1..] == "";
    assert Replace([c][1..], d, to) == "";
  }

  lemma EscapeOfOneChar(c: char)
    ensures EscapeXmlText([c]) == EscapeChar(c)
  {
    ReplaceOfOneChar(c, '&', "&amp;");
    if c == '&' {
      ReplaceOfOthers("&amp;", '<', "&lt;");
      ReplaceOfOthers("&amp;", '>', "&gt;");
    } else {
      ReplaceOfOneChar(c, '<', "&lt;");
      if c == '<' {
        ReplaceOfOthers("&lt;", '>', "&gt;");
      } else {
        ReplaceOfOneChar(c, '>', "&gt;");
      }
    }
  }

  /** The three passes do not get in each other's way: together they map each character on its own. */
  lemma {:induction false} EscapeIsCharByChar(s: string)
    ensures EscapeXmlText(s) == EscapeEach(s)
  {
    if s != "" {
      var a, b := [s[0]], s[1..];
      assert s == a + b;
      ReplaceOfConcat(a, b, '&', "&amp;");
      var a1, b1 := Replace(a, '&', "&amp;"), Replace(b, '&', "&amp;");
      ReplaceOfConcat(a1, b1, '<', "&lt;");
      var a2, b2 := Replace(a1, '<', "&lt;"), Replace(b1, '<', "&lt;");
      ReplaceOfConcat(a2, b2, '>', "&gt;");
      EscapeOfOneChar(s[0]);
      EscapeIsCharByChar(b);
    }
  }

  /** The escaped text has no markup: no angle bracket, and every ampersand starts one of the three references. */
  lemma {:induction false} EscapedHasNoMarkup(s: string, i: nat)
    requires i < |EscapeEach(s)|
    ensures EscapeEach(s)[i] != '<' && EscapeEach(s)[i] != '>'
    ensures EscapeEach(s)[i] == '&' ==>
              exists c :: (c == '&' || c == '<' || c == '>') && EscapeChar(c) <= EscapeEach(s)[i..]
  {
    var e, rest := EscapeChar(s[0]), EscapeEach(s[1..]);
    if i < |e| {
      if i == 0 {
        assert (e + rest)[0..] == e + rest;
        assert e[0] == '&' ==> EscapeChar(s[0]) <= EscapeEach(s)[i..];
      }
    } else {
      EscapedHasNoMarkup(s[1..], i - |e|);
      assert EscapeEach(s)[i..] == rest[i - |e|..];
    }
  }

  /** Reading the references back, from the left. */
  function Unescape(s: string): string {
    if s == "" then ""
    else if "&amp;" <= s then "&" + Unescape(s[5..])
    else if "&lt;" <= s then "<" + Unescape(s[4..])
    else if "&gt;" <= s then ">" + Unescape(s[4..])
    else [s[0]] + Unescape(s[1..])
  }

  lemma UnescapeOne(c: char, t: string)
    ensures Unescape(EscapeChar(c) + t) == [c] + Unescape(t)
  {
    var e := EscapeChar(c) + t;
    if c == '&' {
      assert e[5..] == t;
    } else if c == '<' {
      assert e[1] == 'l' && !("&amp;" <= e);
      assert e[4..] == t;
    } else if c == '>' {
      assert e[1] == 'g' && !("&amp;" <= e) && !("&lt;" <= e);
      assert e[4..] == t;
    } else {
      assert e[0] == c && e[1..] == t;
    }
  }

  lemma {:induction false} UnescapeEach(s: string)
    ensures Unescape(EscapeEach(s)) == s
  {
    if s != "" {
      UnescapeOne(s[0], EscapeEach(s[1..]));
      UnescapeEach(s[1..]);
    }
  }

  /** Nothing is lost, so different texts stay different. */
  lemma EscapeRoundTrip(s: string)
    ensures Unescape(EscapeXmlText(s)) == s
  {
    EscapeIsCharByChar(s);
    UnescapeEach(s);
  }

  const CLOSE := "\n</untrusted_objective>"

  /** Whatever the objective says, its block is closed by the closing tag that follows it and by nothing before that. */
  lemma BlockEndsWhereItShould(objective: string, i: nat)
    requires i <= |EscapeXmlText(objective)|
    ensures !(CLOSE[1..] <= (EscapeXmlText(objective) + CLOSE)[i..])
    ensures CLOSE[1..] <= (EscapeXmlText(objective) + CLOSE)[|EscapeXmlText(objective)| + 1..]
  {
    var text := EscapeXmlText(objective);
    EscapeIsCharByChar(objective);
    if i < |text| {
      EscapedHasNoMarkup(objective, i);
      assert (text + CLOSE)[i..][0] == text[i];
    } else {
      assert (text + CLOSE)[i..] == CLOSE;
      assert CLOSE[0] == '\n';
    }
    assert CLOSE[1..][0] == '<';
    assert (text + CLOSE)[|text| + 1..] == CLOSE[1..];
  }
}
