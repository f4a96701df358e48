/**
 * sanitizeInput sets a detached element's textContent and reads back its innerHTML.
 * For the one text node that creates, the HTML fragment serialisation algorithm
 * ("escaping a string" in the HTML standard, attribute mode off) replaces `&` by
 * `&amp;`, U+00A0 by `&nbsp;`, `<` by `&lt;` and `>` by `&gt;`, and copies every
 * other character. An empty string creates no node and serialises to "".
 */
module Html {

  /** The escape of one character: a character reference for the four special ones, the character itself otherwise. */
  function EscapeChar(c: char): (r: string)
    ensures r == [c] <==> c !in "&<>\U{A0}"
    ensures r != [c] ==> |r| >= 4 && r[0] == '&' && r[|r| - 1] == ';'
  {
    if c == '&' then "&amp;"
    else if c == '\U{A0}' then "&nbsp;"
    else if c == '<' then "&lt;"
    else if c == '>' then "&gt;"
    else [c]
  }

  /** sanitizeInput: the result is never shorter, empty exactly when the input is, and holds no angle bracket. */
  function Sanitize(s: string): (r: string)
    ensures |r| >= |s|
    ensures r == [] <==> s == []
    ensures forall i :: 0 <= i < |r| ==> r[i] != '<' && r[i] != '>'
  {
    if s == [] then [] else EscapeChar(s[0]) + Sanitize(s[1..])
  }

  /** Decodes the four character references Sanitize writes; any other character is copied. */
  function Unescape(s: string): string
    decreases |s|
  {
    if s == [] then []
    else if s[0] != '&' then [s[0]] + Unescape(s[1..])
    else if |s| >= 5 && s[..5] == "&amp;" then "&" + Unescape(s[5..])
    else if |s| >= 6 && s[..6] == "&nbsp;" then "\U{A0}" + Unescape(s[6..])
    else if |s| >= 4 && s[..4] == "&lt;" then "<" + Unescape(s[4..])
    else if |s| >= 4 && s[..4] == "&gt;" then ">" + Unescape(s[4..])
    else [s[0]] + Unescape(s[1..])
  }

  /** Unescape decodes the escape of one character and then goes on with the rest. */
  lemma UnescapeEscapeChar(c: char, rest: string)
    ensures Unescape(EscapeChar(c) + rest) == [c] + Unescape(rest)
  {
    var e := EscapeChar(c) + rest;
    if c == '&' {
      assert e[..5] == "&amp;" && e[5..] == rest;
    } else if c == '\U{A0}' {
      UnescapeNbsp(rest);
    } else if c == '<' {
      assert |e| >= 5 ==> e[..5] != "&amp;" by { assert e[1] == 'l'; }
      assert e[..4] == "&lt;" && e[4..] == rest;
    } else if c == '>' {
      assert |e| >= 5 ==> e[..5] != "&amp;" by { assert e[1] == 'g'; }
      assert |e| >= 6 ==> e[..6] != "&nbsp;" by { assert e[1] == 'g'; }
      assert e[..4] != "&lt;" by { assert e[1] == 'g'; }
      assert e[..4] == "&gt;" && e[4..] == rest;
    } else {
      assert e[0] == c && e[1..] == rest;
    }
  }

  lemma UnescapeNbsp(rest: string)
    ensures Unescape("&nbsp;" + rest) == "\U{A0}" + Unescape(rest)
  {
    var e := "&nbsp;" + rest;
    assert e[..5] != "&amp;" by { assert e[1] == 'n'; }
    assert e[..6] == "&nbsp;" && e[6..] == rest;
  }

  /** Sanitizing loses no information: Unescape recovers the text that was typed. */
  lemma {:induction false} UnescapeSanitize(s: string)
    ensures Unescape(Sanitize(s)) == s
  {
    if s != [] {
      UnescapeEscapeChar(s[0], Sanitize(s[1..]));
      UnescapeSanitize(s[1..]);
    }
  }

  /** Text without markup characters or non-breaking spaces is stored unchanged. */
  lemma {:induction false} SanitizePlain(s: string)
    requires forall i :: 0 <= i < |s| ==> s[i] !in "&<>\U{A0}"
    ensures Sanitize(s) == s
  {
    if s != [] {
      assert s[0] !in "&<>\U{A0}";
      SanitizePlain(s[1..]);
    }
  }

  /** Text holding a markup character or a non-breaking space gets longer when it is escaped. */
  lemma {:induction false} SanitizeLonger(s: string, i: nat)
    requires i < |s| && s[i] in "&<>\U{A0}"
    ensures |Sanitize(s)| > |s|
  {
    if i == 0 {
      assert |EscapeChar(s[0])| >= 4;
    } else {
      SanitizeLonger(s[1..], i - 1);
    }
  }
}
