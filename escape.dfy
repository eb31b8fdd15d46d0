/** `escapeXml`: the five predefined entities of section 4.6 of the XML 1.0
    specification, applied as a chain of global replacements with the
    ampersand first. */
module XmlEscape {

  import opened Text

  /** `s.replace(/c/g, replacement)` for a one-character pattern. */
  function ReplaceAll(s: string, c: char, replacement: string): string {
    if s == [] then [] else ReplaceChar(s[0], c, replacement) + ReplaceAll(s[1..], c, replacement)
  }

  function ReplaceChar(x: char, c: char, replacement: string): string {
    if x == c then replacement else [x]
  }

  /** The replace chain of `escapeXml`, in the order it is written. */
  function ReplaceChain(s: string): string {
    var amp := ReplaceAll(s, '&', "&amp;");
    var lt := ReplaceAll(amp, '<', "&lt;");
    var gt := ReplaceAll(lt, '>', "&gt;");
    var quot := ReplaceAll(gt, '"', "&quot;");
    ReplaceAll(quot, '\'', "&apos;")
  }

  /** `escapeXml(str)`: the empty string for a falsy input, the replace chain
      otherwise. */
  function EscapeXml(s: string): string {
    if s == [] then "" else ReplaceChain(s)
  }

  predicate IsReserved(c: char) {
    c == '&' || c == '<' || c == '>' || c == '"' || c == '\''
  }

  /** The entity of a reserved character; any other character stands for itself. */
  function EscapeChar(c: char): string {
    match c
    case '&' => "&amp;"
    case '<' => "&lt;"
    case '>' => "&gt;"
    case '"' => "&quot;"
    case '\'' => "&apos;"
    case _ => [c]
  }

  /** Escaping as one pass that replaces each character by its entity: the
      reference the replace chain is measured against. */
  function EscapeEach(s: string): string {
    if s == [] then [] else EscapeChar(s[0]) + EscapeEach(s[1..])
  }

  lemma {:induction false} ReplaceAllConcat(a: string, b: string, c: char, replacement: string)
    ensures ReplaceAll(a + b, c, replacement) == ReplaceAll(a, c, replacement) + ReplaceAll(b, c, replacement)
    decreases |a|
  {
    if a == [] {
      assert a + b == b;
    } else {
      ReplaceAllConcat(a[1..], b, c, replacement);
      assert (a + b)[0] == a[0] && (a + b)[1..] == a[1..] + b;
    }
  }

  lemma {:induction false} ReplaceAllAbsent(s: string, c: char, replacement: string)
    requires c !in s
    ensures ReplaceAll(s, c, replacement) == s
    decreases |s|
  {
    if s != [] {
      assert forall x :: x in s[1..] ==> x in s;
      ReplaceAllAbsent(s[1..], c, replacement);
    }
  }

  lemma ReplaceChainConcat(a: string, b: string)
    ensures ReplaceChain(a + b) == ReplaceChain(a) + ReplaceChain(b)
  {
    var a1, b1 := ReplaceAll(a, '&', "&amp;"), ReplaceAll(b, '&', "&amp;");
    ReplaceAllConcat(a, b, '&', "&amp;");
    var a2, b2 := ReplaceAll(a1, '<', "&lt;"), ReplaceAll(b1, '<', "&lt;");
    ReplaceAllConcat(a1, b1, '<', "&lt;");
    var a3, b3 := ReplaceAll(a2, '>', "&gt;"), ReplaceAll(b2, '>', "&gt;");
    ReplaceAllConcat(a2, b2, '>', "&gt;");
    var a4, b4 := ReplaceAll(a3, '"', "&quot;"), ReplaceAll(b3, '"', "&quot;");
    ReplaceAllConcat(a3, b3, '"', "&quot;");
    ReplaceAllConcat(a4, b4, '\'', "&apos;");
  }

  /** Replacing the string "s" by "t" when "s" holds none of the later
      patterns: the chain stops changing it. */
  lemma ChainTail(t: string)
    requires '<' !in t && '>' !in t && '"' !in t && '\'' !in t
    ensures ReplaceAll(ReplaceAll(ReplaceAll(ReplaceAll(t, '<', "&lt;"), '>', "&gt;"), '"', "&quot;"), '\'', "&apos;") == t
  {
    ReplaceAllAbsent(t, '<', "&lt;");
    ReplaceAllAbsent(t, '>', "&gt;");
    ReplaceAllAbsent(t, '"', "&quot;");
    ReplaceAllAbsent(t, '\'', "&apos;");
  }

  lemma ReplaceAllSingle(x: char, c: char, replacement: string)
    ensures ReplaceAll([x], c, replacement) == ReplaceChar(x, c, replacement)
  {
    assert [x][1..] == [];
  }

  lemma ReplaceChainChar(c: char)
    ensures ReplaceChain([c]) == EscapeChar(c)
  {
    ReplaceAllSingle(c, '&', "&amp;");
    ReplaceAllSingle(c, '<', "&lt;");
    ReplaceAllSingle(c, '>', "&gt;");
    ReplaceAllSingle(c, '"', "&quot;");
    ReplaceAllSingle(c, '\'', "&apos;");
    if c == '&' {
      ChainTail("&amp;");
    } else if c == '<' {
      ReplaceAllAbsent("&lt;", '>', "&gt;");
      ReplaceAllAbsent("&lt;", '"', "&quot;");
      ReplaceAllAbsent("&lt;", '\'', "&apos;");
    } else if c == '>' {
      ReplaceAllAbsent([c], '<', "&lt;");
      ReplaceAllAbsent("&gt;", '"', "&quot;");
      ReplaceAllAbsent("&gt;", '\'', "&apos;");
    } else if c == '"' {
      ReplaceAllAbsent([c], '<', "&lt;");
      ReplaceAllAbsent([c], '>', "&gt;");
      ReplaceAllAbsent("&quot;", '\'', "&apos;");
    } else if c == '\'' {
      ReplaceAllAbsent([c], '<', "&lt;");
      ReplaceAllAbsent([c], '>', "&gt;");
      ReplaceAllAbsent([c], '"', "&quot;");
    } else {
      ChainTail([c]);
    }
  }

  /** Because the ampersand goes first, no entity introduced by one replacement
      is touched by a later one: the chain escapes each character exactly once. */
  lemma {:induction false} EscapeXmlIsSinglePass(s: string)
    ensures EscapeXml(s) == EscapeEach(s)
    decreases |s|
  {
    if s != [] {
      EscapeXmlIsSinglePass(s[1..]);
      assert s == [s[0]] + s[1..];
      ReplaceChainConcat([s[0]], s[1..]);
      ReplaceChainChar(s[0]);
    }
  }

  /** The entity that starts at position `i` of `t`, if any. */
  predicate EntityAt(t: string, i: nat)
    requires i <= |t|
  {
    var rest := t[i..];
    StartsWith(rest, "&amp;") || StartsWith(rest, "&lt;") || StartsWith(rest, "&gt;")
      || StartsWith(rest, "&quot;") || StartsWith(rest, "&apos;")
  }

  /** Text that is safe inside an element: no raw `<`, `>`, `"` or `'`, and
      every `&` starts one of the five entities. */
  ghost predicate IsEscaped(t: string) {
    forall i :: 0 <= i < |t| ==> !IsReserved(t[i]) || (t[i] == '&' && EntityAt(t, i))
  }

  lemma EscapedConcat(a: string, b: string)
    requires IsEscaped(a) && IsEscaped(b)
    ensures IsEscaped(a + b)
  {
    var t := a + b;
    forall i | 0 <= i < |t| && IsReserved(t[i]) ensures t[i] == '&' && EntityAt(t, i) {
      if i < |a| {
        assert a[i] == t[i] && EntityAt(a, i);
        assert t[i..] == a[i..] + b;
      } else {
        assert b[i - |a|] == t[i] && EntityAt(b, i - |a|);
        assert t[i..] == b[i - |a|..];
      }
    }
  }

  lemma EscapeCharEscaped(c: char)
    ensures IsEscaped(EscapeChar(c))
  {
    var t := EscapeChar(c);
    if IsReserved(c) {
      assert t[0] == '&' && EntityAt(t, 0);
      assert forall i :: 1 <= i < |t| ==> !IsReserved(t[i]);
    }
  }

  /** The output of `escapeXml` is safe to embed as element text. */
  lemma {:induction false} EscapeXmlIsEscaped(s: string)
    ensures IsEscaped(EscapeXml(s))
    decreases |s|
  {
    EscapeXmlIsSinglePass(s);
    if s != [] {
      EscapeXmlIsEscaped(s[1..]);
      EscapeXmlIsSinglePass(s[1..]);
      EscapeCharEscaped(s[0]);
      EscapedConcat(EscapeChar(s[0]), EscapeEach(s[1..]));
    }
  }

  /** Decodes the five entities; any other character stands for itself. */
  function UnescapeXml(t: string): string
    decreases |t|
  {
    if t == [] then []
    else if t[0] != '&' then [t[0]] + UnescapeXml(t[1..])
    else if StartsWith(t, "&amp;") then "&" + UnescapeXml(t[5..])
    else if StartsWith(t, "&lt;") then "<" + UnescapeXml(t[4..])
    else if StartsWith(t, "&gt;") then ">" + UnescapeXml(t[4..])
    else if StartsWith(t, "&quot;") then "\"" + UnescapeXml(t[6..])
    else if StartsWith(t, "&apos;") then "'" + UnescapeXml(t[6..])
    else [t[0]] + UnescapeXml(t[1..])
  }

  lemma UnescapeAfterChar(c: char, rest: string)
    ensures UnescapeXml(EscapeChar(c) + rest) == [c] + UnescapeXml(rest)
  {
    var t := EscapeChar(c) + rest;
    var e := EscapeChar(c);
    assert t[..|e|] == e && t[|e|..] == rest;
    if c == '&' {
      assert StartsWith(t, "&amp;");
    } else if c == '<' {
      assert t[1] == 'l' && StartsWith(t, "&lt;");
    } else if c == '>' {
      assert t[1] == 'g' && StartsWith(t, "&gt;");
    } else if c == '"' {
      assert t[1] == 'q' && StartsWith(t, "&quot;");
    } else if c == '\'' {
      assert t[1] == 'a' && t[2] == 'p' && StartsWith(t, "&apos;");
    } else {
      assert t[0] == c;
    }
  }

  /** Decoding the escaped text gives back the original string. */
  lemma {:induction false} UnescapeEscape(s: string)
    ensures UnescapeXml(EscapeXml(s)) == s
    decreases |s|
  {
    EscapeXmlIsSinglePass(s);
    if s != [] {
      UnescapeEscape(s[1..]);
      EscapeXmlIsSinglePass(s[1..]);
      UnescapeAfterChar(s[0], EscapeEach(s[1..]));
      assert s == [s[0]] + s[1..];
    }
  }

  /** Text without reserved characters is emitted unchanged. */
  lemma {:induction false} EscapePlainText(s: string)
    requires forall i :: 0 <= i < |s| ==> !IsReserved(s[i])
    ensures EscapeXml(s) == s
    decreases |s|
  {
    EscapeXmlIsSinglePass(s);
    if s != [] {
      EscapePlainText(s[1..]);
      EscapeXmlIsSinglePass(s[1..]);
      assert s == [s[0]] + s[1..];
    }
  }

  /** Escaping character by character splits over any cut of the string, as
      the replace chain does. */
  lemma EscapeEachConcat(a: string, b: string)
    ensures EscapeEach(a + b) == EscapeEach(a) + EscapeEach(b)
  {
    EscapeXmlIsSinglePass(a);
    EscapeXmlIsSinglePass(b);
    EscapeXmlIsSinglePass(a + b);
    ReplaceChainConcat(a, b);
    if a == [] {
      assert a + b == b;
    } else if b == [] {
      assert a + b == a;
    }
  }



  lemma AmpersandExample()
    ensures EscapeEach("A & ") == "A &amp; "
  {
    EscapeEachConcat("A ", "& ");
    assert "A " + "& " == "A & ";
    assert "A " + "&amp; " == "A &amp; ";
  }

  lemma QuoteExample()
    ensures EscapeEach("\"C\"") == "&quot;C&quot;"
  {
    EscapeEachConcat("\"", "C\"");
    assert "\"" + "C\"" == "\"C\"";
    assert "&quot;" + "C&quot;" == "&quot;C&quot;";
  }

  lemma PrefixExample()
    ensures EscapeEach("A & B ") == "A &amp; B "
  {
    AmpersandExample();
    EscapeEachConcat("A & ", "B ");
    assert "A & " + "B " == "A & B ";
    assert "A &amp; " + "B " == "A &amp; B ";
  }

  lemma EscapeEachExample()
    ensures EscapeEach("A & B \"C\"") == "A &amp; B &quot;C&quot;"
  {
    PrefixExample();
    QuoteExample();
    EscapeEachConcat("A & B ", "\"C\"");
    assert "A & B " + "\"C\"" == "A & B \"C\"";
    assert "A &amp; B " + "&quot;C&quot;" == "A &amp; B &quot;C&quot;";
  }

  /** The worked example of a name holding an ampersand and double quotes:
      each is escaped once, and no entity is escaped again. */
  lemma EscapeExample()
    ensures EscapeXml("A & B \"C\"") == "A &amp; B &quot;C&quot;"
  {
    EscapeXmlIsSinglePass("A & B \"C\"");
    EscapeEachExample();
  }
}
