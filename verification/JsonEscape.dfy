/** The two S_EscapeJsonSpecialChar routines: one appends to a string, the faster one writes through
    a pointer into a buffer of the caller. */
module JsonEscape {
  import opened Basics
  import opened Strings

  const BACKSPACE: char := '\U{0008}'
  const FORM_FEED: char := '\U{000C}'

  /** The letter after the backslash, for the characters that are escaped. */
  function Letter(c: char): (l: char)
    ensures l != '\0' ==> c != '\0'
  {
    match c
    case '"' => '"'
    case '\\' => '\\'
    case '\n' => 'n'
    case '\r' => 'r'
    case '\t' => 't'
    case _ => if c == BACKSPACE then 'b' else if c == FORM_FEED then 'f' else '\0'
  }

  predicate Escaped(c: char) {
    Letter(c) != '\0'
  }

  function EscapeChar(c: char): string {
    if Escaped(c) then ['\\', Letter(c)] else [c]
  }

  function Escape(s: string): string {
    if s == [] then [] else Escape(s[..|s| - 1]) + EscapeChar(s[|s| - 1])
  }

  // ---- Reading it back -------------------------------------------------------------------------------

  /** The character that a letter after a backslash stands for (section 7 of RFC 8259). */
  function Meaning(l: char): Option<char> {
    match l
    case '"' => Some('"')
    case '\\' => Some('\\')
    case '/' => Some('/')
    case 'b' => Some(BACKSPACE)
    case 'f' => Some(FORM_FEED)
    case 'n' => Some('\n')
    case 'r' => Some('\r')
    case 't' => Some('\t')
    case _ => None
  }

  /** The text that a string body without \u escapes stands for. */
  function Unescape(t: string): Option<string> {
    if t == [] then Some([])
    else if t[0] != '\\' then
      match Unescape(t[1..])
      case Some(rest) => Some([t[0]] + rest)
      case None => None
    else if |t| == 1 then None
    else
      match (Meaning(t[1]), Unescape(t[2..]))
      case (Some(c), Some(rest)) => Some([c] + rest)
      case _ => None
  }

  lemma EscapeFront(s: string)
    requires s != []
    ensures Escape(s) == EscapeChar(s[0]) + Escape(s[1..])
  {
    EscapeAppend([s[0]], s[1..]);
    assert [s[0]] + s[1..] == s;
    EscapeOne(s[0]);
  }

  lemma EscapeOne(c: char)
    ensures Escape([c]) == EscapeChar(c)
  {
    assert [c][..0] == [];
    assert Escape([c]) == Escape([]) + EscapeChar(c);
  }

  lemma {:induction false} EscapeAppend(a: string, b: string)
    ensures Escape(a + b) == Escape(a) + Escape(b)
  {
    if b == [] {
      assert a + b == a;
    } else {
      var n := |b| - 1;
      assert (a + b)[..|a + b| - 1] == a + b[..n];
      calc {
        Escape(a + b);
        Escape(a + b[..n]) + EscapeChar(b[n]);
        { EscapeAppend(a, b[..n]); }
        Escape(a) + Escape(b[..n]) + EscapeChar(b[n]);
        Escape(a) + (Escape(b[..n]) + EscapeChar(b[n]));
        Escape(a) + Escape(b);
      }
    }
  }

  lemma UnescapeFront(c: char, rest: string)
    requires Unescape(rest).Some?
    ensures Unescape(EscapeChar(c) + rest) == Some([c] + Unescape(rest).value)
  {
    var t := EscapeChar(c) + rest;
    if Escaped(c) {
      LetterMeans(c);
      assert t[0] == '\\' && t[1] == Letter(c) && t[2..] == rest;
    } else {
      assert t[0] == c && t[1..] == rest;
    }
  }

  lemma LetterMeans(c: char)
    requires Escaped(c)
    ensures Meaning(Letter(c)) == Some(c) && Letter(c) != 'u'
  {
  }

  /** Nothing is lost: what was escaped can be read back. */
  lemma {:induction false} UnescapeInverts(s: string)
    ensures Unescape(Escape(s)) == Some(s)
  {
    if s != [] {
      EscapeFront(s);
      UnescapeInverts(s[1..]);
      UnescapeFront(s[0], Escape(s[1..]));
      assert [s[0]] + s[1..] == s;
    }
  }

  /** The output is at most twice as long, and holds a NUL only if the input does. */
  lemma {:induction false} EscapeLength(s: string)
    ensures |s| <= |Escape(s)| <= 2 * |s|
    ensures '\0' in Escape(s) <==> '\0' in s
  {
    if s != [] {
      EscapeLength(s[..|s| - 1]);
      assert s == s[..|s| - 1] + [s[|s| - 1]];
    }
  }

  // ---- A valid string body ------------------------------------------------------------------------------

  predicate IsHex(c: char) {
    '0' <= c <= '9' || 'a' <= c <= 'f' || 'A' <= c <= 'F'
  }

  /** *char of section 7 of RFC 8259, without the quotation marks around it. */
  predicate ValidBody(t: string) {
    t == [] ||
    if t[0] == '\\' then
      && |t| > 1
      && if t[1] == 'u' then
           |t| >= 6 && IsHex(t[2]) && IsHex(t[3]) && IsHex(t[4]) && IsHex(t[5]) && ValidBody(t[6..])
         else Meaning(t[1]).Some? && ValidBody(t[2..])
    else t[0] >= ' ' && t[0] != '"' && ValidBody(t[1..])
  }

  lemma ValidFront(c: char, rest: string)
    ensures ValidBody(EscapeChar(c) + rest) <==> (c >= ' ' || Escaped(c)) && ValidBody(rest)
  {
    var t := EscapeChar(c) + rest;
    if Escaped(c) {
      LetterMeans(c);
      assert t[0] == '\\' && t[1] == Letter(c) && t[2..] == rest;
    } else {
      assert t[0] == c && t[1..] == rest;
    }
  }

  /** \b, \f, \n, \r and \t. */
  predicate IsKnownControl(c: char) {
    c as int in {8, 12, 10, 13, 9}
  }

  lemma EscapedIff(c: char)
    ensures Escaped(c) <==> c == '"' || c == '\\' || IsKnownControl(c)
  {
  }

  /** The routines leave the other control characters alone, so the output is a valid string body
      exactly when every control character of the input is one of \b, \f, \n, \r and \t. */
  lemma {:induction false} ValidUnlessControl(s: string)
    ensures ValidBody(Escape(s)) <==> forall c :: c in s ==> c >= ' ' || IsKnownControl(c)
  {
    if s != [] {
      EscapeFront(s);
      ValidUnlessControl(s[1..]);
      ValidFront(s[0], Escape(s[1..]));
      EscapedIff(s[0]);
      assert s == [s[0]] + s[1..];
    }
  }

  /** No quotation mark, no backslash and none of those five. */
  predicate IsOrdinary(c: char) {
    c != '"' && c != '\\' && !IsKnownControl(c)
  }

  lemma AllOrdinary(s: string)
    requires s != []
    ensures var n := |s| - 1;
      (forall c :: c in s ==> IsOrdinary(c)) <==> IsOrdinary(s[n]) && forall c :: c in s[..n] ==> IsOrdinary(c)
  {
    var n := |s| - 1;
    assert s == s[..n] + [s[n]];
  }

  /** Nothing else is escaped: a text is its own escape exactly when all its characters are ordinary, and
      any other text becomes longer. */
  lemma {:induction false} EscapesNothingElse(s: string)
    ensures Escape(s) == s <==> forall c :: c in s ==> IsOrdinary(c)
    ensures |Escape(s)| == |s| <==> Escape(s) == s
  {
    if s != [] {
      var n := |s| - 1;
      EscapesNothingElse(s[..n]);
      EscapeLength(s[..n]);
      EscapedIff(s[n]);
      AllOrdinary(s);
      assert s == s[..n] + [s[n]];
      if !Escaped(s[n]) {
        assert Escape(s) == Escape(s[..n]) + [s[n]];
        assert Escape(s)[..|Escape(s)| - 1] == Escape(s[..n]);
      }
    }
  }

  // ---- The routines --------------------------------------------------------------------------------------

  lemma EscapePrefix(t: string, i: nat)
    requires i < |t|
    ensures Escape(t[..i + 1]) == Escape(t[..i]) + EscapeChar(t[i])
    ensures |Escape(t[..i + 1])| <= |Escape(t)|
  {
    assert t[..i + 1][..i] == t[..i];
    EscapeAppend(t[..i + 1], t[i + 1..]);
    assert t == t[..i + 1] + t[i + 1..];
  }

  /** S_EscapeJsonSpecialChar on a string; a null pointer gives the empty string. */
  method EscapeToString(input: array?<char>) returns (r: string)
    requires input != null ==> '\0' in input[..]
    ensures r == if input == null then "" else Escape(CString(input[..]))
  {
    r := "";
    if input != null {
      ghost var text := CString(input[..]);
      CStringEndsAtNul(input[..]);
      var i := 0;
      while input[i] != '\0'
        invariant i <= |text| && r == Escape(text[..i])
        decreases |text| - i
      {
        var c := input[i];
        assert c == input[..][i] == text[i];
        EscapePrefix(text, i);
        r := r + if Escaped(c) then ['\\', Letter(c)] else [c];
        i := i + 1;
      }
      assert input[..][i] == '\0' && text[..i] == text;
    }
  }

  /** The body of the switch: the output pointer moves behind what it wrote. */
  method WriteChar(output: array<char>, start: nat, c: char) returns (o: nat)
    requires start + |EscapeChar(c)| <= output.Length
    modifies output
    ensures o == start + |EscapeChar(c)|
    ensures output[..o] == old(output[..start]) + EscapeChar(c)
    ensures output[o..] == old(output[start..])[|EscapeChar(c)|..]
  {
    o := start;
    if Escaped(c) {
      output[o] := '\\';
      o := o + 1;
      output[o] := Letter(c);
    } else {
      output[o] := c;
    }
    o := o + 1;
  }

  /** The loop of the pointer version, both pointers given. */
  method WriteEscaped(input: array<char>, output: array<char>)
    requires input != output && '\0' in input[..]
    requires |Escape(CString(input[..]))| < output.Length
    modifies output
    ensures var e := Escape(CString(input[..]));
      && output[..|e| + 1] == e + ['\0']
      && output[|e| + 1..] == old(output[|e| + 1..])
  {
    ghost var text := CString(input[..]);
    ghost var before := output[..];
    CStringEndsAtNul(input[..]);
    var i, o := 0, 0;
    while input[i] != '\0'
      invariant i <= |text| && o == |Escape(text[..i])| <= |Escape(text)|
      invariant output[..o] == Escape(text[..i])
      invariant output[o..] == before[o..]
      decreases |text| - i
    {
      var c := input[i];
      assert c == input[..][i] == text[i];
      EscapePrefix(text, i);
      o := WriteChar(output, o, c);
      i := i + 1;
    }
    assert input[..][i] == '\0' && text[..i] == text;
    output[o] := '\0';
    assert output[..o + 1] == output[..o] + ['\0'];
    assert output[o + 1..] == before[o..][1..];
  }

  /** S_EscapeJsonSpecialChar through a pointer: it writes what the other one returns, and a NUL. The
      caller provides the room; twice the length of the input and one more always is enough. */
  method EscapeToBuffer(input: array?<char>, output: array?<char>) returns (done: bool)
    requires input != null ==> '\0' in input[..]
    requires input != null && output != null ==>
      input != output && |Escape(CString(input[..]))| < output.Length
    modifies if output == null then {} else {output}
    ensures done <==> input != null && output != null
    ensures done ==> var e := old(Escape(CString(input[..])));
      && output[..|e| + 1] == e + ['\0']
      && output[|e| + 1..] == old(output[|e| + 1..])
    ensures !done && output != null ==> output[..] == old(output[..])
  {
    done := input != null && output != null;
    if done {
      WriteEscaped(input, output);
    }
  }
}
