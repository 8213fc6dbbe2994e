/** Bof_StringSplit, and what a C function sees of a string. */
module Strings {

  /** The parts of `s` between the delimiters; there is one more part than delimiters. */
  function Split(s: string, delimiter: char): (parts: seq<string>)
    ensures parts != []
  {
    if s == [] then [""]
    else
      var rest := Split(s[1..], delimiter);
      if s[0] == delimiter then [""] + rest else [[s[0]] + rest[0]] + rest[1..]
  }

  lemma {:induction false} SplitAtDelimiter(a: string, delimiter: char, b: string)
    ensures Split(a + [delimiter] + b, delimiter) == Split(a, delimiter) + Split(b, delimiter)
  {
    if a == [] {
      assert a + [delimiter] + b == [delimiter] + b && ([delimiter] + b)[1..] == b;
      assert Split(a, delimiter) == [""];
    } else {
      assert (a + [delimiter] + b)[1..] == a[1..] + [delimiter] + b;
      SplitAtDelimiter(a[1..], delimiter, b);
    }
  }

  lemma {:induction false} SplitWithout(s: string, delimiter: char)
    requires delimiter !in s
    ensures Split(s, delimiter) == [s]
  {
    if s != [] {
      SplitWithout(s[1..], delimiter);
      assert [s[0]] + s[1..] == s;
    }
  }

  // ---- C strings -----------------------------------------------------------------------------------

  /** The characters in front of the first NUL. */
  function CString(s: seq<char>): string {
    if s == [] || s[0] == '\0' then [] else [s[0]] + CString(s[1..])
  }

  lemma {:induction false} CStringEndsAtNul(s: seq<char>)
    requires '\0' in s
    ensures var t := CString(s); |t| < |s| && s[..|t|] == t && s[|t|] == '\0' && '\0' !in t
  {
    if s[0] != '\0' {
      assert s == [s[0]] + s[1..];
      CStringEndsAtNul(s[1..]);
    }
  }

  lemma {:induction false} CStringWithout(s: string)
    requires '\0' !in s
    ensures CString(s) == s
  {
    if s != [] {
      assert s == [s[0]] + s[1..];
      CStringWithout(s[1..]);
    }
  }

  lemma {:induction false} CStringOf(a: string, b: string)
    requires '\0' !in a
    ensures CString(a + ['\0'] + b) == a
  {
    var s := a + ['\0'] + b;
    if a == [] {
      assert s[0] == '\0';
    } else {
      assert a == [a[0]] + a[1..];
      assert s[1..] == a[1..] + ['\0'] + b;
      CStringOf(a[1..], b);
    }
  }
}
