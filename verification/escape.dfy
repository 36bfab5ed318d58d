/** `escape_character` from the hover-translation backend: every occurrence of one
    character is prefixed by a backslash so that it can sit inside a CSS string. */
module Escape {

  function Count(s: string, c: char): nat
  {
    if s == [] then 0 else (if s[0] == c then 1 else 0) + Count(s[1..], c)
  }

  /** `text.replace(char_to_escape, "\\" + char_to_escape)`. */
  function EscapeCharacter(text: string, c: char): (r: string)
    ensures r != [] && r[0] == c ==> c == '\\'
  {
    if text == [] then []
    else (if text[0] == c then ['\\', c] else [text[0]]) + EscapeCharacter(text[1..], c)
  }

  /** The output grows by one backslash per occurrence of `c`. */
  lemma {:induction false} EscapeLength(text: string, c: char)
    ensures |EscapeCharacter(text, c)| == |text| + Count(text, c)
  {
    if text != [] {
      EscapeLength(text[1..], c);
    }
  }

  /** The inverse of the inserted backslashes: a backslash followed by `c`
      stands for `c`; every other character stands for itself. */
  function Unescape(s: string, c: char): string
  {
    if s == [] then []
    else if |s| >= 2 && s[0] == '\\' && s[1] == c then [c] + Unescape(s[2..], c)
    else [s[0]] + Unescape(s[1..], c)
  }

  /** Escaping loses nothing: unescaping gives the text back. */
  lemma {:induction false} EscapeRoundTrip(text: string, c: char)
    ensures Unescape(EscapeCharacter(text, c), c) == text
  {
    if text != [] {
      var rest := EscapeCharacter(text[1..], c);
      EscapeRoundTrip(text[1..], c);
      if text[0] == c {
        assert EscapeCharacter(text, c) == ['\\', c] + rest;
        assert (['\\', c] + rest)[2..] == rest;
      } else {
        assert EscapeCharacter(text, c) == [text[0]] + rest;
        assert ([text[0]] + rest)[1..] == rest;
      }
    }
  }

  /** Every `c` in the output is preceded by a backslash (for any `c` other than
      the backslash itself, which escaping doubles). */
  lemma {:induction false} EveryOccurrenceEscaped(text: string, c: char)
    requires c != '\\'
    ensures AllEscaped(EscapeCharacter(text, c), c)
  {
    if text != [] {
      EveryOccurrenceEscaped(text[1..], c);
      var rest := EscapeCharacter(text[1..], c);
      var head := if text[0] == c then ['\\', c] else [text[0]];
      var r := head + rest;
      assert EscapeCharacter(text, c) == r;
      forall i | 0 <= i < |r| && r[i] == c ensures 0 < i && r[i - 1] == '\\' {
        if i < |head| {
          assert r[i] == head[i];
          if text[0] == c {
            assert i == 1 && r[0] == head[0];
          }
        } else {
          assert r[i] == rest[i - |head|];
          var j := i - |head|;
          assert rest[j] == c;
          if j > 0 {
            assert rest[j - 1] == '\\';
            assert r[i - 1] == rest[j - 1];
          } else {
            assert false;
          }
        }
      }
    }
  }

  /** Each `c` in `s` directly follows a backslash. */
  predicate AllEscaped(s: string, c: char) {
    forall i :: 0 <= i < |s| && s[i] == c ==> 0 < i && s[i - 1] == '\\'
  }

  /** A text without `c` is left exactly as it is. */
  lemma {:induction false} OnlyTheCharacterIsEscaped(text: string, c: char)
    requires c !in text
    ensures EscapeCharacter(text, c) == text
  {
    if text != [] {
      OnlyTheCharacterIsEscaped(text[1..], c);
    }
  }

  /** Escaping works piece by piece. */
  lemma {:induction false} EscapeConcat(a: string, b: string, c: char)
    ensures EscapeCharacter(a + b, c) == EscapeCharacter(a, c) + EscapeCharacter(b, c)
  {
    if a != [] {
      assert (a + b)[1..] == a[1..] + b;
      EscapeConcat(a[1..], b, c);
    } else {
      assert a + b == b;
    }
  }

  /** Two occurrences of `c` around plain text, as in a quoted word. */
  lemma EscapeQuoted(a: string, b: string, c: char)
    requires c !in a && c !in b
    ensures EscapeCharacter(a + [c] + b + [c], c) == a + ['\\', c] + b + ['\\', c]
  {
    EscapeConcat(a + [c] + b, [c], c);
    EscapeConcat(a + [c], b, c);
    EscapeConcat(a, [c], c);
    OnlyTheCharacterIsEscaped(a, c);
    OnlyTheCharacterIsEscaped(b, c);
  }

  /** The documented example: `He said "hello"` becomes `He said \"hello\"`. */
  lemma DocumentedExample()
    ensures EscapeCharacter("He said \"hello\"", '"') == "He said \\\"hello\\\""
  {
    EscapeQuoted("He said ", "hello", '"');
    assert "He said \"hello\"" == "He said " + ['"'] + "hello" + ['"'];
    assert "He said \\\"hello\\\"" == "He said " + ['\\', '"'] + "hello" + ['\\', '"'];
  }
}
