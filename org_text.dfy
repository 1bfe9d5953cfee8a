/**
 * `cleanString`: the escaping applied to free-text fields so that they cannot
 * close org link brackets or start a new heading.
 */
module OrgText {
  import opened GoStrings

  /** `cleanString(s)`: `[` becomes `{`, then `]` becomes `}`, then every "\n*" becomes "\n,*". */
  function CleanString(s: string): string {
    ReplaceAll(ReplaceAll(ReplaceAll(s, "[", "{"), "]", "}"), "\n*", "\n,*")
  }

  /** What one character of `s` (its first) turns into, looking at the character after it. */
  function Piece(s: string): string
    requires s != []
  {
    if s[0] == '[' then "{"
    else if s[0] == ']' then "}"
    else if s[0] == '\n' && |s| > 1 && s[1] == '*' then "\n,"
    else [s[0]]
  }

  /**
   * Escaping character by character: each character is kept, except that
   * brackets turn into braces and a comma follows a newline that precedes `*`.
   */
  function Escaped(s: string): string
    decreases |s|
  {
    if s == [] then [] else Piece(s) + Escaped(s[1..])
  }

  /** The single-character swap the first two replacements make. */
  function Unbracket(c: char): char {
    if c == '[' then '{' else if c == ']' then '}' else c
  }

  /** The three replacements in turn are the same as escaping character by character. */
  lemma CleanStringIsEscaped(s: string)
    ensures CleanString(s) == Escaped(s)
  {
    var m1 := ReplaceAll(s, "[", "{");
    ReplaceCharPointwise(s, '[', '{');
    var m := ReplaceAll(m1, "]", "}");
    ReplaceCharPointwise(m1, ']', '}');
    assert |m| == |s| && forall i :: 0 <= i < |s| ==> m[i] == Unbracket(s[i]);
    StarsEscaped(s, m);
  }

  /** Once the brackets are swapped, the "\n*" replacement finishes the escaping. */
  lemma {:induction false} StarsEscaped(s: string, m: string)
    requires |m| == |s| && forall i :: 0 <= i < |s| ==> m[i] == Unbracket(s[i])
    ensures ReplaceAll(m, "\n*", "\n,*") == Escaped(s)
    decreases |s|
  {
    if |m| < 2 {
      if |s| == 1 {
        assert Escaped(s) == Piece(s) + Escaped(s[1..]);
      }
    } else if m[..2] == "\n*" {
      assert m[0] == '\n' && m[1] == '*';
      StarsEscaped(s[2..], m[2..]);
      assert Escaped(s[1..]) == Piece(s[1..]) + Escaped(s[2..]);
    } else {
      assert m[..2] == [m[0], m[1]];
      StarsEscaped(s[1..], m[1..]);
    }
  }

  /** No character at all in `s` is a bracket, and no newline in `s` is followed by `*`. */
  ghost predicate Clean(s: string) {
    && (forall i :: 0 <= i < |s| ==> s[i] != '[' && s[i] != ']')
    && (forall i :: 0 <= i < |s| - 1 ==> !(s[i] == '\n' && s[i + 1] == '*'))
  }

  /** Escaping a non-empty string starts with its unbracketed first character. */
  lemma EscapedStartsWith(s: string)
    requires s != []
    ensures Escaped(s) != [] && Escaped(s)[0] == Unbracket(s[0])
  {
  }

  /** Escaped text holds no bracket and no newline followed by `*`. */
  lemma {:induction false} EscapedIsClean(s: string)
    ensures Clean(Escaped(s))
    decreases |s|
  {
    if s != [] {
      EscapedIsClean(s[1..]);
      var p, rest := Piece(s), Escaped(s[1..]);
      var r := p + rest;
      assert forall i :: |p| <= i < |r| ==> r[i] == rest[i - |p|];
      if p[|p| - 1] == '\n' && rest != [] {
        EscapedStartsWith(s[1..]);
      }
      forall i | 0 <= i < |r| - 1 ensures !(r[i] == '\n' && r[i + 1] == '*') {
        if i + 1 >= |p| && i < |p| {
          assert i == |p| - 1;
        }
      }
    }
  }

  /** Clean text passes through escaping unchanged. */
  lemma {:induction false} EscapedKeepsClean(s: string)
    requires Clean(s)
    ensures Escaped(s) == s
    decreases |s|
  {
    if s != [] {
      assert Clean(s[1..]) by {
        assert forall i :: 0 <= i < |s| - 1 ==> s[1..][i] == s[i + 1];
      }
      EscapedKeepsClean(s[1..]);
      assert s == [s[0]] + s[1..];
    }
  }

  /**
   * `cleanString` leaves no `[`, no `]` and no newline followed by `*`, and it
   * changes a string exactly when the string holds one of those.
   */
  lemma CleanStringEscapes(s: string)
    ensures Clean(CleanString(s))
    ensures CleanString(s) == s <==> Clean(s)
  {
    CleanStringIsEscaped(s);
    EscapedIsClean(s);
    if Clean(s) { EscapedKeepsClean(s); }
  }

  /** Cleaning twice gives the same as cleaning once. */
  lemma CleanStringIdempotent(s: string)
    ensures CleanString(CleanString(s)) == CleanString(s)
  {
    CleanStringEscapes(s);
    CleanStringEscapes(CleanString(s));
  }

  /** In Go's terms: the result contains none of "[", "]" and "\n*". */
  lemma CleanStringContainsNone(s: string)
    ensures !Contains(CleanString(s), "[")
    ensures !Contains(CleanString(s), "]")
    ensures !Contains(CleanString(s), "\n*")
  {
    var r := CleanString(s);
    CleanStringEscapes(s);
    ContainsAt(r, "[");
    ContainsAt(r, "]");
    ContainsAt(r, "\n*");
    forall i ensures !OccursAt(r, "\n*", i) {
      if 0 <= i < |r| - 1 {
        assert r[i..i + 2][0] == r[i] && r[i..i + 2][1] == r[i + 1];
      }
    }
    forall i ensures !OccursAt(r, "[", i) && !OccursAt(r, "]", i) {
      if 0 <= i < |r| {
        assert r[i..i + 1][0] == r[i];
      }
    }
  }

  /** Only the empty string cleans to the empty string. */
  lemma CleanStringEmpty(s: string)
    ensures CleanString(s) == "" <==> s == ""
  {
    CleanStringIsEscaped(s);
    if s != "" { EscapedStartsWith(s); }
  }
}
