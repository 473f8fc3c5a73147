/** The string operations the commands apply to user input: `str::trim`,
    `str::contains` for path separators and the lower-casing of a confirmation. */
module Text {

  /** Unicode's White_Space property, the set `str::trim` removes. */
  predicate IsWhitespace(c: char)
  {
    ('\t' <= c <= '\r') || c == ' ' || c == '\U{85}' || c == '\U{A0}' || c == '\U{1680}'
    || ('\U{2000}' <= c <= '\U{200A}') || c == '\U{2028}' || c == '\U{2029}'
    || c == '\U{202F}' || c == '\U{205F}' || c == '\U{3000}'
  }

  function TrimStart(s: string): string
  {
    if s != [] && IsWhitespace(s[0]) then TrimStart(s[1..]) else s
  }

  function TrimEnd(s: string): string
  {
    if s != [] && IsWhitespace(s[|s| - 1]) then TrimEnd(s[..|s| - 1]) else s
  }

  /** `str::trim`. */
  function Trim(s: string): string
  {
    TrimEnd(TrimStart(s))
  }

  /** Consists of whitespace only (the empty string included). */
  predicate IsBlank(s: string)
  {
    forall i | 0 <= i < |s| :: IsWhitespace(s[i])
  }

  lemma {:induction false} TrimStartBlank(s: string)
    ensures TrimStart(s) == [] <==> IsBlank(s)
    ensures TrimStart(s) != [] ==> !IsWhitespace(TrimStart(s)[0])
    ensures exists k | 0 <= k <= |s| :: TrimStart(s) == s[k..]
  {
    if s != [] && IsWhitespace(s[0]) {
      TrimStartBlank(s[1..]);
      var k :| 0 <= k <= |s[1..]| && TrimStart(s[1..]) == s[1..][k..];
      assert TrimStart(s) == s[k + 1..];
      assert IsBlank(s) <==> IsBlank(s[1..]) by {
        assert forall i | 1 <= i < |s| :: s[i] == s[1..][i - 1];
      }
    } else {
      assert TrimStart(s) == s[0..];
    }
  }

  lemma {:induction false} TrimEndBlank(s: string)
    ensures TrimEnd(s) == [] <==> IsBlank(s)
    ensures TrimEnd(s) != [] ==> !IsWhitespace(TrimEnd(s)[|TrimEnd(s)| - 1])
    ensures exists k | 0 <= k <= |s| :: TrimEnd(s) == s[..k]
  {
    if s != [] && IsWhitespace(s[|s| - 1]) {
      var init := s[..|s| - 1];
      TrimEndBlank(init);
      var k :| 0 <= k <= |init| && TrimEnd(init) == init[..k];
      assert TrimEnd(s) == s[..k];
      assert IsBlank(s) <==> IsBlank(init) by {
        assert forall i | 0 <= i < |init| :: s[i] == init[i];
      }
    } else {
      assert TrimEnd(s) == s[..|s|];
    }
  }

  /** A string trims to nothing exactly when it is blank; otherwise the
      trimmed string has no whitespace at either end. */
  lemma TrimProperties(s: string)
    ensures Trim(s) == [] <==> IsBlank(s)
    ensures Trim(s) != [] ==> !IsWhitespace(Trim(s)[0]) && !IsWhitespace(Trim(s)[|Trim(s)| - 1])
  {
    var t := TrimStart(s);
    TrimStartBlank(s);
    TrimEndBlank(t);
    if Trim(s) != [] {
      var k :| 0 <= k <= |t| && TrimEnd(t) == t[..k];
      assert Trim(s)[0] == t[0];
    }
  }

  /** `char::to_lowercase` on ASCII letters; every other character is kept. */
  function LowerAscii(c: char): char
  {
    if 'A' <= c <= 'Z' then (c as int + 32) as char else c
  }

  function LowerAsciiString(s: string): (r: string)
    ensures |r| == |s|
    ensures forall i | 0 <= i < |s| :: r[i] == LowerAscii(s[i])
  {
    if s == [] then [] else [LowerAscii(s[0])] + LowerAsciiString(s[1..])
  }

  /** The answer to "[y/N]" that lets a removal proceed:
      `confirmation.trim().to_lowercase() == "y"`. */
  predicate Confirmed(answer: string)
  {
    LowerAsciiString(Trim(answer)) == "y"
  }

  /** Exactly "y" or "Y", with any surrounding whitespace (the line's own "\n"
      included), confirms; anything else, the empty line included, declines. */
  lemma ConfirmedIff(answer: string)
    ensures Confirmed(answer) <==> Trim(answer) == "y" || Trim(answer) == "Y"
  {
    var t := Trim(answer);
    if Confirmed(answer) {
      assert |t| == 1;
      assert LowerAscii(t[0]) == 'y';
      assert t == [t[0]];
    }
  }

  lemma ConfirmationExamples()
    ensures Confirmed("y\n") && Confirmed("  Y \n")
    ensures !Confirmed("\n") && !Confirmed("yes\n") && !Confirmed("n\n")
  {
    assert Trim("y\n") == "y";
    assert TrimStart("  Y \n") == TrimStart(" Y \n") == TrimStart("Y \n") == "Y \n";
    assert TrimEnd("Y \n") == TrimEnd("Y ") == TrimEnd("Y") == "Y";
    assert Trim("yes\n") == "yes";
    assert Trim("n\n") == "n";
    assert Trim("\n") == "";
    ConfirmedIff("y\n");
    ConfirmedIff("  Y \n");
    ConfirmedIff("\n");
    ConfirmedIff("yes\n");
    ConfirmedIff("n\n");
  }

  /** `name.contains('/') || name.contains('\\')`. */
  predicate HasPathSeparator(name: string)
  {
    '/' in name || '\\' in name
  }
}
