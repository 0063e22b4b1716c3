/**
 * String rules of the Kotlin code and of the SQLite queries: SQLite's ASCII case folding
 * and Kotlin's Latin-1 one, SQLite's TRIM, Kotlin's isBlank, substring containment and substringAfter.
 */
module Text {
  import opened Wrappers

  /** ASCII lower-casing of one character (SQLite's LOWER() and LIKE fold only A-Z). */
  function LowerChar(c: char): char
  {
    if 'A' <= c <= 'Z' then (c as int + 32) as char else c
  }

  function Lower(s: string): (r: string)
    ensures |r| == |s|
    ensures forall i :: 0 <= i < |s| ==> r[i] == LowerChar(s[i])
  {
    seq(|s|, i requires 0 <= i < |s| => LowerChar(s[i]))
  }

  lemma LowerSlice(s: string, i: int, j: int)
    requires 0 <= i <= j <= |s|
    ensures Lower(s[i..j]) == Lower(s)[i..j]
  {
  }

  lemma LowerConcat(a: string, b: string)
    ensures Lower(a + b) == Lower(a) + Lower(b)
  {
  }

  // ---- Kotlin's case mappings (Character.toLowerCase / toUpperCase on the JVM) ----

  /**
   * The JVM's lower-case mapping of one character: A-Z and the Latin-1 capitals
   * U+00C0-U+00DE (but not the sign U+00D7) move up by 0x20; the capitals whose small
   * forms are Latin-1 letters outside that block (U+0178, U+039C) map back to them.
   */
  function KotlinLowerChar(c: char): char
  {
    if 'A' <= c <= 'Z' || ('\U{00C0}' <= c <= '\U{00DE}' && c != '\U{00D7}') then (c as int + 32) as char
    else if c == '\U{0178}' then '\U{00FF}'
    else if c == '\U{039C}' then '\U{03BC}'
    else c
  }

  /**
   * The JVM's upper-case mapping of one character: a-z and the Latin-1 small letters
   * U+00E0-U+00FE (but not the sign U+00F7) move down by 0x20; U+00FF and the two micro
   * and mu signs have their capitals outside Latin-1.
   */
  function KotlinUpperChar(c: char): char
  {
    if 'a' <= c <= 'z' || ('\U{00E0}' <= c <= '\U{00FE}' && c != '\U{00F7}') then (c as int - 32) as char
    else if c == '\U{00FF}' then '\U{0178}'
    else if c == '\U{00B5}' || c == '\U{03BC}' then '\U{039C}'
    else c
  }

  /** Kotlin's `lowercase()`, character by character. */
  function KotlinLowercase(s: string): (r: string)
    ensures |r| == |s|
    ensures forall i :: 0 <= i < |s| ==> r[i] == KotlinLowerChar(s[i])
  {
    seq(|s|, i requires 0 <= i < |s| => KotlinLowerChar(s[i]))
  }

  /** Char.equals(other, ignoreCase = true): equal upper cases, or equal lower cases of those. */
  predicate CharEqualsIgnoreCase(a: char, b: char)
  {
    || KotlinUpperChar(a) == KotlinUpperChar(b)
    || KotlinLowerChar(KotlinUpperChar(a)) == KotlinLowerChar(KotlinUpperChar(b))
  }

  /** String.equals(other, ignoreCase = true): same length, and equal position by position. */
  predicate EqualsIgnoreCase(a: string, b: string)
  {
    |a| == |b| && forall i :: 0 <= i < |a| ==> CharEqualsIgnoreCase(a[i], b[i])
  }

  /**
   * Kotlin's Char.isWhitespace() on the JVM: Character.isWhitespace or Character.isSpaceChar,
   * that is the control characters TAB, LF, VT, FF, CR, FS, GS, RS, US and the Unicode
   * space, line and paragraph separators.
   */
  predicate IsWhitespace(c: char)
  {
    || c == '\t' || c == '\n' || c == '\U{000B}' || c == '\U{000C}' || c == '\r'
    || ('\U{001C}' <= c <= '\U{001F}')
    || c == ' ' || c == '\U{00A0}' || c == '\U{1680}'
    || ('\U{2000}' <= c <= '\U{200A}')
    || c == '\U{2028}' || c == '\U{2029}' || c == '\U{202F}' || c == '\U{205F}' || c == '\U{3000}'
  }

  /** Kotlin's isBlank(): empty or whitespace only. */
  predicate IsBlank(s: string)
  {
    forall i :: 0 <= i < |s| ==> IsWhitespace(s[i])
  }

  predicate IsPrefix(p: string, s: string)
  {
    |p| <= |s| && s[..|p|] == p
  }

  /** Kotlin's `s.contains(sub)`: `sub` occurs in `s` at some position. */
  predicate Contains(s: string, sub: string)
  {
    exists i :: 0 <= i <= |s| && IsPrefix(sub, s[i..])
  }

  lemma ContainsAt(s: string, sub: string, i: int)
    requires 0 <= i <= |s| && IsPrefix(sub, s[i..])
    ensures Contains(s, sub)
  {
  }

  /** The middle part of a concatenation occurs in it. */
  lemma ContainsMiddle(a: string, b: string, c: string)
    ensures Contains(a + b + c, b)
  {
    var s := a + b + c;
    assert s[|a|..][..|b|] == b;
    ContainsAt(s, b, |a|);
  }

  /** The index of the first occurrence of `c` in `s`, if any. */
  function IndexOf(s: string, c: char): (r: Option<nat>)
    ensures r.None? <==> c !in s
    ensures r.Some? ==> r.value < |s| && s[r.value] == c && c !in s[..r.value]
  {
    if s == [] then None
    else if s[0] == c then Some(0)
    else
      match IndexOf(s[1..], c)
      case None => None
      case Some(k) => assert s[..k + 1] == [s[0]] + s[1..][..k]; Some(k + 1)
  }

  /** Kotlin's `s.substringAfter(delimiter, missing)` for a one-character delimiter. */
  function SubstringAfter(s: string, delimiter: char, missing: string): string
  {
    match IndexOf(s, delimiter)
    case None => missing
    case Some(k) => s[k + 1..]
  }

  /** What follows the first delimiter of `a + [delimiter] + b`, when `a` holds none, is `b`. */
  lemma SubstringAfterSplit(a: string, delimiter: char, b: string, missing: string)
    requires delimiter !in a
    ensures SubstringAfter(a + [delimiter] + b, delimiter, missing) == b
  {
    var s := a + [delimiter] + b;
    assert s[..|a|] == a;
    assert s[|a|] == delimiter;
    var k := IndexOf(s, delimiter).value;
    assert k == |a|;
    assert s[|a| + 1..] == b;
  }

  /** SQLite's one-argument TRIM(X): strips the space character (and only it) from both ends. */
  function SqlTrim(s: string): string
  {
    TrimTrailingSpaces(TrimLeadingSpaces(s))
  }

  function TrimLeadingSpaces(s: string): string
  {
    if |s| > 0 && s[0] == ' ' then TrimLeadingSpaces(s[1..]) else s
  }

  function TrimTrailingSpaces(s: string): string
  {
    if |s| > 0 && s[|s| - 1] == ' ' then TrimTrailingSpaces(s[..|s| - 1]) else s
  }

  predicate AllSpaces(s: string)
  {
    forall i :: 0 <= i < |s| ==> s[i] == ' '
  }

  lemma {:induction false} TrimLeadingShape(s: string)
    ensures var t := TrimLeadingSpaces(s);
      |t| <= |s| && t == s[|s| - |t|..] && AllSpaces(s[..|s| - |t|]) && (t == [] || t[0] != ' ')
  {
    if |s| > 0 && s[0] == ' ' {
      TrimLeadingShape(s[1..]);
      var t := TrimLeadingSpaces(s[1..]);
      assert s[1..][..|s| - 1 - |t|] == s[1..|s| - |t|];
      assert s[|s| - |t|..] == s[1..][|s| - 1 - |t|..];
    }
  }

  lemma {:induction false} TrimTrailingShape(s: string)
    ensures var t := TrimTrailingSpaces(s);
      |t| <= |s| && t == s[..|t|] && AllSpaces(s[|t|..]) && (t == [] || t[|t| - 1] != ' ')
  {
    if |s| > 0 && s[|s| - 1] == ' ' {
      var u := s[..|s| - 1];
      TrimTrailingShape(u);
      var t := TrimTrailingSpaces(u);
      assert u[..|t|] == s[..|t|];
      forall i | |t| <= i < |s| ensures s[i] == ' ' {
        if i < |s| - 1 {
          assert s[i] == u[|t|..][i - |t|];
        }
      }
    }
  }

  /**
   * SQLite's TRIM removes exactly the surrounding spaces: the result is a slice of the
   * input with only spaces around it, and it neither starts nor ends with a space.
   */
  lemma SqlTrimShape(s: string)
    ensures var t := SqlTrim(s);
      exists i :: 0 <= i <= |s| - |t| && s[i..i + |t|] == t && AllSpaces(s[..i]) && AllSpaces(s[i + |t|..])
    ensures var t := SqlTrim(s); t == [] || (t[0] != ' ' && t[|t| - 1] != ' ')
  {
    TrimLeadingShape(s);
    var u := TrimLeadingSpaces(s);
    TrimTrailingShape(u);
    var t := TrimTrailingSpaces(u);
    var i := |s| - |u|;
    assert s[i..i + |t|] == u[..|t|];
    assert s[i + |t|..] == u[|t|..];
  }

  lemma {:induction false} TrimTrailingAppendSpace(s: string)
    ensures TrimTrailingSpaces(s + [' ']) == TrimTrailingSpaces(s)
  {
    assert (s + [' '])[..|s|] == s;
  }

  lemma {:induction false} TrimLeadingAppendSpace(s: string)
    ensures TrimLeadingSpaces(s + [' ']) == if AllSpaces(s) then [] else TrimLeadingSpaces(s) + [' ']
  {
    if |s| == 0 {
      assert TrimLeadingSpaces([' ']) == TrimLeadingSpaces([]);
    } else if s[0] == ' ' {
      assert (s + [' '])[1..] == s[1..] + [' '];
      TrimLeadingAppendSpace(s[1..]);
      assert AllSpaces(s) <==> AllSpaces(s[1..]) by {
        if AllSpaces(s[1..]) {
          forall i | 0 <= i < |s| ensures s[i] == ' ' {
            if i > 0 { assert s[i] == s[1..][i - 1]; }
          }
        }
      }
    } else {
      assert (s + [' '])[0] == s[0];
    }
  }

  lemma {:induction false} TrimTrailingAllSpaces(s: string)
    requires AllSpaces(s)
    ensures TrimTrailingSpaces(s) == []
  {
    if |s| > 0 {
      TrimTrailingAllSpaces(s[..|s| - 1]);
    }
  }

  lemma {:induction false} TrimLeadingAllSpaces(s: string)
    requires AllSpaces(s)
    ensures TrimLeadingSpaces(s) == []
  {
    if |s| > 0 {
      TrimLeadingAllSpaces(s[1..]);
    }
  }

  /** A trailing space makes no difference to SQLite's TRIM. */
  lemma SqlTrimAppendSpace(s: string)
    ensures SqlTrim(s + [' ']) == SqlTrim(s)
  {
    TrimLeadingAppendSpace(s);
    if AllSpaces(s) {
      TrimLeadingAllSpaces(s);
    } else {
      TrimTrailingAppendSpace(TrimLeadingSpaces(s));
    }
  }

  lemma LowerAppendSpace(s: string)
    ensures Lower(s + [' ']) == Lower(s) + [' ']
  {
  }

  /** Every character is in the 7-bit ASCII range, where all the case foldings here agree. */
  predicate IsAscii(s: string)
  {
    forall i :: 0 <= i < |s| ==> s[i] < '\U{0080}'
  }

  predicate IsAsciiDigit(c: char)
  {
    '0' <= c <= '9'
  }

  /** On ASCII text, Kotlin's lowercase() and SQLite's LOWER() agree. */
  lemma KotlinLowercaseAscii(s: string)
    requires IsAscii(s)
    ensures KotlinLowercase(s) == Lower(s)
  {
  }

  /** On ASCII text, Kotlin's ignore-case equality is equality after SQLite's LOWER(). */
  lemma EqualsIgnoreCaseAscii(a: string, b: string)
    requires IsAscii(a) && IsAscii(b)
    ensures EqualsIgnoreCase(a, b) <==> Lower(a) == Lower(b)
  {
    if EqualsIgnoreCase(a, b) {
      forall i | 0 <= i < |a| ensures Lower(a)[i] == Lower(b)[i] {
        assert CharEqualsIgnoreCase(a[i], b[i]);
      }
    } else if Lower(a) == Lower(b) {
      forall i | 0 <= i < |a| ensures CharEqualsIgnoreCase(a[i], b[i]) {
        assert LowerChar(a[i]) == LowerChar(b[i]);
      }
    }
  }

  /**
   * Beyond ASCII the two foldings part: Kotlin pairs the capital and small e acute,
   * SQLite's TRIM(LOWER()) keeps them apart.
   */
  lemma AccentedCaseVariant()
    ensures EqualsIgnoreCase("\U{00C9}cole", "\U{00E9}cole")
    ensures SqlTrim(Lower("\U{00C9}cole")) != SqlTrim(Lower("\U{00E9}cole"))
  {
    var upper, lower := Lower("\U{00C9}cole"), Lower("\U{00E9}cole");
    assert upper[0] == '\U{00C9}' && lower[0] == '\U{00E9}';
    assert SqlTrim(upper) == upper && SqlTrim(lower) == lower;
    assert CharEqualsIgnoreCase('\U{00C9}', '\U{00E9}');
  }
}
