/**
 * Identifier rules of the Aralia fault-tree language.
 *
 * A name is an ASCII letter or underscore followed by word characters
 * (letters, digits, underscore), where single dashes may separate groups of
 * word characters: no whitespace, no period, no leading digit, no trailing
 * dash and no doubled dash.  Names are compared without regard to case.
 */
module Names {

  predicate IsLetter(c: char) { 'a' <= c <= 'z' || 'A' <= c <= 'Z' }

  predicate IsDigit(c: char) { '0' <= c <= '9' }

  predicate IsWordChar(c: char) { IsLetter(c) || IsDigit(c) || c == '_' }

  /** The name rule stated declaratively, one clause per restriction. */
  ghost predicate WellFormedName(s: string) {
    && |s| > 0
    && (IsLetter(s[0]) || s[0] == '_')
    && (forall i :: 0 <= i < |s| ==> IsWordChar(s[i]) || s[i] == '-')
    && s[|s| - 1] != '-'
    && (forall i :: 0 <= i < |s| - 1 ==> !(s[i] == '-' && s[i + 1] == '-'))
  }

  /**
   * Scanner for the part of a name after its first character;
   * `afterDash` records that the previous character was a dash.
   */
  function MatchTail(s: string, afterDash: bool): bool
    decreases |s|
  {
    if s == [] then !afterDash
    else if IsWordChar(s[0]) then MatchTail(s[1..], false)
    else s[0] == '-' && !afterDash && MatchTail(s[1..], true)
  }

  /** The check the translator applies to every name it reads. */
  function IsValidName(s: string): bool {
    |s| > 0 && (IsLetter(s[0]) || s[0] == '_') && MatchTail(s[1..], false)
  }

  /** What the tail scanner accepts, stated without the scanner. */
  ghost predicate TailShape(s: string, afterDash: bool) {
    && (forall i :: 0 <= i < |s| ==> IsWordChar(s[i]) || s[i] == '-')
    && (forall i :: 0 <= i < |s| - 1 ==> !(s[i] == '-' && s[i + 1] == '-'))
    && (|s| == 0 ==> !afterDash)
    && (|s| > 0 ==> s[|s| - 1] != '-')
    && (|s| > 0 && afterDash ==> s[0] != '-')
  }

  lemma {:induction false} MatchTailShape(s: string, afterDash: bool)
    ensures MatchTail(s, afterDash) <==> TailShape(s, afterDash)
    decreases |s|
  {
    if s != [] {
      MatchTailShape(s[1..], s[0] == '-');
      if IsWordChar(s[0]) {
        MatchTailShape(s[1..], false);
        if TailShape(s[1..], false) {
          forall i | 0 <= i < |s| - 1
            ensures !(s[i] == '-' && s[i + 1] == '-')
          {
            if i > 0 { assert s[i] == s[1..][i - 1] && s[i + 1] == s[1..][i]; }
          }
        }
      } else if s[0] == '-' {
        if TailShape(s[1..], true) {
          forall i | 0 <= i < |s| - 1
            ensures !(s[i] == '-' && s[i + 1] == '-')
          {
            if i > 0 { assert s[i] == s[1..][i - 1] && s[i + 1] == s[1..][i]; }
          }
        }
        if TailShape(s, afterDash) && |s| > 1 {
          assert s[1] != '-';
        }
      }
      if TailShape(s, afterDash) {
        assert forall i :: 0 <= i < |s[1..]| ==> s[1..][i] == s[i + 1];
      }
    }
  }

  /** The scanner accepts exactly the well-formed names. */
  lemma NameCheckCorrect(s: string)
    ensures IsValidName(s) <==> WellFormedName(s)
  {
    if |s| > 0 && (IsLetter(s[0]) || s[0] == '_') {
      MatchTailShape(s[1..], false);
      assert forall i :: 0 <= i < |s[1..]| ==> s[1..][i] == s[i + 1];
      if TailShape(s[1..], false) {
        forall i | 0 <= i < |s| - 1
          ensures !(s[i] == '-' && s[i + 1] == '-')
        {
          if i > 0 { assert s[i] == s[1..][i - 1] && s[i + 1] == s[1..][i]; }
        }
      }
    }
  }

  function LowerChar(c: char): char {
    if 'A' <= c <= 'Z' then (c as int - 'A' as int + 'a' as int) as char else c
  }

  /** The normalised form under which names are compared. */
  function Key(s: string): (k: string)
    ensures |k| == |s|
    ensures forall i :: 0 <= i < |s| ==> k[i] == LowerChar(s[i])
  {
    seq(|s|, i requires 0 <= i < |s| => LowerChar(s[i]))
  }

  /** Case-insensitive name equality, character by character. */
  predicate SameName(a: string, b: string)
    decreases |a|
  {
    |a| == |b| && (a == [] || (LowerChar(a[0]) == LowerChar(b[0]) && SameName(a[1..], b[1..])))
  }

  lemma {:induction false} SameNameIsKeyEquality(a: string, b: string)
    ensures SameName(a, b) <==> Key(a) == Key(b)
    decreases |a|
  {
    if |a| == |b| && a != [] {
      SameNameIsKeyEquality(a[1..], b[1..]);
      if Key(a) == Key(b) {
        assert Key(a[1..]) == Key(b[1..]) by {
          forall i | 0 <= i < |a| - 1 ensures Key(a[1..])[i] == Key(b[1..])[i] {
            assert Key(a)[i + 1] == Key(b)[i + 1];
          }
        }
      }
      if SameName(a, b) {
        assert Key(a) == Key(b) by {
          forall i | 0 <= i < |a| ensures Key(a)[i] == Key(b)[i] {
            if i > 0 { assert Key(a[1..])[i - 1] == Key(b[1..])[i - 1]; }
          }
        }
      }
    }
  }

  /** Case-insensitive equality is an equivalence relation. */
  lemma {:induction false} SameNameEquivalence(a: string, b: string, c: string)
    ensures SameName(a, a)
    ensures SameName(a, b) ==> SameName(b, a)
    ensures SameName(a, b) && SameName(b, c) ==> SameName(a, c)
  {
    SameNameIsKeyEquality(a, a);
    SameNameIsKeyEquality(a, b);
    SameNameIsKeyEquality(b, a);
    SameNameIsKeyEquality(b, c);
    SameNameIsKeyEquality(a, c);
  }
}
