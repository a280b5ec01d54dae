/**
 * The two java.lang.String operations the game's decision logic relies on:
 * equalsIgnoreCase (header names, HTTP methods, "true", "q") and contains
 * (the client's test of the join reply).  Case mapping is modelled for the
 * ASCII letters only.
 */
module Text {

  function UpperChar(c: char): (d: char)
    ensures !('a' <= d <= 'z')
    ensures 'a' <= c <= 'z' ==> d as int == c as int - 32
    ensures !('a' <= c <= 'z') ==> d == c
  {
    if 'a' <= c <= 'z' then (c as int - 32) as char else c
  }

  function LowerChar(c: char): (d: char)
    ensures !('A' <= d <= 'Z')
    ensures 'A' <= c <= 'Z' ==> d as int == c as int + 32
    ensures !('A' <= c <= 'Z') ==> d == c
  {
    if 'A' <= c <= 'Z' then (c as int + 32) as char else c
  }

  /** String.regionMatches(ignoreCase = true) on one pair of characters. */
  predicate CharsMatch(c1: char, c2: char) {
    c1 == c2 || UpperChar(c1) == UpperChar(c2) || LowerChar(UpperChar(c1)) == LowerChar(UpperChar(c2))
  }

  function Lower(s: string): (t: string)
    ensures |t| == |s|
    ensures forall i :: 0 <= i < |s| ==> t[i] == LowerChar(s[i])
  {
    seq(|s|, i requires 0 <= i < |s| => LowerChar(s[i]))
  }

  /** String.equalsIgnoreCase: equal lengths and every pair of characters matches. */
  predicate EqualsIgnoreCase(a: string, b: string)
    decreases |a|
  {
    |a| == |b| && (a == [] || (CharsMatch(a[0], b[0]) && EqualsIgnoreCase(a[1..], b[1..])))
  }

  /** Two characters match exactly when they have the same lower-case form. */
  lemma CharsMatchIff(c1: char, c2: char)
    ensures CharsMatch(c1, c2) <==> LowerChar(c1) == LowerChar(c2)
  {
  }

  /** equalsIgnoreCase compares the lower-case forms. */
  lemma {:induction false} EqualsIgnoreCaseIff(a: string, b: string)
    ensures EqualsIgnoreCase(a, b) <==> Lower(a) == Lower(b)
    decreases |a|
  {
    if |a| == |b| && a != [] {
      EqualsIgnoreCaseIff(a[1..], b[1..]);
      CharsMatchIff(a[0], b[0]);
      LowerCons(a);
      LowerCons(b);
    }
  }

  lemma LowerCons(s: string)
    requires s != []
    ensures Lower(s) == [LowerChar(s[0])] + Lower(s[1..])
  {
  }

  lemma EqualsIgnoreCaseEquivalence(a: string, b: string, c: string)
    ensures EqualsIgnoreCase(a, a)
    ensures EqualsIgnoreCase(a, b) ==> EqualsIgnoreCase(b, a)
    ensures EqualsIgnoreCase(a, b) && EqualsIgnoreCase(b, c) ==> EqualsIgnoreCase(a, c)
  {
    EqualsIgnoreCaseIff(a, a);
    EqualsIgnoreCaseIff(a, b);
    EqualsIgnoreCaseIff(b, a);
    EqualsIgnoreCaseIff(b, c);
    EqualsIgnoreCaseIff(a, c);
  }

  /** The quit test of the column prompt accepts exactly "q" and "Q". */
  lemma QuitWord(s: string)
    ensures EqualsIgnoreCase(s, "q") <==> s == "q" || s == "Q"
  {
    EqualsIgnoreCaseIff(s, "q");
    if Lower(s) == Lower("q") {
      assert LowerChar(s[0]) == 'q';
    }
  }

  /** Strings that differ ignoring case at some position are not equal ignoring case. */
  lemma DifferAt(a: string, b: string, i: int)
    requires 0 <= i < |a| && 0 <= i < |b| && LowerChar(a[i]) != LowerChar(b[i])
    ensures !EqualsIgnoreCase(a, b)
  {
    EqualsIgnoreCaseIff(a, b);
    assert Lower(a)[i] != Lower(b)[i];
  }

  /** t occurs in s at offset i. */
  predicate OccursAt(s: string, t: string, i: int) {
    0 <= i <= |s| - |t| && s[i..i + |t|] == t
  }

  predicate StartsWith(s: string, t: string) {
    |t| <= |s| && s[..|t|] == t
  }

  /** String.contains: t occurs in s at some offset, tried from the left. */
  predicate Contains(s: string, t: string)
    decreases |s|
  {
    StartsWith(s, t) || (s != [] && Contains(s[1..], t))
  }

  lemma {:induction false} ContainsAt(s: string, t: string, i: int)
    requires OccursAt(s, t, i)
    ensures Contains(s, t)
    decreases i
  {
    if i > 0 {
      assert s[1..][i - 1..i - 1 + |t|] == t;
      ContainsAt(s[1..], t, i - 1);
    }
  }

  lemma {:induction false} ContainsWitness(s: string, t: string) returns (i: int)
    requires Contains(s, t)
    ensures OccursAt(s, t, i)
    decreases |s|
  {
    if StartsWith(s, t) {
      i := 0;
    } else {
      var j := ContainsWitness(s[1..], t);
      assert s[1..][j..j + |t|] == s[j + 1..j + 1 + |t|];
      i := j + 1;
    }
  }

  /** contains holds exactly when t occurs at some offset of s. */
  lemma ContainsIff(s: string, t: string)
    ensures Contains(s, t) <==> exists i :: OccursAt(s, t, i)
  {
    if Contains(s, t) {
      var i := ContainsWitness(s, t);
    }
    if exists i :: OccursAt(s, t, i) {
      var i :| OccursAt(s, t, i);
      ContainsAt(s, t, i);
    }
  }

  /** Whatever surrounds t, the whole contains t. */
  lemma ContainsInfix(a: string, t: string, b: string)
    ensures Contains(a + t + b, t)
  {
    assert OccursAt(a + t + b, t, |a|);
    ContainsAt(a + t + b, t, |a|);
  }

  /** What occurs in part of a string occurs in the string. */
  lemma ContainsOfPart(a: string, m: string, b: string, t: string)
    requires Contains(m, t)
    ensures Contains(a + m + b, t)
  {
    var i := ContainsWitness(m, t);
    assert (a + m + b)[|a| + i..|a| + i + |t|] == m[i..i + |t|];
    assert OccursAt(a + m + b, t, |a| + i);
    ContainsAt(a + m + b, t, |a| + i);
  }
}
