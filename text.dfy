/** Character classes and string operations the locator code takes from Python's
    `re` module and `str` methods, restricted to ASCII. */
module Text {

  /** Python's `\w` on ASCII: letters, digits and underscore. */
  predicate IsWordChar(c: char) {
    ('a' <= c <= 'z') || ('A' <= c <= 'Z') || ('0' <= c <= '9') || c == '_'
  }

  predicate AllWord(s: string) {
    forall i :: 0 <= i < |s| ==> IsWordChar(s[i])
  }

  /** `re.sub(r"\W+", "", s)`: every run of non-word characters is deleted.
      What is left is made of word characters only, and every word character
      of `s` survives, as often as it occurs in `s`. */
  function Normalize(s: string): (r: string)
    ensures AllWord(r)
    ensures |r| <= |s|
    ensures forall c :: IsWordChar(c) ==> multiset(r)[c] == multiset(s)[c]
  {
    if s == [] then []
    else
      assert s == [s[0]] + s[1..];
      (if IsWordChar(s[0]) then [s[0]] else []) + Normalize(s[1..])
  }

  /** A string of word characters only is left as it is. */
  lemma {:induction false} NormalizeFixesWords(s: string)
    requires AllWord(s)
    ensures Normalize(s) == s
  {
    if s != [] {
      assert AllWord(s[1..]) by {
        forall i | 0 <= i < |s[1..]| ensures IsWordChar(s[1..][i]) {
          assert s[1..][i] == s[i + 1];
        }
      }
      NormalizeFixesWords(s[1..]);
    }
  }

  /** Deleting runs in place keeps the order of what is left: the key of a
      concatenation is the concatenation of the keys. */
  lemma {:induction false} NormalizeConcat(a: string, b: string)
    ensures Normalize(a + b) == Normalize(a) + Normalize(b)
    decreases |a|
  {
    if a == [] {
      assert a + b == b;
    } else {
      assert (a + b)[0] == a[0];
      assert (a + b)[1..] == a[1..] + b;
      NormalizeConcat(a[1..], b);
    }
  }

  /** A single character is kept exactly when it is a word character. */
  lemma NormalizeChar(c: char)
    ensures Normalize([c]) == if IsWordChar(c) then [c] else []
  {
    assert [c][1..] == [];
  }

  /** Normalising a normalised key changes nothing. */
  lemma NormalizeIdempotent(s: string)
    ensures Normalize(Normalize(s)) == Normalize(s)
  {
    NormalizeFixesWords(Normalize(s));
  }

  /** The run that `re.match(r"(\w+)", s)` captures: the longest prefix of
      word characters (empty when `s` does not start with one, where the
      match fails). */
  function LeadingWord(s: string): (r: string)
    ensures |r| <= |s| && r == s[..|r|]
    ensures AllWord(r)
    ensures |r| < |s| ==> !IsWordChar(s[|r|])
  {
    if s != [] && IsWordChar(s[0]) then [s[0]] + LeadingWord(s[1..]) else []
  }

  /** The leading run of `w + rest` is `w` when `w` is all word characters and
      `rest` does not continue it. */
  lemma LeadingWordOf(w: string, rest: string)
    requires AllWord(w)
    requires rest == [] || !IsWordChar(rest[0])
    ensures LeadingWord(w + rest) == w
  {
    var r := LeadingWord(w + rest);
    assert r == (w + rest)[..|w|] == w;
  }

  /** ASCII part of Python's `str.lower`. */
  function LowerChar(c: char): char {
    if 'A' <= c <= 'Z' then (c as int - 'A' as int + 'a' as int) as char else c
  }

  /** No capital letter is left, and every other character stays where it was. */
  function Lower(s: string): (r: string)
    ensures |r| == |s|
    ensures forall i :: 0 <= i < |s| ==> r[i] == LowerChar(s[i])
    ensures forall i :: 0 <= i < |r| ==> !('A' <= r[i] <= 'Z')
    ensures forall i :: 0 <= i < |s| && !('A' <= s[i] <= 'Z') ==> r[i] == s[i]
  {
    seq(|s|, i requires 0 <= i < |s| => LowerChar(s[i]))
  }

  /** A string without capital letters is its own lower-case form. */
  lemma LowerFixesLowercase(s: string)
    requires forall i :: 0 <= i < |s| ==> !('A' <= s[i] <= 'Z')
    ensures Lower(s) == s
  {
    assert forall i :: 0 <= i < |s| ==> Lower(s)[i] == s[i];
  }

  /** Lowering twice is lowering once. */
  lemma LowerIdempotent(s: string)
    ensures Lower(Lower(s)) == Lower(s)
  {
  }

  /** `t` occurs in `s` starting at position `i`. */
  ghost predicate OccursAt(s: string, t: string, i: int) {
    0 <= i && i + |t| <= |s| && s[i..i + |t|] == t
  }

  /** Python's substring test `t in s`. */
  predicate Contains(s: string, t: string)
    decreases |s|
  {
    if |t| > |s| then false else s[..|t|] == t || Contains(s[1..], t)
  }

  /** `Contains` is the substring test: both directions. */
  lemma {:induction false} ContainsIff(s: string, t: string)
    ensures Contains(s, t) <==> exists i :: OccursAt(s, t, i)
    decreases |s|
  {
    if |t| > |s| {
    } else if s[..|t|] == t {
      assert OccursAt(s, t, 0);
    } else {
      ContainsIff(s[1..], t);
      if Contains(s[1..], t) {
        var i :| OccursAt(s[1..], t, i);
        assert s[i + 1..i + 1 + |t|] == s[1..][i..i + |t|];
        assert OccursAt(s, t, i + 1);
      }
      if exists i :: OccursAt(s, t, i) {
        var i :| OccursAt(s, t, i);
        assert i != 0;
        assert s[1..][i - 1..i - 1 + |t|] == s[i..i + |t|];
        assert OccursAt(s[1..], t, i - 1);
      }
    }
  }

  /** A string built around `t` contains `t`. */
  lemma ContainsMiddle(a: string, t: string, b: string)
    ensures Contains(a + t + b, t)
  {
    var s := a + t + b;
    assert s[|a|..|a| + |t|] == t;
    assert OccursAt(s, t, |a|);
    ContainsIff(s, t);
  }
}
