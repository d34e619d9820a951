/** The two Go `strings` primitives the import pipeline relies on, with
    Go's semantics: `strings.Contains` and `strings.Split` with a
    one-character separator. Strings are sequences of characters; Go works
    on UTF-8 bytes, which gives the same answers for well-formed text. */
module GoStrings {

  /** `sub` occurs in `s` starting at position `i`. */
  predicate OccursAt(s: string, sub: string, i: int)
  {
    0 <= i <= |s| - |sub| && s[i..i + |sub|] == sub
  }

  /** `strings.Contains(s, sub)`: some window of `s` equals `sub`. */
  function Contains(s: string, sub: string): (b: bool)
    ensures b <==> exists i :: OccursAt(s, sub, i)
    decreases |s|
  {
    if |s| < |sub| then false
    else if s[..|sub|] == sub then assert OccursAt(s, sub, 0); true
    else
      var b := Contains(s[1..], sub);
      assert b ==> exists i :: OccursAt(s, sub, i) by {
        if b {
          var i :| OccursAt(s[1..], sub, i);
          assert s[1..][i..i + |sub|] == s[i + 1..i + 1 + |sub|];
          assert OccursAt(s, sub, i + 1);
        }
      }
      assert (exists i :: OccursAt(s, sub, i)) ==> b by {
        if i :| OccursAt(s, sub, i) {
          assert i != 0;
          assert s[1..][i - 1..i - 1 + |sub|] == s[i..i + |sub|];
          assert OccursAt(s[1..], sub, i - 1);
        }
      }
      b
  }

  /** A string that contains `sub` splits around one occurrence of it. */
  lemma ContainsSplits(s: string, sub: string) returns (pre: string, post: string)
    requires Contains(s, sub)
    ensures s == pre + sub + post
  {
    var i :| OccursAt(s, sub, i);
    pre, post := s[..i], s[i + |sub|..];
    assert s == s[..i] + s[i..i + |sub|] + s[i + |sub|..];
  }

  /** `strings.Split(s, string(sep))`: the pieces between separators, in
      order; the empty string splits into one empty piece. */
  function Split(s: string, sep: char): (parts: seq<string>)
    ensures |parts| >= 1
    ensures forall k :: 0 <= k < |parts| ==> sep !in parts[k]
    decreases |s|
  {
    if |s| == 0 then [""]
    else
      var rest := Split(s[1..], sep);
      if s[0] == sep then [""] + rest
      else [[s[0]] + rest[0]] + rest[1..]
  }

  /** A string without the separator is a single piece. */
  lemma {:induction false} SplitNoSeparator(s: string, sep: char)
    requires sep !in s
    ensures Split(s, sep) == [s]
  {
    if |s| > 0 {
      SplitNoSeparator(s[1..], sep);
      assert [s[0]] + s[1..] == s;
    }
  }

  /** A separator cuts exactly once: the pieces of `p + sep + q` are the
      pieces of `p` followed by the pieces of `q`. */
  lemma {:induction false} SplitAround(p: string, sep: char, q: string)
    ensures Split(p + [sep] + q, sep) == Split(p, sep) + Split(q, sep)
    decreases |p|
  {
    var s := p + [sep] + q;
    if |p| == 0 {
      assert s[1..] == q;
    } else {
      assert s[1..] == p[1..] + [sep] + q;
      SplitAround(p[1..], sep, q);
    }
  }

  /** A leading piece without the separator is the first piece. */
  lemma SplitCons(p: string, sep: char, q: string)
    requires sep !in p
    ensures Split(p + [sep] + q, sep) == [p] + Split(q, sep)
  {
    SplitNoSeparator(p, sep);
    SplitAround(p, sep, q);
  }
}
