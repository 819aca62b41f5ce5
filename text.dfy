/**
 * The handful of Python `str` operations the configuration overlay and the
 * endpoint rewriting rely on: `str.replace`, `str.lower`, `str.upper`,
 * `str.split` and `str.join`, each with Python's semantics on the cases the
 * source can reach (scanning left to right, non-overlapping matches).
 */
module Text {

  /** `s.startswith(p)`. */
  predicate StartsWith(s: string, p: string) {
    |p| <= |s| && s[..|p|] == p
  }

  /** `p in s`: `p` occurs as a contiguous piece of `s`. */
  predicate Occurs(s: string, p: string) {
    exists i :: 0 <= i <= |s| && StartsWith(s[i..], p)
  }

  /**
   * `s.replace(pat, rep)`: every non-overlapping occurrence of `pat`, found
   * left to right, is replaced by `rep`.  With an empty `pat` Python inserts
   * `rep` before every character and once more at the end.
   */
  function ReplaceAll(s: string, pat: string, rep: string): string
    decreases |s|
  {
    if |pat| == 0 then
      if |s| == 0 then rep else rep + [s[0]] + ReplaceAll(s[1..], pat, rep)
    else if |s| == 0 then ""
    else if StartsWith(s, pat) then rep + ReplaceAll(s[|pat|..], pat, rep)
    else [s[0]] + ReplaceAll(s[1..], pat, rep)
  }

  /** `s.split(sep)` for a non-empty separator: never an empty list. */
  function Split(s: string, sep: string): (parts: seq<string>)
    requires |sep| > 0
    ensures |parts| >= 1
    decreases |s|
  {
    if |s| == 0 then [""]
    else if StartsWith(s, sep) then [""] + Split(s[|sep|..], sep)
    else
      var rest := Split(s[1..], sep);
      [[s[0]] + rest[0]] + rest[1..]
  }

  /** `sep.join(parts)`. */
  function Join(parts: seq<string>, sep: string): string
    decreases |parts|
  {
    if |parts| == 0 then ""
    else if |parts| == 1 then parts[0]
    else parts[0] + sep + Join(parts[1..], sep)
  }

  /** `c.lower()` on ASCII; other characters are left as they are. */
  function LowerChar(c: char): char {
    if 'A' <= c <= 'Z' then (c as int + 32) as char else c
  }

  /** `c.upper()` on ASCII; other characters are left as they are. */
  function UpperChar(c: char): char {
    if 'a' <= c <= 'z' then (c as int - 32) as char else c
  }

  /** `s.lower()`: character by character, length preserved. */
  function Lower(s: string): (r: string)
    ensures |r| == |s|
    ensures forall i :: 0 <= i < |s| ==> r[i] == LowerChar(s[i])
    decreases |s|
  {
    if |s| == 0 then "" else [LowerChar(s[0])] + Lower(s[1..])
  }

  /** `s.upper()`: character by character, length preserved, no lower-case ASCII letter left. */
  function Upper(s: string): (r: string)
    ensures |r| == |s|
    ensures forall i :: 0 <= i < |s| ==> r[i] == UpperChar(s[i])
    ensures forall i :: 0 <= i < |r| ==> !('a' <= r[i] <= 'z')
    decreases |s|
  {
    if |s| == 0 then "" else [UpperChar(s[0])] + Upper(s[1..])
  }

  /** Joining the pieces of a split with the same separator gives the string back. */
  lemma {:induction false} JoinSplit(s: string, sep: string)
    requires |sep| > 0
    ensures Join(Split(s, sep), sep) == s
    decreases |s|
  {
    if |s| == 0 {
    } else if StartsWith(s, sep) {
      JoinSplit(s[|sep|..], sep);
      assert s == sep + s[|sep|..];
    } else {
      JoinSplit(s[1..], sep);
      var rest := Split(s[1..], sep);
      JoinCons(s[0], rest, sep);
      assert s == [s[0]] + s[1..];
    }
  }

  /** Prepending a character to the first piece prepends it to the joined string. */
  lemma JoinCons(c: char, parts: seq<string>, sep: string)
    requires |parts| >= 1
    ensures Join([[c] + parts[0]] + parts[1..], sep) == [c] + Join(parts, sep)
  {
    var ps := [[c] + parts[0]] + parts[1..];
    if |parts| > 1 {
      assert ps[1..] == parts[1..];
    }
  }

  /** No piece of a split contains the separator. */
  lemma {:induction false} SplitPiecesAvoidSeparator(s: string, sep: string)
    requires |sep| > 0
    ensures forall j :: 0 <= j < |Split(s, sep)| ==> !Occurs(Split(s, sep)[j], sep)
    decreases |s|
  {
    if |s| == 0 {
      assert !StartsWith("", sep);
    } else if StartsWith(s, sep) {
      SplitPiecesAvoidSeparator(s[|sep|..], sep);
      var parts := Split(s, sep);
      forall j | 0 <= j < |parts| ensures !Occurs(parts[j], sep) {
        if j == 0 {
          assert !StartsWith("", sep);
        } else {
          assert parts[j] == Split(s[|sep|..], sep)[j - 1];
        }
      }
    } else {
      SplitPiecesAvoidSeparator(s[1..], sep);
      var rest := Split(s[1..], sep);
      var parts := Split(s, sep);
      forall j | 0 <= j < |parts| ensures !Occurs(parts[j], sep) {
        if j == 0 {
          JoinSplit(s[1..], sep);
          SplitHeadIsPrefix(s[1..], sep);
          NoOccurrenceAfterHead(s, rest[0], sep);
        } else {
          assert parts[j] == rest[j];
        }
      }
    }
  }

  /** The first piece of a split is a prefix of the string. */
  lemma {:induction false} SplitHeadIsPrefix(s: string, sep: string)
    requires |sep| > 0
    ensures StartsWith(s, Split(s, sep)[0])
    decreases |s|
  {
    if |s| == 0 {
    } else if StartsWith(s, sep) {
    } else {
      SplitHeadIsPrefix(s[1..], sep);
    }
  }

  /** If `s` does not start with `sep`, and `h` (a prefix of `s[1..]`) avoids `sep`, so does `[s[0]] + h`. */
  lemma NoOccurrenceAfterHead(s: string, h: string, sep: string)
    requires |s| > 0 && |sep| > 0
    requires !StartsWith(s, sep)
    requires StartsWith(s[1..], h)
    requires !Occurs(h, sep)
    ensures !Occurs([s[0]] + h, sep)
  {
    var x := [s[0]] + h;
    forall i | 0 <= i <= |x| ensures !StartsWith(x[i..], sep) {
      if i == 0 {
        assert x[i..] == x;
      } else {
        assert x[i..] == h[i - 1..];
      }
    }
  }

  /** With a non-empty pattern, `replace` is `split` followed by `join`. */
  lemma {:induction false} ReplaceIsSplitJoin(s: string, pat: string, rep: string)
    requires |pat| > 0
    ensures ReplaceAll(s, pat, rep) == Join(Split(s, pat), rep)
    decreases |s|
  {
    if |s| == 0 {
    } else if StartsWith(s, pat) {
      ReplaceIsSplitJoin(s[|pat|..], pat, rep);
    } else {
      ReplaceIsSplitJoin(s[1..], pat, rep);
      JoinCons(s[0], Split(s[1..], pat), rep);
    }
  }

  /** A leading occurrence is the first one replaced. */
  lemma ReplaceLeading(s: string, pat: string, rep: string)
    requires |pat| > 0
    ensures ReplaceAll(pat + s, pat, rep) == rep + ReplaceAll(s, pat, rep)
  {
    assert StartsWith(pat + s, pat);
    assert (pat + s)[|pat|..] == s;
  }

  /** A string in which the pattern does not occur is left unchanged. */
  lemma {:induction false} ReplaceAbsent(s: string, pat: string, rep: string)
    requires |pat| > 0
    requires !Occurs(s, pat)
    ensures ReplaceAll(s, pat, rep) == s
    decreases |s|
  {
    if |s| > 0 {
      assert !StartsWith(s[0..], pat);
      assert s[0..] == s;
      assert !Occurs(s[1..], pat) by {
        forall i | 0 <= i <= |s[1..]| ensures !StartsWith(s[1..][i..], pat) {
          assert s[1..][i..] == s[i + 1..];
        }
      }
      ReplaceAbsent(s[1..], pat, rep);
    }
  }

  /** No occurrence of `pat` starts before index `n` of `s`. */
  predicate NoMatchBefore(s: string, pat: string, n: nat) {
    forall i :: 0 <= i < n && i <= |s| ==> !StartsWith(s[i..], pat)
  }

  /** A stretch of `s` in which no occurrence starts is copied through unchanged. */
  lemma {:induction false} ReplaceSkipsPrefix(s: string, pat: string, rep: string, n: nat)
    requires |pat| > 0 && n <= |s|
    requires NoMatchBefore(s, pat, n)
    ensures ReplaceAll(s, pat, rep) == s[..n] + ReplaceAll(s[n..], pat, rep)
    decreases n
  {
    if n > 0 {
      assert !StartsWith(s, pat) by {
        assert s[0..] == s;
      }
      NoMatchBeforeTail(s, pat, n);
      ReplaceSkipsPrefix(s[1..], pat, rep, n - 1);
      calc {
        ReplaceAll(s, pat, rep);
        [s[0]] + ReplaceAll(s[1..], pat, rep);
        [s[0]] + (s[1..][..n - 1] + ReplaceAll(s[1..][n - 1..], pat, rep));
        { assert s[1..][n - 1..] == s[n..]; assert s[..n] == [s[0]] + s[1..][..n - 1]; }
        s[..n] + ReplaceAll(s[n..], pat, rep);
      }
    }
  }

  /** Dropping the first character keeps the guarantee for the remaining `n - 1` positions. */
  lemma NoMatchBeforeTail(s: string, pat: string, n: nat)
    requires 0 < n <= |s|
    requires NoMatchBefore(s, pat, n)
    ensures NoMatchBefore(s[1..], pat, n - 1)
  {
    forall i | 0 <= i < n - 1 && i <= |s[1..]| ensures !StartsWith(s[1..][i..], pat) {
      assert s[1..][i..] == s[i + 1..];
    }
  }

  /**
   * An occurrence of `pat` right after `a` is replaced, with `a` and `b` kept,
   * when no earlier occurrence starts inside `a` and none lies in `b`.
   */
  lemma ReplaceBetween(a: string, pat: string, b: string, rep: string)
    requires |pat| > 0
    requires NoMatchBefore(a + pat + b, pat, |a|)
    requires !Occurs(b, pat)
    ensures ReplaceAll(a + pat + b, pat, rep) == a + rep + b
  {
    var s := a + pat + b;
    ReplaceSkipsPrefix(s, pat, rep, |a|);
    assert s[..|a|] == a;
    assert s[|a|..] == pat + b;
    ReplaceLeading(b, pat, rep);
    ReplaceAbsent(b, pat, rep);
  }

  /** Lower-casing distributes over concatenation. */
  lemma LowerConcat(a: string, b: string)
    ensures Lower(a + b) == Lower(a) + Lower(b)
  {
    assert forall i :: 0 <= i < |a + b| ==> Lower(a + b)[i] == (Lower(a) + Lower(b))[i];
  }

  /** Every character of a pattern that occurs in `s` is a character of `s`. */
  lemma OccursCarriesChars(s: string, p: string, c: char)
    requires c in p
    ensures Occurs(s, p) ==> c in s
  {
    if Occurs(s, p) {
      var i :| 0 <= i <= |s| && StartsWith(s[i..], p);
      var j :| 0 <= j < |p| && p[j] == c;
      assert s[i + j] == s[i..][..|p|][j];
    }
  }

  /** A string starting with a non-empty pattern starts with the pattern's first character. */
  lemma StartsWithHead(x: string, p: string)
    requires |p| > 0
    ensures StartsWith(x, p) ==> x[0] == p[0]
  {
    if StartsWith(x, p) {
      assert x[..|p|][0] == x[0];
    }
  }

  /** No position before `n` of `s` holds a character of `stop`, which begins `pat`. */
  lemma FirstCharBlocks(s: string, pat: string, n: nat)
    requires |pat| > 0 && n <= |s|
    requires forall i :: 0 <= i < n ==> s[i] != pat[0]
    ensures NoMatchBefore(s, pat, n)
  {
    forall i | 0 <= i < n && i <= |s| ensures !StartsWith(s[i..], pat) {
      StartsWithHead(s[i..], pat);
    }
  }

  /** Without an occurrence of the separator, `split` returns the whole string. */
  lemma {:induction false} SplitAbsent(s: string, sep: string)
    requires |sep| > 0
    requires !Occurs(s, sep)
    ensures Split(s, sep) == [s]
    decreases |s|
  {
    if |s| > 0 {
      assert !StartsWith(s, sep) by {
        assert s[0..] == s;
      }
      assert !Occurs(s[1..], sep) by {
        forall i | 0 <= i <= |s[1..]| ensures !StartsWith(s[1..][i..], sep) {
          assert s[1..][i..] == s[i + 1..];
        }
      }
      SplitAbsent(s[1..], sep);
      assert s == [s[0]] + s[1..];
    }
  }

  /** A stretch of `s` in which no occurrence starts stays in the first piece. */
  lemma {:induction false} SplitSkipsPrefix(s: string, sep: string, n: nat)
    requires |sep| > 0 && n <= |s|
    requires NoMatchBefore(s, sep, n)
    ensures Split(s, sep) == [s[..n] + Split(s[n..], sep)[0]] + Split(s[n..], sep)[1..]
    decreases n
  {
    if n > 0 {
      assert !StartsWith(s, sep) by {
        assert s[0..] == s;
      }
      NoMatchBeforeTail(s, sep, n);
      SplitSkipsPrefix(s[1..], sep, n - 1);
      assert s[1..][n - 1..] == s[n..];
      var rest, r := Split(s[1..], sep), Split(s[n..], sep);
      assert Split(s, sep) == [[s[0]] + rest[0]] + rest[1..];
      assert rest[0] == s[1..][..n - 1] + r[0];
      assert rest[1..] == r[1..];
      assert [s[0]] + rest[0] == s[..n] + r[0];
    } else {
      assert s[0..] == s;
      assert s[..0] + Split(s, sep)[0] == Split(s, sep)[0];
    }
  }

  /** One separator between two separator-free stretches splits into exactly those two. */
  lemma SplitOnce(a: string, sep: string, b: string)
    requires |sep| > 0
    requires NoMatchBefore(a + sep + b, sep, |a|)
    requires !Occurs(b, sep)
    ensures Split(a + sep + b, sep) == [a, b]
  {
    var s := a + sep + b;
    SplitSkipsPrefix(s, sep, |a|);
    assert s[..|a|] == a;
    assert s[|a|..] == sep + b;
    assert StartsWith(sep + b, sep);
    assert (sep + b)[|sep|..] == b;
    SplitAbsent(b, sep);
    assert a + "" == a;
  }

  /** Lower-casing neither creates nor removes an underscore. */
  lemma LowerKeepsUnderscores(s: string)
    ensures '_' in Lower(s) <==> '_' in s
  {
    if '_' in s {
      var i :| 0 <= i < |s| && s[i] == '_';
      assert Lower(s)[i] == '_';
    }
    if '_' in Lower(s) {
      var i :| 0 <= i < |s| && Lower(s)[i] == '_';
      assert s[i] == '_';
    }
  }
}
