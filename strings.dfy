/** The few Python string operations the flattener relies on: `str.split`,
    `str.replace`, `str.join`, slicing off the last character and the
    decimal rendering of a step number. */
module Strings {

  predicate StartsWith(s: string, prefix: string) {
    |prefix| <= |s| && s[..|prefix|] == prefix
  }

  predicate EndsWith(s: string, suffix: string) {
    |suffix| <= |s| && s[|s| - |suffix|..] == suffix
  }

  /** Python's `s[:-1]`: the string without its last character; empty stays empty. */
  function DropLast(s: string): (r: string)
    ensures |s| == 0 ==> r == s
    ensures |s| > 0 ==> |r| == |s| - 1 && r + [s[|s| - 1]] == s
  {
    if |s| == 0 then s else s[..|s| - 1]
  }

  /** Python's `s.split(sep)` for a non-empty separator: scanning from the left,
      each occurrence of `sep` ends the current fragment and is dropped. */
  function Split(s: string, sep: string): (parts: seq<string>)
    requires |sep| > 0
    ensures |parts| >= 1
    decreases |s|
  {
    if |s| < |sep| then [s]
    else if s[..|sep|] == sep then [""] + Split(s[|sep|..], sep)
    else
      var rest := Split(s[1..], sep);
      [[s[0]] + rest[0]] + rest[1..]
  }

  /** The first fragment is a prefix of the string. */
  lemma {:induction false} SplitFirstPrefix(s: string, sep: string)
    requires |sep| > 0
    ensures |Split(s, sep)[0]| <= |s| && Split(s, sep)[0] == s[..|Split(s, sep)[0]|]
    decreases |s|
  {
    if |s| >= |sep| && s[..|sep|] != sep {
      SplitFirstPrefix(s[1..], sep);
    }
  }

  /** The split cuts at every occurrence: no fragment contains the separator. */
  lemma {:induction false} SplitPartFree(s: string, sep: string, i: nat, j: nat)
    requires |sep| > 0 && i < |Split(s, sep)| && j + |sep| <= |Split(s, sep)[i]|
    ensures Split(s, sep)[i][j..j + |sep|] != sep
    decreases |s|
  {
    var parts := Split(s, sep);
    if |s| < |sep| {
    } else if s[..|sep|] == sep {
      var rest := Split(s[|sep|..], sep);
      assert parts == [""] + rest;
      SplitPartFree(s[|sep|..], sep, i - 1, j);
    } else {
      var rest := Split(s[1..], sep);
      assert parts == [[s[0]] + rest[0]] + rest[1..];
      if i > 0 {
        SplitPartFree(s[1..], sep, i, j);
      } else if j > 0 {
        assert parts[0][j..j + |sep|] == rest[0][j - 1..j - 1 + |sep|];
        SplitPartFree(s[1..], sep, 0, j - 1);
      } else {
        SplitFirstPrefix(s, sep);
        assert parts[0][..|sep|] == s[..|sep|];
      }
    }
  }

  /** A slice of the tail is the slice of the string one position further on. */
  lemma TailSlice(s: string, a: nat, b: nat)
    requires 1 <= a <= b <= |s|
    ensures s[1..][a - 1..b - 1] == s[a..b]
  {
  }

  /** `sep` occurs in `s` starting at position `j`. */
  predicate OccursAt(s: string, sep: string, j: nat) {
    j + |sep| <= |s| && s[j..j + |sep|] == sep
  }

  /** The first cut is an occurrence of the separator. */
  lemma {:induction false} SplitCutOccurs(s: string, sep: string)
    requires |sep| > 0 && |Split(s, sep)| > 1
    ensures OccursAt(s, sep, |Split(s, sep)[0]|)
    decreases |s|
  {
    if |s| >= |sep| && s[..|sep|] != sep {
      var t := s[1..];
      var rest := Split(t, sep);
      assert Split(s, sep) == [[s[0]] + rest[0]] + rest[1..];
      SplitCutOccurs(t, sep);
      var n := |rest[0]| + 1;
      TailSlice(s, n, n + |sep|);
    }
  }

  /** The fragments after the first cut are the split of the text after it. */
  lemma {:induction false} SplitCutRest(s: string, sep: string)
    requires |sep| > 0 && |Split(s, sep)| > 1
    ensures |Split(s, sep)[0]| + |sep| <= |s|
    ensures Split(s, sep)[1..] == Split(s[|Split(s, sep)[0]| + |sep|..], sep)
    decreases |s|
  {
    var parts := Split(s, sep);
    if |s| < |sep| {
    } else if s[..|sep|] == sep {
      assert parts[0] == "" && parts[1..] == Split(s[|sep|..], sep) by {
        assert parts == [""] + Split(s[|sep|..], sep);
      }
    } else {
      var t := s[1..];
      var rest := Split(t, sep);
      SplitCutRest(t, sep);
      var n := |rest[0]| + 1;
      assert |parts[0]| == n && parts[1..] == rest[1..] by {
        assert parts == [[s[0]] + rest[0]] + rest[1..];
      }
      var after := s[n + |sep|..];
      assert after == t[n - 1 + |sep|..] by {
        TailSlice(s, n + |sep|, |s|);
      }
      assert parts[1..] == Split(after, sep);
    }
  }

  /** No occurrence of the separator starts inside the first fragment. */
  lemma {:induction false} SplitNoEarlierCut(s: string, sep: string, j: nat)
    requires |sep| > 0 && j < |Split(s, sep)[0]|
    ensures !OccursAt(s, sep, j)
    decreases |s|
  {
    if |s| >= |sep| && s[..|sep|] != sep && j > 0 {
      var t := s[1..];
      var rest := Split(t, sep);
      assert Split(s, sep)[0] == [s[0]] + rest[0];
      SplitNoEarlierCut(t, sep, j - 1);
      if j + |sep| <= |s| {
        TailSlice(s, j, j + |sep|);
      }
    }
  }

  /** The first cut falls at the leftmost occurrence of the separator, and the
      fragments after it are the split of the text after that occurrence. */
  lemma SplitFirstCut(s: string, sep: string)
    requires |sep| > 0 && |Split(s, sep)| > 1
    ensures var f := Split(s, sep)[0];
      OccursAt(s, sep, |f|) &&
      (forall j :: 0 <= j < |f| ==> !OccursAt(s, sep, j)) &&
      Split(s, sep)[1..] == Split(s[|f| + |sep|..], sep)
  {
    SplitCutOccurs(s, sep);
    SplitCutRest(s, sep);
    forall j | 0 <= j < |Split(s, sep)[0]|
      ensures !OccursAt(s, sep, j)
    {
      SplitNoEarlierCut(s, sep, j);
    }
  }

  /** Without an occurrence of the separator the split is the whole text. */
  lemma {:induction false} SplitWithout(s: string, sep: string)
    requires |sep| > 0
    requires forall j :: 0 <= j <= |s| ==> !OccursAt(s, sep, j)
    ensures Split(s, sep) == [s]
    decreases |s|
  {
    if |s| >= |sep| {
      assert !OccursAt(s, sep, 0);
      var t := s[1..];
      forall j | 0 <= j <= |t|
        ensures !OccursAt(t, sep, j)
      {
        assert !OccursAt(s, sep, j + 1);
        if j + |sep| <= |t| {
          assert t[j..j + |sep|] == s[j + 1..j + 1 + |sep|];
        }
      }
      SplitWithout(t, sep);
      assert [s[0]] + t == s;
    }
  }

  /** The split is the whole text exactly when the separator does not occur in it. */
  lemma SplitWhole(s: string, sep: string)
    requires |sep| > 0
    ensures Split(s, sep) == [s] <==> forall j :: 0 <= j <= |s| ==> !OccursAt(s, sep, j)
  {
    if Split(s, sep) == [s] {
      forall j | 0 <= j <= |s|
        ensures !OccursAt(s, sep, j)
      {
        if j + |sep| <= |s| {
          SplitPartFree(s, sep, 0, j);
        }
      }
    } else if forall j :: 0 <= j <= |s| ==> !OccursAt(s, sep, j) {
      SplitWithout(s, sep);
    }
  }

  /** Python's `sep.join(parts)`. */
  function Join(parts: seq<string>, sep: string): string
    requires |parts| >= 1
  {
    if |parts| == 1 then parts[0] else parts[0] + sep + Join(parts[1..], sep)
  }

  /** Python's `s.replace(pat, rep)`: every non-overlapping occurrence of `pat`,
      found from the left, is rewritten to `rep`. */
  function ReplaceAll(s: string, pat: string, rep: string): string
    requires |pat| > 0
    decreases |s|
  {
    if |s| < |pat| then s
    else if s[..|pat|] == pat then rep + ReplaceAll(s[|pat|..], pat, rep)
    else [s[0]] + ReplaceAll(s[1..], pat, rep)
  }

  /** Gluing a character onto the first part gives the same as gluing it onto the join. */
  lemma JoinConsFirst(c: char, parts: seq<string>, sep: string)
    requires |parts| >= 1
    ensures Join([[c] + parts[0]] + parts[1..], sep) == [c] + Join(parts, sep)
  {
    var glued := [[c] + parts[0]] + parts[1..];
    if |parts| > 1 {
      assert glued[1..] == parts[1..];
    }
  }

  /** An empty first part contributes just the separator. */
  lemma JoinEmptyFirst(parts: seq<string>, sep: string)
    requires |parts| >= 1
    ensures Join([""] + parts, sep) == sep + Join(parts, sep)
  {
    assert ([""] + parts)[1..] == parts;
  }

  /** Splitting and joining back with the same separator gives the original string. */
  lemma {:induction false} JoinSplit(s: string, sep: string)
    requires |sep| > 0
    ensures Join(Split(s, sep), sep) == s
    decreases |s|
  {
    if |s| < |sep| {
    } else if s[..|sep|] == sep {
      JoinSplit(s[|sep|..], sep);
      JoinEmptyFirst(Split(s[|sep|..], sep), sep);
      assert s == sep + s[|sep|..];
    } else {
      JoinSplit(s[1..], sep);
      JoinConsFirst(s[0], Split(s[1..], sep), sep);
      assert s == [s[0]] + s[1..];
    }
  }

  /** `s.replace(pat, rep)` is `rep.join(s.split(pat))`. */
  lemma {:induction false} ReplaceIsJoinOfSplit(s: string, pat: string, rep: string)
    requires |pat| > 0
    ensures ReplaceAll(s, pat, rep) == Join(Split(s, pat), rep)
    decreases |s|
  {
    if |s| < |pat| {
    } else if s[..|pat|] == pat {
      ReplaceIsJoinOfSplit(s[|pat|..], pat, rep);
      JoinEmptyFirst(Split(s[|pat|..], pat), rep);
    } else {
      ReplaceIsJoinOfSplit(s[1..], pat, rep);
      JoinConsFirst(s[0], Split(s[1..], pat), rep);
    }
  }

  predicate IsDigit(c: char) {
    '0' as int <= c as int <= '9' as int
  }

  function DigitChar(d: nat): (c: char)
    requires d < 10
    ensures IsDigit(c) && c as int - '0' as int == d
  {
    ('0' as int + d) as char
  }

  /** Python's `str(n)` / `f"{n}"` for a non-negative integer: decimal digits,
      no leading zero except for `0` itself. */
  function NatToString(n: nat): (s: string)
    ensures |s| >= 1
    ensures forall i :: 0 <= i < |s| ==> IsDigit(s[i])
    ensures s[0] == '0' ==> n == 0 && s == "0"
  {
    if n < 10 then [DigitChar(n)] else NatToString(n / 10) + [DigitChar(n % 10)]
  }

  /** The value of a string of decimal digits. */
  function ParseNat(s: string): nat
    requires forall i :: 0 <= i < |s| ==> IsDigit(s[i])
  {
    if s == [] then 0
    else
      assert IsDigit(s[|s| - 1]);
      ParseNat(s[..|s| - 1]) * 10 + (s[|s| - 1] as int - '0' as int)
  }

  /** Rendering a number and reading it back gives the number. */
  lemma {:induction false} ParseNatToString(n: nat)
    ensures ParseNat(NatToString(n)) == n
  {
    var s := NatToString(n);
    if n < 10 {
      assert s[..0] == [];
    } else {
      ParseNatToString(n / 10);
      assert s[..|s| - 1] == NatToString(n / 10);
    }
  }
}
