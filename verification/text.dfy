/**
 * The .NET string operations the driver relies on, stated over `seq<char>`:
 * ordinal `IndexOf`/`Contains`, `Replace(p, "")`, `Trim(chars)`,
 * `char.IsWhiteSpace`, `Split(' ', RemoveEmptyEntries)` and `string.Join(" ", ...)`.
 */
module Text {

  /** `p` occurs in `s` starting at index `i`. */
  predicate OccursAt(s: string, p: string, i: int)
  {
    0 <= i && i + |p| <= |s| && s[i..i + |p|] == p
  }

  /** Ordinal `s.Contains(p)`. */
  predicate Contains(s: string, p: string)
  {
    exists i | 0 <= i <= |s| - |p| :: OccursAt(s, p, i)
  }

  /** Ordinal `s.IndexOf(p, from)`: the first occurrence at or after `from`, or -1. */
  function IndexOf(s: string, p: string, from: nat): (r: int)
    decreases |s| - from
    ensures r == -1 || (from <= r && OccursAt(s, p, r))
    ensures forall i :: from <= i && (r == -1 || i < r) ==> !OccursAt(s, p, i)
  {
    if from + |p| > |s| then -1
    else if s[from..from + |p|] == p then from
    else IndexOf(s, p, from + 1)
  }

  lemma ContainsIndexOf(s: string, p: string)
    ensures Contains(s, p) <==> IndexOf(s, p, 0) >= 0
  {
    var r := IndexOf(s, p, 0);
    if r >= 0 {
      assert OccursAt(s, p, r);
    }
  }

  /** An occurrence inside a prefix is an occurrence in the whole string, and back. */
  lemma OccursInPrefix(s: string, t: string, p: string, i: int)
    requires 0 <= i && i + |p| <= |s|
    ensures OccursAt(s + t, p, i) <==> OccursAt(s, p, i)
  {
    assert (s + t)[i..i + |p|] == s[i..i + |p|];
  }

  /** An occurrence at `r` is the first at or after `from` when no earlier index holds the first character of `p`. */
  lemma IndexOfFirst(s: string, p: string, from: nat, r: nat)
    requires p != [] && from <= r && OccursAt(s, p, r)
    requires forall i :: from <= i < r ==> s[i] != p[0]
    ensures IndexOf(s, p, from) == r
  {
    forall i | from <= i < r
      ensures !OccursAt(s, p, i)
    {
      if i + |p| <= |s| {
        assert s[i..i + |p|][0] == s[i];
      }
    }
  }

  /** A pattern placed right after `pre + mid`, whose first character is not in `mid`, is found there when searching from `mid`. */
  lemma IndexOfAfter(pre: string, mid: string, p: string)
    requires p != [] && p[0] !in mid
    ensures IndexOf(pre + mid + p, p, |pre|) == |pre| + |mid|
  {
    var s := pre + mid + p;
    var r := |pre| + |mid|;
    assert s[r..r + |p|] == p;
    forall i | |pre| <= i < r
      ensures s[i] != p[0]
    {
      assert s[i] == mid[i - |pre|];
    }
    IndexOfFirst(s, p, |pre|, r);
  }

  /** A pattern right after `pre`, whose first character is not in `pre`, is the first occurrence. */
  lemma IndexOfAtEnd(pre: string, p: string, post: string)
    requires p != [] && p[0] !in pre
    ensures IndexOf(pre + p + post, p, 0) == |pre|
  {
    var s := pre + p + post;
    var r := |pre|;
    assert s[r..r + |p|] == p;
    forall i | 0 <= i < r
      ensures s[i] != p[0]
    {
      assert s[i] == pre[i];
    }
    IndexOfFirst(s, p, 0, r);
  }

  /** Appending text never moves an occurrence that was already found. */
  lemma IndexOfAppend(s: string, t: string, p: string, from: nat)
    requires IndexOf(s, p, from) >= 0
    ensures IndexOf(s + t, p, from) == IndexOf(s, p, from)
  {
    var r := IndexOf(s, p, from);
    OccursInPrefix(s, t, p, r);
    forall i | from <= i < r
      ensures !OccursAt(s + t, p, i)
    {
      OccursInPrefix(s, t, p, i);
    }
  }

  /** .NET `s.Replace(p, "")`: occurrences are removed left to right, without overlap. */
  function RemoveAll(s: string, p: string): (r: string)
    requires p != []
    decreases |s|
    ensures |r| <= |s|
  {
    if |s| < |p| then s
    else if s[..|p|] == p then RemoveAll(s[|p|..], p)
    else [s[0]] + RemoveAll(s[1..], p)
  }

  /** Removing a pattern whose first character never appears leaves the text unchanged. */
  lemma {:induction false} RemoveAllAbsent(s: string, p: string)
    requires p != [] && p[0] !in s
    ensures RemoveAll(s, p) == s
  {
    if |s| >= |p| {
      assert s[..|p|][0] == s[0] != p[0];
      RemoveAllAbsent(s[1..], p);
      assert [s[0]] + s[1..] == s;
    }
  }

  /** A prefix made of characters foreign to the pattern survives the removal. */
  lemma {:induction false} RemoveAllKeepsPrefix(s: string, p: string, q: string)
    requires p != [] && |q| <= |s| && s[..|q|] == q
    requires forall k :: 0 <= k < |q| ==> q[k] !in p
    ensures |q| <= |RemoveAll(s, p)| && RemoveAll(s, p)[..|q|] == q
  {
    if q != [] && |s| >= |p| {
      assert s[0] == q[0] && p[0] in p;
      assert s[..|p|][0] != p[0];
      assert s[1..][..|q| - 1] == q[1..];
      RemoveAllKeepsPrefix(s[1..], p, q[1..]);
    }
  }

  /** An occurrence in a suffix `s[k..]` is an occurrence in `s`, shifted by `k`. */
  lemma OccursInSuffix(s: string, q: string, k: nat, i: nat)
    requires k <= |s|
    ensures OccursAt(s[k..], q, i) <==> OccursAt(s, q, i + k)
  {
    if i + |q| <= |s| - k {
      assert s[k..][i..i + |q|] == s[i + k..i + k + |q|];
    }
  }

  /** Text made of characters foreign to the removed pattern is still found after `Replace(p, "")`. */
  lemma {:induction false} RemoveAllKeepsContains(s: string, p: string, q: string)
    requires p != [] && q != []
    requires forall k :: 0 <= k < |q| ==> q[k] !in p
    requires Contains(s, q)
    ensures Contains(RemoveAll(s, p), q)
    decreases |s|
  {
    var i :| 0 <= i <= |s| - |q| && OccursAt(s, q, i);
    if i == 0 {
      RemoveAllKeepsPrefix(s, p, q);
      assert OccursAt(RemoveAll(s, p), q, 0);
    } else if |s| < |p| {
      assert OccursAt(RemoveAll(s, p), q, i);
    } else if s[..|p|] == p {
      assert forall k :: 0 <= k < |p| ==> s[k] in p;
      assert s[i] !in p;
      OccursInSuffix(s, q, |p|, i - |p|);
      RemoveAllKeepsContains(s[|p|..], p, q);
    } else {
      OccursInSuffix(s, q, 1, i - 1);
      RemoveAllKeepsContains(s[1..], p, q);
      var rest := RemoveAll(s[1..], p);
      var j :| 0 <= j <= |rest| - |q| && OccursAt(rest, q, j);
      OccursInSuffix([s[0]] + rest, q, 1, j);
      assert ([s[0]] + rest)[1..] == rest;
    }
  }

  /** Text where the pattern never occurs is left unchanged by `Replace(p, "")`. */
  lemma {:induction false} RemoveAllNotContained(s: string, p: string)
    requires p != [] && !Contains(s, p)
    ensures RemoveAll(s, p) == s
    decreases |s|
  {
    if |s| >= |p| {
      assert !OccursAt(s, p, 0);
      assert s[..|p|] != p;
      forall i | 0 <= i <= |s| - 1 - |p|
        ensures !OccursAt(s[1..], p, i)
      {
        OccursInSuffix(s, p, 1, i);
      }
      RemoveAllNotContained(s[1..], p);
      assert [s[0]] + s[1..] == s;
    }
  }

  /** A leading occurrence is removed and the rest is processed as if it were the whole text. */
  lemma RemoveAllLeading(p: string, t: string)
    requires p != []
    ensures RemoveAll(p + t, p) == RemoveAll(t, p)
  {
    assert (p + t)[..|p|] == p;
    assert (p + t)[|p|..] == t;
  }

  /** Every character of a space-joined list is a space or comes from one of the words. */
  lemma {:induction false} JoinSpaceChars(ws: seq<string>, c: char)
    requires c in JoinSpace(ws)
    ensures c == ' ' || exists k :: 0 <= k < |ws| && c in ws[k]
  {
    if |ws| > 1 {
      var rest := JoinSpace(ws[1..]);
      assert JoinSpace(ws) == ws[0] + " " + rest;
      if c !in ws[0] && c != ' ' {
        assert c in rest;
        JoinSpaceChars(ws[1..], c);
        var k :| 0 <= k < |ws| - 1 && c in ws[1..][k];
        assert c in ws[k + 1];
      }
    }
  }

  /** `TrimStart(chars)`. */
  function TrimStart(s: string, chars: set<char>): (r: string)
    decreases |s|
    ensures |r| <= |s|
    ensures r == [] || r[0] !in chars
  {
    if s != [] && s[0] in chars then TrimStart(s[1..], chars) else s
  }

  /** `TrimEnd(chars)`. */
  function TrimEnd(s: string, chars: set<char>): (r: string)
    decreases |s|
    ensures |r| <= |s|
    ensures r == [] || r[|r| - 1] !in chars
  {
    if s != [] && s[|s| - 1] in chars then TrimEnd(s[..|s| - 1], chars) else s
  }

  /** `Trim(chars)`: both ends. */
  function Trim(s: string, chars: set<char>): string
  {
    TrimEnd(TrimStart(s, chars), chars)
  }

  /** `Trim` leaves neither end on a trimmed character. */
  lemma TrimEnds(s: string, chars: set<char>)
    ensures var r := Trim(s, chars); r == [] || (r[0] !in chars && r[|r| - 1] !in chars)
  {
    TrimEndKeepsFirst(TrimStart(s, chars), chars);
  }

  /** Trimming the end keeps the first character of what remains. */
  lemma {:induction false} TrimEndKeepsFirst(s: string, chars: set<char>)
    ensures TrimEnd(s, chars) == [] || TrimEnd(s, chars)[0] == s[0]
    decreases |s|
  {
    if s != [] && s[|s| - 1] in chars {
      TrimEndKeepsFirst(s[..|s| - 1], chars);
    }
  }

  /** Text that neither starts nor ends with a trimmed character is left alone. */
  lemma TrimUntouched(s: string, chars: set<char>)
    requires s == [] || (s[0] !in chars && s[|s| - 1] !in chars)
    ensures Trim(s, chars) == s
  {
  }

  /** Dropping a first character that cannot start `q` does not change whether `q` is found. */
  lemma ContainsDropFirst(s: string, q: string)
    requires s != [] && q != [] && s[0] != q[0]
    ensures Contains(s, q) <==> Contains(s[1..], q)
  {
    if Contains(s, q) {
      var i :| 0 <= i <= |s| - |q| && OccursAt(s, q, i);
      assert i != 0;
      assert s[1..][i - 1..i - 1 + |q|] == s[i..i + |q|];
      assert OccursAt(s[1..], q, i - 1);
    }
    if Contains(s[1..], q) {
      var i :| 0 <= i <= |s| - 1 - |q| && OccursAt(s[1..], q, i);
      assert s[1..][i..i + |q|] == s[i + 1..i + 1 + |q|];
      assert OccursAt(s, q, i + 1);
    }
  }

  /** Dropping a last character that cannot end `q` does not change whether `q` is found. */
  lemma ContainsDropLast(s: string, q: string)
    requires s != [] && q != [] && s[|s| - 1] != q[|q| - 1]
    ensures Contains(s, q) <==> Contains(s[..|s| - 1], q)
  {
    if Contains(s, q) {
      var i :| 0 <= i <= |s| - |q| && OccursAt(s, q, i);
      assert i + |q| != |s|;
      assert s[..|s| - 1][i..i + |q|] == s[i..i + |q|];
      assert OccursAt(s[..|s| - 1], q, i);
    }
    if Contains(s[..|s| - 1], q) {
      var i :| 0 <= i <= |s| - 1 - |q| && OccursAt(s[..|s| - 1], q, i);
      assert s[..|s| - 1][i..i + |q|] == s[i..i + |q|];
      assert OccursAt(s, q, i);
    }
  }

  /** Trimming characters that `q` cannot start or end with does not change whether `q` is found. */
  lemma {:induction false} ContainsTrim(s: string, chars: set<char>, q: string)
    requires q != [] && q[0] !in chars && q[|q| - 1] !in chars
    ensures Contains(Trim(s, chars), q) <==> Contains(s, q)
  {
    ContainsTrimStart(s, chars, q);
    ContainsTrimEnd(TrimStart(s, chars), chars, q);
  }

  lemma {:induction false} ContainsTrimStart(s: string, chars: set<char>, q: string)
    requires q != [] && q[0] !in chars
    ensures Contains(TrimStart(s, chars), q) <==> Contains(s, q)
    decreases |s|
  {
    if s != [] && s[0] in chars {
      ContainsDropFirst(s, q);
      ContainsTrimStart(s[1..], chars, q);
    }
  }

  lemma {:induction false} ContainsTrimEnd(s: string, chars: set<char>, q: string)
    requires q != [] && q[|q| - 1] !in chars
    ensures Contains(TrimEnd(s, chars), q) <==> Contains(s, q)
    decreases |s|
  {
    if s != [] && s[|s| - 1] in chars {
      ContainsDropLast(s, q);
      ContainsTrimEnd(s[..|s| - 1], chars, q);
    }
  }

  /** .NET `char.IsWhiteSpace`: the Unicode separators plus U+0009..U+000D and U+0085. */
  predicate IsWhiteSpace(c: char)
  {
    || ('\U{9}' <= c <= '\U{D}')
    || c == ' ' || c == '\U{85}' || c == '\U{A0}' || c == '\U{1680}'
    || ('\U{2000}' <= c <= '\U{200A}')
    || c == '\U{2028}' || c == '\U{2029}' || c == '\U{202F}' || c == '\U{205F}' || c == '\U{3000}'
  }

  /** `string.IsNullOrWhiteSpace` for a non-null string. */
  predicate IsNullOrWhiteSpace(s: string)
  {
    forall i | 0 <= i < |s| :: IsWhiteSpace(s[i])
  }

  /** Length of the leading run of non-space characters. */
  function WordLength(s: string): (n: nat)
    ensures n <= |s|
    ensures forall i :: 0 <= i < n ==> s[i] != ' '
    ensures n < |s| ==> s[n] == ' '
  {
    if s == [] || s[0] == ' ' then 0 else 1 + WordLength(s[1..])
  }

  /** `s.Split(' ', StringSplitOptions.RemoveEmptyEntries)`. */
  function Words(s: string): (ws: seq<string>)
    decreases |s|
    ensures forall k :: 0 <= k < |ws| ==> ws[k] != [] && ' ' !in ws[k]
  {
    if s == [] then []
    else if s[0] == ' ' then Words(s[1..])
    else
      var n := WordLength(s);
      [s[..n]] + Words(s[n..])
  }

  /** `string.Join(" ", ws)`. */
  function JoinSpace(ws: seq<string>): string
  {
    if ws == [] then ""
    else if |ws| == 1 then ws[0]
    else ws[0] + " " + JoinSpace(ws[1..])
  }

  /** Words that are non-empty and space-free. */
  predicate AreWords(ws: seq<string>)
  {
    forall k :: 0 <= k < |ws| ==> ws[k] != [] && ' ' !in ws[k]
  }

  lemma {:induction false} WordLengthOfWord(w: string, t: string)
    requires ' ' !in w && (t == [] || t[0] == ' ')
    ensures WordLength(w + t) == |w|
    decreases |w|
  {
    if w != [] {
      assert (w + t)[1..] == w[1..] + t;
      WordLengthOfWord(w[1..], t);
    }
  }

  /** Splitting what was joined with single spaces gives the words back. */
  lemma {:induction false} WordsOfJoin(ws: seq<string>)
    requires AreWords(ws)
    ensures Words(JoinSpace(ws)) == ws
  {
    if ws == [] {
    } else if |ws| == 1 {
      var w := ws[0];
      WordLengthOfWord(w, "");
      assert w + "" == w;
      assert w[|w|..] == [];
    } else {
      var w, rest := ws[0], JoinSpace(ws[1..]);
      var s := w + " " + rest;
      assert s == w + (" " + rest);
      WordLengthOfWord(w, " " + rest);
      assert s[..|w|] == w;
      assert s[|w|..] == " " + rest;
      assert (" " + rest)[1..] == rest;
      WordsOfJoin(ws[1..]);
    }
  }

  /** Up to a space further on, the leading run of non-space characters is unchanged by what follows. */
  lemma {:induction false} WordLengthAppend(a: string, t: string)
    requires WordLength(a) < |a| || t == [] || t[0] == ' '
    ensures WordLength(a + t) == WordLength(a)
    decreases |a|
  {
    if a != [] && a[0] != ' ' {
      assert (a + t)[1..] == a[1..] + t;
      WordLengthAppend(a[1..], t);
    }
  }

  /**
   * A space separates tokens: the tokens of `a + " " + b` are those of `a`
   * followed by those of `b`. With `Words(w) == [w]` for a non-empty
   * space-free `w`, the tokens are the maximal space-free runs in order, and
   * leading, trailing and repeated spaces produce nothing.
   */
  lemma {:induction false} WordsSplitAtSpace(a: string, b: string)
    ensures Words(a + " " + b) == Words(a) + Words(b)
    decreases |a|
  {
    var s := a + " " + b;
    if a == [] {
      assert s[1..] == b;
    } else if a[0] == ' ' {
      assert s[1..] == a[1..] + " " + b;
      WordsSplitAtSpace(a[1..], b);
    } else {
      var m := WordLength(a);
      assert s == a + (" " + b);
      WordLengthAppend(a, " " + b);
      assert s[..m] == a[..m];
      if m < |a| {
        assert s[m..] == a[m..] + " " + b;
        WordsSplitAtSpace(a[m..], b);
      } else {
        assert s[m..] == " " + b;
        assert (" " + b)[1..] == b;
        assert a[m..] == [];
      }
    }
  }

  /** A single token is split into itself. */
  lemma WordsOfWord(w: string)
    requires w != [] && ' ' !in w
    ensures Words(w) == [w]
  {
    WordsOfJoin([w]);
  }
}
