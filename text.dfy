/**
 * String primitives shared by the validators, the scraper and the chunkers:
 * Python's whitespace set, `str.strip`, `str.split`, `str.splitlines`,
 * `str.join`, substring search and JavaScript's `String.replace` with a
 * string pattern.
 */
module Text {
  import opened Wrappers

  /** The characters for which Python's `str.isspace()` holds. */
  const Whitespace: set<char> := {
    '\t', '\n', '\U{000B}', '\U{000C}', '\r', '\U{001C}', '\U{001D}', '\U{001E}', '\U{001F}',
    ' ', '\U{0085}', '\U{00A0}', '\U{1680}',
    '\U{2000}', '\U{2001}', '\U{2002}', '\U{2003}', '\U{2004}', '\U{2005}', '\U{2006}',
    '\U{2007}', '\U{2008}', '\U{2009}', '\U{200A}',
    '\U{2028}', '\U{2029}', '\U{202F}', '\U{205F}', '\U{3000}'
  }

  /** The line boundaries of Python's `str.splitlines()`. */
  const LineBreaks: set<char> := {
    '\n', '\r', '\U{000B}', '\U{000C}', '\U{001C}', '\U{001D}', '\U{001E}', '\U{0085}',
    '\U{2028}', '\U{2029}'
  }

  predicate NoneIn(s: string, cs: set<char>) {
    forall k :: 0 <= k < |s| ==> s[k] !in cs
  }

  predicate StartsWith(s: string, prefix: string) {
    |prefix| <= |s| && s[..|prefix|] == prefix
  }

  /** `sub` occurs in `s` starting at index `i`. */
  predicate OccursAt(s: string, sub: string, i: int) {
    0 <= i && i + |sub| <= |s| && s[i..i + |sub|] == sub
  }

  /** `s.includes(sub)` / Python `sub in s`. */
  predicate Contains(s: string, sub: string) {
    exists i :: 0 <= i <= |s| && OccursAt(s, sub, i)
  }

  /** Leading whitespace removed: the result is a suffix of `s` and what was cut is whitespace. */
  function TrimLeft(s: string): (r: string)
    ensures |r| <= |s| && r == s[|s| - |r|..]
    ensures r == [] || r[0] !in Whitespace
    ensures forall k :: 0 <= k < |s| - |r| ==> s[k] in Whitespace
    decreases |s|
  {
    if s != [] && s[0] in Whitespace then
      var r := TrimLeft(s[1..]);
      assert s[1..][|s| - 1 - |r|..] == s[|s| - |r|..];
      assert forall k :: 1 <= k < |s| - |r| ==> s[k] == s[1..][k - 1];
      r
    else s
  }

  /** Trailing whitespace removed: the result is a prefix of `s` and what was cut is whitespace. */
  function TrimRight(s: string): (r: string)
    ensures |r| <= |s| && r == s[..|r|]
    ensures r == [] || r[|r| - 1] !in Whitespace
    ensures forall k :: |r| <= k < |s| ==> s[k] in Whitespace
    decreases |s|
  {
    if s != [] && s[|s| - 1] in Whitespace then TrimRight(s[..|s| - 1]) else s
  }

  /** `r` sits at index `i` of `s` and everything around it is whitespace. */
  predicate StrippedAt(s: string, r: string, i: int) {
    && OccursAt(s, r, i)
    && (forall k :: 0 <= k < i ==> s[k] in Whitespace)
    && (forall k :: i + |r| <= k < |s| ==> s[k] in Whitespace)
  }

  /** Python's `s.strip()`: the middle of `s` left once whitespace is cut from both ends. */
  function Strip(s: string): (r: string)
    ensures r == [] || (r[0] !in Whitespace && r[|r| - 1] !in Whitespace)
    ensures exists i :: StrippedAt(s, r, i)
  {
    var l := TrimLeft(s);
    var r := TrimRight(l);
    StrippedWithin(s, l, r);
    r
  }

  /** Whitespace cut from the front and then from the back leaves a stripped middle. */
  lemma StrippedWithin(s: string, l: string, r: string)
    requires |l| <= |s| && l == s[|s| - |l|..] && forall k :: 0 <= k < |s| - |l| ==> s[k] in Whitespace
    requires |r| <= |l| && r == l[..|r|] && forall k :: |r| <= k < |l| ==> l[k] in Whitespace
    ensures StrippedAt(s, r, |s| - |l|)
  {
    var i := |s| - |l|;
    assert s[i..i + |r|] == r;
    forall k | i + |r| <= k < |s| ensures s[k] in Whitespace {
      assert s[k] == l[k - i];
    }
  }

  /** A string with no whitespace at either end is its own strip. */
  lemma StripStripped(s: string)
    requires s == [] || (s[0] !in Whitespace && s[|s| - 1] !in Whitespace)
    ensures Strip(s) == s
  {
  }

  /** Stripping cannot introduce a character. */
  lemma StripNoneIn(s: string, cs: set<char>)
    requires NoneIn(s, cs)
    ensures NoneIn(Strip(s), cs)
  {
    var r := Strip(s);
    var i :| StrippedAt(s, r, i);
    forall k | 0 <= k < |r| ensures r[k] !in cs {
      assert r[k] == s[i + k];
    }
  }

  /**
   * Splitting at every separator character, keeping empty parts
   * (`"a..b".split(".") == ["a", "", "b"]`).
   */
  function SplitBy(s: string, seps: set<char>): (parts: seq<string>)
    ensures |parts| >= 1
    ensures forall p :: p in parts ==> NoneIn(p, seps)
    decreases |s|
  {
    if s == [] then [""]
    else
      var rest := SplitBy(s[1..], seps);
      if s[0] in seps then [""] + rest
      else
        var first := [s[0]] + rest[0];
        assert rest[0] in rest;
        assert NoneIn(first, seps) by {
          forall k | 0 <= k < |first| ensures first[k] !in seps {
            if k > 0 { assert first[k] == rest[0][k - 1]; }
          }
        }
        assert forall p :: p in rest[1..] ==> p in rest;
        [first] + rest[1..]
  }

  /** A separator in front opens a new, empty first part. */
  lemma SplitConsSeparator(x: char, t: string, seps: set<char>)
    requires x in seps
    ensures SplitBy([x] + t, seps) == [""] + SplitBy(t, seps)
  {
    assert ([x] + t)[1..] == t;
  }

  /** Any other character in front joins the first part. */
  lemma SplitConsChar(x: char, t: string, seps: set<char>)
    requires x !in seps
    ensures SplitBy([x] + t, seps) == [[x] + SplitBy(t, seps)[0]] + SplitBy(t, seps)[1..]
  {
    assert ([x] + t)[0] == x && ([x] + t)[1..] == t;
  }

  /** A separator character splits the string into the parts of either side. */
  lemma {:induction false} SplitAtSeparator(a: string, c: char, b: string, seps: set<char>)
    requires c in seps
    ensures SplitBy(a + [c] + b, seps) == SplitBy(a, seps) + SplitBy(b, seps)
    decreases |a|
  {
    if a == [] {
      assert a + [c] + b == [c] + b;
      SplitConsSeparator(c, b, seps);
    } else {
      var t := a[1..] + [c] + b;
      SplitAtSeparator(a[1..], c, b, seps);
      assert a + [c] + b == [a[0]] + t;
      assert a == [a[0]] + a[1..];
      if a[0] in seps {
        SplitStepSeparator(a[0], a[1..], t, SplitBy(b, seps), seps);
      } else {
        SplitStepChar(a[0], a[1..], t, SplitBy(b, seps), seps);
      }
    }
  }

  /** A separator in front adds an empty part on both sides. */
  lemma SplitStepSeparator(x: char, a: string, t: string, right: seq<string>, seps: set<char>)
    requires x in seps && SplitBy(t, seps) == SplitBy(a, seps) + right
    ensures SplitBy([x] + t, seps) == SplitBy([x] + a, seps) + right
  {
    SplitConsSeparator(x, t, seps);
    SplitConsSeparator(x, a, seps);
    var left := SplitBy(a, seps);
    assert [""] + (left + right) == ([""] + left) + right;
  }

  /** Any other character in front joins the first part on both sides. */
  lemma SplitStepChar(x: char, a: string, t: string, right: seq<string>, seps: set<char>)
    requires x !in seps && SplitBy(t, seps) == SplitBy(a, seps) + right
    ensures SplitBy([x] + t, seps) == SplitBy([x] + a, seps) + right
  {
    SplitConsChar(x, t, seps);
    SplitConsChar(x, a, seps);
    var left := SplitBy(a, seps);
    var head := [x] + left[0];
    assert (left + right)[0] == left[0] && (left + right)[1..] == left[1..] + right;
    assert [head] + (left[1..] + right) == ([head] + left[1..]) + right;
  }

  /** `sep.join(parts)`. */
  function JoinWith(parts: seq<string>, sep: string): string
    decreases |parts|
  {
    if |parts| == 0 then ""
    else if |parts| == 1 then parts[0]
    else parts[0] + sep + JoinWith(parts[1..], sep)
  }

  /** The non-empty strings of `parts`, in order. */
  function NonEmpty(parts: seq<string>): (r: seq<string>)
    ensures forall p :: p in r ==> p != "" && p in parts
    ensures forall p :: p in parts && p != "" ==> p in r
    ensures |r| <= |parts|
    ensures forall p :: multiset(r)[p] == if p == "" then 0 else multiset(parts)[p]
    decreases |parts|
  {
    if parts == [] then []
    else
      assert parts == [parts[0]] + parts[1..];
      if parts[0] == "" then NonEmpty(parts[1..])
      else [parts[0]] + NonEmpty(parts[1..])
  }

  lemma NonEmptySingleton(x: string)
    ensures NonEmpty([x]) == if x == "" then [] else [x]
  {
    assert [x][1..] == [];
  }

  /** The filter works part by part, so it keeps the order of the parts. */
  lemma {:induction false} NonEmptyAppend(a: seq<string>, b: seq<string>)
    ensures NonEmpty(a + b) == NonEmpty(a) + NonEmpty(b)
    decreases |a|
  {
    if a != [] {
      assert (a + b)[0] == a[0] && (a + b)[1..] == a[1..] + b;
      NonEmptyAppend(a[1..], b);
    } else {
      assert a + b == b;
    }
  }

  /** The parts glued together with nothing between them. */
  function Concat(parts: seq<string>): string
    decreases |parts|
  {
    if parts == [] then "" else parts[0] + Concat(parts[1..])
  }

  /** `s` with every character of `cs` removed, in order. */
  function Without(s: string, cs: set<char>): (r: string)
    ensures NoneIn(r, cs) && |r| <= |s|
    decreases |s|
  {
    if s == [] then ""
    else if s[0] in cs then Without(s[1..], cs)
    else
      var t := Without(s[1..], cs);
      assert forall k :: 1 <= k < |t| + 1 ==> ([s[0]] + t)[k] == t[k - 1];
      [s[0]] + t
  }

  /** Python's `s.split()` with no argument: maximal runs of non-whitespace. */
  function Words(s: string): (ws: seq<string>)
    ensures forall w :: w in ws ==> w != "" && NoneIn(w, Whitespace)
    ensures Concat(ws) == Without(s, Whitespace)
  {
    ConcatSplit(s, Whitespace);
    ConcatNonEmpty(SplitBy(s, Whitespace));
    NonEmpty(SplitBy(s, Whitespace))
  }

  /** A whitespace character separates words: the words on either side of it, in order. */
  lemma WordsAtWhitespace(a: string, c: char, b: string)
    requires c in Whitespace
    ensures Words(a + [c] + b) == Words(a) + Words(b)
  {
    SplitAtSeparator(a, c, b, Whitespace);
    NonEmptyAppend(SplitBy(a, Whitespace), SplitBy(b, Whitespace));
  }

  /** A non-empty run without whitespace is one word; with `WordsAtWhitespace` this fixes `Words` on every input. */
  lemma WordsOfWord(w: string)
    requires w != "" && NoneIn(w, Whitespace)
    ensures Words(w) == [w]
  {
    SplitPrefix(w, "", Whitespace);
    assert w + "" == w;
    NonEmptySingleton(w);
  }

  /** The parts of a split hold exactly the non-separator characters, in order. */
  lemma {:induction false} ConcatSplit(s: string, seps: set<char>)
    ensures Concat(SplitBy(s, seps)) == Without(s, seps)
    decreases |s|
  {
    if s != [] {
      ConcatSplit(s[1..], seps);
      var rest := SplitBy(s[1..], seps);
      if s[0] in seps {
        assert ([""] + rest)[1..] == rest;
        assert Concat([""] + rest) == "" + Concat(rest);
        assert "" + Concat(rest) == Concat(rest);
      } else {
        var parts := [[s[0]] + rest[0]] + rest[1..];
        assert parts[1..] == rest[1..];
        assert Concat(rest) == rest[0] + Concat(rest[1..]);
        assert Concat(parts) == [s[0]] + rest[0] + Concat(rest[1..]);
      }
    }
  }

  /** Dropping empty parts does not change their concatenation. */
  lemma {:induction false} ConcatNonEmpty(parts: seq<string>)
    ensures Concat(NonEmpty(parts)) == Concat(parts)
    decreases |parts|
  {
    if parts != [] {
      ConcatNonEmpty(parts[1..]);
      if parts[0] == "" {
        assert "" + Concat(parts[1..]) == Concat(parts[1..]);
      } else {
        assert ([parts[0]] + NonEmpty(parts[1..]))[1..] == NonEmpty(parts[1..]);
      }
    }
  }

  /** A word without separators, glued to the front of `rest`, extends the first part. */
  lemma {:induction false} SplitPrefix(w: string, rest: string, seps: set<char>)
    requires NoneIn(w, seps)
    ensures SplitBy(w + rest, seps)
         == [w + SplitBy(rest, seps)[0]] + SplitBy(rest, seps)[1..]
    decreases |w|
  {
    if w != [] {
      assert (w + rest)[1..] == w[1..] + rest;
      assert (w + rest)[0] == w[0];
      SplitPrefix(w[1..], rest, seps);
      assert [w[0]] + (w[1..] + SplitBy(rest, seps)[0]) == w + SplitBy(rest, seps)[0];
    } else {
      assert w + rest == rest;
      assert w + SplitBy(rest, seps)[0] == SplitBy(rest, seps)[0];
      assert SplitBy(rest, seps) == [SplitBy(rest, seps)[0]] + SplitBy(rest, seps)[1..];
    }
  }

  /** Joining separator-free parts with one separator and splitting again gives the parts back. */
  lemma {:induction false} SplitJoin(parts: seq<string>, c: char, seps: set<char>)
    requires |parts| >= 1 && c in seps
    requires forall p :: p in parts ==> NoneIn(p, seps)
    ensures SplitBy(JoinWith(parts, [c]), seps) == parts
    decreases |parts|
  {
    if |parts| == 1 {
      SplitPrefix(parts[0], "", seps);
      assert parts[0] + "" == parts[0];
    } else {
      var tail := JoinWith(parts[1..], [c]);
      assert JoinWith(parts, [c]) == parts[0] + ([c] + tail);
      SplitJoin(parts[1..], c, seps);
      SplitPrefix(parts[0], [c] + tail, seps);
      assert ([c] + tail)[1..] == tail;
      assert SplitBy([c] + tail, seps) == [""] + parts[1..];
      assert parts[0] + "" == parts[0];
      assert [parts[0]] + parts[1..] == parts;
    }
  }

  /** Splitting at a single separator character and joining with it gives the string back. */
  lemma {:induction false} JoinSplit(s: string, c: char)
    ensures JoinWith(SplitBy(s, {c}), [c]) == s
    decreases |s|
  {
    if s != [] {
      JoinSplit(s[1..], c);
      var rest := SplitBy(s[1..], {c});
      if s[0] == c {
        assert SplitBy(s, {c}) == [""] + rest;
        assert ([""] + rest)[1..] == rest;
        assert JoinWith([""] + rest, [c]) == "" + [c] + JoinWith(rest, [c]);
        assert s == [s[0]] + s[1..];
      } else {
        var parts := [[s[0]] + rest[0]] + rest[1..];
        assert SplitBy(s, {c}) == parts;
        if |rest| == 1 {
          assert JoinWith(parts, [c]) == [s[0]] + rest[0];
          assert s == [s[0]] + s[1..];
        } else {
          assert parts[1..] == rest[1..];
          assert JoinWith(rest, [c]) == rest[0] + [c] + JoinWith(rest[1..], [c]);
          assert JoinWith(parts, [c]) == [s[0]] + rest[0] + [c] + JoinWith(rest[1..], [c]);
          assert s == [s[0]] + s[1..];
        }
      }
    }
  }

  /** The first index at which `pat` occurs in `s`. */
  function IndexOf(s: string, pat: string): (r: Option<nat>)
    ensures r.Some? ==> OccursAt(s, pat, r.value)
    ensures r.Some? ==> forall j :: 0 <= j < r.value ==> !OccursAt(s, pat, j)
    ensures r.None? <==> !Contains(s, pat)
    decreases |s|
  {
    if |pat| > |s| then None
    else if s[..|pat|] == pat then
      assert OccursAt(s, pat, 0);
      Some(0)
    else
      assert forall j :: 1 <= j ==> (OccursAt(s, pat, j) <==> OccursAt(s[1..], pat, j - 1)) by {
        forall j | 1 <= j ensures OccursAt(s, pat, j) <==> OccursAt(s[1..], pat, j - 1) {
          if j + |pat| <= |s| {
            var a, b := s[j..j + |pat|], s[1..][j - 1..j - 1 + |pat|];
            assert |a| == |b| && forall k :: 0 <= k < |a| ==> a[k] == b[k];
          }
        }
      }
      match IndexOf(s[1..], pat)
      case None => None
      case Some(i) => Some(i + 1)
  }

  /** JavaScript `s.replace(pat, rep)` with a string pattern: only the first occurrence is replaced. */
  function ReplaceFirst(s: string, pat: string, rep: string): (r: string)
    ensures !Contains(s, pat) ==> r == s
    ensures forall i :: OccursAt(s, pat, i) && (forall j :: 0 <= j < i ==> !OccursAt(s, pat, j)) ==>
      r == s[..i] + rep + s[i + |pat|..]
  {
    match IndexOf(s, pat)
    case None => s
    case Some(i) => s[..i] + rep + s[i + |pat|..]
  }
}
