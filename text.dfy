/** The JavaScript string primitives the widget relies on: `toLowerCase`,
    `trim`, `includes`, `startsWith` and `split`, over strings taken as
    sequences of characters. */
module Text {

  // ---------------------------------------------------------------------
  // Case mapping (`toLowerCase`)
  // ---------------------------------------------------------------------

  /** The per-character case map behind `toLowerCase`. Only the ASCII capitals
      are mapped; every other character is its own lower case here. */
  function LowerChar(c: char): (l: char)
    ensures 'a' <= l <= 'z' <==> 'A' <= c <= 'Z' || 'a' <= c <= 'z'
    ensures l == c || 'A' <= c <= 'Z'
  {
    if 'A' <= c <= 'Z' then (c as int + 32) as char else c
  }

  /** `s.toLowerCase()`, one character at a time. */
  function Lower(s: string): (r: string)
    ensures |r| == |s|
    ensures forall i :: 0 <= i < |s| ==> r[i] == LowerChar(s[i])
  {
    if s == [] then [] else [LowerChar(s[0])] + Lower(s[1..])
  }

  /** Lower-casing commutes with taking a slice. */
  lemma LowerSlice(s: string, i: int, j: int)
    requires 0 <= i <= j <= |s|
    ensures Lower(s[i..j]) == Lower(s)[i..j]
  {
    var a, b := Lower(s[i..j]), Lower(s)[i..j];
    forall k | 0 <= k < |a| ensures a[k] == b[k] {
      assert a[k] == LowerChar(s[i..j][k]) == LowerChar(s[i + k]);
    }
  }

  /** Lower-casing twice is lower-casing once. */
  lemma LowerIdempotent(s: string)
    ensures Lower(Lower(s)) == Lower(s)
  {
  }

  // ---------------------------------------------------------------------
  // Prefixes and substrings (`startsWith`, `includes`)
  // ---------------------------------------------------------------------

  /** `s.startsWith(prefix)`. */
  predicate StartsWith(s: string, prefix: string)
  {
    |prefix| <= |s| && s[..|prefix|] == prefix
  }

  /** `sub` occurs in `s` beginning at index `i`. */
  ghost predicate OccursAt(s: string, sub: string, i: int)
  {
    0 <= i && i + |sub| <= |s| && s[i..i + |sub|] == sub
  }

  /** `sub` occurs somewhere in `s`. */
  ghost predicate Occurs(s: string, sub: string)
  {
    exists i :: OccursAt(s, sub, i)
  }

  /** `s.includes(sub)`, as a left-to-right scan for a position where `sub`
      begins. */
  predicate Contains(s: string, sub: string)
    decreases |s|
  {
    StartsWith(s, sub) || (s != [] && Contains(s[1..], sub))
  }

  /** The scan finds `sub` exactly when `sub` occurs at some index of `s`. */
  lemma ContainsIffOccurs(s: string, sub: string)
    ensures Contains(s, sub) <==> Occurs(s, sub)
  {
    if Contains(s, sub) {
      ContainsHasOccurrence(s, sub);
    }
    forall i | OccursAt(s, sub, i) ensures Contains(s, sub) {
      OccurrenceContains(s, sub, i);
    }
  }

  /** A successful scan stops at an occurrence. */
  lemma {:induction false} ContainsHasOccurrence(s: string, sub: string)
    requires Contains(s, sub)
    ensures exists i :: OccursAt(s, sub, i)
    decreases |s|
  {
    if StartsWith(s, sub) {
      assert OccursAt(s, sub, 0);
    } else {
      ContainsHasOccurrence(s[1..], sub);
      var i :| OccursAt(s[1..], sub, i);
      assert s[i + 1..i + 1 + |sub|] == s[1..][i..i + |sub|];
      assert OccursAt(s, sub, i + 1);
    }
  }

  /** The scan reaches every occurrence. */
  lemma {:induction false} OccurrenceContains(s: string, sub: string, i: int)
    requires OccursAt(s, sub, i)
    ensures Contains(s, sub)
    decreases i
  {
    if i == 0 {
      assert StartsWith(s, sub);
    } else {
      assert s[1..][i - 1..i - 1 + |sub|] == s[i..i + |sub|];
      OccurrenceContains(s[1..], sub, i - 1);
    }
  }

  /** Every string includes the empty string. */
  lemma ContainsEmpty(s: string)
    ensures Contains(s, [])
  {
  }

  /** A string includes each of its prefixes. */
  lemma StartsWithContains(s: string, prefix: string)
    requires StartsWith(s, prefix)
    ensures Contains(s, prefix)
  {
  }

  /** Substring is transitive. */
  lemma ContainsTransitive(a: string, b: string, c: string)
    requires Contains(a, b) && Contains(b, c)
    ensures Contains(a, c)
  {
    ContainsHasOccurrence(a, b);
    ContainsHasOccurrence(b, c);
    var i :| OccursAt(a, b, i);
    var j :| OccursAt(b, c, j);
    assert a[i + j..i + j + |c|] == c by {
      forall k | 0 <= k < |c| ensures a[i + j + k] == c[k] {
        assert c[k] == b[j + k] == a[i + j + k];
      }
    }
    OccurrenceContains(a, c, i + j);
  }

  /** A string included in `y` is included in any `x + y`. */
  lemma {:induction false} ContainsInSuffix(x: string, y: string, sub: string)
    requires Contains(y, sub)
    ensures Contains(x + y, sub)
  {
    if x != [] {
      ContainsInSuffix(x[1..], y, sub);
      assert (x + y)[1..] == x[1..] + y;
    } else {
      assert x + y == y;
    }
  }

  /** Lower-casing keeps every occurrence: if `s` includes `sub`, the lower
      case of `s` includes the lower case of `sub`. */
  lemma LowerKeepsContains(s: string, sub: string)
    requires Contains(s, sub)
    ensures Contains(Lower(s), Lower(sub))
  {
    ContainsHasOccurrence(s, sub);
    var i :| OccursAt(s, sub, i);
    var ls, lsub := Lower(s), Lower(sub);
    LowerSlice(s, i, i + |sub|);
    assert OccursAt(ls, lsub, i);
    OccurrenceContains(ls, lsub, i);
  }

  // ---------------------------------------------------------------------
  // Splitting on a separator (`split`)
  // ---------------------------------------------------------------------

  /** `s.split(sep)` for a one-character separator: the pieces between the
      separators, empty pieces included, so there is always at least one. */
  function Split(s: string, sep: char): (words: seq<string>)
    ensures |words| >= 1
    ensures forall k :: 0 <= k < |words| ==> sep !in words[k]
    decreases |s|
  {
    if s == [] then [[]]
    else
      var rest := Split(s[1..], sep);
      if s[0] == sep then [[]] + rest
      else [[s[0]] + rest[0]] + rest[1..]
  }

  /** `words.join(sep)`. */
  function Join(words: seq<string>, sep: char): string
    requires |words| >= 1
  {
    if |words| == 1 then words[0] else words[0] + [sep] + Join(words[1..], sep)
  }

  /** Joining the pieces with the separator gives back the string, so
      together with "no piece holds the separator" this pins `Split` down. */
  lemma {:induction false} JoinSplit(s: string, sep: char)
    ensures Join(Split(s, sep), sep) == s
    decreases |s|
  {
    if s != [] {
      var rest := Split(s[1..], sep);
      JoinSplit(s[1..], sep);
      if s[0] == sep {
        assert Split(s, sep)[1..] == rest;
      } else if |rest| == 1 {
        assert Split(s, sep) == [[s[0]] + rest[0]];
      } else {
        var words := Split(s, sep);
        assert words[1..] == rest[1..];
        calc {
          Join(words, sep);
          ([s[0]] + rest[0]) + [sep] + Join(rest[1..], sep);
          [s[0]] + (rest[0] + [sep] + Join(rest[1..], sep));
          [s[0]] + Join(rest, sep);
        }
      }
    }
  }

  /** Each piece is a substring of the joined string. */
  lemma {:induction false} JoinContainsWords(words: seq<string>, sep: char, k: int)
    requires |words| >= 1 && 0 <= k < |words|
    ensures Contains(Join(words, sep), words[k])
    decreases |words|
  {
    if k == 0 {
      if |words| > 1 {
        assert Join(words, sep)[..|words[0]|] == words[0];
      }
      StartsWithContains(Join(words, sep), words[0]);
    } else {
      JoinContainsWords(words[1..], sep, k - 1);
      ContainsInSuffix(words[0] + [sep], Join(words[1..], sep), words[k]);
    }
  }

  /** Each piece `split` returns is a substring of the string split. */
  lemma SplitWordsInString(s: string, sep: char, k: int)
    requires 0 <= k < |Split(s, sep)|
    ensures Contains(s, Split(s, sep)[k])
  {
    JoinSplit(s, sep);
    JoinContainsWords(Split(s, sep), sep, k);
  }

  // ---------------------------------------------------------------------
  // Trimming (`trim`)
  // ---------------------------------------------------------------------

  /** The characters `trim` strips: ECMAScript's WhiteSpace (tab, vertical
      tab, form feed, space, no-break space, the byte order mark and every
      space separator) and LineTerminator (line feed, carriage return, line
      and paragraph separators). */
  predicate IsWhitespace(c: char)
  {
    || c == '\t' || c == '\n' || c == '\U{000B}' || c == '\U{000C}' || c == '\r'
    || c == ' ' || c == '\U{00A0}' || c == '\U{1680}'
    || ('\U{2000}' <= c <= '\U{200A}')
    || c == '\U{2028}' || c == '\U{2029}' || c == '\U{202F}' || c == '\U{205F}'
    || c == '\U{3000}' || c == '\U{FEFF}'
  }

  ghost predicate AllWhitespace(s: string)
  {
    forall i :: 0 <= i < |s| ==> IsWhitespace(s[i])
  }

  /** Strips the leading whitespace: what is left is a suffix of `s`, what
      was dropped is all whitespace, and what is left does not begin with
      whitespace. */
  function TrimStart(s: string): (r: string)
    ensures |r| <= |s| && r == s[|s| - |r|..]
    ensures AllWhitespace(s[..|s| - |r|])
    ensures r == [] || !IsWhitespace(r[0])
    decreases |s|
  {
    if s != [] && IsWhitespace(s[0]) then
      var r := TrimStart(s[1..]);
      assert s[..|s| - |r|] == [s[0]] + s[1..][..|s| - 1 - |r|];
      r
    else s
  }

  /** Strips the trailing whitespace: what is left is a prefix of `s`, what
      was dropped is all whitespace, and what is left does not end with
      whitespace. */
  function TrimEnd(s: string): (r: string)
    ensures |r| <= |s| && r == s[..|r|]
    ensures AllWhitespace(s[|r|..])
    ensures r == [] || !IsWhitespace(r[|r| - 1])
    decreases |s|
  {
    if s != [] && IsWhitespace(s[|s| - 1]) then
      var r := TrimEnd(s[..|s| - 1]);
      assert s[|r|..] == s[..|s| - 1][|r|..] + [s[|s| - 1]];
      r
    else s
  }

  /** `s.trim()`: neither begins nor ends with whitespace, and is empty
      exactly when `s` is whitespace only. Where it sits in `s` is stated
      by `TrimStripsOnlyEnds`. */
  function Trim(s: string): (r: string)
    ensures r == [] || (!IsWhitespace(r[0]) && !IsWhitespace(r[|r| - 1]))
    ensures r == [] <==> AllWhitespace(s)
  {
    TrimBothEnds(s);
    TrimEnd(TrimStart(s))
  }

  /** `trim` removes whitespace at the two ends only: what it returns
      occurs in `s` with nothing but whitespace before and after it. */
  lemma TrimStripsOnlyEnds(s: string)
    ensures exists k :: TrimmedAt(s, Trim(s), k)
    ensures Contains(s, Trim(s))
  {
    var k := |s| - |TrimStart(s)|;
    TrimOccurs(s);
    assert TrimmedAt(s, Trim(s), k);
    OccurrenceContains(s, Trim(s), k);
  }

  /** `r` occurs in `s` at `k`, and only whitespace precedes and follows
      that occurrence. */
  ghost predicate TrimmedAt(s: string, r: string, k: int)
  {
    OccursAt(s, r, k) && AllWhitespace(s[..k]) && AllWhitespace(s[k + |r|..])
  }

  /** What stripping both ends leaves of `s` is empty exactly when `s` is
      all whitespace. */
  lemma TrimBothEnds(s: string)
    ensures TrimEnd(TrimStart(s)) == [] <==> AllWhitespace(s)
  {
    TrimStartEmpty(s);
    TrimEndEmpty(TrimStart(s));
  }

  lemma TrimOccurs(s: string)
    ensures TrimmedAt(s, TrimEnd(TrimStart(s)), |s| - |TrimStart(s)|)
  {
    TrimmedAtParts(s, TrimStart(s), TrimEnd(TrimStart(s)));
  }

  /** Stripping whitespace from the front of `s` and then from the back of
      the rest leaves a trimmed occurrence. */
  lemma TrimmedAtParts(s: string, t: string, r: string)
    requires |t| <= |s| && t == s[|s| - |t|..] && AllWhitespace(s[..|s| - |t|])
    requires |r| <= |t| && r == t[..|r|] && AllWhitespace(t[|r|..])
    ensures TrimmedAt(s, r, |s| - |t|)
  {
    var before, after := s[..|s| - |t|], t[|r|..];
    assert s == before + r + after by {
      assert s == before + t;
      assert t == r + after;
    }
    TrimmedAtSplit(before, r, after);
  }

  /** Whitespace, then `r`, then whitespace: `r` is what trimming leaves. */
  lemma TrimmedAtSplit(before: string, r: string, after: string)
    requires AllWhitespace(before) && AllWhitespace(after)
    ensures TrimmedAt(before + r + after, r, |before|)
  {
    var s := before + r + after;
    assert s[..|before|] == before;
    assert s[|before|..|before| + |r|] == r;
    assert s[|before| + |r|..] == after;
  }

  lemma {:induction false} TrimStartEmpty(s: string)
    ensures TrimStart(s) == [] <==> AllWhitespace(s)
    decreases |s|
  {
    if s != [] && IsWhitespace(s[0]) {
      TrimStartEmpty(s[1..]);
      assert AllWhitespace(s) <==> AllWhitespace(s[1..]);
    }
  }

  lemma {:induction false} TrimEndEmpty(s: string)
    ensures TrimEnd(s) == [] <==> AllWhitespace(s)
    decreases |s|
  {
    if s != [] && IsWhitespace(s[|s| - 1]) {
      TrimEndEmpty(s[..|s| - 1]);
      assert AllWhitespace(s) <==> AllWhitespace(s[..|s| - 1]);
    }
  }
}
