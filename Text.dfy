/** The Python string operations the core relies on: `strip`, `lower`/`casefold`,
    `in`, `endswith`, `join`, `replace` of one character, slicing with `[:n]`,
    and `re.sub` of a negated character class by one character. */
module Text {
  import opened Seqs

  /** `str.isspace()` for one code point: the characters `str.strip()` removes. */
  predicate IsSpace(c: char)
  {
    || c == ' '
    || '\t' <= c <= '\r'
    || '\U{1C}' <= c <= '\U{1F}'
    || c == '\U{85}' || c == '\U{A0}' || c == '\U{1680}'
    || '\U{2000}' <= c <= '\U{200A}'
    || c == '\U{2028}' || c == '\U{2029}' || c == '\U{202F}' || c == '\U{205F}' || c == '\U{3000}'
  }

  /** The length of the longest prefix of `s` whose characters all satisfy `p`. */
  function LeadingCount(s: string, p: char -> bool): (n: nat)
    ensures n <= |s|
    ensures forall k :: 0 <= k < n ==> p(s[k])
    ensures n == |s| || !p(s[n])
    decreases |s|
  {
    if s == [] || !p(s[0]) then 0 else 1 + LeadingCount(s[1..], p)
  }

  /** The leading count is the one position where the run of `p` ends. */
  lemma {:induction false} LeadingCountUnique(s: string, p: char -> bool, m: nat)
    requires m <= |s| && (forall k :: 0 <= k < m ==> p(s[k])) && (m == |s| || !p(s[m]))
    ensures LeadingCount(s, p) == m
    decreases m
  {
    if m > 0 {
      assert p(s[0]);
      assert forall k :: 0 <= k < m - 1 ==> s[1..][k] == s[k + 1];
      LeadingCountUnique(s[1..], p, m - 1);
    }
  }

  /** The length of the longest suffix of `s` whose characters all satisfy `p`. */
  function TrailingCount(s: string, p: char -> bool): (n: nat)
    ensures n <= |s|
    ensures forall k :: |s| - n <= k < |s| ==> p(s[k])
    ensures n == |s| || !p(s[|s| - n - 1])
    decreases |s|
  {
    if s == [] || !p(s[|s| - 1]) then 0 else 1 + TrailingCount(s[..|s| - 1], p)
  }

  /** `s.strip(chars)`: drop the leading and then the trailing characters satisfying `p`.
      Only characters satisfying `p` are removed, from the two ends, and none remains at an end. */
  function StripBy(s: string, p: char -> bool): (r: string)
    ensures r == [] || (!p(r[0]) && !p(r[|r| - 1]))
    ensures LeadingCount(s, p) + |r| <= |s|
    ensures r == s[LeadingCount(s, p)..LeadingCount(s, p) + |r|]
    ensures forall k :: LeadingCount(s, p) + |r| <= k < |s| ==> p(s[k])
  {
    var i := LeadingCount(s, p);
    var t := s[i..];
    t[..|t| - TrailingCount(t, p)]
  }

  /** `s.strip()` */
  function Strip(s: string): string
  {
    StripBy(s, IsSpace)
  }

  /** A string with no strippable character at either end is its own strip. */
  lemma StripByIdentity(s: string, p: char -> bool)
    requires s == [] || (!p(s[0]) && !p(s[|s| - 1]))
    ensures StripBy(s, p) == s
  {
    if s != [] {
      assert LeadingCount(s, p) == 0;
      assert TrailingCount(s, p) == 0;
    }
  }

  /** Stripping twice is stripping once. */
  lemma StripByIdempotent(s: string, p: char -> bool)
    ensures StripBy(StripBy(s, p), p) == StripBy(s, p)
  {
    StripByIdentity(StripBy(s, p), p);
  }

  /** ASCII lower-casing of one character; the model of `str.lower()` and `str.casefold()`. */
  function LowerChar(c: char): char
  {
    if 'A' <= c <= 'Z' then (c as int + 32) as char else c
  }

  function Lower(s: string): (r: string)
    ensures |r| == |s|
    ensures forall i :: 0 <= i < |s| ==> r[i] == LowerChar(s[i])
  {
    Map(s, LowerChar)
  }

  predicate IsUpper(c: char)
  {
    'A' <= c <= 'Z'
  }

  /** A lower-cased string has no upper-case ASCII letter, and lower-casing it again changes nothing. */
  lemma LowerIsLower(s: string)
    ensures forall c :: c in Lower(s) ==> !IsUpper(c)
    ensures Lower(Lower(s)) == Lower(s)
  {
  }

  /** Lower-casing a string with no upper-case ASCII letter changes nothing. */
  lemma LowerIdentity(s: string)
    requires forall c :: c in s ==> !IsUpper(c)
    ensures Lower(s) == s
  {
    assert forall i :: 0 <= i < |s| ==> s[i] in s;
  }

  predicate IsPrefix(p: string, s: string)
  {
    |p| <= |s| && s[..|p|] == p
  }

  /** Python's `needle in hay` on strings; the empty needle is in every string. */
  predicate Contains(hay: string, needle: string)
    decreases |hay|
  {
    if IsPrefix(needle, hay) then true
    else if hay == [] then false
    else Contains(hay[1..], needle)
  }

  /** Every character of a substring occurs in the string that contains it. */
  lemma {:induction false} ContainsChars(hay: string, needle: string, c: char)
    requires Contains(hay, needle) && c in needle
    ensures c in hay
    decreases |hay|
  {
    if IsPrefix(needle, hay) {
      assert c in hay[..|needle|];
    } else {
      ContainsChars(hay[1..], needle, c);
    }
  }

  /** A needle found at position `i` is contained. */
  lemma {:induction false} ContainsAt(hay: string, needle: string, i: nat)
    requires i + |needle| <= |hay| && hay[i..i + |needle|] == needle
    ensures Contains(hay, needle)
    decreases i
  {
    if i > 0 && !IsPrefix(needle, hay) {
      assert hay[1..][i - 1..i - 1 + |needle|] == needle;
      ContainsAt(hay[1..], needle, i - 1);
    }
  }

  /** What a string contains, any extension of it on either side contains too. */
  lemma {:induction false} ContainsExtend(a: string, m: string, b: string, needle: string)
    requires Contains(m, needle)
    ensures Contains(a + m + b, needle)
    decreases |m|
  {
    if IsPrefix(needle, m) {
      assert (a + m + b)[|a|..|a| + |needle|] == needle;
      ContainsAt(a + m + b, needle, |a|);
    } else {
      assert a + m + b == (a + [m[0]]) + m[1..] + b;
      ContainsExtend(a + [m[0]], m[1..], b, needle);
    }
  }

  /** `s.endswith(suffix)` */
  predicate EndsWith(s: string, suffix: string)
  {
    |suffix| <= |s| && s[|s| - |suffix|..] == suffix
  }

  /** `sep.join(parts)` */
  function Join(sep: string, parts: seq<string>): string
    decreases |parts|
  {
    if |parts| == 0 then ""
    else if |parts| == 1 then parts[0]
    else parts[0] + sep + Join(sep, parts[1..])
  }

  function TotalLength(parts: seq<string>): nat
    decreases |parts|
  {
    if parts == [] then 0 else |parts[0]| + TotalLength(parts[1..])
  }

  /** Joining two non-empty lists puts exactly one separator between their joins. */
  lemma {:induction false} JoinAppend(sep: string, a: seq<string>, b: seq<string>)
    requires a != [] && b != []
    ensures Join(sep, a + b) == Join(sep, a) + sep + Join(sep, b)
    decreases |a|
  {
    if |a| == 1 {
      assert (a + b)[1..] == b;
    } else {
      assert (a + b)[1..] == a[1..] + b;
      JoinAppend(sep, a[1..], b);
    }
  }

  /** A join is as long as its parts plus one separator between each two of them. */
  lemma {:induction false} JoinLength(sep: string, parts: seq<string>)
    requires parts != []
    ensures |Join(sep, parts)| == TotalLength(parts) + (|parts| - 1) * |sep|
    decreases |parts|
  {
    if |parts| > 1 {
      JoinLength(sep, parts[1..]);
    }
  }

  /** Every part occurs in the join, and a join is as long as its parts and the separators. */
  lemma JoinKeepsParts(sep: string, parts: seq<string>)
    ensures forall i :: 0 <= i < |parts| ==> Contains(Join(sep, parts), parts[i])
    ensures parts != [] ==> |Join(sep, parts)| == TotalLength(parts) + (|parts| - 1) * |sep|
  {
    forall i | 0 <= i < |parts| ensures Contains(Join(sep, parts), parts[i]) {
      JoinContainsParts(sep, parts, i);
    }
    if parts != [] {
      JoinLength(sep, parts);
    }
  }

  /** Every part occurs in the join. */
  lemma {:induction false} JoinContainsParts(sep: string, parts: seq<string>, i: nat)
    requires i < |parts|
    ensures Contains(Join(sep, parts), parts[i])
    decreases |parts|
  {
    if |parts| == 1 || i == 0 {
      ContainsAt(Join(sep, parts), parts[0], 0);
    } else {
      JoinContainsParts(sep, parts[1..], i - 1);
      ContainsExtend(parts[0] + sep, Join(sep, parts[1..]), "", parts[i]);
      assert parts[0] + sep + Join(sep, parts[1..]) + "" == Join(sep, parts);
    }
  }

  /** `s.replace(a, b)` for one-character `a` and `b`. */
  function ReplaceChar(s: string, a: char, b: char): (r: string)
    ensures |r| == |s|
    ensures forall i :: 0 <= i < |s| ==> r[i] == (if s[i] == a then b else s[i])
  {
    Map(s, (c: char) => if c == a then b else c)
  }

  /** `re.sub("[^K]+", rep, s)` where `keep` is the class K: every maximal run of
      characters outside the class becomes the single character `rep`. */
  function SubRuns(s: string, keep: char -> bool, rep: char): string
    decreases |s|
  {
    if s == [] then []
    else if keep(s[0]) then [s[0]] + SubRuns(s[1..], keep, rep)
    else [rep] + SubRuns(s[LeadingCount(s, c => !keep(c))..], keep, rep)
  }

  /** When the replacement is in the class, the result holds only characters of the class. */
  lemma {:induction false} SubRunsInClass(s: string, keep: char -> bool, rep: char)
    requires keep(rep)
    ensures forall c :: c in SubRuns(s, keep, rep) ==> keep(c)
    decreases |s|
  {
    if s != [] {
      if keep(s[0]) {
        SubRunsInClass(s[1..], keep, rep);
      } else {
        SubRunsInClass(s[LeadingCount(s, c => !keep(c))..], keep, rep);
      }
    }
  }

  /** A string made only of class characters is left as it is. */
  lemma {:induction false} SubRunsIdentity(s: string, keep: char -> bool, rep: char)
    requires forall c :: c in s ==> keep(c)
    ensures SubRuns(s, keep, rep) == s
    decreases |s|
  {
    if s != [] {
      SubRunsIdentity(s[1..], keep, rep);
    }
  }

  /** A class character at the front is copied. */
  lemma SubRunsKept(c: char, rest: string, keep: char -> bool, rep: char)
    requires keep(c)
    ensures SubRuns([c] + rest, keep, rep) == [c] + SubRuns(rest, keep, rep)
  {
    assert ([c] + rest)[1..] == rest;
  }

  /** A prefix of class characters is copied as it is. */
  lemma {:induction false} SubRunsPrefix(a: string, t: string, keep: char -> bool, rep: char)
    requires forall c :: c in a ==> keep(c)
    ensures SubRuns(a + t, keep, rep) == a + SubRuns(t, keep, rep)
    decreases |a|
  {
    if a != [] {
      assert a[0] in a;
      assert a + t == [a[0]] + (a[1..] + t);
      SubRunsKept(a[0], a[1..] + t, keep, rep);
      SubRunsPrefix(a[1..], t, keep, rep);
      assert [a[0]] + (a[1..] + SubRuns(t, keep, rep)) == a + SubRuns(t, keep, rep);
    } else {
      assert a + t == t;
    }
  }

  /** A maximal run outside the class (followed by the
      end or by a class character) becomes one `rep`. With the identity above these fix
      the result on every input. */
  lemma SubRunsStep(run: string, rest: string, keep: char -> bool, rep: char)
    requires run != [] && forall c :: c in run ==> !keep(c)
    requires rest == [] || keep(rest[0])
    ensures SubRuns(run + rest, keep, rep) == [rep] + SubRuns(rest, keep, rep)
  {
    var s := run + rest;
    var n := LeadingCount(s, c => !keep(c));
    assert forall k :: 0 <= k < |run| ==> !keep(s[k]);
    assert rest != [] ==> keep(s[|run|]);
    assert n == |run|;
    assert s[n..] == rest;
  }

  /** A run outside the class between two strings of class characters becomes one `rep`. */
  lemma SubRunsBetween(a: string, run: string, b: string, keep: char -> bool, rep: char)
    requires forall c :: c in a ==> keep(c)
    requires run != [] && forall c :: c in run ==> !keep(c)
    requires forall c :: c in b ==> keep(c)
    ensures SubRuns(a + run + b, keep, rep) == a + [rep] + b
  {
    assert a + run + b == a + (run + b);
    SubRunsPrefix(a, run + b, keep, rep);
    assert b != [] ==> b[0] in b;
    SubRunsStep(run, b, keep, rep);
    SubRunsIdentity(b, keep, rep);
    assert a + ([rep] + b) == a + [rep] + b;
  }

  /** `s[:n]`, including Python's counting from the end for a negative `n`. */
  function Slice(s: string, n: int): (r: string)
    ensures IsPrefix(r, s)
    ensures n >= 0 ==> |r| <= n
    ensures n >= |s| ==> r == s
    ensures 0 <= n <= |s| ==> |r| == n
    ensures n < 0 && -n <= |s| ==> |r| == |s| + n
    ensures n < 0 && -n > |s| ==> r == ""
  {
    if n >= 0 then s[..if n < |s| then n else |s|]
    else s[..if |s| + n > 0 then |s| + n else 0]
  }
}
