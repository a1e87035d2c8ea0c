/** The path and identifier helpers of the Document Intelligence ingestion step:
    splitting a blob path into letter/company/affair/file, turning a path into a
    key-safe slug, and picking the PDF names of one affair. */
module DiModule {
  import opened Wrappers
  import opened Seqs
  import opened Text

  // ---------------------------------------------------------------------------
  // parse_blob_path

  /** The characters of the regular expression `[\\/]+` the path is split on. */
  predicate IsPathSep(c: char)
  {
    c == '/' || c == '\\'
  }

  predicate NotPathSep(c: char)
  {
    !IsPathSep(c)
  }

  /** A path segment as the split produces it: non-empty, without a separator. */
  predicate IsSegment(s: string)
  {
    s != [] && forall c :: c in s ==> NotPathSep(c)
  }

  /** `[p for p in re.split(r"[\\/]+", s) if p]`: the maximal separator-free pieces of `s`, in order. */
  function Segments(s: string): (parts: seq<string>)
    ensures forall i :: 0 <= i < |parts| ==> IsSegment(parts[i])
    decreases |s|
  {
    if s == [] then []
    else if IsPathSep(s[0]) then Segments(s[1..])
    else
      var k := LeadingCount(s, NotPathSep);
      [s[..k]] + Segments(s[k..])
  }

  /** A separator always ends a segment: splitting `x/y` splits `x` and `y` apart. */
  lemma {:induction false} SegmentsAround(x: string, y: string)
    ensures Segments(x + "/" + y) == Segments(x) + Segments(y)
    decreases |x|
  {
    var s := x + "/" + y;
    if x == [] {
      assert s[1..] == y;
    } else if IsPathSep(x[0]) {
      assert s[1..] == x[1..] + "/" + y;
      SegmentsAround(x[1..], y);
    } else {
      var k := LeadingCount(x, NotPathSep);
      LeadingAround(x, y);
      Assoc(x[k..], "/", y);
      assert Segments(s) == [x[..k]] + Segments(x[k..] + "/" + y);
      SegmentsAround(x[k..], y);
      assert Segments(x) == [x[..k]] + Segments(x[k..]);
      assert Segments(s) == [x[..k]] + (Segments(x[k..]) + Segments(y));
    }
  }

  lemma SlicesOfAppend(x: string, z: string, k: nat)
    requires k <= |x|
    ensures (x + z)[..k] == x[..k] && (x + z)[k..] == x[k..] + z
  {
  }

  /** The first segment of `x/y` is the first segment of `x`, when `x` starts with one. */
  lemma LeadingAround(x: string, y: string)
    requires x != [] && NotPathSep(x[0])
    ensures var s, k := x + "/" + y, LeadingCount(x, NotPathSep);
      && LeadingCount(s, NotPathSep) == k
      && s[..k] == x[..k]
      && s[k..] == x[k..] + ("/" + y)
  {
    var s := x + "/" + y;
    var k := LeadingCount(x, NotPathSep);
    assert forall j :: 0 <= j < k ==> s[j] == x[j];
    assert k < |x| ==> s[k] == x[k];
    assert k == |x| ==> s[k] == '/';
    LeadingCountUnique(s, NotPathSep, k);
    Assoc(x, "/", y);
    SlicesOfAppend(x, "/" + y, k);
  }

  lemma SegmentsOfSegment(x: string)
    requires IsSegment(x)
    ensures Segments(x) == [x]
  {
    var n := LeadingCount(x, NotPathSep);
    forall k | 0 <= k < |x| ensures NotPathSep(x[k]) {
      assert x[k] in x;
    }
    assert n == |x|;
    assert x[..n] == x && x[n..] == [];
  }

  /** Splitting a "/"-join of segments gives the segments back. */
  lemma {:induction false} SegmentsOfJoin(parts: seq<string>)
    requires forall i :: 0 <= i < |parts| ==> IsSegment(parts[i])
    ensures Segments(Join("/", parts)) == parts
    decreases |parts|
  {
    if |parts| == 1 {
      SegmentsOfSegment(parts[0]);
    } else if |parts| > 1 {
      SegmentsAround(parts[0], Join("/", parts[1..]));
      SegmentsOfSegment(parts[0]);
      SegmentsOfJoin(parts[1..]);
    }
  }

  /** A path written with single "/" separators and none at either end. */
  predicate IsCanonicalPath(s: string)
  {
    && s != []
    && s[0] != '/' && s[|s| - 1] != '/'
    && (forall c :: c in s ==> c != '\\')
    && (forall i :: 0 <= i < |s| - 1 ==> !(s[i] == '/' && s[i + 1] == '/'))
  }

  /** What follows a separator inside a canonical path is a canonical path. */
  lemma CanonicalTail(s: string, k: nat)
    requires IsCanonicalPath(s) && 0 < k < |s| && s[k] == '/'
    ensures IsCanonicalPath(s[k + 1..])
  {
    var y := s[k + 1..];
    assert k + 1 < |s|;
    assert y[0] == s[k + 1] && y[|y| - 1] == s[|s| - 1];
    assert forall c :: c in y ==> c in s;
    forall i | 0 <= i < |y| - 1 ensures !(y[i] == '/' && y[i + 1] == '/') {
      assert y[i] == s[k + 1 + i] && y[i + 1] == s[k + 1 + i + 1];
    }
  }

  /** Re-joining the segments of a canonical path with "/" gives the path back. */
  lemma {:induction false} JoinOfSegments(s: string)
    requires IsCanonicalPath(s)
    ensures Segments(s) != []
    ensures Join("/", Segments(s)) == s
    decreases |s|
  {
    var k := LeadingCount(s, NotPathSep);
    assert s[0] in s;
    assert k > 0;
    if k == |s| {
      assert s[..k] == s && s[k..] == [];
      assert Segments(s) == [s] + Segments([]);
    } else {
      assert s[k] in s;
      assert s[k] == '/';
      var x, y := s[..k], s[k + 1..];
      assert s == x + "/" + y;
      CanonicalTail(s, k);
      JoinOfSegments(y);
      SegmentsAround(x, y);
      assert IsSegment(x);
      SegmentsOfSegment(x);
      assert Segments(s) == [x] + Segments(y);
    }
  }

  /** The record returned by `parse_blob_path`. */
  datatype BlobPath = BlobPath(
    letter: string,
    company: string,
    affair: Option<string>,
    filename: string,
    companyKey: string,
    affairKey: string)

  /** The record built from its four fields, with the two keys of `parse_blob_path`:
      `letter/company` and `letter/company/<affair or 'root'>`. */
  function Record(letter: string, company: string, affair: Option<string>, filename: string): BlobPath
  {
    BlobPath(
      letter, company, affair, filename,
      letter + "/" + company,
      letter + "/" + company + "/" + (if affair.Some? && affair.value != "" then affair.value else "root"))
  }

  /** The fields of a path with at least three segments: the first two, the middle ones joined
      by "/" when there are any, and the last. */
  function FieldsOf(parts: seq<string>): BlobPath
    requires |parts| >= 3
  {
    var affair := if |parts| > 3 then Some(Join("/", parts[2..|parts| - 1])) else None;
    Record(parts[0], parts[1], affair, parts[|parts| - 1])
  }

  /** `parse_blob_path(path)`: a stripped path with fewer than three segments is a ValueError;
      otherwise the first two segments are the letter and company, the last is the file name,
      and the middle ones (if any) joined by "/" are the affair. */
  function ParseBlobPath(path: string): (r: Result<BlobPath>)
    ensures r.Err? <==> |Segments(Strip(path))| < 3
    ensures r.Ok? ==> IsSegment(r.value.letter) && IsSegment(r.value.company) && IsSegment(r.value.filename)
    ensures r.Ok? ==> (r.value.affair.Some? <==> |Segments(Strip(path))| > 3)
    ensures r.Ok? ==> var parts := Segments(Strip(path));
      && r.value.letter == parts[0] && r.value.company == parts[1]
      && r.value.filename == parts[|parts| - 1]
      && (r.value.affair.Some? ==> r.value.affair.value == Join("/", parts[2..|parts| - 1]))
  {
    var parts := Segments(Strip(path));
    if |parts| < 3 then
      Err(ValueError("Path doesn't look like 'letter/company/.../file': " + path))
    else
      Ok(FieldsOf(parts))
  }

  /** The path the record describes, written back with "/" separators. */
  function Rejoin(b: BlobPath): string
  {
    b.letter + "/" + b.company + (if b.affair.Some? then "/" + b.affair.value else "") + "/" + b.filename
  }

  /** The affair of a parsed path is never empty, so `affair or 'root'` picks "root" exactly when
      there is no affair: the affair key is the company key followed by the affair or by "root". */
  lemma ParseBlobPathKeys(path: string)
    requires ParseBlobPath(path).Ok?
    ensures var b := ParseBlobPath(path).value;
      && b.companyKey == b.letter + "/" + b.company
      && (b.affair.Some? ==> b.affair.value != "" && b.affairKey == b.companyKey + "/" + b.affair.value)
      && (b.affair.None? ==> b.affairKey == b.companyKey + "/root")
  {
    var parts := Segments(Strip(path));
    if |parts| > 3 {
      var mid := parts[2..|parts| - 1];
      assert mid[0] == parts[2];
      JoinLength("/", mid);
      assert TotalLength(mid) >= |mid[0]| by {
        assert TotalLength(mid) == |mid[0]| + TotalLength(mid[1..]);
      }
    }
  }

  /** The fields of a segment list, written back with "/", are the join of the list. */
  lemma RejoinFields(parts: seq<string>)
    requires |parts| >= 3
    ensures Rejoin(FieldsOf(parts)) == Join("/", parts)
  {
    var n := |parts|;
    var a, c, f := parts[0], parts[1], parts[n - 1];
    var tail := parts[2..];
    var j2 := Join("/", tail);
    assert parts[1..][1..] == tail;
    assert Join("/", parts[1..]) == c + "/" + j2;
    assert Join("/", parts) == a + "/" + (c + "/" + j2);
    var b := FieldsOf(parts);
    if n > 3 {
      var mid := parts[2..n - 1];
      SplitLast(parts, 2);
      JoinAppend("/", mid, [f]);
      assert j2 == Join("/", mid) + "/" + f;
      var m := Join("/", mid);
      assert b.affair == Some(m);
      assert Rejoin(b) == a + "/" + c + ("/" + m) + "/" + f;
      SlashAssoc(a, c, m, f);
    } else {
      assert tail == [f];
      assert j2 == f;
      assert Rejoin(b) == a + "/" + c + "" + "/" + f;
      SlashAssoc3(a, c, f);
    }
  }

  lemma SlashAssoc(a: string, c: string, m: string, f: string)
    ensures a + "/" + c + ("/" + m) + "/" + f == a + "/" + (c + "/" + (m + "/" + f))
  {
  }

  lemma SlashAssoc3(a: string, c: string, f: string)
    ensures a + "/" + c + "" + "/" + f == a + "/" + (c + "/" + f)
  {
  }

  lemma SplitLast<T>(s: seq<T>, i: nat)
    requires i < |s|
    ensures s[i..] == s[i..|s| - 1] + [s[|s| - 1]]
  {
  }

  /** The keys of a record are prefixes of the path it describes. */
  lemma RecordKeysArePrefixes(letter: string, company: string, affair: Option<string>, filename: string)
    ensures var b := Record(letter, company, affair, filename);
      && IsPrefix(b.companyKey + "/", Rejoin(b))
      && (affair.Some? && affair.value != "" ==> b.affairKey + "/" + filename == Rejoin(b))
  {
    var b := Record(letter, company, affair, filename);
    var key := b.companyKey;
    var mid := if affair.Some? then "/" + affair.value else "";
    Assoc(key + mid, "/", filename);
    Assoc(key, mid, "/" + filename);
    assert Rejoin(b) == key + (mid + ("/" + filename));
    var rest := mid + ("/" + filename);
    assert rest == "/" + rest[1..];
    Assoc(key, "/", rest[1..]);
    assert Rejoin(b) == (key + "/") + rest[1..];
    if affair.Some? && affair.value != "" {
      Assoc(key, "/", affair.value);
    }
  }

  lemma Assoc<T>(a: seq<T>, b: seq<T>, c: seq<T>)
    ensures a + b + c == a + (b + c)
  {
  }

  /** Round trip from the path: for a stripped path with single "/" separators, the fields
      joined back with "/" are the path, and the keys are its prefixes. */
  lemma ParseBlobPathRoundTrip(path: string)
    requires IsCanonicalPath(Strip(path))
    requires ParseBlobPath(path).Ok?
    ensures var b := ParseBlobPath(path).value;
      && Rejoin(b) == Strip(path)
      && IsPrefix(b.companyKey + "/", Strip(path))
      && (b.affair.Some? ==> b.affairKey + "/" + b.filename == Strip(path))
  {
    var s := Strip(path);
    var parts := Segments(s);
    var b := FieldsOf(parts);
    assert ParseBlobPath(path) == Ok(b);
    ParseBlobPathKeys(path);
    JoinOfSegments(s);
    RejoinFields(parts);
    RecordKeysArePrefixes(b.letter, b.company, b.affair, b.filename);
  }

  /** The segments of a record written as a path: letter, company, the affair's own
      segments, file name. */
  lemma SegmentsOfRejoin(letter: string, company: string, affair: Option<string>, filename: string)
    requires IsSegment(letter) && IsSegment(company) && IsSegment(filename)
    ensures Segments(Rejoin(Record(letter, company, affair, filename)))
      == [letter, company] + (if affair.Some? then Segments(affair.value) else []) + [filename]
  {
    SegmentsOfSegment(letter);
    SegmentsOfSegment(company);
    SegmentsOfSegment(filename);
    if affair.Some? {
      SegmentsOfRejoinAffair(letter, company, affair.value, filename);
    } else {
      SegmentsOfRejoinNoAffair(letter, company, filename);
    }
  }

  lemma SegmentsOfRejoinNoAffair(letter: string, company: string, filename: string)
    requires Segments(letter) == [letter] && Segments(company) == [company] && Segments(filename) == [filename]
    ensures Segments(Rejoin(Record(letter, company, None, filename))) == [letter, company] + [filename]
  {
    SlashAssoc3(letter, company, filename);
    assert Rejoin(Record(letter, company, None, filename)) == letter + "/" + (company + "/" + filename);
    SegmentsAround(company, filename);
    SegmentsAround(letter, company + "/" + filename);
  }

  lemma SegmentsOfRejoinAffair(letter: string, company: string, a: string, filename: string)
    requires Segments(letter) == [letter] && Segments(company) == [company] && Segments(filename) == [filename]
    ensures Segments(Rejoin(Record(letter, company, Some(a), filename)))
      == [letter, company] + Segments(a) + [filename]
  {
    RejoinNested(letter, company, a, filename);
    SegmentsOfNested(letter, company, a, filename);
    ListAssoc(letter, company, Segments(a), filename);
  }

  lemma RejoinNested(letter: string, company: string, a: string, filename: string)
    ensures Rejoin(Record(letter, company, Some(a), filename)) == letter + "/" + (company + "/" + (a + "/" + filename))
  {
    SlashAssoc(letter, company, a, filename);
  }

  lemma ListAssoc<T>(p: T, q: T, m: seq<T>, r: T)
    ensures [p] + ([q] + (m + [r])) == [p, q] + m + [r]
  {
  }

  lemma SegmentsOfNested(letter: string, company: string, a: string, filename: string)
    requires Segments(letter) == [letter] && Segments(company) == [company] && Segments(filename) == [filename]
    ensures Segments(letter + "/" + (company + "/" + (a + "/" + filename)))
      == [letter] + ([company] + (Segments(a) + [filename]))
  {
    var t1 := a + "/" + filename;
    var t2 := company + "/" + t1;
    SegmentsAround(a, filename);
    SegmentsAround(company, t1);
    SegmentsAround(letter, t2);
  }


  /** Round trip from the record: writing valid fields as a path and parsing it gives the
      same record back. */
  lemma ParseBlobPathOfRejoin(letter: string, company: string, affair: Option<string>, filename: string)
    requires IsSegment(letter) && IsSegment(company) && IsSegment(filename)
    requires affair.Some? ==> IsCanonicalPath(affair.value)
    requires !IsSpace(letter[0]) && !IsSpace(filename[|filename| - 1])
    ensures var b := Record(letter, company, affair, filename);
      ParseBlobPath(Rejoin(b)) == Ok(b)
  {
    var b := Record(letter, company, affair, filename);
    var s := Rejoin(b);
    assert s[0] == letter[0] && s[|s| - 1] == filename[|filename| - 1];
    StripByIdentity(s, IsSpace);
    SegmentsOfRejoin(letter, company, affair, filename);
    var parts := Segments(s);
    if affair.Some? {
      JoinOfSegments(affair.value);
      assert parts[2..|parts| - 1] == Segments(affair.value);
    }
    assert FieldsOf(parts) == b;
  }

  // ---------------------------------------------------------------------------
  // slugify_path

  /** The class `[A-Za-z0-9._-]` of the slug's regular expression. */
  predicate IsSlugChar(c: char)
  {
    ('A' <= c <= 'Z') || ('a' <= c <= 'z') || ('0' <= c <= '9') || c == '.' || c == '_' || c == '-'
  }

  /** The characters of `strip("-_.")`. */
  predicate IsSlugEdge(c: char)
  {
    c == '-' || c == '_' || c == '.'
  }

  /** The four chained `replace` calls: '/', '\\', '?' and '#' become '_'. */
  function ReplaceSeparators(s: string): string
  {
    ReplaceChar(ReplaceChar(ReplaceChar(ReplaceChar(s, '/', '_'), '\\', '_'), '?', '_'), '#', '_')
  }

  predicate IsReplacedSeparator(c: char)
  {
    c == '/' || c == '\\' || c == '?' || c == '#'
  }

  /** The four replacements act as one character-by-character substitution, and none of the
      four characters survives it. */
  lemma ReplaceSeparatorsAt(s: string)
    ensures |ReplaceSeparators(s)| == |s|
    ensures forall i :: 0 <= i < |s| ==>
      ReplaceSeparators(s)[i] == (if IsReplacedSeparator(s[i]) then '_' else s[i])
    ensures forall c :: c in ReplaceSeparators(s) ==> !IsReplacedSeparator(c)
  {
  }

  /** `slugify_path(p, max_len)` (`max_len` defaults to 200): strip, replace the separators by '_', collapse every run of
      characters outside `[A-Za-z0-9._-]` into one '-', cut to `max_len`, and strip '-', '_'
      and '.' off both ends. The slug uses only the class's characters, is never longer than
      a non-negative `max_len`, and never starts or ends with '-', '_' or '.'. */
  function SlugifyPath(p: string, maxLen: int): (r: string)
    ensures forall c :: c in r ==> IsSlugChar(c)
    ensures maxLen >= 0 ==> |r| <= maxLen
    ensures r == [] || (!IsSlugEdge(r[0]) && !IsSlugEdge(r[|r| - 1]))
  {
    var s := SubRuns(ReplaceSeparators(Strip(p)), IsSlugChar, '-');
    SubRunsInClass(ReplaceSeparators(Strip(p)), IsSlugChar, '-');
    var t := Slice(s, maxLen);
    SliceInClass(s, maxLen);
    TrimmedSlug(t);
    StripBy(t, IsSlugEdge)
  }

  lemma SliceInClass(s: string, n: int)
    requires forall c :: c in s ==> IsSlugChar(c)
    ensures forall c :: c in Slice(s, n) ==> IsSlugChar(c)
  {
    var r := Slice(s, n);
    assert r == s[..|r|];
    forall c | c in r ensures IsSlugChar(c) {
      var j :| 0 <= j < |r| && r[j] == c;
      assert s[j] in s;
    }
  }

  lemma TrimmedSlug(t: string)
    requires forall c :: c in t ==> IsSlugChar(c)
    ensures forall c :: c in StripBy(t, IsSlugEdge) ==> IsSlugChar(c)
    ensures |StripBy(t, IsSlugEdge)| <= |t|
  {
    var r := StripBy(t, IsSlugEdge);
    var i := LeadingCount(t, IsSlugEdge);
    forall c | c in r ensures IsSlugChar(c) {
      var j :| 0 <= j < |r| && r[j] == c;
      assert r[j] == t[i + j];
      assert t[i + j] in t;
    }
  }


  /** On a string made of slug characters with no '-', '_' or '.' at either end, only the
      cut to `max_len` and the final strip act. */
  lemma SlugifyPathOfSlug(t: string, maxLen: int)
    requires forall c :: c in t ==> IsSlugChar(c)
    requires t == [] || (!IsSlugEdge(t[0]) && !IsSlugEdge(t[|t| - 1]))
    ensures SlugifyPath(t, maxLen) == StripBy(Slice(t, maxLen), IsSlugEdge)
  {
    assert t != [] ==> t[0] in t && t[|t| - 1] in t;
    StripByIdentity(t, IsSpace);
    assert Strip(t) == t;
    ReplaceAbsent(t, '/', '_');
    ReplaceAbsent(t, '\\', '_');
    ReplaceAbsent(t, '?', '_');
    ReplaceAbsent(t, '#', '_');
    assert ReplaceSeparators(t) == t;
    SubRunsIdentity(t, IsSlugChar, '-');
  }

  lemma ReplaceAbsent(s: string, a: char, b: char)
    requires a !in s
    ensures ReplaceChar(s, a, b) == s
  {
    assert forall i :: 0 <= i < |s| ==> s[i] != a;
  }

  /** A slug piece: slug characters only, not empty, and no '-', '_' or '.' at either end. */
  predicate IsSlugPiece(t: string)
  {
    t != [] && (forall c :: c in t ==> IsSlugChar(c)) && !IsSlugEdge(t[0]) && !IsSlugEdge(t[|t| - 1])
  }

  /** A '/', '\\', '?' or '#' between two slug pieces becomes '_'. */
  lemma SlugifyPathSeparator(a: string, sep: char, b: string, maxLen: int)
    requires IsSlugPiece(a) && IsSlugPiece(b) && IsReplacedSeparator(sep)
    requires maxLen >= |a| + 1 + |b|
    ensures SlugifyPath(a + [sep] + b, maxLen) == a + "_" + b
  {
    var p := a + [sep] + b;
    assert ReplaceSeparators(Strip(p)) == a + "_" + b by {
      PiecesStripped(a, [sep], b);
      ReplaceSeparatorsAppend(a + [sep], b);
      ReplaceSeparatorsAppend(a, [sep]);
      ReplaceSeparatorsAt([sep]);
      assert ReplaceSeparators([sep]) == "_";
      ReplaceSeparatorsKeeps(a);
      ReplaceSeparatorsKeeps(b);
    }
    SlugOfPieces(a, '_', b, maxLen);
    SlugifyPathFrom(p, maxLen, a + "_" + b, a + "_" + b);
  }

  /** A run of characters outside `[A-Za-z0-9._-]`, none of them one of the four separators,
      between two slug pieces becomes one '-'. */
  lemma SlugifyPathCollapse(a: string, run: string, b: string, maxLen: int)
    requires IsSlugPiece(a) && IsSlugPiece(b)
    requires run != [] && forall c :: c in run ==> !IsSlugChar(c) && !IsReplacedSeparator(c)
    requires maxLen >= |a| + 1 + |b|
    ensures SlugifyPath(a + run + b, maxLen) == a + "-" + b
  {
    var p := a + run + b;
    CollapseUnreplaced(a, run, b);
    SubRunsBetween(a, run, b, IsSlugChar, '-');
    SlugOfPieces(a, '-', b, maxLen);
    SlugifyPathFrom(p, maxLen, p, a + "-" + b);
  }

  /** Neither the strip nor the replacements touch such a string. */
  lemma CollapseUnreplaced(a: string, run: string, b: string)
    requires IsSlugPiece(a) && IsSlugPiece(b)
    requires forall c :: c in run ==> !IsReplacedSeparator(c)
    ensures ReplaceSeparators(Strip(a + run + b)) == a + run + b
  {
    PiecesStripped(a, run, b);
    assert forall c :: c in a ==> !IsReplacedSeparator(c);
    assert forall c :: c in b ==> !IsReplacedSeparator(c);
    ReplaceSeparatorsKeeps(a + run + b);
  }

  /** The slug read off the string after the replacements and the one after the collapse. */
  lemma SlugifyPathFrom(p: string, maxLen: int, replaced: string, collapsed: string)
    requires ReplaceSeparators(Strip(p)) == replaced
    requires SubRuns(replaced, IsSlugChar, '-') == collapsed
    requires StripBy(Slice(collapsed, maxLen), IsSlugEdge) == collapsed
    ensures SlugifyPath(p, maxLen) == collapsed
  {
  }

  /** Whitespace is not a slug character, so a string that starts and ends with a slug
      piece is already stripped. */
  lemma PiecesStripped(a: string, m: string, b: string)
    requires IsSlugPiece(a) && IsSlugPiece(b)
    ensures Strip(a + m + b) == a + m + b
  {
    assert a[0] in a && b[|b| - 1] in b;
    PiecesEnds(a, m, b, IsSpace);
  }

  /** Two slug pieces around one slug character pass the collapse, the cut and the final
      strip unchanged. */
  lemma SlugOfPieces(a: string, mid: char, b: string, maxLen: int)
    requires IsSlugPiece(a) && IsSlugPiece(b) && IsSlugChar(mid)
    requires maxLen >= |a| + 1 + |b|
    ensures SubRuns(a + [mid] + b, IsSlugChar, '-') == a + [mid] + b
    ensures StripBy(Slice(a + [mid] + b, maxLen), IsSlugEdge) == a + [mid] + b
  {
    var q := a + [mid] + b;
    PiecesInClass(a, mid, b);
    SubRunsIdentity(q, IsSlugChar, '-');
    assert Slice(q, maxLen) == q;
    PiecesEnds(a, [mid], b, IsSlugEdge);
  }

  lemma PiecesInClass(a: string, mid: char, b: string)
    requires IsSlugPiece(a) && IsSlugPiece(b) && IsSlugChar(mid)
    ensures forall c :: c in a + [mid] + b ==> IsSlugChar(c)
  {
  }

  lemma PiecesEnds(a: string, m: string, b: string, p: char -> bool)
    requires a != [] && b != [] && !p(a[0]) && !p(b[|b| - 1])
    ensures StripBy(a + m + b, p) == a + m + b
  {
    var q := a + m + b;
    assert q[0] == a[0] && q[|q| - 1] == b[|b| - 1];
    StripByIdentity(q, p);
  }

  /** The replacements act on each character alone. */
  lemma ReplaceSeparatorsAppend(x: string, y: string)
    ensures ReplaceSeparators(x + y) == ReplaceSeparators(x) + ReplaceSeparators(y)
  {
    ReplaceSeparatorsAt(x);
    ReplaceSeparatorsAt(y);
    ReplaceSeparatorsAt(x + y);
    var l, r := ReplaceSeparators(x + y), ReplaceSeparators(x) + ReplaceSeparators(y);
    forall i | 0 <= i < |x + y| ensures l[i] == r[i] {
      if i >= |x| {
        assert (x + y)[i] == y[i - |x|];
      }
    }
  }

  /** A string holding none of the four separators is left as it is. */
  lemma ReplaceSeparatorsKeeps(x: string)
    requires forall c :: c in x ==> !IsReplacedSeparator(c)
    ensures ReplaceSeparators(x) == x
  {
    ReplaceSeparatorsAt(x);
    assert forall i :: 0 <= i < |x| ==> x[i] in x;
  }

  /** Slugifying a slug with the same non-negative `max_len` changes nothing. */
  lemma SlugifyPathIdempotent(p: string, maxLen: int)
    requires maxLen >= 0
    ensures SlugifyPath(SlugifyPath(p, maxLen), maxLen) == SlugifyPath(p, maxLen)
  {
    var t := SlugifyPath(p, maxLen);
    SlugifyPathOfSlug(t, maxLen);
    assert Slice(t, maxLen) == t;
    StripByIdentity(t, IsSlugEdge);
  }

  /** Python counts a negative `max_len` from the end, so the slug then keeps shrinking. */
  lemma SlugifyPathNegativeMaxLen()
    ensures SlugifyPath("ab", -1) == "a"
    ensures SlugifyPath(SlugifyPath("ab", -1), -1) == ""
  {
    SlugifyPathOfSlug("ab", -1);
    assert Slice("ab", -1) == "a";
    StripByIdentity("a", IsSlugEdge);
    SlugifyPathOfSlug("a", -1);
    assert Slice("a", -1) == "";
  }

  // ---------------------------------------------------------------------------
  // read_pdfs and select_affair

  predicate IsPdfName(name: string)
  {
    EndsWith(Lower(name), ".pdf")
  }

  /** The name filter of `read_pdfs`: the names ending in ".pdf" in any ASCII case, in
      listing order. The listing itself comes from blob storage and is a parameter. */
  function PdfNames(names: seq<string>): (r: seq<string>)
    ensures forall n :: n in r <==> n in names && IsPdfName(n)
    ensures IsSubsequence(r, names)
    ensures |r| == Count(names, IsPdfName)
  {
    FilterIsSubsequence(names, IsPdfName);
    FilterCount(names, IsPdfName);
    Filter(names, IsPdfName)
  }

  /** `select_affair(pdfs_all, affair)`: no affair (None or "") keeps the whole list; otherwise
      the names whose lower-cased form contains `affair`, which is not itself lower-cased. */
  function SelectAffair(pdfs: seq<string>, affair: Option<string>): (r: seq<string>)
    ensures affair.None? || affair.value == "" ==> r == pdfs
    ensures affair.Some? && affair.value != "" ==>
      forall n :: n in r <==> n in pdfs && Contains(Lower(n), affair.value)
    ensures affair.Some? && affair.value != "" ==> |r| == Count(pdfs, MatchesAffair(affair.value))
    ensures IsSubsequence(r, pdfs)
  {
    if affair.None? || affair.value == "" then
      assert IsSubsequence(pdfs, pdfs) by { SubsequenceRefl(pdfs); }
      pdfs
    else
      var a := affair.value;
      FilterIsSubsequence(pdfs, MatchesAffair(a));
      FilterCount(pdfs, MatchesAffair(a));
      Filter(pdfs, MatchesAffair(a))
  }

  /** The test `affair in pdf.lower()` on one name. */
  function MatchesAffair(a: string): string -> bool
  {
    n => Contains(Lower(n), a)
  }

  lemma {:induction false} SubsequenceRefl<T>(s: seq<T>)
    ensures IsSubsequence(s, s)
    decreases |s|
  {
    if s != [] {
      SubsequenceRefl(s[1..]);
    }
  }

  /** An affair holding an upper-case ASCII letter matches no name, since only the names are
      lower-cased before the test. */
  lemma SelectAffairUpperCase(pdfs: seq<string>, affair: string)
    requires exists c :: c in affair && IsUpper(c)
    ensures SelectAffair(pdfs, Some(affair)) == []
  {
    var c :| c in affair && IsUpper(c);
    var r := SelectAffair(pdfs, Some(affair));
    if r != [] {
      var n := r[0];
      assert n in r;
      ContainsChars(Lower(n), affair, c);
      LowerIsLower(n);
      assert false;
    }
  }
}
