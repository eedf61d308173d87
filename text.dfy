/** The Python string operations the pipeline relies on: `find`, `in`,
    `split`, `join`, `endswith` and `strip`, over strings of Unicode code
    points. */
module Text {

  /** `sep` occurs in `s` starting at index `i`. */
  predicate OccursAt(s: string, sep: string, i: nat)
  {
    i + |sep| <= |s| && s[i..i + |sep|] == sep
  }

  /** Python's `s.find(sep, from)`: the first index at or after `from` where
      `sep` occurs, or -1 when there is none. */
  function FindFrom(s: string, sep: string, from: nat): (r: int)
    ensures r == -1 || (from <= r && OccursAt(s, sep, r))
    ensures r == -1 ==> forall i :: from <= i ==> !OccursAt(s, sep, i)
    ensures r >= 0 ==> forall i :: from <= i < r ==> !OccursAt(s, sep, i)
    decreases |s| - from
  {
    if from + |sep| > |s| then -1
    else if s[from..from + |sep|] == sep then from
    else FindFrom(s, sep, from + 1)
  }

  /** Python's `s.find(sep)`: the first occurrence, or -1 when `sep` does
      not occur at all. */
  function Find(s: string, sep: string): (r: int)
    ensures r == -1 || (0 <= r && OccursAt(s, sep, r))
    ensures r == -1 <==> forall i: nat :: !OccursAt(s, sep, i)
    ensures r >= 0 ==> forall i :: 0 <= i < r ==> !OccursAt(s, sep, i)
  {
    FindFrom(s, sep, 0)
  }

  /** Python's `sep in s`. */
  predicate Contains(s: string, sep: string)
  {
    Find(s, sep) >= 0
  }

  /** `Contains` holds exactly when some index is an occurrence. */
  lemma ContainsIff(s: string, sep: string)
    ensures Contains(s, sep) <==> exists i: nat :: OccursAt(s, sep, i)
  {
  }

  /** An occurrence of `sep` inside `s[a..b]` is an occurrence inside `s`. */
  lemma OccursInSlice(s: string, sep: string, a: nat, b: nat, i: nat)
    requires a <= b <= |s|
    ensures OccursAt(s[a..b], sep, i) ==> OccursAt(s, sep, a + i)
  {
    var t := s[a..b];
    if i + |sep| <= |t| {
      forall j | i <= j < i + |sep| ensures t[j] == s[a + j] { }
      assert t[i..i + |sep|] == s[a + i..a + i + |sep|];
    }
  }

  /** For a one-character needle, `c in s` on strings is membership. */
  lemma ContainsChar(s: string, c: char)
    ensures Contains(s, [c]) <==> c in s
  {
    if c in s {
      var i :| 0 <= i < |s| && s[i] == c;
      assert s[i..i + 1] == [c];
      assert OccursAt(s, [c], i);
    }
    if Contains(s, [c]) {
      var i := Find(s, [c]);
      assert s[i] == s[i..i + 1][0] == c;
    }
  }

  /** The first occurrence of a character that `p` lacks, in `p + [c] + rest`,
      is right after `p`. */
  lemma FindCharAfter(p: string, c: char, rest: string)
    requires c !in p
    ensures Find(p + [c] + rest, [c]) == |p|
  {
    ContainsChar(p, c);
    FindAfterClean(p, [c], rest);
  }

  /** Python's `s.endswith(suffix)`. */
  predicate EndsWith(s: string, suffix: string)
  {
    |suffix| <= |s| && s[|s| - |suffix|..] == suffix
  }

  /** Python's `s.split(sep)` for a non-empty separator: the pieces between
      the non-overlapping occurrences of `sep`, scanned from the left. */
  function Split(s: string, sep: string): (parts: seq<string>)
    requires sep != ""
    ensures |parts| >= 1
    decreases |s|
  {
    var i := Find(s, sep);
    if i < 0 then [s] else [s[..i]] + Split(s[i + |sep|..], sep)
  }

  /** Python's `sep.join(parts)`. */
  function Join(parts: seq<string>, sep: string): string
  {
    if |parts| == 0 then ""
    else if |parts| == 1 then parts[0]
    else parts[0] + sep + Join(parts[1..], sep)
  }

  /** Joining two non-empty lists is joining each and putting a separator
      between them. */
  lemma {:induction false} JoinAppend(a: seq<string>, b: seq<string>, sep: string)
    requires a != [] && b != []
    ensures Join(a + b, sep) == Join(a, sep) + sep + Join(b, sep)
  {
    if |a| == 1 {
      assert (a + b)[1..] == b;
    } else {
      assert (a + b)[1..] == a[1..] + b;
      JoinAppend(a[1..], b, sep);
    }
  }

  /** A separator none of whose proper suffixes is also a prefix of it, so
      that an occurrence can never straddle the end of a piece. ", " and " "
      are unbordered. */
  predicate Unbordered(sep: string)
  {
    forall k :: 0 < k < |sep| ==> sep[k..] != sep[..|sep| - k]
  }

  /** The first piece of a split is the text before the first separator, or
      the whole string when there is no separator. */
  lemma SplitHead(s: string, sep: string)
    requires sep != ""
    ensures Find(s, sep) < 0 ==> Split(s, sep)[0] == s
    ensures Find(s, sep) >= 0 ==> Split(s, sep)[0] == s[..Find(s, sep)]
  {
  }

  /** No piece of a split contains the separator. */
  lemma {:induction false} SplitPiecesClean(s: string, sep: string)
    requires sep != ""
    ensures forall p :: p in Split(s, sep) ==> !Contains(p, sep)
    decreases |s|
  {
    var i := Find(s, sep);
    if i >= 0 {
      var head := s[..i];
      forall j: nat ensures !OccursAt(head, sep, j) {
        OccursInSlice(s, sep, 0, i, j);
      }
      SplitPiecesClean(s[i + |sep|..], sep);
      assert Split(s, sep) == [head] + Split(s[i + |sep|..], sep);
    }
  }

  /** Joining the pieces of a split gives back the string. */
  lemma {:induction false} JoinSplit(s: string, sep: string)
    requires sep != ""
    ensures Join(Split(s, sep), sep) == s
    decreases |s|
  {
    var i := Find(s, sep);
    if i >= 0 {
      var rest := s[i + |sep|..];
      SplitAtFirst(s, sep);
      JoinSplit(rest, sep);
      var tail := Split(rest, sep);
      assert ([s[..i]] + tail)[1..] == tail;
    }
  }

  /** At the first occurrence of `sep`, `s` is the piece before it, `sep`
      and the rest, and the split is that piece followed by the split of the
      rest. */
  lemma SplitAtFirst(s: string, sep: string)
    requires sep != "" && Contains(s, sep)
    ensures var i := Find(s, sep);
            s == s[..i] + sep + s[i + |sep|..]
            && Split(s, sep) == [s[..i]] + Split(s[i + |sep|..], sep)
  {
    var i := Find(s, sep);
    assert s[i..i + |sep|] == sep;
    assert s == s[..i] + s[i..i + |sep|] + s[i + |sep|..];
  }

  /** An occurrence wholly inside `p` would be an occurrence in `p`. */
  lemma NoOccurrenceInside(p: string, sep: string, rest: string, i: nat)
    requires !Contains(p, sep)
    requires i + |sep| <= |p|
    ensures !OccursAt(p + sep + rest, sep, i)
  {
    assert (p + sep + rest)[i..i + |sep|] == p[i..i + |sep|];
    assert !OccursAt(p, sep, i);
  }

  /** An occurrence cannot start in `p` and end inside the following `sep`
      when `sep` is unbordered. */
  lemma NoStraddle(p: string, sep: string, rest: string, i: nat)
    requires Unbordered(sep)
    requires i < |p| < i + |sep|
    ensures !OccursAt(p + sep + rest, sep, i)
  {
    var s := p + sep + rest;
    var k := |p| - i;
    assert sep[k..] != sep[..|sep| - k];
    var m :| 0 <= m < |sep| - k && sep[k..][m] != sep[..|sep| - k][m];
    assert s[i..i + |sep|][k + m] == s[|p| + m] == sep[m];
    assert s[i..i + |sep|][k + m] != sep[k + m];
  }

  /** In `p + sep + rest`, where `p` does not contain an unbordered `sep`,
      the first occurrence of `sep` is the one right after `p`. */
  lemma FindAfterClean(p: string, sep: string, rest: string)
    requires sep != "" && Unbordered(sep)
    requires !Contains(p, sep)
    ensures Find(p + sep + rest, sep) == |p|
  {
    var s := p + sep + rest;
    assert s[|p|..|p| + |sep|] == sep;
    assert OccursAt(s, sep, |p|);
    forall i: nat | i < |p| ensures !OccursAt(s, sep, i) {
      if i + |sep| <= |p| {
        NoOccurrenceInside(p, sep, rest, i);
      } else {
        NoStraddle(p, sep, rest, i);
      }
    }
  }

  /** Splitting a join of clean pieces gives back the pieces. */
  lemma {:induction false} SplitJoin(parts: seq<string>, sep: string)
    requires sep != "" && Unbordered(sep)
    requires |parts| >= 1
    requires forall p :: p in parts ==> !Contains(p, sep)
    ensures Split(Join(parts, sep), sep) == parts
  {
    if |parts| == 1 {
      assert Join(parts, sep) == parts[0];
      assert parts[0] in parts;
      assert Find(parts[0], sep) < 0;
      assert parts == [parts[0]];
    } else {
      var rest := Join(parts[1..], sep);
      assert Join(parts, sep) == parts[0] + sep + rest;
      FindAfterClean(parts[0], sep, rest);
      var s := parts[0] + sep + rest;
      assert s[..|parts[0]|] == parts[0];
      assert s[|parts[0]| + |sep|..] == rest;
      SplitJoin(parts[1..], sep);
      assert parts == [parts[0]] + parts[1..];
    }
  }

  /** Python's `str.isspace` for one character: the characters `str.strip()`
      removes. */
  predicate IsSpace(c: char)
  {
    c == ' ' || ('\t' <= c <= '\r') || ('\U{1c}' <= c <= '\U{1f}')
    || c == '\U{85}' || c == '\U{a0}' || c == '\U{1680}'
    || ('\U{2000}' <= c <= '\U{200a}') || c == '\U{2028}' || c == '\U{2029}'
    || c == '\U{202f}' || c == '\U{205f}' || c == '\U{3000}'
  }

  /** Neither end of `s` is whitespace. */
  predicate Trimmed(s: string)
  {
    s == "" || (!IsSpace(s[0]) && !IsSpace(s[|s| - 1]))
  }

  /** Python's `s.lstrip()`: drops the leading whitespace. */
  function TrimStart(s: string): (r: string)
    ensures |r| <= |s| && r == s[|s| - |r|..]
    ensures forall i :: 0 <= i < |s| - |r| ==> IsSpace(s[i])
    ensures r == "" || !IsSpace(r[0])
  {
    if s != [] && IsSpace(s[0]) then TrimStart(s[1..]) else s
  }

  /** Python's `s.rstrip()`: drops the trailing whitespace. */
  function TrimEnd(s: string): (r: string)
    ensures |r| <= |s| && r == s[..|r|]
    ensures forall i :: |r| <= i < |s| ==> IsSpace(s[i])
    ensures r == "" || !IsSpace(r[|r| - 1])
  {
    if s != [] && IsSpace(s[|s| - 1]) then TrimEnd(s[..|s| - 1]) else s
  }

  /** The number of whitespace characters `s.lstrip()` drops. */
  function LeadingSpace(s: string): (n: nat)
    ensures n == |s| - |TrimStart(s)|
  {
    if s != [] && IsSpace(s[0]) then 1 + LeadingSpace(s[1..]) else 0
  }

  /** `r` is `s` without its leading and trailing whitespace: a trimmed
      infix of `s` with only whitespace before and after it. */
  ghost predicate StripsTo(s: string, r: string)
  {
    var n := LeadingSpace(s);
    Trimmed(r) && n + |r| <= |s| && r == s[n..n + |r|]
    && (forall i :: 0 <= i < n ==> IsSpace(s[i]))
    && (forall i :: n + |r| <= i < |s| ==> IsSpace(s[i]))
  }

  /** Python's `s.strip()`: the infix of `s` that starts after its leading
      whitespace and ends before its trailing whitespace. */
  function Strip(s: string): (r: string)
    ensures Trimmed(r)
    ensures LeadingSpace(s) + |r| <= |s| && r == s[LeadingSpace(s)..LeadingSpace(s) + |r|]
    ensures forall i :: 0 <= i < LeadingSpace(s) ==> IsSpace(s[i])
    ensures forall i :: LeadingSpace(s) + |r| <= i < |s| ==> IsSpace(s[i])
  {
    TrimEnd(TrimStart(s))
  }

  /** `Strip(s)` is `s` stripped. */
  lemma StripStripsTo(s: string)
    ensures StripsTo(s, Strip(s))
  {
  }

  /** At most one string is `s` stripped, so `StripsTo` pins down `Strip`. */
  lemma StripsToUnique(s: string, r1: string, r2: string)
    requires StripsTo(s, r1) && StripsTo(s, r2)
    ensures r1 == r2
  {
    if r1 != "" {
      StripEndsInText(s, r1);
    }
    if r2 != "" {
      StripEndsInText(s, r2);
    }
    assert |r1| == |r2|;
  }

  /** A non-empty stripped string ends at a non-whitespace character of `s`. */
  lemma StripEndsInText(s: string, r: string)
    requires StripsTo(s, r) && r != ""
    ensures LeadingSpace(s) + |r| - 1 < |s| && !IsSpace(s[LeadingSpace(s) + |r| - 1])
  {
    assert r[|r| - 1] == s[LeadingSpace(s) + |r| - 1];
  }

  /** Stripping changes nothing when neither end is whitespace; in particular
      `Strip` is idempotent. */
  lemma StripTrimmed(s: string)
    requires Trimmed(s)
    ensures Strip(s) == s
  {
  }
}
