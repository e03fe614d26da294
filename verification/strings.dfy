/** The JavaScript string operations the dashboard relies on, over `seq<char>`:
    `indexOf`/`includes`, `trim`, `split` with a string separator and
    `Array.prototype.join`. */
module Strings {
  import opened Options
  import opened Seqs

  /** `k` occurs in `s` starting at position `i`. */
  ghost predicate OccursAt(s: string, k: string, i: int) {
    0 <= i && i + |k| <= |s| && s[i..i + |k|] == k
  }

  /** `s.indexOf(k)`, with `None` for -1: the first position where `k` occurs. */
  function IndexOf(s: string, k: string): (r: Option<nat>)
    ensures r.Some? ==> OccursAt(s, k, r.value)
    ensures r.Some? ==> forall j :: 0 <= j < r.value ==> !OccursAt(s, k, j)
    ensures r.None? ==> forall j :: !OccursAt(s, k, j)
    decreases |s|
  {
    if |s| < |k| then None
    else if s[..|k|] == k then Some(0)
    else
      var rest := IndexOf(s[1..], k);
      assert forall j :: 1 <= j ==> (OccursAt(s, k, j) <==> OccursAt(s[1..], k, j - 1)) by {
        forall j | 1 <= j
          ensures OccursAt(s, k, j) <==> OccursAt(s[1..], k, j - 1)
        {
          if j + |k| <= |s| {
            assert s[1..][j - 1..j - 1 + |k|] == s[j..j + |k|];
          }
        }
      }
      match rest
      case None => None
      case Some(i) => Some(i + 1)
  }

  /** `s.includes(k)`: a literal, case-sensitive substring test. */
  predicate Includes(s: string, k: string) {
    IndexOf(s, k).Some?
  }

  /** `includes` is exactly "occurs somewhere", and the empty string occurs everywhere. */
  lemma IncludesIffOccurs(s: string, k: string)
    ensures Includes(s, k) <==> exists i :: OccursAt(s, k, i)
    ensures k == [] ==> Includes(s, k)
  {
    if k == [] {
      assert OccursAt(s, k, 0);
    }
  }

  /** The characters `String.prototype.trim` removes: ECMAScript WhiteSpace
      (tab, vertical tab, form feed, space, no-break space, byte order mark and
      the Unicode space separators) and LineTerminator. */
  predicate IsWhitespace(c: char) {
    var n := c as int;
    n == 0x09 || n == 0x0A || n == 0x0B || n == 0x0C || n == 0x0D || n == 0x20
    || n == 0xA0 || n == 0x1680 || (0x2000 <= n <= 0x200A) || n == 0x2028 || n == 0x2029
    || n == 0x202F || n == 0x205F || n == 0x3000 || n == 0xFEFF
  }

  predicate AllWhitespace(s: string) {
    forall i :: 0 <= i < |s| ==> IsWhitespace(s[i])
  }

  /** The first position at or after `i` that does not hold whitespace. */
  function SkipWhitespace(s: string, i: nat): (n: nat)
    requires i <= |s|
    ensures i <= n <= |s|
    ensures forall j :: i <= j < n ==> IsWhitespace(s[j])
    ensures n < |s| ==> !IsWhitespace(s[n])
    decreases |s| - i
  {
    if i < |s| && IsWhitespace(s[i]) then SkipWhitespace(s, i + 1) else i
  }

  /** The smallest end in `lo..hi` after which `s[..hi]` holds only whitespace. */
  function SkipTrailingWhitespace(s: string, lo: nat, hi: nat): (n: nat)
    requires lo <= hi <= |s|
    ensures lo <= n <= hi
    ensures forall j :: n <= j < hi ==> IsWhitespace(s[j])
    ensures n > lo ==> !IsWhitespace(s[n - 1])
    decreases hi - lo
  {
    if hi > lo && IsWhitespace(s[hi - 1]) then SkipTrailingWhitespace(s, lo, hi - 1) else hi
  }

  /** `r` sits at position `i` of `s` with only whitespace on either side. */
  ghost predicate TrimmedAt(s: string, r: string, i: int) {
    && 0 <= i <= |s| - |r|
    && s[i..i + |r|] == r
    && (forall j :: 0 <= j < i ==> IsWhitespace(s[j]))
    && (forall j :: i + |r| <= j < |s| ==> IsWhitespace(s[j]))
  }

  /** `s.trim()`: the factor of `s` left once the whitespace at both ends is
      removed; it neither starts nor ends with whitespace. */
  function Trim(s: string): (r: string)
    ensures |r| <= |s|
    ensures r == [] <==> AllWhitespace(s)
    ensures |r| > 0 ==> !IsWhitespace(r[0]) && !IsWhitespace(r[|r| - 1])
    ensures exists i :: TrimmedAt(s, r, i)
  {
    var a := SkipWhitespace(s, 0);
    var b := SkipTrailingWhitespace(s, a, |s|);
    assert a == b ==> AllWhitespace(s) by {
      if a == b {
        forall j | 0 <= j < |s|
          ensures IsWhitespace(s[j])
        {
          if j >= a { }
        }
      }
    }
    assert TrimmedAt(s, s[a..b], a);
    s[a..b]
  }

  /** `parts.join(sep)`. */
  function Join(parts: seq<string>, sep: string): string
    decreases |parts|
  {
    if |parts| == 0 then ""
    else if |parts| == 1 then parts[0]
    else parts[0] + sep + Join(parts[1..], sep)
  }

  /** `s.split(sep)` for a non-empty separator: cut at every leftmost,
      non-overlapping occurrence of `sep`. Splitting then joining gives back
      the input, and no piece contains the separator. */
  function Split(s: string, sep: string): (r: seq<string>)
    requires |sep| > 0
    ensures |r| >= 1
    ensures Join(r, sep) == s
    ensures forall i :: 0 <= i < |r| ==> IndexOf(r[i], sep).None?
    ensures forall i :: 0 <= i < |r| - 1 ==> SeparatesCleanly(r[i], sep)
    decreases |s|
  {
    match IndexOf(s, sep)
    case None => [s]
    case Some(i) =>
      var head := s[..i];
      var rest := Split(s[i + |sep|..], sep);
      assert s == head + sep + s[i + |sep|..];
      assert IndexOf(head, sep).None? by {
        forall j | OccursAt(head, sep, j)
          ensures false
        {
          assert s[j..j + |sep|] == head[j..j + |sep|];
          assert OccursAt(s, sep, j);
        }
      }
      HeadSeparatesCleanly(s, sep, i);
      [head] + rest
  }

  /** The text before the first occurrence of `sep` separates cleanly: the
      leftmost cut is taken. */
  lemma HeadSeparatesCleanly(s: string, sep: string, i: nat)
    requires IndexOf(s, sep) == Some(i)
    ensures SeparatesCleanly(s[..i], sep)
  {
    var t := s[..i] + sep;
    assert t == s[..i + |sep|];
    assert OccursAt(t, sep, i) by {
      assert t[i..i + |sep|] == s[i..i + |sep|];
    }
    forall j | 0 <= j < i
      ensures !OccursAt(t, sep, j)
    {
      assert !OccursAt(s, sep, j);
      if j + |sep| <= |t| {
        assert t[j..j + |sep|] == s[j..j + |sep|];
      }
    }
    IndexOfIsFirst(t, sep, i);
  }

  /** An occurrence with none before it is the one `indexOf` reports. */
  lemma IndexOfIsFirst(s: string, k: string, i: nat)
    requires OccursAt(s, k, i)
    requires forall j :: 0 <= j < i ==> !OccursAt(s, k, j)
    ensures IndexOf(s, k) == Some(i)
  {
  }

  /** `p` ends where the separator after it starts: the first occurrence of
      `sep` in `p + sep` is the appended one. */
  predicate SeparatesCleanly(p: string, sep: string) {
    IndexOf(p + sep, sep) == Some(|p|)
  }

  /** Whatever follows, the first occurrence of `sep` in `p + sep + rest`
      is the one right after a cleanly separating `p`. */
  lemma FirstSeparatorAfter(p: string, sep: string, rest: string)
    requires SeparatesCleanly(p, sep)
    ensures IndexOf(p + sep + rest, sep) == Some(|p|)
  {
    var s := p + sep + rest;
    assert OccursAt(s, sep, |p|) by {
      assert s[|p|..|p| + |sep|] == sep;
    }
    forall j | 0 <= j < |p| && OccursAt(s, sep, j)
      ensures false
    {
      assert s[j..j + |sep|] == (p + sep)[j..j + |sep|];
      assert OccursAt(p + sep, sep, j);
    }
  }

  /** Splitting a join gives back the parts, when every part but the last
      separates cleanly and the last does not contain the separator. */
  lemma {:induction false} SplitJoin(parts: seq<string>, sep: string)
    requires |sep| > 0 && |parts| >= 1
    requires forall i :: 0 <= i < |parts| - 1 ==> SeparatesCleanly(parts[i], sep)
    requires IndexOf(parts[|parts| - 1], sep).None?
    ensures Split(Join(parts, sep), sep) == parts
    decreases |parts|
  {
    if |parts| > 1 {
      var rest := Join(parts[1..], sep);
      var s := parts[0] + sep + rest;
      FirstSeparatorAfter(parts[0], sep, rest);
      assert s[..|parts[0]|] == parts[0];
      assert s[|parts[0]| + |sep|..] == rest;
      SplitJoin(parts[1..], sep);
      assert parts == [parts[0]] + parts[1..];
    }
  }

  /** A comma-free piece separates cleanly at a comma. */
  lemma CommaFreeSeparates(p: string)
    requires ',' !in p
    ensures SeparatesCleanly(p, ",")
    ensures IndexOf(p, ",").None?
  {
    assert OccursAt(p + ",", ",", |p|);
  }
}
