/**
 * String helpers with Python's semantics: `needle in hay`, `s.split(sep)[1]`,
 * `str(n)` for naturals, and the two `os.path` functions the workflows use.
 */
module Text {
  import opened Wrappers

  /** `needle` occurs in `hay` starting at index `i`. */
  predicate OccursAt(hay: string, needle: string, i: nat) {
    i + |needle| <= |hay| && hay[i..i + |needle|] == needle
  }

  /** Python's `needle in hay` on strings (the empty string occurs everywhere). */
  predicate Contains(hay: string, needle: string) {
    exists i: nat | i <= |hay| :: OccursAt(hay, needle, i)
  }

  lemma ContainsInfix(a: string, b: string, c: string)
    ensures Contains(a + b + c, b)
  {
    var s := a + b + c;
    assert s[|a|..|a| + |b|] == b;
    assert OccursAt(s, b, |a|);
  }

  /** The first index at or after `from` where `sep` occurs in `s`. */
  function IndexOf(s: string, sep: string, from: nat): (r: Option<nat>)
    ensures r.Some? ==> from <= r.value && OccursAt(s, sep, r.value)
    ensures r.Some? ==> forall j: nat :: from <= j < r.value ==> !OccursAt(s, sep, j)
    ensures r.None? ==> forall j: nat :: from <= j ==> !OccursAt(s, sep, j)
    decreases |s| - from
  {
    if from + |sep| > |s| then None
    else if s[from..from + |sep|] == sep then Some(from)
    else IndexOf(s, sep, from + 1)
  }

  /**
   * Python's `s.split(sep)[1]` for a non-empty `sep`: the text between the first
   * occurrence of `sep` and the next one (or the end). `None` stands for the
   * IndexError raised when `sep` does not occur at all.
   */
  function SecondField(s: string, sep: string): (r: Option<string>)
    requires sep != []
    ensures r.None? <==> !Contains(s, sep)
    ensures r.Some? ==> !Contains(r.value, sep)
    ensures r.Some? ==> exists i: nat :: FieldAfterFirst(s, sep, i, r.value)
  {
    match IndexOf(s, sep, 0)
    case None => None
    case Some(i) =>
      var rest := s[i + |sep|..];
      match IndexOf(rest, sep, 0)
      case None => FieldToEnd(s, sep, i); Some(rest)
      case Some(j) =>
        FieldBeforeOccurrence(rest, sep, j);
        FieldToNext(s, sep, i, rest, j);
        Some(rest[..j])
  }

  /** Without a second occurrence the field runs to the end of `s`. */
  lemma FieldToEnd(s: string, sep: string, i: nat)
    requires sep != [] && IndexOf(s, sep, 0) == Some(i)
    requires IndexOf(s[i + |sep|..], sep, 0) == None
    ensures !Contains(s[i + |sep|..], sep)
    ensures FieldAfterFirst(s, sep, i, s[i + |sep|..])
  {
    var rest := s[i + |sep|..];
    NoOccurrenceNotContains(rest, sep);
    NoOccurrenceWithin(s, sep, i + |sep|, |rest|);
    assert s[i + |sep|..i + |sep| + |rest|] == rest;
  }

  /** With a second occurrence at `j` past the first, the field stops there. */
  lemma FieldToNext(s: string, sep: string, i: nat, rest: string, j: nat)
    requires OccursAt(s, sep, i) && forall k: nat :: k < i ==> !OccursAt(s, sep, k)
    requires i + |sep| <= |s| && rest == s[i + |sep|..]
    requires OccursAt(rest, sep, j) && forall k: nat :: k < j ==> !OccursAt(rest, sep, k)
    ensures j <= |rest|
    ensures FieldAfterFirst(s, sep, i, rest[..j])
  {
    var start := i + |sep|;
    NoOccurrenceWithin(s, sep, start, j);
    OccursAfter(s, sep, start, j);
    assert s[start..start + j] == s[start..][..j];
  }

  /**
   * `f` is the field `split` yields after the occurrence of `sep` at `i`, the
   * first one in `s`: it starts right after it, no occurrence starts inside it,
   * and it ends at the end of `s` or where the next occurrence starts.
   */
  predicate FieldAfterFirst(s: string, sep: string, i: nat, f: string) {
    && OccursAt(s, sep, i)
    && (forall j: nat :: j < i ==> !OccursAt(s, sep, j))
    && i + |sep| + |f| <= |s|
    && s[i + |sep|..i + |sep| + |f|] == f
    && (forall k: nat :: i + |sep| <= k < i + |sep| + |f| ==> !OccursAt(s, sep, k))
    && (i + |sep| + |f| == |s| || OccursAt(s, sep, i + |sep| + |f|))
  }

  /** The field is determined: any text `FieldAfterFirst` describes is `split(sep)[1]`. */
  lemma FieldAfterFirstUnique(s: string, sep: string, i: nat, f: string)
    requires sep != [] && FieldAfterFirst(s, sep, i, f)
    ensures SecondField(s, sep) == Some(f)
  {
    IndexOfFirst(s, sep, 0, i);
    var rest := s[i + |sep|..];
    FieldInRest(s, sep, i, rest, f);
    if |f| == |rest| {
      IndexOfAbsent(rest, sep);
      SecondFieldToEnd(s, sep, i);
      assert rest == f;
    } else {
      IndexOfFirst(rest, sep, 0, |f|);
      SecondFieldToNext(s, sep, i, |f|);
    }
  }

  /** `SecondField` when no second occurrence follows the first. */
  lemma SecondFieldToEnd(s: string, sep: string, i: nat)
    requires sep != [] && IndexOf(s, sep, 0) == Some(i)
    requires IndexOf(s[i + |sep|..], sep, 0) == None
    ensures SecondField(s, sep) == Some(s[i + |sep|..])
  {
  }

  /** `SecondField` when a second occurrence starts `j` past the first. */
  lemma SecondFieldToNext(s: string, sep: string, i: nat, j: nat)
    requires sep != [] && IndexOf(s, sep, 0) == Some(i)
    requires IndexOf(s[i + |sep|..], sep, 0) == Some(j)
    ensures SecondField(s, sep) == Some(s[i + |sep|..][..j])
  {
  }

  /** The field seen from the text after the first occurrence. */
  lemma FieldInRest(s: string, sep: string, i: nat, rest: string, f: string)
    requires FieldAfterFirst(s, sep, i, f) && rest == s[i + |sep|..]
    ensures |f| <= |rest| && rest[..|f|] == f
    ensures forall k: nat :: k < |f| ==> !OccursAt(rest, sep, k)
    ensures |f| < |rest| ==> OccursAt(rest, sep, |f|)
  {
    var start := i + |sep|;
    forall k: nat | k < |f|
      ensures !OccursAt(rest, sep, k)
    {
      if OccursAt(rest, sep, k) {
        OccursAfter(s, sep, start, k);
      }
    }
    assert rest[..|f|] == s[start..start + |f|];
    if |f| < |rest| {
      assert rest[|f|..|f| + |sep|] == s[start + |f|..start + |f| + |sep|];
    }
  }

  /** Where `sep` never occurs, `IndexOf` finds nothing. */
  lemma IndexOfAbsent(s: string, sep: string)
    requires sep != [] && forall k: nat :: k < |s| ==> !OccursAt(s, sep, k)
    ensures IndexOf(s, sep, 0) == None
  {
  }

  /** The text before the first occurrence of `sep` does not contain `sep`. */
  lemma FieldBeforeOccurrence(rest: string, sep: string, j: nat)
    requires sep != []
    requires IndexOf(rest, sep, 0) == Some(j)
    ensures !Contains(rest[..j], sep)
  {
    var f := rest[..j];
    forall k: nat | k <= |f|
      ensures !OccursAt(f, sep, k)
    {
      if OccursAt(f, sep, k) {
        assert k < j;
        assert f[k..k + |sep|] == rest[k..k + |sep|];
        assert OccursAt(rest, sep, k);
      }
    }
  }

  lemma OccursAfter(s: string, sep: string, start: nat, j: nat)
    requires start <= |s|
    requires OccursAt(s[start..], sep, j)
    ensures OccursAt(s, sep, start + j)
  {
    assert s[start..][j..j + |sep|] == s[start + j..start + j + |sep|];
  }

  /** No occurrence in the first `len` positions of `s[start..]` is none in `s` there. */
  lemma NoOccurrenceWithin(s: string, sep: string, start: nat, len: nat)
    requires start <= |s|
    requires forall k: nat :: k < len ==> !OccursAt(s[start..], sep, k)
    ensures forall j: nat :: start <= j < start + len ==> !OccursAt(s, sep, j)
  {
    forall j: nat | start <= j < start + len
      ensures !OccursAt(s, sep, j)
    {
      if OccursAt(s, sep, j) {
        assert s[start..][j - start..j - start + |sep|] == s[j..j + |sep|];
        assert OccursAt(s[start..], sep, j - start);
      }
    }
  }

  lemma NoOccurrenceNotContains(s: string, sep: string)
    requires forall j: nat :: j < |s| ==> !OccursAt(s, sep, j)
    requires sep != []
    ensures !Contains(s, sep)
  {
  }

  /** The first occurrence at or after `from` is the one `IndexOf` finds. */
  lemma IndexOfFirst(s: string, sep: string, from: nat, i: nat)
    requires from <= i && OccursAt(s, sep, i)
    requires forall j: nat :: from <= j < i ==> !OccursAt(s, sep, j)
    ensures IndexOf(s, sep, from) == Some(i)
  {
  }

  /** One differing character rules out an occurrence. */
  lemma Mismatch(hay: string, needle: string, i: nat, k: nat)
    requires i + |needle| <= |hay| && k < |needle| && hay[i + k] != needle[k]
    ensures !OccursAt(hay, needle, i)
  {
    assert hay[i..i + |needle|][k] == hay[i + k];
  }

  /** The decimal digit for `d`. */
  function DigitChar(d: nat): (c: char)
    requires d < 10
    ensures '0' <= c <= '9'
  {
    ('0' as int + d) as char
  }

  /** Python's `str(n)` (and `f'{n}'`) for a natural number. */
  function NatToString(n: nat): (s: string)
    ensures |s| >= 1
    ensures forall i :: 0 <= i < |s| ==> '0' <= s[i] <= '9'
    ensures (|s| == 1) == (n < 10)
  {
    if n < 10 then [DigitChar(n)] else NatToString(n / 10) + [DigitChar(n % 10)]
  }

  /** Different numbers are printed differently. */
  lemma {:induction false} NatToStringInjective(m: nat, n: nat)
    requires NatToString(m) == NatToString(n)
    ensures m == n
  {
    if m >= 10 && n >= 10 {
      var sm, sn := NatToString(m), NatToString(n);
      assert sm[..|sm| - 1] == NatToString(m / 10);
      assert sn[..|sn| - 1] == NatToString(n / 10);
      NatToStringInjective(m / 10, n / 10);
      assert DigitChar(m % 10) == sm[|sm| - 1] == sn[|sn| - 1] == DigitChar(n % 10);
    }
  }

  /** `posixpath.basename(p)`: the text after the last `/`. */
  function Basename(p: string): (b: string)
    ensures '/' !in b
    ensures |b| <= |p| && b == p[|p| - |b|..]
    ensures |b| < |p| ==> p[|p| - |b| - 1] == '/'
  {
    if p == [] then []
    else if p[|p| - 1] == '/' then []
    else Basename(p[..|p| - 1]) + [p[|p| - 1]]
  }

  /** `posixpath.join(dir, name)` for two components. */
  function JoinPath(dir: string, name: string): string {
    if |name| > 0 && name[0] == '/' then name
    else if dir == [] || dir[|dir| - 1] == '/' then dir + name
    else dir + "/" + name
  }

  /** Joining to one directory is injective on names that do not start with `/`. */
  lemma JoinPathInjective(dir: string, a: string, b: string)
    requires (|a| > 0 ==> a[0] != '/') && (|b| > 0 ==> b[0] != '/')
    requires JoinPath(dir, a) == JoinPath(dir, b)
    ensures a == b
  {
    var j := JoinPath(dir, a);
    if dir == [] || dir[|dir| - 1] == '/' {
      assert a == j[|dir|..] == b;
    } else {
      assert a == j[|dir| + 1..] == b;
    }
  }
}
