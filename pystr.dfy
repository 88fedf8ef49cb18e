/**
 * The parts of Python's `str` that the submission script relies on:
 * the whitespace set used by `str.strip()` with no argument, `strip`
 * itself, and the code-point ordering used when `json.dumps` sorts keys.
 */
module PyStr {

  /** Characters for which Python's `str.isspace()` holds: bidirectional class
      WS, B or S, or general category Zs. `str.strip()` removes exactly these. */
  predicate IsSpace(c: char): (b: bool)
    ensures b <==> c in PythonWhitespace
  {
    ('\t' <= c <= '\r')                    // TAB, LF, VT, FF, CR
    || ('\U{1C}' <= c <= '\U{1F}')         // FS, GS, RS, US
    || c == ' '
    || c == '\U{85}'                       // NEL
    || c == '\U{A0}'                       // NO-BREAK SPACE
    || c == '\U{1680}'                     // OGHAM SPACE MARK
    || ('\U{2000}' <= c <= '\U{200A}')     // EN QUAD .. HAIR SPACE
    || c == '\U{2028}' || c == '\U{2029}'  // LINE / PARAGRAPH SEPARATOR
    || c == '\U{202F}'                     // NARROW NO-BREAK SPACE
    || c == '\U{205F}'                     // MEDIUM MATHEMATICAL SPACE
    || c == '\U{3000}'                     // IDEOGRAPHIC SPACE
  }

  /** The same 29 code points listed one by one. */
  const PythonWhitespace: set<char> := {
    '\t', '\n', '\U{0B}', '\U{0C}', '\r', '\U{1C}', '\U{1D}', '\U{1E}', '\U{1F}', ' ',
    '\U{85}', '\U{A0}', '\U{1680}',
    '\U{2000}', '\U{2001}', '\U{2002}', '\U{2003}', '\U{2004}', '\U{2005}',
    '\U{2006}', '\U{2007}', '\U{2008}', '\U{2009}', '\U{200A}',
    '\U{2028}', '\U{2029}', '\U{202F}', '\U{205F}', '\U{3000}'}

  /** Every character of `s` is whitespace (this includes the empty string). */
  predicate Blank(s: string) {
    forall i :: 0 <= i < |s| ==> IsSpace(s[i])
  }

  /** Neither end of `s` is a whitespace character. */
  predicate Trimmed(s: string) {
    s == [] || (!IsSpace(s[0]) && !IsSpace(s[|s| - 1]))
  }

  /** The first index at or after `i` that does not hold whitespace (or `|s|`):
      the forward scan `strip` makes over leading whitespace. */
  function SkipSpaceForward(s: string, i: nat): (k: nat)
    requires i <= |s|
    ensures i <= k <= |s|
    ensures forall m :: i <= m < k ==> IsSpace(s[m])
    ensures k < |s| ==> !IsSpace(s[k])
    decreases |s| - i
  {
    if i < |s| && IsSpace(s[i]) then SkipSpaceForward(s, i + 1) else i
  }

  /** The end of `s[lo..j]` once its trailing whitespace is dropped: the
      backward scan `strip` makes, never going below `lo`. */
  function SkipSpaceBackward(s: string, lo: nat, j: nat): (k: nat)
    requires lo <= j <= |s|
    ensures lo <= k <= j
    ensures forall m :: k <= m < j ==> IsSpace(s[m])
    ensures k > lo ==> !IsSpace(s[k - 1])
  {
    if j > lo && IsSpace(s[j - 1]) then SkipSpaceBackward(s, lo, j - 1) else j
  }

  /** Python's `s.strip()`: the slice of `s` left after dropping whitespace
      at both ends. It is empty exactly when `s` is blank. */
  function Strip(s: string): (r: string)
    ensures |r| <= |s|
    ensures Trimmed(r)
    ensures r == "" <==> Blank(s)
  {
    var i := SkipSpaceForward(s, 0);
    s[i..SkipSpaceBackward(s, i, |s|)]
  }

  /** Strip cuts a whitespace prefix and a whitespace suffix off `s` and
      nothing else. */
  lemma StripSlice(s: string) returns (i: nat, j: nat)
    ensures i <= j <= |s|
    ensures Strip(s) == s[i..j]
    ensures forall m :: 0 <= m < i ==> IsSpace(s[m])
    ensures forall m :: j <= m < |s| ==> IsSpace(s[m])
  {
    i := SkipSpaceForward(s, 0);
    j := SkipSpaceBackward(s, i, |s|);
  }

  /** A trimmed piece between whitespace margins is the strip of the whole:
      the uniqueness that makes StripSlice a definition of Strip. */
  lemma StripOfPadded(pre: string, mid: string, post: string)
    requires Blank(pre) && Blank(post) && Trimmed(mid)
    ensures Strip(pre + mid + post) == mid
  {
    var s := pre + mid + post;
    if mid == [] {
      assert Blank(s);
    } else {
      var i := SkipSpaceForward(s, 0);
      assert s[|pre|] == mid[0];
      assert i == |pre|;
      var j := SkipSpaceBackward(s, i, |s|);
      assert s[|pre| + |mid| - 1] == mid[|mid| - 1];
      assert j == |pre| + |mid|;
      assert s[i..j] == mid;
    }
  }

  /** Stripping twice is stripping once. */
  lemma StripIdempotent(s: string)
    ensures Strip(Strip(s)) == Strip(s)
  {
  }

  /** Python's `<` on `str`: lexicographic by code point, a proper prefix
      being smaller. This is the order `json.dumps(..., sort_keys=True)` uses. */
  predicate Less(a: string, b: string) {
    if a == [] then b != []
    else if b == [] then false
    else if a[0] != b[0] then a[0] < b[0]
    else Less(a[1..], b[1..])
  }

  /** Python's string order, stated without recursion: `a < b` exactly when
      `a` is a proper prefix of `b`, or `a` has the smaller code point at the
      first index where the two differ. */
  lemma {:induction false} LessCharacterised(a: string, b: string)
    ensures Less(a, b) <==> IsProperPrefix(a, b) || exists k :: DiffersFirstAt(a, b, k)
  {
    if a == [] || b == [] {
    } else if a[0] != b[0] {
      assert DiffersFirstAt(a, b, 0) <==> a[0] < b[0];
      forall k | 0 < k ensures !DiffersFirstAt(a, b, k) {
        if k <= |a| && k <= |b| {
          assert a[..k][0] == a[0] && b[..k][0] == b[0];
        }
      }
    } else {
      LessStep(a, b);
      LessCharacterised(a[1..], b[1..]);
    }
  }

  /** `a` is a shorter beginning of `b`. */
  predicate IsProperPrefix(a: string, b: string) {
    |a| < |b| && a == b[..|a|]
  }

  /** `a` and `b` agree before index `k` and `a` has the smaller code point there. */
  predicate DiffersFirstAt(a: string, b: string, k: int) {
    0 <= k < |a| && k < |b| && a[..k] == b[..k] && a[k] < b[k]
  }

  /** With equal first characters, the first difference moves one place down
      in the tails. */
  lemma LessStep(a: string, b: string)
    requires a != [] && b != [] && a[0] == b[0]
    ensures (IsProperPrefix(a, b) || exists k :: DiffersFirstAt(a, b, k))
        <==> (IsProperPrefix(a[1..], b[1..]) || exists k :: DiffersFirstAt(a[1..], b[1..], k))
  {
    assert a == [a[0]] + a[1..] && b == [b[0]] + b[1..];
    if IsProperPrefix(a[1..], b[1..]) {
      assert b[..|a|] == [b[0]] + b[1..][..|a| - 1];
    }
    if IsProperPrefix(a, b) {
      assert a[1..] == b[..|a|][1..];
    }
    forall k | DiffersFirstAt(a[1..], b[1..], k) ensures DiffersFirstAt(a, b, k + 1) {
      assert a[..k + 1] == [a[0]] + a[1..][..k] && b[..k + 1] == [b[0]] + b[1..][..k];
    }
    forall k | DiffersFirstAt(a, b, k) ensures k > 0 && DiffersFirstAt(a[1..], b[1..], k - 1) {
      assert a[1..][..k - 1] == a[..k][1..] && b[1..][..k - 1] == b[..k][1..];
    }
  }

  lemma {:induction false} LessIrreflexive(a: string)
    ensures !Less(a, a)
  {
    if a != [] {
      LessIrreflexive(a[1..]);
    }
  }

  lemma {:induction false} LessAsymmetric(a: string, b: string)
    requires Less(a, b)
    ensures !Less(b, a)
  {
    if a != [] && b != [] && a[0] == b[0] {
      LessAsymmetric(a[1..], b[1..]);
    }
  }

  lemma {:induction false} LessTransitive(a: string, b: string, c: string)
    requires Less(a, b) && Less(b, c)
    ensures Less(a, c)
  {
    if a != [] && b != [] && c != [] && a[0] == b[0] && b[0] == c[0] {
      LessTransitive(a[1..], b[1..], c[1..]);
    }
  }

  lemma {:induction false} LessTotal(a: string, b: string)
    requires a != b
    ensures Less(a, b) || Less(b, a)
  {
    if a != [] && b != [] && a[0] == b[0] {
      assert a == [a[0]] + a[1..] && b == [b[0]] + b[1..];
      LessTotal(a[1..], b[1..]);
    }
  }
}
