/** String helpers shared by the three tools: the Python string operations they
    use (`lower`, `strip`, `endswith`, `split(" (")[0]`), `os.path.splitext`,
    and the allow-list of encrypted source extensions. */
module Names {

  datatype Option<T> = None | Some(value: T)

  /** The characters Python treats as whitespace: `str.isspace`, `str.strip`,
      `str.split()` and the regular-expression class `\s` all use this set. */
  predicate IsSpace(c: char) {
    || c == ' ' || c == '\t' || c == '\n' || c == '\r' || c == '\U{0b}' || c == '\U{0c}'
    || ('\U{1c}' <= c <= '\U{1f}') || c == '\U{85}' || c == '\U{a0}' || c == '\U{1680}'
    || ('\U{2000}' <= c <= '\U{200a}') || c == '\U{2028}' || c == '\U{2029}'
    || c == '\U{202f}' || c == '\U{205f}' || c == '\U{3000}'
  }

  /** A decimal digit (only the ASCII ones are modelled). */
  predicate IsDigit(c: char) {
    '0' <= c <= '9'
  }

  predicate IsUpper(c: char) {
    'A' <= c <= 'Z'
  }

  /** A path separator on the tools' platform (Windows accepts both). */
  predicate IsSep(c: char) {
    c == '\\' || c == '/'
  }

  function LowerChar(c: char): (d: char)
    ensures !IsUpper(d)
    ensures !IsUpper(c) ==> d == c
    ensures IsSpace(d) <==> IsSpace(c)
  {
    if IsUpper(c) then (c as int - 'A' as int + 'a' as int) as char else c
  }

  /** Python's `str.lower`, on the ASCII letters. */
  function Lower(s: string): (r: string)
    ensures |r| == |s|
    ensures forall i :: 0 <= i < |s| ==> r[i] == LowerChar(s[i])
  {
    seq(|s|, i requires 0 <= i < |s| => LowerChar(s[i]))
  }

  lemma LowerAppend(a: string, b: string)
    ensures Lower(a + b) == Lower(a) + Lower(b)
  {
    assert forall i :: 0 <= i < |a + b| ==> Lower(a + b)[i] == (Lower(a) + Lower(b))[i];
  }

  predicate EndsWith(s: string, suffix: string) {
    |suffix| <= |s| && s[|s| - |suffix|..] == suffix
  }

  lemma LowerDrop(s: string, i: nat)
    requires i <= |s|
    ensures Lower(s)[i..] == Lower(s[i..])
  {
  }

  lemma EndsWithLowerTail(s: string, suffix: string)
    ensures EndsWith(Lower(s), suffix) <==> |suffix| <= |s| && Lower(s[|s| - |suffix|..]) == suffix
  {
    if |suffix| <= |s| {
      LowerDrop(s, |s| - |suffix|);
    }
  }

  /** A lowered name ends in `suffix` exactly when its last characters, each
      lowered, spell `suffix`. */
  lemma EndsWithLower(s: string, suffix: string)
    ensures EndsWith(Lower(s), suffix) <==>
      |suffix| <= |s| && forall j :: 0 <= j < |suffix| ==> LowerChar(s[|s| - |suffix| + j]) == suffix[j]
  {
    if |suffix| <= |s| {
      var t := Lower(s)[|s| - |suffix|..];
      assert forall j :: 0 <= j < |suffix| ==> t[j] == LowerChar(s[|s| - |suffix| + j]);
    }
  }

  /** Python's `str.endswith` given a tuple of suffixes. */
  predicate EndsWithAny(s: string, suffixes: seq<string>) {
    exists i :: 0 <= i < |suffixes| && EndsWith(s, suffixes[i])
  }

  /** The eleven extensions of encrypted source files (clean.py, archive.py and
      browser_unlock.py carry the same tuple). */
  const SourceExts: seq<string> :=
    [".ncm", ".qmc0", ".qmc3", ".qmcflac", ".qmcogg", ".mgg", ".mflac", ".bkcmp3", ".bkcflac", ".tm0", ".tm3"]

  /** `f.lower().endswith(target_exts)`: the file is an encrypted source. */
  predicate HasSourceExt(name: string) {
    EndsWithAny(Lower(name), SourceExts)
  }

  /** The encrypted source files of a directory listing, in listing order
      (`[f for f in os.listdir(d) if f.lower().endswith(target_exts)]`). */
  function SourceFiles(listing: seq<string>): (r: seq<string>)
    ensures forall x :: x in r <==> x in listing && HasSourceExt(x)
    ensures NoDup(listing) ==> NoDup(r)
  {
    if listing == [] then []
    else
      var x := listing[|listing| - 1];
      var front := SourceFiles(listing[..|listing| - 1]);
      assert forall y :: y in listing <==> y in listing[..|listing| - 1] || y == x;
      if HasSourceExt(x) then front + [x] else front
  }

  /** `sep.join(ws)` for a one-character separator. */
  function JoinWith(ws: seq<string>, sep: char): string {
    if ws == [] then []
    else if |ws| == 1 then ws[0]
    else ws[0] + [sep] + JoinWith(ws[1..], sep)
  }

  /** Python's `str.rstrip()` with no argument. */
  function RStrip(s: string): (r: string)
    ensures |r| <= |s| && r == s[..|r|]
    ensures forall k :: |r| <= k < |s| ==> IsSpace(s[k])
    ensures r == [] || !IsSpace(r[|r| - 1])
  {
    if s != [] && IsSpace(s[|s| - 1]) then RStrip(s[..|s| - 1]) else s
  }

  /** The end of the run of whitespace that starts at index `i`. */
  function SpanFrom(s: string, i: nat): (j: nat)
    requires i <= |s|
    ensures i <= j <= |s|
    ensures forall k :: i <= k < j ==> IsSpace(s[k])
    ensures j < |s| ==> !IsSpace(s[j])
    decreases |s| - i
  {
    if i < |s| && IsSpace(s[i]) then SpanFrom(s, i + 1) else i
  }

  /** The start of the run of whitespace that ends at index `j`, looking no
      further back than `lo`. */
  function TrailStart(s: string, j: nat, lo: nat): (e: nat)
    requires lo <= j <= |s|
    ensures lo <= e <= j
    ensures forall k :: e <= k < j ==> IsSpace(s[k])
    ensures e > lo ==> !IsSpace(s[e - 1])
    decreases j - lo
  {
    if j > lo && IsSpace(s[j - 1]) then TrailStart(s, j - 1, lo) else j
  }

  /** Any whitespace run from `i` that stops at a non-space or at the end is
      the one `SpanFrom` finds. */
  lemma SpanFromUnique(s: string, i: nat, j: nat)
    requires i <= j <= |s|
    requires forall k :: i <= k < j ==> IsSpace(s[k])
    requires j < |s| ==> !IsSpace(s[j])
    ensures SpanFrom(s, i) == j
  {
  }

  /** Likewise for a whitespace run that ends at `j`. */
  lemma TrailStartUnique(s: string, j: nat, lo: nat, e: nat)
    requires lo <= e <= j <= |s|
    requires forall k :: e <= k < j ==> IsSpace(s[k])
    requires e > lo ==> !IsSpace(s[e - 1])
    ensures TrailStart(s, j, lo) == e
  {
  }

  /** The number of leading whitespace characters of `s`. */
  function LeadLen(s: string): (n: nat)
    ensures n <= |s|
    ensures forall k :: 0 <= k < n ==> IsSpace(s[k])
  {
    SpanFrom(s, 0)
  }

  /** Python's `str.strip()` with no argument: `s` with its leading and
      trailing whitespace removed. */
  function Strip(s: string): (r: string)
    ensures LeadLen(s) + |r| <= |s| && r == s[LeadLen(s)..LeadLen(s) + |r|]
    ensures forall k :: LeadLen(s) + |r| <= k < |s| ==> IsSpace(s[k])
    ensures r == [] || (!IsSpace(r[0]) && !IsSpace(r[|r| - 1]))
  {
    var a := SpanFrom(s, 0);
    s[a..TrailStart(s, |s|, a)]
  }

  /** A string with no whitespace at either end is its own strip: `strip`
      is idempotent. */
  lemma StripIdempotent(s: string)
    ensures Strip(Strip(s)) == Strip(s)
  {
    var r := Strip(s);
    if r != [] {
      SpanFromUnique(r, 0, 0);
      TrailStartUnique(r, |r|, 0, |r|);
      assert r[0..|r|] == r;
    }
  }

  /** The two-character separator `" ("` starts at index `k` of `s`. */
  predicate ParenAt(s: string, k: int) {
    0 <= k && k + 1 < |s| && s[k] == ' ' && s[k + 1] == '('
  }

  /** `line.split(" (")[0]`: the text before the first occurrence of `" ("`,
      or the whole line when it has none. */
  function BeforeParen(s: string): (r: string)
    ensures |r| <= |s| && r == s[..|r|]
    ensures r == s || ParenAt(s, |r|)
    ensures forall k :: 0 <= k < |r| ==> !ParenAt(s, k)
  {
    if ParenAt(s, 0) then []
    else if s == [] then []
    else
      var t := BeforeParen(s[1..]);
      assert forall k :: 1 <= k <= |t| ==> ParenAt(s, k) == ParenAt(s[1..], k - 1);
      [s[0]] + t
  }

  /** Whitespace in front of a string makes no difference to `strip`. */
  lemma StripSpacePrefix(w: string, x: string)
    requires forall k :: 0 <= k < |w| ==> IsSpace(w[k])
    ensures Strip(w + x) == Strip(x)
  {
    var y := w + x;
    var a := SpanFrom(x, 0);
    var e := TrailStart(x, |x|, a);
    LeadAfterPrefix(w, x, a);
    TrailAfterPrefix(w, x, a, e);
    SpanFromUnique(y, 0, |w| + a);
    TrailStartUnique(y, |y|, |w| + a, |w| + e);
    AppendSlice(w, x, a, e);
  }

  lemma LeadAfterPrefix(w: string, x: string, a: nat)
    requires forall k :: 0 <= k < |w| ==> IsSpace(w[k])
    requires a <= |x| && forall k :: 0 <= k < a ==> IsSpace(x[k])
    requires a < |x| ==> !IsSpace(x[a])
    ensures forall k :: 0 <= k < |w| + a ==> IsSpace((w + x)[k])
    ensures |w| + a < |w + x| ==> !IsSpace((w + x)[|w| + a])
  {
    forall k | 0 <= k < |w| + a ensures IsSpace((w + x)[k]) {
      if k < |w| {
        assert (w + x)[k] == w[k];
      } else {
        assert (w + x)[k] == x[k - |w|];
      }
    }
  }

  lemma TrailAfterPrefix(w: string, x: string, a: nat, e: nat)
    requires a <= e <= |x|
    requires forall k :: e <= k < |x| ==> IsSpace(x[k])
    requires e > a ==> !IsSpace(x[e - 1])
    ensures forall k :: |w| + e <= k < |w + x| ==> IsSpace((w + x)[k])
    ensures |w| + e > |w| + a ==> !IsSpace((w + x)[|w| + e - 1])
  {
    forall k | |w| + e <= k < |w + x| ensures IsSpace((w + x)[k]) {
      assert (w + x)[k] == x[k - |w|];
    }
  }

  lemma AppendSlice(w: string, x: string, a: nat, e: nat)
    requires a <= e <= |x|
    ensures (w + x)[|w| + a..|w| + e] == x[a..e]
  {
  }

  /** `split(" (")[0]` is the prefix that ends at the first `" ("`, or the
      whole string: any prefix with that property is the one it returns. */
  lemma BeforeParenUnique(s: string, n: nat)
    requires n <= |s| && (n == |s| || ParenAt(s, n))
    requires forall k :: 0 <= k < n ==> !ParenAt(s, k)
    ensures BeforeParen(s) == s[..n]
  {
  }

  /** The name part of a log line: the text before the first `" ("`,
      without outer whitespace (`line.split(" (")[0].strip()`). */
  function NamePart(line: string): string {
    Strip(BeforeParen(line))
  }

  /** A stripped line has the same name part as the line it came from,
      when that name part is not blank. */
  lemma NamePartOfStripped(l: string)
    requires NamePart(l) != []
    ensures NamePart(Strip(l)) == NamePart(l)
  {
    var r := BeforeParen(l);
    if |r| <= LeadLen(l) {
      NamePartInLead(l);
    } else if r == l {
      NamePartNoParen(l);
    } else {
      NamePartInCore(l);
    }
  }

  lemma NamePartInLead(l: string)
    requires |BeforeParen(l)| <= LeadLen(l)
    ensures NamePart(l) == []
  {
    var r := BeforeParen(l);
    assert forall k :: 0 <= k < |r| ==> r[k] == l[k];
    StripSpacePrefix(r, []);
    assert r + [] == r;
  }

  lemma NamePartNoParen(l: string)
    requires BeforeParen(l) == l
    ensures NamePart(Strip(l)) == NamePart(l)
  {
    StrippedHasNoParen(l);
    var c := Strip(l);
    BeforeParenUnique(c, |c|);
    assert c[..|c|] == c;
    StripIdempotent(l);
  }

  lemma StrippedHasNoParen(l: string)
    requires BeforeParen(l) == l
    ensures var c := Strip(l); forall k :: 0 <= k < |c| ==> !ParenAt(c, k)
  {
    var lead := LeadLen(l);
    var c := Strip(l);
    assert c == l[lead..lead + |c|];
    forall k | 0 <= k < |c| ensures !ParenAt(c, k) {
      if ParenAt(c, k) { ParenAtSlice(l, lead, lead + |c|, k); }
    }
  }

  lemma NamePartInCore(l: string)
    requires LeadLen(l) < |BeforeParen(l)| < |l|
    ensures NamePart(Strip(l)) == NamePart(l)
  {
    CoreNamePart(l, LeadLen(l), Strip(l), |BeforeParen(l)|);
  }

  lemma CoreNamePart(l: string, lead: nat, c: string, n: nat)
    requires lead == LeadLen(l) && c == Strip(l) && n == |BeforeParen(l)|
    requires lead < n < |l|
    ensures Strip(BeforeParen(c)) == Strip(BeforeParen(l))
  {
    StrippedKeepsParen(l, lead, c, n);
    BeforeParenSplit(l, lead, c, n);
    BeforeParenUnique(c, n - lead);
    SpacePrefixNamePart(l, lead, c[..n - lead]);
  }

  /** When the first `" ("` of `l` lies past its leading whitespace, it is
      also the first `" ("` of the stripped line `c`. */
  lemma StrippedKeepsParen(l: string, lead: nat, c: string, n: nat)
    requires lead == LeadLen(l) && c == Strip(l) && n == |BeforeParen(l)|
    requires lead < n < |l|
    ensures ParenAt(c, n - lead) && forall k :: 0 <= k < n - lead ==> !ParenAt(c, k)
  {
    ParenBeforeTail(l);
    ParenShift(l, lead, c, n);
  }

  /** ... and the text before it is the leading whitespace followed by the
      stripped line's text before it. */
  lemma BeforeParenSplit(l: string, lead: nat, c: string, n: nat)
    requires lead == LeadLen(l) && c == Strip(l) && n == |BeforeParen(l)|
    requires lead < n < |l|
    ensures n - lead < |c| && BeforeParen(l) == l[..lead] + c[..n - lead]
  {
    ParenBeforeTail(l);
    SliceSplit(l, lead, c, n, BeforeParen(l));
  }

  lemma SliceSplit(l: string, lead: nat, c: string, n: nat, b: string)
    requires lead + |c| <= |l| && c == l[lead..lead + |c|]
    requires lead <= n < lead + |c| && b == l[..n]
    ensures b == l[..lead] + c[..n - lead]
  {
    assert c[..n - lead] == l[lead..n];
  }

  lemma SpacePrefixNamePart(l: string, lead: nat, x: string)
    requires lead == LeadLen(l)
    ensures Strip(l[..lead] + x) == Strip(x)
  {
    assert forall k :: 0 <= k < lead ==> IsSpace(l[..lead][k]);
    StripSpacePrefix(l[..lead], x);
  }

  /** The `(` of the first `" ("` is not trailing whitespace. */
  lemma ParenBeforeTail(l: string)
    requires LeadLen(l) < |BeforeParen(l)| < |l|
    ensures |BeforeParen(l)| + 1 < LeadLen(l) + |Strip(l)|
  {
    var n := |BeforeParen(l)|;
    assert ParenAt(l, n);
    assert !IsSpace(l[n + 1]);
  }

  lemma ParenShift(l: string, lead: nat, c: string, n: nat)
    requires lead + |c| <= |l| && c == l[lead..lead + |c|]
    requires lead <= n && n + 1 < lead + |c| && ParenAt(l, n)
    requires forall k :: 0 <= k < n ==> !ParenAt(l, k)
    ensures ParenAt(c, n - lead) && forall k :: 0 <= k < n - lead ==> !ParenAt(c, k)
  {
    ParenAtSliceBack(l, lead, lead + |c|, n - lead);
    forall k | 0 <= k < n - lead ensures !ParenAt(c, k) {
      if ParenAt(c, k) { ParenAtSlice(l, lead, lead + |c|, k); }
    }
  }

  lemma ParenAtSlice(l: string, a: nat, b: nat, k: int)
    requires a <= b <= |l| && ParenAt(l[a..b], k)
    ensures ParenAt(l, a + k)
  {
    assert l[a..b][k] == l[a + k] && l[a..b][k + 1] == l[a + k + 1];
  }

  lemma ParenAtSliceBack(l: string, a: nat, b: nat, k: int)
    requires a <= b <= |l| && 0 <= k && a + k + 1 < b && ParenAt(l, a + k)
    ensures ParenAt(l[a..b], k)
  {
    assert l[a..b][k] == l[a + k] && l[a..b][k + 1] == l[a + k + 1];
  }

  /** Index of the last occurrence of `c` in `s`, or -1. */
  function LastIndexOf(s: string, c: char): (i: int)
    ensures -1 <= i < |s|
    ensures i >= 0 ==> s[i] == c
    ensures forall k :: i < k < |s| ==> s[k] != c
  {
    if s == [] then -1
    else if s[|s| - 1] == c then |s| - 1
    else LastIndexOf(s[..|s| - 1], c)
  }

  /** Index of the last path separator in `s`, or -1. */
  function LastSepIndex(s: string): (i: int)
    ensures -1 <= i < |s|
    ensures i >= 0 ==> IsSep(s[i])
    ensures forall k :: i < k < |s| ==> !IsSep(s[k])
  {
    if s == [] then -1
    else if IsSep(s[|s| - 1]) then |s| - 1
    else LastSepIndex(s[..|s| - 1])
  }

  /** The last component of a path. */
  function BaseName(p: string): (r: string)
    ensures forall k :: 0 <= k < |r| ==> !IsSep(r[k])
  {
    p[LastSepIndex(p) + 1..]
  }

  /** Every dot of `name` is preceded by dots only: the name has no dot, or
      its dots are a leading run such as that of ".bashrc" or "..". */
  predicate LeadingDotsOnly(name: string) {
    forall k, i :: 0 <= i < k < |name| && name[k] == '.' ==> name[i] == '.'
  }

  /** Some character strictly between `lo` and `hi` is not a dot. */
  predicate NonDotBetween(p: string, lo: int, hi: int) {
    exists i :: lo < i < hi && 0 <= i < |p| && p[i] != '.'
  }

  /** `os.path.splitext` (Windows flavour): the extension runs from the last
      dot of the last path component to the end, unless everything before
      that dot in the component is dots. */
  function SplitExt(p: string): (r: (string, string))
    ensures r.0 + r.1 == p
    ensures r.1 != [] ==> r.1[0] == '.'
    ensures forall k :: 1 <= k < |r.1| ==> r.1[k] != '.' && !IsSep(r.1[k])
  {
    var sep := LastSepIndex(p);
    var dot := LastIndexOf(p, '.');
    if dot > sep && NonDotBetween(p, sep, dot) then (p[..dot], p[dot..])
    else (p, [])
  }

  /** The extension is empty exactly when the last path component has no dot
      other than leading ones. */
  lemma SplitExtEmpty(p: string)
    ensures SplitExt(p).1 == [] <==> LeadingDotsOnly(BaseName(p))
  {
    ExtEmptyIff(p);
    BaseDotsIff(p);
  }

  lemma ExtEmptyIff(p: string)
    ensures SplitExt(p).1 == [] <==>
      !(LastIndexOf(p, '.') > LastSepIndex(p) && NonDotBetween(p, LastSepIndex(p), LastIndexOf(p, '.')))
  {
  }

  lemma BaseDotsIff(p: string)
    ensures LeadingDotsOnly(BaseName(p)) <==>
      !(LastIndexOf(p, '.') > LastSepIndex(p) && NonDotBetween(p, LastSepIndex(p), LastIndexOf(p, '.')))
  {
    var sep := LastSepIndex(p);
    var dot := LastIndexOf(p, '.');
    var b := BaseName(p);
    assert b == p[sep + 1..];
    if dot > sep && NonDotBetween(p, sep, dot) {
      var i :| sep < i < dot && 0 <= i < |p| && p[i] != '.';
      NotDotsOnlyBase(p, sep, dot, i, b);
    } else {
      DotsOnlyBase(p, sep, dot, b);
    }
  }

  /** A non-dot before the last dot of the last component means the
      component has a dot that is not a leading one. */
  lemma NotDotsOnlyBase(p: string, sep: int, dot: int, i: int, b: string)
    requires -1 <= sep < |p| && b == p[sep + 1..]
    requires sep < i < dot < |p| && p[i] != '.' && p[dot] == '.'
    ensures !LeadingDotsOnly(b)
  {
    assert b[dot - sep - 1] == '.';
    assert b[i - sep - 1] != '.';
  }

  /** When no non-dot precedes the last dot within the last component, the
      component's dots are all leading ones. */
  lemma DotsOnlyBase(p: string, sep: int, dot: int, b: string)
    requires -1 <= sep < |p| && b == p[sep + 1..]
    requires -1 <= dot < |p| && forall k :: dot < k < |p| ==> p[k] != '.'
    requires !(dot > sep && NonDotBetween(p, sep, dot))
    ensures LeadingDotsOnly(b)
  {
    forall k, i | 0 <= i < k < |b| && b[k] == '.' ensures b[i] == '.' {
      assert p[sep + 1 + k] == b[k];
      assert p[sep + 1 + i] == b[i];
    }
  }

  /** The name without its extension (`os.path.splitext(name)[0]`). */
  function Stem(p: string): string {
    SplitExt(p).0
  }

  predicate NoDup<T(==)>(s: seq<T>) {
    forall i, j :: 0 <= i < j < |s| ==> s[i] != s[j]
  }

  /** Lexicographic order by code point, the order of Python's `list.sort`
      on strings. */
  predicate LexLe(a: string, b: string) {
    a == [] || (b != [] && (a[0] < b[0] || (a[0] == b[0] && LexLe(a[1..], b[1..]))))
  }

  lemma {:induction false} LexLeTotal(a: string, b: string)
    ensures LexLe(a, b) || LexLe(b, a)
  {
    if a != [] && b != [] && a[0] == b[0] {
      LexLeTotal(a[1..], b[1..]);
    }
  }

  lemma {:induction false} LexLeAntisymmetric(a: string, b: string)
    requires LexLe(a, b) && LexLe(b, a)
    ensures a == b
  {
    if a != [] && b != [] {
      LexLeAntisymmetric(a[1..], b[1..]);
      assert a == [a[0]] + a[1..] && b == [b[0]] + b[1..];
    }
  }

  lemma {:induction false} LexLeTransitive(a: string, b: string, c: string)
    requires LexLe(a, b) && LexLe(b, c)
    ensures LexLe(a, c)
  {
    if a != [] && b != [] && c != [] && a[0] == b[0] && b[0] == c[0] {
      LexLeTransitive(a[1..], b[1..], c[1..]);
    }
  }
}
