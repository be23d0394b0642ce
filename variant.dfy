/** Numbered variants: names such as "Track (1).flac" that a download or copy
    produces to avoid a name collision. Both duplicate resolvers (clean.py and
    the after-batch cleanup of browser_unlock.py) recognise them with the
    pattern `^(.+?)\s*\((\d+)\)(\.[^.]+)$`; `Parse` is that pattern, read
    from the right. */
module Variant {
  import opened Names

  /** The four parts of a variant name: the pattern's group 1 (`base`), the
      whitespace after it (`gap`), group 2 (`digits`) and group 3 (`ext`). */
  datatype Variant = Variant(base: string, gap: string, digits: string, ext: string)

  function Compose(v: Variant): string {
    v.base + v.gap + "(" + v.digits + ")" + v.ext
  }

  /** The name the variant stands for: group 1 followed by group 3. */
  function Sibling(v: Variant): (s: string)
    requires Shape(v)
    ensures |s| + 3 <= |Compose(v)|
  {
    v.base + v.ext
  }

  predicate AllSpace(s: string) {
    forall k :: 0 <= k < |s| ==> IsSpace(s[k])
  }

  predicate AllDigits(s: string) {
    forall k :: 0 <= k < |s| ==> IsDigit(s[k])
  }

  /** `\.[^.]+`: a dot, then at least one character that is not a dot. */
  predicate IsExt(e: string) {
    |e| >= 2 && e[0] == '.' && forall k :: 1 <= k < |e| ==> e[k] != '.'
  }

  /** The parts fit the pattern: `.+?` is at least one character other than a
      line break, `\s*` is whitespace, `\d+` at least one digit. */
  predicate Shape(v: Variant) {
    && |v.base| >= 1 && '\n' !in v.base
    && AllSpace(v.gap)
    && |v.digits| >= 1 && AllDigits(v.digits)
    && IsExt(v.ext)
  }

  /** The lazy `.+?` takes the shortest base: the base does not end in
      whitespace unless it is a single character. */
  predicate Lazy(v: Variant) {
    |v.base| <= 1 || !IsSpace(v.base[|v.base| - 1])
  }

  /** Length of the run of digits at the end of `s`. */
  function DigitRunLen(s: string): (n: nat)
    ensures n <= |s|
    ensures forall k :: |s| - n <= k < |s| ==> IsDigit(s[k])
    ensures n < |s| ==> !IsDigit(s[|s| - n - 1])
  {
    if s != [] && IsDigit(s[|s| - 1]) then 1 + DigitRunLen(s[..|s| - 1]) else 0
  }

  /** `(\.[^.]+)$`: the extension from the last dot to the end, when at
      least one character follows that dot. */
  function SplitExtension(name: string): (r: Option<(string, string)>)
    ensures r.Some? ==> r.value.0 + r.value.1 == name && IsExt(r.value.1)
  {
    var dot := LastIndexOf(name, '.');
    if dot < 0 || dot == |name| - 1 then None
    else Some((name[..dot], name[dot..]))
  }

  lemma SplitExtensionExact(a: string, e: string)
    requires IsExt(e)
    ensures SplitExtension(a + e) == Some((a, e))
  {
    var name := a + e;
    assert name[|a|] == '.';
    assert forall k :: |a| < k < |name| ==> name[k] == e[k - |a|];
    assert LastIndexOf(name, '.') == |a|;
    assert name[..|a|] == a && name[|a|..] == e;
  }

  /** `\((\d+)\)` at the end of `p`: a `(`, the digit run, a `)`. */
  function SplitNumber(p: string): (r: Option<(string, string)>)
    ensures r.Some? ==> (r.value.0 + "(" + r.value.1 + ")" == p
      && |r.value.1| >= 1 && AllDigits(r.value.1))
  {
    if p == [] || p[|p| - 1] != ')' then None
    else
      var q := p[..|p| - 1];
      var n := DigitRunLen(q);
      if n == 0 || n == |q| || q[|q| - n - 1] != '(' then None
      else
        assert q == q[..|q| - n - 1] + "(" + q[|q| - n..];
        Some((q[..|q| - n - 1], q[|q| - n..]))
  }

  lemma SplitNumberExact(a: string, d: string)
    requires |d| >= 1 && AllDigits(d)
    ensures SplitNumber(a + "(" + d + ")") == Some((a, d))
  {
    var p := a + "(" + d + ")";
    var q := p[..|p| - 1];
    assert q == a + "(" + d;
    var n := DigitRunLen(q);
    assert q[|q| - |d| - 1] == '(';
    assert forall k :: |q| - |d| <= k < |q| ==> q[k] == d[k - (|q| - |d|)];
    assert n == |d|;
    assert q[..|q| - n - 1] == a && q[|q| - n..] == d;
  }

  /** `^(.+?)\s*`: the shortest non-empty base such that only whitespace
      follows it; none when the base would hold a line break. */
  function SplitBase(rest: string): (r: Option<(string, string)>)
    ensures r.Some? ==> (r.value.0 + r.value.1 == rest && |r.value.0| >= 1
      && '\n' !in r.value.0 && AllSpace(r.value.1)
      && (|r.value.0| == 1 || !IsSpace(r.value.0[|r.value.0| - 1])))
  {
    if rest == [] then None
    else
      var k := if |RStrip(rest)| == 0 then 1 else |RStrip(rest)|;
      if '\n' in rest[..k] then None
      else
        assert rest[..k] + rest[k..] == rest;
        assert AllSpace(rest[k..]) by {
          forall j | 0 <= j < |rest| - k ensures IsSpace(rest[k..][j]) {
            assert rest[k..][j] == rest[k + j];
          }
        }
        Some((rest[..k], rest[k..]))
  }

  lemma SplitBaseExact(b: string, g: string)
    requires |b| >= 1 && '\n' !in b && AllSpace(g)
    requires |b| == 1 || !IsSpace(b[|b| - 1])
    ensures SplitBase(b + g) == Some((b, g))
  {
    var rest := b + g;
    var r := RStrip(rest);
    assert forall k :: |b| <= k < |rest| ==> rest[k] == g[k - |b|];
    assert |r| <= |b|;
    if |b| > 1 {
      assert rest[|b| - 1] == b[|b| - 1];
    }
    var k := if |r| == 0 then 1 else |r|;
    assert k == |b|;
    assert rest[..k] == b && rest[k..] == g;
  }

  /** Whatever precedes `\s*` can be cut to the shortest base. */
  lemma SplitBaseSome(b: string, g: string)
    requires |b| >= 1 && '\n' !in b && AllSpace(g)
    ensures SplitBase(b + g).Some?
  {
    var rest := b + g;
    var r := RStrip(rest);
    assert forall k :: |b| <= k < |rest| ==> rest[k] == g[k - |b|];
    assert |r| <= |b|;
    var k := if |r| == 0 then 1 else |r|;
    assert rest[..k] == b[..k];
    assert '\n' !in rest[..k] by {
      forall j | 0 <= j < k ensures rest[..k][j] != '\n' {
        assert rest[..k][j] == b[j];
      }
    }
  }

  /** The pattern's match, if any: the extension runs from the last dot, a
      `)`, a digit run and a `(` precede it, and what is left is the base
      followed by whitespace; the base keeps at least one character. */
  function Parse(name: string): (r: Option<Variant>)
    ensures r.Some? ==> Compose(r.value) == name && Shape(r.value) && Lazy(r.value)
  {
    match SplitExtension(name)
    case None => None
    case Some((p, ext)) =>
      match SplitNumber(p)
      case None => None
      case Some((rest, digits)) =>
        match SplitBase(rest)
        case None => None
        case Some((base, gap)) =>
          var v := Variant(base, gap, digits, ext);
          assert Compose(v) == ((base + gap) + "(" + digits + ")") + ext;
          Some(v)
  }

  /** A well-shaped decomposition whose base is the shortest is exactly what
      `Parse` returns: the pattern matches it, with these groups. */
  lemma ParseExact(v: Variant)
    requires Shape(v) && Lazy(v)
    ensures Parse(Compose(v)) == Some(v)
  {
    var p := (v.base + v.gap) + "(" + v.digits + ")";
    assert Compose(v) == p + v.ext;
    SplitExtensionExact(p, v.ext);
    SplitNumberExact(v.base + v.gap, v.digits);
    SplitBaseExact(v.base, v.gap);
  }

  /** The pattern matches exactly the names that decompose into its parts. */
  lemma ParseIff(name: string)
    ensures Parse(name).Some? <==> exists v :: Shape(v) && Compose(v) == name
  {
    if v :| Shape(v) && Compose(v) == name {
      var p := (v.base + v.gap) + "(" + v.digits + ")";
      assert Compose(v) == p + v.ext;
      SplitExtensionExact(p, v.ext);
      SplitNumberExact(v.base + v.gap, v.digits);
      SplitBaseSome(v.base, v.gap);
    }
  }

  /** A variant has the `.log` ending exactly when its sibling has it: the two
      share the extension, and an extension of two or three characters ends
      neither. */
  lemma LogEndingShared(v: Variant)
    requires Shape(v)
    ensures EndsWith(Lower(Compose(v)), ".log") <==> EndsWith(Lower(Sibling(v)), ".log")
  {
    var pre := v.base + v.gap + "(" + v.digits + ")";
    assert Compose(v) == pre + v.ext;
    assert pre[|pre| - 1] == ')';
    LogEndingSameExt(pre, v.base, v.ext);
  }

  lemma LogEndingSameExt(a: string, b: string, e: string)
    requires IsExt(e) && |a| >= 1 && |b| >= 1
    ensures EndsWith(Lower(a + e), ".log") <==> EndsWith(Lower(b + e), ".log")
  {
    EndsWithLowerTail(a + e, ".log");
    EndsWithLowerTail(b + e, ".log");
    if |e| >= 4 {
      assert (a + e)[|a + e| - 4..] == e[|e| - 4..] == (b + e)[|b + e| - 4..];
    } else {
      ShortExtNotLog(a, e);
      ShortExtNotLog(b, e);
    }
  }

  /** A name whose extension has two or three characters does not end in
      `.log` once lowered: the dot of its extension sits where `.log` has a
      letter, or the character before it where `.log` has its dot. */
  lemma ShortExtNotLog(pre: string, e: string)
    requires IsExt(e) && |e| < 4
    requires |pre| >= 1
    ensures |pre + e| < 4 || Lower((pre + e)[|pre + e| - 4..]) != ".log"
  {
    var x := pre + e;
    if |x| >= 4 {
      var t := Lower(x[|x| - 4..]);
      if |e| == 2 {
        assert t[2] == LowerChar(x[|x| - 2]) == '.';
      } else {
        assert t[1] == LowerChar(x[|x| - 3]) == '.';
      }
    }
  }
}
