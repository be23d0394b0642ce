/** archive.py's matching of converted files to their encrypted sources: the
    `normalize` key, the map from keys to source files, and the split of the
    converted files into paired ones and orphans. All of it is pure. */
module Matching {
  import opened Names

  /** `s.replace(a, b)` for single characters. */
  function Replace(s: string, a: char, b: char): (r: string)
    ensures |r| == |s|
    ensures forall i :: 0 <= i < |s| ==> r[i] == if s[i] == a then b else s[i]
  {
    seq(|s|, i requires 0 <= i < |s| => if s[i] == a then b else s[i])
  }

  /** The length of the run of non-whitespace characters that starts `s`. */
  function WordLen(s: string): (n: nat)
    ensures n <= |s|
    ensures forall k :: 0 <= k < n ==> !IsSpace(s[k])
    ensures n < |s| ==> IsSpace(s[n])
  {
    if s == [] || IsSpace(s[0]) then 0 else 1 + WordLen(s[1..])
  }

  /** A word of `str.split()`: non-empty and free of whitespace. */
  predicate IsWord(w: string) {
    w != [] && forall k :: 0 <= k < |w| ==> !IsSpace(w[k])
  }

  /** `s.split()` with no argument: the maximal runs of non-whitespace
      characters, in order. Every character of a word comes from `s`. */
  function Words(s: string): (ws: seq<string>)
    ensures forall w :: w in ws ==> IsWord(w)
    ensures forall w, k :: w in ws && 0 <= k < |w| ==> w[k] in s
    decreases |s|
  {
    if s == [] then []
    else if IsSpace(s[0]) then
      var ws := Words(s[1..]);
      assert forall c :: c in s[1..] ==> c in s;
      ws
    else
      var n := WordLen(s);
      var ws := Words(s[n..]);
      assert forall c :: c in s[n..] ==> c in s;
      assert forall k :: 0 <= k < n ==> s[..n][k] in s;
      [s[..n]] + ws
  }

  /** archive.py's `normalize`: lower-case, `_` read as a space, and runs of
      whitespace collapsed to single spaces with none at either end. */
  function Normalize(s: string): string {
    JoinWith(Words(Replace(Lower(s), '_', ' ')), ' ')
  }

  /** The folding `normalize` does before splitting: lower case, `_` read as
      a space. */
  function Fold(s: string): string {
    Replace(Lower(s), '_', ' ')
  }

  /** A normalized key: no upper-case letter, no `_`, and every whitespace
      character is a single space between two non-space characters. */
  predicate IsKey(r: string) {
    (forall i :: 0 <= i < |r| ==> !IsUpper(r[i]) && r[i] != '_')
    && forall i :: 0 <= i < |r| && IsSpace(r[i]) ==>
         r[i] == ' ' && 0 < i < |r| - 1 && !IsSpace(r[i - 1]) && !IsSpace(r[i + 1])
  }

  /** Joining words with single spaces gives a string whose whitespace is
      exactly those separators, and whose other characters come from the
      words. */
  lemma {:induction false} JoinShape(ws: seq<string>)
    requires forall w :: w in ws ==> IsWord(w)
    ensures var r := JoinWith(ws, ' ');
      (ws != [] ==> r != [] && !IsSpace(r[0]) && !IsSpace(r[|r| - 1]))
      && (forall i :: 0 <= i < |r| && IsSpace(r[i]) ==>
            r[i] == ' ' && 0 < i < |r| - 1 && !IsSpace(r[i - 1]) && !IsSpace(r[i + 1]))
      && (forall i :: 0 <= i < |r| ==> r[i] == ' ' || exists w :: w in ws && r[i] in w)
  {
    if |ws| == 1 {
      assert ws[0] in ws;
    } else if |ws| > 1 {
      var w, rest := ws[0], JoinWith(ws[1..], ' ');
      assert w in ws;
      assert forall v :: v in ws[1..] ==> v in ws;
      JoinShape(ws[1..]);
      var r := JoinWith(ws, ' ');
      assert r == w + [' '] + rest;
      forall i | 0 <= i < |r| && IsSpace(r[i])
        ensures r[i] == ' ' && 0 < i < |r| - 1 && !IsSpace(r[i - 1]) && !IsSpace(r[i + 1])
      {
        if i > |w| {
          assert r[i] == rest[i - |w| - 1];
        }
      }
      forall i | 0 <= i < |r| ensures r[i] == ' ' || exists v :: v in ws && r[i] in v {
        if i < |w| {
          assert r[i] == w[i];
        } else if i > |w| {
          assert r[i] == rest[i - |w| - 1];
        }
      }
    }
  }

  /** `normalize` produces a key: no upper case, no `_`, no leading or
      trailing whitespace, and no two spaces in a row. */
  lemma NormalizeIsKey(s: string)
    ensures IsKey(Normalize(s))
  {
    var t := Replace(Lower(s), '_', ' ');
    var ws := Words(t);
    JoinShape(ws);
    forall i | 0 <= i < |Normalize(s)| ensures !IsUpper(Normalize(s)[i]) && Normalize(s)[i] != '_' {
      var c := Normalize(s)[i];
      if c != ' ' {
        var w :| w in ws && c in w;
        var k :| 0 <= k < |w| && w[k] == c;
        assert c in t;
      }
    }
  }

  /** A word with more text after a space splits off first. */
  lemma WordsOfWordSpace(w: string, rest: string)
    requires IsWord(w)
    ensures Words(w + [' '] + rest) == [w] + Words(rest)
  {
    var s := w + [' '] + rest;
    WordLenOfWord(w, [' '] + rest);
    assert s[..|w|] == w;
    assert s[|w|..] == [' '] + rest;
    assert ([' '] + rest)[1..] == rest;
  }

  lemma {:induction false} WordLenOfWord(w: string, t: string)
    requires forall k :: 0 <= k < |w| ==> !IsSpace(w[k])
    requires t == [] || IsSpace(t[0])
    ensures WordLen(w + t) == |w|
  {
    if w != [] {
      assert (w + t)[1..] == w[1..] + t;
      WordLenOfWord(w[1..], t);
    }
  }

  /** Splitting a join of words gives the words back. */
  lemma {:induction false} WordsOfJoin(ws: seq<string>)
    requires forall w :: w in ws ==> IsWord(w)
    ensures Words(JoinWith(ws, ' ')) == ws
  {
    if |ws| == 1 {
      var w := ws[0];
      assert w in ws;
      WordLenOfWord(w, []);
      assert w + [] == w;
      assert w[|w|..] == [];
    } else if |ws| > 1 {
      assert ws[0] in ws;
      assert forall v :: v in ws[1..] ==> v in ws;
      WordsOfJoin(ws[1..]);
      WordsOfWordSpace(ws[0], JoinWith(ws[1..], ' '));
    }
  }

  /** A key is left alone by lower-casing and by the `_` replacement. */
  lemma KeyIsFolded(r: string)
    requires IsKey(r)
    ensures Replace(Lower(r), '_', ' ') == r
  {
    assert Lower(r) == r;
  }

  /** `normalize` is idempotent. */
  lemma NormalizeIdempotent(s: string)
    ensures Normalize(Normalize(s)) == Normalize(s)
  {
    var ws := Words(Replace(Lower(s), '_', ' '));
    NormalizeIsKey(s);
    KeyIsFolded(Normalize(s));
    WordsOfJoin(ws);
  }

  /** Names that differ only in letter case and in `_` against a space
      normalize alike; for instance `A_B` and `a b`. */
  lemma NormalizeIgnoresCaseAndUnderscore(s: string, t: string)
    requires |s| == |t|
    requires forall i :: 0 <= i < |s| ==>
      (if s[i] == '_' then ' ' else LowerChar(s[i])) == (if t[i] == '_' then ' ' else LowerChar(t[i]))
    ensures Fold(s) == Fold(t) && Normalize(s) == Normalize(t)
  {
    assert Replace(Lower(s), '_', ' ') == Replace(Lower(t), '_', ' ');
  }

  /** A run of whitespace characters. */
  predicate AllSpace(g: string) {
    forall k :: 0 <= k < |g| ==> IsSpace(g[k])
  }

  /** Leading whitespace yields no word. */
  lemma {:induction false} WordsSkipSpaces(g: string, y: string)
    requires AllSpace(g)
    ensures Words(g + y) == Words(y)
  {
    if g == [] {
      assert g + y == y;
    } else {
      assert (g + y)[0] == g[0];
      assert (g + y)[1..] == g[1..] + y;
      WordsSkipSpaces(g[1..], y);
    }
  }

  /** A word that ends inside `x` ends there whatever follows `x`. */
  lemma {:induction false} WordLenPrefix(x: string, t: string)
    requires WordLen(x) < |x|
    ensures WordLen(x + t) == WordLen(x)
  {
    if !IsSpace(x[0]) {
      assert (x + t)[1..] == x[1..] + t;
      WordLenPrefix(x[1..], t);
    }
  }

  lemma GapAtStart(g: string, y: string)
    requires g != [] && AllSpace(g)
    ensures Words(g + y) == Words([' '] + y)
  {
    WordsSkipSpaces(g, y);
    WordsSkipSpaces([' '], y);
  }

  /** Two strings that both start with whitespace split alike when their
      rests do. */
  lemma WordsAfterSpace(s: string, s': string)
    requires s != [] && s' != [] && IsSpace(s[0]) && IsSpace(s'[0])
    requires Words(s[1..]) == Words(s'[1..])
    ensures Words(s) == Words(s')
  {
  }

  /** Two strings that start with the same word split alike when what
      follows that word does. */
  lemma WordsAfterWord(s: string, s': string, m: nat)
    requires 0 < m <= |s| && m <= |s'| && !IsSpace(s[0]) && !IsSpace(s'[0])
    requires WordLen(s) == m && WordLen(s') == m && s[..m] == s'[..m]
    requires Words(s[m..]) == Words(s'[m..])
    ensures Words(s) == Words(s')
  {
  }

  /** Cutting `x + g + y` inside `x`. */
  lemma ConcatCut(x: string, g: string, y: string, m: nat)
    requires m <= |x|
    ensures x + g + y == x + (g + y)
    ensures (x + g + y)[..m] == x[..m] && (x + g + y)[m..] == x[m..] + g + y
    ensures m == |x| ==> (x + g + y)[m..] == g + y
    ensures x != [] ==> (x + g + y)[0] == x[0]
  {
  }

  lemma GapAfterSpace(x: string, g: string, y: string)
    requires x != [] && IsSpace(x[0])
    requires Words(x[1..] + g + y) == Words(x[1..] + [' '] + y)
    ensures Words(x + g + y) == Words(x + [' '] + y)
  {
    ConcatCut(x, g, y, 1);
    ConcatCut(x, [' '], y, 1);
    WordsAfterSpace(x + g + y, x + [' '] + y);
  }

  lemma GapAfterInnerWord(x: string, g: string, y: string)
    requires x != [] && !IsSpace(x[0]) && WordLen(x) < |x|
    requires Words(x[WordLen(x)..] + g + y) == Words(x[WordLen(x)..] + [' '] + y)
    ensures Words(x + g + y) == Words(x + [' '] + y)
  {
    var m := WordLen(x);
    ConcatCut(x, g, y, m);
    ConcatCut(x, [' '], y, m);
    WordLenPrefix(x, g + y);
    WordLenPrefix(x, [' '] + y);
    WordsAfterWord(x + g + y, x + [' '] + y, m);
  }

  lemma GapAfterWholeWord(x: string, g: string, y: string)
    requires IsWord(x) && g != [] && AllSpace(g)
    ensures Words(x + g + y) == Words(x + [' '] + y)
  {
    ConcatCut(x, g, y, |x|);
    ConcatCut(x, [' '], y, |x|);
    WordLenOfWord(x, g + y);
    WordLenOfWord(x, [' '] + y);
    GapAtStart(g, y);
    WordsAfterWord(x + g + y, x + [' '] + y, |x|);
  }

  /** `str.split()` reads any non-empty run of whitespace as one
      separator. */
  lemma {:induction false} WordsGap(x: string, g: string, y: string)
    requires g != [] && AllSpace(g)
    ensures Words(x + g + y) == Words(x + [' '] + y)
    decreases |x|
  {
    if x == [] {
      assert x + g + y == g + y && x + [' '] + y == [' '] + y;
      GapAtStart(g, y);
    } else if IsSpace(x[0]) {
      WordsGap(x[1..], g, y);
      GapAfterSpace(x, g, y);
    } else if WordLen(x) < |x| {
      WordsGap(x[WordLen(x)..], g, y);
      GapAfterInnerWord(x, g, y);
    } else {
      GapAfterWholeWord(x, g, y);
    }
  }

  lemma FoldAppend(a: string, b: string)
    ensures Fold(a + b) == Fold(a) + Fold(b)
  {
    LowerAppend(a, b);
    assert forall i :: 0 <= i < |a + b| ==> Fold(a + b)[i] == (Fold(a) + Fold(b))[i];
  }

  /** Names that differ only in the length of a whitespace run normalize
      alike: the run collapses to a single space. */
  lemma NormalizeCollapsesGap(a: string, g: string, b: string)
    requires g != [] && AllSpace(g)
    ensures Normalize(a + g + b) == Normalize(a + " " + b)
  {
    FoldAppend(a, g);
    FoldAppend(a + g, b);
    FoldAppend(a, " ");
    FoldAppend(a + " ", b);
    assert Fold(" ") == [' '];
    assert AllSpace(Fold(g)) && |Fold(g)| == |g|;
    WordsGap(Fold(a), Fold(g), Fold(b));
  }

  lemma FoldExample()
    ensures Fold("A_B C") == Fold("a b c")
  {
    NormalizeIgnoresCaseAndUnderscore("A_B C", "a b c");
  }

  /** Case, `_` and a double space all fold away together. */
  lemma NormalizeExample()
    ensures Normalize("A_B  C") == Normalize("a b c")
  {
    assert "A_B  C" == "A_B" + "  " + "C";
    assert "A_B C" == "A_B" + " " + "C";
    NormalizeCollapsesGap("A_B", "  ", "C");
    FoldExample();
  }

  /** The matching key of a file: its normalized stem. */
  function Key(f: string): string {
    Normalize(Stem(f))
  }

  /** The keys of a sequence of files, position by position. */
  function Keys(files: seq<string>): (ks: seq<string>)
    ensures |ks| == |files|
    ensures forall i {:trigger ks[i]} :: 0 <= i < |files| ==> ks[i] == Key(files[i])
  {
    seq(|files|, i requires 0 <= i < |files| => Key(files[i]))
  }

  /** The dictionary built by `d[keys[i]] = files[i]` for i in order: a later
      entry replaces an earlier one with the same key. */
  function LastWins(keys: seq<string>, files: seq<string>): map<string, string>
    requires |keys| == |files|
  {
    if keys == [] then map[]
    else LastWins(keys[..|keys| - 1], files[..|files| - 1])[keys[|keys| - 1] := files[|files| - 1]]
  }

  /** `enc_map`: each encrypted source file under its key, built in listing
      order. */
  function EncMap(encrypted: seq<string>): map<string, string> {
    LastWins(Keys(encrypted), encrypted)
  }

  /** The position of the last occurrence of `k` in `keys`, or -1. */
  function LastIndex(keys: seq<string>, k: string): (i: int)
    ensures -1 <= i < |keys|
    ensures i >= 0 ==> keys[i] == k
    ensures forall j :: i < j < |keys| ==> keys[j] != k
  {
    if keys == [] then -1
    else if keys[|keys| - 1] == k then |keys| - 1
    else LastIndex(keys[..|keys| - 1], k)
  }

  /** A key is in the dictionary exactly when it occurs among the keys, and it
      maps to the file at its LAST occurrence. */
  lemma {:induction false} LastWinsLookup(keys: seq<string>, files: seq<string>, k: string)
    requires |keys| == |files|
    ensures k in LastWins(keys, files) <==> k in keys
    ensures k in LastWins(keys, files) ==> LastWins(keys, files)[k] == files[LastIndex(keys, k)]
  {
    if keys != [] {
      var front := keys[..|keys| - 1];
      LastWinsLookup(front, files[..|files| - 1], k);
      assert forall y :: y in keys <==> y in front || y == keys[|keys| - 1];
    }
  }

  /** `enc_map` holds a key exactly when some source file has it, and maps it
      to the last such file in listing order. */
  lemma EncMapLastWins(encrypted: seq<string>, k: string)
    ensures k in EncMap(encrypted) <==> k in Keys(encrypted)
    ensures k in EncMap(encrypted) ==>
      var i := LastIndex(Keys(encrypted), k);
      0 <= i < |encrypted| && EncMap(encrypted)[k] == encrypted[i] && Keys(encrypted)[i] == k
      && forall j :: i < j < |encrypted| ==> Keys(encrypted)[j] != k
  {
    LastWinsLookup(Keys(encrypted), encrypted, k);
  }

  /** `converted_files`: the listed names not ending in `.log` (a
      case-sensitive test), in listing order. */
  function ConvertedFiles(listing: seq<string>): (r: seq<string>)
    ensures forall x :: x in r <==> x in listing && !EndsWith(x, ".log")
    ensures NoDup(listing) ==> NoDup(r)
  {
    if listing == [] then []
    else
      var x := listing[|listing| - 1];
      var front := ConvertedFiles(listing[..|listing| - 1]);
      assert forall y :: y in listing <==> y in listing[..|listing| - 1] || y == x;
      if EndsWith(x, ".log") then front else front + [x]
  }

  /** `orphan_files`: the converted files whose key has no source, in listing
      order. */
  function OrphanFiles(converted: seq<string>, encMap: map<string, string>): (r: seq<string>)
    ensures |r| <= |converted|
  {
    if converted == [] then []
    else
      var x := converted[|converted| - 1];
      var front := OrphanFiles(converted[..|converted| - 1], encMap);
      if Key(x) in encMap then front else front + [x]
  }

  /** The orphans are exactly the converted files with no encrypted source of
      the same key, each once when the listing has no repeats. */
  lemma {:induction false} OrphanFilesExact(converted: seq<string>, encrypted: seq<string>)
    ensures forall x :: x in OrphanFiles(converted, EncMap(encrypted)) <==>
      x in converted && Key(x) !in Keys(encrypted)
    ensures NoDup(converted) ==> NoDup(OrphanFiles(converted, EncMap(encrypted)))
  {
    OrphanMembers(converted, EncMap(encrypted));
    forall x | x in converted ensures Key(x) in EncMap(encrypted) <==> Key(x) in Keys(encrypted) {
      EncMapLastWins(encrypted, Key(x));
    }
  }

  lemma {:induction false} OrphanMembers(converted: seq<string>, encMap: map<string, string>)
    ensures forall x :: x in OrphanFiles(converted, encMap) <==> x in converted && Key(x) !in encMap
    ensures NoDup(converted) ==> NoDup(OrphanFiles(converted, encMap))
  {
    if converted != [] {
      var front := converted[..|converted| - 1];
      OrphanMembers(front, encMap);
      assert forall y :: y in converted <==> y in front || y == converted[|converted| - 1];
    }
  }
}
