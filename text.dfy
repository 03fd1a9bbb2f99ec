/** Python string primitives used by the extraction heuristics: the whitespace class
    shared by str.strip(), str.split() and the regex class \s, ASCII lower-casing,
    substring search, strip, the whitespace collapse re.sub(r'\s+', ' ', s),
    str.split(), str.replace(p, ''), str.title(), str.split('\n') and ' '.join. */
module Text {

  /** str.isspace(): the characters matched by \s, stripped by strip() and split on by split(). */
  predicate IsSpace(c: char) {
    c == ' ' || ('\t' <= c <= '\r') || ('\U{1C}' <= c <= '\U{1F}') || c == '\U{85}' || c == '\U{A0}'
    || c == '\U{1680}' || ('\U{2000}' <= c <= '\U{200A}') || c == '\U{2028}' || c == '\U{2029}'
    || c == '\U{202F}' || c == '\U{205F}' || c == '\U{3000}'
  }

  predicate IsDigit(c: char) { '0' <= c <= '9' }
  predicate IsUpperLetter(c: char) { 'A' <= c <= 'Z' }
  predicate IsLowerLetter(c: char) { 'a' <= c <= 'z' }
  predicate IsAlpha(c: char) { IsUpperLetter(c) || IsLowerLetter(c) }

  function LowerChar(c: char): (d: char)
    ensures IsUpperLetter(c) ==> IsLowerLetter(d)
    ensures !IsUpperLetter(c) ==> d == c
  {
    if IsUpperLetter(c) then (c as int + 32) as char else c
  }

  function UpperChar(c: char): (d: char)
    ensures IsLowerLetter(c) ==> IsUpperLetter(d)
    ensures !IsLowerLetter(c) ==> d == c
  {
    if IsLowerLetter(c) then (c as int - 32) as char else c
  }

  /** str.lower() on the ASCII letters. */
  function Lower(s: string): (r: string)
    ensures |r| == |s|
    ensures forall i :: 0 <= i < |s| ==> r[i] == LowerChar(s[i])
  {
    seq(|s|, i requires 0 <= i < |s| => LowerChar(s[i]))
  }

  lemma LowerAppend(a: string, b: string)
    ensures Lower(a + b) == Lower(a) + Lower(b)
  {
  }

  predicate AllSpace(s: string) {
    forall i :: 0 <= i < |s| ==> IsSpace(s[i])
  }

  predicate NoSpace(s: string) {
    forall i :: 0 <= i < |s| ==> !IsSpace(s[i])
  }

  predicate HasDigit(s: string) {
    exists i :: 0 <= i < |s| && IsDigit(s[i])
  }

  // ---------------------------------------------------------------- substrings

  predicate OccursAt(s: string, sub: string, i: int) {
    0 <= i && i + |sub| <= |s| && s[i..i + |sub|] == sub
  }

  /** Python's `sub in s`. */
  predicate Contains(s: string, sub: string) {
    exists i :: 0 <= i <= |s| && OccursAt(s, sub, i)
  }

  /** `any(p in s for p in subs)`. */
  predicate AnyContained(s: string, subs: seq<string>) {
    exists k :: 0 <= k < |subs| && Contains(s, subs[k])
  }

  /** str.startswith. */
  predicate StartsWith(s: string, prefix: string) {
    |prefix| <= |s| && s[..|prefix|] == prefix
  }

  /** A substring of a part of a string is a substring of the whole. */
  lemma ContainsInfix(a: string, b: string, c: string, sub: string)
    requires Contains(b, sub)
    ensures Contains(a + b + c, sub)
  {
    var i :| 0 <= i <= |b| && OccursAt(b, sub, i);
    assert (a + b + c)[|a| + i..|a| + i + |sub|] == b[i..i + |sub|];
    assert OccursAt(a + b + c, sub, |a| + i);
  }

  // ---------------------------------------------------------------- strip

  /** The end of the whitespace run that starts at position i. */
  function SpacesFrom(s: string, i: nat): (j: nat)
    requires i <= |s|
    ensures i <= j <= |s|
    ensures forall k :: i <= k < j ==> IsSpace(s[k])
    ensures j < |s| ==> !IsSpace(s[j])
    decreases |s| - i
  {
    if i < |s| && IsSpace(s[i]) then SpacesFrom(s, i + 1) else i
  }

  /** The start of the whitespace run that ends just before position j. */
  function SpacesBefore(s: string, j: nat): (i: nat)
    requires j <= |s|
    ensures i <= j
    ensures forall k :: i <= k < j ==> IsSpace(s[k])
    ensures 0 < i ==> !IsSpace(s[i - 1])
  {
    if 0 < j && IsSpace(s[j - 1]) then SpacesBefore(s, j - 1) else j
  }

  /** str.lstrip(). */
  function TrimStart(s: string): (r: string)
    ensures |r| <= |s| && r == s[|s| - |r|..]
    ensures AllSpace(s[..|s| - |r|])
    ensures r != [] ==> !IsSpace(r[0])
  {
    var n := SpacesFrom(s, 0);
    assert forall k :: 0 <= k < n ==> s[..n][k] == s[k];
    s[n..]
  }

  /** str.rstrip(). */
  function TrimEnd(s: string): (r: string)
    ensures |r| <= |s| && r == s[..|r|]
    ensures AllSpace(s[|r|..])
    ensures r != [] ==> !IsSpace(r[|r| - 1])
  {
    var n := SpacesBefore(s, |s|);
    assert forall k :: 0 <= k < |s| - n ==> s[n..][k] == s[n + k];
    s[..n]
  }

  /** TrimStart removes exactly the leading whitespace run. */
  lemma TrimStartAt(s: string, n: nat)
    requires n <= |s| && AllSpace(s[..n]) && (n == |s| || !IsSpace(s[n]))
    ensures TrimStart(s) == s[n..]
  {
  }

  /** TrimEnd removes exactly the trailing whitespace run. */
  lemma TrimEndAt(s: string, n: nat)
    requires n <= |s| && AllSpace(s[n..]) && (n == 0 || !IsSpace(s[n - 1]))
    ensures TrimEnd(s) == s[..n]
  {
  }

  /** Neither end of the string is whitespace. */
  predicate Stripped(s: string) {
    s == [] || (!IsSpace(s[0]) && !IsSpace(s[|s| - 1]))
  }

  /** str.strip(): the string without its leading and trailing whitespace. */
  function Strip(s: string): (r: string)
    ensures Stripped(r)
    ensures |r| <= |s|
    ensures Stripped(s) ==> r == s
  {
    var t := TrimStart(s);
    assert Stripped(s) ==> t == s;
    var r := TrimEnd(t);
    assert r != [] ==> r[0] == t[0];
    r
  }

  /** What str.strip() removes is whitespace only, and what is left is a slice of the input. */
  lemma StripSlice(s: string) returns (i: nat)
    ensures i + |Strip(s)| <= |s|
    ensures Strip(s) == s[i..i + |Strip(s)|]
    ensures AllSpace(s[..i]) && AllSpace(s[i + |Strip(s)|..])
  {
    var t := TrimStart(s);
    var r := TrimEnd(t);
    assert Strip(s) == r;
    i := |s| - |t|;
    assert t == s[i..];
    assert r == t[..|r|];
    assert s[i..i + |r|] == t[..|r|];
    assert AllSpace(s[..i]);
    assert s[i + |r|..] == t[|r|..];
    assert AllSpace(t[|r|..]);
  }

  // ---------------------------------------------------------------- \s+ -> ' '

  /** Whitespace occurs only as single ' ' characters. */
  predicate Collapsed(s: string) {
    && (forall i :: 0 <= i < |s| && IsSpace(s[i]) ==> s[i] == ' ')
    && (forall i :: 0 <= i < |s| - 1 && IsSpace(s[i]) ==> !IsSpace(s[i + 1]))
  }

  /** The non-whitespace characters of a string, in order. */
  function NonSpace(s: string): string {
    if s == [] then [] else (if IsSpace(s[0]) then [] else [s[0]]) + NonSpace(s[1..])
  }

  lemma {:induction false} NonSpaceOfSpaces(s: string)
    requires AllSpace(s)
    ensures NonSpace(s) == []
  {
    if s != [] { NonSpaceOfSpaces(s[1..]); }
  }

  lemma {:induction false} NonSpaceAppend(a: string, b: string)
    ensures NonSpace(a + b) == NonSpace(a) + NonSpace(b)
  {
    if a != [] {
      assert (a + b)[1..] == a[1..] + b;
      NonSpaceAppend(a[1..], b);
    } else {
      assert a + b == b;
    }
  }

  lemma NonSpaceTrimStart(s: string)
    ensures NonSpace(TrimStart(s)) == NonSpace(s)
  {
    var t := TrimStart(s);
    var k := |s| - |t|;
    assert s == s[..k] + t;
    NonSpaceAppend(s[..k], t);
    NonSpaceOfSpaces(s[..k]);
  }

  /** re.sub(r'\s+', ' ', s): every maximal whitespace run becomes one ' '. The result has
      no other whitespace, and starts (ends) with whitespace exactly when the input does. */
  function Collapse(s: string): (r: string)
    ensures Collapsed(r)
    ensures |r| <= |s|
    ensures (r != [] && IsSpace(r[0])) <==> (s != [] && IsSpace(s[0]))
    ensures r == [] <==> s == []
    decreases |s|
  {
    if s == [] then []
    else if IsSpace(s[0]) then " " + Collapse(TrimStart(s))
    else
      var r := [s[0]] + Collapse(s[1..]);
      assert r[1..] == Collapse(s[1..]);
      r
  }

  /** Collapsing keeps every non-whitespace character, in order. */
  lemma {:induction false} CollapseKeepsText(s: string)
    ensures NonSpace(Collapse(s)) == NonSpace(s)
    decreases |s|
  {
    if s == [] {
    } else if IsSpace(s[0]) {
      var t := TrimStart(s);
      CollapseKeepsText(t);
      NonSpaceTrimStart(s);
      assert (" " + Collapse(t))[1..] == Collapse(t);
    } else {
      CollapseKeepsText(s[1..]);
      assert ([s[0]] + Collapse(s[1..]))[1..] == Collapse(s[1..]);
    }
  }

  /** Collapsing ends with whitespace exactly when the input does. */
  lemma {:induction false} CollapseLast(s: string)
    ensures var r := Collapse(s); (r != [] && IsSpace(r[|r| - 1])) <==> (s != [] && IsSpace(s[|s| - 1]))
    decreases |s|
  {
    if s == [] {
    } else if IsSpace(s[0]) {
      var t := TrimStart(s);
      var c := Collapse(t);
      assert Collapse(s) == " " + c;
      CollapseLast(t);
      if t == [] {
        assert IsSpace(s[|s| - 1]) by { assert s[..|s|] == s; }
      } else {
        assert t[|t| - 1] == s[|s| - 1];
        assert (" " + c)[|c|] == c[|c| - 1] by { assert c != []; }
      }
    } else {
      var tail := s[1..];
      var c := Collapse(tail);
      assert Collapse(s) == [s[0]] + c;
      CollapseLast(tail);
      if tail != [] {
        assert tail[|tail| - 1] == s[|s| - 1];
        assert ([s[0]] + c)[|c|] == c[|c| - 1];
      }
    }
  }

  lemma CollapsedTail(s: string)
    requires Collapsed(s) && s != []
    ensures Collapsed(s[1..])
  {
    forall i | 0 <= i < |s[1..]| - 1 && IsSpace(s[1..][i]) ensures !IsSpace(s[1..][i + 1]) {
      assert s[1..][i] == s[i + 1] && s[1..][i + 1] == s[i + 2];
    }
  }

  /** In a collapsed string a space is a single ' ' followed by non-space. */
  lemma SpaceThenText(s: string)
    requires Collapsed(s) && s != [] && IsSpace(s[0])
    ensures s[0] == ' ' && TrimStart(s) == s[1..]
  {
    var tail := s[1..];
    if tail != [] {
      assert tail[0] == s[1];
      assert !IsSpace(tail[0]);
    }
    assert TrimStart(tail) == tail;
  }

  /** A string that is already collapsed is left alone. */
  lemma {:induction false} CollapseIdentity(s: string)
    requires Collapsed(s)
    ensures Collapse(s) == s
    decreases |s|
  {
    if s != [] {
      var tail := s[1..];
      CollapsedTail(s);
      CollapseIdentity(tail);
      if IsSpace(s[0]) {
        SpaceThenText(s);
        assert Collapse(s) == " " + Collapse(tail);
      } else {
        assert Collapse(s) == [s[0]] + Collapse(tail);
      }
      assert s == [s[0]] + tail;
    }
  }

  /** A whitespace run at the front becomes one ' '. */
  lemma CollapseSpaceRun(sp: string, b: string)
    requires sp != [] && AllSpace(sp) && (b == [] || !IsSpace(b[0]))
    ensures Collapse(sp + b) == " " + Collapse(b)
  {
    var s := sp + b;
    assert s[..|sp|] == sp && s[|sp|..] == b;
    TrimStartAt(s, |sp|);
    assert IsSpace(s[0]);
  }

  /** A leading non-space character is kept. */
  lemma CollapseWordChar(s: string)
    requires s != [] && !IsSpace(s[0])
    ensures Collapse(s) == [s[0]] + Collapse(s[1..])
  {
  }

  lemma CollapsePrefixStep(a: string, t: string)
    requires a != [] && NoSpace(a)
    ensures Collapse(a + t) == [a[0]] + Collapse(a[1..] + t)
  {
    var s := a + t;
    assert s[1..] == a[1..] + t;
    assert !IsSpace(s[0]);
    CollapseWordChar(s);
  }

  /** Collapsing leaves a leading word alone. */
  lemma {:induction false} CollapsePrefix(a: string, t: string)
    requires NoSpace(a)
    ensures Collapse(a + t) == a + Collapse(t)
    decreases |a|
  {
    if a == [] {
      assert a + t == t;
    } else {
      var tail := a[1..];
      assert NoSpace(tail) by {
        forall k | 0 <= k < |tail| ensures !IsSpace(tail[k]) { assert tail[k] == a[k + 1]; }
      }
      CollapsePrefixStep(a, t);
      CollapsePrefix(tail, t);
      ConsAppend(a, Collapse(t));
    }
  }

  lemma ConsAppend(a: string, v: string)
    requires a != []
    ensures [a[0]] + (a[1..] + v) == a + v
  {
    assert a == [a[0]] + a[1..];
  }

  /** A whitespace run between a word and the rest becomes exactly one ' ': word boundaries
      are kept, and nothing else of the run survives. */
  lemma CollapseSplit(a: string, sp: string, b: string)
    requires NoSpace(a) && sp != [] && AllSpace(sp) && (b == [] || !IsSpace(b[0]))
    ensures Collapse(a + sp + b) == a + " " + Collapse(b)
  {
    CollapsePrefix(a, sp + b);
    CollapseSpaceRun(sp, b);
    AppendAssoc(a, sp, b);
    AppendAssoc(a, " ", Collapse(b));
  }

  lemma AppendAssoc(x: string, y: string, z: string)
    ensures x + y + z == x + (y + z)
  {
  }

  /** The shared normalizer: whitespace stripped from both ends and collapsed. */
  predicate Normalized(s: string) {
    Stripped(s) && Collapsed(s)
  }

  /** re.sub(r'\s+', ' ', s.strip()). */
  function Normalize(s: string): (r: string)
    ensures Normalized(r)
    ensures |r| <= |s|
  {
    var t := Strip(s);
    var r := Collapse(t);
    CollapseLast(t);
    assert r != [] ==> !IsSpace(r[0]) && !IsSpace(r[|r| - 1]);
    r
  }

  /** Normalize is the collapse of the stripped string. */
  lemma NormalizeUnfold(s: string)
    ensures Normalize(s) == Collapse(Strip(s))
  {
  }

  /** Leading whitespace makes no difference to Normalize. */
  lemma NormalizeSkipSpaces(s: string, i: nat)
    requires i <= |s|
    ensures Normalize(s[i..]) == Normalize(s[SpacesFrom(s, i)..])
  {
    var a := SpacesFrom(s, i);
    assert s[i..][a - i..] == s[a..];
    assert s[i..][..a - i] == s[i..a];
    TrimStartAt(s[i..], a - i);
    TrimStartAt(s[a..], 0);
  }

  /** A word followed by whitespace only normalizes to the word. */
  lemma NormalizeWord(w: string, sp: string)
    requires NoSpace(w) && AllSpace(sp)
    ensures Normalize(w + sp) == w
  {
    var s := w + sp;
    assert s[..|w|] == w && s[|w|..] == sp;
    if w == [] {
      TrimStartAt(s, |s|);
    } else {
      TrimStartAt(s, 0);
      TrimEndAt(s, |w|);
    }
    CollapseIdentity(w);
  }

  /** Trailing whitespace is cut from the last part only, when that part has text. */
  lemma TrimEndAppend(x: string, b: string)
    requires TrimEnd(b) != []
    ensures TrimEnd(x + b) == x + TrimEnd(b)
  {
    var e := TrimEnd(b);
    var s := x + b;
    var n := |x| + |e|;
    assert s[n..] == b[|e|..] by {
      forall k | 0 <= k < |s| - n ensures s[n..][k] == b[|e|..][k] { assert s[n + k] == b[|e| + k]; }
    }
    assert s[n - 1] == e[|e| - 1];
    TrimEndAt(s, n);
    assert s[..n] == x + e by {
      forall k | 0 <= k < n ensures s[..n][k] == (x + e)[k] {
        if k >= |x| { assert s[k] == b[k - |x|] && e == b[..|e|]; }
      }
    }
  }

  /** Normalizing a word, a whitespace run and more text gives the word, one ' ', and the
      normalized rest. */
  lemma NormalizeSplit(a: string, sp: string, b: string)
    requires a != [] && NoSpace(a) && sp != [] && AllSpace(sp) && b != [] && !IsSpace(b[0])
    ensures Normalize(a + sp + b) == a + " " + Normalize(b)
  {
    var s := a + sp + b;
    TrimStartAt(b, 0);
    var e := TrimEnd(b);
    assert e != [] && e[0] == b[0];
    assert Normalize(b) == Collapse(e);
    assert s[0] == a[0];
    TrimStartAt(s, 0);
    TrimEndAppend(a + sp, b);
    assert Normalize(s) == Collapse(a + sp + e);
    CollapseSplit(a, sp, e);
  }

  /** Stripping a collapsed string leaves it collapsed. */
  lemma StripCollapsed(s: string)
    requires Collapsed(s)
    ensures Normalized(Strip(s))
  {
    var i := StripSlice(s);
    var r := Strip(s);
    forall k | 0 <= k < |r| ensures r[k] == s[i + k] {}
  }

  lemma NonSpaceTrimEnd(s: string)
    ensures NonSpace(TrimEnd(s)) == NonSpace(s)
  {
    var r := TrimEnd(s);
    var rest := s[|r|..];
    assert s == r + rest;
    NonSpaceAppend(r, rest);
    NonSpaceOfSpaces(rest);
  }

  /** Stripping keeps every non-whitespace character, in order. */
  lemma NonSpaceStrip(s: string)
    ensures NonSpace(Strip(s)) == NonSpace(s)
  {
    var t := TrimStart(s);
    assert Strip(s) == TrimEnd(t);
    NonSpaceTrimStart(s);
    NonSpaceTrimEnd(t);
  }

  /** Normalizing keeps every non-whitespace character, in order. */
  lemma NormalizeKeepsText(s: string)
    ensures NonSpace(Normalize(s)) == NonSpace(s)
  {
    var t := Strip(s);
    assert Normalize(s) == Collapse(t);
    NonSpaceStrip(s);
    CollapseKeepsText(t);
  }

  /** Normalizing twice is normalizing once. */
  lemma NormalizeIdempotent(s: string)
    ensures Normalize(Normalize(s)) == Normalize(s)
  {
    var n := Normalize(s);
    CollapseIdentity(n);
  }

  // ---------------------------------------------------------------- str.split()

  /** The end of the whitespace-free run that starts at position i. */
  function WordEnd(s: string, i: nat): (j: nat)
    requires i <= |s|
    ensures i <= j <= |s|
    ensures forall k :: i <= k < j ==> !IsSpace(s[k])
    ensures j < |s| ==> IsSpace(s[j])
    decreases |s| - i
  {
    if i < |s| && !IsSpace(s[i]) then WordEnd(s, i + 1) else i
  }

  /** The words of s from position i on. */
  function WordsFrom(s: string, i: nat): (ws: seq<string>)
    requires i <= |s|
    ensures forall k :: 0 <= k < |ws| ==> ws[k] != [] && NoSpace(ws[k])
    decreases |s| - i
  {
    var a := SpacesFrom(s, i);
    if a == |s| then []
    else
      var b := WordEnd(s, a);
      var w := s[a..b];
      assert NoSpace(w) by {
        assert forall k :: 0 <= k < |w| ==> w[k] == s[a + k];
      }
      [w] + WordsFrom(s, b)
  }

  lemma SliceSplit(s: string, a: nat, b: nat)
    requires a <= b <= |s|
    ensures s[a..] == s[a..b] + s[b..]
  {
  }

  lemma JoinCons(w: string, rest: seq<string>, sep: string)
    requires rest != []
    ensures JoinWith([w] + rest, sep) == w + sep + JoinWith(rest, sep)
  {
    assert ([w] + rest)[1..] == rest;
  }

  /** The word starting at a, as a slice. */
  lemma WordSlice(s: string, a: nat) returns (w: string)
    requires a < |s| && !IsSpace(s[a])
    ensures w == s[a..WordEnd(s, a)] && w != [] && NoSpace(w)
  {
    var b := WordEnd(s, a);
    w := s[a..b];
    forall k | 0 <= k < |w| ensures !IsSpace(w[k]) { assert w[k] == s[a + k]; }
    assert w[0] == s[a];
  }

  /** The last word: what follows it is whitespace only. */
  lemma NormalizeLastWord(s: string, a: nat, w: string)
    requires a < |s| && w == s[a..WordEnd(s, a)] && NoSpace(w) && SpacesFrom(s, WordEnd(s, a)) == |s|
    ensures Normalize(s[a..]) == w
  {
    var b := WordEnd(s, a);
    assert AllSpace(s[b..]) by {
      forall k | 0 <= k < |s| - b ensures IsSpace(s[b..][k]) { assert s[b..][k] == s[b + k]; }
    }
    SliceSplit(s, a, b);
    NormalizeWord(w, s[b..]);
  }

  /** A word followed by whitespace and more text. */
  lemma NormalizeNextWord(s: string, a: nat, w: string)
    requires a < |s| && w == s[a..WordEnd(s, a)] && w != [] && NoSpace(w)
    requires SpacesFrom(s, WordEnd(s, a)) < |s|
    ensures Normalize(s[a..]) == w + " " + Normalize(s[SpacesFrom(s, WordEnd(s, a))..])
  {
    var b := WordEnd(s, a);
    var c := SpacesFrom(s, b);
    var sp := s[b..c];
    assert AllSpace(sp) by {
      forall k | 0 <= k < |sp| ensures IsSpace(sp[k]) { assert sp[k] == s[b + k]; }
    }
    assert sp != [] by { assert sp[0] == s[b]; }
    assert s[c..][0] == s[c];
    SliceSplit(s, a, b);
    SliceSplit(s, b, c);
    AppendAssoc(w, sp, s[c..]);
    NormalizeSplit(w, sp, s[c..]);
  }

  /** The words from position i on, joined by single spaces, are the normalized rest. */
  lemma {:induction false} WordsFromJoin(s: string, i: nat)
    requires i <= |s|
    ensures JoinWith(WordsFrom(s, i), " ") == Normalize(s[i..])
    decreases |s| - i
  {
    var a := SpacesFrom(s, i);
    NormalizeSkipSpaces(s, i);
    if a == |s| {
      assert s[a..] == [];
      NormalizeWord([], []);
    } else {
      var w := WordSlice(s, a);
      var b := WordEnd(s, a);
      var rest := WordsFrom(s, b);
      assert WordsFrom(s, i) == [w] + rest;
      if SpacesFrom(s, b) == |s| {
        NormalizeLastWord(s, a, w);
        assert rest == [];
      } else {
        NormalizeNextWord(s, a, w);
        WordsFromJoin(s, b);
        NormalizeSkipSpaces(s, b);
        assert rest != [];
        JoinCons(w, rest, " ");
      }
    }
  }

  /** str.split() with no argument: the maximal whitespace-free runs. */
  function Words(s: string): (ws: seq<string>)
    ensures forall k :: 0 <= k < |ws| ==> ws[k] != [] && NoSpace(ws[k])
  {
    WordsFrom(s, 0)
  }

  /** ' '.join(s.split()) is the whitespace-normalized s. */
  lemma WordsJoin(s: string)
    ensures JoinWith(Words(s), " ") == Normalize(s)
  {
    WordsFromJoin(s, 0);
    assert s[0..] == s;
  }

  // ---------------------------------------------------------------- replace, split('\n'), join

  /** s.replace(pat, ''): occurrences removed left to right, without overlap. */
  function RemoveAll(s: string, pat: string): (r: string)
    requires pat != []
    ensures |r| <= |s|
    ensures !Contains(s, pat) ==> r == s
    decreases |s|
  {
    if |s| < |pat| then s
    else if s[..|pat|] == pat then
      assert OccursAt(s, pat, 0);
      RemoveAll(s[|pat|..], pat)
    else
      assert !Contains(s, pat) ==> !Contains(s[1..], pat) by {
        if Contains(s[1..], pat) {
          var i :| 0 <= i <= |s[1..]| && OccursAt(s[1..], pat, i);
          assert OccursAt(s, pat, i + 1);
        }
      }
      [s[0]] + RemoveAll(s[1..], pat)
  }

  /** An occurrence at k > 0 is an occurrence at k - 1 of the tail. */
  lemma OccursShift(s: string, pat: string, k: nat)
    requires 0 < k <= |s|
    ensures OccursAt(s, pat, k) <==> OccursAt(s[1..], pat, k - 1)
  {
    if k + |pat| <= |s| {
      assert s[1..][k - 1..k - 1 + |pat|] == s[k..k + |pat|];
    }
  }

  /** One character that starts no occurrence is kept. */
  lemma RemoveAllMiss(s: string, pat: string)
    requires pat != [] && s != [] && !OccursAt(s, pat, 0)
    ensures RemoveAll(s, pat) == [s[0]] + RemoveAll(s[1..], pat)
  {
    if |s| < |pat| {
      assert !Contains(s[1..], pat);
      assert s == [s[0]] + s[1..];
    }
  }

  /** A leading part in which no occurrence starts is kept as it is. */
  lemma {:induction false} RemoveAllPrefix(x: string, y: string, pat: string)
    requires pat != []
    requires forall j :: 0 <= j < |x| ==> !OccursAt(x + y, pat, j)
    ensures RemoveAll(x + y, pat) == x + RemoveAll(y, pat)
    decreases |x|
  {
    if x == [] {
      assert x + y == y;
    } else {
      var s := x + y;
      var tail := x[1..];
      assert s[1..] == tail + y;
      RemoveAllMiss(s, pat);
      forall j | 0 <= j < |tail| ensures !OccursAt(tail + y, pat, j) {
        OccursShift(s, pat, j + 1);
      }
      RemoveAllPrefix(tail, y, pat);
      assert s[0] == x[0];
      ConsAppend(x, RemoveAll(y, pat));
    }
  }

  /** The text before the leftmost occurrence is kept, the occurrence is deleted, and the
      removal goes on after it. */
  lemma RemoveAllLeftmost(s: string, pat: string, k: nat)
    requires pat != [] && OccursAt(s, pat, k)
    requires forall j :: 0 <= j < k ==> !OccursAt(s, pat, j)
    ensures RemoveAll(s, pat) == s[..k] + RemoveAll(s[k + |pat|..], pat)
  {
    var y := s[k..];
    assert s == s[..k] + y;
    RemoveAllPrefix(s[..k], y, pat);
    assert y[..|pat|] == pat && y[|pat|..] == s[k + |pat|..];
  }

  /** The position of the first `c` in s, or |s|. */
  function IndexOf(s: string, c: char): (i: nat)
    ensures i <= |s| && (i < |s| ==> s[i] == c) && c !in s[..i]
  {
    if s == [] then 0
    else if s[0] == c then 0
    else
      var i := 1 + IndexOf(s[1..], c);
      assert s[..i] == [s[0]] + s[1..][..i - 1];
      i
  }

  /** sep.join(parts). */
  function JoinWith(parts: seq<string>, sep: string): string {
    if |parts| == 0 then ""
    else if |parts| == 1 then parts[0]
    else parts[0] + sep + JoinWith(parts[1..], sep)
  }

  /** s.split(c) for one separator character: at least one piece (the empty string gives
      [""]), no piece holds the separator, and joining the pieces back gives s. */
  function SplitOn(s: string, c: char): (parts: seq<string>)
    ensures |parts| >= 1
    ensures forall k :: 0 <= k < |parts| ==> c !in parts[k]
    ensures JoinWith(parts, [c]) == s
    decreases |s|
  {
    var i := IndexOf(s, c);
    if i == |s| then
      assert s[..i] == s;
      [s]
    else
      var rest := SplitOn(s[i + 1..], c);
      var parts := [s[..i]] + rest;
      assert parts[1..] == rest;
      assert s == s[..i] + [c] + s[i + 1..];
      parts
  }

  // ---------------------------------------------------------------- str.title()

  /** One character of str.title(): a letter is lowered after a letter and raised otherwise. */
  function TitleChar(c: char, afterLetter: bool): char {
    if !IsAlpha(c) then c else if afterLetter then LowerChar(c) else UpperChar(c)
  }

  function TitleFrom(s: string, prevCased: bool): (r: string)
    ensures |r| == |s|
    ensures s != [] ==> r[0] == TitleChar(s[0], prevCased)
    ensures forall i :: 1 <= i < |s| ==> r[i] == TitleChar(s[i], IsAlpha(s[i - 1]))
  {
    if s == [] then []
    else
      var tail := TitleFrom(s[1..], IsAlpha(s[0]));
      var r := [TitleChar(s[0], prevCased)] + tail;
      forall i | 1 <= i < |s| ensures r[i] == TitleChar(s[i], IsAlpha(s[i - 1])) {
        assert r[i] == tail[i - 1] && s[1..][i - 1] == s[i];
        if i > 1 { assert s[1..][i - 2] == s[i - 1]; }
      }
      r
  }

  /** str.title() on ASCII: a letter becomes upper case when it starts a run of letters
      and lower case otherwise; every other character is kept. */
  function TitleCase(s: string): (r: string)
    ensures |r| == |s|
    ensures forall i :: 0 <= i < |s| ==> r[i] == TitleChar(s[i], i > 0 && IsAlpha(s[i - 1]))
  {
    TitleFrom(s, false)
  }

  /** Title-casing changes letter case only. */
  lemma TitleCaseSameLetters(s: string)
    ensures Lower(TitleCase(s)) == Lower(s)
  {
    var r := TitleCase(s);
    forall i | 0 <= i < |s| ensures LowerChar(r[i]) == LowerChar(s[i]) {
      var c := s[i];
      assert r[i] == TitleChar(c, i > 0 && IsAlpha(s[i - 1]));
      if IsLowerLetter(c) { assert UpperChar(c) as int == c as int - 32; }
      if IsUpperLetter(c) { assert LowerChar(c) as int == c as int + 32; }
    }
  }

  // ---------------------------------------------------------------- numbers

  function DigitChar(d: nat): (c: char)
    requires d < 10
    ensures IsDigit(c)
  {
    ('0' as int + d) as char
  }

  /** str(n) for a natural number. */
  function NatToString(n: nat): (s: string)
    ensures |s| >= 1 && forall i :: 0 <= i < |s| ==> IsDigit(s[i])
    ensures |s| > 1 ==> s[0] != '0'
  {
    if n < 10 then [DigitChar(n)] else NatToString(n / 10) + [DigitChar(n % 10)]
  }

  function DigitValue(c: char): nat
    requires IsDigit(c)
  {
    c as int - '0' as int
  }

  /** int(s) for a string of decimal digits. */
  function ParseNat(s: string): nat
    requires forall i :: 0 <= i < |s| ==> IsDigit(s[i])
  {
    if s == [] then 0 else ParseNat(s[..|s| - 1]) * 10 + DigitValue(s[|s| - 1])
  }

  /** Rendering a number in decimal loses nothing. */
  lemma {:induction false} ParseNatToString(n: nat)
    ensures ParseNat(NatToString(n)) == n
  {
    if n >= 10 {
      var s := NatToString(n);
      ParseNatToString(n / 10);
      assert s[..|s| - 1] == NatToString(n / 10);
    }
  }
}
