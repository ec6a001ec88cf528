/** String helpers with JavaScript's meaning: the whitespace class `\s`
    (which is also what `trim()` removes), `trim`, `join`, the
    `split(/(\s+)/)` tokenisation the command parser uses, and decimal
    rendering of a count. */
module Text {

  /** The characters matched by `\s` and removed by `String.prototype.trim`:
      tab, line feed, vertical tab, form feed, carriage return, space,
      no-break space, the Unicode space separators (U+1680, U+2000 to U+200A,
      U+202F, U+205F, U+3000), the line and paragraph separators and the
      byte order mark. */
  const SPACES: set<char> := {
    '\t', '\n', '\U{000B}', '\U{000C}', '\r', ' ', '\U{00A0}', '\U{1680}',
    '\U{2000}', '\U{2001}', '\U{2002}', '\U{2003}', '\U{2004}', '\U{2005}',
    '\U{2006}', '\U{2007}', '\U{2008}', '\U{2009}', '\U{200A}',
    '\U{2028}', '\U{2029}', '\U{202F}', '\U{205F}', '\U{3000}', '\U{FEFF}'
  }

  predicate IsSpace(c: char) {
    c in SPACES
  }

  predicate NoSpace(s: string) {
    forall i :: 0 <= i < |s| ==> !IsSpace(s[i])
  }

  predicate AllSpace(s: string) {
    forall i :: 0 <= i < |s| ==> IsSpace(s[i])
  }

  /** Neither end of `s` is whitespace (the empty string counts as trimmed). */
  predicate Trimmed(s: string) {
    s == [] || (!IsSpace(s[0]) && !IsSpace(s[|s| - 1]))
  }

  // ---------------------------------------------------------------- trim

  /** `String.prototype.trim`: whitespace removed from both ends. */
  function Trim(s: string): (r: string)
    ensures Trimmed(r)
    ensures |r| <= |s|
  {
    if s != [] && IsSpace(s[0]) then Trim(s[1..])
    else if s != [] && IsSpace(s[|s| - 1]) then Trim(s[..|s| - 1])
    else s
  }

  /** Trimming changes nothing exactly when the string is already trimmed. */
  lemma TrimFixed(s: string)
    ensures Trim(s) == s <==> Trimmed(s)
  {
  }

  /** Trimming twice is trimming once. */
  lemma TrimIdempotent(s: string)
    ensures Trim(Trim(s)) == Trim(s)
  {
    TrimFixed(Trim(s));
  }

  /** Trimming removes only whitespace: `s` is its leading whitespace run,
      then the trimmed text, then whitespace. */
  lemma {:induction false} TrimRemovesOnlySpace(s: string)
    ensures var k := SpaceRun(s);
            && k + |Trim(s)| <= |s|
            && s[k..k + |Trim(s)|] == Trim(s)
            && AllSpace(s[..k]) && AllSpace(s[k + |Trim(s)|..])
    decreases |s|
  {
    var k := SpaceRun(s);
    if s != [] && IsSpace(s[0]) {
      var t := s[1..];
      TrimRemovesOnlySpace(t);
      assert SpaceRun(s) == 1 + SpaceRun(t);
      SliceShift(s, SpaceRun(t), |Trim(t)|);
    } else if s != [] && IsSpace(s[|s| - 1]) {
      var t := s[..|s| - 1];
      TrimRemovesOnlySpace(t);
      assert k == 0 && SpaceRun(t) == 0;
      SliceDropLast(s, |Trim(t)|);
    } else {
      assert k == 0;
      assert s[0..|s|] == s;
    }
  }

  lemma SliceShift(s: string, k: nat, n: nat)
    requires 1 + k + n <= |s|
    ensures s[1 + k..1 + k + n] == s[1..][k..k + n]
    ensures s[1 + k + n..] == s[1..][k + n..]
  {
    var mid, tail := s[1..][k..k + n], s[1..][k + n..];
    assert forall i :: 0 <= i < n ==> mid[i] == s[1 + k + i];
    assert forall i :: 0 <= i < |s| - (1 + k + n) ==> tail[i] == s[1 + k + n + i];
  }

  lemma SliceDropLast(s: string, n: nat)
    requires n < |s|
    ensures s[..n] == s[..|s| - 1][..n]
    ensures s[n..] == s[..|s| - 1][n..] + [s[|s| - 1]]
  {
    var t := s[..|s| - 1];
    var head, rest := t[..n], t[n..] + [s[|s| - 1]];
    assert forall i :: 0 <= i < n ==> head[i] == s[i];
    assert forall i :: 0 <= i < |s| - 1 - n ==> rest[i] == s[n + i];
    assert rest[|s| - 1 - n] == s[|s| - 1];
  }

  /** Trimming brings in no character that was not already there. */
  lemma {:induction false} TrimAvoids(s: string, c: char)
    requires c !in s
    ensures c !in Trim(s)
    decreases |s|
  {
    if s != [] && IsSpace(s[0]) {
      assert forall x :: x in s[1..] ==> x in s;
      TrimAvoids(s[1..], c);
    } else if s != [] && IsSpace(s[|s| - 1]) {
      assert forall x :: x in s[..|s| - 1] ==> x in s;
      TrimAvoids(s[..|s| - 1], c);
    }
  }

  // ---------------------------------------------------------------- join

  /** `Array.prototype.join(sep)` on strings. */
  function Join(parts: seq<string>, sep: string): string
  {
    if parts == [] then ""
    else if |parts| == 1 then parts[0]
    else parts[0] + sep + Join(parts[1..], sep)
  }

  /** Joining non-empty trimmed parts gives a trimmed string that is empty only
      when there were no parts, whatever the separator. */
  lemma {:induction false} JoinTrimmed(parts: seq<string>, sep: string)
    requires forall k :: 0 <= k < |parts| ==> parts[k] != [] && Trimmed(parts[k])
    ensures Trimmed(Join(parts, sep))
    ensures Join(parts, sep) == [] <==> parts == []
    ensures parts != [] ==> Join(parts, sep)[0] == parts[0][0]
    ensures parts != [] ==> Join(parts, sep)[|Join(parts, sep)| - 1] == parts[|parts| - 1][|parts[|parts| - 1]| - 1]
  {
    if |parts| > 1 {
      JoinTrimmed(parts[1..], sep);
      var j := Join(parts, sep);
      var rest := Join(parts[1..], sep);
      assert j == parts[0] + sep + rest;
      assert j[0] == parts[0][0];
      assert j[|j| - 1] == rest[|rest| - 1];
    }
  }

  /** A character found in neither the parts nor the separator is not in
      their join. */
  lemma {:induction false} JoinAvoids(parts: seq<string>, sep: string, c: char)
    requires c !in sep
    requires forall k :: 0 <= k < |parts| ==> c !in parts[k]
    ensures c !in Join(parts, sep)
  {
    if |parts| > 1 {
      JoinAvoids(parts[1..], sep, c);
      assert Join(parts, sep) == parts[0] + sep + Join(parts[1..], sep);
    }
  }

  // ---------------------------------------------------- split(/(\s+)/)

  /** Index of the first whitespace character of `s`, or `|s|` when there is none. */
  function FirstSpace(s: string): (i: nat)
    ensures i <= |s| && NoSpace(s[..i])
    ensures i < |s| ==> IsSpace(s[i])
  {
    if s == [] || IsSpace(s[0]) then 0
    else
      var i := 1 + FirstSpace(s[1..]);
      assert s[..i] == [s[0]] + s[1..][..i - 1];
      i
  }

  /** Length of the whitespace run that begins `s`. */
  function SpaceRun(s: string): (n: nat)
    ensures n <= |s| && AllSpace(s[..n])
    ensures n < |s| ==> !IsSpace(s[n])
  {
    if s != [] && IsSpace(s[0]) then
      var n := 1 + SpaceRun(s[1..]);
      assert s[..n] == [s[0]] + s[1..][..n - 1];
      n
    else 0
  }

  /** `s.split(/(\s+)/).filter(c => !c.match(/(\s+)/))`: the pieces of `s`
      between maximal whitespace runs, including the (possibly empty) piece
      before the first run and the one after the last. Element 0 is also
      `s.split(/(\s+)/)[0]`, the text before the first whitespace. */
  function Words(s: string): (r: seq<string>)
    ensures |r| >= 1
    ensures forall k :: 0 <= k < |r| ==> NoSpace(r[k])
    decreases |s|
  {
    var i := FirstSpace(s);
    if i == |s| then [s]
    else
      var n := SpaceRun(s[i..]);
      assert s[i..][0] == s[i];
      [s[..i]] + Words(s[i + n..])
  }

  /** A whitespace-free string is a single piece. */
  lemma WordsOfWord(w: string)
    requires NoSpace(w)
    ensures Words(w) == [w]
  {
    assert FirstSpace(w) == |w|;
  }

  /** A word, a whitespace run, and a rest that does not start with
      whitespace: the word is the first piece and the rest gives the others. */
  lemma WordsCons(w: string, run: string, rest: string)
    requires NoSpace(w) && run != [] && AllSpace(run)
    requires rest == [] || !IsSpace(rest[0])
    ensures Words(w + run + rest) == [w] + Words(rest)
  {
    var s := w + run + rest;
    FirstSpaceOf(w, run + rest);
    assert s == w + (run + rest);
    assert s[|w|..] == run + rest;
    SpaceRunOf(run, rest);
    assert s[..|w|] == w;
    assert s[|w| + |run|..] == rest;
  }

  lemma {:induction false} FirstSpaceOf(w: string, t: string)
    requires NoSpace(w) && t != [] && IsSpace(t[0])
    ensures FirstSpace(w + t) == |w|
  {
    if w != [] {
      assert (w + t)[1..] == w[1..] + t;
      FirstSpaceOf(w[1..], t);
    } else {
      assert w + t == t;
    }
  }

  lemma {:induction false} SpaceRunOf(run: string, rest: string)
    requires AllSpace(run)
    requires rest == [] || !IsSpace(rest[0])
    ensures SpaceRun(run + rest) == |run|
  {
    if run != [] {
      assert (run + rest)[1..] == run[1..] + rest;
      SpaceRunOf(run[1..], rest);
    } else {
      assert run + rest == rest;
    }
  }

  /** Only the first and the last piece can be empty: the runs are maximal. */
  lemma {:induction false} WordsInteriorNonEmpty(s: string)
    ensures forall k :: 0 < k < |Words(s)| - 1 ==> Words(s)[k] != []
    decreases |s|
  {
    var i := FirstSpace(s);
    if i < |s| {
      var n := SpaceRun(s[i..]);
      assert s[i..][0] == s[i];
      var t := s[i + n..];
      WordsInteriorNonEmpty(t);
      if t != [] {
        assert t[0] == s[i..][n];
        assert FirstSpace(t) > 0;
      }
    }
  }

  /** The tokens the command parser sees for "word0 word1 word2" with any
      whitespace runs between the words (the runs inserted by @-mentions
      need not be the ASCII space). */
  lemma ThreeWords(w0: string, r1: string, w1: string, r2: string, w2: string)
    requires NoSpace(w0) && NoSpace(w1) && NoSpace(w2)
    requires w1 != [] && w2 != []
    requires r1 != [] && AllSpace(r1) && r2 != [] && AllSpace(r2)
    ensures Words(w0 + r1 + w1 + r2 + w2) == [w0, w1, w2]
  {
    WordsOfWord(w2);
    WordsCons(w1, r2, w2);
    assert w0 + r1 + w1 + r2 + w2 == w0 + r1 + (w1 + r2 + w2);
    WordsCons(w0, r1, w1 + r2 + w2);
  }

  /** All characters of `s` except whitespace, in order. */
  function Unspaced(s: string): (r: string)
    ensures NoSpace(r) && |r| <= |s|
  {
    if s == [] then ""
    else if IsSpace(s[0]) then Unspaced(s[1..])
    else [s[0]] + Unspaced(s[1..])
  }

  /** The concatenation of pieces. */
  function Concat(ws: seq<string>): string
  {
    if ws == [] then "" else ws[0] + Concat(ws[1..])
  }

  lemma {:induction false} UnspacedAppend(a: string, b: string)
    ensures Unspaced(a + b) == Unspaced(a) + Unspaced(b)
  {
    if a != [] {
      assert (a + b)[1..] == a[1..] + b;
      UnspacedAppend(a[1..], b);
    } else {
      assert a + b == b;
    }
  }

  lemma {:induction false} UnspacedNoSpace(s: string)
    requires NoSpace(s)
    ensures Unspaced(s) == s
  {
    if s != [] { UnspacedNoSpace(s[1..]); }
  }

  lemma {:induction false} UnspacedAllSpace(s: string)
    requires AllSpace(s)
    ensures Unspaced(s) == ""
  {
    if s != [] { UnspacedAllSpace(s[1..]); }
  }

  /** Tokenising loses only the whitespace: the pieces put back together are
      the input with every whitespace character removed. */
  lemma {:induction false} WordsLoseOnlySpace(s: string)
    ensures Concat(Words(s)) == Unspaced(s)
    decreases |s|
  {
    var i := FirstSpace(s);
    if i == |s| {
      assert s[..i] == s;
      UnspacedNoSpace(s);
      assert Concat([s]) == s + Concat([]);
    } else {
      var n := SpaceRun(s[i..]);
      assert s[i..][0] == s[i];
      var w, run, t := s[..i], s[i..][..n], s[i + n..];
      assert s == w + run + t;
      WordsLoseOnlySpace(t);
      UnspacedPiece(w, run, t);
      ConcatCons(w, Words(t));
    }
  }

  lemma {:induction false} UnspacedPiece(w: string, run: string, t: string)
    requires NoSpace(w) && AllSpace(run)
    ensures Unspaced(w + run + t) == w + Unspaced(t)
  {
    UnspacedAppend(w + run, t);
    UnspacedAppend(w, run);
    UnspacedNoSpace(w);
    UnspacedAllSpace(run);
  }

  lemma {:induction false} ConcatCons(w: string, ws: seq<string>)
    ensures Concat([w] + ws) == w + Concat(ws)
  {
    assert ([w] + ws)[1..] == ws;
  }

  // ------------------------------------------------------------ numbers

  function DigitChar(d: nat): (c: char)
    requires d < 10
    ensures '0' <= c <= '9'
  {
    ('0' as int + d) as char
  }

  /** Template-literal rendering of a non-negative count, `${n}`. */
  function Decimal(n: nat): (r: string)
    ensures 1 <= |r|
    ensures forall i :: 0 <= i < |r| ==> '0' <= r[i] <= '9'
    ensures n > 0 ==> r[0] != '0'
  {
    if n < 10 then [DigitChar(n)] else Decimal(n / 10) + [DigitChar(n % 10)]
  }

  /** The number a string of decimal digits denotes. */
  function DecimalValue(s: string): nat
    requires forall i :: 0 <= i < |s| ==> '0' <= s[i] <= '9'
  {
    if s == [] then 0 else 10 * DecimalValue(s[..|s| - 1]) + (s[|s| - 1] as int - '0' as int)
  }

  /** Rendering a count loses nothing: reading the digits back gives the count. */
  lemma {:induction false} DecimalRoundTrip(n: nat)
    ensures DecimalValue(Decimal(n)) == n
  {
    var r := Decimal(n);
    if n < 10 {
      assert r[..0] == [];
    } else {
      DecimalRoundTrip(n / 10);
      assert r[..|r| - 1] == Decimal(n / 10);
      assert r[|r| - 1] as int - '0' as int == n % 10;
    }
  }
}
