/** Python's whitespace handling of a text line: `str.isspace`, `str.strip()`,
    `str.split()` with no separator, and `str.startswith`. Every parser of the
    pipeline tokenises a line as `line.strip().split()`. */
module Text {

  /** The characters for which Python's `str.isspace()` holds. */
  predicate IsSpace(c: char) {
    || c == ' ' || c == '\t' || c == '\n' || c == '\r'
    || c == '\U{000B}' || c == '\U{000C}'
    || ('\U{001C}' <= c <= '\U{001F}')
    || c == '\U{0085}' || c == '\U{00A0}' || c == '\U{1680}'
    || ('\U{2000}' <= c <= '\U{200A}')
    || c == '\U{2028}' || c == '\U{2029}' || c == '\U{202F}' || c == '\U{205F}'
    || c == '\U{3000}'
  }

  /** A non-empty run of non-whitespace characters: what `split()` yields. */
  predicate IsWord(w: string) {
    |w| > 0 && forall i | 0 <= i < |w| :: !IsSpace(w[i])
  }

  predicate StartsWith(s: string, prefix: string) {
    |prefix| <= |s| && s[..|prefix|] == prefix
  }

  /** `s.lstrip()` */
  function TrimStart(s: string): (r: string)
  {
    if |s| > 0 && IsSpace(s[0]) then TrimStart(s[1..]) else s
  }

  /** `s.rstrip()` */
  function TrimEnd(s: string): (r: string)
  {
    if |s| > 0 && IsSpace(s[|s| - 1]) then TrimEnd(s[..|s| - 1]) else s
  }

  /** `s.strip()` */
  function Strip(s: string): string {
    TrimEnd(TrimStart(s))
  }

  /** The longest prefix of `s` without whitespace. */
  function Word(s: string): (w: string)
    ensures |w| <= |s| && w == s[..|w|]
    ensures forall i | 0 <= i < |w| :: !IsSpace(w[i])
    ensures |w| < |s| ==> IsSpace(s[|w|])
  {
    if |s| == 0 || IsSpace(s[0]) then [] else [s[0]] + Word(s[1..])
  }

  /** `s.split()`: the maximal whitespace-free runs of `s`, left to right. */
  function Split(s: string): (ws: seq<string>)
    ensures forall i | 0 <= i < |ws| :: IsWord(ws[i])
    decreases |s|
  {
    if |s| == 0 then []
    else if IsSpace(s[0]) then Split(s[1..])
    else
      var w := Word(s);
      [w] + Split(s[|w|..])
  }

  /** The tokens of one line as the pipeline reads them: `line.strip().split()`. */
  function Tokens(line: string): seq<string> {
    Split(Strip(line))
  }

  /** The tokens of every line of a file, line by line. */
  function Rows(lines: seq<string>): (rows: seq<seq<string>>)
    ensures |rows| == |lines|
    ensures forall i | 0 <= i < |lines| :: rows[i] == Tokens(lines[i])
  {
    seq(|lines|, i requires 0 <= i < |lines| => Tokens(lines[i]))
  }

  /** A word is its own, only token. */
  lemma {:induction false} SplitWord(w: string)
    requires IsWord(w)
    ensures Split(w) == [w]
  {
    WordWhole(w);
    assert w[|w|..] == [];
  }

  lemma {:induction false} WordWhole(w: string)
    requires forall i | 0 <= i < |w| :: !IsSpace(w[i])
    ensures Word(w) == w
    decreases |w|
  {
    if |w| > 0 {
      WordWhole(w[1..]);
    }
  }

  /** A whitespace character separates: the tokens of `a + [c] + b` are the
      tokens of `a` followed by the tokens of `b`. Together with `SplitWord`
      and `SplitBlank` this pins down `Split` completely. */
  lemma {:induction false} SplitAtSpace(a: string, c: char, b: string)
    requires IsSpace(c)
    ensures Split(a + [c] + b) == Split(a) + Split(b)
    decreases |a|
  {
    var s := a + [c] + b;
    if |a| == 0 {
      assert s[1..] == b;
    } else if IsSpace(a[0]) {
      assert s[1..] == a[1..] + [c] + b;
      SplitAtSpace(a[1..], c, b);
    } else {
      WordBeforeSpace(a, c, b);
      var w := Word(a);
      assert s[|w|..] == a[|w|..] + [c] + b;
      SplitAtSpace(a[|w|..], c, b);
    }
  }

  lemma {:induction false} WordBeforeSpace(a: string, c: char, b: string)
    requires IsSpace(c)
    ensures Word(a + [c] + b) == Word(a)
    decreases |a|
  {
    var s := a + [c] + b;
    if |a| > 0 && !IsSpace(a[0]) {
      assert s[1..] == a[1..] + [c] + b;
      WordBeforeSpace(a[1..], c, b);
    }
  }

  /** Text of whitespace alone, the empty string included, has no tokens. */
  lemma {:induction false} SplitBlank(s: string)
    requires AllSpace(s)
    ensures Split(s) == []
    decreases |s|
  {
    if |s| > 0 {
      SplitBlank(s[1..]);
    }
  }

  predicate AllSpace(s: string) {
    forall i | 0 <= i < |s| :: IsSpace(s[i])
  }

  /** Empty, or neither starting nor ending with whitespace. */
  predicate Trimmed(t: string) {
    |t| == 0 || (!IsSpace(t[0]) && !IsSpace(t[|t| - 1]))
  }

  /** `strip()` removes the whitespace around a text and nothing else: every
      string is some `a + t + b` of this shape, so this determines `Strip`. */
  lemma StripExact(a: string, t: string, b: string)
    requires AllSpace(a) && AllSpace(b) && Trimmed(t)
    ensures Strip(a + t + b) == t
  {
    assert a + t + b == a + (t + b);
    TrimStartSpaces(a, t + b);
    if |t| == 0 {
      assert t + b == b + [];
      TrimStartSpaces(b, []);
    } else {
      assert TrimStart(t + b) == t + b;
      TrimEndSpaces(t, b);
    }
  }

  lemma {:induction false} TrimStartSpaces(a: string, s: string)
    requires AllSpace(a)
    ensures TrimStart(a + s) == TrimStart(s)
    decreases |a|
  {
    if |a| == 0 {
      assert a + s == s;
    } else {
      assert (a + s)[1..] == a[1..] + s;
      TrimStartSpaces(a[1..], s);
    }
  }

  lemma {:induction false} TrimEndSpaces(s: string, b: string)
    requires AllSpace(b)
    ensures TrimEnd(s + b) == TrimEnd(s)
    decreases |b|
  {
    if |b| == 0 {
      assert s + b == s;
    } else {
      var b' := b[..|b| - 1];
      assert (s + b)[..|s + b| - 1] == s + b';
      TrimEndSpaces(s, b');
    }
  }

  /** `strip()` before `split()` changes nothing: whitespace at either end
      never forms part of a token. */
  lemma StripThenSplit(s: string)
    ensures Tokens(s) == Split(s)
  {
    SplitTrimStart(s);
    SplitTrimEnd(TrimStart(s));
  }

  lemma {:induction false} SplitTrimStart(s: string)
    ensures Split(TrimStart(s)) == Split(s)
    decreases |s|
  {
    if |s| > 0 && IsSpace(s[0]) {
      SplitTrimStart(s[1..]);
    }
  }

  lemma {:induction false} SplitTrimEnd(s: string)
    ensures Split(TrimEnd(s)) == Split(s)
    decreases |s|
  {
    if |s| > 0 && IsSpace(s[|s| - 1]) {
      var a := s[..|s| - 1];
      assert s == a + [s[|s| - 1]] + [];
      SplitAtSpace(a, s[|s| - 1], []);
      SplitTrimEnd(a);
    }
  }

  /** A line whose fields are joined by single tabs and ended by a newline,
      the layout mosdepth, VerifyBamID2 and BED files use. */
  function TabLine(fields: seq<string>): (line: string)
    ensures |fields| > 0 ==> StartsWith(line, fields[0])
  {
    if |fields| == 0 then "\n"
    else if |fields| == 1 then fields[0] + "\n"
    else fields[0] + "\t" + TabLine(fields[1..])
  }

  /** Writing whitespace-free fields as a tab-separated line and splitting it
      again gives back the fields. */
  lemma {:induction false} SplitTabLine(fields: seq<string>)
    requires forall i | 0 <= i < |fields| :: IsWord(fields[i])
    ensures Split(TabLine(fields)) == fields
  {
    if |fields| == 0 {
      assert "\n" == [] + ['\n'] + [];
      SplitAtSpace([], '\n', []);
    } else {
      var w := fields[0];
      SplitWord(w);
      if |fields| == 1 {
        assert TabLine(fields) == w + ['\n'] + [];
        SplitAtSpace(w, '\n', []);
      } else {
        assert TabLine(fields) == w + ['\t'] + TabLine(fields[1..]);
        SplitAtSpace(w, '\t', TabLine(fields[1..]));
        SplitTabLine(fields[1..]);
        assert fields == [w] + fields[1..];
      }
    }
  }

  /** A one-line file written from whitespace-free fields is read back as one
      row holding those fields. */
  lemma TabLineRows(fields: seq<string>)
    requires forall i | 0 <= i < |fields| :: IsWord(fields[i])
    ensures Rows([TabLine(fields)]) == [fields]
  {
    StripThenSplit(TabLine(fields));
    SplitTabLine(fields);
  }

  /** Printable ASCII other than the space bar is never whitespace. */
  lemma PrintableWord(w: string)
    requires |w| > 0 && forall k | 0 <= k < |w| :: '!' <= w[k] <= '~'
    ensures IsWord(w)
  {
  }
}
