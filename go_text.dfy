/**
 The pieces of Go's standard library that the record normaliser leans on:
 `unicode.IsSpace`, `strings.Fields`, `strings.Join` and the decimal text
 `fmt.Sprint` gives an unsigned integer. Each is written as a function over
 `seq<char>` together with a partner (an inverse or a characterisation) and
 the lemma that connects the two.
 */
module GoText {

  /** Go's `unicode.IsSpace`: the Latin-1 spaces '\t', '\n', '\v', '\f', '\r',
      ' ', U+0085 and U+00A0, and the other code points with the Unicode
      White_Space property. */
  predicate IsSpace(c: char) {
    var n := c as int;
    || (0x09 <= n <= 0x0D) || n == 0x20 || n == 0x85 || n == 0xA0
    || n == 0x1680 || (0x2000 <= n <= 0x200A)
    || n == 0x2028 || n == 0x2029 || n == 0x202F || n == 0x205F || n == 0x3000
  }

  /** Below U+0080, `IsSpace` holds of exactly the six characters of the
      ASCII table that `strings.Fields` consults before falling back to
      `unicode.IsSpace`. */
  lemma IsSpaceAscii(c: char)
    requires c as int < 0x80
    ensures IsSpace(c) <==> c in " \t\n\r\U{000B}\U{000C}"
  {
  }

  /** No white space anywhere in `s`. */
  predicate NoSpace(s: string) {
    forall i :: 0 <= i < |s| ==> !IsSpace(s[i])
  }

  /** The longest prefix of `s` that holds no white space. */
  function Word(s: string): (w: string)
    ensures |w| <= |s| && w == s[..|w|]
    ensures NoSpace(w)
    ensures |w| < |s| ==> IsSpace(s[|w|])
  {
    if s == [] || IsSpace(s[0]) then [] else [s[0]] + Word(s[1..])
  }

  /** Go's `strings.Fields`: the maximal runs of non-space characters of `s`,
      in order. */
  function Fields(s: string): (fs: seq<string>)
    ensures forall i :: 0 <= i < |fs| ==> fs[i] != [] && NoSpace(fs[i])
    decreases |s|
  {
    if s == [] then []
    else if IsSpace(s[0]) then Fields(s[1..])
    else
      var w := Word(s);
      [w] + Fields(s[|w|..])
  }

  /** Go's `strings.Join`: the elements of `ws` with `sep` between each
      neighbouring pair. */
  function Join(ws: seq<string>, sep: string): (r: string)
    ensures |r| == |Concat(ws)| + (if ws == [] then 0 else (|ws| - 1) * |sep|)
    ensures ws != [] ==> r[..|ws[0]|] == ws[0]
  {
    if |ws| == 0 then ""
    else if |ws| == 1 then ws[0]
    else ws[0] + sep + Join(ws[1..], sep)
  }

  /** Go's `strings.Split` with a one-character separator: the pieces of `s`
      between occurrences of `c`; the empty string gives one empty piece. */
  function Split(s: string, c: char): (parts: seq<string>)
    ensures |parts| >= 1
    ensures forall i :: 0 <= i < |parts| ==> c !in parts[i]
  {
    if s == [] then [""]
    else
      var rest := Split(s[1..], c);
      if s[0] == c then [""] + rest
      else [[s[0]] + rest[0]] + rest[1..]
  }

  /** The decimal digit character for `d`. */
  function Digit(d: nat): char
    requires d < 10
  {
    "0123456789"[d]
  }

  predicate IsDigit(c: char) {
    '0' <= c <= '9'
  }

  /** `fmt.Sprint` of an unsigned integer: its decimal text with no sign and
      no leading zero. */
  function NatToDec(n: nat): (s: string)
    ensures s != []
    ensures forall i :: 0 <= i < |s| ==> IsDigit(s[i])
    ensures s[0] == '0' ==> n == 0 && s == "0"
  {
    if n < 10 then [Digit(n)] else NatToDec(n / 10) + [Digit(n % 10)]
  }

  /** The number a string of decimal digits denotes. */
  function DecToNat(s: string): nat
    requires forall i :: 0 <= i < |s| ==> IsDigit(s[i])
  {
    if s == [] then 0
    else DecToNat(s[..|s| - 1]) * 10 + DigitValue(s[|s| - 1])
  }

  /** The value of one decimal digit character. */
  function DigitValue(c: char): (d: nat)
    requires IsDigit(c)
    ensures d < 10
  {
    c as int - '0' as int
  }

  // ---------------------------------------------------------------------
  // Fields and Join

  lemma {:induction false} WordOfPrefix(w: string, rest: string)
    requires NoSpace(w)
    requires rest == [] || IsSpace(rest[0])
    ensures Word(w + rest) == w
  {
    if w != [] {
      assert (w + rest)[1..] == w[1..] + rest;
      WordOfPrefix(w[1..], rest);
    } else {
      assert w + rest == rest;
    }
  }

  /** Joining whitespace-free, non-empty words with one white-space character
      and splitting the result into fields gives the words back. */
  lemma {:induction false} FieldsOfJoin(ws: seq<string>, c: char)
    requires IsSpace(c)
    requires forall i :: 0 <= i < |ws| ==> ws[i] != [] && NoSpace(ws[i])
    ensures Fields(Join(ws, [c])) == ws
  {
    if |ws| == 1 {
      WordOfPrefix(ws[0], []);
      assert ws[0] + [] == ws[0];
      assert ws[0][|ws[0]|..] == [];
    } else if |ws| > 1 {
      var w, tail := ws[0], Join(ws[1..], [c]);
      var s := w + [c] + tail;
      assert s == w + ([c] + tail);
      WordOfPrefix(w, [c] + tail);
      assert s[|w|..] == [c] + tail;
      assert ([c] + tail)[1..] == tail;
      FieldsOfJoin(ws[1..], c);
      assert ws == [w] + ws[1..];
    }
  }

  /** Nothing but white space in `s`. */
  predicate AllSpace(s: string) {
    forall i :: 0 <= i < |s| ==> IsSpace(s[i])
  }

  /** The text `seps[0] + ws[0] + seps[1] + ... + ws[n-1] + seps[n]`: the words
      `ws` with the gaps `seps` around and between them. */
  function Interleave(seps: seq<string>, ws: seq<string>): string
    requires |seps| == |ws| + 1
  {
    if ws == [] then seps[0] else seps[0] + ws[0] + Interleave(seps[1..], ws[1..])
  }

  /** White-space gaps fit for `Interleave`: the outer two may be empty, the
      ones between two words may not. */
  predicate Gaps(seps: seq<string>, n: nat) {
    && |seps| == n + 1
    && (forall i :: 0 <= i < |seps| ==> AllSpace(seps[i]))
    && (forall i :: 0 < i < n ==> seps[i] != [])
  }

  lemma {:induction false} FieldsSkipSpace(sp: string, t: string)
    requires AllSpace(sp)
    ensures Fields(sp + t) == Fields(t)
  {
    if sp != [] {
      assert (sp + t)[1..] == sp[1..] + t;
      FieldsSkipSpace(sp[1..], t);
    } else {
      assert sp + t == t;
    }
  }

  /** Text made of non-empty, space-free words with white-space runs around
      and between them splits into exactly those words: `Fields` cuts at
      every run of white space and nowhere else. */
  lemma {:induction false} FieldsOfInterleave(seps: seq<string>, ws: seq<string>)
    requires Gaps(seps, |ws|)
    requires forall i :: 0 <= i < |ws| ==> ws[i] != [] && NoSpace(ws[i])
    ensures Fields(Interleave(seps, ws)) == ws
  {
    if ws == [] {
      FieldsSkipSpace(seps[0], []);
      assert seps[0] + [] == seps[0];
    } else {
      var rest := Interleave(seps[1..], ws[1..]);
      GapsTail(seps, |ws|);
      FieldsOfInterleave(seps[1..], ws[1..]);
      GapThenWord(seps, ws);
      FieldsSkipSpace(seps[0], ws[0] + rest);
      WordOfPrefix(ws[0], rest);
      assert (ws[0] + rest)[|ws[0]|..] == rest;
      assert ws == [ws[0]] + ws[1..];
    }
  }

  lemma {:induction false} GapsTail(seps: seq<string>, n: nat)
    requires n >= 1 && Gaps(seps, n)
    ensures Gaps(seps[1..], n - 1)
    ensures n >= 2 ==> seps[1] != []
  {
    var t := seps[1..];
    forall i | 0 <= i < |t| ensures AllSpace(t[i]) {
      assert t[i] == seps[i + 1];
    }
    forall i | 0 < i < n - 1 ensures t[i] != [] {
      assert t[i] == seps[i + 1];
    }
  }

  /** Past the first gap comes the first word, and after it either nothing or
      white space. */
  lemma {:induction false} GapThenWord(seps: seq<string>, ws: seq<string>)
    requires |ws| >= 1 && Gaps(seps, |ws|)
    ensures var rest := Interleave(seps[1..], ws[1..]);
      && Interleave(seps, ws) == seps[0] + (ws[0] + rest)
      && (rest == [] || IsSpace(rest[0]))
  {
    var rest := Interleave(seps[1..], ws[1..]);
    assert AllSpace(seps[1]) && seps[1..][0] == seps[1];
    if |ws| > 1 {
      assert seps[1] != [];
      InterleaveStartsWithGap(seps[1..], ws[1..]);
    } else {
      assert rest == seps[1];
    }
  }

  lemma {:induction false} InterleaveStartsWithGap(seps: seq<string>, ws: seq<string>)
    requires |seps| == |ws| + 1 && seps[0] != []
    ensures Interleave(seps, ws) != [] && Interleave(seps, ws)[0] == seps[0][0]
  {
  }

  lemma {:induction false} InterleaveWiderGap(x: string, seps: seq<string>, ws: seq<string>)
    requires |seps| == |ws| + 1
    ensures Interleave([x + seps[0]] + seps[1..], ws) == x + Interleave(seps, ws)
  {
    var xs := [x + seps[0]] + seps[1..];
    assert xs[1..] == seps[1..];
  }

  /** The white-space runs of `s` around and between its fields. */
  function SpaceRuns(s: string): (g: seq<string>)
    ensures |g| == |Fields(s)| + 1
    ensures s != [] && IsSpace(s[0]) ==> g[0] != []
    decreases |s|
  {
    if s == [] then [""]
    else if IsSpace(s[0]) then
      var g := SpaceRuns(s[1..]);
      [[s[0]] + g[0]] + g[1..]
    else
      [""] + SpaceRuns(s[|Word(s)|..])
  }

  /** Every text is its fields with white-space runs around and between them;
      with `FieldsOfInterleave`, this pins `Fields(s)` down completely. */
  lemma {:induction false} FieldsCutAtSpace(s: string)
    ensures Gaps(SpaceRuns(s), |Fields(s)|)
    ensures s == Interleave(SpaceRuns(s), Fields(s))
    decreases |s|
  {
    if s == [] {
    } else if IsSpace(s[0]) {
      FieldsCutAtSpace(s[1..]);
      CutAfterSpace(s);
    } else {
      FieldsCutAtSpace(s[|Word(s)|..]);
      CutAfterWord(s);
    }
  }

  lemma {:induction false} CutAfterSpace(s: string)
    requires s != [] && IsSpace(s[0])
    requires Gaps(SpaceRuns(s[1..]), |Fields(s[1..])|)
    requires s[1..] == Interleave(SpaceRuns(s[1..]), Fields(s[1..]))
    ensures Gaps(SpaceRuns(s), |Fields(s)|)
    ensures s == Interleave(SpaceRuns(s), Fields(s))
  {
    var g, fs := SpaceRuns(s[1..]), Fields(s[1..]);
    var h := [[s[0]] + g[0]] + g[1..];
    assert SpaceRuns(s) == h;
    assert Fields(s) == fs;
    WiderGapStillGaps(s[0], g, |fs|);
    InterleaveWiderGap([s[0]], g, fs);
    assert s == [s[0]] + s[1..];
  }

  lemma {:induction false} WiderGapStillGaps(c: char, g: seq<string>, n: nat)
    requires IsSpace(c) && Gaps(g, n)
    ensures Gaps([[c] + g[0]] + g[1..], n)
  {
    var h := [[c] + g[0]] + g[1..];
    forall i | 0 <= i < |h| ensures AllSpace(h[i]) {
      if i > 0 { assert h[i] == g[i]; }
    }
    forall i | 0 < i < n ensures h[i] != [] {
      assert h[i] == g[i];
    }
  }

  lemma {:induction false} CutAfterWord(s: string)
    requires s != [] && !IsSpace(s[0])
    requires var t := s[|Word(s)|..]; Gaps(SpaceRuns(t), |Fields(t)|) && t == Interleave(SpaceRuns(t), Fields(t))
    ensures Gaps(SpaceRuns(s), |Fields(s)|)
    ensures s == Interleave(SpaceRuns(s), Fields(s))
  {
    var w := Word(s);
    var t := s[|w|..];
    var g, ft := SpaceRuns(t), Fields(t);
    assert SpaceRuns(s) == [""] + g;
    assert Fields(s) == [w] + ft;
    assert |ft| >= 1 ==> t != [] && IsSpace(t[0]);
    EmptyGapFirst(g, |ft|);
    InterleaveWordFirst(w, g, ft);
    assert s == w + t;
  }

  lemma {:induction false} EmptyGapFirst(g: seq<string>, n: nat)
    requires Gaps(g, n) && (n >= 1 ==> g[0] != [])
    ensures Gaps([""] + g, n + 1)
  {
    var h := [""] + g;
    forall i | 0 <= i < |h| ensures AllSpace(h[i]) {
      if i > 0 { assert h[i] == g[i - 1]; }
    }
    forall i | 0 < i < n + 1 ensures h[i] != [] {
      assert h[i] == g[i - 1];
    }
  }

  lemma {:induction false} InterleaveWordFirst(w: string, g: seq<string>, ws: seq<string>)
    requires |g| == |ws| + 1
    ensures Interleave([""] + g, [w] + ws) == w + Interleave(g, ws)
  {
    var h, vs := [""] + g, [w] + ws;
    assert h[0] == "" && h[1..] == g && vs[0] == w && vs[1..] == ws;
  }

  /** The characters of `s` that are not white space, in order. */
  function NonSpace(s: string): (t: string)
    ensures NoSpace(t) && |t| <= |s|
  {
    if s == [] then []
    else if IsSpace(s[0]) then NonSpace(s[1..])
    else [s[0]] + NonSpace(s[1..])
  }

  /** The concatenation of a sequence of strings. */
  function Concat(ws: seq<string>): string {
    if ws == [] then [] else ws[0] + Concat(ws[1..])
  }

  lemma {:induction false} NonSpaceAppend(a: string, b: string)
    ensures NonSpace(a + b) == NonSpace(a) + NonSpace(b)
  {
    if a != [] {
      assert (a + b)[1..] == a[1..] + b;
      NonSpaceAppend(a[1..], b);
    } else {
      assert a + b == b;
    }
  }

  lemma {:induction false} NonSpaceOfWord(w: string)
    requires NoSpace(w)
    ensures NonSpace(w) == w
  {
    if w != [] {
      NonSpaceOfWord(w[1..]);
      assert w == [w[0]] + w[1..];
    }
  }

  /** Fields loses nothing but white space: laid end to end, the fields are
      exactly the non-space characters of the text. */
  lemma {:induction false} FieldsKeepNonSpace(s: string)
    ensures Concat(Fields(s)) == NonSpace(s)
    decreases |s|
  {
    if s != [] {
      if IsSpace(s[0]) {
        FieldsKeepNonSpace(s[1..]);
      } else {
        var w := Word(s);
        var fs := [w] + Fields(s[|w|..]);
        assert fs[1..] == Fields(s[|w|..]);
        FieldsKeepNonSpace(s[|w|..]);
        assert s == w + s[|w|..];
        NonSpaceAppend(w, s[|w|..]);
        NonSpaceOfWord(w);
      }
    }
  }

  // ---------------------------------------------------------------------
  // Split and Join

  lemma {:induction false} JoinPrefixHead(x: string, ws: seq<string>, sep: string)
    requires |ws| >= 1
    ensures Join([x + ws[0]] + ws[1..], sep) == x + Join(ws, sep)
  {
  }

  /** Splitting on `c` and joining with `c` gives back the original text. */
  lemma {:induction false} JoinOfSplit(s: string, c: char)
    ensures Join(Split(s, c), [c]) == s
  {
    if s != [] {
      var rest := Split(s[1..], c);
      JoinOfSplit(s[1..], c);
      if s[0] == c {
        assert ([""] + rest)[1..] == rest;
        assert s == [c] + s[1..];
      } else {
        JoinPrefixHead([s[0]], rest, [c]);
        assert s == [s[0]] + s[1..];
      }
    }
  }

  lemma {:induction false} SplitNoSeparator(w: string, c: char)
    requires c !in w
    ensures Split(w, c) == [w]
  {
    if w != [] {
      SplitNoSeparator(w[1..], c);
      assert w == [w[0]] + w[1..];
    }
  }

  lemma {:induction false} SplitAfter(w: string, c: char, t: string)
    requires c !in w
    ensures Split(w + [c] + t, c) == [w] + Split(t, c)
  {
    var s := w + [c] + t;
    if w == [] {
      assert s == [c] + t && s[1..] == t;
    } else {
      assert s[1..] == w[1..] + [c] + t;
      SplitAfter(w[1..], c, t);
      assert w == [w[0]] + w[1..];
    }
  }

  /** Joining pieces that do not contain `c` with `c` and splitting on `c`
      gives the pieces back; at least one piece is needed, because the empty
      join splits into one empty piece. */
  lemma {:induction false} SplitOfJoin(ws: seq<string>, c: char)
    requires |ws| >= 1
    requires forall i :: 0 <= i < |ws| ==> c !in ws[i]
    ensures Split(Join(ws, [c]), c) == ws
  {
    if |ws| == 1 {
      SplitNoSeparator(ws[0], c);
    } else {
      SplitOfJoin(ws[1..], c);
      SplitAfter(ws[0], c, Join(ws[1..], [c]));
      assert ws == [ws[0]] + ws[1..];
    }
  }

  // ---------------------------------------------------------------------
  // Decimal text

  lemma {:induction false} DecOfNat(n: nat)
    ensures DecToNat(NatToDec(n)) == n
  {
    var s := NatToDec(n);
    if n >= 10 {
      DecOfNat(n / 10);
      assert s[..|s| - 1] == NatToDec(n / 10);
    }
  }
}
