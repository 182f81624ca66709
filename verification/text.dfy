/** The three JavaScript string operations the deck resolver applies to a
    model reply: `trim()`, `split(",")` and `toLowerCase()`. */
module Text {

  /** The characters `String.prototype.trim` removes: ECMAScript WhiteSpace
      (tab, vertical tab, form feed, zero-width no-break space and the
      Unicode space separators) and LineTerminator. */
  predicate IsWhitespace(c: char) {
    || c == '\t' || c == '\n' || c == '\U{000B}' || c == '\U{000C}' || c == '\r'
    || c == ' ' || c == '\U{00A0}' || c == '\U{1680}'
    || ('\U{2000}' <= c <= '\U{200A}')
    || c == '\U{2028}' || c == '\U{2029}' || c == '\U{202F}' || c == '\U{205F}'
    || c == '\U{3000}' || c == '\U{FEFF}'
  }

  predicate AllWhitespace(s: string) {
    forall k :: 0 <= k < |s| ==> IsWhitespace(s[k])
  }

  /** Length of the whitespace run at the start of `s`. */
  function LeadingWhitespace(s: string): (n: nat)
    ensures n <= |s|
    ensures AllWhitespace(s[..n])
    ensures n < |s| ==> !IsWhitespace(s[n])
  {
    if s == [] || !IsWhitespace(s[0]) then 0
    else 1 + LeadingWhitespace(s[1..])
  }

  /** Length of the whitespace run at the end of `s`. */
  function TrailingWhitespace(s: string): (n: nat)
    ensures n <= |s|
    ensures AllWhitespace(s[|s| - n..])
    ensures n < |s| ==> !IsWhitespace(s[|s| - n - 1])
  {
    if s == [] || !IsWhitespace(s[|s| - 1]) then 0
    else 1 + TrailingWhitespace(s[..|s| - 1])
  }

  /** `r` occurs in `s` at offset `i`, only whitespace surrounds it, and it
      neither starts nor ends with whitespace. */
  predicate TrimmedAt(s: string, i: nat, r: string) {
    && i + |r| <= |s|
    && s[i..i + |r|] == r
    && AllWhitespace(s[..i])
    && AllWhitespace(s[i + |r|..])
    && (r == [] || (!IsWhitespace(r[0]) && !IsWhitespace(r[|r| - 1])))
  }

  /** `String.prototype.trim`. */
  function Trim(s: string): (r: string)
    ensures TrimmedAt(s, LeadingWhitespace(s), r)
  {
    var lead := LeadingWhitespace(s);
    var rest := s[lead..];
    var trail := TrailingWhitespace(rest);
    var r := rest[..|rest| - trail];
    assert s[lead + |r|..] == rest[|rest| - trail..];
    assert s[lead..lead + |r|] == r;
    assert r != [] ==> r[0] == s[lead] && r[|r| - 1] == rest[|rest| - trail - 1];
    r
  }

  /** A whitespace run of length `i` followed by a non-whitespace character
      (or the end) is the leading whitespace. */
  lemma {:induction false} LeadingWhitespaceAt(s: string, i: nat)
    requires i <= |s| && AllWhitespace(s[..i])
    requires i < |s| ==> !IsWhitespace(s[i])
    ensures LeadingWhitespace(s) == i
  {
    if i > 0 {
      assert s[..i][0] == s[0];
      assert s[1..][..i - 1] == s[..i][1..];
      LeadingWhitespaceAt(s[1..], i - 1);
    }
  }

  /** A whitespace run of length `m` at the end, preceded by a
      non-whitespace character (or the start), is the trailing whitespace. */
  lemma {:induction false} TrailingWhitespaceAt(s: string, m: nat)
    requires m <= |s| && AllWhitespace(s[|s| - m..])
    requires m < |s| ==> !IsWhitespace(s[|s| - m - 1])
    ensures TrailingWhitespace(s) == m
  {
    if m > 0 {
      var p := s[..|s| - 1];
      assert s[|s| - m..][m - 1] == s[|s| - 1];
      assert p[|p| - (m - 1)..] == s[|s| - m..][..m - 1];
      TrailingWhitespaceAt(p, m - 1);
    }
  }

  /** Trimming has exactly one possible result: any infix of `s` that is
      surrounded by whitespace and has no whitespace at its ends is `Trim(s)`. */
  lemma {:induction false} TrimUnique(s: string, i: nat, r: string)
    requires TrimmedAt(s, i, r)
    ensures r == Trim(s)
  {
    if r == [] {
      assert s == s[..i] + s[i..];
      AllWhitespaceConcat(s[..i], s[i..]);
      assert s[..|s|] == s;
      LeadingWhitespaceAt(s, |s|);
    } else {
      assert s[i] == r[0];
      LeadingWhitespaceAt(s, i);
      var rest := s[i..];
      var m := |rest| - |r|;
      assert rest[|rest| - m..] == s[i + |r|..];
      assert rest[|rest| - m - 1] == r[|r| - 1];
      TrailingWhitespaceAt(rest, m);
      assert rest[..|r|] == r;
    }
  }

  /** Trimming twice is trimming once. */
  lemma {:induction false} TrimIdempotent(s: string)
    ensures Trim(Trim(s)) == Trim(s)
  {
    var t := Trim(s);
    assert t[0..0 + |t|] == t && t[..0] == [] && t[|t|..] == [];
    TrimUnique(t, 0, t);
  }

  lemma {:induction false} AllWhitespaceConcat(a: string, b: string)
    requires AllWhitespace(a) && AllWhitespace(b)
    ensures AllWhitespace(a + b)
  {
    forall k | 0 <= k < |a + b| ensures IsWhitespace((a + b)[k]) {
      if k < |a| {
        assert (a + b)[k] == a[k];
      } else {
        assert (a + b)[k] == b[k - |a|];
      }
    }
  }

  /** Whitespace added around a string does not change its trimmed form. */
  lemma TrimIgnoresSurroundingWhitespace(w1: string, x: string, w2: string)
    requires AllWhitespace(w1) && AllWhitespace(w2)
    ensures Trim(w1 + x + w2) == Trim(x)
  {
    var t := Trim(x);
    var i := LeadingWhitespace(x);
    assert TrimmedAt(x, i, t);
    var s := w1 + x + w2;
    var j := |w1| + i;
    assert s[j..j + |t|] == x[i..i + |t|];
    assert s[..j] == w1 + x[..i];
    AllWhitespaceConcat(w1, x[..i]);
    assert s[j + |t|..] == x[i + |t|..] + w2;
    AllWhitespaceConcat(x[i + |t|..], w2);
    TrimUnique(s, j, t);
  }

  predicate IsUpperAscii(c: char) {
    'A' <= c <= 'Z'
  }

  /** `toLowerCase` on one character; only the ASCII letters are mapped. */
  function LowerChar(c: char): (d: char)
    ensures !IsUpperAscii(d)
    ensures IsUpperAscii(c) ==> d as int == c as int + 32
    ensures !IsUpperAscii(c) ==> d == c
  {
    if IsUpperAscii(c) then (c as int + 32) as char else c
  }

  /** `String.prototype.toLowerCase`, restricted to ASCII letters: no
      capital letter is left, every other character stays where it was. */
  function ToLower(s: string): (r: string)
    ensures |r| == |s|
    ensures forall k :: 0 <= k < |r| ==> !IsUpperAscii(r[k])
    ensures forall k :: 0 <= k < |s| && !IsUpperAscii(s[k]) ==> r[k] == s[k]
    ensures forall k :: 0 <= k < |s| && IsUpperAscii(s[k]) ==> r[k] as int == s[k] as int + 32
  {
    seq(|s|, k requires 0 <= k < |s| => LowerChar(s[k]))
  }

  /** Lower-casing changes a string exactly when it holds a capital letter,
      so lower-casing twice is lower-casing once. */
  lemma ToLowerFixedPoints(s: string)
    ensures ToLower(s) == s <==> forall k :: 0 <= k < |s| ==> !IsUpperAscii(s[k])
    ensures ToLower(ToLower(s)) == ToLower(s)
  {
    if ToLower(s) != s {
      var k :| 0 <= k < |s| && ToLower(s)[k] != s[k];
      assert IsUpperAscii(s[k]);
    }
    var t := ToLower(s);
    assert forall k :: 0 <= k < |t| ==> ToLower(t)[k] == t[k];
  }

  /** Trimming never introduces a character. */
  lemma {:induction false} TrimSubstring(s: string)
    ensures forall c :: c in Trim(s) ==> c in s
  {
    var t := Trim(s);
    var i := LeadingWhitespace(s);
    forall c | c in t ensures c in s {
      var k :| 0 <= k < |t| && t[k] == c;
      assert s[i..i + |t|][k] == s[i + k];
    }
  }

  /** The pieces joined back with commas: `parts.join(",")`. */
  function JoinWithComma(parts: seq<string>): string
    requires |parts| >= 1
  {
    if |parts| == 1 then parts[0] else parts[0] + "," + JoinWithComma(parts[1..])
  }

  /** Appending a piece appends a comma and the piece. */
  lemma {:induction false} JoinAppend(init: seq<string>, x: string)
    requires |init| >= 1
    ensures JoinWithComma(init + [x]) == JoinWithComma(init) + "," + x
  {
    assert (init + [x])[1..] == init[1..] + [x];
    if |init| > 1 {
      JoinAppend(init[1..], x);
    }
  }

  /** The joined text starts with the first piece and ends with the last. */
  lemma {:induction false} JoinEnds(parts: seq<string>)
    requires |parts| >= 1
    ensures parts[0] <= JoinWithComma(parts)
    ensures var j, last := JoinWithComma(parts), parts[|parts| - 1];
      |last| <= |j| && j[|j| - |last|..] == last
  {
    if |parts| > 1 {
      JoinEnds(parts[1..]);
      var rest := JoinWithComma(parts[1..]);
      var j := parts[0] + "," + rest;
      assert j[|j| - |rest|..] == rest;
      assert parts[1..][|parts[1..]| - 1] == parts[|parts| - 1];
    }
  }

  /** `String.prototype.split(",")`: the text between consecutive commas.
      There is always one more piece than there are commas, so the empty
      string splits into one empty piece. */
  function SplitOnComma(s: string): (parts: seq<string>)
    ensures |parts| >= 1
    ensures forall k :: 0 <= k < |parts| ==> ',' !in parts[k]
    ensures JoinWithComma(parts) == s
  {
    if s == [] then [""]
    else
      var rest := SplitOnComma(s[1..]);
      if s[0] == ',' then
        var parts := [""] + rest;
        assert parts[1..] == rest;
        parts
      else
        var parts := [[s[0]] + rest[0]] + rest[1..];
        if |rest| == 1 then
          parts
        else
          assert parts[1..] == rest[1..];
          parts
  }

  /** There is one more piece than there are commas. */
  lemma {:induction false} SplitPieceCount(s: string)
    ensures |SplitOnComma(s)| == multiset(s)[','] + 1
  {
    if s != [] {
      SplitPieceCount(s[1..]);
      assert s == [s[0]] + s[1..];
      assert multiset(s) == multiset([s[0]]) + multiset(s[1..]);
    }
  }

  /** A piece without commas put in front of a string becomes the first piece. */
  lemma {:induction false} SplitAfterPiece(p: string, t: string)
    requires ',' !in p
    ensures SplitOnComma(p + t) == [p + SplitOnComma(t)[0]] + SplitOnComma(t)[1..]
  {
    var st := SplitOnComma(t);
    if p == [] {
      assert p + t == t && p + st[0] == st[0];
      assert st == [st[0]] + st[1..];
    } else {
      var s := p + t;
      assert s[0] == p[0] && s[0] != ',';
      assert s[1..] == p[1..] + t;
      assert ',' !in p[1..] by { assert forall x :: x in p[1..] ==> x in p; }
      SplitAfterPiece(p[1..], t);
      var rest := SplitOnComma(s[1..]);
      assert rest == [p[1..] + st[0]] + st[1..];
      assert SplitOnComma(s) == [[s[0]] + rest[0]] + rest[1..];
      assert rest[0] == p[1..] + st[0] && rest[1..] == st[1..];
      assert [s[0]] + (p[1..] + st[0]) == p + st[0];
    }
  }

  /** Splitting undoes joining whenever no piece holds a comma. */
  lemma {:induction false} SplitJoinRoundTrip(parts: seq<string>)
    requires |parts| >= 1
    requires forall k :: 0 <= k < |parts| ==> ',' !in parts[k]
    ensures SplitOnComma(JoinWithComma(parts)) == parts
  {
    if |parts| == 1 {
      SplitAfterPiece(parts[0], "");
      assert parts[0] + "" == parts[0];
    } else {
      var tail := JoinWithComma(parts[1..]);
      SplitJoinRoundTrip(parts[1..]);
      SplitAfterPiece(parts[0], "," + tail);
      assert ("," + tail)[1..] == tail;
      var st := SplitOnComma("," + tail);
      assert st == [""] + parts[1..];
      assert st[0] == "" && st[1..] == parts[1..];
      assert parts[0] + st[0] == parts[0];
      assert JoinWithComma(parts) == parts[0] + ("," + tail);
      assert parts == [parts[0]] + parts[1..];
    }
  }

  /** `parts` are the comma-separated pieces of `s`. */
  predicate CommaPieces(s: string, parts: seq<string>) {
    && |parts| >= 1
    && (forall k :: 0 <= k < |parts| ==> ',' !in parts[k])
    && JoinWithComma(parts) == s
  }

  /** A text has exactly one decomposition into comma-free pieces, and
      `split(",")` returns it. */
  lemma SplitUnique(s: string, parts: seq<string>)
    requires CommaPieces(s, parts)
    ensures parts == SplitOnComma(s)
  {
    SplitJoinRoundTrip(parts);
  }

  /** Trimming a comma-joined text trims only the outer ends of the first
      and last pieces: the result is the join of pieces that each trim to
      what the original piece trims to. */
  lemma TrimOfJoin(names: seq<string>) returns (inner: seq<string>)
    requires |names| >= 1
    requires forall k :: 0 <= k < |names| ==> ',' !in names[k]
    ensures |inner| == |names|
    ensures forall k :: 0 <= k < |inner| ==> ',' !in inner[k] && Trim(inner[k]) == Trim(names[k])
    ensures Trim(JoinWithComma(names)) == JoinWithComma(inner)
  {
    if |names| == 1 {
      inner := [Trim(names[0])];
      TrimSubstring(names[0]);
      TrimIdempotent(names[0]);
    } else {
      inner := TrimOfLongJoin(names);
    }
  }

  lemma TrimOfLongJoin(names: seq<string>) returns (inner: seq<string>)
    requires |names| >= 2
    requires forall k :: 0 <= k < |names| ==> ',' !in names[k]
    ensures |inner| == |names|
    ensures forall k :: 0 <= k < |inner| ==> ',' !in inner[k] && Trim(inner[k]) == Trim(names[k])
    ensures Trim(JoinWithComma(names)) == JoinWithComma(inner)
  {
    var n := |names|;
    var w1, first := StripLeading(names[0]);
    var last, w2 := StripTrailing(names[n - 1]);
    inner := names[0 := first][n - 1 := last];
    StrippedEnds(names, w1, first, last, w2);
    FramedJoinTrim(names, w1, first, last, w2);
  }

  /** A piece split into its leading whitespace and the rest. */
  lemma StripLeading(p: string) returns (w: string, core: string)
    ensures p == w + core && AllWhitespace(w)
    ensures core != [] ==> !IsWhitespace(core[0])
  {
    var lead := LeadingWhitespace(p);
    w, core := p[..lead], p[lead..];
    assert p == w + core;
    assert core != [] ==> core[0] == p[lead];
  }

  /** A piece split into the rest and its trailing whitespace. */
  lemma StripTrailing(p: string) returns (core: string, w: string)
    ensures p == core + w && AllWhitespace(w)
    ensures core != [] ==> !IsWhitespace(core[|core| - 1])
  {
    var trail := TrailingWhitespace(p);
    core, w := p[..|p| - trail], p[|p| - trail..];
    assert p == core + w;
    assert core != [] ==> core[|core| - 1] == p[|p| - trail - 1];
  }

  /** Cutting outer whitespace off the first and the last piece keeps every
      piece comma-free and trimming to the same text. */
  lemma StrippedEnds(names: seq<string>, w1: string, first: string, last: string, w2: string)
    requires |names| >= 2
    requires forall k :: 0 <= k < |names| ==> ',' !in names[k]
    requires names[0] == w1 + first && AllWhitespace(w1)
    requires names[|names| - 1] == last + w2 && AllWhitespace(w2)
    ensures var inner := names[0 := first][|names| - 1 := last];
      forall k :: 0 <= k < |inner| ==> ',' !in inner[k] && Trim(inner[k]) == Trim(names[k])
  {
    var n := |names|;
    var inner := names[0 := first][n - 1 := last];
    assert names[0] == w1 + first + [];
    TrimIgnoresSurroundingWhitespace(w1, first, []);
    assert first + [] == first;
    assert names[n - 1] == [] + last + w2;
    TrimIgnoresSurroundingWhitespace([], last, w2);
    assert [] + last == last;
    assert ',' !in first && ',' !in last by {
      assert ',' !in names[0] && ',' !in names[n - 1];
    }
    forall k | 0 <= k < n ensures ',' !in inner[k] && Trim(inner[k]) == Trim(names[k]) {
      StrippedPiece(Trim, names, first, last, k);
    }
  }

  /** One piece after the first and last pieces are replaced: it keeps
      what the replaced pieces and the untouched ones have in common. */
  lemma StrippedPiece(f: string -> string, names: seq<string>, first: string, last: string, k: nat)
    requires |names| >= 2 && k < |names| && ',' !in names[k]
    requires ',' !in first && f(first) == f(names[0])
    requires ',' !in last && f(last) == f(names[|names| - 1])
    ensures var p := names[0 := first][|names| - 1 := last][k];
      ',' !in p && f(p) == f(names[k])
  {
    var p := names[0 := first][|names| - 1 := last][k];
    if k == |names| - 1 {
      assert p == last;
    } else if k == 0 {
      assert p == first;
    } else {
      assert p == names[k];
    }
  }

  /** Trimming the join removes exactly the whitespace cut off the first and
      the last piece. */
  lemma FramedJoinTrim(names: seq<string>, w1: string, first: string, last: string, w2: string)
    requires |names| >= 2
    requires names[0] == w1 + first && AllWhitespace(w1)
    requires names[|names| - 1] == last + w2 && AllWhitespace(w2)
    requires first != [] ==> !IsWhitespace(first[0])
    requires last != [] ==> !IsWhitespace(last[|last| - 1])
    ensures Trim(JoinWithComma(names)) == JoinWithComma(names[0 := first][|names| - 1 := last])
  {
    var n := |names|;
    var inner := names[0 := first][n - 1 := last];
    assert inner[0] == first && inner[n - 1] == last;
    assert forall k :: 0 < k < n - 1 ==> inner[k] == names[k];
    JoinFramed(names, inner, w1, w2);
    JoinEndsAreNotWhitespace(inner);
    TrimOfFramed(JoinWithComma(names), w1, JoinWithComma(inner), w2);
  }

  /** Whitespace around a text that neither starts nor ends with
      whitespace is exactly what trimming removes. */
  lemma TrimOfFramed(s: string, w1: string, j: string, w2: string)
    requires s == w1 + j + w2 && AllWhitespace(w1) && AllWhitespace(w2)
    requires |j| > 0 && !IsWhitespace(j[0]) && !IsWhitespace(j[|j| - 1])
    ensures Trim(s) == j
  {
    assert s[|w1|..|w1| + |j|] == j && s[..|w1|] == w1 && s[|w1| + |j|..] == w2;
    TrimUnique(s, |w1|, j);
  }

  /** Replacing the first piece by a suffix and the last piece by a prefix
      cuts the removed parts off the ends of the joined text. */
  lemma JoinFramed(names: seq<string>, inner: seq<string>, w1: string, w2: string)
    requires |names| >= 2 && |inner| == |names|
    requires names[0] == w1 + inner[0] && names[|names| - 1] == inner[|inner| - 1] + w2
    requires forall k :: 0 < k < |names| - 1 ==> inner[k] == names[k]
    ensures JoinWithComma(names) == w1 + JoinWithComma(inner) + w2
  {
    var n := |names|;
    var a := inner[n - 1 := inner[n - 1] + w2];
    JoinExtendLast(inner, w2);
    assert a[0] == inner[0];
    assert names == a[0 := w1 + a[0]] by {
      forall k | 0 <= k < n ensures names[k] == a[0 := w1 + a[0]][k] {
        if k == 0 {
        } else if k == n - 1 {
        } else {
          assert names[k] == inner[k];
        }
      }
    }
    JoinExtendFirst(a, w1);
  }

  /** Text put in front of the first piece ends up in front of the join. */
  lemma JoinExtendFirst(parts: seq<string>, p: string)
    requires |parts| >= 1
    ensures JoinWithComma(parts[0 := p + parts[0]]) == p + JoinWithComma(parts)
  {
    var q := parts[0 := p + parts[0]];
    if |parts| > 1 {
      assert q[1..] == parts[1..];
    }
  }

  /** Text added to the last piece ends up at the end of the join. */
  lemma {:induction false} JoinExtendLast(parts: seq<string>, w: string)
    requires |parts| >= 1
    ensures JoinWithComma(parts[|parts| - 1 := parts[|parts| - 1] + w]) == JoinWithComma(parts) + w
  {
    var n := |parts|;
    var q := parts[n - 1 := parts[n - 1] + w];
    if n > 1 {
      var tail := parts[1..];
      JoinExtendLast(tail, w);
      assert q[1..] == tail[n - 2 := tail[n - 2] + w];
      assert q[0] == parts[0];
    }
  }

  /** A join of at least two pieces whose first piece does not start, and
      whose last piece does not end, with whitespace (an empty piece leaves
      a comma there) neither starts nor ends with whitespace. */
  lemma JoinEndsAreNotWhitespace(parts: seq<string>)
    requires |parts| >= 2
    requires parts[0] != [] ==> !IsWhitespace(parts[0][0])
    requires var last := parts[|parts| - 1]; last != [] ==> !IsWhitespace(last[|last| - 1])
    ensures var j := JoinWithComma(parts); |j| > 0 && !IsWhitespace(j[0]) && !IsWhitespace(j[|j| - 1])
  {
    var n := |parts|;
    var j := JoinWithComma(parts);
    assert j == parts[0] + "," + JoinWithComma(parts[1..]);
    assert parts == parts[..n - 1] + [parts[n - 1]];
    JoinAppend(parts[..n - 1], parts[n - 1]);
    assert j == JoinWithComma(parts[..n - 1]) + "," + parts[n - 1];
  }
}
