/** Text canonicalisation and the small string operations the scoring and
    cache-key code relies on: whitespace collapse, stripping, lower-casing,
    substring search, and splitting/joining on a separator. */
module Text {

  /** Python's `str.isspace()`; a `\s` in a `str` regular expression matches
      exactly these characters too. */
  predicate IsSpace(c: char) {
    var n := c as int;
    || (9 <= n <= 13) || (28 <= n <= 32)
    || n == 0x85 || n == 0xA0 || n == 0x1680
    || (0x2000 <= n <= 0x200A)
    || n == 0x2028 || n == 0x2029 || n == 0x202F || n == 0x205F || n == 0x3000
  }

  /** The upper-case letters whose lower-case form is a single character, for
      the Latin alphabets up to Latin Extended-A (U+0130, whose lower-case
      form is two characters, is not among them). */
  predicate IsUpper(c: char) {
    var n := c as int;
    || ('A' as int <= n <= 'Z' as int)
    || (0xC0 <= n <= 0xDE && n != 0xD7)
    || ((0x100 <= n <= 0x12F || 0x132 <= n <= 0x137 || 0x14A <= n <= 0x177) && n % 2 == 0)
    || ((0x139 <= n <= 0x148 || 0x179 <= n <= 0x17E) && n % 2 == 1)
    || n == 0x178
  }

  function LowerChar(c: char): (d: char)
    ensures !IsUpper(d)
    ensures IsSpace(d) == IsSpace(c)
    ensures !IsUpper(c) ==> d == c
  {
    var n := c as int;
    if !IsUpper(c) then c
    else if n <= 0xDE then (n + 32) as char
    else if n == 0x178 then 0xFF as char
    else (n + 1) as char
  }

  function Lower(s: string): (r: string)
    ensures |r| == |s|
    ensures forall i :: 0 <= i < |s| ==> r[i] == LowerChar(s[i])
  {
    seq(|s|, i requires 0 <= i < |s| => LowerChar(s[i]))
  }

  predicate AllSpace(s: string) {
    forall i :: 0 <= i < |s| ==> IsSpace(s[i])
  }

  /** Every whitespace character is a plain space and no two are adjacent:
      the shape `re.sub(r"\s+", " ", _)` leaves behind. */
  predicate Collapsed(s: string) {
    && (forall i :: 0 <= i < |s| && IsSpace(s[i]) ==> s[i] == ' ')
    && (forall i, j {:trigger s[i], s[j]} :: 0 <= i < |s| && 0 <= j < |s| && j == i + 1 ==> !IsSpace(s[i]) || !IsSpace(s[j]))
  }

  /** Neither end of `s` is whitespace. */
  predicate Trimmed(s: string) {
    |s| > 0 ==> !IsSpace(s[0]) && !IsSpace(s[|s| - 1])
  }

  predicate NoUpper(s: string) {
    forall i :: 0 <= i < |s| ==> !IsUpper(s[i])
  }

  /** The canonical form produced by `Normalize`. */
  predicate IsNormal(s: string) {
    Collapsed(s) && Trimmed(s) && NoUpper(s)
  }

  /** Removes the leading run of whitespace. */
  function DropLeadingSpaces(s: string): (r: string)
    ensures |r| <= |s|
    ensures r == [] || !IsSpace(r[0])
    ensures forall i :: 0 <= i < |s| - |r| ==> IsSpace(s[i])
    ensures Collapsed(s) ==> Collapsed(r)
  {
    if |s| > 0 && IsSpace(s[0]) then DropLeadingSpaces(s[1..]) else s
  }

  /** What `DropLeadingSpaces` keeps is a suffix of its input. */
  lemma {:induction false} DropLeadingSpacesSuffix(s: string)
    ensures DropLeadingSpaces(s) == s[|s| - |DropLeadingSpaces(s)|..]
    decreases |s|
  {
    if |s| > 0 && IsSpace(s[0]) {
      DropLeadingSpacesSuffix(s[1..]);
    }
  }

  /** Dropping leading whitespace in front of a body that does not start
      with whitespace yields the body. */
  lemma {:induction false} DropLeadingSpacesOf(ws: string, body: string)
    requires AllSpace(ws)
    requires body == [] || !IsSpace(body[0])
    ensures DropLeadingSpaces(ws + body) == body
    decreases |ws|
  {
    if |ws| == 0 {
      assert ws + body == body;
    } else {
      assert (ws + body)[1..] == ws[1..] + body;
      DropLeadingSpacesOf(ws[1..], body);
    }
  }

  /** Removes the trailing run of whitespace. */
  function DropTrailingSpaces(s: string): (r: string)
    ensures |r| <= |s|
    ensures r == [] || !IsSpace(r[|r| - 1])
    ensures forall i :: |r| <= i < |s| ==> IsSpace(s[i])
    ensures Collapsed(s) ==> Collapsed(r)
  {
    if |s| > 0 && IsSpace(s[|s| - 1]) then DropTrailingSpaces(s[..|s| - 1]) else s
  }

  /** What `DropTrailingSpaces` keeps is a prefix of its input. */
  lemma {:induction false} DropTrailingSpacesPrefix(s: string)
    ensures DropTrailingSpaces(s) == s[..|DropTrailingSpaces(s)|]
    decreases |s|
  {
    if |s| > 0 && IsSpace(s[|s| - 1]) {
      DropTrailingSpacesPrefix(s[..|s| - 1]);
    }
  }

  /** Python's `str.strip()` with no argument. */
  function Strip(s: string): (r: string)
    ensures Trimmed(r)
    ensures r == [] <==> AllSpace(s)
    ensures Collapsed(s) ==> Collapsed(r)
  {
    var head := DropLeadingSpaces(s);
    DropLeadingSpacesSuffix(s);
    var r := DropTrailingSpaces(head);
    DropTrailingSpacesPrefix(head);
    assert r == [] ==> AllSpace(s) by {
      if r == [] {
        assert head == [];
      }
    }
    r
  }

  /** Stripping a string whose ends are not whitespace changes nothing. */
  lemma StripTrimmed(s: string)
    requires Trimmed(s)
    ensures Strip(s) == s
  {
    assert DropLeadingSpaces(s) == s;
  }

  /** `Strip` removes exactly a whitespace prefix and a whitespace suffix:
      the result is the slice of the input between them. */
  lemma StripIsSlice(s: string)
    ensures exists i, j :: 0 <= i <= j <= |s| && Strip(s) == s[i..j] && AllSpace(s[..i]) && AllSpace(s[j..])
  {
    var head := DropLeadingSpaces(s);
    var r := DropTrailingSpaces(head);
    DropLeadingSpacesSuffix(s);
    DropTrailingSpacesPrefix(head);
    var i := |s| - |head|;
    var j := i + |r|;
    assert head == s[i..];
    assert r == s[i..j];
    assert AllSpace(s[..i]);
    assert s[j..] == head[|r|..];
    assert AllSpace(s[j..]);
  }

  /** `re.sub(r"\s+", " ", s)`: every maximal run of whitespace becomes one
      plain space. */
  function Collapse(s: string): (r: string)
    ensures Collapsed(r)
    ensures AllSpace(r) == AllSpace(s)
    ensures |r| > 0 <==> |s| > 0
    ensures |s| > 0 ==> (IsSpace(r[0]) <==> IsSpace(s[0]))
    decreases |s|
  {
    if |s| == 0 then []
    else if IsSpace(s[0]) then
      var rest := DropLeadingSpaces(s);
      assert AllSpace(rest) == AllSpace(s) by {
        DropLeadingSpacesSuffix(s);
        if AllSpace(rest) {
          assert rest == [];
        }
      }
      var tail := Collapse(rest);
      ConsCollapsed(' ', tail);
      AllSpaceCons(' ', tail);
      [' '] + tail
    else
      var tail := Collapse(s[1..]);
      ConsCollapsed(s[0], tail);
      AllSpaceCons(s[0], tail);
      AllSpaceCons(s[0], s[1..]);
      assert [s[0]] + s[1..] == s;
      [s[0]] + tail
  }

  lemma AllSpaceCons(c: char, t: string)
    ensures AllSpace([c] + t) <==> IsSpace(c) && AllSpace(t)
  {
    var r := [c] + t;
    assert r[0] == c;
    assert forall i :: 0 <= i < |t| ==> r[i + 1] == t[i];
  }

  lemma ConsCollapsed(c: char, t: string)
    requires Collapsed(t)
    requires !IsSpace(c) || (c == ' ' && (t == [] || !IsSpace(t[0])))
    ensures Collapsed([c] + t)
  {
    var r := [c] + t;
    forall i | 0 <= i < |r| - 1 ensures !IsSpace(r[i]) || !IsSpace(r[i + 1]) {
      if i > 0 {
        assert r[i] == t[i - 1] && r[i + 1] == t[i];
      }
    }
  }

  /** Lower-casing never creates or removes whitespace, so it keeps the
      collapsed and trimmed shapes. */
  lemma LowerKeepsShape(t: string)
    ensures Collapsed(t) ==> Collapsed(Lower(t))
    ensures Trimmed(t) ==> Trimmed(Lower(t))
    ensures NoUpper(Lower(t))
  {
    var r := Lower(t);
    if Collapsed(t) {
      forall i | 0 <= i < |r| - 1 ensures !IsSpace(r[i]) || !IsSpace(r[i + 1]) {
        assert r[i] == LowerChar(t[i]) && r[i + 1] == LowerChar(t[i + 1]);
      }
    }
  }

  /** `normalize_text`: collapse whitespace, strip, lower-case. */
  function Normalize(s: string): string {
    Lower(Strip(Collapse(s)))
  }

  lemma NormalizeIsNormal(s: string)
    ensures IsNormal(Normalize(s))
  {
    LowerKeepsShape(Strip(Collapse(s)));
  }

  /** A normalised string is empty exactly when the input was all whitespace. */
  lemma NormalizeEmpty(s: string)
    ensures Normalize(s) == [] <==> AllSpace(s)
  {
  }

  lemma {:induction false} CollapseFixed(s: string)
    requires Collapsed(s)
    ensures Collapse(s) == s
    decreases |s|
  {
    if |s| > 0 {
      CollapsedTail(s);
      CollapseFixed(s[1..]);
      if IsSpace(s[0]) {
        assert s[0] == ' ';
        if |s| > 1 {
          assert !IsSpace(s[0]) || !IsSpace(s[1]);
        }
        CollapseSpaceHead(s);
      } else {
        CollapseOtherHead(s);
      }
    }
  }

  /** A single space in front of a non-space is kept as it is. */
  /** A trailing whitespace run also becomes one space: the result ends in
      whitespace exactly when the input does. */
  lemma {:induction false} CollapseLast(s: string)
    requires |s| > 0
    ensures |Collapse(s)| > 0 && (IsSpace(Collapse(s)[|Collapse(s)| - 1]) <==> IsSpace(s[|s| - 1]))
    decreases |s|
  {
    var r := Collapse(s);
    if IsSpace(s[0]) {
      var rest := DropLeadingSpaces(s);
      DropLeadingSpacesSuffix(s);
      assert r == [' '] + Collapse(rest);
      if rest != [] {
        assert rest[|rest| - 1] == s[|s| - 1];
        CollapseLast(rest);
      }
    } else {
      assert r == [s[0]] + Collapse(s[1..]);
      if |s| > 1 {
        assert s[1..][|s| - 2] == s[|s| - 1];
        CollapseLast(s[1..]);
      }
    }
  }

  lemma CollapseSpaceHead(s: string)
    requires |s| > 0 && s[0] == ' ' && (|s| == 1 || !IsSpace(s[1]))
    requires Collapse(s[1..]) == s[1..]
    ensures Collapse(s) == s
  {
    var t := s[1..];
    assert DropLeadingSpaces(t) == t;
    assert DropLeadingSpaces(s) == t;
    assert s == [' '] + t;
  }

  lemma CollapseOtherHead(s: string)
    requires |s| > 0 && !IsSpace(s[0])
    requires Collapse(s[1..]) == s[1..]
    ensures Collapse(s) == s
  {
    assert s == [s[0]] + s[1..];
  }

  lemma CollapsedTail(s: string)
    requires Collapsed(s) && |s| > 0
    ensures Collapsed(s[1..])
  {
    var t := s[1..];
    assert forall i :: 0 <= i < |t| ==> t[i] == s[i + 1];
  }

  /** A string already in canonical form is left unchanged. */
  lemma NormalFixed(s: string)
    requires IsNormal(s)
    ensures Normalize(s) == s
  {
    CollapseFixed(s);
    assert Strip(s) == s;
    assert Lower(s) == s;
  }

  /** `normalize_text` is idempotent, and its fixed points are exactly the
      canonical strings. */
  lemma NormalizeIdempotent(s: string)
    ensures Normalize(Normalize(s)) == Normalize(s)
    ensures Normalize(s) == s <==> IsNormal(s)
  {
    NormalizeIsNormal(s);
    NormalFixed(Normalize(s));
    if IsNormal(s) {
      NormalFixed(s);
    }
  }

  predicate IsPrefix(p: string, s: string) {
    |p| <= |s| && s[..|p|] == p
  }

  lemma PrefixOfConcat(p: string, q: string)
    ensures IsPrefix(p, p + q)
  {
    assert (p + q)[..|p|] == p;
  }

  lemma PrefixExtend(p: string, q: string, r: string)
    requires IsPrefix(p, q)
    ensures IsPrefix(p, q + r)
  {
    assert (q + r)[..|p|] == q[..|p|];
  }

  /** Python's `needle in hay` on strings. */
  predicate IsSubstring(needle: string, hay: string)
    decreases |hay|
  {
    IsPrefix(needle, hay) || (|hay| > 0 && IsSubstring(needle, hay[1..]))
  }

  /** `needle` occurs in `hay` starting at position `i`. */
  ghost predicate OccursAt(needle: string, hay: string, i: int) {
    0 <= i <= |hay| - |needle| && hay[i..i + |needle|] == needle
  }

  /** The search agrees with the positional definition of a substring. */
  lemma {:induction false} SubstringAt(needle: string, hay: string)
    ensures IsSubstring(needle, hay) <==> exists i :: OccursAt(needle, hay, i)
    decreases |hay|
  {
    if IsPrefix(needle, hay) {
      assert OccursAt(needle, hay, 0);
    } else if |hay| > 0 {
      SubstringAt(needle, hay[1..]);
      if i :| OccursAt(needle, hay, i) {
        assert i != 0;
        assert hay[1..][i - 1..i - 1 + |needle|] == needle;
        assert OccursAt(needle, hay[1..], i - 1);
      }
      if j :| OccursAt(needle, hay[1..], j) {
        assert hay[j + 1..j + 1 + |needle|] == needle;
        assert OccursAt(needle, hay, j + 1);
      }
    }
  }

  /** Python's `s.split(sep)` for a one-character separator: consecutive
      separators give empty pieces, and there is always at least one piece. */
  function Split(s: string, sep: char): (parts: seq<string>)
    ensures |parts| > 0
    ensures forall i :: 0 <= i < |parts| ==> sep !in parts[i]
    decreases |s|
  {
    if |s| == 0 then [""]
    else
      var rest := Split(s[1..], sep);
      if s[0] == sep then [""] + rest
      else [[s[0]] + rest[0]] + rest[1..]
  }

  /** Python's `sep.join(parts)`. */
  function Join(parts: seq<string>, sep: string): string
    decreases |parts|
  {
    if |parts| == 0 then ""
    else if |parts| == 1 then parts[0]
    else parts[0] + sep + Join(parts[1..], sep)
  }

  /** Joining the pieces back with the separator restores the string. */
  lemma {:induction false} SplitThenJoin(s: string, sep: char)
    ensures Join(Split(s, sep), [sep]) == s
    decreases |s|
  {
    if |s| > 0 {
      SplitThenJoin(s[1..], sep);
      var rest := Split(s[1..], sep);
      if s[0] != sep {
        if |rest| == 1 {
        } else {
          assert [[s[0]] + rest[0]] + rest[1..] == [[s[0]] + rest[0]] + rest[1..];
          assert ([[s[0]] + rest[0]] + rest[1..])[1..] == rest[1..];
        }
      }
    }
  }

  /** Splitting a join of separator-free pieces gives the pieces back. */
  lemma {:induction false} JoinThenSplit(parts: seq<string>, sep: char)
    requires |parts| > 0
    requires forall i :: 0 <= i < |parts| ==> sep !in parts[i]
    ensures Split(Join(parts, [sep]), sep) == parts
    decreases |parts|, |parts[0]|
  {
    if |parts| == 1 {
      SplitOfPlain(parts[0], sep);
    } else if |parts[0]| == 0 {
      JoinThenSplit(parts[1..], sep);
      var j := Join(parts, [sep]);
      assert j == [sep] + Join(parts[1..], [sep]);
      assert j[1..] == Join(parts[1..], [sep]);
      assert parts == [""] + parts[1..];
    } else {
      var p := parts[0];
      var shorter := [p[1..]] + parts[1..];
      JoinThenSplit(shorter, sep);
      var j := Join(parts, [sep]);
      assert shorter[1..] == parts[1..];
      assert j == [p[0]] + Join(shorter, [sep]);
      assert j[1..] == Join(shorter, [sep]);
      assert p[0] != sep by { assert p[0] == p[0]; assert p[0] in p; }
      assert [p[0]] + p[1..] == p;
      assert parts == [p] + parts[1..];
    }
  }

  lemma {:induction false} SplitOfPlain(s: string, sep: char)
    requires sep !in s
    ensures Split(s, sep) == [s]
    decreases |s|
  {
    if |s| > 0 {
      SplitOfPlain(s[1..], sep);
      assert s[0] in s;
      assert [s[0]] + s[1..] == s;
    }
  }

  /** Python's `s.split()` with no argument: the maximal runs of
      non-whitespace characters, in order. */
  function Words(s: string): (ws: seq<string>)
    ensures |s| > 0 && !IsSpace(s[0]) ==> |ws| > 0
    decreases |s|
  {
    if |s| == 0 then []
    else
      var rest := Words(s[1..]);
      if IsSpace(s[0]) then rest
      else if |s| > 1 && !IsSpace(s[1]) then [[s[0]] + rest[0]] + rest[1..]
      else [[s[0]]] + rest
  }

  /** How one more character in front changes the words: whitespace
      changes nothing, and a non-space character either starts a new word
      or extends the first one. */
  lemma WordsCons(c: char, t: string)
    ensures Words([c] + t) ==
      if IsSpace(c) then Words(t)
      else if |t| > 0 && !IsSpace(t[0]) then [[c] + Words(t)[0]] + Words(t)[1..]
      else [[c]] + Words(t)
  {
    assert ([c] + t)[1..] == t;
  }

  lemma {:induction false} WordsDropLeading(s: string)
    ensures Words(DropLeadingSpaces(s)) == Words(s)
    decreases |s|
  {
    if |s| > 0 && IsSpace(s[0]) {
      WordsDropLeading(s[1..]);
    }
  }

  /** Trailing whitespace adds no word. */
  lemma {:induction false} WordsAppendSpaces(x: string, ws: string)
    requires AllSpace(ws)
    ensures Words(x + ws) == Words(x)
    decreases |x| + |ws|
  {
    if |x| == 0 {
      assert x + ws == ws;
      if |ws| > 0 {
        WordsAppendSpaces(x, ws[1..]);
        assert ws == [ws[0]] + ws[1..];
        WordsCons(ws[0], ws[1..]);
        assert x + ws[1..] == ws[1..];
      }
    } else {
      var t := x[1..];
      WordsAppendSpaces(t, ws);
      assert x + ws == [x[0]] + (t + ws);
      assert x == [x[0]] + t;
      WordsCons(x[0], t + ws);
      WordsCons(x[0], t);
      if |t| == 0 {
        assert t + ws == ws;
      } else {
        assert (t + ws)[0] == t[0];
      }
    }
  }

  lemma WordsStrip(s: string)
    ensures Words(Strip(s)) == Words(s)
  {
    var head := DropLeadingSpaces(s);
    var r := DropTrailingSpaces(head);
    WordsDropLeading(s);
    DropTrailingSpacesPrefix(head);
    assert head == r + head[|r|..];
    WordsAppendSpaces(r, head[|r|..]);
  }

  /** Collapsing whitespace keeps every word, in order. */
  lemma {:induction false} WordsCollapse(s: string)
    ensures Words(Collapse(s)) == Words(s)
    decreases |s|
  {
    if |s| > 0 {
      if IsSpace(s[0]) {
        var rest := DropLeadingSpaces(s);
        assert rest == DropLeadingSpaces(s[1..]);
        WordsCollapse(rest);
        WordsCons(' ', Collapse(rest));
        WordsDropLeading(s);
      } else {
        var t := s[1..];
        WordsCollapse(t);
        WordsCons(s[0], Collapse(t));
        WordsCons(s[0], t);
        assert s == [s[0]] + t;
      }
    }
  }

  lemma JoinConsHead(c: char, ws: seq<string>, sep: string)
    requires |ws| > 0
    ensures Join([[c] + ws[0]] + ws[1..], sep) == [c] + Join(ws, sep)
  {
    var vs := [[c] + ws[0]] + ws[1..];
    assert vs[1..] == ws[1..];
  }

  /** A collapsed string with no whitespace at either end is its words
      joined by single spaces. */
  lemma {:induction false} JoinedWords(t: string)
    requires Collapsed(t) && Trimmed(t)
    ensures Join(Words(t), " ") == t
    decreases |t|
  {
    if |t| > 0 {
      var c := t[0];
      var u := t[1..];
      assert t == [c] + u;
      WordsCons(c, u);
      if |u| > 0 {
        CollapsedTail(t);
        assert u[|u| - 1] == t[|t| - 1];
        if !IsSpace(u[0]) {
          JoinedWords(u);
          JoinConsHead(c, Words(u), " ");
        } else {
          assert u[0] == ' ';
          var v := u[1..];
          assert |v| > 0;
          assert !IsSpace(u[0]) || !IsSpace(u[1]);
          CollapsedTail(u);
          assert v[|v| - 1] == t[|t| - 1];
          JoinedWords(v);
          WordsCons(' ', v);
          assert u == [' '] + v;
          JoinSingleHead(c, Words(v), v);
          assert t == [c] + " " + v;
        }
      }
    }
  }

  lemma JoinSingleHead(c: char, ws: seq<string>, v: string)
    requires |ws| > 0 && Join(ws, " ") == v
    ensures Join([[c]] + ws, " ") == [c] + " " + v
  {
    assert ([[c]] + ws)[1..] == ws;
  }

  /** `normalize_text` is `" ".join(text.split()).lower()`: the words of
      the input, joined by single spaces, lower-cased. */
  lemma NormalizeIsJoinedWords(s: string)
    ensures Normalize(s) == Lower(Join(Words(s), " "))
  {
    var m := Strip(Collapse(s));
    JoinedWords(m);
    WordsStrip(Collapse(s));
    WordsCollapse(s);
  }
}
