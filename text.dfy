/** The JavaScript string operations the core uses: `trim`, `toLowerCase`,
    `split`, `join`, `replace` with a one-character pattern, `startsWith`. */
module Text {

  /** JavaScript's WhiteSpace and LineTerminator characters, which `trim` removes. */
  predicate IsWhitespace(c: char) {
    || c == ' ' || c == '\t' || c == '\n' || c == '\r'
    || c == '\U{000B}' || c == '\U{000C}' || c == '\U{00A0}' || c == '\U{1680}'
    || ('\U{2000}' <= c <= '\U{200A}')
    || c == '\U{2028}' || c == '\U{2029}' || c == '\U{202F}' || c == '\U{205F}'
    || c == '\U{3000}' || c == '\U{FEFF}'
  }

  /** True of a string that `trim` leaves as it is. */
  predicate IsTrimmed(s: string) {
    s == [] || (!IsWhitespace(s[0]) && !IsWhitespace(s[|s| - 1]))
  }

  /** Drops the leading whitespace: the result is the longest suffix that does
      not start with whitespace, and only whitespace was dropped. */
  function TrimStart(s: string): (r: string)
    ensures |r| <= |s| && r == s[|s| - |r|..]
    ensures forall i :: 0 <= i < |s| - |r| ==> IsWhitespace(s[i])
    ensures r != [] ==> !IsWhitespace(r[0])
  {
    if s != [] && IsWhitespace(s[0]) then TrimStart(s[1..]) else s
  }

  /** Drops the trailing whitespace, symmetrically to `TrimStart`. */
  function TrimEnd(s: string): (r: string)
    ensures |r| <= |s| && r == s[..|r|]
    ensures forall i :: |r| <= i < |s| ==> IsWhitespace(s[i])
    ensures r != [] ==> !IsWhitespace(r[|r| - 1])
  {
    if s != [] && IsWhitespace(s[|s| - 1]) then TrimEnd(s[..|s| - 1]) else s
  }

  /** `r` is `s` with whitespace cut from both ends, `k` characters from the front. */
  predicate CutFrom(s: string, r: string, k: int) {
    0 <= k <= |s| - |r| && r == s[k..k + |r|] &&
    (forall i :: 0 <= i < k ==> IsWhitespace(s[i])) &&
    (forall i :: k + |r| <= i < |s| ==> IsWhitespace(s[i]))
  }

  /** Cutting whitespace from the front and then from the back of what is
      left cuts it from both ends. */
  lemma CutOfParts(s: string, t: string, r: string)
    requires |t| <= |s| && t == s[|s| - |t|..]
    requires forall i :: 0 <= i < |s| - |t| ==> IsWhitespace(s[i])
    requires |r| <= |t| && r == t[..|r|]
    requires forall i :: |r| <= i < |t| ==> IsWhitespace(t[i])
    ensures CutFrom(s, r, |s| - |t|)
  {
    var k := |s| - |t|;
    assert s[k..][..|r|] == s[k..k + |r|];
    forall i | k + |r| <= i < |s| ensures IsWhitespace(s[i]) {
      assert s[i] == t[i - k];
    }
  }

  /** `String.prototype.trim`: the text without its leading and trailing whitespace. */
  function Trim(s: string): (r: string)
    ensures IsTrimmed(r)
    ensures |r| <= |s|
    ensures (forall i :: 0 <= i < |s| ==> IsWhitespace(s[i])) <==> r == []
    ensures exists k :: CutFrom(s, r, k)
  {
    var t := TrimStart(s);
    var r := TrimEnd(t);
    CutOfParts(s, t, r);
    assert r != [] ==> r[0] == t[0];
    assert r == [] ==> t == [];
    assert r != [] ==> exists i :: 0 <= i < |s| && !IsWhitespace(s[i]) by {
      if r != [] { assert s[|s| - |t|] == r[0]; }
    }
    r
  }

  /** A trimmed string is left unchanged by `trim`. */
  lemma TrimTrimmed(s: string)
    requires IsTrimmed(s)
    ensures Trim(s) == s
  {
  }

  /** `trim` of a string that is one run of whitespace followed by a trimmed,
      non-empty string gives that string. */
  lemma TrimAfterSpaces(w: string, s: string)
    requires forall i :: 0 <= i < |w| ==> IsWhitespace(w[i])
    requires s != [] && IsTrimmed(s)
    ensures Trim(w + s) == s
  {
    var t := TrimStart(w + s);
    assert (w + s)[|w|] == s[0];
    assert t == s;
  }

  function LowerChar(c: char): char {
    if 'A' <= c <= 'Z' then (c as int + 32) as char else c
  }

  /** `toLowerCase`, on the ASCII letters. */
  function Lower(s: string): (r: string)
    ensures |r| == |s|
  {
    seq(|s|, i requires 0 <= i < |s| => LowerChar(s[i]))
  }

  /** Lowercasing twice is lowercasing once. */
  lemma LowerIdempotent(s: string)
    ensures Lower(Lower(s)) == Lower(s)
  {
  }

  /** `str.replace(/x/g, y)` for one-character `x` and `y`. */
  function ReplaceChar(s: string, from: char, to: char): (r: string)
    ensures |r| == |s|
  {
    seq(|s|, i requires 0 <= i < |s| => if s[i] == from then to else s[i])
  }

  /** The index of the first `c` in `s`. */
  function FirstIndex(s: string, c: char): (i: nat)
    requires c in s
    ensures i < |s| && s[i] == c && c !in s[..i]
  {
    if s[0] == c then 0 else 1 + FirstIndex(s[1..], c)
  }

  /** `str.replace(c, "")` with a string pattern: only the first occurrence is removed. */
  function RemoveFirst(s: string, c: char): (r: string)
    ensures c !in s ==> r == s
    ensures c in s ==> r == s[..FirstIndex(s, c)] + s[FirstIndex(s, c) + 1..]
  {
    if s == [] then s
    else if s[0] == c then s[1..]
    else
      var rest := RemoveFirst(s[1..], c);
      assert c in s ==> s[..FirstIndex(s, c)] == [s[0]] + s[1..][..FirstIndex(s[1..], c)];
      [s[0]] + rest
  }

  predicate StartsWith(s: string, prefix: string) {
    |prefix| <= |s| && s[..|prefix|] == prefix
  }

  predicate EndsWith(s: string, suffix: string) {
    |suffix| <= |s| && s[|s| - |suffix|..] == suffix
  }

  /** Removes every trailing `c` (the regular expression `c+$`). */
  function TrimTrailing(s: string, c: char): (r: string)
    ensures |r| <= |s| && r == s[..|r|]
    ensures forall i :: |r| <= i < |s| ==> s[i] == c
    ensures r != [] ==> r[|r| - 1] != c
  {
    if s != [] && s[|s| - 1] == c then TrimTrailing(s[..|s| - 1], c) else s
  }

  /** `parts.join(sep)`. */
  function Join(parts: seq<string>, sep: string): string
  {
    if |parts| == 0 then ""
    else if |parts| == 1 then parts[0]
    else parts[0] + sep + Join(parts[1..], sep)
  }

  /** `s.split(sep)` for a one-character separator: the pieces between the
      separators, at least one. */
  function Split(s: string, sep: char): (r: seq<string>)
    ensures |r| >= 1
  {
    if |s| == 0 then [""]
    else
      var rest := Split(s[1..], sep);
      if s[0] == sep then [""] + rest
      else [[s[0]] + rest[0]] + rest[1..]
  }

  /** No piece contains the separator, and joining the pieces back with the
      separator gives the text. */
  lemma {:induction false} SplitShape(s: string, sep: char)
    ensures var r := Split(s, sep);
      (forall i :: 0 <= i < |r| ==> sep !in r[i]) && Join(r, [sep]) == s
  {
    if |s| > 0 {
      var rest := Split(s[1..], sep);
      SplitShape(s[1..], sep);
      if s[0] == sep {
        assert s == [sep] + Join(rest, [sep]);
        assert Split(s, sep) == [""] + rest;
        assert Join([""] + rest, [sep]) == "" + [sep] + Join(rest, [sep]) by {
          assert ([""] + rest)[1..] == rest;
        }
      } else {
        var r := [[s[0]] + rest[0]] + rest[1..];
        assert Split(s, sep) == r;
        assert r[1..] == rest[1..];
        if |rest| > 1 {
          assert Join(rest, [sep]) == rest[0] + [sep] + Join(rest[1..], [sep]);
          assert Join(r, [sep]) == [s[0]] + rest[0] + [sep] + Join(rest[1..], [sep]);
        }
        assert Join(r, [sep]) == [s[0]] + Join(rest, [sep]);
        assert s == [s[0]] + s[1..];
        forall i | 0 <= i < |r| ensures sep !in r[i] {
          if i > 0 { assert r[i] == rest[i]; }
        }
      }
    }
  }

  /** The first element and the rest of a sequence built by prepending. */
  lemma HeadTail<T>(x: T, ys: seq<T>)
    ensures ([x] + ys)[0] == x && ([x] + ys)[1..] == ys
  {
  }

  /** Splitting a text that starts with a non-separator extends the first piece. */
  lemma SplitCons(c: char, t: string, sep: char)
    requires c != sep
    ensures var r := Split(t, sep);
      Split([c] + t, sep) == [[c] + r[0]] + r[1..]
  {
    assert ([c] + t)[1..] == t;
  }

  /** A separator-free text splits into itself. */
  lemma {:induction false} SplitAlone(p: string, sep: char)
    requires sep !in p
    ensures Split(p, sep) == [p]
  {
    if p != [] {
      SplitAlone(p[1..], sep);
      assert [p[0]] + p[1..] == p;
      SplitCons(p[0], p[1..], sep);
    }
  }

  /** Splitting a separator-free piece followed by a separator gives that piece first. */
  lemma {:induction false} SplitPiece(p: string, rest: string, sep: char)
    requires sep !in p
    ensures Split(p, sep) == [p]
    ensures Split(p + [sep] + rest, sep) == [p] + Split(rest, sep)
  {
    SplitAlone(p, sep);
    if p == [] {
      assert p + [sep] + rest == [sep] + rest;
      assert ([sep] + rest)[1..] == rest;
    } else {
      var t := p[1..] + [sep] + rest;
      SplitPiece(p[1..], rest, sep);
      assert p + [sep] + rest == [p[0]] + t;
      SplitCons(p[0], t, sep);
      var r := Split(t, sep);
      HeadTail(p[1..], Split(rest, sep));
      assert r[0] == p[1..] && r[1..] == Split(rest, sep);
      assert [p[0]] + p[1..] == p;
    }
  }

  /** Splitting what was joined gives the parts back, when no part contains the separator. */
  lemma {:induction false} SplitJoin(parts: seq<string>, sep: char)
    requires |parts| >= 1
    requires forall i :: 0 <= i < |parts| ==> sep !in parts[i]
    ensures Split(Join(parts, [sep]), sep) == parts
  {
    if |parts| == 1 {
      SplitPiece(parts[0], "", sep);
    } else {
      SplitJoin(parts[1..], sep);
      SplitPiece(parts[0], Join(parts[1..], [sep]), sep);
      assert [parts[0]] + parts[1..] == parts;
    }
  }
}
