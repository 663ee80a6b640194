/** String helpers with the semantics the parsers rely on: Python's
    `str.strip()` / Go's `strings.TrimSpace`, and Python's `str.split(sep)` /
    Go's `strings.Split` for a one-character separator. */
module Text {

  /** Python's `str.strip()` and Go's `strings.TrimSpace` disagree on which
      characters are whitespace. */
  datatype SpaceSet = PythonSpace | GoSpace

  /** Whitespace below U+0100: tab, line feed, vertical tab, form feed,
      carriage return, space, NEL (U+0085) and no-break space (U+00A0) for
      both languages; Python also counts the separators U+001C..U+001F. */
  predicate IsSpace(sp: SpaceSet, c: char) {
    || 9 <= c as int <= 13
    || c == ' '
    || c as int == 0x85
    || c as int == 0xA0
    || (sp == PythonSpace && 0x1C <= c as int <= 0x1F)
  }

  predicate AllSpace(sp: SpaceSet, s: string) {
    forall i :: 0 <= i < |s| ==> IsSpace(sp, s[i])
  }

  /** The length of the whitespace run that starts `s`. */
  function LeadingSpaces(sp: SpaceSet, s: string): (n: nat)
    ensures n <= |s|
    ensures n == |s| || !IsSpace(sp, s[n])
  {
    if |s| > 0 && IsSpace(sp, s[0]) then 1 + LeadingSpaces(sp, s[1..]) else 0
  }

  lemma {:induction false} LeadingSpacesAreSpaces(sp: SpaceSet, s: string)
    ensures forall i :: 0 <= i < LeadingSpaces(sp, s) ==> IsSpace(sp, s[i])
  {
    if |s| > 0 && IsSpace(sp, s[0]) {
      LeadingSpacesAreSpaces(sp, s[1..]);
    }
  }

  /** The length of the whitespace run that ends `s`. */
  function TrailingSpaces(sp: SpaceSet, s: string): (n: nat)
    ensures n <= |s|
    ensures n == |s| || !IsSpace(sp, s[|s| - n - 1])
  {
    if |s| > 0 && IsSpace(sp, s[|s| - 1]) then 1 + TrailingSpaces(sp, s[..|s| - 1]) else 0
  }

  lemma {:induction false} TrailingSpacesAreSpaces(sp: SpaceSet, s: string)
    ensures forall i :: |s| - TrailingSpaces(sp, s) <= i < |s| ==> IsSpace(sp, s[i])
  {
    if |s| > 0 && IsSpace(sp, s[|s| - 1]) {
      TrailingSpacesAreSpaces(sp, s[..|s| - 1]);
    }
  }

  /** Where the stripped text starts and ends inside `s`. */
  function StripStart(sp: SpaceSet, s: string): (i: nat)
    ensures i <= |s|
  {
    LeadingSpaces(sp, s)
  }

  function StripEnd(sp: SpaceSet, s: string): (j: nat)
    ensures StripStart(sp, s) <= j <= |s|
  {
    |s| - TrailingSpaces(sp, s[StripStart(sp, s)..])
  }

  /** Leading and trailing whitespace removed. */
  function Strip(sp: SpaceSet, s: string): (r: string)
    ensures |r| <= |s|
    ensures r == "" || (!IsSpace(sp, r[0]) && !IsSpace(sp, r[|r| - 1]))
  {
    var t := s[LeadingSpaces(sp, s)..];
    assert s[StripStart(sp, s)..StripEnd(sp, s)] == t[..|t| - TrailingSpaces(sp, t)];
    s[StripStart(sp, s)..StripEnd(sp, s)]
  }

  /** Strip leaves nothing exactly when everything is whitespace. */
  lemma StripEmpty(sp: SpaceSet, s: string)
    ensures Strip(sp, s) == "" <==> AllSpace(sp, s)
  {
    LeadingSpacesAreSpaces(sp, s);
    TrailingSpacesAreSpaces(sp, s[StripStart(sp, s)..]);
  }

  /** What strip removes is whitespace: everything before its start and
      after its end. */
  lemma StripDropsSpaces(sp: SpaceSet, s: string)
    ensures AllSpace(sp, s[..StripStart(sp, s)])
    ensures AllSpace(sp, s[StripEnd(sp, s)..])
  {
    var l := StripStart(sp, s);
    var t := s[l..];
    var n := TrailingSpaces(sp, t);
    LeadingSpacesAreSpaces(sp, s);
    TrailingSpacesAreSpaces(sp, t);
    assert AllSpace(sp, s[..l]) by {
      forall i | 0 <= i < l ensures IsSpace(sp, s[..l][i]) {
        assert s[..l][i] == s[i];
      }
    }
    var m := StripEnd(sp, s);
    assert AllSpace(sp, s[m..]) by {
      forall i | 0 <= i < |s| - m ensures IsSpace(sp, s[m..][i]) {
        assert s[m..][i] == t[|t| - n + i];
      }
    }
  }

  /** Two strings that end the same way, from a non-whitespace character
      on, have the same trailing whitespace. */
  lemma TrailingSpacesSuffix(sp: SpaceSet, t: string, k: nat)
    requires k < |t| && !IsSpace(sp, t[k])
    ensures TrailingSpaces(sp, t) == TrailingSpaces(sp, t[k..])
  {
    var u := t[k..];
    var n2 := TrailingSpaces(sp, u);
    TrailingSpacesAreSpaces(sp, t);
    TrailingSpacesAreSpaces(sp, u);
    assert n2 < |u|;
    assert t[|t| - n2 - 1] == u[|u| - n2 - 1];
  }

  /** Leading whitespace stops at the first non-whitespace character. */
  lemma LeadingSpacesAtMost(sp: SpaceSet, s: string, k: nat)
    requires k < |s| && !IsSpace(sp, s[k])
    ensures LeadingSpaces(sp, s) <= k
  {
    LeadingSpacesAreSpaces(sp, s);
  }

  /** Strip as a slice of the input. */
  lemma StripSlice(sp: SpaceSet, s: string)
    ensures var a := LeadingSpaces(sp, s);
            a + TrailingSpaces(sp, s[a..]) <= |s| && Strip(sp, s) == s[a..|s| - TrailingSpaces(sp, s[a..])]
  {
  }

  /** Stripping text with a non-whitespace character at `k` trims only the
      front of what comes before `k` and only the back of what follows. */
  lemma StripAround(sp: SpaceSet, s: string, k: nat)
    requires k < |s| && !IsSpace(sp, s[k])
    ensures LeadingSpaces(sp, s) <= k
    ensures Strip(sp, s) == s[LeadingSpaces(sp, s)..k] + Strip(sp, s[k..])
  {
    StripUpTo(sp, s, k);
    StripSolid(sp, s[k..]);
    SliceAround(s, LeadingSpaces(sp, s), k, TrailingSpaces(sp, s[k..]));
  }

  /** The end of the strip is decided by what follows a non-whitespace
      character. */
  lemma StripUpTo(sp: SpaceSet, s: string, k: nat)
    requires k < |s| && !IsSpace(sp, s[k])
    ensures LeadingSpaces(sp, s) <= k && TrailingSpaces(sp, s[k..]) <= |s| - k
    ensures Strip(sp, s) == s[LeadingSpaces(sp, s)..|s| - TrailingSpaces(sp, s[k..])]
  {
    var a := LeadingSpaces(sp, s);
    LeadingSpacesAtMost(sp, s, k);
    assert s[a..][k - a..] == s[k..];
    TrailingSpacesSuffix(sp, s[a..], k - a);
    StripSlice(sp, s);
  }

  /** A string that starts with non-whitespace loses only its trailing
      whitespace. */
  lemma StripSolid(sp: SpaceSet, u: string)
    requires u != [] && !IsSpace(sp, u[0])
    ensures Strip(sp, u) == u[..|u| - TrailingSpaces(sp, u)]
  {
    assert u[0..] == u;
    StripSlice(sp, u);
  }

  lemma SliceAround(s: string, a: nat, k: nat, n: nat)
    requires a <= k <= |s| - n
    ensures s[a..|s| - n] == s[a..k] + s[k..][..|s| - k - n]
  {
  }

  /** A string with no whitespace at either end is its own strip. */
  lemma StripUnchanged(sp: SpaceSet, s: string)
    requires s == "" || (!IsSpace(sp, s[0]) && !IsSpace(sp, s[|s| - 1]))
    ensures Strip(sp, s) == s
  {
  }

  /** Trimming an already trimmed string changes nothing. */
  lemma StripIdempotent(sp: SpaceSet, s: string)
    ensures Strip(sp, Strip(sp, s)) == Strip(sp, s)
  {
    StripUnchanged(sp, Strip(sp, s));
  }

  /** Stripping never removes a non-whitespace character. */
  lemma StripKeepsCount(sp: SpaceSet, s: string, c: char)
    requires !IsSpace(sp, c)
    ensures multiset(Strip(sp, s))[c] == multiset(s)[c]
  {
    StripDropsSpaces(sp, s);
    var l, m := StripStart(sp, s), StripEnd(sp, s);
    var pre, mid, post := s[..l], s[l..m], s[m..];
    assert s == pre + mid + post;
    NoSpaceCharInSpaces(sp, pre, c);
    NoSpaceCharInSpaces(sp, post, c);
    assert multiset(s) == multiset(pre) + multiset(mid) + multiset(post);
  }

  lemma NoSpaceCharInSpaces(sp: SpaceSet, s: string, c: char)
    requires AllSpace(sp, s)
    requires !IsSpace(sp, c)
    ensures multiset(s)[c] == 0
  {
    assert c !in s;
  }

  /** The first occurrence of `c` in `s`. */
  function IndexOf(s: string, c: char): (i: nat)
    requires c in s
    ensures i < |s| && s[i] == c
    ensures forall j :: 0 <= j < i ==> s[j] != c
  {
    if s[0] == c then 0 else 1 + IndexOf(s[1..], c)
  }

  /** Python's `s.split(c)` and Go's `strings.Split(s, string(c))`: the pieces
      between occurrences of `c`, so one more piece than there are
      separators, and never an empty list. */
  function Split(s: string, c: char): (parts: seq<string>)
    ensures |parts| >= 1
    ensures forall k :: 0 <= k < |parts| ==> c !in parts[k]
    ensures |parts[0]| <= |s| && parts[0] == s[..|parts[0]|]
    ensures |s| > 0 && s[0] != c ==> |parts[0]| > 0
    decreases |s|
  {
    if c in s then
      var i := IndexOf(s, c);
      [s[..i]] + Split(s[i + 1..], c)
    else
      [s]
  }

  /** The first piece runs up to the first separator, or to the end. */
  lemma SplitFirstPiece(s: string, c: char)
    ensures var first := Split(s, c)[0];
            |first| == |s| || s[|first|] == c
  {
  }

  /** There is one more piece than there are separators. */
  lemma {:induction false} SplitCount(s: string, c: char)
    ensures |Split(s, c)| == multiset(s)[c] + 1
    decreases |s|
  {
    if c in s {
      var i := IndexOf(s, c);
      var pre, post := s[..i], s[i + 1..];
      SplitCount(post, c);
      Around(s, i);
      assert multiset(s) == multiset(pre) + multiset{c} + multiset(post);
      assert c !in pre;
      assert multiset(pre)[c] == 0;
      assert Split(s, c) == [pre] + Split(post, c);
    }
  }

  /** A character absent from `s` is absent from every piece. */
  lemma {:induction false} SplitExcludes(s: string, c: char, x: char)
    requires x !in s
    ensures forall k :: 0 <= k < |Split(s, c)| ==> x !in Split(s, c)[k]
    decreases |s|
  {
    if c in s {
      var i := IndexOf(s, c);
      assert x !in s[i + 1..];
      SplitExcludes(s[i + 1..], c, x);
      assert Split(s, c) == [s[..i]] + Split(s[i + 1..], c);
    }
  }

  /** The pieces glued back together with `c` between them. */
  function Join(parts: seq<string>, c: char): string
    requires |parts| >= 1
  {
    if |parts| == 1 then parts[0] else parts[0] + [c] + Join(parts[1..], c)
  }

  /** Splitting loses nothing: the pieces joined with the separator give
      back the input. */
  lemma {:induction false} JoinSplit(s: string, c: char)
    ensures Join(Split(s, c), c) == s
    decreases |s|
  {
    if c in s {
      var i := IndexOf(s, c);
      var rest := Split(s[i + 1..], c);
      JoinSplit(s[i + 1..], c);
      JoinCons(s[..i], rest, c);
      assert s[..i] + [c] + s[i + 1..] == s;
    }
  }

  lemma JoinCons(head: string, rest: seq<string>, c: char)
    requires |rest| >= 1
    ensures Join([head] + rest, c) == head + [c] + Join(rest, c)
  {
    assert ([head] + rest)[1..] == rest;
  }

  lemma {:induction false} SplitJoin(parts: seq<string>, c: char)
    requires |parts| >= 1
    requires forall k :: 0 <= k < |parts| ==> c !in parts[k]
    ensures Split(Join(parts, c), c) == parts
  {
    if |parts| > 1 {
      var head, rest := parts[0], Join(parts[1..], c);
      var s := Join(parts, c);
      assert s == head + [c] + rest;
      Pieces(head, c, rest);
      SplitAt(s, c, |head|);
      SplitJoin(parts[1..], c);
      assert [head] + parts[1..] == parts;
    } else {
      assert c !in parts[0];
    }
  }

  /** A string is what comes before position `i`, the character there, and
      what comes after. */
  lemma Around(s: string, i: nat)
    requires i < |s|
    ensures s == s[..i] + [s[i]] + s[i + 1..]
  {
    assert s == s[..i] + s[i..];
    assert s[i..] == [s[i]] + s[i + 1..];
  }

  /** ... and the other way round. */
  lemma Pieces(a: string, c: char, b: string)
    ensures var s := a + [c] + b;
            s[..|a|] == a && s[|a|] == c && s[|a| + 1..] == b
  {
  }

  /** Splitting at the first separator, found at `i`. */
  lemma SplitAt(s: string, c: char, i: nat)
    requires i < |s| && s[i] == c && c !in s[..i]
    ensures Split(s, c) == [s[..i]] + Split(s[i + 1..], c)
  {
    assert c in s;
  }

  /** A character that is neither the separator nor in any piece is not in
      the joined string. */
  lemma {:induction false} JoinExcludes(parts: seq<string>, c: char, x: char)
    requires |parts| >= 1
    requires x != c
    requires forall k :: 0 <= k < |parts| ==> x !in parts[k]
    ensures x !in Join(parts, c)
  {
    if |parts| > 1 {
      JoinExcludes(parts[1..], c, x);
    }
  }

  /** The joined string starts with the first piece's first character ... */
  lemma {:induction false} JoinFirst(parts: seq<string>, c: char)
    requires |parts| >= 1 && |parts[0]| > 0
    ensures |Join(parts, c)| > 0 && Join(parts, c)[0] == parts[0][0]
  {
  }

  /** ... and ends with the last piece's last character. */
  lemma {:induction false} JoinLast(parts: seq<string>, c: char)
    requires |parts| >= 1 && |parts[|parts| - 1]| > 0
    ensures var j := Join(parts, c);
            |j| > 0 && j[|j| - 1] == parts[|parts| - 1][|parts[|parts| - 1]| - 1]
  {
    if |parts| > 1 {
      JoinLast(parts[1..], c);
      assert parts[1..][|parts| - 2] == parts[|parts| - 1];
    }
  }

  /** When the last piece is empty the joined string ends with the separator. */
  lemma {:induction false} JoinEndsWithSeparator(parts: seq<string>, c: char)
    requires |parts| >= 2 && parts[|parts| - 1] == ""
    ensures var j := Join(parts, c); |j| > 0 && j[|j| - 1] == c
  {
    if |parts| > 2 {
      JoinEndsWithSeparator(parts[1..], c);
    }
  }

  predicate HasPrefix(s: string, prefix: string) {
    |prefix| <= |s| && s[..|prefix|] == prefix
  }
}
