/** NUL-terminated strings in character arrays, and the in-place token scan of section 7.24.5.8 of ISO C11. */
module CStrings {
  import opened Splitting

  const NUL := '\0'

  /** The NUL-terminated string that starts at index i of the memory m is s. */
  ghost predicate StringAt(m: seq<char>, i: nat, s: string)
  {
    i + |s| < |m| && (forall k :: 0 <= k < |s| ==> s[k] != NUL && m[i + k] == s[k]) && m[i + |s|] == NUL
  }

  lemma StringChars(m: seq<char>, i: nat, s: string)
    requires StringAt(m, i, s)
    ensures forall k :: i <= k < i + |s| ==> m[k] == s[k - i] && m[k] != NUL
    ensures m[i..i + |s|] == s
  {
    forall k | i <= k < i + |s| ensures m[k] == s[k - i] && m[k] != NUL {
      assert s[k - i] != NUL && m[i + (k - i)] == s[k - i];
    }
  }

  lemma StringAtUnique(m: seq<char>, i: nat, s: string, t: string)
    requires StringAt(m, i, s) && StringAt(m, i, t)
    ensures s == t
  {
    StringChars(m, i, s);
    StringChars(m, i, t);
  }

  /** Reads the string at index `from` (strlen, then the bytes before the terminator). */
  method TextOf(buf: array<char>, from: nat) returns (s: string)
    requires exists t :: StringAt(buf[..], from, t)
    ensures StringAt(buf[..], from, s)
  {
    ghost var t :| StringAt(buf[..], from, t);
    StringChars(buf[..], from, t);
    var i := from;
    while buf[i] != NUL
      invariant from <= i <= from + |t|
      invariant NUL !in buf[from..i]
      decreases from + |t| - i
    {
      i := i + 1;
    }
    s := buf[from..i];
  }

  /** memcpy of the characters of s to index `at` of dst. */
  method MemCpy(dst: array<char>, at: nat, s: string)
    requires at + |s| <= dst.Length
    modifies dst
    ensures dst[..] == old(dst[..at]) + s + old(dst[at + |s|..])
  {
    var i := 0;
    while i < |s|
      invariant i <= |s|
      invariant dst[..] == old(dst[..at]) + s[..i] + old(dst[at + i..])
    {
      dst[at + i] := s[i];
      i := i + 1;
    }
  }

  /** strcpy: s and its terminator overwrite the front of dst, the rest stays. */
  method StrCpy(dst: array<char>, s: string)
    requires NUL !in s && |s| < dst.Length
    modifies dst
    ensures StringAt(dst[..], 0, s)
    ensures dst[|s| + 1..] == old(dst[|s| + 1..])
  {
    MemCpy(dst, 0, s + [NUL]);
  }

  /** strcat: s is appended to the string t that dst holds. */
  method StrCat(dst: array<char>, s: string, ghost t: string)
    requires StringAt(dst[..], 0, t)
    requires NUL !in s && |t| + |s| < dst.Length
    modifies dst
    ensures StringAt(dst[..], 0, t + s)
    ensures dst[|t| + |s| + 1..] == old(dst[|t| + |s| + 1..])
  {
    var u := TextOf(dst, 0);
    StringAtUnique(dst[..], 0, u, t);
    MemCpy(dst, |u|, s + [NUL]);
  }

  /** m2 differs from m only at indices from lo on and below hi. */
  ghost predicate SameOutside(m: seq<char>, m2: seq<char>, lo: nat, hi: nat)
  {
    |m2| == |m| && forall k :: 0 <= k < |m| && (k < lo || hi <= k) ==> m2[k] == m[k]
  }

  /** A string that lies before or behind the changed part is still there. */
  lemma StringKept(m: seq<char>, m2: seq<char>, lo: nat, hi: nat, i: nat, s: string)
    requires SameOutside(m, m2, lo, hi) && StringAt(m, i, s)
    requires i + |s| < lo || hi <= i
    ensures StringAt(m2, i, s)
  {
  }

  // ---- strtok ----

  /** m[start..end] is the first token at or after index i. */
  ghost predicate NextToken(m: seq<char>, i: nat, d: char, start: nat, end: nat)
  {
    && i <= start < end < |m|
    && (forall k :: i <= k < start ==> m[k] == d)
    && (forall k :: start <= k < end ==> m[k] != d && m[k] != NUL)
    && (m[end] == d || m[end] == NUL)
  }

  /** Only delimiters stand between index i and the terminator at index stop. */
  ghost predicate NoToken(m: seq<char>, i: nat, d: char, stop: nat)
  {
    i <= stop < |m| && m[stop] == NUL && forall k :: i <= k < stop ==> m[k] == d
  }

  /** A scan from index i stops before it leaves the array. */
  ghost predicate Scannable(m: seq<char>, i: nat, d: char)
  {
    (exists stop: nat :: NoToken(m, i, d, stop)) || (exists start: nat, end: nat :: NextToken(m, i, d, start, end))
  }

  /** What strtok_r returns: NULL, or a token; `end` is where the token's terminator now stands. */
  datatype Scanned = Nothing | Token(start: nat, end: nat)

  /**
    strtok_r on the text at index `from`: the delimiter that ends the token is overwritten in place,
    and `save` is where the next call has to continue.
   */
  method StrtokR(buf: array<char>, from: nat, d: char) returns (r: Scanned, save: nat)
    requires d != NUL && Scannable(buf[..], from, d)
    modifies buf
    ensures r.Nothing? ==> NoToken(old(buf[..]), from, d, save) && buf[..] == old(buf[..])
    ensures r.Token? ==>
              && NextToken(old(buf[..]), from, d, r.start, r.end)
              && buf[..] == old(buf[..])[r.end := NUL]
              && save == if old(buf[r.end]) == NUL then r.end else r.end + 1
  {
    ghost var m := buf[..];
    ghost var bound: nat, stop: nat := 0, 0;
    if exists k: nat :: NoToken(m, from, d, k) {
      bound :| NoToken(m, from, d, bound);
      stop := bound;
    } else {
      bound, stop :| NextToken(m, from, d, bound, stop);
    }
    var start := from;
    while buf[start] == d
      invariant from <= start <= bound
      invariant forall k :: from <= k < start ==> m[k] == d
      decreases bound - start
    {
      start := start + 1;
    }
    if buf[start] == NUL {
      return Nothing, start;
    }
    var end := start;
    while buf[end] != d && buf[end] != NUL
      invariant start <= end <= stop
      invariant forall k :: start <= k < end ==> m[k] != d && m[k] != NUL
      decreases stop - end
    {
      end := end + 1;
    }
    save := if buf[end] == NUL then end else end + 1;
    buf[end] := NUL;
    r := Token(start, end);
  }

  /** Where there is a first token, strtok_r finds that one. */
  lemma TokenDetermined(m: seq<char>, i: nat, d: char, start: nat, end: nat, r: Scanned, stop: nat)
    requires d != NUL && NextToken(m, i, d, start, end)
    requires r.Nothing? ==> NoToken(m, i, d, stop)
    requires r.Token? ==> NextToken(m, i, d, r.start, r.end)
    ensures r == Token(start, end)
  {
    assert m[start] != d && m[start] != NUL;
    if r.Token? {
      assert m[r.start] != d;
      assert r.start == start;
      assert (m[r.end] == d || m[r.end] == NUL) && (m[end] == d || m[end] == NUL);
    }
  }

  // ---- the scan as a whole ----

  lemma NoTokenMeansNone(m: seq<char>, i: nat, s: string, d: char, stop: nat)
    requires StringAt(m, i, s) && d != NUL && NoToken(m, i, d, stop)
    ensures Tokens(s, d) == [] && stop == i + |s|
  {
    StringChars(m, i, s);
    TokensOfDelimiters(s, d);
  }

  /** What is left of the text s at index i once the token m[start..end] has been cut off it. */
  ghost function RestAfter(m: seq<char>, i: nat, s: string, end: nat): string
    requires StringAt(m, i, s) && i <= end <= i + |s|
  {
    if m[end] == NUL then "" else m[end + 1..i + |s|]
  }

  lemma TokenMemory(m: seq<char>, i: nat, s: string, d: char, start: nat, end: nat)
    requires StringAt(m, i, s) && d != NUL && NextToken(m, i, d, start, end)
    ensures end <= i + |s| && (m[end] == NUL ==> end == i + |s|)
    ensures StringAt(m[end := NUL], start, m[start..end])
    ensures StringAt(m[end := NUL], if m[end] == NUL then end else end + 1, RestAfter(m, i, s, end))
  {
    StringChars(m, i, s);
  }

  lemma TokenText(s: string, d: char, pre: string, w: string, rest: string)
    requires forall k :: 0 <= k < |pre| ==> pre[k] == d
    requires w != "" && d !in w
    requires s == pre + w + [d] + rest || (s == pre + w && rest == "")
    ensures Tokens(s, d) == [w] + Tokens(rest, d)
  {
    TokensOfWord(w, d);
    if s == pre + w + [d] + rest {
      assert s == pre + (w + [d] + rest);
      TokensSkipAll(pre, d, w + [d] + rest);
      TokensConcat(w, d, rest);
    } else {
      TokensOfEmpty(d);
      TokensSkipAll(pre, d, w);
    }
  }

  /**
    One call of strtok_r on a text s: it cuts off exactly the first token of s, the memory at the save
    pointer still holds a text whose tokens are the remaining ones, and all writing stays inside s.
   */
  lemma TokenIsFirst(m: seq<char>, i: nat, s: string, d: char, start: nat, end: nat)
    requires StringAt(m, i, s) && d != NUL && NextToken(m, i, d, start, end)
    ensures end <= i + |s|
    ensures Tokens(s, d) == [m[start..end]] + Tokens(RestAfter(m, i, s, end), d)
    ensures StringAt(m[end := NUL], start, m[start..end])
    ensures StringAt(m[end := NUL], if m[end] == NUL then end else end + 1, RestAfter(m, i, s, end))
    ensures (if m[end] == NUL then end else end + 1) + |RestAfter(m, i, s, end)| == i + |s|
  {
    TokenMemory(m, i, s, d, start, end);
    StringChars(m, i, s);
    if m[end] == NUL {
      assert s == m[i..start] + m[start..end];
    } else {
      assert s == m[i..start] + m[start..end] + [d] + m[end + 1..i + |s|];
    }
    TokenText(s, d, m[i..start], m[start..end], RestAfter(m, i, s, end));
  }

  /** A terminated text can always be scanned. */
  lemma TextIsScannable(m: seq<char>, i: nat, s: string, d: char)
    requires StringAt(m, i, s) && d != NUL
    ensures Scannable(m, i, d)
  {
    StringChars(m, i, s);
    var start := i;
    while m[start] == d
      invariant i <= start <= i + |s|
      invariant forall k :: i <= k < start ==> m[k] == d
      decreases i + |s| - start
    {
      start := start + 1;
    }
    if m[start] == NUL {
      assert NoToken(m, i, d, start);
    } else {
      var end := start;
      while m[end] != d && m[end] != NUL
        invariant start <= end <= i + |s|
        invariant forall k :: start <= k < end ==> m[k] != d && m[k] != NUL
        decreases i + |s| - end
      {
        end := end + 1;
      }
      assert NextToken(m, i, d, start, end);
    }
  }

  /**
    strtok_r on a NUL-terminated text s: it hands out the tokens of s one by one. The token is a string
    of its own in the same memory, and only its terminator is written, at or before the save pointer.
   */
  method StrtokText(buf: array<char>, from: nat, d: char, ghost s: string) returns (r: Scanned, save: nat,
                    ghost rest: string)
    requires d != NUL && StringAt(buf[..], from, s)
    modifies buf
    ensures r.Nothing? <==> Tokens(s, d) == []
    ensures r.Nothing? ==> rest == "" && save == from + |s|
    ensures SameOutside(old(buf[..]), buf[..], if r.Token? then r.end else save, save)
    ensures SameOutside(old(buf[..]), buf[..], from, from + |s|)
    ensures r.Token? ==>
              && from <= r.start < r.end <= save <= from + |s| && save <= r.end + 1
              && StringAt(buf[..], r.start, Tokens(s, d)[0])
              && r.end == r.start + |Tokens(s, d)[0]|
              && Tokens(rest, d) == Tokens(s, d)[1..]
    ensures StringAt(buf[..], save, rest) && save + |rest| == from + |s|
  {
    hide Tokens, Scannable, NextToken, NoToken;
    ghost var m := buf[..];
    TextIsScannable(m, from, s, d);
    r, save := StrtokR(buf, from, d);
    if r.Nothing? {
      NoTokenMeansNone(m, from, s, d, save);
      rest := "";
    } else {
      TokenIsFirst(m, from, s, d, r.start, r.end);
      rest := RestAfter(m, from, s, r.end);
      ghost var w := m[r.start..r.end];
      assert Tokens(s, d)[0] == w && Tokens(s, d)[1..] == Tokens(rest, d);
    }
  }
}
