/** Splitting text at a delimiter, and the tokens strtok finds in it: the non-empty pieces. */
module Splitting {

  /** The first position of d in s. */
  function IndexOf(s: string, d: char): (i: nat)
    requires d in s
    ensures i < |s| && s[i] == d && d !in s[..i]
  {
    if s[0] == d then 0 else
      assert s == [s[0]] + s[1..];
      var i := 1 + IndexOf(s[1..], d);
      assert s[..i] == [s[0]] + s[1..][..i - 1];
      i
  }

  /** The pieces of s between occurrences of d, empty ones included. */
  function Split(s: string, d: char): (pieces: seq<string>)
    ensures |pieces| > 0
    decreases |s|
  {
    if d in s then
      var i := IndexOf(s, d);
      [s[..i]] + Split(s[i + 1..], d)
    else
      [s]
  }

  function Join(pieces: seq<string>, d: char): string
  {
    if pieces == [] then ""
    else if |pieces| == 1 then pieces[0]
    else pieces[0] + [d] + Join(pieces[1..], d)
  }

  function NonEmpty(pieces: seq<string>): seq<string>
  {
    if pieces == [] then []
    else (if pieces[0] == "" then [] else [pieces[0]]) + NonEmpty(pieces[1..])
  }

  /** What a whole strtok scan of s with the one-character delimiter set d yields. */
  function Tokens(s: string, d: char): seq<string>
  {
    NonEmpty(Split(s, d))
  }

  /** Split loses nothing: joining its pieces gives the text back, and no piece holds the delimiter. */
  lemma {:induction false} JoinSplit(s: string, d: char)
    ensures Join(Split(s, d), d) == s
    ensures forall piece :: piece in Split(s, d) ==> d !in piece
    decreases |s|
  {
    if d in s {
      var i := IndexOf(s, d);
      JoinSplit(s[i + 1..], d);
      assert s == s[..i] + [d] + s[i + 1..];
      assert Split(s, d)[1..] == Split(s[i + 1..], d);
    }
  }

  lemma {:induction false} NonEmptyConcat(a: seq<string>, b: seq<string>)
    ensures NonEmpty(a + b) == NonEmpty(a) + NonEmpty(b)
  {
    if a == [] {
      assert a + b == b;
    } else {
      assert (a + b)[1..] == a[1..] + b;
      NonEmptyConcat(a[1..], b);
    }
  }

  lemma IndexOfUnique(s: string, d: char, i: nat)
    requires i < |s| && s[i] == d && d !in s[..i]
    ensures IndexOf(s, d) == i
  {
    var j := IndexOf(s, d);
    assert forall k :: 0 <= k < i ==> s[..i][k] == s[k];
    assert forall k :: 0 <= k < j ==> s[..j][k] == s[k];
  }

  lemma SplitHead(w: string, d: char, rest: string)
    requires d !in w
    ensures Split(w + [d] + rest, d) == [w] + Split(rest, d)
  {
    var s := w + [d] + rest;
    assert s[|w|] == d && s[..|w|] == w;
    assert d in s;
    IndexOfUnique(s, d, |w|);
    assert s[|w| + 1..] == rest;
  }

  lemma SplitFirst(a: string, d: char)
    requires d in a
    ensures Split(a, d) == [a[..IndexOf(a, d)]] + Split(a[IndexOf(a, d) + 1..], d)
  {
  }

  /** The text around a cut at index i. */
  lemma CutAt(a: string, d: char, b: string, i: nat)
    requires i < |a| && a[i] == d
    ensures a + [d] + b == a[..i] + [d] + (a[i + 1..] + [d] + b)
  {
    assert a == a[..i] + [d] + a[i + 1..];
  }

  lemma {:induction false} SplitConcat(a: string, d: char, b: string)
    ensures Split(a + [d] + b, d) == Split(a, d) + Split(b, d)
    decreases |a|
  {
    hide Split;
    if d in a {
      var i := IndexOf(a, d);
      SplitConcat(a[i + 1..], d, b);
      CutAt(a, d, b, i);
      SplitHead(a[..i], d, a[i + 1..] + [d] + b);
      SplitFirst(a, d);
      assert [a[..i]] + (Split(a[i + 1..], d) + Split(b, d)) == ([a[..i]] + Split(a[i + 1..], d)) + Split(b, d);
    } else {
      SplitHead(a, d, b);
      SplitOfWord(a, d);
    }
  }

  lemma SplitOfWord(w: string, d: char)
    requires d !in w
    ensures Split(w, d) == [w]
  {
  }

  /** A delimiter separates the scan of what is before it from the scan of what is after it. */
  lemma TokensConcat(a: string, d: char, b: string)
    ensures Tokens(a + [d] + b, d) == Tokens(a, d) + Tokens(b, d)
  {
    SplitConcat(a, d, b);
    NonEmptyConcat(Split(a, d), Split(b, d));
  }

  lemma TokensOfWord(w: string, d: char)
    requires w != "" && d !in w
    ensures Tokens(w, d) == [w]
  {
    assert Split(w, d) == [w];
    assert NonEmpty([w]) == [w] + NonEmpty([w][1..]);
  }

  lemma TokensOfEmpty(d: char)
    ensures Tokens("", d) == []
  {
    assert Split("", d) == [""];
    assert NonEmpty([""]) == NonEmpty([""][1..]);
  }

  lemma TokensSkip(d: char, s: string)
    ensures Tokens([d] + s, d) == Tokens(s, d)
  {
    assert [d] + s == "" + [d] + s;
    TokensConcat("", d, s);
    TokensOfEmpty(d);
  }

  /** Leading delimiters yield nothing. */
  lemma {:induction false} TokensSkipAll(pre: string, d: char, s: string)
    requires forall k :: 0 <= k < |pre| ==> pre[k] == d
    ensures Tokens(pre + s, d) == Tokens(s, d)
  {
    if pre == "" {
      assert pre + s == s;
    } else {
      assert pre + s == [d] + (pre[1..] + s);
      TokensSkip(d, pre[1..] + s);
      TokensSkipAll(pre[1..], d, s);
    }
  }

  lemma TokensOfDelimiters(pre: string, d: char)
    requires forall k :: 0 <= k < |pre| ==> pre[k] == d
    ensures Tokens(pre, d) == []
  {
    TokensSkipAll(pre, d, "");
    assert pre + "" == pre;
    TokensOfEmpty(d);
  }

  lemma {:induction false} NonEmptyMember(pieces: seq<string>, t: string)
    ensures t in NonEmpty(pieces) <==> t in pieces && t != ""
  {
    if pieces != [] {
      NonEmptyMember(pieces[1..], t);
      assert pieces == [pieces[0]] + pieces[1..];
    }
  }

  lemma {:induction false} SplitChars(s: string, d: char, t: string)
    requires t in Split(s, d)
    ensures forall c :: c in t ==> c in s
    decreases |s|
  {
    if d in s {
      var i := IndexOf(s, d);
      if t in Split(s[i + 1..], d) {
        SplitChars(s[i + 1..], d, t);
      }
    }
  }

  /** Tokens are never empty, never hold the delimiter and are made of characters of the text. */
  lemma TokensClean(s: string, d: char)
    ensures forall t :: t in Tokens(s, d) ==> t != "" && d !in t
    ensures forall t, c :: t in Tokens(s, d) && c in t ==> c in s
  {
    JoinSplit(s, d);
    forall t | t in Tokens(s, d) ensures t != "" && d !in t && forall c :: c in t ==> c in s {
      NonEmptyMember(Split(s, d), t);
      SplitChars(s, d, t);
    }
  }

  /** A text with a character that is not a delimiter has a token. */
  lemma {:induction false} TokensNotEmpty(s: string, d: char)
    requires s != "" && s[0] != d
    ensures Tokens(s, d) != []
  {
    if d in s {
      var i := IndexOf(s, d);
      assert s == s[..i] + [d] + s[i + 1..];
      TokensConcat(s[..i], d, s[i + 1..]);
      TokensOfWord(s[..i], d);
    } else {
      TokensOfWord(s, d);
    }
  }
}
