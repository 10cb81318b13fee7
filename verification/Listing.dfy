/** The text of a directory listing: how the command server prints it and how the command client parses it. */
module Listing {
  import opened Splitting
  import opened CStrings
  import opened Options

  /** One entry of a listing: 'F' or 'D', the name, and the date of the last change. */
  datatype Entry = Entry(kind: char, name: string, date: string)

  predicate IsKind(c: char) { c == 'D' || c == 'F' }

  predicate Clean(s: string) { s != "" && '<' !in s && '>' !in s }

  predicate WellFormed(e: Entry) { IsKind(e.kind) && Clean(e.name) && Clean(e.date) }

  // ---- printing ----

  function Body(e: Entry): string
  {
    [e.kind] + ">" + e.name + ">" + e.date
  }

  /** The listing the server prints for a sequence of entries. */
  function Print(es: seq<Entry>): string
  {
    if es == [] then "" else Body(es[0]) + "<" + Print(es[1..])
  }

  function PrintedLength(es: seq<Entry>): nat
  {
    if es == [] then 0 else |es[0].name| + |es[0].date| + 4 + PrintedLength(es[1..])
  }

  lemma {:induction false} LengthOfPrint(es: seq<Entry>)
    ensures |Print(es)| == PrintedLength(es)
  {
    if es != [] { LengthOfPrint(es[1..]); }
  }

  // ---- parsing ----

  /** The entry that the fields of one listing item stand for, if it is recognised. */
  function Recognise(item: string): Option<Entry>
  {
    var fields := Tokens(item, '>');
    if |fields| < 3 || (fields[0] != "D" && fields[0] != "F") then None
    else Some(Entry(fields[0][0], fields[1], fields[2]))
  }

  function RecogniseAll(items: seq<string>): seq<Entry>
  {
    if items == [] then []
    else Found(Recognise(items[0])) + RecogniseAll(items[1..])
  }

  function Found(e: Option<Entry>): seq<Entry>
  {
    match e case Some(v) => [v] case None => []
  }

  lemma RecogniseStep(es: seq<Entry>, items: seq<string>)
    requires items != []
    ensures es + RecogniseAll(items) == (es + Found(Recognise(items[0]))) + RecogniseAll(items[1..])
  {
  }

  /**
    Splits a reply at '<', splits every item at '>', and keeps the items of at least three fields whose type
    is D or F.
   */
  function Parse(text: string): seq<Entry>
  {
    RecogniseAll(Tokens(text, '<'))
  }

  // ---- printer and parser undo each other ----

  function Bodies(es: seq<Entry>): (items: seq<string>)
    ensures |items| == |es|
    ensures forall i :: 0 <= i < |es| ==> items[i] == Body(es[i])
  {
    if es == [] then [] else [Body(es[0])] + Bodies(es[1..])
  }

  lemma BodyIsOneItem(e: Entry)
    requires WellFormed(e)
    ensures '<' !in Body(e)
  {
    assert '<' !in [e.kind] + ">" && '<' !in [e.kind] + ">" + e.name;
  }

  lemma FieldsOfBody(e: Entry)
    requires WellFormed(e)
    ensures Tokens(Body(e), '>') == [[e.kind], e.name, e.date]
    ensures Recognise(Body(e)) == Some(e)
  {
    assert Body(e) == [e.kind] + ['>'] + (e.name + ['>'] + e.date);
    TokensConcat([e.kind], '>', e.name + ['>'] + e.date);
    TokensConcat(e.name, '>', e.date);
    TokensOfWord([e.kind], '>');
    TokensOfWord(e.name, '>');
    TokensOfWord(e.date, '>');
  }

  /** Two fields are no entry; three or more are the entry of the first three if its type is known. */
  lemma FieldsRead(kind: string, name: string, date: string, more: string)
    requires kind != "" && '>' !in kind && name != "" && '>' !in name && date != "" && '>' !in date
    ensures Recognise(kind + ">" + name) == None
    ensures Recognise(kind + ">" + name + ">" + date + ">" + more) ==
              if kind == "D" || kind == "F" then Some(Entry(kind[0], name, date)) else None
  {
    hide Tokens;
    TokensOfWord(kind, '>');
    TokensOfWord(name, '>');
    TokensOfWord(date, '>');
    TokensConcat(kind, '>', name);
    var rest := date + ['>'] + more;
    TokensConcat(date, '>', more);
    TokensConcat(name, '>', rest);
    TokensConcat(kind, '>', name + ['>'] + rest);
    assert kind + ">" + name == kind + ['>'] + name;
    assert kind + ">" + name + ">" + date + ">" + more == kind + ['>'] + (name + ['>'] + rest);
  }

  lemma {:induction false} ItemsOfPrint(es: seq<Entry>)
    requires forall e :: e in es ==> WellFormed(e)
    ensures Tokens(Print(es), '<') == Bodies(es)
  {
    if es == [] {
      TokensOfEmpty('<');
    } else {
      assert Print(es) == Body(es[0]) + ['<'] + Print(es[1..]);
      assert Body(es[0]) == [es[0].kind] + ['>'] + es[0].name + ['>'] + es[0].date;
      TokensConcat(Body(es[0]), '<', Print(es[1..]));
      BodyIsOneItem(es[0]);
      TokensOfWord(Body(es[0]), '<');
      ItemsOfPrint(es[1..]);
    }
  }

  lemma {:induction false} RecogniseBodies(es: seq<Entry>)
    requires forall e :: e in es ==> WellFormed(e)
    ensures RecogniseAll(Bodies(es)) == es
  {
    if es != [] {
      FieldsOfBody(es[0]);
      RecogniseBodies(es[1..]);
      assert Bodies(es)[1..] == Bodies(es[1..]);
    }
  }

  lemma {:induction false} RecognisedAreWellFormed(items: seq<string>)
    requires forall item :: item in items ==> '<' !in item
    ensures forall e :: e in RecogniseAll(items) ==> WellFormed(e)
  {
    if items != [] {
      RecognisedAreWellFormed(items[1..]);
      TokensClean(items[0], '>');
    }
  }

  /** Whatever text arrives, the entries parsed out of it are well formed. */
  lemma ParsedAreWellFormed(text: string)
    ensures forall e :: e in Parse(text) ==> WellFormed(e)
  {
    TokensClean(text, '<');
    RecognisedAreWellFormed(Tokens(text, '<'));
  }

  /** The round trip holds exactly for the listings without a reserved character or an empty name or date. */
  lemma PrintParseRoundTrip(es: seq<Entry>)
    ensures Parse(Print(es)) == es <==> forall e :: e in es ==> WellFormed(e)
  {
    if forall e :: e in es ==> WellFormed(e) {
      ItemsOfPrint(es);
      RecogniseBodies(es);
    } else {
      ParsedAreWellFormed(Print(es));
    }
  }

  const INVALID_DIRECTORY := "requested invalid directory"

  /** The server's error reply and its empty listing both parse as no entries at all. */
  lemma RepliesWithoutEntries()
    ensures Parse(INVALID_DIRECTORY) == [] && Parse("") == []
  {
    TokensOfWord(INVALID_DIRECTORY, '<');
    TokensOfWord(INVALID_DIRECTORY, '>');
    assert RecogniseAll([INVALID_DIRECTORY]) == RecogniseAll([INVALID_DIRECTORY][1..]);
    TokensOfEmpty('<');
  }

  // ---- the in-place parser ----

  /** The three inner scans on one item w: where the first three fields of w start, if there are three. */
  method ScanFields(buf: array<char>, at: nat, ghost w: string) returns (kind: Scanned, name: Scanned, date: Scanned)
    requires StringAt(buf[..], at, w)
    modifies buf
    ensures SameOutside(old(buf[..]), buf[..], at, at + |w|)
    ensures kind.Token? && name.Token? && date.Token? <==> |Tokens(w, '>')| >= 3
    ensures kind.Token? && name.Token? && date.Token? ==>
              && StringAt(buf[..], kind.start, Tokens(w, '>')[0])
              && StringAt(buf[..], name.start, Tokens(w, '>')[1])
              && StringAt(buf[..], date.start, Tokens(w, '>')[2])
  {
    ghost var fields := Tokens(w, '>');
    TokensOfEmpty('>');
    ghost var m0 := buf[..];
    var save1, save2, save3;
    ghost var rest1, rest2, rest3;
    kind, save1, rest1 := StrtokText(buf, at, '>', w);
    ghost var m1 := buf[..];
    name, save2, rest2 := StrtokText(buf, save1, '>', rest1);
    ghost var m2 := buf[..];
    date, save3, rest3 := StrtokText(buf, save2, '>', rest2);
    ghost var m3 := buf[..];
    if kind.Token? && name.Token? && date.Token? {
      StringKept(m1, m2, name.end, save2, kind.start, fields[0]);
      StringKept(m2, m3, date.end, save3, kind.start, fields[0]);
      StringKept(m2, m3, date.end, save3, name.start, fields[1]);
    }
  }

  /** The decision on a scanned item: NULL fields or an unknown type are skipped. */
  method ReadFields(buf: array<char>, kind: Scanned, name: Scanned, date: Scanned,
                    ghost w: string) returns (e: Option<Entry>)
    requires kind.Token? && name.Token? && date.Token? <==> |Tokens(w, '>')| >= 3
    requires kind.Token? && name.Token? && date.Token? ==>
               && StringAt(buf[..], kind.start, Tokens(w, '>')[0])
               && StringAt(buf[..], name.start, Tokens(w, '>')[1])
               && StringAt(buf[..], date.start, Tokens(w, '>')[2])
    ensures e == Recognise(w)
  {
    if kind.Nothing? || name.Nothing? || date.Nothing? {
      return None;
    }
    var k := TextOf(buf, kind.start);
    var n := TextOf(buf, name.start);
    var d := TextOf(buf, date.start);
    StringAtUnique(buf[..], kind.start, k, Tokens(w, '>')[0]);
    StringAtUnique(buf[..], name.start, n, Tokens(w, '>')[1]);
    StringAtUnique(buf[..], date.start, d, Tokens(w, '>')[2]);
    e := if k != "D" && k != "F" then None else Some(Entry(k[0], n, d));
  }

  /**
    One round of the client's loop on the unread text s of a reply: the outer scan cuts off an item and
    the inner scans cut that item into fields, all in the same array. The memory from the outer save
    pointer on is untouched and still holds the remaining items.
   */
  method NextEntry(buf: array<char>, from: nat, ghost s: string)
    returns (more: bool, e: Option<Entry>, save: nat, ghost rest: string)
    requires StringAt(buf[..], from, s)
    modifies buf
    ensures more <==> Tokens(s, '<') != []
    ensures more ==> e == Recognise(Tokens(s, '<')[0]) && Tokens(rest, '<') == Tokens(s, '<')[1..]
    ensures from <= save && save + |rest| == from + |s| && (if more then |rest| < |s| else rest == "")
    ensures StringAt(buf[..], save, rest)
    ensures SameOutside(old(buf[..]), buf[..], from, save)
  {
    ghost var m0 := buf[..];
    var item;
    item, save, rest := StrtokText(buf, from, '<', s);
    if item.Nothing? {
      return false, None, save, rest;
    }
    ghost var m1, w := buf[..], Tokens(s, '<')[0];
    var kind, name, date := ScanFields(buf, item.start, w);
    e := ReadFields(buf, kind, name, date, w);
    StringKept(m1, buf[..], from, save, save, rest);
    more := true;
  }

  /** The whole scan of a reply, for every text: the nested in-place scans compute exactly Parse. */
  method ScanReply(buf: array<char>, ghost text: string) returns (es: seq<Entry>)
    requires StringAt(buf[..], 0, text)
    modifies buf
    ensures es == Parse(text)
    ensures SameOutside(old(buf[..]), buf[..], 0, |text|)
  {
    es := [];
    ghost var m0, rest := buf[..], text;
    var more, e, save := true, None, 0;
    while more
      invariant save + |rest| == |text|
      invariant StringAt(buf[..], save, rest)
      invariant SameOutside(m0, buf[..], 0, |text|)
      invariant es + RecogniseAll(Tokens(rest, '<')) == Parse(text)
      invariant !more ==> Tokens(rest, '<') == []
      decreases more, |rest|
    {
      ghost var items := Tokens(rest, '<');
      ghost var seen := es;
      more, e, save, rest := NextEntry(buf, save, rest);
      if more {
        RecogniseStep(seen, items);
        if e.Some? {
          es := es + [e.value];
        }
        assert es == seen + Found(e);
      } else {
        TokensOfEmpty('<');
      }
    }
  }
}
