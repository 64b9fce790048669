/** Two grammars of bencode, as relations between a text and a node: the canonical texts of BEP 3 (section "bencoding"),
    which the encoding is shown to be exactly, and the texts the decoder takes, which are shown to be all it takes. */
module Grammars {
  import opened Bencode
  import opened ByteOrder
  import opened Bytes
  import opened Decimals

  // ----- canonical texts -----

  /** The length in shortest form, a colon, and the bytes. */
  ghost predicate CanonicalString(s: string, t: string) {
    exists num :: IsNumeralOf(num, |t|) && s == num + ":" + t
  }

  /** Numbers and lengths in shortest form, items in order, keys strictly increasing by their bytes. */
  ghost predicate Canonical(s: string, n: Node)
    decreases n
  {
    match n
    case BInt(i) => exists num :: IsNumeralOf(num, i) && s == "i" + num + "e"
    case BString(t) => CanonicalString(s, t)
    case BList(items) => s != "" && s[0] == 'l' && CanonicalItems(s[1..], items)
    case BDict(m) =>
      && s != "" && s[0] == 'd'
      && exists keys :: Lists(keys, m) && CanonicalEntries(s[1..], keys, n)
  }

  ghost predicate Lists(keys: seq<string>, m: map<string, Node>) {
    Increasing(keys) && forall k :: k in keys <==> k in m
  }

  ghost predicate CanonicalItems(s: string, items: seq<Node>)
    decreases items
  {
    if items == [] then s == "e"
    else exists k :: 0 <= k <= |s| && Canonical(s[..k], items[0]) && CanonicalItems(s[k..], items[1..])
  }

  ghost predicate CanonicalEntries(s: string, keys: seq<string>, n: Node)
    requires n.BDict? && forall k :: k in keys ==> k in n.entries
    decreases n, |keys|
  {
    if keys == [] then s == "e"
    else
      exists j, k ::
        && 0 <= j <= k <= |s|
        && CanonicalString(s[..j], keys[0])
        && Canonical(s[j..k], n.entries[keys[0]])
        && CanonicalEntries(s[k..], keys[1..], n)
  }

  lemma CanonicalStringIff(s: string, t: string)
    ensures CanonicalString(s, t) <==> s == EncodeString(t)
  {
    FormatIsNumeral(Format(|t|), |t|);
    if CanonicalString(s, t) {
      var num :| IsNumeralOf(num, |t|) && s == num + ":" + t;
      FormatIsNumeral(num, |t|);
    }
  }

  lemma CanonicalIntIff(s: string, i: int)
    ensures Canonical(s, BInt(i)) <==> s == Encode(BInt(i))
  {
    FormatIsNumeral(Format(i), i);
    if Canonical(s, BInt(i)) {
      var num :| IsNumeralOf(num, i) && s == "i" + num + "e";
      FormatIsNumeral(num, i);
    }
  }

  /** A node has exactly one canonical text, the encoding. */
  lemma {:induction false} CanonicalIff(s: string, n: Node)
    ensures Canonical(s, n) <==> s == Encode(n)
    decreases n
  {
    match n
    case BInt(i) => CanonicalIntIff(s, i);
    case BString(t) => CanonicalStringIff(s, t);
    case BList(items) =>
      if s != "" {
        CanonicalItemsIff(s[1..], items);
        FirstAndRest(s, 'l', EncodeItems(items));
      }
    case BDict(m) =>
      var sorted := Sorted(m.Keys);
      SortedLists(m.Keys);
      if s != "" {
        CanonicalEntriesIff(s[1..], sorted, n);
        FirstAndRest(s, 'd', EncodeEntries(sorted, n));
        forall keys | Lists(keys, m)
          ensures keys == sorted
        {
          SortedUnique(m.Keys, keys);
        }
      }
  }

  lemma FirstAndRest(s: string, first: char, rest: string)
    requires s != ""
    ensures s == [first] + rest <==> s[0] == first && s[1..] == rest
  {
    assert s == [s[0]] + s[1..];
    if s == [first] + rest {
      assert ([first] + rest)[0] == first && ([first] + rest)[1..] == rest;
    }
  }

  lemma {:induction false} CanonicalItemsIff(s: string, items: seq<Node>)
    ensures CanonicalItems(s, items) <==> s == EncodeItems(items)
    decreases items
  {
    if items != [] {
      var first := Encode(items[0]);
      if CanonicalItems(s, items) {
        var k :| 0 <= k <= |s| && Canonical(s[..k], items[0]) && CanonicalItems(s[k..], items[1..]);
        CanonicalIff(s[..k], items[0]);
        CanonicalItemsIff(s[k..], items[1..]);
        assert s == s[..k] + s[k..];
      } else if s == EncodeItems(items) {
        CutAfter(s, first, EncodeItems(items[1..]));
        CanonicalIff(first, items[0]);
        CanonicalItemsIff(s[|first|..], items[1..]);
      }
    }
  }

  lemma CutAfter(s: string, first: string, rest: string)
    requires s == first + rest
    ensures s[..|first|] == first && s[|first|..] == rest
  {
  }

  lemma {:induction false} CanonicalEntriesIff(s: string, keys: seq<string>, n: Node)
    requires n.BDict? && forall k :: k in keys ==> k in n.entries
    ensures CanonicalEntries(s, keys, n) <==> s == EncodeEntries(keys, n)
    decreases n, |keys|
  {
    if keys != [] {
      var value := n.entries[keys[0]];
      if CanonicalEntries(s, keys, n) {
        var j, k :| 0 <= j <= k <= |s| && CanonicalString(s[..j], keys[0])
          && Canonical(s[j..k], value) && CanonicalEntries(s[k..], keys[1..], n);
        CanonicalStringIff(s[..j], keys[0]);
        CanonicalIff(s[j..k], value);
        CanonicalEntriesIff(s[k..], keys[1..], n);
        ThreeParts(s, j, k);
      } else if s == EncodeEntries(keys, n) {
        var key, text, rest := EncodeString(keys[0]), Encode(value), EncodeEntries(keys[1..], n);
        CutTwice(s, key, text, rest);
        CanonicalStringIff(key, keys[0]);
        CanonicalIff(text, value);
        CanonicalEntriesIff(rest, keys[1..], n);
      }
    }
  }

  lemma ThreeParts(s: string, j: nat, k: nat)
    requires j <= k <= |s|
    ensures s == s[..j] + s[j..k] + s[k..]
  {
  }

  lemma CutTwice(s: string, first: string, second: string, rest: string)
    requires s == first + second + rest
    ensures var j, k := |first|, |first| + |second|;
      k <= |s| && s[..j] == first && s[j..k] == second && s[k..] == rest
  {
  }

  // ----- texts the decoder takes -----

  /** Anything up to an `e` that fmt scans as the integer. */
  predicate IntWord(w: string, i: int) {
    'e' !in w && Scan(w) == Some(i)
  }

  /** Anything up to a colon that starts with a digit and fmt scans as the length. */
  predicate LengthWord(w: string, n: nat) {
    w != "" && IsDigit(w[0]) && ':' !in w && Scan(w) == Some(n)
  }

  ghost predicate IntText(s: string, i: int) {
    exists w :: IntWord(w, i) && s == "i" + (w + "e")
  }

  ghost predicate StringText(s: string, t: string) {
    exists w :: LengthWord(w, |t|) && s == w + (":" + t)
  }

  /** Keys in any order and more than once; the last entry with a key counts. */
  ghost predicate Text(s: string, n: Node)
    decreases |s|, 0
  {
    match n
    case BInt(i) => IntText(s, i)
    case BString(t) => StringText(s, t)
    case BList(items) => s != "" && s[0] == 'l' && ItemsText(s[1..], items)
    case BDict(m) => s != "" && s[0] == 'd' && exists pairs :: AsMap(pairs) == m && EntriesText(s[1..], pairs)
  }

  ghost predicate ItemsText(s: string, items: seq<Node>)
    decreases |s|, 1
  {
    if items == [] then s == "e"
    else exists k :: 0 < k <= |s| && Text(s[..k], items[0]) && ItemsText(s[k..], items[1..])
  }

  ghost predicate EntriesText(s: string, pairs: seq<(string, Node)>)
    decreases |s|, 1
  {
    if pairs == [] then s == "e"
    else
      exists j, k ::
        && 0 < j <= k <= |s|
        && StringText(s[..j], pairs[0].0)
        && Text(s[j..k], pairs[0].1)
        && EntriesText(s[k..], pairs[1..])
  }

  // ----- such a text decodes -----

  lemma WordThenRest(w: string, stop: char, u: string)
    requires stop !in w
    ensures ReadUntil(w + ([stop] + u), stop) == Ok(w, u)
  {
    ReadUntilStop(w, stop, u);
    Together(w, [stop], u);
  }

  lemma Together(a: string, b: string, c: string)
    ensures a + (b + c) == a + b + c
  {
  }

  lemma SplitAt(s: string, k: nat, u: string)
    requires k <= |s|
    ensures s[..k] + (s[k..] + u) == s + u
  {
  }

  lemma SplitTwice(s: string, j: nat, k: nat, u: string)
    requires j <= k <= |s|
    ensures s[..j] + (s[j..k] + (s[k..] + u)) == s + u
  {
  }

  lemma IntWordParses(w: string, i: int, u: string)
    requires IntWord(w, i)
    ensures ParseInt(w + ("e" + u)) == Ok(i, u)
  {
    WordThenRest(w, 'e', u);
  }

  lemma IntTextDecodes(s: string, i: int, u: string)
    requires IntText(s, i)
    ensures s != "" && s[0] == 'i' && Decode(s + u) == Ok(BInt(i), u)
  {
    var w :| IntWord(w, i) && s == "i" + (w + "e");
    IntWordParses(w, i, u);
    Tail("i", w + "e", u);
    assert w + "e" + u == w + ("e" + u);
  }

  lemma Tail(first: string, body: string, u: string)
    requires |first| == 1
    ensures (first + body + u)[0] == first[0] && (first + body + u)[1..] == body + u
  {
  }

  lemma WordTail(w: string)
    requires w != ""
    ensures [w[0]] + w[1..] == w && forall c :: c in w[1..] ==> c in w
  {
  }

  lemma LengthWordParses(w: string, t: string, u: string)
    requires LengthWord(w, |t|)
    ensures ParseString(w[0], w[1..] + (":" + (t + u))) == Ok(t, u)
  {
    WordTail(w);
    WordThenRest(w[1..], ':', t + u);
    ParseStringStep(w[0], w[1..] + (":" + (t + u)), w[1..], t, u);
  }

  lemma StringTextParses(s: string, t: string, u: string)
    requires StringText(s, t)
    ensures s != "" && IsDigit(s[0]) && ParseString((s + u)[0], (s + u)[1..]) == Ok(t, u)
  {
    var w :| LengthWord(w, |t|) && s == w + (":" + t);
    LengthWordParses(w, t, u);
    FirstOut(w, t, u);
  }

  lemma FirstOut(w: string, t: string, u: string)
    requires w != ""
    ensures var s := w + (":" + t) + u; s[0] == w[0] && s[1..] == w[1..] + (":" + (t + u))
  {
  }

  lemma StringTextDecodes(s: string, t: string, u: string)
    requires StringText(s, t)
    ensures s != "" && IsDigit(s[0]) && Decode(s + u) == Ok(BString(t), u)
  {
    StringTextParses(s, t, u);
  }

  lemma {:induction false} TextDecodes(s: string, n: Node, u: string)
    requires Text(s, n)
    ensures s != "" && s[0] != 'e' && Decode(s + u) == Ok(n, u)
    decreases |s|, 0
  {
    match n
    case BInt(i) => IntTextDecodes(s, i, u);
    case BString(t) => StringTextDecodes(s, t, u);
    case BList(items) =>
      ItemsTextParses(s[1..], items, u);
      ListStep(s[1..], items, u);
      assert "l" + s[1..] == s;
    case BDict(m) =>
      var pairs :| AsMap(pairs) == m && EntriesText(s[1..], pairs);
      EntriesTextParses(s[1..], pairs, u);
      DictStep(s[1..], pairs, u);
      assert "d" + s[1..] == s;
  }

  lemma {:induction false} ItemsTextParses(s: string, items: seq<Node>, u: string)
    requires ItemsText(s, items)
    ensures ParseItems(s + u) == Ok(items, u)
    decreases |s|, 1
  {
    if items == [] {
      assert ("e" + u)[1..] == u;
    } else {
      var k :| 0 < k <= |s| && Text(s[..k], items[0]) && ItemsText(s[k..], items[1..]);
      TextDecodes(s[..k], items[0], s[k..] + u);
      ItemsTextParses(s[k..], items[1..], u);
      ItemTextStep(s, k, items, u);
    }
  }

  lemma ItemTextStep(s: string, k: nat, items: seq<Node>, u: string)
    requires 0 < k <= |s| && items != [] && s[0] != 'e'
    requires Decode(s[..k] + (s[k..] + u)) == Ok(items[0], s[k..] + u)
    requires ParseItems(s[k..] + u) == Ok(items[1..], u)
    ensures ParseItems(s + u) == Ok(items, u)
  {
    SplitAt(s, k, u);
    ItemStep(s + u, items[0], s[k..] + u, items[1..], u);
    assert [items[0]] + items[1..] == items;
  }

  lemma EntryTextStep(s: string, key: string, middle: string, n: Node, rest: string, pairs: seq<(string, Node)>,
                      u: string)
    requires s != "" && IsDigit(s[0]) && ParseString(s[0], s[1..]) == Ok(key, middle)
    requires Decode(middle) == Ok(n, rest) && ParseEntries(rest) == Ok(pairs, u)
    ensures ParseEntries(s) == Ok([(key, n)] + pairs, u)
  {
  }

  lemma {:induction false} EntriesTextParses(s: string, pairs: seq<(string, Node)>, u: string)
    requires EntriesText(s, pairs)
    ensures ParseEntries(s + u) == Ok(pairs, u)
    decreases |s|, 1
  {
    if pairs == [] {
      assert ("e" + u)[1..] == u;
    } else {
      var j, k :| 0 < j <= k <= |s| && StringText(s[..j], pairs[0].0) && Text(s[j..k], pairs[0].1)
        && EntriesText(s[k..], pairs[1..]);
      EntryTextParses(s, j, k, pairs, u);
    }
  }

  lemma EntryTextParses(s: string, j: nat, k: nat, pairs: seq<(string, Node)>, u: string)
    requires pairs != [] && 0 < j <= k <= |s|
    requires StringText(s[..j], pairs[0].0) && Text(s[j..k], pairs[0].1) && EntriesText(s[k..], pairs[1..])
    ensures ParseEntries(s + u) == Ok(pairs, u)
    decreases |s|, 0
  {
    var rest := s[k..] + u;
    var middle := s[j..k] + rest;
    StringTextParses(s[..j], pairs[0].0, middle);
    TextDecodes(s[j..k], pairs[0].1, rest);
    EntriesTextParses(s[k..], pairs[1..], u);
    SplitTwice(s, j, k, u);
    EntryTextStep(s + u, pairs[0].0, middle, pairs[0].1, rest, pairs[1..], u);
    FirstPair(pairs);
  }

  lemma FirstPair(pairs: seq<(string, Node)>)
    requires pairs != []
    ensures [(pairs[0].0, pairs[0].1)] + pairs[1..] == pairs
  {
  }

  // ----- what decodes is such a text -----

  lemma {:induction false} ReadUntilSplit(s: string, stop: char)
    requires ReadUntil(s, stop).Ok?
    ensures var r := ReadUntil(s, stop);
      stop !in r.value && s == r.value + [stop] + r.rest
  {
    assert s == [s[0]] + s[1..];
    if s[0] != stop {
      ReadUntilSplit(s[1..], stop);
    }
  }

  lemma IntDecoded(s: string) returns (w: string)
    requires ParseInt(s).Ok?
    ensures IntWord(w, ParseInt(s).value) && s == w + ("e" + ParseInt(s).rest)
  {
    w := ReadUntil(s, 'e').value;
    ReadUntilSplit(s, 'e');
    assert w + "e" + ParseInt(s).rest == w + ("e" + ParseInt(s).rest);
  }

  lemma StringDecoded(first: char, s: string) returns (w: string)
    requires IsDigit(first) && ParseString(first, s).Ok?
    ensures var r := ParseString(first, s);
      LengthWord([first] + w, |r.value|) && s == w + (":" + (r.value + r.rest))
  {
    var r := ParseString(first, s);
    w := ReadUntil(s, ':').value;
    ReadUntilSplit(s, ':');
    StringIsCut(first, s);
    Together(w, ":", r.value + r.rest);
  }

  lemma StringIsCut(first: char, s: string)
    requires IsDigit(first) && ParseString(first, s).Ok?
    ensures var r := ParseString(first, s);
      ReadUntil(s, ':').rest == r.value + r.rest && Scan([first] + ReadUntil(s, ':').value) == Some(|r.value|)
  {
    var text := ReadUntil(s, ':');
    var n := Scan([first] + text.value).value;
    ScanUnsigned([first] + text.value);
    Halves(text.rest, n);
  }

  lemma Halves(s: string, n: nat)
    requires n <= |s|
    ensures s == s[..n] + s[n..] && |s[..n]| == n
  {
  }

  lemma TakenIs(s: string, p: string, rest: string)
    requires s == p + rest
    ensures Consumed(s, rest) == p && s == Consumed(s, rest) + rest
  {
  }

  lemma StringTaken(s: string)
    requires s != "" && IsDigit(s[0]) && ParseString(s[0], s[1..]).Ok?
    ensures var r := ParseString(s[0], s[1..]);
      s == Consumed(s, r.rest) + r.rest && StringText(Consumed(s, r.rest), r.value)
  {
    var r := ParseString(s[0], s[1..]);
    var w := StringDecoded(s[0], s[1..]);
    StringIsText(s, w, r.value, r.rest);
  }

  lemma StringIsText(s: string, w: string, t: string, rest: string)
    requires s != "" && s[1..] == w + (":" + (t + rest)) && LengthWord([s[0]] + w, |t|)
    ensures s == Consumed(s, rest) + rest && StringText(Consumed(s, rest), t)
  {
    FirstAndRest(s, s[0], w + (":" + (t + rest)));
    FourTogether([s[0]], w, ":", t, rest);
    TakenIs(s, [s[0]] + w + (":" + t), rest);
  }

  lemma FourTogether(first: string, w: string, colon: string, t: string, rest: string)
    ensures first + (w + (colon + (t + rest))) == first + w + (colon + t) + rest
  {
  }

  lemma IntTaken(s: string)
    requires s != "" && s[0] == 'i' && ParseInt(s[1..]).Ok?
    ensures var r := ParseInt(s[1..]);
      s == Consumed(s, r.rest) + r.rest && IntText(Consumed(s, r.rest), r.value)
  {
    var r := ParseInt(s[1..]);
    var w := IntDecoded(s[1..]);
    IntIsText(s, w, r.value, r.rest);
  }

  lemma IntIsText(s: string, w: string, i: int, rest: string)
    requires s != "" && s[0] == 'i' && s[1..] == w + ("e" + rest) && IntWord(w, i)
    ensures s == Consumed(s, rest) + rest && IntText(Consumed(s, rest), i)
  {
    assert s == [s[0]] + s[1..];
    assert s == "i" + (w + "e") + rest;
    TakenIs(s, "i" + (w + "e"), rest);
  }

  lemma {:induction false} DecodedText(s: string)
    requires Decode(s).Ok?
    ensures var r := Decode(s);
      s == Consumed(s, r.rest) + r.rest && Text(Consumed(s, r.rest), r.value)
    decreases |s|, 0
  {
    var r := Decode(s);
    if s[0] == 'i' {
      IntTaken(s);
    } else if IsDigit(s[0]) {
      StringTaken(s);
    } else {
      ConsumedFirst(s, r.rest, "");
      var p := Consumed(s, r.rest);
      assert p + "" == p && Consumed(s[1..], r.rest) + "" == Consumed(s[1..], r.rest);
      if s[0] == 'l' {
        ParsedItemsText(s[1..]);
      } else {
        ParsedEntriesText(s[1..]);
      }
    }
  }

  lemma {:induction false} ParsedItemsText(s: string)
    requires ParseItems(s).Ok?
    ensures var r := ParseItems(s);
      s == Consumed(s, r.rest) + r.rest && ItemsText(Consumed(s, r.rest), r.value)
    decreases |s|, 1
  {
    var r := ParseItems(s);
    if s[0] == 'e' {
      ConsumedOne(s, "");
      assert Consumed(s, r.rest) == "e";
    } else {
      var item := Decode(s);
      DecodedText(s);
      ParsedItemsText(item.rest);
      ConsumedTwice(s, item.rest, r.rest, "");
      TwoTexts(s, item.rest, r.rest);
      assert r.value[0] == item.value && r.value[1..] == ParseItems(item.rest).value;
    }
  }

  lemma TwoTexts(s: string, middle: string, rest: string)
    requires |rest| <= |middle| <= |s|
    requires s == Consumed(s, middle) + middle && middle == Consumed(middle, rest) + rest
    ensures var k := |s| - |middle|;
      Consumed(s, rest)[..k] == Consumed(s, middle) && Consumed(s, rest)[k..] == Consumed(middle, rest)
  {
  }

  lemma {:induction false} ParsedEntriesText(s: string)
    requires ParseEntries(s).Ok?
    ensures var r := ParseEntries(s);
      s == Consumed(s, r.rest) + r.rest && EntriesText(Consumed(s, r.rest), r.value)
    decreases |s|, 1
  {
    var r := ParseEntries(s);
    if s[0] == 'e' {
      ConsumedOne(s, "");
      assert Consumed(s, r.rest) == "e";
    } else {
      var key := ParseString(s[0], s[1..]);
      var value := Decode(key.rest);
      StringTaken(s);
      DecodedText(key.rest);
      ParsedEntriesText(value.rest);
      ThreeTexts(s, key.rest, value.rest, r.rest);
      EntryIsText(Consumed(s, r.rest), Consumed(s, key.rest), Consumed(key.rest, value.rest),
                  Consumed(value.rest, r.rest), key.value, value.value, ParseEntries(value.rest).value);
    }
  }

  lemma EntryIsText(p: string, a: string, b: string, c: string, key: string, n: Node, pairs: seq<(string, Node)>)
    requires p == a + b + c && a != "" && StringText(a, key) && Text(b, n) && EntriesText(c, pairs)
    ensures EntriesText(p, [(key, n)] + pairs)
  {
    CutTwice(p, a, b, c);
    PairTail(key, n, pairs);
    assert StringText(p[..|a|], key) && Text(p[|a|..|a| + |b|], n) && EntriesText(p[|a| + |b|..], pairs);
  }

  lemma PairTail(key: string, n: Node, pairs: seq<(string, Node)>)
    ensures ([(key, n)] + pairs)[0] == (key, n) && ([(key, n)] + pairs)[1..] == pairs
  {
  }

  lemma ThreeTexts(s: string, middle: string, later: string, rest: string)
    requires |rest| <= |later| <= |middle| <= |s|
    requires s == Consumed(s, middle) + middle
    requires middle == Consumed(middle, later) + later && later == Consumed(later, rest) + rest
    ensures s == Consumed(s, rest) + rest
    ensures Consumed(s, rest) == Consumed(s, middle) + Consumed(middle, later) + Consumed(later, rest)
  {
    assert s == Consumed(s, middle) + Consumed(middle, later) + Consumed(later, rest) + rest;
  }

  /** The decoder takes exactly these texts: it decodes a node and leaves a rest when what is in front of the rest is a
      text of the node. */
  lemma DecodeIff(s: string, n: Node, rest: string)
    requires |rest| <= |s|
    ensures Decode(s) == Ok(n, rest) <==> s == Consumed(s, rest) + rest && Text(Consumed(s, rest), n)
  {
    if Decode(s) == Ok(n, rest) {
      DecodedText(s);
    } else if s == Consumed(s, rest) + rest && Text(Consumed(s, rest), n) {
      TextDecodes(Consumed(s, rest), n, rest);
    }
  }
}
