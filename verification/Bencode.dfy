/** Bencoding (BEP 3, section "bencoding"): what the decoder of meta/bencode.go computes, as functions on the
    bytes left in its reader, and the canonical encoding it is compared with. A string holds one character per byte. */
module Bencode {
  import opened ByteOrder
  import opened Bytes
  import opened Decimals

  datatype Node =
    | BInt(value: int)
    | BString(text: string)
    | BList(items: seq<Node>)
    | BDict(entries: map<string, Node>)

  /** What a parser returns and what it leaves unread, also when it fails. */
  datatype Result<T> = Ok(value: T, rest: string) | Err(rest: string)

  // ----- the decoder -----

  /** The bytes before the next `stop`, which is consumed too. */
  function ReadUntil(s: string, stop: char): (r: Result<string>)
    ensures |r.rest| <= |s| && (r.Ok? ==> |r.rest| < |s|)
  {
    if s == "" then Err("")
    else if s[0] == stop then Ok("", s[1..])
    else
      var r := ReadUntil(s[1..], stop);
      if r.Ok? then Ok([s[0]] + r.value, r.rest) else r
  }

  /** An integer, after its `i`. */
  function ParseInt(s: string): (r: Result<int>)
    ensures |r.rest| <= |s| && (r.Ok? ==> |r.rest| < |s|)
  {
    var text := ReadUntil(s, 'e');
    if text.Err? then Err(text.rest)
    else
      match Scan(text.value)
      case Some(i) => Ok(i, text.rest)
      case None => Err(text.rest)
  }

  /** A string, after the first digit of its length. */
  function ParseString(first: char, s: string): (r: Result<string>)
    requires IsDigit(first)
    ensures |r.rest| <= |s| && (r.Ok? ==> |r.rest| < |s|)
  {
    var text := ReadUntil(s, ':');
    if text.Err? then text
    else
      match Scan([first] + text.value)
      case None => Err(text.rest)
      case Some(n) =>
        ScanUnsigned([first] + text.value);
        if n <= |text.rest| then Ok(text.rest[..n], text.rest[n..]) else Err("")
  }

  function Decode(s: string): (r: Result<Node>)
    ensures |r.rest| <= |s| && (r.Ok? ==> |r.rest| < |s|)
    decreases |s|, 0
  {
    if s == "" then Err("")
    else if s[0] == 'i' then
      var r := ParseInt(s[1..]);
      if r.Ok? then Ok(BInt(r.value), r.rest) else Err(r.rest)
    else if IsDigit(s[0]) then
      var r := ParseString(s[0], s[1..]);
      if r.Ok? then Ok(BString(r.value), r.rest) else Err(r.rest)
    else if s[0] == 'l' then
      var r := ParseItems(s[1..]);
      if r.Ok? then Ok(BList(r.value), r.rest) else Err(r.rest)
    else if s[0] == 'd' then
      var r := ParseEntries(s[1..]);
      if r.Ok? then Ok(BDict(AsMap(r.value)), r.rest) else Err(r.rest)
    else Err(s[1..])
  }

  /** The items of a list, up to and including its `e`. */
  function ParseItems(s: string): (r: Result<seq<Node>>)
    ensures |r.rest| <= |s| && (r.Ok? ==> |r.rest| < |s|)
    decreases |s|, 1
  {
    if s == "" then Err("")
    else if s[0] == 'e' then Ok([], s[1..])
    else
      var item := Decode(s);
      if item.Err? then Err(item.rest)
      else
        var items := ParseItems(item.rest);
        if items.Ok? then Ok([item.value] + items.value, items.rest) else items
  }

  /** The key and value pairs of a dictionary, in the order they come, up to and including its `e`. */
  function ParseEntries(s: string): (r: Result<seq<(string, Node)>>)
    ensures |r.rest| <= |s| && (r.Ok? ==> |r.rest| < |s|)
    decreases |s|
  {
    if s == "" then Err("")
    else if s[0] == 'e' then Ok([], s[1..])
    else if !IsDigit(s[0]) then Err(s[1..])
    else
      var key := ParseString(s[0], s[1..]);
      if key.Err? then Err(key.rest)
      else
        var value := Decode(key.rest);
        if value.Err? then Err(value.rest)
        else
          var entries := ParseEntries(value.rest);
          if entries.Ok? then Ok([(key.value, value.value)] + entries.value, entries.rest) else entries
  }

  /** Entries assigned to a map one after the other. */
  function AsMap(pairs: seq<(string, Node)>): (m: map<string, Node>)
  {
    if pairs == [] then map[]
    else
      var last := |pairs| - 1;
      AsMap(pairs[..last])[pairs[last].0 := pairs[last].1]
  }

  /** Of the entries with the same key, the last one is kept. */
  lemma {:induction false} LastDuplicateWins(pairs: seq<(string, Node)>, i: nat)
    requires i < |pairs|
    requires forall j :: i < j < |pairs| ==> pairs[j].0 != pairs[i].0
    ensures pairs[i].0 in AsMap(pairs) && AsMap(pairs)[pairs[i].0] == pairs[i].1
  {
    var last := |pairs| - 1;
    if i < last {
      LastDuplicateWins(pairs[..last], i);
    }
  }

  /** Every entry of the map is the last pair with its key. */
  lemma {:induction false} EntryIsLastPair(pairs: seq<(string, Node)>, key: string) returns (i: nat)
    requires key in AsMap(pairs)
    ensures i < |pairs| && pairs[i] == (key, AsMap(pairs)[key])
    ensures forall j :: i < j < |pairs| ==> pairs[j].0 != key
  {
    i := |pairs| - 1;
    if pairs[i].0 != key {
      i := EntryIsLastPair(pairs[..i], key);
    }
  }

  // ----- locality -----

  /** What a parser consumed of `s` to leave `rest`. */
  function Consumed(s: string, rest: string): (p: string)
    requires |rest| <= |s|
  {
    s[..|s| - |rest|]
  }

  lemma ConsumedFirst(s: string, rest: string, u: string)
    requires |rest| < |s|
    ensures Consumed(s, rest) != "" && (Consumed(s, rest) + u)[0] == s[0]
    ensures (Consumed(s, rest) + u)[1..] == Consumed(s[1..], rest) + u
    ensures s[1..] == Consumed(s[1..], rest) + rest ==> s == Consumed(s, rest) + rest
  {
    assert Consumed(s, rest) == [s[0]] + Consumed(s[1..], rest);
    assert s == [s[0]] + s[1..];
  }

  lemma ConsumedOne(s: string, u: string)
    requires s != ""
    ensures var p := Consumed(s, s[1..]); s == p + s[1..] && (p + u)[0] == s[0] && (p + u)[1..] == u
  {
  }

  /** Two parts consumed one after the other. */
  lemma ConsumedTwice(s: string, middle: string, rest: string, u: string)
    requires |rest| <= |middle| <= |s|
    requires s == Consumed(s, middle) + middle && middle == Consumed(middle, rest) + rest
    ensures s == Consumed(s, rest) + rest
    ensures Consumed(s, rest) + u == Consumed(s, middle) + (Consumed(middle, rest) + u)
  {
    assert s == Consumed(s, middle) + Consumed(middle, rest) + rest;
    assert Consumed(s, rest) == Consumed(s, middle) + Consumed(middle, rest);
  }

  lemma {:induction false} ReadUntilLocal(s: string, stop: char, u: string)
    requires ReadUntil(s, stop).Ok?
    ensures var r := ReadUntil(s, stop);
      s == Consumed(s, r.rest) + r.rest && ReadUntil(Consumed(s, r.rest) + u, stop) == Ok(r.value, u)
  {
    if s[0] == stop {
      ConsumedOne(s, u);
    } else {
      ConsumedFirst(s, ReadUntil(s, stop).rest, u);
      ReadUntilLocal(s[1..], stop, u);
    }
  }

  lemma {:induction false} ParseIntLocal(s: string, u: string)
    requires ParseInt(s).Ok?
    ensures var r := ParseInt(s);
      s == Consumed(s, r.rest) + r.rest && ParseInt(Consumed(s, r.rest) + u) == Ok(r.value, u)
  {
    ReadUntilLocal(s, 'e', u);
  }

  /** A length, then that many bytes. */
  lemma ParseStringStep(first: char, s: string, digits: string, text: string, t: string)
    requires IsDigit(first) && ReadUntil(s, ':') == Ok(digits, text + t)
    requires Scan([first] + digits) == Some(|text|)
    ensures ParseString(first, s) == Ok(text, t)
  {
    assert (text + t)[..|text|] == text && (text + t)[|text|..] == t;
  }

  lemma {:induction false} ParseStringLocal(first: char, s: string, u: string)
    requires IsDigit(first) && ParseString(first, s).Ok?
    ensures var r := ParseString(first, s);
      s == Consumed(s, r.rest) + r.rest && ParseString(first, Consumed(s, r.rest) + u) == Ok(r.value, u)
  {
    var r := ParseString(first, s);
    var text := ReadUntil(s, ':');
    ReadUntilLocal(s, ':', r.value + u);
    assert text.rest == r.value + r.rest;
    ConsumedTwice(s, text.rest, r.rest, u);
    assert Consumed(text.rest, r.rest) == r.value;
    ParseStringStep(first, Consumed(s, r.rest) + u, text.value, r.value, u);
  }

  /** A successful decode depends only on the non-empty prefix it consumes: any continuation gives the same node. */
  lemma {:induction false} DecodeLocal(s: string, u: string)
    requires Decode(s).Ok?
    ensures var r := Decode(s);
      && s == Consumed(s, r.rest) + r.rest && Consumed(s, r.rest) != ""
      && Decode(Consumed(s, r.rest) + u) == Ok(r.value, u)
    decreases |s|, 0
  {
    ConsumedFirst(s, Decode(s).rest, u);
    if s[0] == 'i' {
      ParseIntLocal(s[1..], u);
    } else if IsDigit(s[0]) {
      ParseStringLocal(s[0], s[1..], u);
    } else if s[0] == 'l' {
      ParseItemsLocal(s[1..], u);
    } else {
      ParseEntriesLocal(s[1..], u);
    }
  }

  lemma {:induction false} ParseItemsLocal(s: string, u: string)
    requires ParseItems(s).Ok?
    ensures var r := ParseItems(s);
      s == Consumed(s, r.rest) + r.rest && ParseItems(Consumed(s, r.rest) + u) == Ok(r.value, u)
    decreases |s|, 1
  {
    var r := ParseItems(s);
    if s[0] == 'e' {
      ConsumedOne(s, u);
    } else {
      var item := Decode(s);
      DecodeLocal(s, Consumed(item.rest, r.rest) + u);
      ParseItemsLocal(item.rest, u);
      ConsumedTwice(s, item.rest, r.rest, u);
      ConsumedFirst(s, r.rest, u);
    }
  }

  lemma {:induction false} ParseEntriesLocal(s: string, u: string)
    requires ParseEntries(s).Ok?
    ensures var r := ParseEntries(s);
      s == Consumed(s, r.rest) + r.rest && ParseEntries(Consumed(s, r.rest) + u) == Ok(r.value, u)
    decreases |s|
  {
    var r := ParseEntries(s);
    if s[0] == 'e' {
      ConsumedOne(s, u);
    } else {
      var key := ParseString(s[0], s[1..]);
      var value := Decode(key.rest);
      var tail := Consumed(value.rest, r.rest) + u;
      ParseStringLocal(s[0], s[1..], Consumed(key.rest, value.rest) + tail);
      DecodeLocal(key.rest, tail);
      ParseEntriesLocal(value.rest, u);
      ConsumedTwice(key.rest, value.rest, r.rest, u);
      ConsumedTwice(s[1..], key.rest, r.rest, u);
      ConsumedFirst(s, r.rest, u);
    }
  }

  /** One whole encoding: it decodes and nothing is left. */
  predicate Accepted(s: string) {
    Decode(s).Ok? && Decode(s).rest == ""
  }

  /** No accepted encoding is a proper prefix of another. */
  lemma PrefixFree(s: string, u: string)
    requires Accepted(s) && Accepted(s + u)
    ensures u == ""
  {
    DecodeLocal(s, u);
    assert Consumed(s, "") == s;
  }

  // ----- the canonical encoding -----

  /** What a decoder on 64-bit integers can hold. */
  ghost predicate Fits(n: Node) {
    match n
    case BInt(i) => IsInt64(i)
    case BString(t) => |t| <= INT64_MAX
    case BList(items) => forall i :: 0 <= i < |items| ==> Fits(items[i])
    case BDict(m) => forall k :: k in m ==> |k| <= INT64_MAX && Fits(m[k])
  }

  function EncodeString(t: string): string {
    Decimal(|t|) + ":" + t
  }

  /** The encoding of a node: integers and lengths in shortest form, keys in increasing order of their bytes. */
  ghost function Encode(n: Node): string
    decreases n
  {
    match n
    case BInt(i) => "i" + Format(i) + "e"
    case BString(t) => EncodeString(t)
    case BList(items) => "l" + EncodeItems(items)
    case BDict(m) =>
      SortedLists(m.Keys);
      "d" + EncodeEntries(Sorted(m.Keys), n)
  }

  ghost function EncodeItems(items: seq<Node>): string
    decreases items
  {
    if items == [] then "e" else Encode(items[0]) + EncodeItems(items[1..])
  }

  ghost function EncodeEntries(keys: seq<string>, n: Node): string
    requires n.BDict? && forall k :: k in keys ==> k in n.entries
    decreases n, |keys|
  {
    if keys == [] then "e"
    else EncodeString(keys[0]) + Encode(n.entries[keys[0]]) + EncodeEntries(keys[1..], n)
  }

  /** The entries under the given keys. */
  ghost function EntriesOf(keys: seq<string>, m: map<string, Node>): (pairs: seq<(string, Node)>)
    requires forall k :: k in keys ==> k in m
    ensures |pairs| == |keys|
  {
    if keys == [] then [] else [(keys[0], m[keys[0]])] + EntriesOf(keys[1..], m)
  }

  lemma {:induction false} EntriesAt(keys: seq<string>, m: map<string, Node>, i: nat)
    requires forall k :: k in keys ==> k in m
    requires i < |keys|
    ensures EntriesOf(keys, m)[i] == (keys[i], m[keys[i]])
  {
    if i > 0 {
      EntriesAt(keys[1..], m, i - 1);
    }
  }

  lemma {:induction false} PairKeys(pairs: seq<(string, Node)>, i: nat)
    requires i < |pairs|
    ensures pairs[i].0 in AsMap(pairs)
  {
    if i < |pairs| - 1 {
      PairKeys(pairs[..|pairs| - 1], i);
    }
  }

  lemma AsMapOfEntries(keys: seq<string>, m: map<string, Node>)
    requires forall k :: k in m <==> k in keys
    ensures AsMap(EntriesOf(keys, m)) == m
  {
    var pairs := EntriesOf(keys, m);
    forall k | k in AsMap(pairs)
      ensures k in m && AsMap(pairs)[k] == m[k]
    {
      var i := EntryIsLastPair(pairs, k);
      EntriesAt(keys, m, i);
    }
    forall k | k in m
      ensures k in AsMap(pairs)
    {
      var i :| 0 <= i < |keys| && keys[i] == k;
      EntriesAt(keys, m, i);
      PairKeys(pairs, i);
    }
  }

  // ----- round trips -----

  lemma {:induction false} ReadUntilStop(text: string, stop: char, t: string)
    requires stop !in text
    ensures ReadUntil(text + [stop] + t, stop) == Ok(text, t)
  {
    var s := text + [stop] + t;
    if text == "" {
      assert s[1..] == t;
    } else {
      ReadUntilStop(text[1..], stop, t);
      assert s[1..] == text[1..] + [stop] + t;
      assert [text[0]] + text[1..] == text;
    }
  }

  lemma IntRoundTrip(i: int, t: string)
    ensures Decode(Encode(BInt(i)) + t) == if IsInt64(i) then Ok(BInt(i), t) else Err(t)
  {
    var s := Encode(BInt(i)) + t;
    assert 'e' !in Format(i) by {
      assert Format(i) == [Format(i)[0]] + Format(i)[1..];
    }
    ReadUntilStop(Format(i), 'e', t);
    assert s[1..] == Format(i) + "e" + t;
    ScanFormat(i);
  }

  /** A string is read back from its length, a colon and its bytes. */
  lemma StringRoundTrip(text: string, t: string)
    requires |text| <= INT64_MAX
    ensures var s := EncodeString(text) + t; IsDigit(s[0]) && ParseString(s[0], s[1..]) == Ok(text, t)
  {
    var length := Decimal(|text|);
    var s := EncodeString(text) + t;
    assert s[0] == length[0] && length[0] in length;
    assert forall c :: c in length[1..] ==> IsDigit(c);
    ReadUntilStop(length[1..], ':', text + t);
    assert s[1..] == length[1..] + ":" + (text + t);
    assert [s[0]] + length[1..] == length == Format(|text|);
    ScanFormat(|text|);
    ParseStringStep(s[0], s[1..], length[1..], text, t);
  }

  lemma EncodeStarts(n: Node)
    ensures Encode(n) != "" && Encode(n)[0] != 'e'
  {
    if n.BString? {
      var length := Decimal(|n.text|);
      assert length[0] in length;
    }
  }

  /** A list or a dictionary is its letter and what its own parser reads. */
  lemma TailOf(first: char, body: string, t: string)
    ensures ([first] + body + t)[0] == first && ([first] + body + t)[1..] == body + t
  {
  }

  lemma ListStep(body: string, items: seq<Node>, t: string)
    requires ParseItems(body + t) == Ok(items, t)
    ensures Decode("l" + body + t) == Ok(BList(items), t)
  {
    TailOf('l', body, t);
  }

  lemma DictStep(body: string, pairs: seq<(string, Node)>, t: string)
    requires ParseEntries(body + t) == Ok(pairs, t)
    ensures Decode("d" + body + t) == Ok(BDict(AsMap(pairs)), t)
  {
    TailOf('d', body, t);
  }

  lemma StringStep(text: string, t: string)
    requires |text| <= INT64_MAX
    ensures Decode(EncodeString(text) + t) == Ok(BString(text), t)
  {
    StringRoundTrip(text, t);
  }

  lemma ItemStep(s: string, n: Node, rest: string, items: seq<Node>, t: string)
    requires s != "" && s[0] != 'e' && Decode(s) == Ok(n, rest) && ParseItems(rest) == Ok(items, t)
    ensures ParseItems(s) == Ok([n] + items, t)
  {
  }

  lemma EntryStep(key: string, middle: string, n: Node, rest: string, pairs: seq<(string, Node)>, t: string)
    requires |key| <= INT64_MAX && Decode(middle) == Ok(n, rest) && ParseEntries(rest) == Ok(pairs, t)
    ensures ParseEntries(EncodeString(key) + middle) == Ok([(key, n)] + pairs, t)
  {
    StringRoundTrip(key, middle);
  }

  /** Bencode is self-delimiting: the encoding of a node followed by anything decodes to that node and leaves the
      rest. */
  lemma {:induction false} RoundTrip(n: Node, t: string)
    requires Fits(n)
    ensures Decode(Encode(n) + t) == Ok(n, t)
    decreases n
  {
    match n
    case BInt(i) => IntRoundTrip(i, t);
    case BString(text) => StringStep(text, t);
    case BList(items) =>
      ItemsRoundTrip(items, t);
      ListStep(EncodeItems(items), items, t);
    case BDict(m) =>
      var keys := Sorted(m.Keys);
      SortedLists(m.Keys);
      EntriesRoundTrip(keys, n, t);
      AsMapOfEntries(keys, m);
      DictStep(EncodeEntries(keys, n), EntriesOf(keys, m), t);
  }

  lemma {:induction false} ItemsRoundTrip(items: seq<Node>, t: string)
    requires forall i :: 0 <= i < |items| ==> Fits(items[i])
    ensures ParseItems(EncodeItems(items) + t) == Ok(items, t)
    decreases items
  {
    if items == [] {
      assert ("e" + t)[1..] == t;
    } else {
      var tail := EncodeItems(items[1..]) + t;
      RoundTrip(items[0], tail);
      ItemsRoundTrip(items[1..], t);
      EncodeStarts(items[0]);
      FirstItem(items, t);
      ItemStep(Encode(items[0]) + tail, items[0], tail, items[1..], t);
      assert [items[0]] + items[1..] == items;
    }
  }

  lemma FirstItem(items: seq<Node>, t: string)
    requires items != []
    ensures EncodeItems(items) + t == Encode(items[0]) + (EncodeItems(items[1..]) + t)
  {
  }

  lemma {:induction false} EntriesRoundTrip(keys: seq<string>, n: Node, t: string)
    requires n.BDict? && Fits(n) && forall k :: k in keys ==> k in n.entries
    ensures ParseEntries(EncodeEntries(keys, n) + t) == Ok(EntriesOf(keys, n.entries), t)
    decreases n, |keys|
  {
    if keys == [] {
      assert ("e" + t)[1..] == t;
    } else {
      var value := n.entries[keys[0]];
      var tail := EncodeEntries(keys[1..], n) + t;
      RoundTrip(value, tail);
      EntriesRoundTrip(keys[1..], n, t);
      FirstEntry(keys, n, t);
      EntryStep(keys[0], Encode(value) + tail, value, tail, EntriesOf(keys[1..], n.entries), t);
    }
  }

  lemma FirstEntry(keys: seq<string>, n: Node, t: string)
    requires n.BDict? && keys != [] && forall k :: k in keys ==> k in n.entries
    ensures EncodeEntries(keys, n) + t
         == EncodeString(keys[0]) + (Encode(n.entries[keys[0]]) + (EncodeEntries(keys[1..], n) + t))
  {
  }

  /** Whatever decodes holds 64-bit integers and lengths. */
  lemma {:induction false} DecodedFits(s: string)
    requires Decode(s).Ok?
    ensures Fits(Decode(s).value)
    decreases |s|, 0
  {
    if s[0] == 'l' {
      ParsedItemsFit(s[1..]);
    } else if s[0] == 'd' {
      ParsedEntriesFit(s[1..]);
    } else if IsDigit(s[0]) {
      ParsedStringFits(s[0], s[1..]);
    }
  }

  lemma ParsedStringFits(first: char, s: string)
    requires IsDigit(first) && ParseString(first, s).Ok?
    ensures |ParseString(first, s).value| <= INT64_MAX
  {
  }

  lemma {:induction false} ParsedItemsFit(s: string)
    requires ParseItems(s).Ok?
    ensures forall n :: n in ParseItems(s).value ==> Fits(n)
    decreases |s|, 1
  {
    if s[0] != 'e' {
      DecodedFits(s);
      ParsedItemsFit(Decode(s).rest);
    }
  }

  lemma {:induction false} ParsedEntriesFit(s: string)
    requires ParseEntries(s).Ok?
    ensures forall pair :: pair in ParseEntries(s).value ==> |pair.0| <= INT64_MAX && Fits(pair.1)
    ensures Fits(BDict(AsMap(ParseEntries(s).value)))
    decreases |s|
  {
    if s[0] != 'e' {
      var key := ParseString(s[0], s[1..]);
      ParsedStringFits(s[0], s[1..]);
      DecodedFits(key.rest);
      ParsedEntriesFit(Decode(key.rest).rest);
    }
    AsMapFits(ParseEntries(s).value);
  }

  lemma AsMapFits(pairs: seq<(string, Node)>)
    requires forall pair :: pair in pairs ==> |pair.0| <= INT64_MAX && Fits(pair.1)
    ensures Fits(BDict(AsMap(pairs)))
  {
    forall k | k in AsMap(pairs)
      ensures |k| <= INT64_MAX && Fits(AsMap(pairs)[k])
    {
      var i := EntryIsLastPair(pairs, k);
      assert pairs[i] in pairs;
    }
  }

  /** The round trip holds for exactly the nodes a 64-bit decoder can hold. */
  lemma RoundTripIff(n: Node, t: string)
    ensures Decode(Encode(n) + t) == Ok(n, t) <==> Fits(n)
  {
    if Fits(n) {
      RoundTrip(n, t);
    } else if Decode(Encode(n) + t) == Ok(n, t) {
      DecodedFits(Encode(n) + t);
    }
  }

  /** Canonicalising what was decoded and decoding again changes nothing. */
  lemma DecodeEncodeDecode(s: string, t: string)
    requires Decode(s).Ok?
    ensures Decode(Encode(Decode(s).value) + t) == Ok(Decode(s).value, t)
  {
    DecodedFits(s);
    RoundTrip(Decode(s).value, t);
  }

  /** Followed by anything, encodings of different nodes stay apart. */
  lemma EncodeInjective(a: Node, b: Node, t: string, u: string)
    requires Fits(a) && Fits(b)
    requires Encode(a) + t == Encode(b) + u
    ensures a == b && t == u
  {
    RoundTrip(a, t);
    RoundTrip(b, u);
  }
}
