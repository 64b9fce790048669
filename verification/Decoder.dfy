/** The decoder of meta/bencode.go as it runs: methods that consume a reader, each proved to compute the parser
    function of the same name and to leave in the reader exactly what that function leaves unread. */
module Decoders {
  import Spec = Bencode
  import opened Bytes
  import opened Decimals

  type Node = Spec.Node

  function ValueOf<T>(r: Spec.Result<T>): Option<T> {
    if r.Ok? then Some(r.value) else None
  }

  /** Items parsed in front of what remains to be parsed. */
  ghost function After<T>(done: seq<T>, r: Spec.Result<seq<T>>): Spec.Result<seq<T>> {
    if r.Ok? then Spec.Ok(done + r.value, r.rest) else r
  }

  lemma AfterNothing<T>(r: Spec.Result<seq<T>>)
    ensures After([], r) == r
  {
    assert r.Ok? ==> [] + r.value == r.value;
  }

  lemma AfterEnd<T>(done: seq<T>, rest: string)
    ensures After(done, Spec.Ok([], rest)) == Spec.Ok(done, rest)
  {
    assert done + [] == done;
  }

  lemma AfterOne<T>(done: seq<T>, x: T, r: Spec.Result<seq<T>>)
    ensures After(done, if r.Ok? then Spec.Ok([x] + r.value, r.rest) else r) == After(done + [x], r)
  {
    assert r.Ok? ==> done + ([x] + r.value) == done + [x] + r.value;
  }

  lemma ItemsNext(done: seq<Node>, s: string)
    requires s != ""
    ensures s[0] == 'e' ==> After(done, Spec.ParseItems(s)) == Spec.Ok(done, s[1..])
    ensures var item := Spec.Decode(s);
      s[0] != 'e' && item.Ok? ==>
        After(done, Spec.ParseItems(s)) == After(done + [item.value], Spec.ParseItems(item.rest))
  {
    AfterEnd(done, s[1..]);
    var item := Spec.Decode(s);
    if item.Ok? {
      AfterOne(done, item.value, Spec.ParseItems(item.rest));
    }
  }

  lemma EntriesEnd(done: seq<(string, Node)>, s: string)
    requires s != "" && s[0] == 'e'
    ensures After(done, Spec.ParseEntries(s)) == Spec.Ok(done, s[1..])
  {
    AfterEnd(done, s[1..]);
  }

  lemma EntriesNext(done: seq<(string, Node)>, s: string, key: string, middle: string, value: Node, rest: string)
    requires s != "" && IsDigit(s[0]) && Spec.ParseString(s[0], s[1..]) == Spec.Ok(key, middle)
    requires Spec.Decode(middle) == Spec.Ok(value, rest)
    ensures After(done, Spec.ParseEntries(s)) == After(done + [(key, value)], Spec.ParseEntries(rest))
  {
    AfterOne(done, (key, value), Spec.ParseEntries(rest));
  }

  class Decoder {
    var r: string

    constructor (input: string)
      ensures r == input
    {
      r := input;
    }

    /** One byte, or nothing at the end of the input. */
    method ReadByte() returns (b: Option<char>)
      modifies this
      ensures old(r) == "" ==> b == None && r == ""
      ensures old(r) != "" ==> b == Some(old(r)[0]) && r == old(r)[1..]
    {
      if r == "" {
        return None;
      }
      b, r := Some(r[0]), r[1..];
    }

    /** `n` bytes, or nothing when the input ends before. */
    method ReadFull(n: nat) returns (content: Option<string>)
      modifies this
      ensures n <= |old(r)| ==> content == Some(old(r)[..n]) && r == old(r)[n..]
      ensures n > |old(r)| ==> content == None && r == ""
    {
      if n <= |r| {
        content, r := Some(r[..n]), r[n..];
      } else {
        content, r := None, "";
      }
    }

    method ReadUntil(prefix: string, stop: char) returns (text: Option<string>)
      modifies this
      ensures var res := Spec.ReadUntil(old(r), stop);
        r == res.rest && text == if res.Ok? then Some(prefix + res.value) else None
    {
      var collected := prefix;
      while true
        invariant |r| <= |old(r)|
        invariant var now, all := Spec.ReadUntil(r, stop), Spec.ReadUntil(old(r), stop);
          now.rest == all.rest && now.Ok? == all.Ok? && (now.Ok? ==> collected + now.value == prefix + all.value)
        decreases |r|
      {
        var b := ReadByte();
        if b.None? {
          return None;
        }
        if b.value == stop {
          break;
        }
        collected := collected + [b.value];
      }
      assert collected + "" == collected;
      text := Some(collected);
    }

    method ParseInt() returns (i: Option<int>)
      modifies this
      ensures r == Spec.ParseInt(old(r)).rest && i == ValueOf(Spec.ParseInt(old(r)))
    {
      var text := ReadUntil("", 'e');
      if text.None? {
        return None;
      }
      assert text.value == Spec.ReadUntil(old(r), 'e').value;
      i := Scan(text.value);
    }

    method ParseString(first: char) returns (s: Option<string>)
      requires IsDigit(first)
      modifies this
      ensures r == Spec.ParseString(first, old(r)).rest && s == ValueOf(Spec.ParseString(first, old(r)))
    {
      var text := ReadUntil([first], ':');
      if text.None? {
        return None;
      }
      var length := Scan(text.value);
      if length.None? {
        return None;
      }
      ScanUnsigned(text.value);
      s := ReadFull(length.value);
    }

    method Decode() returns (n: Option<Node>)
      modifies this
      ensures r == Spec.Decode(old(r)).rest && n == ValueOf(Spec.Decode(old(r)))
      decreases |r|, 0
    {
      var b := ReadByte();
      if b.None? {
        return None;
      }
      if b.value == 'i' {
        var i := ParseInt();
        n := if i.Some? then Some(Spec.BInt(i.value)) else None;
      } else if IsDigit(b.value) {
        var s := ParseString(b.value);
        n := if s.Some? then Some(Spec.BString(s.value)) else None;
      } else if b.value == 'l' {
        n := ParseList();
      } else if b.value == 'd' {
        n := ParseDict();
      } else {
        n := None;
      }
    }

    /** The loop repeats the dispatch of Decode on the byte it has read. */
    method ParseList() returns (n: Option<Node>)
      modifies this
      ensures var res := Spec.ParseItems(old(r));
        r == res.rest && n == if res.Ok? then Some(Spec.BList(res.value)) else None
      decreases |r|, 1
    {
      var list: seq<Node> := [];
      AfterNothing(Spec.ParseItems(r));
      while true
        invariant |r| <= |old(r)|
        invariant After(list, Spec.ParseItems(r)) == Spec.ParseItems(old(r))
        decreases |r|
      {
        ghost var before := r;
        var b := ReadByte();
        if b.None? {
          return None;
        }
        ItemsNext(list, before);
        if b.value == 'e' {
          break;
        }
        var val: Option<Node>;
        if b.value == 'i' {
          var i := ParseInt();
          val := if i.Some? then Some(Spec.BInt(i.value)) else None;
        } else if IsDigit(b.value) {
          var s := ParseString(b.value);
          val := if s.Some? then Some(Spec.BString(s.value)) else None;
        } else if b.value == 'l' {
          val := ParseList();
        } else if b.value == 'd' {
          val := ParseDict();
        } else {
          return None;
        }
        assert r == Spec.Decode(before).rest && val == ValueOf(Spec.Decode(before));
        if val.None? {
          return None;
        }
        list := list + [val.value];
      }
      n := Some(Spec.BList(list));
    }

    method ParseDict() returns (n: Option<Node>)
      modifies this
      ensures var res := Spec.ParseEntries(old(r));
        r == res.rest && n == if res.Ok? then Some(Spec.BDict(Spec.AsMap(res.value))) else None
      decreases |r|, 1
    {
      var dict: map<string, Node> := map[];
      ghost var pairs := [];
      AfterNothing(Spec.ParseEntries(r));
      while true
        invariant |r| <= |old(r)|
        invariant dict == Spec.AsMap(pairs)
        invariant After(pairs, Spec.ParseEntries(r)) == Spec.ParseEntries(old(r))
        decreases |r|
      {
        ghost var before := r;
        var b := ReadByte();
        if b.None? {
          return None;
        }
        if b.value == 'e' {
          EntriesEnd(pairs, before);
          break;
        }
        if !IsDigit(b.value) {
          return None;
        }
        var key := ParseString(b.value);
        if key.None? {
          return None;
        }
        ghost var middle := r;
        var value := Decode();
        if value.None? {
          return None;
        }
        EntriesNext(pairs, before, key.value, middle, value.value, r);
        dict := dict[key.value := value.value];
        pairs := pairs + [(key.value, value.value)];
      }
      n := Some(Spec.BDict(dict));
    }
  }
}
