/** The info dictionary code of meta/torrent.go as it runs: the printer that grows a buffer, proved to print the
    canonical encoding of the info's node, and the parsers, proved to compute what their specifications say. */
module Torrents {
  import opened Bencode
  import opened ByteOrder
  import opened Bytes
  import opened Decimals
  import opened InfoDicts

  // ----- encodings still without their closing `e`, as a growing buffer holds them -----

  ghost function OpenList(items: seq<Node>): string {
    if items == [] then "l" else OpenList(items[..|items| - 1]) + Encode(items[|items| - 1])
  }

  ghost function OpenDict(keys: seq<string>, n: Node): string
    requires n.BDict? && forall k :: k in keys ==> k in n.entries
  {
    if keys == [] then "d"
    else
      var last := |keys| - 1;
      OpenDict(keys[..last], n) + EncodeString(keys[last]) + Encode(n.entries[keys[last]])
  }

  lemma Reassociate(w: string, x: string, y: string, z: string)
    ensures w + x + y + z == w + (x + y + z)
  {
  }

  lemma OpenListPush(items: seq<Node>, item: Node)
    ensures OpenList(items + [item]) == OpenList(items) + Encode(item)
  {
    assert (items + [item])[..|items|] == items;
  }

  lemma {:induction false} CloseList(a: seq<Node>, b: seq<Node>)
    ensures OpenList(a + b) + "e" == OpenList(a) + EncodeItems(b)
    decreases |b|
  {
    if b == [] {
      assert a + b == a;
    } else {
      calc {
        OpenList(a + b) + "e";
        { assert a + [b[0]] + b[1..] == a + b; }
        OpenList(a + [b[0]] + b[1..]) + "e";
        { CloseList(a + [b[0]], b[1..]); }
        OpenList(a + [b[0]]) + EncodeItems(b[1..]);
        { OpenListPush(a, b[0]); }
        OpenList(a) + Encode(b[0]) + EncodeItems(b[1..]);
        { Reassociate(OpenList(a), Encode(b[0]), EncodeItems(b[1..]), ""); }
        OpenList(a) + EncodeItems(b);
      }
    }
  }

  lemma ListClosed(items: seq<Node>)
    ensures OpenList(items) + "e" == Encode(BList(items))
  {
    CloseList([], items);
    assert [] + items == items;
  }

  lemma KeyWritten(keys: seq<string>, key: string, n: Node)
    requires n.BDict? && key in n.entries && forall k :: k in keys ==> k in n.entries
    ensures OpenDict(keys + [key], n) == OpenDict(keys, n) + EncodeString(key) + Encode(n.entries[key])
  {
    assert (keys + [key])[..|keys|] == keys;
  }

  lemma FirstEntryText(keys: seq<string>, n: Node)
    requires n.BDict? && keys != [] && forall k :: k in keys ==> k in n.entries
    ensures EncodeEntries(keys, n) == EncodeString(keys[0]) + Encode(n.entries[keys[0]]) + EncodeEntries(keys[1..], n)
  {
  }

  lemma MoveKey(a: seq<string>, key: string, rest: seq<string>, n: Node)
    requires n.BDict? && key in n.entries && forall k :: k in a || k in rest ==> k in n.entries
    ensures OpenDict(a + [key], n) + EncodeEntries(rest, n) == OpenDict(a, n) + EncodeEntries([key] + rest, n)
  {
    KeyWritten(a, key, n);
    FirstEntryText([key] + rest, n);
    assert ([key] + rest)[1..] == rest;
    Reassociate(OpenDict(a, n), EncodeString(key), Encode(n.entries[key]), EncodeEntries(rest, n));
  }

  ghost predicate Within(keys: seq<string>, n: Node) {
    n.BDict? && forall k :: k in keys ==> k in n.entries
  }

  lemma WithinParts(a: seq<string>, key: string, rest: seq<string>, n: Node)
    requires Within(a, n) && Within([key] + rest, n)
    ensures key in n.entries && Within(rest, n) && Within(a + [key], n) && Within(a + [key] + rest, n)
  {
    assert ([key] + rest)[0] == key;
  }

  lemma {:induction false} CloseDict(a: seq<string>, b: seq<string>, n: Node)
    requires Within(a, n) && Within(b, n)
    ensures Within(a + b, n) && OpenDict(a + b, n) + "e" == OpenDict(a, n) + EncodeEntries(b, n)
    decreases |b|
  {
    if b == [] {
      assert a + b == a;
    } else {
      var key, rest := b[0], b[1..];
      assert [key] + rest == b && a + [key] + rest == a + b;
      WithinParts(a, key, rest, n);
      CloseDict(a + [key], rest, n);
      MoveKey(a, key, rest, n);
    }
  }

  lemma DictClosed(keys: seq<string>, n: Node)
    requires n.BDict? && keys == Sorted(n.entries.Keys) && forall k :: k in keys ==> k in n.entries
    ensures OpenDict(keys, n) + "e" == Encode(n)
  {
    CloseDict([], keys, n);
    assert [] + keys == keys;
  }

  lemma ItemWritten(items: seq<Node>, i: nat)
    requires i < |items|
    ensures OpenList(items[..i + 1]) == OpenList(items[..i]) + Encode(items[i])
  {
    assert items[..i] + [items[i]] == items[..i + 1];
    OpenListPush(items[..i], items[i]);
  }

  // ----- the printer -----

  function EncodeInt(i: int): string {
    "i" + Format(i) + "e"
  }

  lemma FileWritten(f: FileInfo, path: string)
    requires path == Encode(BList(Strings(f.path)))
    ensures "d" + EncodeString("length") + EncodeInt(f.length) + EncodeString("path") + path + "e"
         == Encode(FileNode(f))
  {
    var n := FileNode(f);
    FileKeysSorted(f);
    KeyWritten([], "length", n);
    KeyWritten(["length"], "path", n);
    assert [] + ["length"] == ["length"];
    DictClosed(["length", "path"], n);
  }

  /** The list of the files. */
  method EncodeFiles(files: seq<FileInfo>) returns (text: string)
    ensures text == Encode(BList(FileNodes(files)))
  {
    text := "l";
    ghost var nodes := FileNodes(files);
    for i := 0 to |files|
      invariant text == OpenList(nodes[..i])
    {
      var path := "l";
      ghost var names := Strings(files[i].path);
      for j := 0 to |files[i].path|
        invariant path == OpenList(names[..j])
      {
        path := path + EncodeString(files[i].path[j]);
        ItemWritten(names, j);
      }
      assert names[..|names|] == names;
      ListClosed(names);
      path := path + "e";
      FileWritten(files[i], path);
      text := text + ("d" + EncodeString("length") + EncodeInt(files[i].length) + EncodeString("path") + path + "e");
      ItemWritten(nodes, i);
    }
    assert nodes[..|nodes|] == nodes;
    ListClosed(nodes);
    text := text + "e";
  }

  method WriteInt(buf: string, key: string, i: int, ghost keys: seq<string>, ghost n: Node) returns (out: string)
    requires n.BDict? && (forall k :: k in keys ==> k in n.entries) && buf == OpenDict(keys, n)
    requires key in n.entries && n.entries[key] == BInt(i)
    ensures (forall k :: k in keys + [key] ==> k in n.entries) && out == OpenDict(keys + [key], n)
  {
    out := buf + EncodeString(key);
    out := out + EncodeInt(i);
    KeyWritten(keys, key, n);
  }

  method WriteString(buf: string, key: string, t: string, ghost keys: seq<string>, ghost n: Node) returns (out: string)
    requires n.BDict? && (forall k :: k in keys ==> k in n.entries) && buf == OpenDict(keys, n)
    requires key in n.entries && n.entries[key] == BString(t)
    ensures (forall k :: k in keys + [key] ==> k in n.entries) && out == OpenDict(keys + [key], n)
  {
    out := buf + EncodeString(key);
    out := out + EncodeString(t);
    KeyWritten(keys, key, n);
  }

  /** The files and the length, when there are any. */
  method EncodeShape(info: InfoDict, ghost n: Node) returns (buf: string)
    requires n.BDict? && Describes(n.entries, info)
    ensures (forall k :: k in ShapeKeys(info) ==> k in n.entries) && buf == OpenDict(ShapeKeys(info), n)
  {
    ghost var keys: seq<string> := [];
    buf := "d";
    if |info.files| > 0 {
      var files := EncodeFiles(info.files);
      buf := buf + EncodeString("files") + files;
      KeyWritten(keys, "files", n);
      keys := keys + ["files"];
    }
    if info.length > 0 {
      buf := WriteInt(buf, "length", info.length, keys, n);
      keys := keys + ["length"];
    }
    assert keys == ShapeKeys(info);
  }

  /** The fields that are always there. */
  method EncodeRequired(info: InfoDict, start: string, ghost keys: seq<string>, ghost n: Node) returns (buf: string)
    requires n.BDict? && Describes(n.entries, info)
    requires (forall k :: k in keys ==> k in n.entries) && start == OpenDict(keys, n)
    ensures forall k :: k in keys + ["name", "piece length", "pieces"] ==> k in n.entries
    ensures buf == OpenDict(keys + ["name", "piece length", "pieces"], n)
  {
    buf := WriteString(start, "name", info.name, keys, n);
    buf := WriteInt(buf, "piece length", info.pieceLength, keys + ["name"], n);
    buf := WriteString(buf, "pieces", info.pieces, keys + ["name"] + ["piece length"], n);
    assert keys + ["name"] + ["piece length"] + ["pieces"] == keys + ["name", "piece length", "pieces"];
  }

  /** All fields in the order of their keys; empty files and a length or private flag that is not positive are left
      out. */
  method EncodeFields(info: InfoDict, ghost n: Node) returns (buf: string)
    requires n.BDict? && Describes(n.entries, info)
    ensures (forall k :: k in InfoKeys(info) ==> k in n.entries) && buf == OpenDict(InfoKeys(info), n)
  {
    buf := EncodeShape(info, n);
    buf := EncodeRequired(info, buf, ShapeKeys(info), n);
    ghost var keys := ShapeKeys(info) + ["name", "piece length", "pieces"];
    if info.private > 0 {
      buf := WriteInt(buf, "private", info.private, keys, n);
      keys := keys + ["private"];
    }
    assert keys == InfoKeys(info);
  }

  /** The printer writes the canonical encoding. */
  method EncodeInfoDict(info: InfoDict) returns (buf: string)
    ensures buf == Encode(InfoNode(info))
  {
    NodeDescribes(info);
    InfoKeysSorted(info);
    buf := EncodeFields(info, InfoNode(info));
    DictClosed(InfoKeys(info), InfoNode(info));
    buf := buf + "e";
  }

  /** The bytes printed for the smallest single-file info, as BEP 3 writes them. */
  lemma PrintedExample()
    ensures Encode(InfoNode(InfoDict("a", 1, [], 1, "", 0)))
         == "d" + "6:length" + "i1e" + "4:name" + "1:a" + "12:piece length" + "i1e" + "6:pieces" + "0:" + "e"
  {
    var info := InfoDict("a", 1, [], 1, "", 0);
    NodeDescribes(info);
    InfoKeysSorted(info);
    var keys := ["length", "name", "piece length", "pieces"];
    SmallInfoKeys(info);
    EncodedByKeys(keys, InfoNode(info));
    PrintedFields(InfoNode(info), info);
  }

  lemma SmallInfoKeys(info: InfoDict)
    requires info == InfoDict("a", 1, [], 1, "", 0)
    ensures InfoKeys(info) == ["length", "name", "piece length", "pieces"]
  {
  }

  lemma EncodedByKeys(keys: seq<string>, n: Node)
    requires n.BDict? && keys == Sorted(n.entries.Keys) && forall k :: k in keys ==> k in n.entries
    ensures Encode(n) == "d" + EncodeEntries(keys, n)
  {
  }

  lemma PrintedFields(n: Node, info: InfoDict)
    requires n.BDict? && Describes(n.entries, info) && info == InfoDict("a", 1, [], 1, "", 0)
    ensures "d" + EncodeEntries(["length", "name", "piece length", "pieces"], n)
         == "d" + "6:length" + "i1e" + "4:name" + "1:a" + "12:piece length" + "i1e" + "6:pieces" + "0:" + "e"
  {
    FieldTexts();
    FirstKeyText("pieces", [], n);
    FirstKeyText("piece length", ["pieces"], n);
    FirstKeyText("name", ["piece length", "pieces"], n);
    FirstKeyText("length", ["name", "piece length", "pieces"], n);
    assert ["length"] + ["name", "piece length", "pieces"] == ["length", "name", "piece length", "pieces"];
    assert ["name"] + ["piece length", "pieces"] == ["name", "piece length", "pieces"];
    assert ["piece length"] + ["pieces"] == ["piece length", "pieces"] && ["pieces"] + [] == ["pieces"];
    Nested("6:length", "i1e", "4:name", "1:a", "12:piece length", "i1e", "6:pieces", "0:");
  }

  lemma FirstKeyText(key: string, rest: seq<string>, n: Node)
    requires n.BDict? && key in n.entries && forall k :: k in rest ==> k in n.entries
    ensures EncodeEntries([key] + rest, n)
         == EncodeString(key) + Encode(n.entries[key]) + EncodeEntries(rest, n)
  {
    FirstEntryText([key] + rest, n);
    assert ([key] + rest)[1..] == rest;
  }

  lemma Nested(a: string, b: string, c: string, d: string, e: string, f: string, g: string, h: string)
    ensures "d" + (a + b + (c + d + (e + f + (g + h + "e")))) == "d" + a + b + c + d + e + f + g + h + "e"
  {
  }

  lemma FieldTexts()
    ensures EncodeString("length") == "6:length" && EncodeString("name") == "4:name" && EncodeString("a") == "1:a"
    ensures EncodeString("piece length") == "12:piece length" && EncodeString("pieces") == "6:pieces"
    ensures EncodeString("") == "0:" && EncodeInt(1) == "i1e"
    ensures Encode(BInt(1)) == "i1e" && Encode(BString("a")) == "1:a" && Encode(BString("")) == "0:"
  {
    SmallNumerals();
  }

  lemma SmallNumerals()
    ensures Decimal(0) == "0" && Decimal(1) == "1" && Decimal(4) == "4" && Decimal(6) == "6" && Decimal(12) == "12"
  {
    assert Decimal(12) == Decimal(1) + [Digit(2)];
  }

  method CalculateInfoHash<H>(info: InfoDict, sha1: string -> H) returns (hash: H)
    ensures hash == sha1(Encode(InfoNode(info)))
  {
    var encoded := EncodeInfoDict(info);
    hash := sha1(encoded);
  }

  // ----- the parsers -----

  /** The target keeps its value when the key is absent or holds something else. */
  method ParseOptionalInt(dict: map<string, Node>, key: string, target: int) returns (updated: int)
    ensures updated == OptionalInt(dict, key, target)
  {
    updated := target;
    if key in dict {
      if dict[key].BInt? {
        updated := dict[key].value;
      }
    }
  }

  /** One bad element makes the whole list bad. */
  lemma {:induction false} StringsFail(nodes: seq<Node>, j: nat)
    requires j < |nodes| && !nodes[j].BString?
    ensures StringsOf(nodes) == None
  {
    if j < |nodes| - 1 {
      StringsFail(nodes[..|nodes| - 1], j);
    }
  }

  lemma {:induction false} FilesFail(nodes: seq<Node>, i: nat)
    requires i < |nodes| && FileOf(nodes[i]) == None
    ensures FilesOf(nodes) == None
  {
    if i < |nodes| - 1 {
      FilesFail(nodes[..|nodes| - 1], i);
    }
  }

  method ParsePath(pathList: seq<Node>) returns (r: Option<seq<string>>)
    ensures r == StringsOf(pathList)
  {
    var path := new string[|pathList|];
    for j := 0 to |pathList|
      invariant StringsOf(pathList[..j]) == Some(path[..j])
    {
      if !pathList[j].BString? {
        StringsFail(pathList, j);
        return None;
      }
      path[j] := pathList[j].text;
      assert pathList[..j + 1][..j] == pathList[..j];
      assert path[..j + 1] == path[..j] + [pathList[j].text];
    }
    assert pathList[..|pathList|] == pathList;
    r := Some(path[..]);
    assert path[..] == path[..|pathList|];
  }

  method ParseFile(node: Node) returns (r: Option<FileInfo>)
    ensures r == FileOf(node)
  {
    if !node.BDict? {
      return None;
    }
    var file := FileInfo(0, []);
    if "length" !in node.entries || !node.entries["length"].BInt? {
      return None;
    }
    file := file.(length := node.entries["length"].value);
    if "path" !in node.entries || !node.entries["path"].BList? {
      return None;
    }
    var path := ParsePath(node.entries["path"].items);
    if path.None? {
      return None;
    }
    r := Some(file.(path := path.value));
  }

  method ParseFileList(filesList: seq<Node>) returns (r: Option<seq<FileInfo>>)
    ensures r == FilesOf(filesList)
  {
    var files := new FileInfo[|filesList|];
    for i := 0 to |filesList|
      invariant FilesOf(filesList[..i]) == Some(files[..i])
    {
      var file := ParseFile(filesList[i]);
      if file.None? {
        FilesFail(filesList, i);
        return None;
      }
      files[i] := file.value;
      assert filesList[..i + 1][..i] == filesList[..i];
      assert files[..i + 1] == files[..i] + [file.value];
    }
    assert filesList[..|filesList|] == filesList;
    r := Some(files[..]);
    assert files[..] == files[..|filesList|];
  }

  method ParseInfoDict(dict: map<string, Node>) returns (r: Option<InfoDict>)
    ensures r == InfoOf(dict)
  {
    var info := InfoDict("", 0, [], 0, "", 0);
    if "name" !in dict || !dict["name"].BString? {
      return None;
    }
    info := info.(name := dict["name"].text);
    if "piece length" !in dict || !dict["piece length"].BInt? {
      return None;
    }
    info := info.(pieceLength := dict["piece length"].value);
    if "pieces" !in dict || !dict["pieces"].BString? {
      return None;
    }
    info := info.(pieces := dict["pieces"].text);
    if "length" in dict {
      if !dict["length"].BInt? {
        return None;
      }
      info := info.(length := dict["length"].value);
    } else if "files" in dict {
      if !dict["files"].BList? {
        return None;
      }
      var files := ParseFileList(dict["files"].items);
      if files.None? {
        return None;
      }
      info := info.(files := files.value);
    } else {
      return None;
    }
    var private := ParseOptionalInt(dict, "private", info.private);
    info := info.(private := private);
    r := Some(info);
  }
}
