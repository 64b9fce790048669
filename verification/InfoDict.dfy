/** The info dictionary of BEP 3 (section "info dictionary"): the values of meta/torrent.go, the bencode node that
    stands for one, and what parsing a node gives. */
module InfoDicts {
  import opened Bencode
  import opened ByteOrder
  import opened Bytes
  import opened Decimals

  datatype FileInfo = FileInfo(length: int, path: seq<string>)

  datatype InfoDict = InfoDict(
    name: string,
    length: int,
    files: seq<FileInfo>,
    pieceLength: int,
    pieces: string,
    private: int)

  predicate FileInRange(f: FileInfo) {
    IsInt64(f.length) && forall c :: c in f.path ==> |c| <= INT64_MAX
  }

  /** The values Go's 64-bit fields and string lengths can take. */
  predicate InRange(info: InfoDict) {
    && IsInt64(info.length) && IsInt64(info.pieceLength) && IsInt64(info.private)
    && |info.name| <= INT64_MAX && |info.pieces| <= INT64_MAX
    && forall f :: f in info.files ==> FileInRange(f)
  }

  // ----- the node that is encoded -----

  function Strings(path: seq<string>): (nodes: seq<Node>)
    ensures |nodes| == |path| && forall i :: 0 <= i < |path| ==> nodes[i] == BString(path[i])
  {
    seq(|path|, i requires 0 <= i < |path| => BString(path[i]))
  }

  function FileNode(f: FileInfo): Node {
    BDict(map["length" := BInt(f.length), "path" := BList(Strings(f.path))])
  }

  function FileNodes(files: seq<FileInfo>): (nodes: seq<Node>)
    ensures |nodes| == |files| && forall i :: 0 <= i < |files| ==> nodes[i] == FileNode(files[i])
  {
    seq(|files|, i requires 0 <= i < |files| => FileNode(files[i]))
  }

  /** The keys that tell a single file from several. */
  function ShapeKeys(info: InfoDict): seq<string> {
    (if info.files != [] then ["files"] else []) +
    (if info.length > 0 then ["length"] else [])
  }

  /** The keys that are written, in the order they are written. */
  function InfoKeys(info: InfoDict): seq<string> {
    ShapeKeys(info) +
    ["name", "piece length", "pieces"] +
    (if info.private > 0 then ["private"] else [])
  }

  function InfoNode(info: InfoDict): (n: Node)
    ensures n.BDict?
  {
    BDict((if info.files != [] then map["files" := BList(FileNodes(info.files))] else map[]) +
          (if info.length > 0 then map["length" := BInt(info.length)] else map[]) +
          map["name" := BString(info.name),
              "piece length" := BInt(info.pieceLength),
              "pieces" := BString(info.pieces)] +
          (if info.private > 0 then map["private" := BInt(info.private)] else map[]))
  }

  /** The fields a dictionary holds are those of the info. */
  ghost predicate Describes(dict: map<string, Node>, info: InfoDict) {
    && ("files" in dict <==> info.files != [])
    && ("files" in dict ==> dict["files"] == BList(FileNodes(info.files)))
    && ("length" in dict <==> info.length > 0)
    && ("length" in dict ==> dict["length"] == BInt(info.length))
    && "name" in dict && dict["name"] == BString(info.name)
    && "piece length" in dict && dict["piece length"] == BInt(info.pieceLength)
    && "pieces" in dict && dict["pieces"] == BString(info.pieces)
    && ("private" in dict <==> info.private > 0)
    && ("private" in dict ==> dict["private"] == BInt(info.private))
  }

  lemma KeysDiffer()
    ensures "files" != "length" && "files" != "name" && "files" != "piece length"
    ensures "files" != "pieces" && "files" != "private"
    ensures "length" != "name" && "length" != "piece length" && "length" != "pieces" && "length" != "private"
    ensures "name" != "piece length" && "name" != "pieces" && "name" != "private"
    ensures "piece length" != "pieces" && "piece length" != "private" && "pieces" != "private"
  {
    assert "length"[0] != "pieces"[0];
    assert "pieces"[1] != "private"[1];
  }

  lemma NodeDescribes(info: InfoDict)
    ensures Describes(InfoNode(info).entries, info)
    ensures forall key :: key in InfoNode(info).entries <==> key in InfoKeys(info)
  {
    KeysDiffer();
  }

  lemma KeysKnown(info: InfoDict)
    ensures forall key :: key in InfoNode(info).entries ==> key in KEYS
  {
    forall key | key in InfoNode(info).entries
      ensures key in KEYS
    {
      assert KEYS[0] == "files" && KEYS[1] == "length" && KEYS[2] == "name";
      assert KEYS[3] == "piece length" && KEYS[4] == "pieces" && KEYS[5] == "private";
    }
  }

  // ----- the keys come in canonical order -----

  lemma {:induction false} BeforeAfterPrefix(p: string, a: string, b: string)
    requires b != "" && (a == "" || a[0] < b[0])
    ensures Before(p + a, p + b)
  {
    if p == "" {
      assert p + a == a && p + b == b;
    } else {
      assert (p + a)[1..] == p[1..] + a && (p + b)[1..] == p[1..] + b;
      BeforeAfterPrefix(p[1..], a, b);
    }
  }

  /** The six keys of an info dictionary, in increasing order. */
  const KEYS: seq<string> := ["files", "length", "name", "piece length", "pieces", "private"]

  lemma PieceKeysIncrease()
    ensures Before("piece length", "pieces") && Before("piece length", "private") && Before("pieces", "private")
  {
    BeforeAfterPrefix("piece", " length", "s");
    BeforeAfterPrefix("p", "iece length", "rivate");
    BeforeAfterPrefix("p", "ieces", "rivate");
    assert "piece" + " length" == "piece length" == "p" + "iece length";
    assert "piece" + "s" == "pieces" == "p" + "ieces";
    assert "p" + "rivate" == "private";
  }

  lemma KeysIncrease()
    ensures Increasing(KEYS)
  {
    PieceKeysIncrease();
    forall i, j | 0 <= i < j < 6
      ensures Before(KEYS[i], KEYS[j])
    {
      if i < 3 {
        assert KEYS[i][0] < KEYS[j][0];
      }
    }
  }

  /** Where the i-th key that is written stands among the six. */
  function KeyIndex(info: InfoDict, i: nat): (k: nat)
    requires i < |InfoKeys(info)|
    ensures k < 6 && KEYS[k] == InfoKeys(info)[i]
  {
    i + (if info.files == [] then 1 else 0) + (if info.length <= 0 && (info.files == [] || i > 0) then 1 else 0)
  }

  /** Whatever fields are present, the keys are written strictly increasing, as BEP 3 asks of dictionaries. */
  lemma InfoKeysSorted(info: InfoDict)
    ensures Increasing(InfoKeys(info))
    ensures InfoKeys(info) == Sorted(InfoNode(info).entries.Keys)
  {
    KeysIncrease();
    var keys := InfoKeys(info);
    forall i, j | 0 <= i < j < |keys|
      ensures Before(keys[i], keys[j])
    {
      assert KeyIndex(info, i) < KeyIndex(info, j);
      assert Before(KEYS[KeyIndex(info, i)], KEYS[KeyIndex(info, j)]);
    }
    NodeDescribes(info);
    SortedUnique(InfoNode(info).entries.Keys, keys);
  }

  lemma FileKeysSorted(f: FileInfo)
    ensures ["length", "path"] == Sorted(FileNode(f).entries.Keys)
  {
    assert "length"[0] < "path"[0];
    SortedUnique(FileNode(f).entries.Keys, ["length", "path"]);
  }

  // ----- the node that is parsed -----

  function StringsOf(nodes: seq<Node>): (r: Option<seq<string>>)
    ensures r.Some? ==> |r.value| == |nodes|
  {
    if nodes == [] then Some([])
    else
      var last := |nodes| - 1;
      var init := StringsOf(nodes[..last]);
      if init.Some? && nodes[last].BString? then Some(init.value + [nodes[last].text]) else None
  }

  function FileOf(n: Node): Option<FileInfo> {
    if n.BDict? && "length" in n.entries && n.entries["length"].BInt?
       && "path" in n.entries && n.entries["path"].BList? && StringsOf(n.entries["path"].items).Some?
    then Some(FileInfo(n.entries["length"].value, StringsOf(n.entries["path"].items).value))
    else None
  }

  function FilesOf(nodes: seq<Node>): (r: Option<seq<FileInfo>>)
    ensures r.Some? ==> |r.value| == |nodes|
  {
    if nodes == [] then Some([])
    else
      var last := |nodes| - 1;
      var init := FilesOf(nodes[..last]);
      if init.Some? && FileOf(nodes[last]).Some? then Some(init.value + [FileOf(nodes[last]).value]) else None
  }

  /** An integer if there is one under the key; any other node is passed over. */
  function OptionalInt(dict: map<string, Node>, key: string, otherwise: int): int {
    if key in dict && dict[key].BInt? then dict[key].value else otherwise
  }

  predicate HasRequired(dict: map<string, Node>) {
    && "name" in dict && dict["name"].BString?
    && "piece length" in dict && dict["piece length"].BInt?
    && "pieces" in dict && dict["pieces"].BString?
  }

  /** The length, when there is one, hides the files. */
  function InfoOf(dict: map<string, Node>): Option<InfoDict> {
    if !HasRequired(dict) then None
    else
      var info := InfoDict(dict["name"].text, 0, [], dict["piece length"].value, dict["pieces"].text,
                           OptionalInt(dict, "private", 0));
      if "length" in dict then
        if dict["length"].BInt? then Some(info.(length := dict["length"].value)) else None
      else if "files" in dict && dict["files"].BList? && FilesOf(dict["files"].items).Some? then
        Some(info.(files := FilesOf(dict["files"].items).value))
      else None
  }

  // ----- what is parsed, said of the nodes -----

  /** The node is a dictionary with this length and exactly these strings as its path. */
  ghost predicate FileReads(n: Node, f: FileInfo) {
    && n.BDict?
    && "length" in n.entries && n.entries["length"] == BInt(f.length)
    && "path" in n.entries && n.entries["path"].BList?
    && |n.entries["path"].items| == |f.path|
    && forall j :: 0 <= j < |f.path| ==> n.entries["path"].items[j] == BString(f.path[j])
  }

  ghost predicate FilesRead(nodes: seq<Node>, files: seq<FileInfo>) {
    |nodes| == |files| && forall i :: 0 <= i < |files| ==> FileReads(nodes[i], files[i])
  }

  /** Name, piece length and pieces are there with the right types; private counts when it is an integer; a length
      hides the files and must be an integer, and without one there must be files, all of them well-formed. */
  ghost predicate InfoReads(dict: map<string, Node>, info: InfoDict) {
    && "name" in dict && dict["name"] == BString(info.name)
    && "piece length" in dict && dict["piece length"] == BInt(info.pieceLength)
    && "pieces" in dict && dict["pieces"] == BString(info.pieces)
    && info.private == (if "private" in dict && dict["private"].BInt? then dict["private"].value else 0)
    && (if "length" in dict then dict["length"] == BInt(info.length) && info.files == []
        else info.length == 0 && "files" in dict && dict["files"].BList? && FilesRead(dict["files"].items, info.files))
  }

  lemma StringsOfIff(nodes: seq<Node>, path: seq<string>)
    ensures StringsOf(nodes) == Some(path) <==> nodes == Strings(path)
  {
    StringsRoundTrip(path);
    if StringsOf(nodes) == Some(path) {
      StringsParsed(nodes);
    }
  }

  lemma FileOfIff(n: Node, f: FileInfo)
    ensures FileOf(n) == Some(f) <==> FileReads(n, f)
  {
    if n.BDict? && "path" in n.entries && n.entries["path"].BList? {
      StringsOfIff(n.entries["path"].items, f.path);
    }
  }

  lemma {:induction false} FilesOfIff(nodes: seq<Node>, files: seq<FileInfo>)
    ensures FilesOf(nodes) == Some(files) <==> FilesRead(nodes, files)
  {
    if nodes != [] && files != [] && |nodes| == |files| {
      var last := |nodes| - 1;
      FilesOfIff(nodes[..last], files[..last]);
      FileOfIff(nodes[last], files[last]);
      assert files == files[..last] + [files[last]];
      FilesReadPush(nodes, files);
    }
  }

  lemma FilesReadPush(nodes: seq<Node>, files: seq<FileInfo>)
    requires nodes != [] && |nodes| == |files|
    ensures var last := |nodes| - 1;
      FilesRead(nodes, files) <==> FilesRead(nodes[..last], files[..last]) && FileReads(nodes[last], files[last])
  {
    var last := |nodes| - 1;
    if FilesRead(nodes[..last], files[..last]) && FileReads(nodes[last], files[last]) {
      forall i | 0 <= i < |files|
        ensures FileReads(nodes[i], files[i])
      {
        if i < last {
          assert FileReads(nodes[..last][i], files[..last][i]);
        }
      }
    }
  }

  /** A dictionary parses to an info exactly when it reads as that info, and is an error when it reads as none. */
  lemma InfoOfIff(dict: map<string, Node>, info: InfoDict)
    ensures InfoOf(dict) == Some(info) <==> InfoReads(dict, info)
  {
    if "files" in dict && dict["files"].BList? {
      FilesOfIff(dict["files"].items, info.files);
    }
  }

  // ----- round trip -----

  lemma {:induction false} StringsRoundTrip(path: seq<string>)
    ensures StringsOf(Strings(path)) == Some(path)
  {
    if path != [] {
      var last := |path| - 1;
      StringsRoundTrip(path[..last]);
      assert Strings(path)[..last] == Strings(path[..last]);
      assert path[..last] + [path[last]] == path;
    }
  }

  lemma {:induction false} FilesRoundTrip(files: seq<FileInfo>)
    ensures FilesOf(FileNodes(files)) == Some(files)
  {
    if files != [] {
      var last := |files| - 1;
      FilesRoundTrip(files[..last]);
      StringsRoundTrip(files[last].path);
      assert FileNodes(files)[..last] == FileNodes(files[..last]);
      assert files[..last] + [files[last]] == files;
    }
  }

  function Clamp(i: int): int {
    if i > 0 then i else 0
  }

  /** What of an info dictionary its encoding keeps. */
  function Clamped(info: InfoDict): InfoDict {
    info.(length := Clamp(info.length), private := Clamp(info.private))
  }

  lemma ParseOfDict(dict: map<string, Node>, info: InfoDict)
    requires Describes(dict, info)
    ensures InfoOf(dict) ==
      if info.length > 0 then Some(Clamped(info).(files := []))
      else if info.files != [] then Some(Clamped(info))
      else None
  {
    FilesRoundTrip(info.files);
  }

  /** What parsing an encoded info gives: nothing without a positive length or a file, and a positive length hides
      the files. */
  lemma ParseOfNode(info: InfoDict)
    ensures InfoOf(InfoNode(info).entries) ==
      if info.length > 0 then Some(Clamped(info).(files := []))
      else if info.files != [] then Some(Clamped(info))
      else None
  {
    NodeDescribes(info);
    ParseOfDict(InfoNode(info).entries, info);
  }

  /** An info dictionary survives encoding and parsing exactly when private is not negative and it has a positive
      length or some files, not both and no negative length. */
  lemma InfoRoundTripIff(info: InfoDict)
    ensures InfoOf(InfoNode(info).entries) == Some(info) <==>
      info.private >= 0 && ((info.length > 0 && info.files == []) || (info.length == 0 && info.files != []))
  {
    ParseOfNode(info);
  }

  lemma FileNodeFits(f: FileInfo)
    requires FileInRange(f)
    ensures Fits(FileNode(f))
  {
    assert forall j :: 0 <= j < |f.path| ==> f.path[j] in f.path;
    assert Fits(BList(Strings(f.path)));
  }

  lemma FileNodesFit(files: seq<FileInfo>)
    requires forall f :: f in files ==> FileInRange(f)
    ensures Fits(BList(FileNodes(files)))
  {
    forall i | 0 <= i < |files|
      ensures Fits(FileNode(files[i]))
    {
      FileNodeFits(files[i]);
    }
  }

  lemma NodeFits(info: InfoDict)
    requires InRange(info)
    ensures Fits(InfoNode(info))
  {
    FileNodesFit(info.files);
    NodeDescribes(info);
    KeysKnown(info);
    DictFits(InfoNode(info).entries, info);
  }

  lemma FieldFits(dict: map<string, Node>, info: InfoDict, i: nat)
    requires InRange(info) && Describes(dict, info) && Fits(BList(FileNodes(info.files)))
    requires i < 6 && KEYS[i] in dict
    ensures |KEYS[i]| <= INT64_MAX && Fits(dict[KEYS[i]])
  {
  }

  lemma DictFits(dict: map<string, Node>, info: InfoDict)
    requires InRange(info) && Describes(dict, info) && Fits(BList(FileNodes(info.files)))
    requires forall key :: key in dict ==> key in KEYS
    ensures Fits(BDict(dict))
  {
    forall key | key in dict
      ensures |key| <= INT64_MAX && Fits(dict[key])
    {
      var i :| 0 <= i < 6 && KEYS[i] == key;
      FieldFits(dict, info, i);
    }
  }

  /** The round trip through the bytes: decode, then parse. */
  lemma InfoBytesRoundTrip(info: InfoDict, t: string)
    requires InRange(info)
    ensures Decode(Encode(InfoNode(info)) + t) == Ok(InfoNode(info), t)
  {
    NodeFits(info);
    RoundTrip(InfoNode(info), t);
  }

  // ----- what the encoding, and so the info hash, identifies -----

  lemma DictDeterminesClamped(dict: map<string, Node>, a: InfoDict, b: InfoDict)
    requires Describes(dict, a) && Describes(dict, b)
    ensures Clamped(a) == Clamped(b)
  {
    FilesRoundTrip(a.files);
    FilesRoundTrip(b.files);
  }

  /** Two infos encode to the same bytes exactly when they differ at most in negative lengths and private flags. */
  lemma EncodingKernel(a: InfoDict, b: InfoDict)
    requires InRange(a) && InRange(b)
    ensures Encode(InfoNode(a)) == Encode(InfoNode(b)) <==> Clamped(a) == Clamped(b)
  {
    if Clamped(a) == Clamped(b) {
      assert InfoNode(a) == InfoNode(Clamped(a)) == InfoNode(b);
    } else if Encode(InfoNode(a)) == Encode(InfoNode(b)) {
      NodeFits(a);
      NodeFits(b);
      EncodeInjective(InfoNode(a), InfoNode(b), "", "");
      NodeDescribes(a);
      NodeDescribes(b);
      DictDeterminesClamped(InfoNode(a).entries, a, b);
    }
  }

  /** The info hash is taken over the encoding: with a hash that does not collide on two encodings, two infos have the
      same hash exactly when they differ at most in negative lengths and private flags. */
  lemma InfoHashKernel<H>(sha1: string -> H, a: InfoDict, b: InfoDict)
    requires InRange(a) && InRange(b)
    requires sha1(Encode(InfoNode(a))) == sha1(Encode(InfoNode(b))) ==> Encode(InfoNode(a)) == Encode(InfoNode(b))
    ensures sha1(Encode(InfoNode(a))) == sha1(Encode(InfoNode(b))) <==> Clamped(a) == Clamped(b)
  {
    EncodingKernel(a, b);
  }

  // ----- info dictionaries written by others -----

  /** Nothing in the dictionary is dropped by parsing it: no other key, no files beside a length, no empty list of
      files, no entry of a file besides its length and path, no length or private flag that is not positive. */
  predicate NothingDropped(dict: map<string, Node>) {
    && (forall key :: key in dict ==> key in KEYS)
    && ("length" in dict ==> "files" !in dict && dict["length"].BInt? && dict["length"].value > 0)
    && ("files" in dict ==> dict["files"].BList? && dict["files"].items != [] && OnlyFiles(dict["files"].items))
    && ("private" in dict ==> dict["private"].BInt? && dict["private"].value > 0)
  }

  predicate OnlyFiles(nodes: seq<Node>) {
    forall i :: 0 <= i < |nodes| ==> nodes[i].BDict? && nodes[i].entries.Keys == {"length", "path"}
  }

  lemma {:induction false} StringsParsed(nodes: seq<Node>)
    requires StringsOf(nodes).Some?
    ensures Strings(StringsOf(nodes).value) == nodes
  {
    if nodes != [] {
      StringsParsed(nodes[..|nodes| - 1]);
      assert nodes == nodes[..|nodes| - 1] + [nodes[|nodes| - 1]];
    }
  }

  lemma FileParsed(n: Node)
    requires FileOf(n).Some?
    ensures FileNode(FileOf(n).value) == n <==> n.entries.Keys == {"length", "path"}
  {
    StringsParsed(n.entries["path"].items);
    assert FileNode(FileOf(n).value).entries.Keys == {"length", "path"};
  }

  lemma OnlyFilesPush(nodes: seq<Node>, n: Node)
    ensures OnlyFiles(nodes + [n]) <==> OnlyFiles(nodes) && n.BDict? && n.entries.Keys == {"length", "path"}
  {
    if OnlyFiles(nodes + [n]) {
      assert (nodes + [n])[|nodes|] == n;
      assert forall i :: 0 <= i < |nodes| ==> nodes[i] == (nodes + [n])[i];
    }
  }

  lemma FileNodesPush(files: seq<FileInfo>, f: FileInfo, nodes: seq<Node>, n: Node)
    requires |files| == |nodes|
    ensures FileNodes(files + [f]) == nodes + [n] <==> FileNodes(files) == nodes && FileNode(f) == n
  {
    assert FileNodes(files + [f]) == FileNodes(files) + [FileNode(f)];
    if FileNodes(files) + [FileNode(f)] == nodes + [n] {
      assert (nodes + [n])[..|nodes|] == nodes && (nodes + [n])[|nodes|] == n;
      assert (FileNodes(files) + [FileNode(f)])[..|nodes|] == FileNodes(files);
    }
  }

  lemma {:induction false} FilesParsed(nodes: seq<Node>)
    requires FilesOf(nodes).Some?
    ensures FileNodes(FilesOf(nodes).value) == nodes <==> OnlyFiles(nodes)
  {
    if nodes != [] {
      var front, last := nodes[..|nodes| - 1], nodes[|nodes| - 1];
      assert nodes == front + [last];
      FilesParsed(front);
      FileParsed(last);
      OnlyFilesPush(front, last);
      FileNodesPush(FilesOf(front).value, FileOf(last).value, front, last);
    }
  }

  lemma ParsedDescribes(dict: map<string, Node>)
    requires InfoOf(dict).Some?
    requires forall key :: key in dict ==> key in KEYS
    ensures Describes(dict, InfoOf(dict).value) <==> NothingDropped(dict)
  {
    if "length" !in dict {
      FilesParsed(dict["files"].items);
    }
  }

  lemma DescribedAlike(d: map<string, Node>, e: map<string, Node>, info: InfoDict)
    requires Describes(d, info) && Describes(e, info)
    requires forall key :: key in d || key in e ==> key in KEYS
    ensures d == e
  {
    forall key | key in d || key in e
      ensures key in d && key in e && d[key] == e[key]
    {
      var i :| 0 <= i < 6 && KEYS[i] == key;
      FieldAlike(d, e, info, i);
    }
  }

  lemma FieldAlike(d: map<string, Node>, e: map<string, Node>, info: InfoDict, i: nat)
    requires Describes(d, info) && Describes(e, info) && i < 6
    ensures KEYS[i] in d <==> KEYS[i] in e
    ensures KEYS[i] in d ==> d[KEYS[i]] == e[KEYS[i]]
  {
  }

  /** The info hash is computed by encoding what was parsed, while BEP 3 hashes the info bytes of the file. The two
      agree exactly when those bytes are canonical and parsing drops nothing. */
  lemma ReencodingIsExact(s: string)
    requires Accepted(s) && Decode(s).value.BDict? && InfoOf(Decode(s).value.entries).Some?
    ensures var n := Decode(s).value;
      Encode(InfoNode(InfoOf(n.entries).value)) == s <==> s == Encode(n) && NothingDropped(n.entries)
  {
    var n := Decode(s).value;
    var info := InfoOf(n.entries).value;
    NodeDescribes(info);
    KeysKnown(info);
    if s == Encode(n) && NothingDropped(n.entries) {
      ParsedDescribes(n.entries);
      DescribedAlike(n.entries, InfoNode(info).entries, info);
    } else if Encode(InfoNode(info)) == s {
      DecodedFits(s);
      ParsedInRange(n);
      NodeFits(info);
      RoundTrip(InfoNode(info), "");
      assert s + "" == s;
      ParsedDescribes(n.entries);
    }
  }

  /** Such a file: a single-file info dictionary with one key of its own. It parses to the same info, and the info hash
      is taken over other bytes. */
  lemma ForeignKeyExample() returns (s: string)
    ensures var info := InfoDict("a", 1, [], 1, "", 0);
      && s == Encode(BDict(InfoNode(info).entries["x" := BInt(0)]))
      && Accepted(s) && Decode(s).value.BDict? && InfoOf(Decode(s).value.entries) == Some(info)
      && Encode(InfoNode(info)) != s
  {
    var info := InfoDict("a", 1, [], 1, "", 0);
    var dict := InfoNode(info).entries["x" := BInt(0)];
    s := Encode(BDict(dict));
    NodeDescribes(info);
    NodeFits(info);
    ForeignKeyDescribes(InfoNode(info).entries, info);
    RoundTrip(BDict(dict), "");
    assert s + "" == s;
    ParseOfDict(dict, info);
    if Encode(InfoNode(info)) == s {
      ReencodingIsExact(s);
      assert "x" in dict && "x" !in KEYS;
    }
  }

  lemma ForeignKeyDescribes(dict: map<string, Node>, info: InfoDict)
    requires Describes(dict, info) && Fits(BDict(dict))
    ensures Describes(dict["x" := BInt(0)], info) && Fits(BDict(dict["x" := BInt(0)]))
  {
    assert |"x"| == 1;
  }

  /** What is parsed from a node of 64-bit values has 64-bit values. */
  lemma ParsedInRange(n: Node)
    requires n.BDict? && Fits(n) && InfoOf(n.entries).Some?
    ensures InRange(InfoOf(n.entries).value)
  {
    if "length" !in n.entries {
      ParsedFilesInRange(n.entries["files"].items);
    }
  }

  lemma {:induction false} ParsedFilesInRange(nodes: seq<Node>)
    requires FilesOf(nodes).Some? && forall i :: 0 <= i < |nodes| ==> Fits(nodes[i])
    ensures forall f :: f in FilesOf(nodes).value ==> FileInRange(f)
  {
    if nodes != [] {
      var last := |nodes| - 1;
      ParsedFilesInRange(nodes[..last]);
      ParsedFileInRange(nodes[last]);
    }
  }

  lemma ParsedFileInRange(n: Node)
    requires Fits(n) && FileOf(n).Some?
    ensures FileInRange(FileOf(n).value)
  {
    var path := n.entries["path"].items;
    StringsParsed(path);
    assert Fits(n.entries["length"]) && Fits(n.entries["path"]);
    forall c | c in StringsOf(path).value
      ensures |c| <= INT64_MAX
    {
      var j :| 0 <= j < |path| && StringsOf(path).value[j] == c;
      assert Fits(path[j]);
    }
  }
}
