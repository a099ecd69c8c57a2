/** mkromfs: a directory tree as a flat image whose entries point at each other by absolute address. */
module Romfs {
  import opened Options

  type byte = b: int | 0 <= b < 256
  type Bytes = seq<byte>

  datatype Node =
    | File(name: Bytes, data: Bytes)
    | Folder(name: Bytes, children: seq<Node>)

  // ---------------------------------------------------------------- writer

  /** Little-endian 32-bit word. */
  function Word(v: int): (r: Bytes)
    ensures |r| == 4
  {
    [v % 256, v / 256 % 256, v / 65536 % 256, v / 16777216 % 256]
  }

  function Zeros(n: nat): (r: Bytes)
    ensures |r| == n && forall i :: 0 <= i < n ==> r[i] == 0
  {
    seq(n, i => 0)
  }

  /** bin_name: at least one NUL, up to the next multiple of four. */
  function BinName(name: Bytes): (r: Bytes)
    ensures |r| % 4 == 0 && |name| < |r| <= |name| + 4
  {
    name + Zeros(4 - |name| % 4)
  }

  function Padded(data: Bytes): (r: Bytes)
    ensures |r| % 4 == 0 && |data| <= |r| < |data| + 4
  {
    if |data| % 4 != 0 then data + Zeros(4 - |data| % 4) else data
  }

  function Kind(c: Node): int {
    if c.File? then 0 else 1
  }

  function EntrySize(c: Node): nat {
    if c.File? then |c.data| else |c.children|
  }

  /** What an entry points at, when it is placed at address `base`. */
  function Data(c: Node, base: int): Bytes
    decreases c, 0
  {
    if c.File? then c.data else FolderData(c.children, base)
  }

  /** Folder.bin_data: the entries, then for each child its name and its data. */
  function FolderData(cs: seq<Node>, base: int): Bytes
    decreases cs, 1
  {
    Dirents(cs, base + 16 * |cs|) + Payload(cs, base + 16 * |cs|)
  }

  function Chunk(c: Node, addr: int): Bytes
    decreases c, 1
  {
    BinName(c.name) + Padded(Data(c, addr + |BinName(c.name)|))
  }

  function Dirent(c: Node, addr: int): (r: Bytes)
    ensures |r| == 16
  {
    Word(Kind(c)) + Word(addr) + Word(addr + |BinName(c.name)|) + Word(EntrySize(c))
  }

  function Dirents(cs: seq<Node>, addr: int): (r: Bytes)
    ensures |r| == 16 * |cs|
    decreases cs, 0
  {
    if cs == [] then [] else Dirent(cs[0], addr) + Dirents(cs[1..], addr + |Chunk(cs[0], addr)|)
  }

  function Payload(cs: seq<Node>, addr: int): Bytes
    decreases cs, 0
  {
    if cs == [] then [] else Chunk(cs[0], addr) + Payload(cs[1..], addr + |Chunk(cs[0], addr)|)
  }

  const ROOT: Bytes := [47]

  /** get_bin_data: the root entry, its name "/", then the tree. */
  function Image(children: seq<Node>, base: int): Bytes {
    Word(1) + Word(base + 16) + Word(base + 20) + Word(|children|) + BinName(ROOT) + FolderData(children, base + 20)
  }

  // ---------------------------------------------------------------- reader

  function WordAt(img: Bytes, off: int): (r: int)
    requires 0 <= off && off + 4 <= |img|
  {
    var a: int, b: int, c: int, d: int := img[off], img[off + 1], img[off + 2], img[off + 3];
    a + 256 * b + 65536 * c + 16777216 * d
  }

  /** The C string at an offset; an unterminated one is an error. */
  function StringAt(img: Bytes, off: int): Option<Bytes>
    requires 0 <= off <= |img|
    decreases |img| - off
  {
    if off == |img| then None
    else if img[off] == 0 then Some([])
    else
      match StringAt(img, off + 1)
      case None => None
      case Some(s) => Some([img[off]] + s)
  }

  /** n entries from offset `off` on; addresses are absolute, the image lies at `base`. */
  function ReadEntries(img: Bytes, base: int, off: int, n: nat, fuel: nat): Option<seq<Node>>
    decreases fuel, n
  {
    if n == 0 then Some([])
    else if off < 0 || off + 16 > |img| then None
    else
      match ReadEntry(img, base, off, fuel)
      case None => None
      case Some(c) =>
        match ReadEntries(img, base, off + 16, n - 1, fuel)
        case None => None
        case Some(rest) => Some([c] + rest)
  }

  function ReadEntry(img: Bytes, base: int, off: int, fuel: nat): Option<Node>
    requires 0 <= off && off + 16 <= |img|
    decreases fuel, 0
  {
    var name, data, size := WordAt(img, off + 4) - base, WordAt(img, off + 8) - base, WordAt(img, off + 12);
    if !(0 <= name <= |img|) then None
    else
      match StringAt(img, name)
      case None => None
      case Some(s) =>
        if WordAt(img, off) == 0 then
          if 0 <= data && data + size <= |img| then Some(File(s, img[data..data + size])) else None
        else if fuel == 0 then None
        else
          match ReadEntries(img, base, data, size, fuel - 1)
          case None => None
          case Some(cs) => Some(Folder(s, cs))
  }

  // ---------------------------------------------------------------- words and names

  lemma WordBack(img: Bytes, off: int, v: int)
    requires 0 <= v < 0x1_0000_0000 && At(img, off, Word(v))
    ensures WordAt(img, off) == v
  {
    AtIndex(img, off, Word(v), 0);
    AtIndex(img, off, Word(v), 1);
    AtIndex(img, off, Word(v), 2);
    AtIndex(img, off, Word(v), 3);
    Digits(v);
  }

  lemma Digits(v: int)
    requires 0 <= v < 0x1_0000_0000
    ensures v % 256 + 256 * (v / 256 % 256) + 65536 * (v / 65536 % 256) + 16777216 * (v / 16777216 % 256) == v
  {
  }

  /** s stands at offset off. */
  ghost predicate At(img: Bytes, off: int, s: Bytes) {
    0 <= off && off + |s| <= |img| && img[off..off + |s|] == s
  }

  lemma AtIndex(img: Bytes, off: int, s: Bytes, i: nat)
    requires At(img, off, s) && i < |s|
    ensures img[off + i] == s[i]
  {
    assert img[off..off + |s|][i] == s[i];
  }

  lemma AtSplit(img: Bytes, off: int, a: Bytes, b: Bytes)
    requires At(img, off, a + b)
    ensures At(img, off, a) && At(img, off + |a|, b)
  {
    var s := img[off..off + |a| + |b|];
    assert s[..|a|] == a && s[|a|..] == b;
  }

  predicate NulFree(name: Bytes) {
    forall i :: 0 <= i < |name| ==> name[i] != 0
  }

  lemma {:induction false} NameBack(img: Bytes, off: int, name: Bytes, pad: nat)
    requires At(img, off, name + Zeros(pad)) && pad > 0 && NulFree(name)
    ensures StringAt(img, off) == Some(name)
    decreases |name|
  {
    AtIndex(img, off, name + Zeros(pad), 0);
    if name != [] {
      assert name + Zeros(pad) == [name[0]] + (name[1..] + Zeros(pad));
      AtSplit(img, off, [name[0]], name[1..] + Zeros(pad));
      NameBack(img, off + 1, name[1..], pad);
      assert [name[0]] + name[1..] == name;
    }
  }

  // ---------------------------------------------------------------- the tree comes back

  ghost predicate AllNulFree(cs: seq<Node>)
    decreases cs
  {
    cs == [] || (NulFree(cs[0].name) && (cs[0].Folder? ==> AllNulFree(cs[0].children)) && AllNulFree(cs[1..]))
  }

  function Depth(cs: seq<Node>): nat
    decreases cs
  {
    if cs == [] then 0
    else
      var d := if cs[0].Folder? then Depth(cs[0].children) + 1 else 0;
      var r := Depth(cs[1..]);
      if d > r then d else r
  }

  lemma Unfold(cs: seq<Node>, addr: int)
    requires cs != []
    ensures var c, rest := cs[0], cs[1..]; var addr' := addr + |Chunk(c, addr)|;
      Dirents(cs, addr) == Dirent(c, addr) + Dirents(rest, addr') &&
          Payload(cs, addr) == Chunk(c, addr) + Payload(rest, addr')
  {
  }

  lemma AtBounds(img: Bytes, off: int, s: Bytes)
    requires At(img, off, s)
    ensures 0 <= off && off + |s| <= |img|
  {
  }

  lemma ListParts(img: Bytes, base: int, cs: seq<Node>, off: int, addr: int)
    requires cs != [] && At(img, off, Dirents(cs, addr)) && At(img, addr - base, Payload(cs, addr))
    ensures var c, rest := cs[0], cs[1..]; var addr' := addr + |Chunk(c, addr)|;
      && At(img, off, Dirent(c, addr)) && At(img, off + 16, Dirents(rest, addr')) && 0 <= off && off + 16 <= |img|
      && At(img, addr - base, Chunk(c, addr)) && At(img, addr' - base, Payload(rest, addr'))
  {
    Unfold(cs, addr);
    hide Chunk, Dirent, Dirents, Payload, At;
    AtBounds(img, off, Dirents(cs, addr));
    var c, rest := cs[0], cs[1..];
    var addr' := addr + |Chunk(c, addr)|;
    AtSplit(img, off, Dirent(c, addr), Dirents(rest, addr'));
    AtSplit(img, addr - base, Chunk(c, addr), Payload(rest, addr'));
  }

  lemma ReadNone(img: Bytes, base: int, off: int, fuel: nat)
    ensures ReadEntries(img, base, off, 0, fuel) == Some([])
  {
  }

  lemma ReadCons(img: Bytes, base: int, off: int, n: nat, fuel: nat, c: Node, rest: seq<Node>)
    requires 0 <= off && off + 16 <= |img| && n > 0 && ReadEntry(img, base, off, fuel) == Some(c)
    requires ReadEntries(img, base, off + 16, n - 1, fuel) == Some(rest)
    ensures ReadEntries(img, base, off, n, fuel) == Some([c] + rest)
  {
  }

  lemma TreeCons(cs: seq<Node>)
    requires cs != [] && AllNulFree(cs)
    ensures NulFree(cs[0].name) && (cs[0].Folder? ==> AllNulFree(cs[0].children) && Depth(cs) > Depth(cs[0].children))
    ensures AllNulFree(cs[1..]) && Depth(cs) >= Depth(cs[1..])
  {
  }

  lemma {:induction false} EntriesBack(img: Bytes, base: int, cs: seq<Node>, off: int, addr: int, fuel: nat)
    requires base >= 0 && AllNulFree(cs) && fuel >= Depth(cs)
    requires At(img, off, Dirents(cs, addr)) && At(img, addr - base, Payload(cs, addr)) && base + |img| < 0x1_0000_0000
    ensures ReadEntries(img, base, off, |cs|, fuel) == Some(cs)
    decreases cs
  {
    hide At, Chunk, Dirent, Payload, Dirents, ReadEntry, ReadEntries, AllNulFree, Depth, NulFree, BinName, Data,
        FolderData;
    if cs == [] {
      ReadNone(img, base, off, fuel);
    } else {
      var c, rest := cs[0], cs[1..];
      var addr' := addr + |Chunk(c, addr)|;
      ListParts(img, base, cs, off, addr);
      TreeCons(cs);
      EntryBack(img, base, c, off, addr, fuel);
      EntriesBack(img, base, rest, off + 16, addr', fuel);
      ReadCons(img, base, off, |cs|, fuel, c, rest);
      assert cs == [c] + rest;
    }
  }

  lemma {:induction false} EntryBack(img: Bytes, base: int, c: Node, off: int, addr: int, fuel: nat)
    requires base >= 0 && NulFree(c.name) && (c.Folder? ==> AllNulFree(c.children) && fuel > Depth(c.children))
    requires At(img, off, Dirent(c, addr)) && At(img, addr - base, Chunk(c, addr)) && base + |img| < 0x1_0000_0000
    ensures ReadEntry(img, base, off, fuel) == Some(c)
    decreases c
  {
    hide At, Dirents, Payload, WordAt, BinName, StringAt, Dirent, Chunk, ReadEntry, ReadEntries, NulFree, AllNulFree,
        Data;
    var data := addr + |BinName(c.name)|;
    ChunkParts(img, base, c, addr);
    ChunkFits(img, base, c, addr);
    DirentBack(img, base, c, off, addr);
    BinNameBack(img, addr - base, c.name);
    if c.File? {
      FileBytes(img, base, c, data);
      FileRead(img, base, off, fuel, c.name, c.data);
    } else {
      var a := data + 16 * |c.children|;
      FolderParts(img, base, c, data);
      EntriesBack(img, base, c.children, data - base, a, fuel - 1);
      FolderRead(img, base, off, fuel, c.name, c.children);
    }
  }

  lemma FolderParts(img: Bytes, base: int, c: Node, data: int)
    requires c.Folder? && At(img, data - base, Data(c, data))
    ensures var a := data + 16 * |c.children|;
      At(img, data - base, Dirents(c.children, a)) && At(img, a - base, Payload(c.children, a))
  {
    var a := data + 16 * |c.children|;
    assert Data(c, data) == FolderData(c.children, data);
    AtSplit(img, data - base, Dirents(c.children, a), Payload(c.children, a));
  }

  lemma FileRead(img: Bytes, base: int, off: int, fuel: nat, s: Bytes, bytes: Bytes)
    requires 0 <= off && off + 16 <= |img| && WordAt(img, off) == 0 && WordAt(img, off + 12) == |bytes|
    requires var name, data := WordAt(img, off + 4) - base, WordAt(img, off + 8) - base;
      && 0 <= name <= |img| && StringAt(img, name) == Some(s)
      && 0 <= data && data + |bytes| <= |img| && img[data..data + |bytes|] == bytes
    ensures ReadEntry(img, base, off, fuel) == Some(File(s, bytes))
  {
  }

  lemma FolderRead(img: Bytes, base: int, off: int, fuel: nat, s: Bytes, cs: seq<Node>)
    requires 0 <= off && off + 16 <= |img| && WordAt(img, off) == 1 && WordAt(img, off + 12) == |cs| && fuel > 0
    requires var name, data := WordAt(img, off + 4) - base, WordAt(img, off + 8) - base;
      && 0 <= name <= |img| && StringAt(img, name) == Some(s) &&
          ReadEntries(img, base, data, |cs|, fuel - 1) == Some(cs)
    ensures ReadEntry(img, base, off, fuel) == Some(Folder(s, cs))
  {
  }

  lemma FileBytes(img: Bytes, base: int, c: Node, data: int)
    requires c.File? && At(img, data - base, Data(c, data))
    ensures var off := data - base; 0 <= off && off + |c.data| <= |img| && img[off..off + |c.data|] == c.data
  {
  }

  lemma BinNameBack(img: Bytes, off: int, name: Bytes)
    requires At(img, off, BinName(name)) && NulFree(name)
    ensures 0 <= off <= |img| && StringAt(img, off) == Some(name)
  {
    NameBack(img, off, name, 4 - |name| % 4);
  }

  lemma ChunkParts(img: Bytes, base: int, c: Node, addr: int)
    requires At(img, addr - base, Chunk(c, addr))
    ensures var data := addr + |BinName(c.name)|;
      At(img, addr - base, BinName(c.name)) && At(img, data - base, Data(c, data))
  {
    hide At, BinName, Padded, Data;
    var data := addr + |BinName(c.name)|;
    AtSplit(img, addr - base, BinName(c.name), Padded(Data(c, data)));
    AtPadded(img, data - base, Data(c, data));
  }

  lemma AtPadded(img: Bytes, off: int, data: Bytes)
    requires At(img, off, Padded(data))
    ensures At(img, off, data)
  {
    if |data| % 4 != 0 { AtSplit(img, off, data, Zeros(4 - |data| % 4)); }
  }

  lemma DirentBack(img: Bytes, base: int, c: Node, off: int, addr: int)
    requires base >= 0 && At(img, off, Dirent(c, addr)) && At(img, addr - base, Chunk(c, addr))
    requires base + |img| < 0x1_0000_0000
    ensures 0 <= off && off + 16 <= |img| && WordAt(img, off) == Kind(c) && WordAt(img, off + 4) == addr
    ensures WordAt(img, off + 8) == addr + |BinName(c.name)| && WordAt(img, off + 12) == EntrySize(c)
  {
    ChunkFits(img, base, c, addr);
    FourBack(img, off, Kind(c), addr, addr + |BinName(c.name)|, EntrySize(c));
  }

  lemma ChunkFits(img: Bytes, base: int, c: Node, addr: int)
    requires base >= 0 && At(img, addr - base, Chunk(c, addr))
    ensures base <= addr && addr + |BinName(c.name)| + EntrySize(c) <= base + |img|
  {
    SizeFits(c, addr + |BinName(c.name)|);
  }

  lemma FourBack(img: Bytes, off: int, a: int, b: int, c: int, d: int)
    requires 0 <= a < 0x1_0000_0000 && 0 <= b < 0x1_0000_0000 && 0 <= c < 0x1_0000_0000 && 0 <= d < 0x1_0000_0000
    requires At(img, off, Word(a) + Word(b) + Word(c) + Word(d))
    ensures 0 <= off && off + 16 <= |img|
    ensures WordAt(img, off) == a && WordAt(img, off + 4) == b && WordAt(img, off + 8) == c
    ensures WordAt(img, off + 12) == d
  {
    FourWords(img, off, Word(a), Word(b), Word(c), Word(d));
    hide Word, WordAt;
    WordBack(img, off, a);
    WordBack(img, off + 4, b);
    WordBack(img, off + 8, c);
    WordBack(img, off + 12, d);
  }

  lemma FourWords(img: Bytes, off: int, a: Bytes, b: Bytes, c: Bytes, d: Bytes)
    requires At(img, off, a + b + c + d) && |a| == |b| == |c| == |d| == 4
    ensures At(img, off, a) && At(img, off + 4, b) && At(img, off + 8, c) && At(img, off + 12, d)
  {
    AtSplit(img, off, a + b + c, d);
    AtSplit(img, off, a + b, c);
    AtSplit(img, off, a, b);
  }

  lemma SizeFits(c: Node, base: int)
    ensures EntrySize(c) <= |Data(c, base)|
  {
  }

  lemma {:induction false} DeepEnough(cs: seq<Node>, base: int)
    ensures Depth(cs) <= |FolderData(cs, base)|
    decreases cs, 1
  {
    PayloadDeep(cs, base + 16 * |cs|);
  }

  lemma {:induction false} PayloadDeep(cs: seq<Node>, addr: int)
    ensures Depth(cs) <= |Payload(cs, addr)|
    decreases cs, 0
  {
    if cs != [] {
      if cs[0].Folder? {
        var data := addr + |BinName(cs[0].name)|;
        DeepEnough(cs[0].children, data);
        assert Data(cs[0], data) == FolderData(cs[0].children, data);
        assert |Chunk(cs[0], addr)| >= |FolderData(cs[0].children, data)| + 1;
      }
      PayloadDeep(cs[1..], addr + |Chunk(cs[0], addr)|);
    }
  }

  lemma {:induction false} StringNulFree(img: Bytes, off: int)
    requires 0 <= off <= |img|
    ensures StringAt(img, off).Some? ==> NulFree(StringAt(img, off).value)
    decreases |img| - off
  {
    if off < |img| && img[off] != 0 { StringNulFree(img, off + 1); }
  }

  /** Whatever the reader returns has names without NUL. */
  lemma {:induction false} ReadNulFree(img: Bytes, base: int, off: int, n: nat, fuel: nat)
    ensures ReadEntries(img, base, off, n, fuel).Some? ==> AllNulFree(ReadEntries(img, base, off, n, fuel).value)
    decreases fuel, n
  {
    if n > 0 && ReadEntries(img, base, off, n, fuel).Some? {
      EntryNulFree(img, base, off, fuel);
      ReadNulFree(img, base, off + 16, n - 1, fuel);
      var cs := ReadEntries(img, base, off, n, fuel).value;
      assert cs[1..] == ReadEntries(img, base, off + 16, n - 1, fuel).value;
    }
  }

  lemma {:induction false} EntryNulFree(img: Bytes, base: int, off: int, fuel: nat)
    requires 0 <= off && off + 16 <= |img|
    ensures ReadEntry(img, base, off, fuel).Some? ==>
      && NulFree(ReadEntry(img, base, off, fuel).value.name)
      && (ReadEntry(img, base, off, fuel).value.Folder? ==> AllNulFree(ReadEntry(img, base, off, fuel).value.children))
    decreases fuel, 0
  {
    if ReadEntry(img, base, off, fuel).Some? {
      StringNulFree(img, WordAt(img, off + 4) - base);
      if fuel > 0 { ReadNulFree(img, base, WordAt(img, off + 8) - base, WordAt(img, off + 12), fuel - 1); }
    }
  }

  /** Following addresses from the root entry gives the tree back exactly, for every finite tree whose names are
      NUL-free, and for no other. */
  lemma RoundTrip(children: seq<Node>, base: int)
    requires base >= 0 && base + |Image(children, base)| < 0x1_0000_0000
    ensures var img := Image(children, base);
      |img| >= 16 && (ReadEntry(img, base, 0, |img|) == Some(Folder(ROOT, children)) <==> AllNulFree(children))
  {
    var img := Image(children, base);
    var root := Folder(ROOT, children);
    RootParts(children, base);
    DeepEnough(children, base + 20);
    hide Dirent, Chunk, Image;
    EntryNulFree(img, base, 0, |img|);
    if AllNulFree(children) {
      AtSplit(img, 0, Dirent(root, base + 16), Chunk(root, base + 16));
      EntryBack(img, base, root, 0, base + 16, |img|);
    }
  }

  lemma {:induction false} PayloadAligned(cs: seq<Node>, addr: int)
    ensures |Payload(cs, addr)| % 4 == 0
  {
    hide Chunk, Payload, Dirents, Dirent, BinName, FolderData;
    if cs != [] {
      ChunkCovers(cs[0], addr);
      Unfold(cs, addr);
      PayloadAligned(cs[1..], addr + |Chunk(cs[0], addr)|);
    } else {
      Nothing(addr);
    }
  }

  /** The image is one more entry and what it points at. */
  lemma RootParts(children: seq<Node>, base: int)
    ensures var root := Folder(ROOT, children); var img := Image(children, base);
      && img == Dirent(root, base + 16) + Chunk(root, base + 16) && At(img, 0, img)
      && |img| == 20 + |FolderData(children, base + 20)|
  {
    PayloadAligned(children, base + 20 + 16 * |children|);
    var f := FolderData(children, base + 20);
    assert |f| % 4 == 0 && Padded(f) == f;
    hide FolderData;
    assert |BinName(ROOT)| == 4;
    assert Data(Folder(ROOT, children), base + 20) == f;
    var img := Image(children, base);
    assert img == Word(1) + Word(base + 16) + Word(base + 20) + Word(|children|) + (BinName(ROOT) + f);
  }

  // ---------------------------------------------------------------- the writer's loop

  /** Folder.bin_data as written: one pass over the children, with the running address v_len. */
  method BinData(cs: seq<Node>, base: int) returns (r: Bytes)
    ensures r == FolderData(cs, base)
    decreases cs
  {
    hide Dirents, Payload, Zeros, Word, Chunk, Dirent, FolderData, BinName, Data, Padded;
    ghost var start := base + 16 * |cs|;
    assert cs[0..] == cs;
    var dirents: Bytes, payload: Bytes := [], [];
    var vLen := base + 16 * |cs|;
    for i := 0 to |cs|
      invariant dirents + Dirents(cs[i..], vLen) == Dirents(cs, start)
      invariant payload + Payload(cs[i..], vLen) == Payload(cs, start)
    {
      var c := cs[i];
      Advance(dirents, payload, cs, i, vLen);
      var name := BinName(c.name);
      var nameAddr := vLen;
      vLen := vLen + |name|;
      var data;
      if c.File? { data := c.data; } else { data := BinData(c.children, vLen); }
      assert data == Data(c, vLen) by { DataIs(c, vLen); }
      var dataAddr := vLen;
      if |data| % 4 != 0 { data := data + Zeros(4 - |data| % 4); }
      vLen := vLen + |data|;
      assert name + data == Chunk(c, nameAddr) by { ChunkIs(c, nameAddr); }
      dirents := dirents + (Word(Kind(c)) + Word(nameAddr) + Word(dataAddr) + Word(EntrySize(c)));
      payload := payload + (name + data);
    }
    Nothing(vLen);
    r := dirents + payload;
    assert r == FolderData(cs, base) by { FolderIs(cs, base); }
  }

  lemma Regroup(a: Bytes, b: Bytes, c: Bytes)
    ensures a + (b + c) == a + b + c
  {
  }

  lemma Advance(dirents: Bytes, payload: Bytes, cs: seq<Node>, i: nat, addr: int)
    requires i < |cs|
    ensures var c := cs[i]; var addr' := addr + |Chunk(c, addr)|;
      && dirents + Dirents(cs[i..], addr)
         == dirents + (Word(Kind(c)) + Word(addr) + Word(addr + |BinName(c.name)|) + Word(EntrySize(c)))
             + Dirents(cs[i + 1..], addr')
      && payload + Payload(cs[i..], addr) == payload + Chunk(c, addr) + Payload(cs[i + 1..], addr')
  {
    Unfold(cs[i..], addr);
    hide Dirents, Payload, Chunk, BinName, Word;
    assert cs[i..][0] == cs[i] && cs[i..][1..] == cs[i + 1..];
    Regroup(dirents, Dirent(cs[i], addr), Dirents(cs[i + 1..], addr + |Chunk(cs[i], addr)|));
    Regroup(payload, Chunk(cs[i], addr), Payload(cs[i + 1..], addr + |Chunk(cs[i], addr)|));
  }

  lemma ChunkIs(c: Node, addr: int)
    ensures var data := Data(c, addr + |BinName(c.name)|);
      Chunk(c, addr) == BinName(c.name) + (if |data| % 4 != 0 then data + Zeros(4 - |data| % 4) else data)
  {
  }

  lemma FolderIs(cs: seq<Node>, base: int)
    ensures FolderData(cs, base) == Dirents(cs, base + 16 * |cs|) + Payload(cs, base + 16 * |cs|)
  {
  }

  lemma Nothing(addr: int)
    ensures Dirents([], addr) == [] && Payload([], addr) == []
  {
  }

  // ---------------------------------------------------------------- where things lie

  datatype Region = Region(start: int, len: int)

  /** Entry tables, names and file contents, in address order. */
  function Regions(cs: seq<Node>, base: int): seq<Region>
    decreases cs, 1
  {
    [Region(base, 16 * |cs|)] + ChildRegions(cs, base + 16 * |cs|)
  }

  function Own(c: Node, data: int): seq<Region>
    decreases c, 2
  {
    if c.File? then [Region(data, |c.data|)] else Regions(c.children, data)
  }

  function ChildRegions(cs: seq<Node>, addr: int): seq<Region>
    decreases cs, 0
  {
    if cs == [] then []
    else
      var data := addr + |BinName(cs[0].name)|;
      [Region(addr, |BinName(cs[0].name)|)]
      + Own(cs[0], data)
      + ChildRegions(cs[1..], addr + |Chunk(cs[0], addr)|)
  }

  /** The regions lie one behind the other between lo and hi, each on a multiple of four. */
  predicate Laid(rs: seq<Region>, lo: int, hi: int) {
    if rs == [] then lo <= hi
    else rs[0].start % 4 == 0 && rs[0].len >= 0 && lo <= rs[0].start && Laid(rs[1..], rs[0].start + rs[0].len, hi)
  }

  lemma {:induction false} LaidJoin(a: seq<Region>, b: seq<Region>, lo: int, mid: int, hi: int)
    requires Laid(a, lo, mid) && Laid(b, mid, hi)
    ensures Laid(a + b, lo, hi)
    decreases |a|
  {
    if a == [] {
      assert a + b == b;
      LaidLower(b, mid, hi, lo);
    } else {
      LaidJoin(a[1..], b, a[0].start + a[0].len, mid, hi);
      assert (a + b)[1..] == a[1..] + b;
    }
  }

  lemma LaidLower(b: seq<Region>, mid: int, hi: int, lo: int)
    requires Laid(b, mid, hi) && lo <= mid
    ensures Laid(b, lo, hi)
  {
  }

  /** What Laid means: no two regions share a byte, and all of them stay inside. */
  lemma {:induction false} LaidApart(rs: seq<Region>, lo: int, hi: int, i: nat, j: nat)
    requires Laid(rs, lo, hi) && i < j < |rs|
    ensures lo <= rs[i].start && rs[i].start + rs[i].len <= rs[j].start && rs[j].start + rs[j].len <= hi
    ensures rs[i].start % 4 == 0 && rs[j].start % 4 == 0
    decreases |rs|
  {
    LaidWithin(rs[1..], rs[0].start + rs[0].len, hi, j - 1);
    if i > 0 { LaidApart(rs[1..], rs[0].start + rs[0].len, hi, i - 1, j - 1); }
  }

  lemma {:induction false} LaidWithin(rs: seq<Region>, lo: int, hi: int, j: nat)
    requires Laid(rs, lo, hi) && j < |rs|
    ensures lo <= rs[j].start && rs[j].start + rs[j].len <= hi && rs[j].start % 4 == 0
    decreases |rs|
  {
    if j > 0 {
      LaidWithin(rs[1..], rs[0].start + rs[0].len, hi, j - 1);
    } else {
      LaidEnds(rs[1..], rs[0].start + rs[0].len, hi);
    }
  }

  lemma {:induction false} LaidEnds(rs: seq<Region>, lo: int, hi: int)
    requires Laid(rs, lo, hi)
    ensures lo <= hi
    decreases |rs|
  {
    if rs != [] { LaidEnds(rs[1..], rs[0].start + rs[0].len, hi); }
  }

  /** On a 4-aligned base all tables, names and files are aligned, disjoint and inside the folder's bytes. */
  lemma {:induction false} RegionsLaid(cs: seq<Node>, base: int)
    requires base % 4 == 0
    ensures Laid(Regions(cs, base), base, base + |FolderData(cs, base)|)
    decreases cs, 1
  {
    var a := base + 16 * |cs|;
    ChildrenLaid(cs, a);
    var rest := ChildRegions(cs, a);
    assert Regions(cs, base)[1..] == rest;
  }

  /** The same for the whole image: the root entry, the root name and everything below. */
  function ImageRegions(children: seq<Node>, base: int): seq<Region> {
    [Region(base, 16), Region(base + 16, |BinName(ROOT)|)] + Regions(children, base + 20)
  }

  lemma ImageLaid(children: seq<Node>, base: int)
    requires base % 4 == 0
    ensures Laid(ImageRegions(children, base), base, base + |Image(children, base)|)
  {
    RegionsLaid(children, base + 20);
    hide Regions, FolderData;
    var root, name, rest := Region(base, 16), Region(base + 16, |BinName(ROOT)|), Regions(children, base + 20);
    assert |BinName(ROOT)| == 4;
    OneLaid(name, base + 16, base + 20);
    OneLaid(root, base, base + 16);
    LaidJoin([root], [name], base, base + 16, base + 20);
    LaidJoin([root] + [name], rest, base, base + 20, base + |Image(children, base)|);
    assert [root] + [name] + rest == ImageRegions(children, base);
  }

  lemma {:induction false} ChildrenLaid(cs: seq<Node>, addr: int)
    requires addr % 4 == 0
    ensures Laid(ChildRegions(cs, addr), addr, addr + |Payload(cs, addr)|)
    decreases cs, 0
  {
    hide Chunk, Payload, BinName, Regions, Laid, ChildRegions, Own, FolderData, Padded, Data, Dirents;
    if cs == [] {
      NoChildren(addr);
    } else {
      var c, addr' := cs[0], addr + |Chunk(cs[0], addr)|;
      var data := addr + |BinName(c.name)|;
      ChunkCovers(c, addr);
      if c.Folder? { RegionsLaid(c.children, data); }
      OwnLaid(c, addr);
      ChildrenLaid(cs[1..], addr');
      RegionsCons(cs, addr);
      Unfold(cs, addr);
      LaidJoin([Region(addr, |BinName(c.name)|)] + Own(c, data), ChildRegions(cs[1..], addr'), addr, addr',
          addr + |Payload(cs, addr)|);
    }
  }

  lemma NoChildren(addr: int)
    ensures Laid(ChildRegions([], addr), addr, addr + |Payload([], addr)|)
  {
  }

  lemma RegionsCons(cs: seq<Node>, addr: int)
    requires cs != []
    ensures var c := cs[0];
      ChildRegions(cs, addr) == [Region(addr, |BinName(c.name)|)] + Own(c, addr + |BinName(c.name)|)
                                + ChildRegions(cs[1..], addr + |Chunk(c, addr)|)
  {
  }

  lemma OwnLaid(c: Node, addr: int)
    requires addr % 4 == 0
    requires var data := addr + |BinName(c.name)|;
      c.Folder? ==> Laid(Regions(c.children, data), data, data + |FolderData(c.children, data)|)
    ensures Laid([Region(addr, |BinName(c.name)|)] + Own(c, addr + |BinName(c.name)|), addr, addr + |Chunk(c, addr)|)
  {
    ChunkCovers(c, addr);
    hide Chunk, BinName, Regions, Laid, FolderData;
    var data, addr' := addr + |BinName(c.name)|, addr + |Chunk(c, addr)|;
    if c.File? {
      OneLaid(Region(data, |c.data|), data, addr');
    } else {
      LaidUpper(Regions(c.children, data), data, data + |FolderData(c.children, data)|, addr');
    }
    OneLaid(Region(addr, |BinName(c.name)|), addr, data);
    LaidJoin([Region(addr, |BinName(c.name)|)], Own(c, data), addr, data, addr');
  }

  lemma ChunkCovers(c: Node, addr: int)
    ensures var data := addr + |BinName(c.name)|;
      && |BinName(c.name)| % 4 == 0 && |Chunk(c, addr)| % 4 == 0
      && data + (if c.File? then |c.data| else |FolderData(c.children, data)|) <= addr + |Chunk(c, addr)|
  {
    var data := addr + |BinName(c.name)|;
    assert |Data(c, data)| == if c.File? then |c.data| else |FolderData(c.children, data)| by { DataIs(c, data); }
    hide BinName, Padded, Data, FolderData;
    assert Chunk(c, addr) == BinName(c.name) + Padded(Data(c, data));
  }

  lemma DataIs(c: Node, data: int)
    ensures Data(c, data) == if c.File? then c.data else FolderData(c.children, data)
  {
  }

  lemma LaidUpper(rs: seq<Region>, lo: int, mid: int, hi: int)
    requires Laid(rs, lo, mid) && mid <= hi
    ensures Laid(rs, lo, hi)
  {
    assert rs + [] == rs;
    LaidJoin(rs, [], lo, mid, hi);
  }

  lemma OneLaid(r: Region, lo: int, hi: int)
    requires r.start % 4 == 0 && r.len >= 0 && lo <= r.start && r.start + r.len <= hi
    ensures Laid([r], lo, hi)
  {
  }
}
