/**
 * Pack files: entry headers, the container, and the repository snapshot built from a set
 * of recipe files, each with the reader that undoes it. The format is the "pack-*.pack
 * files have the following format" section of gitformat-pack. Compression and hashing are
 * parameters: a self-delimiting compressor and a 20-byte digest.
 */
module GitPack {
  import opened Text
  import opened GitBytes

  // ---- Type-and-size header ---------------------------------------------------

  /** `b|0x80` on a byte. */
  function WithMore(b: Byte): Byte {
    b % 128 + 128
  }

  function SizeBytes(b: Byte, size: nat): Bytes
    decreases size
  {
    if size == 0 then [b] else [WithMore(b)] + SizeBytes(size % 128, size / 128)
  }

  function TypeSize(objType: nat, size: nat): Bytes {
    SizeBytes((objType * 16 + size % 16) % 256, size / 16)
  }

  method PackTypeSize(objType: nat, size: nat) returns (buf: Bytes)
    ensures buf == TypeSize(objType, size)
  {
    buf := [];
    var b: Byte := (objType * 16 + size % 16) % 256;
    var left: nat := size / 16;
    while left > 0
      invariant buf + SizeBytes(b, left) == TypeSize(objType, size)
      decreases left
    {
      assert buf + SizeBytes(b, left) == (buf + [WithMore(b)]) + SizeBytes(left % 128, left / 128);
      buf := buf + [WithMore(b)];
      b := left % 128;
      left := left / 128;
    }
    buf := buf + [b];
  }

  /** Little-endian groups of seven bits, the high bit meaning that more follow. */
  function ReadSize(s: Bytes): Option<(nat, Bytes)> {
    if s == [] then None
    else if s[0] < 128 then Some((s[0], s[1..]))
    else
      match ReadSize(s[1..])
      case None => None
      case Some((high, rest)) => var h: int := high; Some((s[0] - 128 + 128 * h, rest))
  }

  function ReadTypeSize(s: Bytes): Option<(nat, nat, Bytes)> {
    if s == [] then None
    else
      var objType, low := s[0] % 128 / 16, s[0] % 16;
      if s[0] < 128 then Some((objType, low, s[1..]))
      else
        match ReadSize(s[1..])
        case None => None
        case Some((high, rest)) => var h: int := high; Some((objType, low + 16 * h, rest))
  }

  lemma {:induction false} SizeBytesRead(b: Byte, size: nat, rest: Bytes)
    requires b < 128
    ensures ReadSize(SizeBytes(b, size) + rest) == Some((b + 128 * (size as int), rest))
    decreases size
  {
    var s := SizeBytes(b, size) + rest;
    if size > 0 {
      assert s[1..] == SizeBytes(size % 128, size / 128) + rest;
      SizeBytesRead(size % 128, size / 128, rest);
      assert size == size % 128 + 128 * (size / 128);
    } else {
      assert s[1..] == rest;
    }
  }

  /** The first byte of a header, whether or not more follow. */
  lemma FirstSizeByte(objType: nat, size: nat)
    requires objType < 8
    ensures var b: Byte := objType * 16 + size % 16;
            && b < 128 && b / 16 == objType && b % 16 == size % 16
            && (b + 128) % 128 == b && (b + 128) % 16 == b % 16 && WithMore(b) == b + 128
    ensures TypeSize(objType, size) == SizeBytes(objType * 16 + size % 16, size / 16)
  {
  }

  /** Decoding a header followed by anything returns its type, its size and exactly what followed. */
  lemma TypeSizeRoundTrip(objType: nat, size: nat, rest: Bytes)
    requires objType < 8
    ensures ReadTypeSize(TypeSize(objType, size) + rest) == Some((objType, size, rest))
  {
    var b: Byte := objType * 16 + size % 16;
    var s := TypeSize(objType, size) + rest;
    var left := size / 16;
    FirstSizeByte(objType, size);
    assert size == size % 16 + 16 * left;
    if left > 0 {
      assert s[0] == b + 128;
      assert s[1..] == SizeBytes(left % 128, left / 128) + rest;
      SizeBytesRead(left % 128, left / 128, rest);
      assert left == left % 128 + 128 * (left / 128);
    } else {
      assert s[1..] == rest;
    }
  }

  function Pow128(i: nat): (r: nat)
    ensures r > 0
  {
    if i == 0 then 1 else 128 * Pow128(i - 1)
  }

  lemma {:induction false} SizeByteAt(b: Byte, size: nat, i: nat)
    requires b < 128 && i < |SizeBytes(b, size)|
    ensures var bytes := SizeBytes(b, size);
            bytes[i] == (if i == 0 then b else size / Pow128(i - 1) % 128) + (if i < |bytes| - 1 then 128 else 0)
    decreases i
  {
    if i > 0 {
      var left := size / 128;
      SizeByteAt(size % 128, left, i - 1);
      if i > 1 {
        DivideInTurn(size, Pow128(i - 2));
      }
    }
  }

  lemma DivideInTurn(n: nat, m: nat)
    requires m > 0
    ensures n / 128 / m == n / (128 * m)
  {
    var q, r := n / 128 / m, n % 128 + 128 * (n / 128 % m);
    assert n / 128 == q * m + n / 128 % m;
    assert n == q * (128 * m) + r;
    QuotientIs(n, 128 * m, q, r);
  }

  /** The header bit by bit: type and lowest four bits first, then groups of seven, the high bit set on all but the last. */
  lemma TypeSizeLayout(objType: nat, size: nat, i: nat)
    requires objType < 8 && i < |TypeSize(objType, size)|
    ensures var bytes := TypeSize(objType, size);
            bytes[i] == (if i == 0 then objType * 16 + size % 16 else size / 16 / Pow128(i - 1) % 128)
                        + (if i < |bytes| - 1 then 128 else 0)
  {
    FirstSizeByte(objType, size);
    SizeByteAt(objType * 16 + size % 16, size / 16, i);
  }

  // ---- The container ------------------------------------------------------------

  datatype Codec = Codec(
    compress: Bytes -> Bytes,
    inflate: Bytes -> Option<(Bytes, Bytes)>,
    hash: Bytes -> Bytes)

  /** Compressed data says where it ends, and a digest is 20 bytes. */
  ghost predicate Lawful(c: Codec) {
    && (forall x, rest :: c.inflate(c.compress(x) + rest) == Some((x, rest)))
    && (forall x :: |c.hash(x)| == 20)
  }

  /** A self-delimiting code: every byte is announced by a one, and a zero ends the data. */
  function Escape(x: Bytes): Bytes {
    if x == [] then [0] else [1, x[0]] + Escape(x[1..])
  }

  function Unescape(s: Bytes): Option<(Bytes, Bytes)>
    decreases |s|
  {
    if s == [] then None
    else if s[0] == 0 then Some(([], s[1..]))
    else if s[0] != 1 || |s| < 2 then None
    else
      match Unescape(s[2..])
      case None => None
      case Some((x, rest)) => Some(([s[1]] + x, rest))
  }

  lemma {:induction false} UnescapeInverts(x: Bytes, rest: Bytes)
    ensures Unescape(Escape(x) + rest) == Some((x, rest))
  {
    var s := Escape(x) + rest;
    if x == [] {
      assert s[1..] == rest;
    } else {
      assert s[2..] == Escape(x[1..]) + rest;
      UnescapeInverts(x[1..], rest);
      assert [x[0]] + x[1..] == x;
    }
  }

  /** What is asked of compressor and digest can be met. */
  lemma LawfulCodecExists()
    ensures exists c :: Lawful(c)
  {
    var c := Codec(x => Escape(x), s => Unescape(s), _ => seq(20, _ => 0));
    forall x, rest ensures c.inflate(c.compress(x) + rest) == Some((x, rest)) {
      UnescapeInverts(x, rest);
    }
    assert Lawful(c);
  }

  datatype PackObject = PackObject(objType: nat, content: Bytes)

  const COMMIT: nat := 1
  const TREE: nat := 2
  const BLOB: nat := 3
  const MAGIC: Bytes := Ascii("PACK")

  function Entry(c: Codec, o: PackObject): Bytes {
    TypeSize(o.objType, |o.content|) + c.compress(o.content)
  }

  function Entries(c: Codec, objs: seq<PackObject>): Bytes {
    if objs == [] then [] else Entry(c, objs[0]) + Entries(c, objs[1..])
  }

  function PackHeader(count: nat): (r: Bytes)
    ensures |r| == 12
  {
    MAGIC + BigEndian32(2) + BigEndian32(count)
  }

  function PackBody(c: Codec, objs: seq<PackObject>): Bytes {
    PackHeader(|objs|) + Entries(c, objs)
  }

  function AssemblePack(c: Codec, objs: seq<PackObject>): Bytes {
    PackBody(c, objs) + c.hash(PackBody(c, objs))
  }

  function ReadEntry(c: Codec, s: Bytes): Option<(PackObject, Bytes)> {
    match ReadTypeSize(s)
    case None => None
    case Some((objType, size, rest)) =>
      match c.inflate(rest)
      case None => None
      case Some((content, after)) => if |content| == size then Some((PackObject(objType, content), after)) else None
  }

  function ReadEntries(c: Codec, count: nat, s: Bytes): Option<(seq<PackObject>, Bytes)> {
    if count == 0 then Some(([], s))
    else
      match ReadEntry(c, s)
      case None => None
      case Some((o, rest)) =>
        match ReadEntries(c, count - 1, rest)
        case None => None
        case Some((os, after)) => Some(([o] + os, after))
  }

  /** "PACK", version 2, as many entries as counted, and a trailing digest of all that precedes it. */
  function ParsePack(c: Codec, s: Bytes): Option<seq<PackObject>> {
    if |s| < 32 || s[..4] != [80, 65, 67, 75] || ReadBigEndian32(s[4..]) != 2 then None
    else
      match ReadEntries(c, ReadBigEndian32(s[8..]), s[12..])
      case None => None
      case Some((objs, digest)) =>
        if |digest| == 20 && digest == c.hash(s[..|s| - 20]) then Some(objs) else None
  }

  ghost predicate TypesFit(objs: seq<PackObject>) {
    forall i :: 0 <= i < |objs| ==> objs[i].objType < 8
  }

  lemma EntryReads(c: Codec, o: PackObject, rest: Bytes)
    requires Lawful(c) && o.objType < 8
    ensures ReadEntry(c, Entry(c, o) + rest) == Some((o, rest))
    ensures |Entry(c, o)| > 0
  {
    TypeSizeRoundTrip(o.objType, |o.content|, c.compress(o.content) + rest);
    assert Entry(c, o) + rest == TypeSize(o.objType, |o.content|) + (c.compress(o.content) + rest);
  }

  /** Reading that many entries of s yields the objects and leaves the rest. */
  ghost predicate Yields(c: Codec, count: nat, s: Bytes, os: seq<PackObject>, rest: Bytes) {
    ReadEntries(c, count, s) == Some((os, rest))
  }

  lemma {:induction false} ReadOneMore(c: Codec, count: nat, s: Bytes, o: PackObject, more: Bytes, os: seq<PackObject>, rest: Bytes)
    requires count > 0 && ReadEntry(c, s) == Some((o, more)) && Yields(c, count - 1, more, os, rest)
    ensures Yields(c, count, s, [o] + os, rest)
  {
  }

  lemma {:induction false} ReadNone(c: Codec, s: Bytes)
    ensures Yields(c, 0, s, [], s)
  {
  }

  lemma FirstEntry(c: Codec, objs: seq<PackObject>, tail: Bytes)
    requires objs != []
    ensures Entries(c, objs) + tail == Entry(c, objs[0]) + (Entries(c, objs[1..]) + tail)
  {
  }

  lemma SlicesOfTail(objs: seq<PackObject>, count: nat)
    requires 0 < count <= |objs|
    ensures [objs[0]] + objs[1..][..count - 1] == objs[..count] && objs[1..][count - 1..] == objs[count..]
  {
  }

  /** Reading any number of entries returns that prefix of the objects and stops exactly after it. */
  lemma {:induction false} EntriesRead(c: Codec, objs: seq<PackObject>, count: nat, tail: Bytes)
    requires Lawful(c) && TypesFit(objs) && count <= |objs|
    ensures Yields(c, count, Entries(c, objs) + tail, objs[..count], Entries(c, objs[count..]) + tail)
    decreases count
  {
    if count == 0 {
      assert objs[0..] == objs;
      ReadNone(c, Entries(c, objs) + tail);
    } else {
      var first, rest := objs[0], objs[1..];
      var more := Entries(c, rest) + tail;
      FirstEntry(c, objs, tail);
      EntryReads(c, first, more);
      EntriesRead(c, rest, count - 1, tail);
      ReadOneMore(c, count, Entry(c, first) + more, first, more, rest[..count - 1], Entries(c, rest[count - 1..]) + tail);
      SlicesOfTail(objs, count);
    }
  }

  lemma PackHeaderReads(count: nat, rest: Bytes)
    ensures var s := PackHeader(count) + rest;
            s[..4] == [80, 65, 67, 75] && ReadBigEndian32(s[4..]) == 2 && s[12..] == rest
            && ReadBigEndian32(s[8..]) == count % 0x1_0000_0000
  {
    var s := PackHeader(count) + rest;
    assert s[4..] == BigEndian32(2) + (BigEndian32(count) + rest);
    assert s[8..] == BigEndian32(count) + rest;
    BigEndian32Inverts(2, BigEndian32(count) + rest);
    BigEndian32Inverts(count, rest);
  }

  lemma {:induction false} ParsedParts(c: Codec, s: Bytes, rest: Bytes, objs: seq<PackObject>, digest: Bytes)
    requires |s| >= 32 && s[..4] == [80, 65, 67, 75] && ReadBigEndian32(s[4..]) == 2 && s[12..] == rest
    requires ReadEntries(c, ReadBigEndian32(s[8..]), rest) == Some((objs, digest))
    ensures ParsePack(c, s) == if |digest| == 20 && digest == c.hash(s[..|s| - 20]) then Some(objs) else None
  {
  }

  lemma {:induction false} AssembledParts(c: Codec, objs: seq<PackObject>, digest: Bytes)
    requires |digest| == 20 && digest == c.hash(PackBody(c, objs))
    ensures var s := AssemblePack(c, objs);
            && s == PackHeader(|objs|) + (Entries(c, objs) + digest)
            && |s| >= 32 && s[..|s| - 20] == PackBody(c, objs)
  {
  }

  lemma {:induction false} PackReads(c: Codec, objs: seq<PackObject>, count: nat, digest: Bytes)
    requires Lawful(c) && TypesFit(objs) && count == |objs| % 0x1_0000_0000 && digest == c.hash(PackBody(c, objs))
    ensures ParsePack(c, AssemblePack(c, objs)) ==
            if Entries(c, objs[count..]) + digest == digest then Some(objs[..count]) else None
  {
    var s := AssemblePack(c, objs);
    var rest := Entries(c, objs) + digest;
    AssembledParts(c, objs, digest);
    PackHeaderReads(|objs|, rest);
    EntriesRead(c, objs, count, digest);
    var more := Entries(c, objs[count..]);
    ParsedParts(c, s, rest, objs[..count], more + digest);
    OnlyDigestLeft(more, digest);
  }

  lemma OnlyDigestLeft(more: Bytes, digest: Bytes)
    ensures |more + digest| == |digest| <==> more + digest == digest
  {
    if |more + digest| == |digest| {
      assert more == [];
    }
  }

  /** The pack parses back to its objects exactly while their number fits the 32-bit count field. */
  lemma PackRoundTrip(c: Codec, objs: seq<PackObject>)
    requires Lawful(c) && TypesFit(objs)
    ensures ParsePack(c, AssemblePack(c, objs)) == Some(objs) <==> |objs| < 0x1_0000_0000
  {
    var digest := c.hash(PackBody(c, objs));
    var count := |objs| % 0x1_0000_0000;
    PackReads(c, objs, count, digest);
    if |objs| < 0x1_0000_0000 {
      assert objs[..count] == objs && objs[count..] == [];
      assert Entries(c, objs[count..]) + digest == digest;
    } else {
      assert |objs[..count]| < |objs|;
    }
  }

  // ---- Loose-object data ------------------------------------------------------------

  /** `<type> <size>\0<content>`, the bytes that are hashed into an object id. */
  function ObjectData(objType: Bytes, content: Bytes): Bytes {
    objType + [32] + Ascii(Decimal(|content|)) + [0] + content
  }

  /** Text before a separator that it does not contain is determined by the whole. */
  lemma SplitAtFirst(a: Bytes, sep: Byte, x: Bytes, b: Bytes, y: Bytes)
    requires sep !in a && sep !in b && a + [sep] + x == b + [sep] + y
    ensures a == b && x == y
  {
    FirstIndexAfter(a, sep, x);
    FirstIndexAfter(b, sep, y);
    var s := a + [sep] + x;
    assert |a| == |b|;
    assert s[..|a|] == a && s[..|b|] == b;
    assert s[|a| + 1..] == x && s[|b| + 1..] == y;
  }

  lemma Regroup(a: Bytes, b: Bytes, c: Bytes, d: Bytes, e: Bytes)
    ensures a + b + c + d + e == a + b + (c + d + e)
  {
  }

  lemma SizeThenContent(objType: Bytes, content: Bytes)
    ensures ObjectData(objType, content) == objType + [32] + (Ascii(Digits(|content|)) + [0] + content)
  {
    var size := Ascii(Decimal(|content|));
    assert size == Ascii(Digits(|content|));
    Regroup(objType, [32], size, [0], content);
  }

  /** Different objects have different hash inputs: type and content can both be read off. */
  lemma ObjectDataInjective(t: Bytes, a: Bytes, u: Bytes, b: Bytes)
    requires 32 !in t && 32 !in u
    ensures ObjectData(t, a) == ObjectData(u, b) <==> t == u && a == b
  {
    if ObjectData(t, a) == ObjectData(u, b) {
      var da, db := Ascii(Digits(|a|)), Ascii(Digits(|b|));
      SizeThenContent(t, a);
      SizeThenContent(u, b);
      SplitAtFirst(t, 32, da + [0] + a, u, db + [0] + b);
      DigitsHaveNoNul(|a|);
      DigitsHaveNoNul(|b|);
      SplitAtFirst(da, 0, a, db, b);
    }
  }

  lemma DigitsHaveNoNul(n: nat)
    ensures 0 !in Ascii(Digits(n))
  {
    forall i | 0 <= i < |Digits(n)| ensures Ascii(Digits(n))[i] != 0 {
      assert IsDigit(Digits(n)[i]);
    }
  }

  /** Type and content of hashed data: type, space, size in decimal, NUL, and that many bytes. */
  function ReadObject(s: Bytes): Option<(Bytes, Bytes)> {
    var space, nul := FirstIndex(s, 32), FirstIndex(s, 0);
    if space < nul < |s| && s[space + 1..nul] == Ascii(Digits(|s| - nul - 1)) then Some((s[..space], s[nul + 1..]))
    else None
  }

  lemma ObjectDataReads(objType: Bytes, content: Bytes)
    requires 32 !in objType && 0 !in objType
    ensures ReadObject(ObjectData(objType, content)) == Some((objType, content))
  {
    var s, size := ObjectData(objType, content), Ascii(Digits(|content|));
    SizeThenContent(objType, content);
    FirstIndexAfter(objType, 32, size + [0] + content);
    DigitsHaveNoNul(|content|);
    var front := objType + [32] + size;
    assert s == front + [0] + content;
    FirstIndexAfter(front, 0, content);
    assert s[|objType| + 1..|front|] == size && s[|front| + 1..] == content && s[..|objType|] == objType;
  }

  /** The id is the digest of data that reads as the object. */
  ghost predicate IsId(c: Codec, id: Bytes, objType: string, content: Bytes) {
    exists data :: ReadObject(data) == Some((Ascii(objType), content)) && id == c.hash(data)
  }

  // ---- The repository snapshot ----------------------------------------------------------

  datatype Recipe = Recipe(name: Bytes, content: Bytes)
  datatype TreeEntry = TreeEntry(name: Bytes, sha: Bytes)

  const FILE_MODE: Bytes := Ascii("100644 ")

  function Sha(c: Codec, objType: string, content: Bytes): Bytes {
    c.hash(ObjectData(Ascii(objType), content))
  }

  function EntryOf(c: Codec, r: Recipe): TreeEntry {
    TreeEntry(r.name, Sha(c, "blob", r.content))
  }

  function TreeLine(c: Codec, r: Recipe): Bytes {
    FILE_MODE + r.name + [0] + Sha(c, "blob", r.content)
  }

  function Tree(c: Codec, recipes: seq<Recipe>): Bytes {
    if recipes == [] then [] else Tree(c, recipes[..|recipes| - 1]) + TreeLine(c, recipes[|recipes| - 1])
  }

  /** What follows the tree's id: no parent, and the proxy as author and committer at time zero. */
  const COMMIT_TAIL: Bytes :=
    Ascii("author lazy-tcp-proxy <noreply@localhost> 0 +0000\ncommitter lazy-tcp-proxy <noreply@localhost> 0 +0000\n\nrecipes\n")

  function CommitText(treeSha: Bytes): Bytes {
    Ascii("tree ") + HexOfBytes(treeSha) + [10] + COMMIT_TAIL
  }

  function Blobs(recipes: seq<Recipe>): (r: seq<PackObject>)
    ensures |r| == |recipes| && forall i :: 0 <= i < |r| ==> r[i] == PackObject(BLOB, recipes[i].content)
  {
    seq(|recipes|, i requires 0 <= i < |recipes| => PackObject(BLOB, recipes[i].content))
  }

  function SnapshotObjects(c: Codec, recipes: seq<Recipe>): seq<PackObject> {
    var tree := Tree(c, recipes);
    Blobs(recipes) + [PackObject(TREE, tree), PackObject(COMMIT, CommitText(Sha(c, "tree", tree)))]
  }

  lemma {:induction false} EntriesConcat(c: Codec, a: seq<PackObject>, b: seq<PackObject>)
    ensures Entries(c, a + b) == Entries(c, a) + Entries(c, b)
  {
    if a == [] {
      assert a + b == b;
    } else {
      assert (a + b)[1..] == a[1..] + b;
      EntriesConcat(c, a[1..], b);
    }
  }

  lemma EntriesSnoc(c: Codec, a: seq<PackObject>, o: PackObject)
    ensures Entries(c, a + [o]) == Entries(c, a) + Entry(c, o)
  {
    EntriesConcat(c, a, [o]);
    assert [o][1..] == [];
    assert Entries(c, [o]) == Entry(c, o) + Entries(c, []);
  }

  method WriteEntry(c: Codec, w: Bytes, o: PackObject) returns (w': Bytes)
    ensures w' == w + Entry(c, o)
  {
    var header := PackTypeSize(o.objType, |o.content|);
    w' := w + header;
    w' := w' + c.compress(o.content);
  }

  method BuildTree(c: Codec, recipes: seq<Recipe>) returns (tree: Bytes)
    ensures tree == Tree(c, recipes)
  {
    tree := [];
    for i := 0 to |recipes|
      invariant tree == Tree(c, recipes[..i])
    {
      assert recipes[..i + 1][..i] == recipes[..i];
      tree := tree + TreeLine(c, recipes[i]);
    }
    assert recipes[..|recipes|] == recipes;
  }

  method WriteBlobs(c: Codec, w: Bytes, recipes: seq<Recipe>) returns (w': Bytes)
    ensures w' == w + Entries(c, Blobs(recipes))
  {
    w' := w;
    ghost var blobs := Blobs(recipes);
    assert w + Entries(c, blobs[..0]) == w;
    for i := 0 to |recipes|
      invariant w' == w + Entries(c, blobs[..i])
    {
      EntriesSnoc(c, blobs[..i], blobs[i]);
      assert blobs[..i + 1] == blobs[..i] + [blobs[i]];
      w' := WriteEntry(c, w', PackObject(BLOB, recipes[i].content));
    }
    assert blobs[..|recipes|] == blobs;
  }

  lemma SnapshotEntries(c: Codec, blobs: seq<PackObject>, tree: PackObject, commit: PackObject)
    ensures Entries(c, blobs + [tree, commit]) == Entries(c, blobs) + Entry(c, tree) + Entry(c, commit)
  {
    EntriesSnoc(c, blobs, tree);
    EntriesSnoc(c, blobs + [tree], commit);
    assert blobs + [tree, commit] == blobs + [tree] + [commit];
  }

  lemma AppendThree(header: Bytes, blobs: Bytes, tree: Bytes, commit: Bytes)
    ensures header + blobs + tree + commit == header + (blobs + tree + commit)
  {
  }

  method BuildSnapshot(c: Codec, recipes: seq<Recipe>) returns (commitSha: Bytes, pack: Bytes)
    ensures pack == AssemblePack(c, SnapshotObjects(c, recipes))
    ensures IsId(c, commitSha, "commit", SnapshotObjects(c, recipes)[|recipes| + 1].content)
  {
    var treeBytes := BuildTree(c, recipes);
    var commitBytes := CommitText(Sha(c, "tree", treeBytes));
    commitSha := Sha(c, "commit", commitBytes);
    var tree, commit := PackObject(TREE, treeBytes), PackObject(COMMIT, commitBytes);
    SnapshotEntries(c, Blobs(recipes), tree, commit);
    AppendThree(PackHeader(|recipes| + 2), Entries(c, Blobs(recipes)), Entry(c, tree), Entry(c, commit));

    var w := WriteBlobs(c, PackHeader(|recipes| + 2), recipes);
    w := WriteEntry(c, w, tree);
    w := WriteEntry(c, w, commit);
    pack := w + c.hash(w);
    ShaIsId(c, "commit", commitBytes);
  }

  /** The reader of a flat tree: mode 100644, name up to NUL, 20 bytes of object id, repeated. */
  function ReadTree(s: Bytes): Option<seq<TreeEntry>>
    decreases |s|
  {
    if s == [] then Some([])
    else if |s| < 7 || s[..7] != [49, 48, 48, 54, 52, 52, 32] then None
    else
      var nul := FirstIndex(s[7..], 0);
      if |s| < 7 + nul + 21 then None
      else
        match ReadTree(s[7 + nul + 21..])
        case None => None
        case Some(entries) => Some([TreeEntry(s[7..7 + nul], s[7 + nul + 1..7 + nul + 21])] + entries)
  }

  ghost predicate NamesHaveNoNul(recipes: seq<Recipe>) {
    forall i :: 0 <= i < |recipes| ==> 0 !in recipes[i].name
  }

  function TreeEntries(c: Codec, recipes: seq<Recipe>): (r: seq<TreeEntry>)
    ensures |r| == |recipes| && forall i :: 0 <= i < |r| ==> r[i] == EntryOf(c, recipes[i])
  {
    seq(|recipes|, i requires 0 <= i < |recipes| => EntryOf(c, recipes[i]))
  }

  /** rest is a tree that reads as the given entries. */
  ghost predicate ReadsAs(rest: Bytes, entries: seq<TreeEntry>) {
    ReadTree(rest) == Some(entries)
  }

  lemma {:induction false} TreeLineParts(name: Bytes, sha: Bytes, rest: Bytes)
    requires |sha| == 20
    ensures var s, n := FILE_MODE + name + [0] + sha + rest, |name|;
            && |FILE_MODE| == 7 && |s| >= 7 + n + 21
            && s[..7] == [49, 48, 48, 54, 52, 52, 32] && s[7..] == name + [0] + (sha + rest)
            && s[7..7 + n] == name && s[7 + n + 1..7 + n + 21] == sha && s[7 + n + 21..] == rest
  {
  }

  lemma {:induction false} TreeLineReads(c: Codec, r: Recipe, rest: Bytes, entries: seq<TreeEntry>)
    requires Lawful(c) && 0 !in r.name && ReadsAs(rest, entries)
    ensures ReadsAs(TreeLine(c, r) + rest, [EntryOf(c, r)] + entries)
  {
    var sha := Sha(c, "blob", r.content);
    TreeLineParts(r.name, sha, rest);
    FirstIndexAfter(r.name, 0, sha + rest);
  }

  lemma {:induction false} TreeReads(c: Codec, recipes: seq<Recipe>, rest: Bytes, entries: seq<TreeEntry>)
    requires Lawful(c) && NamesHaveNoNul(recipes) && ReadsAs(rest, entries)
    ensures ReadsAs(Tree(c, recipes) + rest, TreeEntries(c, recipes) + entries)
    decreases |recipes|
  {
    if recipes == [] {
      assert Tree(c, recipes) + rest == rest;
      assert TreeEntries(c, recipes) + entries == entries;
    } else {
      var front, last := recipes[..|recipes| - 1], recipes[|recipes| - 1];
      assert NamesHaveNoNul(front);
      TreeLineReads(c, last, rest, entries);
      TreeReads(c, front, TreeLine(c, last) + rest, [EntryOf(c, last)] + entries);
      TreeSnoc(c, recipes, rest);
      TreeEntriesSnoc(c, recipes, entries);
    }
  }

  lemma TreeEntriesSnoc(c: Codec, recipes: seq<Recipe>, entries: seq<TreeEntry>)
    requires recipes != []
    ensures TreeEntries(c, recipes) + entries
         == TreeEntries(c, recipes[..|recipes| - 1]) + ([EntryOf(c, recipes[|recipes| - 1])] + entries)
  {
  }

  lemma TreeSnoc(c: Codec, recipes: seq<Recipe>, rest: Bytes)
    requires recipes != []
    ensures Tree(c, recipes) + rest
         == Tree(c, recipes[..|recipes| - 1]) + (TreeLine(c, recipes[|recipes| - 1]) + rest)
  {
  }

  // ---- What a clone sees ---------------------------------------------------------------

  /** The id that a commit names: the forty hexadecimal digits after "tree ". */
  function ReadCommit(s: Bytes): Option<Bytes> {
    if |s| > 45 && s[..5] == [116, 114, 101, 101, 32] && s[45] == 10 then ReadHex(s[5..45]) else None
  }

  /** A commit of the given tree without parents, by the proxy, at time zero. */
  ghost predicate IsRootCommit(s: Bytes, tree: Bytes) {
    && ReadCommit(s) == Some(tree)
    && s[46..] == Ascii("author lazy-tcp-proxy <noreply@localhost> 0 +0000\ncommitter lazy-tcp-proxy <noreply@localhost> 0 +0000\n\nrecipes\n")
  }

  lemma CommitParts(hex: Bytes, rest: Bytes)
    requires |hex| == 40
    ensures var s := Ascii("tree ") + hex + [10] + rest;
            |s| > 45 && s[..5] == [116, 114, 101, 101, 32] && s[45] == 10 && s[5..45] == hex && s[46..] == rest
  {
  }

  lemma CommitReads(treeSha: Bytes)
    requires |treeSha| == 20
    ensures IsRootCommit(CommitText(treeSha), treeSha)
  {
    CommitParts(HexOfBytes(treeSha), COMMIT_TAIL);
    HexReads(treeSha);
  }

  lemma ShaIsId(c: Codec, objType: string, content: Bytes)
    requires objType in ["blob", "tree", "commit"]
    ensures IsId(c, Sha(c, objType, content), objType, content)
  {
    ObjectDataReads(Ascii(objType), content);
  }

  /** Each line of the tree gives a recipe's name and the id of its content. */
  ghost predicate ListsRecipes(c: Codec, entries: seq<TreeEntry>, recipes: seq<Recipe>) {
    && |entries| == |recipes|
    && forall i :: 0 <= i < |recipes| ==> entries[i].name == recipes[i].name && IsId(c, entries[i].sha, "blob", recipes[i].content)
  }

  lemma TreeListsRecipes(c: Codec, recipes: seq<Recipe>)
    ensures ListsRecipes(c, TreeEntries(c, recipes), recipes)
  {
    forall i | 0 <= i < |recipes| ensures IsId(c, TreeEntries(c, recipes)[i].sha, "blob", recipes[i].content) {
      ShaIsId(c, "blob", recipes[i].content);
    }
  }

  /** The objects a client finds: the recipes' blobs in order, a tree that lists them by id, and a commit that names the tree by id. */
  ghost predicate IsRepository(c: Codec, objs: seq<PackObject>, recipes: seq<Recipe>) {
    var n := |recipes|;
    && |objs| == n + 2
    && (forall i :: 0 <= i < n ==> objs[i] == PackObject(3, recipes[i].content))
    && objs[n].objType == 2 && objs[n + 1].objType == 1
    && (exists entries :: ReadTree(objs[n].content) == Some(entries) && ListsRecipes(c, entries, recipes))
    && (exists tree :: IsRootCommit(objs[n + 1].content, tree) && IsId(c, tree, "tree", objs[n].content))
  }

  /**
   * A clone recovers the recipes: the pack parses to one blob per recipe, in order, followed by a
   * tree that lists each name with the id of its blob, and a commit in which the id of that tree is read.
   */
  lemma CloneRecoversRecipes(c: Codec, recipes: seq<Recipe>)
    requires Lawful(c) && NamesHaveNoNul(recipes) && |recipes| + 2 < 0x1_0000_0000
    ensures var parsed := ParsePack(c, AssemblePack(c, SnapshotObjects(c, recipes)));
            parsed.Some? && IsRepository(c, parsed.value, recipes)
  {
    PackRoundTrip(c, SnapshotObjects(c, recipes));
    SnapshotIsRepository(c, recipes);
  }

  lemma SnapshotIsRepository(c: Codec, recipes: seq<Recipe>)
    requires Lawful(c) && NamesHaveNoNul(recipes)
    ensures IsRepository(c, SnapshotObjects(c, recipes), recipes)
  {
    var tree := Tree(c, recipes);
    var treeSha := Sha(c, "tree", tree);
    WholeTreeReads(c, recipes);
    TreeListsRecipes(c, recipes);
    ShaIsId(c, "tree", tree);
    CommitReads(treeSha);
    var objs := SnapshotObjects(c, recipes);
    assert objs[|recipes|].content == tree && objs[|recipes| + 1].content == CommitText(treeSha);
    assert forall i :: 0 <= i < |recipes| ==> objs[i] == Blobs(recipes)[i];
  }

  lemma WholeTreeReads(c: Codec, recipes: seq<Recipe>)
    requires Lawful(c) && NamesHaveNoNul(recipes)
    ensures ReadTree(Tree(c, recipes)) == Some(TreeEntries(c, recipes))
  {
    TreeReads(c, recipes, [], []);
    assert Tree(c, recipes) + [] == Tree(c, recipes);
    assert TreeEntries(c, recipes) + [] == TreeEntries(c, recipes);
  }
}
