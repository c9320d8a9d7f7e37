/**
 * pkt-lines and the side-band transfer of a pack, with the client's reader beside the
 * server's writer. The format is the "pkt-line Format" section of gitprotocol-common and
 * the "Packfile Data" section of gitprotocol-pack.
 */
module GitPktLine {
  import opened Text
  import opened GitBytes

  const CHUNK_SIZE := 65516
  const FLUSH: Bytes := Ascii("0000")

  function PktLine(s: Bytes): Bytes {
    Hex4(|s| + 4) + s
  }

  // ---- The reader --------------------------------------------------------------

  datatype Pkt = Flush(rest: Bytes) | Line(payload: Bytes, rest: Bytes) | Malformed

  function ReadPkt(s: Bytes): (r: Pkt)
    ensures r.Flush? ==> |r.rest| < |s|
    ensures r.Line? ==> |r.rest| < |s|
  {
    if |s| < 4 then Malformed
    else
      match ReadHex4(s)
      case None => Malformed
      case Some(n) =>
        if n == 0 then Flush(s[4..])
        else if n < 4 || n > |s| then Malformed
        else Line(s[4..n], s[n..])
  }

  /** Reads band-1 lines up to the flush and joins their data; anything else is an error. */
  function Demultiplex(s: Bytes): Option<(Bytes, Bytes)>
    decreases |s|
  {
    match ReadPkt(s)
    case Malformed => None
    case Flush(rest) => Some(([], rest))
    case Line(payload, rest) =>
      if payload == [] || payload[0] != 1 then None
      else
        match Demultiplex(rest)
        case None => None
        case Some((data, after)) => Some((payload[1..] + data, after))
  }

  /**
   * A pkt-line reads back as its payload exactly when its payload leaves room for a
   * four-digit length; beyond that the prefix grows to five digits.
   */
  lemma PktLineReads(s: Bytes, rest: Bytes)
    ensures |s| <= 65531 <==> |Hex4(|s| + 4)| == 4
    ensures |s| <= 65531 ==> ReadPkt(PktLine(s) + rest) == Line(s, rest)
  {
    if |s| <= 65531 {
      var all := PktLine(s) + rest;
      Hex4Inverts(|s| + 4, s + rest);
      assert all == Hex4(|s| + 4) + (s + rest);
      assert all[4..|s| + 4] == s && all[|s| + 4..] == rest;
    } else {
      HexLonger(|s| + 4);
    }
  }

  lemma FlushReads(rest: Bytes)
    ensures ReadPkt(FLUSH + rest) == Flush(rest)
  {
    var all := FLUSH + rest;
    assert all[0] == 48 && all[1] == 48 && all[2] == 48 && all[3] == 48;
    assert all[4..] == rest;
  }

  // ---- The side-band writer -------------------------------------------------------

  function ChunkLength(n: nat): nat {
    if n > CHUNK_SIZE then CHUNK_SIZE else n
  }

  /** The pkt-lines the loop writes, in order. */
  function SideBandLines(pack: Bytes): seq<Bytes> {
    if pack == [] then []
    else
      var n := ChunkLength(|pack|);
      [PktLine([1] + pack[..n])] + SideBandLines(pack[n..])
  }

  function Concat(lines: seq<Bytes>): Bytes {
    if lines == [] then [] else lines[0] + Concat(lines[1..])
  }

  function SideBandStream(pack: Bytes): Bytes {
    Concat(SideBandLines(pack)) + FLUSH
  }

  lemma {:induction false} StreamOfChunks(pack: Bytes, n: nat, rest: Bytes)
    requires pack != [] && n == ChunkLength(|pack|)
    ensures SideBandStream(pack) + rest == PktLine([1] + pack[..n]) + (SideBandStream(pack[n..]) + rest)
  {
    var line, lines := PktLine([1] + pack[..n]), SideBandLines(pack[n..]);
    assert SideBandLines(pack) == [line] + lines;
    assert ([line] + lines)[1..] == lines;
    assert line + Concat(lines) + FLUSH + rest == line + (Concat(lines) + FLUSH + rest);
  }

  lemma {:induction false} WrittenChunk(out: Bytes, data: Bytes, n: nat)
    requires data != [] && n == ChunkLength(|data|)
    ensures out + SideBandStream(data) == (out + PktLine([1] + data[..n])) + SideBandStream(data[n..])
  {
    StreamOfChunks(data, n, []);
    assert SideBandStream(data) + [] == SideBandStream(data);
    assert SideBandStream(data[n..]) + [] == SideBandStream(data[n..]);
  }

  method WriteSideBand(pack: Bytes) returns (out: Bytes)
    ensures out == SideBandStream(pack)
  {
    out := [];
    var data := pack;
    while |data| > 0
      invariant out + SideBandStream(data) == SideBandStream(pack)
      decreases |data|
    {
      var n := |data|;
      if n > CHUNK_SIZE {
        n := CHUNK_SIZE;
      }
      WrittenChunk(out, data, n);
      var chunk := [1] + data[..n];
      out := out + PktLine(chunk);
      data := data[n..];
    }
    assert SideBandStream(data) == FLUSH;
    out := out + FLUSH;
  }

  /** s starts with band-1 lines that carry data, then a flush, then rest. */
  ghost predicate Carries(s: Bytes, data: Bytes, rest: Bytes) {
    Demultiplex(s) == Some((data, rest))
  }

  lemma {:induction false} FlushCarriesNothing(rest: Bytes)
    ensures Carries(FLUSH + rest, [], rest)
  {
    FlushReads(rest);
  }

  lemma {:induction false} OneLineMore(data: Bytes, tail: Bytes, more: Bytes, rest: Bytes)
    requires |data| <= CHUNK_SIZE && Carries(tail, more, rest)
    ensures Carries(PktLine([1] + data) + tail, data + more, rest)
  {
    PktLineReads([1] + data, tail);
    assert ([1] + data)[1..] == data;
  }

  lemma {:induction false} ChunkCarries(pack: Bytes, n: nat, rest: Bytes)
    requires pack != [] && n == ChunkLength(|pack|)
    requires Carries(SideBandStream(pack[n..]) + rest, pack[n..], rest)
    ensures Carries(SideBandStream(pack) + rest, pack, rest)
  {
    StreamOfChunks(pack, n, rest);
    OneLineMore(pack[..n], SideBandStream(pack[n..]) + rest, pack[n..], rest);
    assert pack[..n] + pack[n..] == pack;
  }

  lemma {:induction false} StreamCarries(pack: Bytes, rest: Bytes)
    ensures Carries(SideBandStream(pack) + rest, pack, rest)
    decreases |pack|
  {
    if pack == [] {
      FlushCarriesNothing(rest);
      assert SideBandStream(pack) + rest == FLUSH + rest;
    } else {
      var n := ChunkLength(|pack|);
      StreamCarries(pack[n..], rest);
      ChunkCarries(pack, n, rest);
    }
  }

  /** Reading the stream up to the flush and dropping the band bytes yields exactly the pack. */
  lemma {:induction false} SideBandRoundTrip(pack: Bytes, rest: Bytes)
    ensures Demultiplex(SideBandStream(pack) + rest) == Some((pack, rest))
  {
    StreamCarries(pack, rest);
  }

  /** Every line carries data on band 1; the largest is 65521 bytes, prefix included, so that four hex digits are always enough. */
  lemma {:induction false} SideBandLineBound(pack: Bytes, i: nat)
    requires i < |SideBandLines(pack)|
    ensures |SideBandLines(pack)[i]| <= 65521
    ensures |SideBandLines(pack)[i]| > 5 && ReadHex4(SideBandLines(pack)[i]) == Some(|SideBandLines(pack)[i]|)
    ensures SideBandLines(pack)[i][4] == 1
    decreases i
  {
    var n := ChunkLength(|pack|);
    if i == 0 {
      var chunk := [1] + pack[..n];
      PktLineReads(chunk, []);
      Hex4Inverts(|chunk| + 4, chunk);
      assert PktLine(chunk) == Hex4(|chunk| + 4) + chunk;
    } else {
      SideBandLineBound(pack[n..], i - 1);
    }
  }

  /** The 65520-byte limit of gitprotocol-common is exceeded, by one byte, exactly for packs that fill a chunk. */
  lemma SideBandExceedsLimit(pack: Bytes)
    ensures |pack| >= 65516 <==> exists i :: 0 <= i < |SideBandLines(pack)| && |SideBandLines(pack)[i]| > 65520
  {
    if |pack| >= CHUNK_SIZE {
      var chunk := [1] + pack[..CHUNK_SIZE];
      PktLineReads(chunk, []);
      assert SideBandLines(pack)[0] == PktLine(chunk);
    } else {
      forall i | 0 <= i < |SideBandLines(pack)| ensures |SideBandLines(pack)[i]| <= 65520 {
        PktLineReads([1] + pack, []);
        assert pack[..|pack|] == pack && SideBandLines(pack[|pack|..]) == [];
        assert SideBandLines(pack) == [PktLine([1] + pack)];
      }
    }
  }

  // ---- The whole upload-pack response ----------------------------------------------------

  const NAK: Bytes := Ascii("NAK\n")

  function ShallowLine(commitSha: Bytes): Bytes {
    Ascii("shallow ") + HexOfBytes(commitSha) + Ascii("\n")
  }

  function Acknowledged(pack: Bytes, sideBand: bool): Bytes {
    PktLine(NAK) + (if sideBand then SideBandStream(pack) else pack)
  }

  function Response(commitSha: Bytes, pack: Bytes, deepen: bool, sideBand: bool): Bytes {
    if deepen then PktLine(ShallowLine(commitSha)) + (FLUSH + Acknowledged(pack, sideBand))
    else Acknowledged(pack, sideBand)
  }

  const DEEPEN: Bytes := Ascii("deepen")
  const SIDE_BAND: Bytes := Ascii("side-band")

  predicate FoundAt(s: Bytes, pattern: Bytes, i: nat) {
    i + |pattern| <= |s| && s[i..i + |pattern|] == pattern
  }

  /** `bytes.Contains`. */
  predicate Contains(s: Bytes, pattern: Bytes) {
    exists i :: 0 <= i <= |s| && FoundAt(s, pattern, i)
  }

  /** The pattern stands somewhere in s. */
  lemma ContainsExactly(s: Bytes, pattern: Bytes)
    ensures Contains(s, pattern) <==> exists a, b :: s == a + pattern + b
  {
    if Contains(s, pattern) {
      var i :| 0 <= i <= |s| && FoundAt(s, pattern, i);
      assert s == s[..i] + pattern + s[i + |pattern|..];
    }
    if a, b :| s == a + pattern + b {
      assert FoundAt(s, pattern, |a|);
    }
  }

  method WriteResponse(commitSha: Bytes, pack: Bytes, deepen: bool, sideBand: bool) returns (out: Bytes)
    ensures out == Response(commitSha, pack, deepen, sideBand)
  {
    var preamble: Bytes := [];
    if deepen {
      preamble := PktLine(ShallowLine(commitSha));
      preamble := preamble + FLUSH;
    }
    var answer := pack;
    if sideBand {
      answer := WriteSideBand(pack);
    }
    var nak := PktLine(NAK);
    assert nak + answer == Acknowledged(pack, sideBand);
    if deepen {
      assert preamble + (nak + answer) == PktLine(ShallowLine(commitSha)) + (FLUSH + (nak + answer));
    } else {
      assert preamble + (nak + answer) == nak + answer;
    }
    out := preamble + (nak + answer);
  }

  /** The answer depends on whether the request's body asks for a shallow clone and for side-bands. */
  method ServeUploadPack(commitSha: Bytes, pack: Bytes, body: Bytes) returns (out: Bytes)
    ensures out == Response(commitSha, pack, Contains(body, DEEPEN), Contains(body, SIDE_BAND))
  {
    var deepen, sideBand := Contains(body, DEEPEN), Contains(body, SIDE_BAND);
    out := WriteResponse(commitSha, pack, deepen, sideBand);
  }

  /** The commit that a shallow line names: the forty hexadecimal digits after "shallow ". */
  function ReadShallow(line: Bytes): Option<Bytes> {
    if |line| == 49 && line[..8] == [115, 104, 97, 108, 108, 111, 119, 32] && line[48] == 10 then ReadHex(line[8..48]) else None
  }

  /** A client's reading of the response: the shallow boundary's id if it asked for one, then the pack. */
  function ReadResponse(s: Bytes, deepen: bool, sideBand: bool): Option<(Option<Bytes>, Bytes)> {
    if deepen then
      match ReadPkt(s)
      case Line(shallow, rest) =>
        var id, after := ReadShallow(shallow), ReadPkt(rest);
        if id.None? || !after.Flush? then None
        else
          var pack := ReadAcknowledged(after.rest, sideBand);
          if pack.None? then None else Some((id, pack.value))
      case _ => None
    else
      var pack := ReadAcknowledged(s, sideBand);
      if pack.None? then None else Some((None, pack.value))
  }

  function ReadAcknowledged(s: Bytes, sideBand: bool): Option<Bytes> {
    var p := ReadPkt(s);
    if !p.Line? || p.payload != [78, 65, 75, 10] then None
    else if !sideBand then Some(p.rest)
    else
      var data := Demultiplex(p.rest);
      if data.None? || data.value.1 != [] then None else Some(data.value.0)
  }

  lemma AcknowledgedReads(pack: Bytes, sideBand: bool)
    ensures ReadAcknowledged(Acknowledged(pack, sideBand), sideBand) == Some(pack)
  {
    var body := if sideBand then SideBandStream(pack) else pack;
    PktLineReads(NAK, body);
    assert NAK == [78, 65, 75, 10];
    SideBandRoundTrip(pack, []);
    assert SideBandStream(pack) + [] == SideBandStream(pack);
  }

  lemma ShallowLineReads(commitSha: Bytes)
    requires |commitSha| == 20
    ensures |ShallowLine(commitSha)| == 49 && ReadShallow(ShallowLine(commitSha)) == Some(commitSha)
  {
    var line := ShallowLine(commitSha);
    HexReads(commitSha);
    assert line[..8] == [115, 104, 97, 108, 108, 111, 119, 32];
    assert line[8..48] == HexOfBytes(commitSha);
  }

  lemma ResponseReads(commitSha: Bytes, pack: Bytes, deepen: bool, sideBand: bool)
    requires |commitSha| == 20
    ensures ReadResponse(Response(commitSha, pack, deepen, sideBand), deepen, sideBand)
            == Some((if deepen then Some(commitSha) else None, pack))
  {
    AcknowledgedReads(pack, sideBand);
    if deepen {
      ShallowLineReads(commitSha);
      PktLineReads(ShallowLine(commitSha), FLUSH + Acknowledged(pack, sideBand));
      FlushReads(Acknowledged(pack, sideBand));
    }
  }

  /**
   * For every pack and every request body the client that sent it reads back that pack, and the id
   * of the commit if it asked for a shallow clone.
   */
  lemma ResponseRoundTrip(commitSha: Bytes, pack: Bytes, body: Bytes)
    requires |commitSha| == 20
    ensures var deepen, sideBand := Contains(body, Ascii("deepen")), Contains(body, Ascii("side-band"));
            ReadResponse(Response(commitSha, pack, Contains(body, DEEPEN), Contains(body, SIDE_BAND)), deepen, sideBand)
            == Some((if deepen then Some(commitSha) else None, pack))
  {
    ResponseReads(commitSha, pack, Contains(body, DEEPEN), Contains(body, SIDE_BAND));
  }
}
