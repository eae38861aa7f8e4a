/** src/audio/opus.rs: the WebM muxer, and the proof that its output reads back. */
module Webm {
  import opened Bytes
  import opened Io
  import opened Ebml

  /** `io::Write` for a cursor over a mutable slice: the part of `buf` from `start` on. */
  class SliceWriter {
    const buf: array<Byte>
    const start: nat
    var pos: nat

    constructor (buf: array<Byte>, start: nat)
      requires start <= buf.Length
      ensures this.buf == buf && this.start == start && pos == start && Valid()
    {
      this.buf, this.start, pos := buf, start, start;
    }

    ghost predicate Valid()
      reads this
    {
      start <= pos <= buf.Length
    }

    /** What has been written. */
    ghost function Output(): (s: seq<Byte>)
      requires Valid()
      reads this, buf
    {
      buf[start..pos]
    }

    /** Nothing outside what has been written since `from` has changed. */
    twostate predicate Untouched(from: nat)
      reads this, buf
    {
      forall i | 0 <= i < buf.Length && !(from <= i < pos) :: buf[i] == old(buf[i])
    }

    /** Writes all of it, or fails when the slice is full. */
    method WriteAll(data: seq<Byte>) returns (ok: bool)
      requires Valid()
      modifies this, buf
      ensures Valid() && (ok <==> old(pos) + |data| <= buf.Length)
      ensures ok ==> pos == old(pos) + |data| && Output() == old(Output()) + data
      ensures old(pos) <= pos && Untouched(old(pos))
    {
      var n := if |data| <= buf.Length - pos then |data| else buf.Length - pos;
      forall i | 0 <= i < n { buf[pos + i] := data[i]; }
      pos := pos + n;
      ok := n == |data|;
    }
  }

  /** The muxer's fields; the sample rate is 48000 throughout. */
  datatype Muxer = Muxer(sampleRate: nat, channels: Byte, internalDelay: nat)

  /** `0x40 | b`. */
  function Or40(b: Byte): (r: Byte) { if b / 64 % 2 == 1 then b else b + 64 }

  function EbmlHeaderData(): (d: seq<Byte>)
    ensures |d| == 31
  {
    [0x42, 0x86, 0x81, 0x01, 0x42, 0xF7, 0x81, 0x01, 0x42, 0xF2, 0x81, 0x04, 0x42, 0xF3, 0x81, 0x08,
     0x42, 0x82, 0x84, 0x77, 0x65, 0x62, 0x6D, 0x42, 0x87, 0x81, 0x04, 0x42, 0x85, 0x81, 0x02]
  }

  function EbmlHeader(): (d: seq<Byte>)
    ensures |d| == 36
  {
    [0x1A, 0x45, 0xDF, 0xA3, 0x9F] + EbmlHeaderData()
  }

  /** The Segment header, with the eight-byte unknown size. */
  function SegmentHeader(): (d: seq<Byte>)
    ensures |d| == 12
  {
    [0x18, 0x53, 0x80, 0x67, 0x01, 0xFF, 0xFF, 0xFF, 0xFF, 0xFF, 0xFF, 0xFF]
  }

  /** A Seek entry: an identifier of four bytes and a position of one. */
  function Seek(id: seq<Byte>, position: Byte): (d: seq<Byte>)
    requires |id| == 4
    ensures |d| == 14
  {
    [0x4D, 0xBB, 0x8B, 0x53, 0xAB, 0x84] + id + [0x53, 0xAC, 0x81, position]
  }

  const INFO_ID: seq<Byte> := [0x15, 0x49, 0xA9, 0x66]
  const TRACKS_ID: seq<Byte> := [0x16, 0x54, 0xAE, 0x6B]
  const CLUSTER_ID: seq<Byte> := [0x1F, 0x43, 0xB6, 0x75]

  function SeekHeadData(): (d: seq<Byte>)
    ensures |d| == 42
  {
    Seek(INFO_ID, 47) + Seek(TRACKS_ID, 95) + Seek(CLUSTER_ID, 165)
  }

  function SeekHead(): (d: seq<Byte>)
    ensures |d| == 47
  {
    [0x11, 0x4D, 0x9B, 0x74, 0xAA] + SeekHeadData()
  }

  /** "audiomux-v0.0.0" */
  function ApplicationName(): (d: seq<Byte>)
    ensures |d| == 15
  {
    [0x61, 0x75, 0x64, 0x69, 0x6F, 0x6D, 0x75, 0x78, 0x2D, 0x76, 0x30, 0x2E, 0x30, 0x2E, 0x30]
  }

  function InfoData(): (d: seq<Byte>)
    ensures |d| == 43
  {
    [0x2A, 0xD7, 0xB1, 0x83, 0x0F, 0x42, 0x40, 0x4D, 0x80, 0x8F] + ApplicationName()
    + [0x57, 0x41, 0x8F] + ApplicationName()
  }

  function Info(): (d: seq<Byte>)
    ensures |d| == 48
  {
    INFO_ID + [0xAB] + InfoData()
  }

  function CodecDelayNs(m: Muxer): (n: nat)
    requires m.sampleRate > 0
  {
    m.internalDelay * 1_000_000_000 / m.sampleRate
  }

  function Big4(n: nat): (d: seq<Byte>)
    ensures |d| == 4
  {
    [n / 0x100_0000 % 256, n / 0x1_0000 % 256, n / 0x100 % 256, n % 256]
  }

  function Little2(n: nat): (d: seq<Byte>)
    ensures |d| == 2
  {
    [n % 256, n / 0x100 % 256]
  }

  function Little4(n: nat): (d: seq<Byte>)
    ensures |d| == 4
  {
    Little2(n) + Little2(n / 0x1_0000)
  }

  /** Track type, codec, delay, the Opus header and the audio settings. */
  function TrackSettings(m: Muxer): (d: seq<Byte>)
    requires m.sampleRate > 0
    ensures |d| == 51
  {
    [0x83, 0x81, 0x02, 0x86, 0x86, 0x41, 0x5F, 0x4F, 0x50, 0x55, 0x53, 0x56, 0xAA, 0x84]
    + Big4(CodecDelayNs(m))
    + [0x63, 0xA2, 0x93, 0x4F, 0x70, 0x75, 0x73, 0x48, 0x65, 0x61, 0x64, 0x01, m.channels]
    + Little2(m.internalDelay) + Little4(m.sampleRate)
    + [0x00, 0x00, 0x00, 0xE1, 0x89, 0xB5, 0x84, 0x47, 0x3B, 0x80, 0x00, 0x9F, 0x81, m.channels]
  }

  function TracksData(m: Muxer, uid: seq<Byte>): (d: seq<Byte>)
    requires m.sampleRate > 0 && |uid| == 7
    ensures |d| == 66
  {
    [0xAE, 0xC0, 0xD7, 0x81, 0x01, 0x73, 0xC5, 0x87] + uid + TrackSettings(m)
  }

  function Tracks(m: Muxer, uid: seq<Byte>): (d: seq<Byte>)
    requires m.sampleRate > 0 && |uid| == 7
    ensures |d| == 71
  {
    TRACKS_ID + [0xC2] + TracksData(m, uid)
  }

  function InitializationSegment(m: Muxer, uid: seq<Byte>): (d: seq<Byte>)
    requires m.sampleRate > 0 && |uid| == 7
    ensures |d| == 214
  {
    EbmlHeader() + SegmentHeader() + SeekHead() + Info() + Tracks(m, uid)
  }

  function TimestampElement(timestamp: nat): (d: seq<Byte>)
    requires timestamp < 0x1_0000_0000_0000_0000
    ensures |d| == 10
  {
    [0xE7] + [0x88] + (Big4(timestamp / 0x1_0000_0000) + Big4(timestamp))
  }

  /** A size in two bytes, as the muxer writes it. */
  function TwoByteSize(n: nat): (d: seq<Byte>)
    ensures |d| == 2
  {
    [Or40(n / 256 % 256), n % 256]
  }

  /** Everything of a Cluster that comes before the packet. */
  function ClusterHead(length: nat, timestamp: nat): (d: seq<Byte>)
    requires timestamp < 0x1_0000_0000_0000_0000
    ensures |d| == 23
  {
    CLUSTER_ID + TwoByteSize(length + 17) + TimestampElement(timestamp)
    + [0xA3] + TwoByteSize(length + 4) + [0x81, 0x00, 0x00, 0x80]
  }

  /** A packet in a Cluster of its own. */
  function Cluster(packet: seq<Byte>, timestamp: nat): (d: seq<Byte>)
    requires timestamp < 0x1_0000_0000_0000_0000
    ensures |d| == 23 + |packet|
  {
    ClusterHead(|packet|, timestamp) + packet
  }

  /** The outcome of one call to the muxer. */
  function Muxed(m: Muxer, uid: seq<Byte>, packet: seq<Byte>, timestamp: nat, keyframe: bool): (d: seq<Byte>)
    requires m.sampleRate > 0 && |uid| == 7 && timestamp < 0x1_0000_0000_0000_0000
    ensures |d| == (if keyframe then 214 else 0) + 23 + |packet|
  {
    (if keyframe then InitializationSegment(m, uid) else []) + Cluster(packet, timestamp)
  }

  function InfoHead(): (d: seq<Byte>)
    ensures |d| == 15
  {
    INFO_ID + [0xAB, 0x2A, 0xD7, 0xB1, 0x83, 0x0F, 0x42, 0x40, 0x4D, 0x80, 0x8F]
  }

  function TracksHead(): (d: seq<Byte>)
    ensures |d| == 13
  {
    TRACKS_ID + [0xC2, 0xAE, 0xC0, 0xD7, 0x81, 0x01, 0x73, 0xC5, 0x87]
  }

  /** The groups Info and Tracks are written in. */
  lemma InfoGroups(before: seq<Byte>)
    ensures before + InfoHead() + ApplicationName() + [0x57, 0x41, 0x8F] + ApplicationName() == before + Info()
  {
    hide ApplicationName;
  }

  lemma TracksGroups(before: seq<Byte>, m: Muxer, uid: seq<Byte>)
    requires m.sampleRate > 0 && |uid| == 7
    ensures before + TracksHead() + uid + TrackSettings(m) == before + Tracks(m, uid)
  {
    hide TrackSettings;
  }

  lemma SegmentGroups(before: seq<Byte>, m: Muxer, uid: seq<Byte>)
    requires m.sampleRate > 0 && |uid| == 7
    ensures before + EbmlHeader() + SegmentHeader() + SeekHead() + Info() + Tracks(m, uid)
         == before + InitializationSegment(m, uid)
  {
    hide EbmlHeader, SegmentHeader, SeekHead, Info, Tracks;
  }

  method WriteInfo(w: SliceWriter) returns (ok: bool)
    requires w.Valid()
    modifies w, w.buf
    ensures w.Valid() && (ok <==> old(w.pos) + 48 <= w.buf.Length)
    ensures old(w.pos) <= w.pos && w.Untouched(old(w.pos))
    ensures ok ==> w.pos == old(w.pos) + 48 && w.Output() == old(w.Output()) + Info()
  {
    hide SliceWriter.Output, InfoHead, ApplicationName, Info;
    InfoGroups(w.Output());
    ok := w.WriteAll(InfoHead());
    if !ok { return; }
    ok := w.WriteAll(ApplicationName());
    if !ok { return; }
    ok := w.WriteAll([0x57, 0x41, 0x8F]);
    if !ok { return; }
    ok := w.WriteAll(ApplicationName());
  }

  method WriteTracks(m: Muxer, uid: seq<Byte>, w: SliceWriter) returns (ok: bool)
    requires m.sampleRate > 0 && |uid| == 7 && w.Valid()
    modifies w, w.buf
    ensures w.Valid() && (ok <==> old(w.pos) + 71 <= w.buf.Length)
    ensures old(w.pos) <= w.pos && w.Untouched(old(w.pos))
    ensures ok ==> w.pos == old(w.pos) + 71 && w.Output() == old(w.Output()) + Tracks(m, uid)
  {
    hide SliceWriter.Output, TracksHead, TrackSettings, Tracks;
    TracksGroups(w.Output(), m, uid);
    ok := w.WriteAll(TracksHead());
    if !ok { return; }
    ok := w.WriteAll(uid);
    if !ok { return; }
    ok := w.WriteAll(TrackSettings(m));
  }

  method WriteInitializationSegment(m: Muxer, uid: seq<Byte>, w: SliceWriter) returns (ok: bool)
    requires m.sampleRate > 0 && |uid| == 7 && w.Valid()
    modifies w, w.buf
    ensures w.Valid() && (ok <==> old(w.pos) + 214 <= w.buf.Length)
    ensures old(w.pos) <= w.pos && w.Untouched(old(w.pos))
    ensures ok ==> w.pos == old(w.pos) + 214 && w.Output() == old(w.Output()) + InitializationSegment(m, uid)
  {
    hide SliceWriter.Output, EbmlHeader, SegmentHeader, SeekHead, Info, Tracks, InitializationSegment;
    SegmentGroups(w.Output(), m, uid);
    ok := w.WriteAll(EbmlHeader());
    if !ok { return; }
    ok := w.WriteAll(SegmentHeader());
    if !ok { return; }
    ok := w.WriteAll(SeekHead());
    if !ok { return; }
    ok := WriteInfo(w);
    if !ok { return; }
    ok := WriteTracks(m, uid, w);
  }

  /** `uid` is the random track identifier. */
  method WriteFrame(m: Muxer, uid: seq<Byte>, w: SliceWriter, packet: seq<Byte>, timestamp: nat, keyframe: bool)
    returns (ok: bool)
    requires m.sampleRate > 0 && |uid| == 7 && timestamp < 0x1_0000_0000_0000_0000 && w.Valid()
    modifies w, w.buf
    ensures w.Valid() && (ok <==> old(w.pos) + |Muxed(m, uid, packet, timestamp, keyframe)| <= w.buf.Length)
    ensures old(w.pos) <= w.pos && w.Untouched(old(w.pos))
    ensures ok ==>
              && w.pos == old(w.pos) + |Muxed(m, uid, packet, timestamp, keyframe)|
              && w.Output() == old(w.Output()) + Muxed(m, uid, packet, timestamp, keyframe)
  {
    hide SliceWriter.Output, InitializationSegment, ClusterHead;
    ghost var before := w.Output();
    if keyframe {
      ok := WriteInitializationSegment(m, uid, w);
      if !ok { return; }
    }
    ok := w.WriteAll(ClusterHead(|packet|, timestamp));
    if !ok { return; }
    ok := w.WriteAll(packet);
    if ok {
      ghost var init := if keyframe then InitializationSegment(m, uid) else [];
      assert w.Output() == before + init + ClusterHead(|packet|, timestamp) + packet;
      assert before + init + ClusterHead(|packet|, timestamp) + packet
          == before + (init + (ClusterHead(|packet|, timestamp) + packet));
    }
  }

  // The output reads back.

  /** The largest packet whose Cluster size still fits in two bytes and is not the unknown size. */
  const MAX_PACKET := 0x3FFE - 17

  datatype Timed = Timed(timestamp: nat, packet: seq<Byte>)

  /** A Cluster of one timestamp and one SimpleBlock of track 1 at the same time, which stands by itself. */
  function TimedOf(e: Element): (r: Result<Timed>) {
    if e.id != 0x1F43_B675 then Err(Other)
    else
      var children :- Elements(e.data);
      if |children| != 2 || children[0].id != 0xE7 || children[1].id != 0xA3 then Err(Other)
      else
        var block := children[1].data;
        if |block| < 4 || block[..4] != [0x81, 0, 0, 0x80] then Err(Other)
        else Ok(Timed(BeNat(children[0].data), block[4..]))
  }

  function TimedAll(es: seq<Element>): (r: Result<seq<Timed>>)
    decreases |es|
  {
    if es == [] then Ok([])
    else
      var first :- TimedOf(es[0]);
      var rest :- TimedAll(es[1..]);
      Ok([first] + rest)
  }

  /** The reader of a stream of Clusters. */
  function ReadClusters(s: seq<Byte>): (r: Result<seq<Timed>>) {
    var es :- Elements(s);
    TimedAll(es)
  }

  ghost predicate Muxable(f: Timed) {
    f.timestamp < 0x1_0000_0000_0000_0000 && |f.packet| <= MAX_PACKET
  }

  function ClusterOf(f: Timed): (d: seq<Byte>)
    requires Muxable(f)
  {
    Cluster(f.packet, f.timestamp)
  }

  function BlockData(packet: seq<Byte>): (d: seq<Byte>) { [0x81, 0, 0, 0x80] + packet }

  function ClusterData(f: Timed): (d: seq<Byte>)
    requires Muxable(f)
    ensures |d| == |f.packet| + 17
  {
    TimestampElement(f.timestamp) + ([0xA3] + TwoByteSize(|f.packet| + 4) + BlockData(f.packet))
  }

  lemma Big4IsBe(n: nat)
    ensures Big4(n) == BeBytes(n, 4)
  {
    var n1 := n / 256;
    var n2 := n1 / 256;
    var n3 := n2 / 256;
    assert n2 == n / 0x1_0000 && n3 == n / 0x100_0000;
    assert BeBytes(n3, 1) == [n3 % 256] by { assert BeBytes(n3, 1) == BeBytes(n3 / 256, 0) + [n3 % 256]; }
    assert BeBytes(n2, 2) == BeBytes(n3, 1) + [n2 % 256];
    assert BeBytes(n1, 3) == BeBytes(n2, 2) + [n1 % 256];
    assert BeBytes(n, 4) == BeBytes(n1, 3) + [n % 256];
  }

  lemma BeSplit(n: nat)
    ensures BeBytes(n, 8) == BeBytes(n / 0x1_0000_0000, 4) + BeBytes(n, 4)
  {
    var n1 := n / 256;
    var n2 := n1 / 256;
    var n3 := n2 / 256;
    var n4 := n3 / 256;
    assert n4 == n / 0x1_0000_0000;
    assert BeBytes(n3, 1) == BeBytes(n4, 0) + [n3 % 256] == [n3 % 256];
    assert BeBytes(n2, 2) == BeBytes(n3, 1) + [n2 % 256];
    assert BeBytes(n1, 3) == BeBytes(n2, 2) + [n1 % 256];
    assert BeBytes(n, 4) == BeBytes(n1, 3) + [n % 256];
    assert BeBytes(n3, 5) == BeBytes(n4, 4) + [n3 % 256];
    assert BeBytes(n2, 6) == BeBytes(n3, 5) + [n2 % 256];
    assert BeBytes(n1, 7) == BeBytes(n2, 6) + [n1 % 256];
    assert BeBytes(n, 8) == BeBytes(n1, 7) + [n % 256];
  }

  lemma Power256Of8()
    ensures Power256(8) == 0x1_0000_0000_0000_0000
  {
    assert Power256(2) == 0x1_0000;
    assert Power256(3) == 256 * Power256(2);
    assert Power256(4) == 256 * Power256(3);
    assert Power256(5) == 256 * Power256(4);
    assert Power256(6) == 256 * Power256(5);
    assert Power256(7) == 256 * Power256(6);
  }

  lemma TimestampBytes(n: nat)
    requires n < 0x1_0000_0000_0000_0000
    ensures TimestampElement(n) == [0xE7] + [0x88] + BeBytes(n, 8) && BeNat(BeBytes(n, 8)) == n
  {
    hide BeBytes, BeNat, Big4;
    Power256Of8();
    BeRoundTrip(n, 8);
    BeSplit(n);
    Big4IsBe(n);
    Big4IsBe(n / 0x1_0000_0000);
  }

  lemma TwoByteSizeReadsBack(n: nat)
    requires n < 0x3FFF
    ensures var size := TwoByteSize(n);
            Width(size[0]) == 2 && BeNat([size[0] - Lead(2)] + size[1..]) == n != AllOnes(2)
  {
    hide BeNat, AllOnes;
    LongSize(n);
  }

  lemma ClusterWritten(f: Timed)
    requires Muxable(f)
    ensures Written(ClusterOf(f), CLUSTER_ID, TwoByteSize(|f.packet| + 17), ClusterData(f))
  {
    hide TimestampElement, BeNat, TwoByteSize, AllOnes, Lead;
    TwoByteSizeReadsBack(|f.packet| + 17);
  }

  lemma ClusterChildren(f: Timed)
    requires Muxable(f)
    ensures Elements(ClusterData(f)) == Ok([Element(0xE7, BeBytes(f.timestamp, 8)), Element(0xA3, BlockData(f.packet))])
  {
    hide TimestampElement, Elements, BeBytes, TwoByteSize, AllOnes, Lead;
    var block := [0xA3] + TwoByteSize(|f.packet| + 4) + BlockData(f.packet);
    TwoByteSizeReadsBack(|f.packet| + 4);
    ShortSize(8);
    TimestampBytes(f.timestamp);
    assert Written(block, [0xA3], TwoByteSize(|f.packet| + 4), BlockData(f.packet));
    assert Elements([]) == Ok([]) by { NoElements(); }
    assert block + [] == block;
    WrittenFirst(block, [0xA3], TwoByteSize(|f.packet| + 4), BlockData(f.packet), []);
    assert BeNat([0xA3]) == 0xA3 && BeNat([0xE7]) == 0xE7;
    assert [Element(0xA3, BlockData(f.packet))] + [] == [Element(0xA3, BlockData(f.packet))];
    assert Elements(block) == Ok([Element(0xA3, BlockData(f.packet))]);
    WrittenFirst(TimestampElement(f.timestamp), [0xE7], [0x88], BeBytes(f.timestamp, 8), block);
    assert [Element(0xE7, BeBytes(f.timestamp, 8))] + [Element(0xA3, BlockData(f.packet))]
        == [Element(0xE7, BeBytes(f.timestamp, 8)), Element(0xA3, BlockData(f.packet))];
  }

  lemma NoElements()
    ensures Elements([]) == Ok([])
  {
  }

  lemma ClusterReadsBack(f: Timed)
    requires Muxable(f)
    ensures TimedOf(Element(BeNat(CLUSTER_ID), ClusterData(f))) == Ok(f)
  {
    hide ClusterData, Elements, BeNat, BeBytes;
    ClusterChildren(f);
    TimestampBytes(f.timestamp);
    FourBytes(0x1F, 0x43, 0xB6, 0x75);
  }

  ghost predicate AllMuxable(fs: seq<Timed>) { forall i | 0 <= i < |fs| :: Muxable(fs[i]) }

  /** The Clusters of a list of frames. */
  function ClustersOf(fs: seq<Timed>): (d: seq<seq<Byte>>)
    requires AllMuxable(fs)
  {
    seq(|fs|, i requires 0 <= i < |fs| && Muxable(fs[i]) => ClusterOf(fs[i]))
  }

  /** The reader takes the first Cluster and goes on with the rest. */
  lemma ReadFirst(f: Timed, rest: seq<Byte>)
    requires Muxable(f) && ReadClusters(rest).Ok?
    ensures ReadClusters(ClusterOf(f) + rest) == Ok([f] + ReadClusters(rest).value)
  {
    hide ClusterOf, ClusterData, TimedOf, BeNat, Written, Elements;
    ClusterWritten(f);
    ClusterReadsBack(f);
    WrittenFirst(ClusterOf(f), CLUSTER_ID, TwoByteSize(|f.packet| + 17), ClusterData(f), rest);
    var es := Elements(ClusterOf(f) + rest).value;
    assert es[1..] == Elements(rest).value;
  }

  /** Any number of frames, muxed one after the other, read back as the same timestamps and packets. */
  lemma {:induction false} FramesReadBack(fs: seq<Timed>)
    requires AllMuxable(fs)
    ensures ReadClusters(Flatten(ClustersOf(fs))) == Ok(fs)
    decreases |fs|
  {
    hide ClusterOf, ClustersOf, Flatten, ReadClusters;
    if fs == [] {
      NoClusters();
    } else {
      FramesReadBack(fs[1..]);
      ClustersFirst(fs);
      ReadFirst(fs[0], Flatten(ClustersOf(fs[1..])));
      assert [fs[0]] + fs[1..] == fs;
    }
  }

  lemma NoClusters()
    ensures ReadClusters(Flatten(ClustersOf([]))) == Ok([])
  {
    assert ClustersOf([]) == [];
  }

  lemma ClustersFirst(fs: seq<Timed>)
    requires AllMuxable(fs) && fs != []
    ensures Flatten(ClustersOf(fs)) == ClusterOf(fs[0]) + Flatten(ClustersOf(fs[1..]))
  {
    hide ClusterOf;
    assert ClustersOf(fs)[1..] == ClustersOf(fs[1..]);
  }

  /** Identifier and size of the elements that are written with a one-byte size. */
  lemma ShortWritten(id: seq<Byte>, data: seq<Byte>)
    requires id != [] && Width(id[0]) == |id| <= 4 && |data| < 127
    ensures Written(id + [0x80 + |data|] + data, id, [0x80 + |data|], data)
  {
    hide BeNat, AllOnes, Lead;
    ShortSize(|data|);
  }

  lemma ShortFirst(id: seq<Byte>, data: seq<Byte>, rest: seq<Byte>)
    requires id != [] && Width(id[0]) == |id| <= 4 && |data| < 127 && Elements(rest).Ok?
    ensures Elements(id + [0x80 + |data|] + data + rest) == Ok([Element(BeNat(id), data)] + Elements(rest).value)
  {
    hide BeNat, Written, Elements;
    ShortWritten(id, data);
    WrittenFirst(id + [0x80 + |data|] + data, id, [0x80 + |data|], data, rest);
  }

  /** An element that is written with a one-byte size. */
  datatype Part = Part(id: seq<Byte>, data: seq<Byte>) {
    predicate Short() { id != [] && Width(id[0]) == |id| <= 4 && |data| < 127 }

    function Print(): (e: seq<Byte>)
      requires Short()
    {
      id + [0x80 + |data|] + data
    }

    function Read(): (e: Element) { Element(BeNat(id), data) }
  }

  ghost predicate AllShort(parts: seq<Part>) { forall i | 0 <= i < |parts| :: parts[i].Short() }

  function PrintAll(parts: seq<Part>): (d: seq<Byte>)
    requires AllShort(parts)
  {
    if parts == [] then [] else parts[0].Print() + PrintAll(parts[1..])
  }

  function ReadAll(parts: seq<Part>): (es: seq<Element>) {
    seq(|parts|, i requires 0 <= i < |parts| => parts[i].Read())
  }

  /** A list of such elements reads back. */
  lemma {:induction false} PartsRead(parts: seq<Part>)
    requires AllShort(parts)
    ensures Elements(PrintAll(parts)) == Ok(ReadAll(parts))
    decreases |parts|
  {
    hide BeNat, Elements;
    if parts == [] {
      NoElements();
    } else {
      PartsRead(parts[1..]);
      ShortFirst(parts[0].id, parts[0].data, PrintAll(parts[1..]));
      assert ReadAll(parts) == [parts[0].Read()] + ReadAll(parts[1..]);
    }
  }

  const EBML_ID: seq<Byte> := [0x1A, 0x45, 0xDF, 0xA3]
  const SEEK_HEAD_ID: seq<Byte> := [0x11, 0x4D, 0x9B, 0x74]
  const SEEK_ID: seq<Byte> := [0x53, 0xAB]
  const SEEK_POSITION: seq<Byte> := [0x53, 0xAC]
  const SEEK: seq<Byte> := [0x4D, 0xBB]

  function SeekData(id: seq<Byte>, position: Byte): (d: seq<Byte>)
    requires |id| == 4
    ensures |d| == 11
  {
    SEEK_ID + [0x84] + id + (SEEK_POSITION + [0x81] + [position])
  }

  /** One Seek entry names an element and says where it is. */
  lemma SeekReads(id: seq<Byte>, position: Byte)
    requires |id| == 4
    ensures Elements(SeekData(id, position)) ==
            Ok([Element(BeNat(SEEK_ID), id), Element(BeNat(SEEK_POSITION), [position])])
    ensures Seek(id, position) == SEEK + [0x8B] + SeekData(id, position)
  {
    hide BeNat, Elements;
    NoElements();
    var tail := SEEK_POSITION + [0x81] + [position];
    assert tail + [] == tail;
    var last := Element(BeNat(SEEK_POSITION), [position]);
    assert [last] + [] == [last];
    ShortFirst(SEEK_POSITION, [position], []);
    ShortFirst(SEEK_ID, id, tail);
    assert [Element(BeNat(SEEK_ID), id)] + [last] == [Element(BeNat(SEEK_ID), id), last];
  }

  /** The SeekHead lists Info at 47, Tracks at 95 and the first Cluster at 165. */
  lemma SeekHeadReads()
    ensures Elements(SeekHeadData()) == Ok([
              Element(BeNat(SEEK), SeekData(INFO_ID, 47)),
              Element(BeNat(SEEK), SeekData(TRACKS_ID, 95)),
              Element(BeNat(SEEK), SeekData(CLUSTER_ID, 165))])
  {
    hide BeNat, Elements, SeekData, Seek;
    NoElements();
    SeekReads(INFO_ID, 47);
    SeekReads(TRACKS_ID, 95);
    SeekReads(CLUSTER_ID, 165);
    var info, tracks, cluster := Seek(INFO_ID, 47), Seek(TRACKS_ID, 95), Seek(CLUSTER_ID, 165);
    assert cluster + [] == cluster;
    ShortFirst(SEEK, SeekData(CLUSTER_ID, 165), []);
    ShortFirst(SEEK, SeekData(TRACKS_ID, 95), cluster);
    ShortFirst(SEEK, SeekData(INFO_ID, 47), tracks + cluster);
    assert info + tracks + cluster == info + (tracks + cluster);
    var e0, e1, e2 := Element(BeNat(SEEK), SeekData(INFO_ID, 47)), Element(BeNat(SEEK), SeekData(TRACKS_ID, 95)),
      Element(BeNat(SEEK), SeekData(CLUSTER_ID, 165));
    assert [e2] + [] == [e2] && [e0] + ([e1] + [e2]) == [e0, e1, e2];
  }

  /** The header, then the Segment of unknown size, then three elements that fill the rest exactly. */
  lemma InitializationReads(m: Muxer, uid: seq<Byte>)
    requires m.sampleRate > 0 && |uid| == 7
    ensures var s := InitializationSegment(m, uid);
            && ElementAt(s, 0) == Ok(Taken(Element(BeNat(EBML_ID), EbmlHeaderData()), 36))
            && s[36..40] == [0x18, 0x53, 0x80, 0x67] && SizeAt(s, 40) == Ok(Taken(None, 48))
            && Elements(s[48..]) == Ok([
                 Element(BeNat(SEEK_HEAD_ID), SeekHeadData()),
                 Element(BeNat(INFO_ID), InfoData()),
                 Element(BeNat(TRACKS_ID), TracksData(m, uid))])
  {
    hide Elements, EbmlHeaderData, SeekHeadData, InfoData, TracksData, BeNat, ElementAt, SizeAt;
    var s := InitializationSegment(m, uid);
    var tail := SegmentHeader() + SeekHead() + Info() + Tracks(m, uid);
    assert s == EbmlHeader() + tail;
    assert EbmlHeader() == EBML_ID + [0x80 + 31] + EbmlHeaderData();
    ShortWritten(EBML_ID, EbmlHeaderData());
    WrittenAt(EbmlHeader(), EBML_ID, [0x80 + 31], EbmlHeaderData(), tail);
    assert s[36..48] == SegmentHeader();
    assert s[36..40] == s[36..48][..4];
    UnknownSize(s, 40) by {
      assert s[40..48] == s[36..48][4..];
    }
    TopLevel(m, uid);
    assert s[48..] == SeekHead() + (Info() + Tracks(m, uid));
  }

  const OPUS_CODEC: seq<Byte> := [0x41, 0x5F, 0x4F, 0x50, 0x55, 0x53]

  /** "OpusHead", version 1, the channels, the pre-skip, the rate, no gain, mapping family 0. */
  function OpusHead(m: Muxer): (d: seq<Byte>)
    ensures |d| == 19
  {
    [0x4F, 0x70, 0x75, 0x73, 0x48, 0x65, 0x61, 0x64, 0x01, m.channels] + Little2(m.internalDelay)
    + Little4(m.sampleRate) + [0x00, 0x00, 0x00]
  }

  /** Sampling frequency, as the single-precision number 48000, and channels. */
  function AudioParts(m: Muxer): (ps: seq<Part>)
    ensures AllShort(ps)
  {
    [Part([0xB5], [0x47, 0x3B, 0x80, 0x00]), Part([0x9F], [m.channels])]
  }

  /** Track number and identifier, type, codec, delay, Opus header and audio settings. */
  function EntryParts(m: Muxer, uid: seq<Byte>): (ps: seq<Part>)
    requires m.sampleRate > 0 && |uid| == 7
    ensures AllShort(ps)
  {
    [Part([0xD7], [0x01]), Part([0x73, 0xC5], uid), Part([0x83], [0x02]), Part([0x86], OPUS_CODEC)] + LastParts(m)
  }

  /** Timestamp scale, multiplexing and writing applications. */
  function InfoParts(): (ps: seq<Part>)
    ensures AllShort(ps)
  {
    [Part([0x2A, 0xD7, 0xB1], [0x0F, 0x42, 0x40]), Part([0x4D, 0x80], ApplicationName()),
     Part([0x57, 0x41], ApplicationName())]
  }

  lemma PrintFirst(p: Part, rest: seq<Part>)
    requires p.Short() && AllShort(rest)
    ensures AllShort([p] + rest) && PrintAll([p] + rest) == p.Print() + PrintAll(rest)
  {
    assert ([p] + rest)[1..] == rest;
  }

  lemma AudioSize(m: Muxer)
    ensures PrintAll(AudioParts(m)) == [0xB5, 0x84, 0x47, 0x3B, 0x80, 0x00, 0x9F, 0x81, m.channels]
  {
    var ps := AudioParts(m);
    assert ps == [ps[0]] + ([ps[1]] + []);
    PrintFirst(ps[1], []);
    PrintFirst(ps[0], [ps[1]] + []);
  }

  lemma InfoIsParts()
    ensures InfoData() == PrintAll(InfoParts())
  {
    hide ApplicationName;
    var ps := InfoParts();
    assert ps == [ps[0]] + ([ps[1]] + ([ps[2]] + []));
    PrintFirst(ps[2], []);
    PrintFirst(ps[1], [ps[2]] + []);
    PrintFirst(ps[0], [ps[1]] + ([ps[2]] + []));
  }

  function LastParts(m: Muxer): (ps: seq<Part>)
    requires m.sampleRate > 0
    ensures AllShort(ps)
  {
    AudioSize(m);
    [Part([0x56, 0xAA], Big4(CodecDelayNs(m))), Part([0x63, 0xA2], OpusHead(m)), Part([0xE1], PrintAll(AudioParts(m)))]
  }

  lemma LastPrinted(m: Muxer)
    requires m.sampleRate > 0
    ensures PrintAll(LastParts(m)) ==
            [0x56, 0xAA, 0x84] + Big4(CodecDelayNs(m)) + ([0x63, 0xA2, 0x93] + OpusHead(m))
            + ([0xE1, 0x89] + PrintAll(AudioParts(m)))
  {
    hide Big4, PrintAll, CodecDelayNs, OpusHead, AudioParts;
    AudioSize(m);
    var ps := LastParts(m);
    assert ps == [ps[0]] + ([ps[1]] + ([ps[2]] + []));
    PrintNothing();
    PrintFirst(ps[2], []);
    PrintFirst(ps[1], [ps[2]] + []);
    PrintFirst(ps[0], [ps[1]] + ([ps[2]] + []));
  }

  lemma EntryPrinted(m: Muxer, uid: seq<Byte>)
    requires m.sampleRate > 0 && |uid| == 7
    ensures PrintAll(EntryParts(m, uid)) ==
            [0xD7, 0x81, 0x01] + ([0x73, 0xC5, 0x87] + uid) + [0x83, 0x81, 0x02] + ([0x86, 0x86] + OPUS_CODEC)
            + PrintAll(LastParts(m))
  {
    hide PrintAll, LastParts;
    var number, identifier, kind, codec := Part([0xD7], [1]), Part([0x73, 0xC5], uid), Part([0x83], [2]),
      Part([0x86], OPUS_CODEC);
    FourPrinted(number, identifier, kind, codec, LastParts(m));
    assert number.Print() == [0xD7, 0x81, 0x01] && kind.Print() == [0x83, 0x81, 0x02];
  }

  lemma FourPrinted(a: Part, b: Part, c: Part, d: Part, rest: seq<Part>)
    requires a.Short() && b.Short() && c.Short() && d.Short() && AllShort(rest)
    ensures AllShort([a, b, c, d] + rest)
    ensures PrintAll([a, b, c, d] + rest) == a.Print() + b.Print() + c.Print() + d.Print() + PrintAll(rest)
  {
    hide PrintAll, Part.Print, Part.Short;
    PrintFirst(d, rest);
    PrintFirst(c, [d] + rest);
    PrintFirst(b, [c] + ([d] + rest));
    PrintFirst(a, [b] + ([c] + ([d] + rest)));
    assert [a, b, c, d] + rest == [a] + ([b] + ([c] + ([d] + rest)));
    var w, x, y, z := a.Print(), b.Print(), c.Print(), d.Print();
    assert w + (x + (y + (z + PrintAll(rest)))) == w + x + y + z + PrintAll(rest);
  }

  /** The groups the settings are written in, and the elements they are. */
  lemma SettingsGroups(delay: seq<Byte>, skip: seq<Byte>, rate: seq<Byte>, channels: Byte)
    requires |delay| == 4 && |skip| == 2 && |rate| == 4
    ensures [0x83, 0x81, 0x02, 0x86, 0x86, 0x41, 0x5F, 0x4F, 0x50, 0x55, 0x53, 0x56, 0xAA, 0x84] + delay
            + [0x63, 0xA2, 0x93, 0x4F, 0x70, 0x75, 0x73, 0x48, 0x65, 0x61, 0x64, 0x01, channels] + skip + rate
            + [0x00, 0x00, 0x00, 0xE1, 0x89, 0xB5, 0x84, 0x47, 0x3B, 0x80, 0x00, 0x9F, 0x81, channels]
         == [0x83, 0x81, 0x02] + ([0x86, 0x86] + OPUS_CODEC)
            + ([0x56, 0xAA, 0x84] + delay
               + ([0x63, 0xA2, 0x93]
                  + ([0x4F, 0x70, 0x75, 0x73, 0x48, 0x65, 0x61, 0x64, 0x01, channels] + skip + rate
                     + [0x00, 0x00, 0x00]))
               + ([0xE1, 0x89] + [0xB5, 0x84, 0x47, 0x3B, 0x80, 0x00, 0x9F, 0x81, channels]))
  {
  }

  lemma TracksIsParts(m: Muxer, uid: seq<Byte>)
    requires m.sampleRate > 0 && |uid| == 7
    ensures TracksData(m, uid) == [0xAE, 0x80 + 64] + PrintAll(EntryParts(m, uid))
  {
    hide Big4, Little2, Little4, PrintAll, CodecDelayNs, EntryParts, LastParts, AudioParts;
    AudioSize(m);
    LastPrinted(m);
    EntryPrinted(m, uid);
    SettingsGroups(Big4(CodecDelayNs(m)), Little2(m.internalDelay), Little4(m.sampleRate), m.channels);
    var settings := [0x83, 0x81, 0x02] + ([0x86, 0x86] + OPUS_CODEC) + PrintAll(LastParts(m));
    assert TrackSettings(m) == settings;
    hide TrackSettings;
    EntryGroups(uid, [0x83, 0x81, 0x02], [0x86, 0x86] + OPUS_CODEC, PrintAll(LastParts(m)));
  }

  lemma EntryGroups(uid: seq<Byte>, kind: seq<Byte>, codec: seq<Byte>, last: seq<Byte>)
    ensures [0xAE, 0xC0, 0xD7, 0x81, 0x01, 0x73, 0xC5, 0x87] + uid + (kind + codec + last)
         == [0xAE, 0x80 + 64] + ([0xD7, 0x81, 0x01] + ([0x73, 0xC5, 0x87] + uid) + kind + codec + last)
  {
  }

  lemma PrintNothing()
    ensures PrintAll([]) == []
  {
  }

  /** Info holds its three elements, and nothing else. */
  lemma InfoReads()
    ensures Elements(InfoData()) == Ok(ReadAll(InfoParts()))
  {
    hide Elements, InfoParts;
    InfoIsParts();
    PartsRead(InfoParts());
  }

  /** Tracks holds one TrackEntry, that its seven elements, and the last of them the two audio settings. */
  lemma TracksRead(m: Muxer, uid: seq<Byte>)
    requires m.sampleRate > 0 && |uid| == 7
    ensures var entry, audio := PrintAll(EntryParts(m, uid)), PrintAll(AudioParts(m));
            && Elements(TracksData(m, uid)) == Ok([Element(0xAE, entry)])
            && Elements(entry) == Ok(ReadAll(EntryParts(m, uid)))
            && EntryParts(m, uid)[6] == Part([0xE1], audio)
            && Elements(audio) == Ok(ReadAll(AudioParts(m)))
  {
    hide Elements, PrintAll, TracksData, AudioParts;
    var entry := PrintAll(EntryParts(m, uid));
    TracksIsParts(m, uid);
    assert |TracksData(m, uid)| == 66;
    PartsRead(EntryParts(m, uid));
    PartsRead(AudioParts(m));
    NoElements();
    ShortFirst([0xAE], entry, []);
    assert [0xAE] + [0x80 + 64] + entry + [] == TracksData(m, uid);
    assert BeNat([0xAE]) == 0xAE by { OneByte(0xAE); }
    assert [Element(0xAE, entry)] + [] == [Element(0xAE, entry)];
  }

  lemma UnknownSize(s: seq<Byte>, p: nat)
    requires p + 8 <= |s| && s[p..p + 8] == [0x01, 0xFF, 0xFF, 0xFF, 0xFF, 0xFF, 0xFF, 0xFF]
    ensures SizeAt(s, p) == Ok(Taken(None, p + 8))
  {
    assert s[p] == s[p..p + 8][0];
    assert s[p + 1..p + 8] == s[p..p + 8][1..];
    var d: seq<Byte> := [0, 0xFF, 0xFF, 0xFF, 0xFF, 0xFF, 0xFF, 0xFF];
    assert [s[p] - Lead(8)] + s[p + 1..p + 8] == d;
    BeNatOnes();
  }

  lemma BeNatStep(d: seq<Byte>, i: nat)
    requires i < |d|
    ensures BeNat(d[..i + 1]) == 256 * BeNat(d[..i]) + d[i]
  {
    assert d[..i + 1][..i] == d[..i];
  }

  lemma BeNatOnes()
    ensures BeNat([0, 0xFF, 0xFF, 0xFF, 0xFF, 0xFF, 0xFF, 0xFF]) == AllOnes(8)
  {
    var d: seq<Byte> := [0, 0xFF, 0xFF, 0xFF, 0xFF, 0xFF, 0xFF, 0xFF];
    assert BeNat(d[..0]) == 0 && d[..8] == d;
    hide BeNat;
    BeNatStep(d, 0);
    BeNatStep(d, 1);
    BeNatStep(d, 2);
    BeNatStep(d, 3);
    BeNatStep(d, 4);
    BeNatStep(d, 5);
    BeNatStep(d, 6);
    BeNatStep(d, 7);
  }

  lemma TopLevel(m: Muxer, uid: seq<Byte>)
    requires m.sampleRate > 0 && |uid| == 7
    ensures Elements(SeekHead() + (Info() + Tracks(m, uid))) == Ok([
              Element(BeNat(SEEK_HEAD_ID), SeekHeadData()),
              Element(BeNat(INFO_ID), InfoData()),
              Element(BeNat(TRACKS_ID), TracksData(m, uid))])
  {
    hide Elements, SeekHeadData, InfoData, TracksData, BeNat;
    NoElements();
    var tracks := Tracks(m, uid);
    assert tracks == TRACKS_ID + [0x80 + 66] + TracksData(m, uid);
    assert tracks + [] == tracks;
    ShortFirst(TRACKS_ID, TracksData(m, uid), []);
    assert Info() == INFO_ID + [0x80 + 43] + InfoData();
    ShortFirst(INFO_ID, InfoData(), tracks);
    assert SeekHead() == SEEK_HEAD_ID + [0x80 + 42] + SeekHeadData();
    ShortFirst(SEEK_HEAD_ID, SeekHeadData(), Info() + tracks);
    var e0, e1, e2 := Element(BeNat(SEEK_HEAD_ID), SeekHeadData()), Element(BeNat(INFO_ID), InfoData()),
      Element(BeNat(TRACKS_ID), TracksData(m, uid));
    assert [e2] + [] == [e2] && [e0] + ([e1] + [e2]) == [e0, e1, e2];
  }

  /**
   Counted from the start of the Segment data, Info and Tracks are where the SeekHead says; the first
   Cluster is one byte further.
   */
  lemma SeekPositions(m: Muxer, uid: seq<Byte>, packet: seq<Byte>, timestamp: nat)
    requires m.sampleRate > 0 && |uid| == 7 && timestamp < 0x1_0000_0000_0000_0000
    ensures var data := Muxed(m, uid, packet, timestamp, true)[48..];
            && data[47..51] == [0x15, 0x49, 0xA9, 0x66] && data[95..99] == [0x16, 0x54, 0xAE, 0x6B]
            && data[166..170] == [0x1F, 0x43, 0xB6, 0x75] && data[165..169] != [0x1F, 0x43, 0xB6, 0x75]
  {
    hide EbmlHeader, SegmentHeader, SeekHead, Info, Tracks, Cluster;
    var cluster := Cluster(packet, timestamp);
    assert Muxed(m, uid, packet, timestamp, true)[48..] == SeekHead() + Info() + Tracks(m, uid) + cluster;
    Positions(SeekHead(), Info(), Tracks(m, uid), cluster);
    assert Info()[..4] == INFO_ID by { InfoStarts(); }
    assert Tracks(m, uid)[..4] == TRACKS_ID by { TracksStarts(m, uid); }
    assert cluster[..4] == CLUSTER_ID by { ClusterStarts(packet, timestamp); }
  }

  lemma Positions(seek: seq<Byte>, info: seq<Byte>, tracks: seq<Byte>, cluster: seq<Byte>)
    requires |seek| == 47 && |info| == 48 && |tracks| == 71 && |cluster| >= 4
    ensures var data := seek + info + tracks + cluster;
            && data[47..51] == info[..4] && data[95..99] == tracks[..4] && data[166..170] == cluster[..4]
            && data[165..169][1] == cluster[0]
  {
  }

  lemma InfoStarts()
    ensures Info()[..4] == INFO_ID
  {
    hide InfoData;
  }

  lemma TracksStarts(m: Muxer, uid: seq<Byte>)
    requires m.sampleRate > 0 && |uid| == 7
    ensures Tracks(m, uid)[..4] == TRACKS_ID
  {
    hide TracksData;
  }

  lemma ClusterStarts(packet: seq<Byte>, timestamp: nat)
    requires timestamp < 0x1_0000_0000_0000_0000
    ensures Cluster(packet, timestamp)[..4] == CLUSTER_ID
  {
    hide TwoByteSize, TimestampElement;
  }
}
