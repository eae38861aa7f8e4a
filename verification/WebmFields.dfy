/** src/audio/opus.rs: the initialization segment read back field by field, as numbers and text. */
module WebmFields {
  import opened Bytes
  import opened Ebml
  import opened Webm

  /** Text of one byte a character. */
  function Ascii(text: string): (d: seq<Byte>)
    requires forall i | 0 <= i < |text| :: text[i] as int < 256
  {
    seq(|text|, i requires 0 <= i < |text| => text[i] as int)
  }

  /** The segment is an EBML header, a Segment, and in it SeekHead, Info and Tracks, by their registered identifiers. */
  lemma SegmentFields(m: Muxer, uid: seq<Byte>)
    requires m.sampleRate > 0 && |uid| == 7
    ensures var s := InitializationSegment(m, uid);
            && ElementAt(s, 0).Ok? && ElementAt(s, 0).value.value == Element(0x1A45_DFA3, EbmlHeaderData())
            && IdAt(s, 36).Ok? && IdAt(s, 36).value.value == 0x1853_8067
            && Elements(s[48..]) ==
               Ok([Element(0x114D_9B74, SeekHeadData()), Element(0x1549_A966, InfoData()),
                   Element(0x1654_AE6B, TracksData(m, uid))])
  {
    hide BeNat, Elements, ElementAt, InitializationSegment, EbmlHeaderData, SeekHeadData, InfoData, TracksData;
    InitializationReads(m, uid);
    FourBytes(0x1A, 0x45, 0xDF, 0xA3);
    FourBytes(0x18, 0x53, 0x80, 0x67);
    FourBytes(0x11, 0x4D, 0x9B, 0x74);
    FourBytes(0x15, 0x49, 0xA9, 0x66);
    FourBytes(0x16, 0x54, 0xAE, 0x6B);
    var s := InitializationSegment(m, uid);
    assert s[36] == s[36..40][0] == 0x18;
  }

  function HeaderParts(): (ps: seq<Part>)
    ensures AllShort(ps)
  {
    [Part([0x42, 0x86], [1]), Part([0x42, 0xF7], [1]), Part([0x42, 0xF2], [4]), Part([0x42, 0xF3], [8]),
     Part([0x42, 0x82], [0x77, 0x65, 0x62, 0x6D]), Part([0x42, 0x87], [4]), Part([0x42, 0x85], [2])]
  }

  lemma HeaderIsParts()
    ensures EbmlHeaderData() == PrintAll(HeaderParts())
  {
    hide PrintAll, HeaderParts;
    HeaderFront();
    HeaderTail();
  }

  lemma HeaderFront()
    ensures PrintAll(HeaderParts()) ==
            [0x42, 0x86, 0x81, 0x01] + [0x42, 0xF7, 0x81, 0x01] + [0x42, 0xF2, 0x81, 0x04] + [0x42, 0xF3, 0x81, 0x08]
            + PrintAll(HeaderParts()[4..])
  {
    hide PrintAll;
    var ps := HeaderParts();
    FourPrinted(ps[0], ps[1], ps[2], ps[3], ps[4..]);
    assert ps == [ps[0], ps[1], ps[2], ps[3]] + ps[4..];
    assert ps[0].Print() == [0x42, 0x86, 0x81, 0x01] && ps[1].Print() == [0x42, 0xF7, 0x81, 0x01];
    assert ps[2].Print() == [0x42, 0xF2, 0x81, 0x04] && ps[3].Print() == [0x42, 0xF3, 0x81, 0x08];
  }

  lemma HeaderTail()
    ensures PrintAll(HeaderParts()[4..]) ==
            [0x42, 0x82, 0x84, 0x77, 0x65, 0x62, 0x6D] + [0x42, 0x87, 0x81, 0x04] + [0x42, 0x85, 0x81, 0x02]
  {
    hide PrintAll;
    var ps := HeaderParts();
    assert ps[4..] == [ps[4]] + ([ps[5]] + ([ps[6]] + []));
    PrintNothing();
    PrintFirst(ps[6], []);
    PrintFirst(ps[5], [ps[6]] + []);
    PrintFirst(ps[4], [ps[5]] + ([ps[6]] + []));
  }

  lemma HeaderElements()
    ensures ReadAll(HeaderParts()) ==
            [Element(0x4286, [1]), Element(0x42F7, [1]), Element(0x42F2, [4]), Element(0x42F3, [8]),
             Element(0x4282, Ascii("webm")), Element(0x4287, [4]), Element(0x4285, [2])]
  {
    hide BeNat;
    TwoBytes(0x42, 0x86);
    TwoBytes(0x42, 0xF7);
    TwoBytes(0x42, 0xF2);
    TwoBytes(0x42, 0xF3);
    TwoBytes(0x42, 0x82);
    TwoBytes(0x42, 0x87);
    TwoBytes(0x42, 0x85);
    assert Ascii("webm") == [0x77, 0x65, 0x62, 0x6D];
  }

  /** EBML version 1, identifiers of at most four bytes, sizes of at most eight, and the WebM document type 4, 2. */
  lemma HeaderFields()
    ensures Elements(EbmlHeaderData()) ==
            Ok([Element(0x4286, [1]), Element(0x42F7, [1]), Element(0x42F2, [4]), Element(0x42F3, [8]),
                Element(0x4282, Ascii("webm")), Element(0x4287, [4]), Element(0x4285, [2])])
  {
    hide Elements, PrintAll, EbmlHeaderData, ReadAll, HeaderParts;
    HeaderIsParts();
    PartsRead(HeaderParts());
    HeaderElements();
  }

  /** The SeekHead entries: an identifier and its position. */
  lemma SeekFields()
    ensures exists info: seq<Byte>, tracks: seq<Byte>, cluster: seq<Byte> ::
              && Elements(SeekHeadData()) ==
                 Ok([Element(0x4DBB, info), Element(0x4DBB, tracks), Element(0x4DBB, cluster)])
              && Elements(info) == Ok([Element(0x53AB, [0x15, 0x49, 0xA9, 0x66]), Element(0x53AC, [47])])
              && Elements(tracks) == Ok([Element(0x53AB, [0x16, 0x54, 0xAE, 0x6B]), Element(0x53AC, [95])])
              && Elements(cluster) == Ok([Element(0x53AB, [0x1F, 0x43, 0xB6, 0x75]), Element(0x53AC, [165])])
  {
    hide BeNat, Elements, SeekHeadData, SeekData;
    SeekHeadReads();
    SeekReads(INFO_ID, 47);
    SeekReads(TRACKS_ID, 95);
    SeekReads(CLUSTER_ID, 165);
    TwoBytes(0x4D, 0xBB);
    TwoBytes(0x53, 0xAB);
    TwoBytes(0x53, 0xAC);
  }

  /** Nanoseconds in a timestamp unit, and the application twice. */
  lemma InfoFields()
    ensures exists scale: seq<Byte> ::
              && BeNat(scale) == 1_000_000
              && Elements(InfoData()) ==
                 Ok([Element(0x2A_D7B1, scale), Element(0x4D80, Ascii("audiomux-v0.0.0")),
                     Element(0x5741, Ascii("audiomux-v0.0.0"))])
  {
    hide BeNat, Elements, InfoData, ReadAll, InfoParts;
    InfoReads();
    ThreeBytes(0x0F, 0x42, 0x40);
    InfoElements();
  }

  lemma InfoElements()
    ensures ReadAll(InfoParts()) ==
            [Element(0x2A_D7B1, [0x0F, 0x42, 0x40]), Element(0x4D80, Ascii("audiomux-v0.0.0")),
             Element(0x5741, Ascii("audiomux-v0.0.0"))]
  {
    hide BeNat, ApplicationName;
    ThreeBytes(0x2A, 0xD7, 0xB1);
    TwoBytes(0x4D, 0x80);
    TwoBytes(0x57, 0x41);
    NameIsText();
  }

  lemma NameIsText()
    ensures ApplicationName() == Ascii("audiomux-v0.0.0")
  {
  }

  /** Magic, version 1, channels, pre-skip and rate in little-endian order, no gain, mapping family 0. */
  ghost predicate IsOpusHead(d: seq<Byte>, channels: Byte, preSkip: nat, rate: nat) {
    && |d| == 19 && d[..8] == Ascii("OpusHead") && d[8] == 1 && d[9] == channels
    && d[10] as int + 0x100 * d[11] as int == preSkip
    && d[12] as int + 0x100 * d[13] as int + 0x1_0000 * d[14] as int + 0x100_0000 * d[15] as int == rate
    && d[16..] == [0, 0, 0]
  }

  lemma OpusHeadFields(m: Muxer)
    requires m.internalDelay < 0x1_0000 && m.sampleRate < 0x1_0000_0000
    ensures IsOpusHead(OpusHead(m), m.channels, m.internalDelay, m.sampleRate)
  {
    var d := OpusHead(m);
    assert d[..8] == Ascii("OpusHead");
    assert d[10..12] == Little2(m.internalDelay) && d[12..16] == Little4(m.sampleRate);
    assert d[10] == d[10..12][0] && d[11] == d[10..12][1];
    hide OpusHead, Little2;
    assert d[12] == d[12..16][0] && d[13] == d[12..16][1] && d[14] == d[12..16][2] && d[15] == d[12..16][3];
    LittleFour(m.sampleRate);
    LittleTwo(m.internalDelay);
  }

  lemma LittleTwo(n: nat)
    requires n < 0x1_0000
    ensures Little2(n)[0] as int + 0x100 * Little2(n)[1] as int == n
  {
  }

  lemma LittleFour(n: nat)
    requires n < 0x1_0000_0000
    ensures var d := Little4(n);
            d[0] as int + 0x100 * d[1] as int + 0x1_0000 * d[2] as int + 0x100_0000 * d[3] as int == n
  {
    hide Little2;
    LittleTwo(n % 0x1_0000);
    LittleTwo(n / 0x1_0000);
    assert Little2(n) == Little2(n % 0x1_0000) by { LittleLow(n); }
  }

  lemma LittleLow(n: nat)
    ensures Little2(n) == Little2(n % 0x1_0000)
  {
    var low, high := n % 0x1_0000, n / 0x1_0000;
    assert n == 0x100 * (0x100 * high) + low && n / 0x100 == 0x100 * high + low / 0x100;
    Multiple(0x100 * high, low);
    Multiple(high, low / 0x100);
  }

  lemma Multiple(h: nat, n: nat)
    ensures (0x100 * h + n) % 0x100 == n % 0x100
  {
  }

  /** The codec delay is the pre-skip in whole nanoseconds, rounded down. */
  lemma DelayFields(m: Muxer)
    requires m.sampleRate > 0 && CodecDelayNs(m) < 0x1_0000_0000
    ensures var ns := BeNat(Big4(CodecDelayNs(m)));
            ns * m.sampleRate <= m.internalDelay * 1_000_000_000 < (ns + 1) * m.sampleRate
  {
    var n := CodecDelayNs(m);
    Big4Reads(n);
    Quotient(m.internalDelay * 1_000_000_000, m.sampleRate);
  }

  lemma Quotient(a: nat, b: nat)
    requires b > 0
    ensures a / b * b <= a < (a / b + 1) * b
  {
  }

  lemma Big4Reads(n: nat)
    requires n < 0x1_0000_0000
    ensures BeNat(Big4(n)) == n
  {
    hide BeNat;
    var b0, b1, b2, b3 := n / 0x100_0000 % 256, n / 0x1_0000 % 256, n / 0x100 % 256, n % 256;
    FourBytes(b0, b1, b2, b3);
    assert n / 0x1_0000 == 256 * (n / 0x100_0000) + b1 && n / 0x100 == 256 * (n / 0x1_0000) + b2;
  }

  /** Track 1, its identifier, audio, the Opus codec, the delay, the Opus header and the audio settings. */
  lemma TrackFields(m: Muxer, uid: seq<Byte>)
    requires m.sampleRate > 0 && |uid| == 7 && CodecDelayNs(m) < 0x1_0000_0000
    requires m.internalDelay < 0x1_0000 && m.sampleRate < 0x1_0000_0000
    ensures exists entry: seq<Byte>, delay: seq<Byte>, head: seq<Byte>, audio: seq<Byte> ::
              && Elements(TracksData(m, uid)) == Ok([Element(0xAE, entry)])
              && Elements(entry) ==
                 Ok([Element(0xD7, [1]), Element(0x73C5, uid), Element(0x83, [2]), Element(0x86, Ascii("A_OPUS")),
                     Element(0x56AA, delay), Element(0x63A2, head), Element(0xE1, audio)])
              && BeNat(delay) * m.sampleRate <= m.internalDelay * 1_000_000_000 < (BeNat(delay) + 1) * m.sampleRate
              && IsOpusHead(head, m.channels, m.internalDelay, m.sampleRate)
              && Elements(audio) == Ok([Element(0xB5, [0x47, 0x3B, 0x80, 0x00]), Element(0x9F, [m.channels])])
  {
    hide BeNat, Elements, TracksData, PrintAll, OpusHead, Big4, CodecDelayNs, IsOpusHead;
    TracksRead(m, uid);
    DelayFields(m);
    OpusHeadFields(m);
    EntryElements(m, uid);
    AudioElements(m);
    var entry, audio := PrintAll(EntryParts(m, uid)), PrintAll(AudioParts(m));
    assert Elements(entry) == Ok(ReadAll(EntryParts(m, uid)));
  }

  lemma EntryElements(m: Muxer, uid: seq<Byte>)
    requires m.sampleRate > 0 && |uid| == 7
    ensures ReadAll(EntryParts(m, uid)) ==
            [Element(0xD7, [1]), Element(0x73C5, uid), Element(0x83, [2]), Element(0x86, Ascii("A_OPUS")),
             Element(0x56AA, Big4(CodecDelayNs(m))), Element(0x63A2, OpusHead(m)),
             Element(0xE1, PrintAll(AudioParts(m)))]
  {
    hide BeNat, PrintAll, OpusHead, Big4, CodecDelayNs, AudioParts;
    OneByte(0xD7);
    TwoBytes(0x73, 0xC5);
    OneByte(0x83);
    OneByte(0x86);
    TwoBytes(0x56, 0xAA);
    TwoBytes(0x63, 0xA2);
    OneByte(0xE1);
    assert Ascii("A_OPUS") == OPUS_CODEC;
  }

  lemma AudioElements(m: Muxer)
    ensures ReadAll(AudioParts(m)) == [Element(0xB5, [0x47, 0x3B, 0x80, 0x00]), Element(0x9F, [m.channels])]
  {
    hide BeNat;
    OneByte(0xB5);
    OneByte(0x9F);
  }

  /** The sampling frequency in single precision: exponent 142 and the mantissa make 48000. */
  lemma FrequencyReads()
    ensures var bits := BeNat([0x47, 0x3B, 0x80, 0x00]);
            && bits / 0x80_0000 == 142
            && (bits % 0x80_0000 + 0x80_0000) * 0x100 == 48000 * 0x1_0000
  {
    hide BeNat;
    FourBytes(0x47, 0x3B, 0x80, 0x00);
  }
}
