/** Media segments of fragmented MP4 (ISO/IEC 14496-12): the printer of web/src/fmp4.ts and a
    box reader that takes its output apart again. */
module Fmp4 {
  import opened Bytes

  // ----- Boxes -------------------------------------------------------------

  datatype Kind = Moof | Mdat | Mfhd | Traf | Tfhd | Tfdt | Trun

  function FourCc(k: Kind): (s: seq<byte>)
    ensures |s| == 4
  {
    match k
    case Moof => [0x6d, 0x6f, 0x6f, 0x66]
    case Mdat => [0x6d, 0x64, 0x61, 0x74]
    case Mfhd => [0x6d, 0x66, 0x68, 0x64]
    case Traf => [0x74, 0x72, 0x61, 0x66]
    case Tfhd => [0x74, 0x66, 0x68, 0x64]
    case Tfdt => [0x74, 0x66, 0x64, 0x74]
    case Trun => [0x74, 0x72, 0x75, 0x6e]
  }

  /** Numbers are written as their low 32 bits. */
  function Low32(x: int): u32 {
    x % 0x1_0000_0000
  }

  /** 64-bit form: high word by floor division, low word by truncation to 32 bits. */
  function WriteU64(v: int): (s: seq<byte>)
    ensures |s| == 8
  {
    PutU32(Low32(v / 0x1_0000_0000)) + PutU32(Low32(v))
  }

  function Box(k: Kind, payload: seq<byte>): seq<byte> {
    PutU32(Low32(8 + |payload|)) + FourCc(k) + payload
  }

  function FullHead(version: byte, flags: nat): (s: seq<byte>)
    requires flags < 0x100_0000
    ensures |s| == 4
  {
    [version, flags / 0x1_0000, flags / 0x100 % 0x100, flags % 0x100]
  }

  function FullBox(k: Kind, version: byte, flags: nat, payload: seq<byte>): seq<byte>
    requires flags < 0x100_0000
  {
    Box(k, FullHead(version, flags) + payload)
  }

  // ----- The segment -------------------------------------------------------

  const KEY_FLAGS: u32 := 0x0200_0000
  const NONKEY_FLAGS: u32 := 0x0101_0000
  const DEFAULT_BASE_IS_MOOF := 0x020000
  const TRUN_FLAGS := 0x000305  // data offset, first sample flags, duration, size

  datatype Segment = Segment(sample: seq<byte>, time: int, duration: int, keyframe: bool, sequence: int)

  function SampleFlags(keyframe: bool): u32 {
    if keyframe then KEY_FLAGS else NONKEY_FLAGS
  }

  function MfhdBox(s: Segment): seq<byte> {
    FullBox(Mfhd, 0, 0, PutU32(Low32(s.sequence)))
  }

  function TfhdBox(): seq<byte> {
    FullBox(Tfhd, 0, DEFAULT_BASE_IS_MOOF, PutU32(1))
  }

  function TfdtBox(s: Segment): seq<byte> {
    FullBox(Tfdt, 1, 0, WriteU64(s.time))
  }

  function TrunPayload(s: Segment, offset: u32): (p: seq<byte>)
    ensures |p| == 20
  {
    PutU32(1) + PutU32(offset) + PutU32(SampleFlags(s.keyframe)) + PutU32(Low32(s.duration)) + PutU32(Low32(|s.sample|))
  }

  function TrunBox(s: Segment, offset: u32): seq<byte> {
    FullBox(Trun, 0, TRUN_FLAGS, TrunPayload(s, offset))
  }

  function MoofBox(s: Segment, offset: u32): seq<byte> {
    Box(Moof, MfhdBox(s) + Box(Traf, TfhdBox() + TfdtBox(s) + TrunBox(s, offset)))
  }

  const MOOF_SIZE: nat := 100

  lemma MoofLength(s: Segment, offset: u32)
    ensures |MoofBox(s, offset)| == MOOF_SIZE && |TrunBox(s, offset)| == 32
  {
  }

  /** The whole segment, with the data offset already in place. */
  function Print(s: Segment): seq<byte> {
    MoofBox(s, MOOF_SIZE + 8) + Box(Mdat, s.sample)
  }

  /** Builds the moof with a zero data offset and patches the real one in afterwards. */
  method BuildSegment(s: Segment) returns (out: seq<byte>)
    ensures out == Print(s)
  {
    hide PutU32, Box, TrunBox, MoofBox;
    var placed := MoofBox(s, 0);
    MoofLength(s, 0);
    var moof := new byte[|placed|](i requires 0 <= i < |placed| => placed[i]);
    assert moof[..] == placed;
    var dataOffset := moof.Length + 8;
    Patch(moof, moof.Length - |TrunBox(s, 0)| + 16, dataOffset);
    PatchedOffset(s, dataOffset);
    out := moof[..] + Box(Mdat, s.sample);
  }

  method Patch(a: array<byte>, pos: nat, x: u32)
    requires pos + 4 <= a.Length
    modifies a
    ensures a[..] == old(a[..pos]) + PutU32(x) + old(a[pos + 4..])
  {
    var bytes := PutU32(x);
    a[pos] := bytes[0];
    a[pos + 1] := bytes[1];
    a[pos + 2] := bytes[2];
    a[pos + 3] := bytes[3];
    assert a[pos..pos + 4] == bytes;
    assert a[..] == a[..pos] + a[pos..pos + 4] + a[pos + 4..];
  }

  /** The four bytes at 84 are the data offset of the run, and nothing else depends on it. */
  lemma PatchedOffset(s: Segment, offset: u32)
    ensures |MoofBox(s, 0)| == MOOF_SIZE
    ensures MoofBox(s, offset) == MoofBox(s, 0)[..84] + PutU32(offset) + MoofBox(s, 0)[88..]
  {
    hide PutU32, FourCc;
    MoofLength(s, 0);
    MoofLength(s, offset);
    var a, b := MoofBox(s, 0), MoofBox(s, offset);
    TrunAt(s, 0);
    TrunAt(s, offset);
  }

  /** The bytes of a moof around the data offset. */
  lemma TrunAt(s: Segment, offset: u32)
    ensures MoofBox(s, offset) == MoofFront(s) + PutU32(offset) + MoofBack(s)
    ensures |MoofFront(s)| == 84
  {
    hide PutU32, FourCc, FullHead, WriteU64;
  }

  function MoofFront(s: Segment): seq<byte> {
    PutU32(MOOF_SIZE) + FourCc(Moof) + MfhdBox(s) + PutU32(76) + FourCc(Traf) + TfhdBox() + TfdtBox(s)
    + PutU32(32) + FourCc(Trun) + FullHead(0, TRUN_FLAGS) + PutU32(1)
  }

  function MoofBack(s: Segment): seq<byte> {
    PutU32(SampleFlags(s.keyframe)) + PutU32(Low32(s.duration)) + PutU32(Low32(|s.sample|))
  }

  // ----- The reader --------------------------------------------------------

  datatype RawBox = RawBox(kind: seq<byte>, payload: seq<byte>)

  /** One box off the front: a 32-bit size that covers its own header and fits the input. */
  function ReadBox(s: seq<byte>): Option<(RawBox, seq<byte>)> {
    if |s| < 8 || GetU32(s) < 8 || GetU32(s) > |s| then None
    else Some((RawBox(s[4..8], s[8..GetU32(s)]), s[GetU32(s)..]))
  }

  /** A list of boxes that together use up every byte. */
  function ReadBoxes(s: seq<byte>): Option<seq<RawBox>>
    decreases |s|
  {
    if s == [] then Some([])
    else
      match ReadBox(s)
      case None => None
      case Some((box, rest)) =>
        match ReadBoxes(rest)
        case None => None
        case Some(more) => Some([box] + more)
  }

  /** Exactly these boxes, in this order. */
  function ReadKinds(s: seq<byte>, kinds: seq<Kind>): (r: Option<seq<seq<byte>>>)
    ensures r.Some? ==> |r.value| == |kinds|
  {
    match ReadBoxes(s)
    case None => None
    case Some(boxes) =>
      if |boxes| == |kinds| && forall i :: 0 <= i < |kinds| ==> boxes[i].kind == FourCc(kinds[i])
      then Some(seq(|boxes|, i requires 0 <= i < |boxes| => boxes[i].payload))
      else None
  }

  /** What a player learns from a one-sample segment. */
  datatype Info = Info(sequence: u32, time: u64, duration: u32, flags: u32, sample: seq<byte>)

  function ReadSegment(s: seq<byte>): Option<Info> {
    match ReadKinds(s, [Moof, Mdat])
    case None => None
    case Some(top) =>
      match ReadKinds(top[0], [Mfhd, Traf])
      case None => None
      case Some(moof) =>
        match ReadKinds(moof[1], [Tfhd, Tfdt, Trun])
        case None => None
        case Some(traf) => ReadFields(s, moof[0], traf[0], traf[1], traf[2])
  }

  /** The sample is found through the run's data offset, counted from the start of the moof. */
  function ReadFields(s: seq<byte>, mfhd: seq<byte>, tfhd: seq<byte>, tfdt: seq<byte>, trun: seq<byte>): Option<Info> {
    if |mfhd| != 8 || mfhd[..4] != FullHead(0, 0) then None
    else if tfhd != FullHead(0, DEFAULT_BASE_IS_MOOF) + PutU32(1) then None
    else if |tfdt| != 12 || tfdt[..4] != FullHead(1, 0) then None
    else if |trun| != 24 || trun[..8] != FullHead(0, TRUN_FLAGS) + PutU32(1) then None
    else
      var offset, size := GetU32(trun[8..]), GetU32(trun[20..]);
      if offset as int + size as int > |s| then None
      else Some(Info(GetU32(mfhd[4..]), GetU64(tfdt[4..]), GetU32(trun[16..]), GetU32(trun[12..]),
                     s[offset..offset as int + size as int]))
  }

  /** What should be learned: numbers modulo their width, the sample itself. */
  function InfoOf(s: Segment): Info {
    Info(Low32(s.sequence), s.time % 0x1_0000_0000_0000_0000, Low32(s.duration), SampleFlags(s.keyframe), s.sample)
  }

  lemma ReadBoxBack(k: Kind, payload: seq<byte>, rest: seq<byte>)
    ensures if 8 + |payload| < 0x1_0000_0000
            then ReadBox(Box(k, payload) + rest) == Some((RawBox(FourCc(k), payload), rest))
            else 8 + |payload| < 0x1_0000_0008 ==> ReadBox(Box(k, payload) + rest) == None
  {
    hide PutU32, GetU32, FourCc;
    var s := Box(k, payload) + rest;
    var n := 8 + |payload|;
    assert s == PutU32(Low32(n)) + (FourCc(k) + payload + rest);
    U32RoundTrip(Low32(n), FourCc(k) + payload + rest);
    if n < 0x1_0000_0000 {
      assert s[4..8] == FourCc(k);
      assert s[8..n] == payload;
      assert s[n..] == rest;
    }
  }

  lemma OneBox(k: Kind, payload: seq<byte>, rest: seq<byte>)
    requires 8 + |payload| < 0x1_0000_0000
    ensures var s := Box(k, payload) + rest;
            ReadBoxes(s) == match ReadBoxes(rest)
                            case None => None
                            case Some(more) => Some([RawBox(FourCc(k), payload)] + more)
  {
    hide FourCc, ReadBox;
    ReadBoxBack(k, payload, rest);
    assert |Box(k, payload)| >= 8;
  }

  lemma TwoBoxes(a: Kind, p: seq<byte>, b: Kind, q: seq<byte>)
    requires 8 + |p| < 0x1_0000_0000 && 8 + |q| < 0x1_0000_0000
    ensures ReadKinds(Box(a, p) + Box(b, q), [a, b]) == Some([p, q])
  {
    hide FourCc, Box;
    NoBoxes();
    OneBox(b, q, []);
    assert Box(b, q) + [] == Box(b, q);
    OneBox(a, p, Box(b, q));
    var boxes := ReadBoxes(Box(a, p) + Box(b, q)).value;
    assert boxes == [RawBox(FourCc(a), p), RawBox(FourCc(b), q)];
    var got := ReadKinds(Box(a, p) + Box(b, q), [a, b]);
    assert got.Some? && got.value == [p, q];
  }

  lemma ThreeBoxes(a: Kind, p: seq<byte>, b: Kind, q: seq<byte>, c: Kind, r: seq<byte>)
    requires 8 + |p| < 0x1_0000_0000 && 8 + |q| < 0x1_0000_0000 && 8 + |r| < 0x1_0000_0000
    ensures ReadKinds(Box(a, p) + Box(b, q) + Box(c, r), [a, b, c]) == Some([p, q, r])
  {
    hide FourCc, Box;
    NoBoxes();
    OneBox(c, r, []);
    assert Box(c, r) + [] == Box(c, r);
    OneBox(b, q, Box(c, r));
    OneBox(a, p, Box(b, q) + Box(c, r));
    Assoc(Box(a, p), Box(b, q), Box(c, r));
    var boxes := ReadBoxes(Box(a, p) + Box(b, q) + Box(c, r)).value;
    assert boxes == [RawBox(FourCc(a), p), RawBox(FourCc(b), q), RawBox(FourCc(c), r)];
    var got := ReadKinds(Box(a, p) + Box(b, q) + Box(c, r), [a, b, c]);
    assert got.Some? && got.value == [p, q, r];
  }

  lemma NoBoxes()
    ensures ReadBoxes([]) == Some([])
  {
  }

  lemma TimeBack(v: int)
    ensures GetU64(WriteU64(v)) == v % 0x1_0000_0000_0000_0000
  {
    var w := v % 0x1_0000_0000_0000_0000;
    var q := v / 0x1_0000_0000_0000_0000;
    assert v == 0x1_0000_0000 * (0x1_0000_0000 * q + w / 0x1_0000_0000) + w % 0x1_0000_0000;
    assert v / 0x1_0000_0000 == 0x1_0000_0000 * q + w / 0x1_0000_0000;
    assert Low32(v / 0x1_0000_0000) == w / 0x1_0000_0000;
    assert Low32(v) == w % 0x1_0000_0000;
    assert WriteU64(v) == PutU64(w);
    U64RoundTrip(w, []);
    assert PutU64(w) + [] == PutU64(w);
  }

  lemma FieldsBack(whole: seq<byte>, s: Segment)
    requires |s.sample| < 0x1_0000_0000
    requires |whole| == MOOF_SIZE + 8 + |s.sample| && whole[MOOF_SIZE + 8..] == s.sample
    ensures ReadFields(whole, FullHead(0, 0) + PutU32(Low32(s.sequence)),
                       FullHead(0, DEFAULT_BASE_IS_MOOF) + PutU32(1),
                       FullHead(1, 0) + WriteU64(s.time),
                       FullHead(0, TRUN_FLAGS) + TrunPayload(s, MOOF_SIZE + 8)) == Some(InfoOf(s))
  {
    hide PutU32, GetU32, GetU64, WriteU64, FullHead;
    var mfhd, tfdt := FullHead(0, 0) + PutU32(Low32(s.sequence)), FullHead(1, 0) + WriteU64(s.time);
    var trun := FullHead(0, TRUN_FLAGS) + TrunPayload(s, MOOF_SIZE + 8);
    WordBack(mfhd[4..], Low32(s.sequence), []);
    assert mfhd[4..] == PutU32(Low32(s.sequence)) + [];
    assert tfdt[4..] == WriteU64(s.time);
    TimeBack(s.time);
    var w5 := PutU32(Low32(|s.sample|));
    var w4 := PutU32(Low32(s.duration)) + w5;
    var w3 := PutU32(SampleFlags(s.keyframe)) + w4;
    assert trun[8..] == PutU32(MOOF_SIZE + 8) + w3;
    assert trun[12..] == w3 && trun[16..] == w4 && trun[20..] == w5 + [];
    WordBack(trun[8..], MOOF_SIZE + 8, w3);
    WordBack(trun[12..], SampleFlags(s.keyframe), w4);
    WordBack(trun[16..], Low32(s.duration), w5);
    WordBack(trun[20..], Low32(|s.sample|), []);
    assert trun[..8] == FullHead(0, TRUN_FLAGS) + PutU32(1);
    assert mfhd[..4] == FullHead(0, 0) && tfdt[..4] == FullHead(1, 0);
    assert Low32(|s.sample|) == |s.sample|;
    assert whole[MOOF_SIZE + 8..MOOF_SIZE + 8 + |s.sample|] == s.sample;
  }

  lemma WordBack(s: seq<byte>, x: u32, rest: seq<byte>)
    ensures s == PutU32(x) + rest ==> |s| >= 4 && GetU32(s) == x
  {
    U32RoundTrip(x, rest);
  }

  /** Reading a printed segment recovers everything that was printed, and the bytes its data
      offset points at are the sample, exactly when the sample fits a 32-bit mdat box. */
  lemma SegmentRoundTrip(s: Segment)
    ensures ReadSegment(Print(s)) == Some(InfoOf(s)) <==> 8 + |s.sample| < 0x1_0000_0000
  {
    hide ReadKinds, ReadFields, ReadBoxes, FourCc, PutU32, WriteU64, FullHead, TrunPayload;
    if 8 + |s.sample| < 0x1_0000_0000 {
      PrintedSegment(s);
    } else if |s.sample| >= 0x1_0000_0000 {
      SampleFits(Print(s));
    } else {
      WrappedMdat(s);
    }
  }

  lemma PrintedSegment(s: Segment)
    requires 8 + |s.sample| < 0x1_0000_0000
    ensures ReadSegment(Print(s)) == Some(InfoOf(s))
  {
    hide ReadKinds, ReadFields, FourCc, PutU32, WriteU64, FullHead, TrunPayload;
    var offset: u32 := MOOF_SIZE + 8;
    MoofLength(s, offset);
    var traf := TfhdBox() + TfdtBox(s) + TrunBox(s, offset);
    var moof := MfhdBox(s) + Box(Traf, traf);
    TwoBoxes(Moof, moof, Mdat, s.sample);
    TwoBoxes(Mfhd, FullHead(0, 0) + PutU32(Low32(s.sequence)), Traf, traf);
    ThreeBoxes(Tfhd, FullHead(0, DEFAULT_BASE_IS_MOOF) + PutU32(1), Tfdt, FullHead(1, 0) + WriteU64(s.time),
               Trun, FullHead(0, TRUN_FLAGS) + TrunPayload(s, offset));
    MdatAt(s);
    FieldsBack(Print(s), s);
  }

  lemma MdatAt(s: Segment)
    ensures |Print(s)| == MOOF_SIZE + 8 + |s.sample| && Print(s)[MOOF_SIZE + 8..] == s.sample
  {
    hide PutU32, FourCc, MoofBox;
    MoofLength(s, MOOF_SIZE + 8);
  }

  lemma SampleFits(b: seq<byte>)
    ensures ReadSegment(b).Some? ==> |ReadSegment(b).value.sample| < 0x1_0000_0000
  {
    hide ReadKinds, FullHead, PutU32;
  }

  lemma WrappedMdat(s: Segment)
    requires 0x1_0000_0000 <= 8 + |s.sample| < 0x1_0000_0008
    ensures ReadSegment(Print(s)) == None
  {
    hide FourCc, PutU32, ReadFields, ReadBox, TrunPayload, WriteU64, FullHead;
    var moof := MfhdBox(s) + Box(Traf, TfhdBox() + TfdtBox(s) + TrunBox(s, MOOF_SIZE + 8));
    MoofLength(s, MOOF_SIZE + 8);
    ReadBoxBack(Mdat, s.sample, []);
    var mdat := Box(Mdat, s.sample);
    assert mdat + [] == mdat;
    assert ReadBoxes(mdat) == None;
    OneBox(Moof, moof, mdat);
  }

  // ----- The bytes ---------------------------------------------------------

  function Ascii(s: string): (r: seq<byte>)
    ensures |r| == |s|
  {
    seq(|s|, i requires 0 <= i < |s| => if s[i] < 256 as char then s[i] as int else 0)
  }

  lemma BoxNames()
    ensures FourCc(Moof) == Ascii("moof") && FourCc(Mdat) == Ascii("mdat") && FourCc(Mfhd) == Ascii("mfhd")
    ensures FourCc(Traf) == Ascii("traf") && FourCc(Tfhd) == Ascii("tfhd") && FourCc(Tfdt) == Ascii("tfdt")
    ensures FourCc(Trun) == Ascii("trun")
  {
  }

  /** The segment byte by byte (ISO/IEC 14496-12 sections 8.8.4 to 8.8.8 and 8.8.12): a movie
      fragment of 100 bytes and the media data, with the data offset 108. */
  lemma SegmentBytes(s: Segment)
    ensures Print(s) ==
            ([0, 0, 0, 100] + Ascii("moof")
             + ([0, 0, 0, 16] + Ascii("mfhd") + [0, 0, 0, 0] + PutU32(s.sequence % 0x1_0000_0000))
             + ([0, 0, 0, 76] + Ascii("traf")
                + ([0, 0, 0, 16] + Ascii("tfhd") + [0, 2, 0, 0] + [0, 0, 0, 1])
                + ([0, 0, 0, 20] + Ascii("tfdt") + [1, 0, 0, 0] + WriteU64(s.time))
                + ([0, 0, 0, 32] + Ascii("trun") + [0, 0, 3, 5] + [0, 0, 0, 1] + [0, 0, 0, 108]
                   + (if s.keyframe then [2, 0, 0, 0] else [1, 1, 0, 0])
                   + PutU32(s.duration % 0x1_0000_0000) + PutU32(|s.sample| % 0x1_0000_0000))))
            + (PutU32((8 + |s.sample|) % 0x1_0000_0000) + Ascii("mdat") + s.sample)
  {
    BoxNames();
    HeadBytes(s);
    RunBytes(s);
    hide FourCc, Ascii, WriteU64, PutU32, TrunBox, TfdtBox, TfhdBox, MfhdBox;
    SmallWord(100); SmallWord(76);
    MoofLength(s, MOOF_SIZE + 8);
  }

  lemma SmallWord(n: byte)
    ensures PutU32(n) == [0, 0, 0, n]
  {
  }

  lemma HeadBytes(s: Segment)
    ensures MfhdBox(s) == [0, 0, 0, 16] + Ascii("mfhd") + [0, 0, 0, 0] + PutU32(s.sequence % 0x1_0000_0000)
    ensures TfhdBox() == [0, 0, 0, 16] + Ascii("tfhd") + [0, 2, 0, 0] + [0, 0, 0, 1]
    ensures TfdtBox(s) == [0, 0, 0, 20] + Ascii("tfdt") + [1, 0, 0, 0] + WriteU64(s.time)
  {
    BoxNames();
    SmallWord(16); SmallWord(20); SmallWord(1);
    hide Ascii, FourCc, WriteU64;
  }

  lemma RunBytes(s: Segment)
    ensures TrunBox(s, MOOF_SIZE + 8) ==
            [0, 0, 0, 32] + Ascii("trun") + [0, 0, 3, 5] + [0, 0, 0, 1] + [0, 0, 0, 108]
            + (if s.keyframe then [2, 0, 0, 0] else [1, 1, 0, 0])
            + PutU32(s.duration % 0x1_0000_0000) + PutU32(|s.sample| % 0x1_0000_0000)
  {
    BoxNames();
    SmallWord(32);
    RunFields(s);
    hide Ascii, FourCc, PutU32, TrunPayload;
    assert FullHead(0, TRUN_FLAGS) == [0, 0, 3, 5];
  }

  lemma RunFields(s: Segment)
    ensures TrunPayload(s, MOOF_SIZE + 8) ==
            [0, 0, 0, 1] + [0, 0, 0, 108] + (if s.keyframe then [2, 0, 0, 0] else [1, 1, 0, 0])
            + PutU32(s.duration % 0x1_0000_0000) + PutU32(|s.sample| % 0x1_0000_0000)
  {
    SmallWord(1); SmallWord(108);
    FlagWords();
    hide PutU32;
  }

  lemma FlagWords()
    ensures PutU32(0x0200_0000) == [2, 0, 0, 0] && PutU32(0x0101_0000) == [1, 1, 0, 0]
  {
  }

  /** The reader takes no other boxes: each has the name asked for, in order. */
  lemma KindsChecked(s: seq<byte>, kinds: seq<Kind>, i: nat)
    requires ReadKinds(s, kinds).Some? && i < |kinds|
    ensures ReadBoxes(s).Some? && |ReadBoxes(s).value| == |kinds|
    ensures ReadBoxes(s).value[i] == RawBox(FourCc(kinds[i]), ReadKinds(s, kinds).value[i])
  {
  }

  /** What a player reads of the flags (section 8.8.3.1): the sample is a sync sample, and depends
      on no other, exactly when it is a keyframe. */
  lemma FlagsRead(s: Segment)
    requires 8 + |s.sample| < 0x1_0000_0000
    ensures ReadSegment(Print(s)).Some?
    ensures var w := ReadSegment(Print(s)).value.flags;
            (w / 0x1_0000 % 2 == 1 <==> !s.keyframe) && w / 0x100_0000 % 4 == if s.keyframe then 2 else 1
  {
    hide Print, ReadSegment;
    SegmentRoundTrip(s);
  }
}
