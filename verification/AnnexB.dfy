/** H.264 Annex-B byte streams and their AVCC form (web/src/fmp4.ts), and the second reader of
    Annex-B, avcCodecString (web/src/avc-codec.ts). */
module AnnexB {
  import opened Bytes

  // ----- Splitting ---------------------------------------------------------

  predicate IsStart(buf: seq<byte>, p: nat) {
    p + 2 < |buf| && buf[p] == 0 && buf[p + 1] == 0 && buf[p + 2] == 1
  }

  /** The first start code at or after j, or a position too late to hold one. */
  function Scan(buf: seq<byte>, j: nat): (r: nat)
    ensures j <= r
    ensures IsStart(buf, r) || r + 2 >= |buf|
    ensures forall k: nat :: j <= k < r ==> !IsStart(buf, k)
    decreases |buf| - j
  {
    if j + 2 < |buf| && !IsStart(buf, j) then Scan(buf, j + 1) else j
  }

  /** Where the unit that starts at `start` ends, given the position j of the next start code:
      one zero before it belongs to a four-byte start code. */
  function UnitEnd(buf: seq<byte>, start: nat, j: nat): (end: nat)
    requires start <= |buf| && start <= j
    ensures start <= end <= |buf|
  {
    var end := if j + 2 < |buf| then j else |buf|;
    if end > start && end < |buf| && buf[end - 1] == 0 then end - 1 else end
  }

  /** The units from the start code at i on. */
  function Units(buf: seq<byte>, i: nat): seq<seq<byte>>
    decreases |buf| - i
  {
    if i + 2 >= |buf| then []
    else
      var start := i + 3;
      var j := Scan(buf, start);
      var end := UnitEnd(buf, start, j);
      (if end > start then [buf[start..end]] else []) + Units(buf, j)
  }

  function AllUnits(buf: seq<byte>): seq<seq<byte>> {
    Units(buf, Scan(buf, 0))
  }

  method ScanFrom(buf: seq<byte>, j: nat) returns (r: nat)
    ensures r == Scan(buf, j)
  {
    r := j;
    while r + 2 < |buf| && !(buf[r] == 0 && buf[r + 1] == 0 && buf[r + 2] == 1)
      invariant Scan(buf, r) == Scan(buf, j)
      decreases |buf| - r
    {
      r := r + 1;
    }
  }

  method ParseAnnexB(buf: seq<byte>) returns (units: seq<seq<byte>>)
    ensures units == AllUnits(buf)
  {
    hide Scan, Units;
    units := [];
    var i := ScanFrom(buf, 0);
    NothingYet(Units(buf, i));
    while i + 2 < |buf|
      invariant units + Units(buf, i) == AllUnits(buf)
      decreases |buf| - i
    {
      var start := i + 3;
      var j := ScanFrom(buf, start);
      UnitsStep(buf, i, units);
      var end := if j + 2 < |buf| then j else |buf|;
      if end > start && end < |buf| && buf[end - 1] == 0 { end := end - 1; }
      if end > start {
        units := units + [buf[start..end]];
      }
      i := j;
    }
    UnitsDone(buf, i, units);
  }

  lemma NothingYet(rest: seq<seq<byte>>)
    ensures [] + rest == rest
  {
  }

  lemma UnitsStep(buf: seq<byte>, i: nat, units: seq<seq<byte>>)
    requires i + 2 < |buf|
    ensures var start := i + 3; var j := Scan(buf, start); var end := UnitEnd(buf, start, j);
            units + Units(buf, i) ==
            (if end > start then units + [buf[start..end]] else units) + Units(buf, j)
  {
    var start := i + 3;
    var j := Scan(buf, start);
    var end := UnitEnd(buf, start, j);
    var one := if end > start then [buf[start..end]] else [];
    Assoc(units, one, Units(buf, j));
    assert units + [] == units;
  }

  lemma UnitsDone(buf: seq<byte>, i: nat, units: seq<seq<byte>>)
    requires i + 2 >= |buf|
    ensures units + Units(buf, i) == units
  {
  }

  // ----- Round trip --------------------------------------------------------

  /** A NAL unit as H.264 Annex B allows it: emulation prevention keeps start codes out, and
      it does not end in a zero byte. */
  predicate Sane(nal: seq<byte>) {
    && nal != [] && nal[|nal| - 1] != 0
    && forall k: nat :: k < |nal| ==> !IsStart(nal, k)
  }

  /** A unit together with the kind of start code in front of it. */
  datatype Coded = Coded(four: bool, nal: seq<byte>)

  predicate AllSane(cs: seq<Coded>) {
    cs == [] || (Sane(cs[0].nal) && AllSane(cs[1..]))
  }

  function Code(four: bool): (r: seq<byte>)
    ensures |r| >= 3
  {
    if four then [0, 0, 0, 1] else [0, 0, 1]
  }

  function Join(cs: seq<Coded>): seq<byte> {
    if cs == [] then [] else Code(cs[0].four) + cs[0].nal + Join(cs[1..])
  }

  function Nals(cs: seq<Coded>): seq<seq<byte>> {
    if cs == [] then [] else [cs[0].nal] + Nals(cs[1..])
  }

  lemma {:induction false} ScanFinds(buf: seq<byte>, j: nat, p: nat)
    requires j <= p && IsStart(buf, p) && forall k: nat :: j <= k < p ==> !IsStart(buf, k)
    ensures Scan(buf, j) == p
    decreases p - j
  {
    if j < p { ScanFinds(buf, j + 1, p); }
  }

  lemma Located(buf: seq<byte>, at: nat, head: seq<byte>, tail: seq<byte>)
    requires at <= |buf| && buf[at..] == head + tail
    ensures |buf| == at + |head| + |tail|
    ensures forall k: nat :: at <= k < at + |head| ==> buf[k] == head[k - at]
    ensures buf[at..at + |head|] == head && buf[at + |head|..] == tail
  {
    forall k: nat | at <= k < |buf|
      ensures buf[k] == (head + tail)[k - at]
    {
    }
  }

  lemma NoStartInside(buf: seq<byte>, start: nat, nal: seq<byte>, tail: seq<byte>)
    requires Sane(nal) && start <= |buf| && buf[start..] == nal + tail
    ensures forall k: nat :: start <= k < start + |nal| ==> !IsStart(buf, k)
  {
    var e := start + |nal|;
    Located(buf, start, nal, tail);
    forall k: nat | start <= k < e
      ensures !IsStart(buf, k)
    {
      if k + 2 < e { assert !IsStart(nal, k - start); }
    }
  }

  lemma CodeFound(buf: seq<byte>, at: nat, four: bool, rest: seq<byte>)
    requires at <= |buf| && buf[at..] == Code(four) + rest
    ensures var p := at + |Code(four)| - 3;
            && IsStart(buf, p) && buf[p + 3..] == rest
            && (forall k: nat :: at <= k < p ==> !IsStart(buf, k))
            && (four ==> buf[p - 1] == 0)
  {
    Located(buf, at, Code(four), rest);
  }

  lemma JoinCons(cs: seq<Coded>)
    requires cs != []
    ensures Join(cs) == Code(cs[0].four) + (cs[0].nal + Join(cs[1..]))
  {
    Assoc(Code(cs[0].four), cs[0].nal, Join(cs[1..]));
  }

  /** Between the units of a joined stream there is no start code but the ones put there. */
  lemma NextUnit(buf: seq<byte>, start: nat, nal: seq<byte>, rest: seq<Coded>)
    requires Sane(nal) && start <= |buf| && buf[start..] == nal + Join(rest)
    ensures var e := start + |nal|; var j := Scan(buf, start);
            && UnitEnd(buf, start, j) == e <= |buf| && buf[start..e] == nal
            && (if rest == [] then j + 2 >= |buf|
                else IsStart(buf, j) && buf[j + 3..] == rest[0].nal + Join(rest[1..]))
  {
    hide Join, Code, Scan, IsStart;
    var e := start + |nal|;
    NoStartInside(buf, start, nal, Join(rest));
    Located(buf, start, nal, Join(rest));
    if rest == [] {
      JoinNil();
    } else {
      JoinCons(rest);
      var more := rest[0].nal + Join(rest[1..]);
      CodeFound(buf, e, rest[0].four, more);
      StartFits(buf, e, rest[0].four);
      ScanFinds(buf, start, e + |Code(rest[0].four)| - 3);
    }
  }

  lemma JoinNil()
    ensures Join([]) == [] && AllUnits([]) == []
  {
  }

  lemma StartFits(buf: seq<byte>, e: nat, four: bool)
    ensures var p := e + |Code(four)| - 3;
            p == (if four then e + 1 else e) && (IsStart(buf, p) ==> p + 2 < |buf|)
  {
  }

  lemma {:induction false} UnitsOfJoin(buf: seq<byte>, i: nat, cs: seq<Coded>)
    requires cs != [] && AllSane(cs)
    requires IsStart(buf, i) && buf[i + 3..] == cs[0].nal + Join(cs[1..])
    ensures Units(buf, i) == Nals(cs)
    decreases |cs|
  {
    hide Scan, UnitEnd, Join, Sane, IsStart;
    var nal := cs[0].nal;
    StartRoom(buf, i);
    NextUnit(buf, i + 3, nal, cs[1..]);
    SaneSome(nal);
    var j := Scan(buf, i + 3);
    UnitsHead(buf, i, nal);
    if |cs| > 1 {
      UnitsOfJoin(buf, j, cs[1..]);
    }
  }

  lemma StartRoom(buf: seq<byte>, i: nat)
    requires IsStart(buf, i)
    ensures i + 2 < |buf|
  {
  }

  lemma UnitsHead(buf: seq<byte>, i: nat, nal: seq<byte>)
    requires i + 2 < |buf| && nal != []
    requires UnitEnd(buf, i + 3, Scan(buf, i + 3)) == i + 3 + |nal| <= |buf| && buf[i + 3..i + 3 + |nal|] == nal
    ensures Units(buf, i) == [nal] + Units(buf, Scan(buf, i + 3))
    ensures Scan(buf, i + 3) + 2 >= |buf| ==> Units(buf, Scan(buf, i + 3)) == []
  {
  }

  lemma SaneSome(nal: seq<byte>)
    requires Sane(nal)
    ensures nal != []
  {
  }

  /** Units joined by any mix of three- and four-byte start codes come back exactly. */
  lemma AnnexBRoundTrip(cs: seq<Coded>)
    requires AllSane(cs)
    ensures AllUnits(Join(cs)) == Nals(cs)
  {
    hide Scan, Join, Sane, Code, IsStart, Units;
    var buf := Join(cs);
    if cs == [] {
      JoinNil();
    } else {
      JoinCons(cs);
      assert buf[0..] == buf;
      CodeFound(buf, 0, cs[0].four, cs[0].nal + Join(cs[1..]));
      var p := |Code(cs[0].four)| - 3;
      ScanFinds(buf, 0, p);
      UnitsOfJoin(buf, p, cs);
    }
  }

  // ----- AVCC --------------------------------------------------------------

  function NalType(nal: seq<byte>): int {
    if nal == [] then 0 else nal[0] % 0x20
  }

  /** Parameter sets and access unit delimiters do not go into samples. */
  predicate InSample(nal: seq<byte>) {
    NalType(nal) !in {7, 8, 9}
  }

  function SampleUnits(units: seq<seq<byte>>): seq<seq<byte>> {
    if units == [] then []
    else (if InSample(units[0]) then [units[0]] else []) + SampleUnits(units[1..])
  }

  /** One length-prefixed unit; the length wraps at 32 bits. */
  function Lengthed(nal: seq<byte>): seq<byte> {
    PutU32(|nal| % 0x1_0000_0000) + nal
  }

  function LengthedAll(units: seq<seq<byte>>): seq<byte> {
    if units == [] then [] else Lengthed(units[0]) + LengthedAll(units[1..])
  }

  method AnnexBToAvcc(units: seq<seq<byte>>) returns (sample: seq<byte>)
    ensures sample == LengthedAll(SampleUnits(units))
  {
    hide Lengthed;
    sample := [];
    for i := 0 to |units|
      invariant sample + LengthedAll(SampleUnits(units[i..])) == LengthedAll(SampleUnits(units))
    {
      var u := units[i];
      assert units[i..][1..] == units[i + 1..];
      var t := NalType(u);
      if t == 7 || t == 8 || t == 9 {
        assert SampleUnits(units[i..]) == [] + SampleUnits(units[i + 1..]) == SampleUnits(units[i + 1..]);
        continue;
      }
      assert ([u] + SampleUnits(units[i + 1..]))[1..] == SampleUnits(units[i + 1..]);
      Assoc(sample, Lengthed(u), LengthedAll(SampleUnits(units[i + 1..])));
      sample := sample + Lengthed(u);
    }
    assert sample + [] == sample;
  }

  /** A reader of AVCC samples: 4-byte lengths, every byte accounted for. */
  function ReadAvcc(s: seq<byte>): Option<seq<seq<byte>>>
    decreases |s|
  {
    if s == [] then Some([])
    else if |s| < 4 || |s| < 4 + GetU32(s) as int then None
    else
      var n := 4 + GetU32(s) as int;
      match ReadAvcc(s[n..])
      case None => None
      case Some(rest) => Some([s[4..n]] + rest)
  }

  lemma ReadLengthed(nal: seq<byte>, rest: seq<byte>)
    requires |nal| < 0x1_0000_0000
    ensures var s := Lengthed(nal) + rest;
            && |s| == 4 + |nal| + |rest| && GetU32(s) == |nal| && s[4..4 + |nal|] == nal && s[4 + |nal|..] == rest
  {
    hide PutU32, GetU32;
    U32RoundTrip(|nal|, nal + rest);
    assert Lengthed(nal) + rest == PutU32(|nal|) + (nal + rest);
  }

  lemma ReadNothing()
    ensures ReadAvcc([]) == Some([])
  {
  }

  lemma ReadOneUnit(nal: seq<byte>, rest: seq<byte>)
    requires |nal| < 0x1_0000_0000
    ensures ReadAvcc(rest).Some? ==> ReadAvcc(Lengthed(nal) + rest) == Some([nal] + ReadAvcc(rest).value)
  {
    hide Lengthed, GetU32;
    ReadLengthed(nal, rest);
    var s := Lengthed(nal) + rest;
    var n := 4 + GetU32(s) as int;
    assert |s| >= n && s[4..n] == nal && s[n..] == rest;
  }

  lemma {:induction false} ReadAllLengthed(units: seq<seq<byte>>)
    requires forall k :: 0 <= k < |units| ==> |units[k]| < 0x1_0000_0000
    ensures ReadAvcc(LengthedAll(units)) == Some(units)
  {
    hide Lengthed, ReadAvcc;
    if units == [] {
      ReadNothing();
    } else {
      ReadOneUnit(units[0], LengthedAll(units[1..]));
      ReadAllLengthed(units[1..]);
      assert [units[0]] + units[1..] == units;
    }
  }

  lemma {:induction false} ReadUnitsFit(s: seq<byte>)
    ensures ReadAvcc(s).Some? ==>
              forall k :: 0 <= k < |ReadAvcc(s).value| ==> |ReadAvcc(s).value[k]| < 0x1_0000_0000
    decreases |s|
  {
    hide GetU32;
    if |s| >= 4 && |s| >= 4 + GetU32(s) as int {
      ReadUnitsFit(s[4 + GetU32(s) as int..]);
    }
  }

  /** A sample reads back as the units without parameter sets and delimiters, exactly when
      each of them is short enough for its 32-bit length. */
  lemma AvccRoundTrip(units: seq<seq<byte>>)
    ensures var kept := SampleUnits(units);
            ReadAvcc(LengthedAll(kept)) == Some(kept) <==>
            forall k :: 0 <= k < |kept| ==> |kept[k]| < 0x1_0000_0000
  {
    hide SampleUnits, LengthedAll, ReadAvcc;
    var kept := SampleUnits(units);
    if forall k :: 0 <= k < |kept| ==> |kept[k]| < 0x1_0000_0000 {
      ReadAllLengthed(kept);
    }
    ReadUnitsFit(LengthedAll(kept));
  }

  // ----- The codec string --------------------------------------------------

  /** The first unit of a type, as extractParamSets picks it. */
  function FirstOfType(units: seq<seq<byte>>, t: int): Option<seq<byte>> {
    if units == [] then None
    else if NalType(units[0]) == t then Some(units[0])
    else FirstOfType(units[1..], t)
  }

  /** Profile, constraint flags and level. */
  datatype CodecResult = NoSps | Truncated | Profile(profile: byte, constraints: byte, level: byte)

  function CodecScan(buf: seq<byte>, i: nat): CodecResult
    decreases |buf| - i
  {
    if i + 3 >= |buf| then NoSps
    else if IsStart(buf, i) && buf[i + 3] % 0x20 == 7 then
      if i + 6 >= |buf| then Truncated else Profile(buf[i + 4], buf[i + 5], buf[i + 6])
    else CodecScan(buf, i + 1)
  }

  function HexDigit(n: nat): char
    requires n < 16
  {
    "0123456789ABCDEF"[n]
  }

  function Hex(b: byte): string {
    [HexDigit(b / 16), HexDigit(b % 16)]
  }

  function CodecString(r: CodecResult): Option<string> {
    if r.Profile? then Some("avc1." + Hex(r.profile) + Hex(r.constraints) + Hex(r.level)) else None
  }

  method AvcCodecString(nal: seq<byte>) returns (codec: Option<string>)
    ensures codec == CodecString(CodecScan(nal, 0))
  {
    hide Hex;
    var i := 0;
    while i + 3 < |nal|
      invariant CodecScan(nal, i) == CodecScan(nal, 0)
      decreases |nal| - i
    {
      if nal[i] == 0 && nal[i + 1] == 0 && nal[i + 2] == 1 {
        var header := i + 3;
        if nal[header] % 0x20 == 7 {
          if header + 3 >= |nal| { return None; }
          return Some("avc1." + Hex(nal[header + 1]) + Hex(nal[header + 2]) + Hex(nal[header + 3]));
        }
      }
      i := i + 1;
    }
    return None;
  }

  lemma {:induction false} CodecSkips(buf: seq<byte>, i: nat, j: nat)
    requires i <= j && forall k: nat :: i <= k < j ==> !IsStart(buf, k)
    ensures CodecScan(buf, i) == CodecScan(buf, j)
    decreases j - i
  {
    if i < j && i + 3 < |buf| {
      CodecSkips(buf, i + 1, j);
    }
  }

  /** Start codes never overlap. */
  lemma NextStart(buf: seq<byte>, i: nat)
    requires IsStart(buf, i)
    ensures CodecScan(buf, i + 1) == CodecScan(buf, Scan(buf, i + 3))
  {
    hide CodecScan;
    var j := Scan(buf, i + 3);
    forall k: nat | i + 1 <= k < j
      ensures !IsStart(buf, k)
    {
    }
    CodecSkips(buf, i + 1, j);
  }

  /** The unit after a start code keeps its header byte unless that byte is zero. */
  lemma HeaderKept(buf: seq<byte>, i: nat)
    requires IsStart(buf, i) && i + 3 < |buf| && buf[i + 3] != 0
    ensures UnitEnd(buf, i + 3, Scan(buf, i + 3)) > i + 3
  {
    assert !IsStart(buf, i + 3);
  }

  lemma {:induction false} CodecFromUnits(buf: seq<byte>, i: nat)
    requires IsStart(buf, i) || i + 2 >= |buf|
    ensures match FirstOfType(Units(buf, i), 7)
            case None => CodecScan(buf, i) == NoSps
            case Some(sps) =>
              |sps| >= 4 ==> CodecScan(buf, i) == Profile(sps[1], sps[2], sps[3])
    decreases |buf| - i
  {
    if i + 2 < |buf| {
      var start := i + 3;
      var j := Scan(buf, start);
      var end := UnitEnd(buf, start, j);
      NextStart(buf, i);
      CodecFromUnits(buf, j);
      var rest := Units(buf, j);
      if end > start {
        var unit := buf[start..end];
        assert Units(buf, i) == [unit] + rest && ([unit] + rest)[1..] == rest;
        assert unit[0] == buf[start];
      } else {
        assert Units(buf, i) == [] + rest == rest;
        if start < |buf| && buf[start] != 0 { HeaderKept(buf, i); }
      }
    }
  }

  /** The two readers of Annex B agree on every buffer: without an SPS unit there is no codec
      string, and otherwise it spells bytes 1 to 3 of the first one, if it is that long. */
  lemma CodecMatchesFirstSps(buf: seq<byte>)
    ensures match FirstOfType(AllUnits(buf), 7)
            case None => CodecScan(buf, 0) == NoSps
            case Some(sps) => |sps| >= 4 ==> CodecScan(buf, 0) == Profile(sps[1], sps[2], sps[3])
  {
    hide Units, CodecScan, FirstOfType;
    CodecSkips(buf, 0, Scan(buf, 0));
    CodecFromUnits(buf, Scan(buf, 0));
  }

  // ----- In figures --------------------------------------------------------

  /** Start codes on the wire, and where they are found. */
  lemma StartCodes(nal: seq<byte>)
    requires nal != []
    ensures Join([Coded(true, nal)]) == [0, 0, 0, 1] + nal && Join([Coded(false, nal)]) == [0, 0, 1] + nal
    ensures AllUnits([0, 0, 1, 0x65, 0x88]) == [[0x65, 0x88]]
    ensures AllUnits([7, 0, 0, 0, 1, 0x65, 0x88]) == [[0x65, 0x88]]
  {
    assert [Coded(true, nal)][1..] == [] && [Coded(false, nal)][1..] == [];
    var a, b: seq<byte> := [0, 0, 1, 0x65, 0x88], [7, 0, 0, 0, 1, 0x65, 0x88];
    assert Scan(a, 0) == 0 && Scan(a, 3) == 3 && a[3..5] == [0x65, 0x88];
    assert Units(a, 3) == [] && Units(a, 0) == [a[3..5]] + [];
    assert !IsStart(b, 0) && !IsStart(b, 1) && IsStart(b, 2);
    assert Scan(b, 2) == 2 && Scan(b, 1) == 2 && Scan(b, 0) == 2;
    assert Scan(b, 5) == 5 && b[5..7] == [0x65, 0x88];
    assert Units(b, 5) == [] && Units(b, 2) == [b[5..7]] + [];
  }

  /** Samples keep every unit but parameter sets (7, 8) and delimiters (9). */
  lemma InSampleTypes(nal: seq<byte>)
    requires nal != []
    ensures SampleUnits([nal]) == if 7 <= nal[0] % 32 <= 9 then [] else [nal]
    ensures NalType([]) == 0
    ensures Lengthed([0x65, 0x88]) == [0, 0, 0, 2, 0x65, 0x88]
  {
  }

  function DigitValue(c: char): int {
    if '0' <= c <= '9' then c as int - '0' as int else if 'A' <= c <= 'F' then c as int - 'A' as int + 10 else -1
  }

  /** The byte that two digits from k on spell. */
  function ByteAt(name: string, k: nat): int
    requires k + 1 < |name|
  {
    16 * DigitValue(name[k]) + DigitValue(name[k + 1])
  }

  /** The codec string spells the three bytes in upper-case hexadecimal, two digits each. */
  lemma CodecSpelling(profile: byte, constraints: byte, level: byte)
    ensures var name := CodecString(Profile(profile, constraints, level)).value;
            && |name| == 11 && name[..5] == "avc1."
            && ByteAt(name, 5) == profile && ByteAt(name, 7) == constraints && ByteAt(name, 9) == level
            && forall k | 5 <= k < 11 :: 0 <= DigitValue(name[k]) < 16
  {
    HexValue(profile); HexValue(constraints); HexValue(level);
  }

  lemma HexValue(b: byte)
    ensures |Hex(b)| == 2 && 0 <= DigitValue(Hex(b)[0]) < 16 && 0 <= DigitValue(Hex(b)[1]) < 16
    ensures 16 * DigitValue(Hex(b)[0]) + DigitValue(Hex(b)[1]) == b
  {
    DigitBack(b / 16);
    DigitBack(b % 16);
  }

  lemma DigitBack(n: nat)
    requires n < 16
    ensures DigitValue(HexDigit(n)) == n
  {
  }
}
