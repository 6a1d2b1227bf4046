/** The length-prefixed message framing of host/src/protocol.cpp: the one-shot
    specification Parse, the incremental MessageParser, and encode_message. */
module Framing {
  import opened Bytes

  datatype Message = Message(kind: byte, body: seq<byte>)

  const MAX_MESSAGE: u32 := 64 * 1024 * 1024
  const COMPACT_AT: nat := 65536

  /** u32 length, type byte, body; the length word is computed in 32-bit arithmetic. */
  function EncodeMessage(m: Message): seq<byte> {
    PutU32((1 + |m.body|) % 0x1_0000_0000) + [m.kind] + m.body
  }

  function EncodeAll(ms: seq<Message>): seq<byte> {
    if ms == [] then [] else EncodeMessage(ms[0]) + EncodeAll(ms[1..])
  }

  /** What the first bytes of a buffer call for. */
  datatype Step = Wait | Skip | Deliver(m: Message, size: nat)

  function FirstStep(s: seq<byte>): (step: Step)
    ensures step.Skip? ==> |s| >= 4
    ensures step.Deliver? ==> 0 < step.size <= |s| && |step.m.body| < MAX_MESSAGE
  {
    if |s| < 4 then Wait
    else
      var len := GetU32(s);
      if len < 1 || len > MAX_MESSAGE then Skip
      else if |s| < 4 + len then Wait
      else Deliver(Message(s[4], s[5..4 + len]), 4 + len)
  }

  /** What a whole byte string means: its messages and the bytes not yet decided. */
  datatype Parsed = Parsed(msgs: seq<Message>, rest: seq<byte>)

  function Parse(s: seq<byte>): Parsed
    decreases |s|
  {
    match FirstStep(s)
    case Wait => Parsed([], s)
    case Skip => Parse(s[4..])
    case Deliver(m, size) => Before(m, Parse(s[size..]))
  }

  function Before(m: Message, p: Parsed): Parsed {
    Parsed([m] + p.msgs, p.rest)
  }

  function After(ms: seq<Message>, p: Parsed): Parsed {
    Parsed(ms + p.msgs, p.rest)
  }

  /** What one call of next does to a buffer: skip malformed words, then deliver or wait. */
  function Advance(s: seq<byte>): (Option<Message>, seq<byte>)
    decreases |s|
  {
    match FirstStep(s)
    case Wait => (None, s)
    case Skip => Advance(s[4..])
    case Deliver(m, size) => (Some(m), s[size..])
  }

  lemma {:induction false} AdvanceParse(s: seq<byte>)
    ensures |Advance(s).1| <= |s|
    ensures match Advance(s)
            case (None, now) => Parse(s) == Parsed([], now)
            case (Some(m), now) => Parse(s) == Before(m, Parse(now)) && |now| < |s|
    decreases |s|
  {
    if FirstStep(s).Skip? { AdvanceParse(s[4..]); }
  }

  lemma BeforeAfter(m: Message, ms: seq<Message>, p: Parsed)
    ensures Before(m, After(ms, p)) == After([m] + ms, p)
  {
    assert [m] + (ms + p.msgs) == ([m] + ms) + p.msgs;
  }

  lemma AfterSnoc(ms: seq<Message>, m: Message, p: Parsed)
    ensures After(ms, Before(m, p)) == After(ms + [m], p)
  {
    assert ms + ([m] + p.msgs) == (ms + [m]) + p.msgs;
  }

  /** The same step, read from the middle of a buffer. */
  lemma StepAt(buf: seq<byte>, pos: nat)
    requires pos + 4 <= |buf|
    ensures var len := GetU32(buf[pos..]); var s := buf[pos..];
            if len < 1 || len > MAX_MESSAGE then FirstStep(s) == Skip && s[4..] == buf[pos + 4..]
            else if |buf| - pos < 4 + len then FirstStep(s) == Wait
            else FirstStep(s) == Deliver(Message(buf[pos + 4], buf[pos + 5..pos + 4 + len]), 4 + len)
                 && s[4 + len..] == buf[pos + 4 + len..]
  {
    var len := GetU32(buf[pos..]);
    if len >= 1 && |buf| - pos >= 4 + len as int {
      assert buf[pos..][5..4 + len] == buf[pos + 5..pos + 4 + len];
    }
  }

  class MessageParser {
    var buf: seq<byte>
    var pos: nat  // consumed prefix of buf

    ghost predicate Valid()
      reads this
    {
      pos <= |buf|
    }

    ghost function Pending(): seq<byte>
      reads this
      requires Valid()
    {
      buf[pos..]
    }

    constructor ()
      ensures Valid() && Pending() == []
    {
      buf, pos := [], 0;
    }

    method Feed(data: seq<byte>)
      requires Valid()
      modifies this
      ensures Valid() && Pending() == old(Pending()) + data
    {
      buf := buf + data;
    }

    method Next() returns (out: Option<Message>)
      requires Valid()
      modifies this
      ensures Valid() && (out, Pending()) == Advance(old(Pending()))
      ensures out.Some? ==> pos <= 65536  // the consumed prefix is given back
    {
      while true
        invariant Valid() && Advance(Pending()) == Advance(old(Pending()))
        decreases |buf| - pos
      {
        if |buf| - pos < 4 { return None; }
        StepAt(buf, pos);
        var len := GetU32(buf[pos..]);
        if len < 1 || len > MAX_MESSAGE {
          pos := pos + 4;  // malformed length word: skip and resynchronise
          continue;
        }
        if |buf| - pos < 4 + len { return None; }
        var m := Message(buf[pos + 4], buf[pos + 5..pos + 4 + len]);
        pos := pos + 4 + len;
        if pos > COMPACT_AT {
          buf, pos := buf[pos..], 0;
        }
        return Some(m);
      }
    }
  }

  // ----- Chunk independence ------------------------------------------------

  lemma StepAppend(a: seq<byte>, b: seq<byte>)
    ensures !FirstStep(a).Wait? ==> FirstStep(a + b) == FirstStep(a)
  {
    if |a| >= 4 {
      assert GetU32(a + b) == GetU32(a);
      var len := GetU32(a);
      if len >= 1 && |a| >= 4 + len as int {
        assert (a + b)[5..4 + len] == a[5..4 + len];
      }
    }
  }

  /** Bytes that arrive late extend the parse; they never change what was decided. */
  lemma {:induction false} ParseAppend(a: seq<byte>, b: seq<byte>)
    ensures Parse(a + b) == After(Parse(a).msgs, Parse(Parse(a).rest + b))
    decreases |a|
  {
    StepAppend(a, b);
    match FirstStep(a) {
      case Wait =>
      case Skip =>
        ParseAppend(a[4..], b);
        assert (a + b)[4..] == a[4..] + b;
      case Deliver(m, size) =>
        ParseAppend(a[size..], b);
        assert (a + b)[size..] == a[size..] + b;
        BeforeAfter(m, Parse(a[size..]).msgs, Parse(Parse(a).rest + b));
    }
  }

  datatype Op = Feed(chunk: seq<byte>) | Next

  lemma NextKeepsMeaning(before: seq<byte>, out: Option<Message>, now: seq<byte>, later: seq<byte>)
    requires (out, now) == Advance(before)
    ensures Parse(before + later) ==
            match out
            case None => Parse(now + later)
            case Some(m) => Before(m, Parse(now + later))
  {
    AdvanceParse(before);
    ParseAppend(before, later);
    ParseAppend(now, later);
    if out.Some? {
      BeforeAfter(out.value, Parse(now).msgs, Parse(Parse(now).rest + later));
    } else {
      ParseRestIsDone(before);
    }
  }

  /** What is still to come after i operations of a schedule. */
  function Later(ops: seq<Op>, i: nat): seq<byte>
    requires i <= |ops|
    decreases |ops| - i
  {
    if i == |ops| then []
    else if ops[i].Feed? then ops[i].chunk + Later(ops, i + 1)
    else Later(ops, i + 1)
  }

  /** What a schedule delivers from a buffer, operation by operation, and what it leaves. */
  function Scheduled(s: seq<byte>, ops: seq<Op>): Parsed {
    if ops == [] then Parsed([], s)
    else
      var p := Scheduled(s, ops[..|ops| - 1]);
      match ops[|ops| - 1]
      case Feed(chunk) => Parsed(p.msgs, p.rest + chunk)
      case Next =>
        var (out, now) := Advance(p.rest);
        Parsed(if out.Some? then p.msgs + [out.value] else p.msgs, now)
  }

  /** Runs any schedule of feed and next on a real parser. Whatever the chunking and however
      often next is called, what has been delivered plus what is still buffered means exactly
      the one-shot parse of everything fed. */
  method RunSchedule(parser: MessageParser, ops: seq<Op>) returns (delivered: seq<Message>)
    requires parser.Valid()
    modifies parser
    ensures parser.Valid()
    ensures Parsed(delivered, parser.Pending()) == Scheduled(old(parser.Pending()), ops)
    ensures Parse(old(parser.Pending()) + Later(ops, 0)) == After(delivered, Parse(parser.Pending()))
  {
    hide Parse, FirstStep, Advance;
    delivered := [];
    var i := 0;
    while i < |ops|
      invariant i <= |ops| && parser.Valid()
      invariant Parsed(delivered, parser.Pending()) == Scheduled(old(parser.Pending()), ops[..i])
      invariant Parse(old(parser.Pending()) + Later(ops, 0)) ==
                After(delivered, Parse(parser.Pending() + Later(ops, i)))
    {
      ghost var before, later := parser.Pending(), Later(ops, i + 1);
      assert ops[..i + 1][..i] == ops[..i];
      if ops[i].Feed? {
        parser.Feed(ops[i].chunk);
        assert before + (ops[i].chunk + later) == parser.Pending() + later;
      } else {
        var out := parser.Next();
        NextKeepsMeaning(before, out, parser.Pending(), later);
        if out.Some? {
          AfterSnoc(delivered, out.value, Parse(parser.Pending() + later));
          delivered := delivered + [out.value];
        }
      }
      i := i + 1;
    }
    assert parser.Pending() + [] == parser.Pending() && ops[..|ops|] == ops;
  }

  /** The read loop of poll_control: calls next until it has nothing more. */
  method Drain(parser: MessageParser) returns (delivered: seq<Message>)
    requires parser.Valid()
    modifies parser
    ensures parser.Valid()
    ensures Parse(old(parser.Pending())) == Parsed(delivered, parser.Pending())
  {
    delivered := [];
    while true
      invariant parser.Valid()
      invariant Parse(old(parser.Pending())) == After(delivered, Parse(parser.Pending()))
      decreases |parser.Pending()|
    {
      AdvanceParse(parser.Pending());
      var out := parser.Next();
      if out.None? { return; }
      AfterSnoc(delivered, out.value, Parse(parser.Pending()));
      delivered := delivered + [out.value];
    }
  }

  /** The undecided tail of a parse holds no further message: next is idempotent at the end. */
  lemma {:induction false} ParseRestIsDone(s: seq<byte>)
    ensures Parse(Parse(s).rest) == Parsed([], Parse(s).rest)
    decreases |s|
  {
    match FirstStep(s) {
      case Wait =>
      case Skip => ParseRestIsDone(s[4..]);
      case Deliver(_, size) => ParseRestIsDone(s[size..]);
    }
  }

  lemma {:induction false} ParsedFits(s: seq<byte>)
    ensures forall m :: m in Parse(s).msgs ==> |m.body| < MAX_MESSAGE
    decreases |s|
  {
    match FirstStep(s) {
      case Wait =>
      case Skip => ParsedFits(s[4..]);
      case Deliver(_, size) => ParsedFits(s[size..]);
    }
  }

  lemma EncodedStep(m: Message, tail: seq<byte>)
    requires |m.body| < MAX_MESSAGE
    ensures FirstStep(EncodeMessage(m) + tail) == Deliver(m, |EncodeMessage(m)|)
  {
    hide PutU32, GetU32;
    var s, len := EncodeMessage(m) + tail, 1 + |m.body|;
    U32RoundTrip(len, [m.kind] + m.body + tail);
    assert s == PutU32(len) + ([m.kind] + m.body + tail);
    assert s[5..4 + len] == m.body;
  }

  /** encode_message followed by any bytes reads back as that message, exactly when the
      type byte and body fit the parser's 64 MiB cap. */
  lemma MessageRoundTrip(m: Message, tail: seq<byte>)
    ensures |m.body| < MAX_MESSAGE <==> Parse(EncodeMessage(m) + tail) == Before(m, Parse(tail))
  {
    if |m.body| < MAX_MESSAGE {
      EncodedStep(m, tail);
      assert (EncodeMessage(m) + tail)[|EncodeMessage(m)|..] == tail;
    } else {
      ParsedFits(EncodeMessage(m) + tail);
      assert Before(m, Parse(tail)).msgs[0] == m;
    }
  }

  lemma {:induction false} StreamRoundTrip(ms: seq<Message>, tail: seq<byte>)
    requires forall m :: m in ms ==> |m.body| < MAX_MESSAGE
    ensures Parse(EncodeAll(ms) + tail) == After(ms, Parse(tail))
  {
    hide EncodeMessage, FirstStep;
    if ms == [] {
      assert EncodeAll(ms) + tail == tail;
    } else {
      StreamRoundTrip(ms[1..], tail);
      MessageRoundTrip(ms[0], EncodeAll(ms[1..]) + tail);
      assert EncodeAll(ms) + tail == EncodeMessage(ms[0]) + (EncodeAll(ms[1..]) + tail);
      BeforeAfter(ms[0], ms[1..], Parse(tail));
      assert [ms[0]] + ms[1..] == ms;
    }
  }

  lemma {:induction false} EncodeAllAppend(a: seq<Message>, b: seq<Message>)
    ensures EncodeAll(a + b) == EncodeAll(a) + EncodeAll(b)
  {
    hide EncodeMessage;
    if a == [] {
      assert a + b == b;
    } else {
      EncodeAllAppend(a[1..], b);
      assert (a + b)[1..] == a[1..] + b;
      Assoc(EncodeMessage(a[0]), EncodeAll(a[1..]), EncodeAll(b));
    }
  }

  /** A message on the wire: the length of type and body in network order, the type, the body. */
  lemma OnWire(m: Message)
    requires |m.body| < 0x1_0000
    ensures var n := 1 + |m.body|;
            EncodeMessage(m) == [0, n / 65536, n / 256 % 256, n % 256, m.kind] + m.body
  {
  }

  /** A length of 0 or over 64 MiB is skipped, four bytes and no more, and nothing else is. */
  lemma BadWordSkipped(w: seq<byte>, rest: seq<byte>)
    requires |w| == 4
    ensures GetU32(w) == 0 || GetU32(w) > 67108864 ==> Parse(w + rest) == Parse(rest)
    ensures 0 < GetU32(w) <= 67108864 && |rest| < GetU32(w) ==> Parse(w + rest) == Parsed([], w + rest)
  {
    assert GetU32(w + rest) == GetU32(w);
    assert (w + rest)[4..] == rest;
  }

  /** A stray zero word in front of a message costs nothing. */
  lemma Resynchronises(m: Message)
    requires |m.body| < MAX_MESSAGE
    ensures Parse([0, 0, 0, 0] + EncodeMessage(m)) == Parsed([m], [])
  {
    BadWordSkipped([0, 0, 0, 0], EncodeMessage(m));
    StreamRoundTrip([m], []);
    assert EncodeAll([m]) == EncodeMessage(m) + [] && EncodeAll([m]) + [] == EncodeMessage(m);
    assert [m] + [] == [m];
  }
}
