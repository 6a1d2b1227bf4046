/** The Android client's own MessageParser (Protocol.kt): the same framing, read with a
    signed 32-bit length word and dropping message types outside its enum. */
module KotlinFraming {
  import opened Bytes
  import opened Framing

  /** MsgType.fromCode knows exactly the codes 1..17. */
  predicate KnownKind(k: byte) {
    1 <= k <= 17
  }

  function Known(ms: seq<Message>): seq<Message> {
    if ms == [] then []
    else (if KnownKind(ms[0].kind) then [ms[0]] else []) + Known(ms[1..])
  }

  /** Exactly the kinds 1 to 17 are known: HELLO to PEN, the keyframe request and the stream
      parameters; pairing messages are not. */
  lemma KnownKinds(k: byte, body: seq<byte>)
    ensures Known([Message(k, body)]) == (if k in {1, 2, 3, 4, 5, 6, 7, 8, 9, 10, 11, 12, 13, 14, 15, 16, 17}
                                          then [Message(k, body)] else [])
  {
  }

  /** What the host's parse of a byte string leaves on Android. */
  function KnownParse(s: seq<byte>): Parsed {
    Parsed(Known(Parse(s).msgs), Parse(s).rest)
  }

  /** What one call of next does here: as on the host, but unknown types are skipped too. */
  function AdvanceKnown(s: seq<byte>): (Option<Message>, seq<byte>)
    decreases |s|
  {
    match FirstStep(s)
    case Wait => (None, s)
    case Skip => AdvanceKnown(s[4..])
    case Deliver(m, size) => if KnownKind(m.kind) then (Some(m), s[size..]) else AdvanceKnown(s[size..])
  }

  lemma {:induction false} AdvanceKnownParse(s: seq<byte>)
    ensures match AdvanceKnown(s)
            case (None, now) => KnownParse(s) == Parsed([], now)
            case (Some(m), now) => KnownParse(s) == Before(m, KnownParse(now)) && |now| < |s|
    decreases |s|
  {
    match FirstStep(s) {
      case Wait =>
      case Skip => AdvanceKnownParse(s[4..]);
      case Deliver(m, size) =>
        DeliverParse(s, m, size);
        if !KnownKind(m.kind) { AdvanceKnownParse(s[size..]); }
    }
  }

  class KotlinParser {
    var buf: seq<byte>
    var pos: nat

    ghost predicate Valid()
      reads this
    {
      pos <= |buf|
    }

    ghost function Pending(): seq<byte>
      reads this
      requires Valid()
    {
      buf[pos..]
    }

    constructor ()
      ensures Valid() && Pending() == []
    {
      buf, pos := [], 0;
    }

    method Feed(data: seq<byte>)
      requires Valid()
      modifies this
      ensures Valid() && Pending() == old(Pending()) + data
    {
      buf := buf + data;
    }

    method Next() returns (out: Option<Message>)
      requires Valid()
      modifies this
      ensures Valid() && (out, Pending()) == AdvanceKnown(old(Pending()))
      ensures out.Some? ==> pos <= 65536  // the consumed prefix is given back
    {
      hide GetU32;
      while true
        invariant Valid() && AdvanceKnown(Pending()) == AdvanceKnown(old(Pending()))
        decreases |buf| - pos
      {
        if |buf| - pos < 4 { return None; }
        StepAt(buf, pos);
        var len := Signed32(GetU32(buf[pos..]));
        if len < 1 || len > MAX_MESSAGE {
          pos := pos + 4;
          continue;
        }
        if |buf| - pos < 4 + len { return None; }
        var m := Message(buf[pos + 4], buf[pos + 5..pos + 4 + len]);
        pos := pos + 4 + len;
        ghost var rest := Pending();
        if pos > COMPACT_AT {
          buf, pos := buf[pos..], 0;
        }
        assert Pending() == rest;
        if KnownKind(m.kind) {
          return Some(m);
        }
      }
    }
  }

  lemma DeliverParse(s: seq<byte>, m: Message, size: nat)
    requires FirstStep(s) == Deliver(m, size)
    ensures KnownParse(s) ==
            if KnownKind(m.kind) then Before(m, KnownParse(s[size..])) else KnownParse(s[size..])
  {
    assert Parse(s) == Before(m, Parse(s[size..]));
    assert Parse(s).msgs[1..] == Parse(s[size..]).msgs;
  }

  method DrainKotlin(parser: KotlinParser) returns (delivered: seq<Message>)
    requires parser.Valid()
    modifies parser
    ensures parser.Valid()
    ensures KnownParse(old(parser.Pending())) == Parsed(delivered, parser.Pending())
  {
    delivered := [];
    while true
      invariant parser.Valid()
      invariant KnownParse(old(parser.Pending())) == After(delivered, KnownParse(parser.Pending()))
      decreases |parser.Pending()|
    {
      AdvanceKnownParse(parser.Pending());
      var out := parser.Next();
      if out.None? { return; }
      AfterSnoc(delivered, out.value, KnownParse(parser.Pending()));
      delivered := delivered + [out.value];
    }
  }

  lemma {:induction false} KnownAppend(a: seq<Message>, b: seq<Message>)
    ensures Known(a + b) == Known(a) + Known(b)
  {
    if a == [] {
      assert a + b == b;
    } else {
      KnownAppend(a[1..], b);
      assert (a + b)[1..] == a[1..] + b;
      Assoc(if KnownKind(a[0].kind) then [a[0]] else [], Known(a[1..]), Known(b));
    }
  }

  /** Bytes that arrive late extend what Android makes of a stream, too. */
  lemma KnownParseAppend(a: seq<byte>, b: seq<byte>)
    ensures KnownParse(a + b) == After(KnownParse(a).msgs, KnownParse(Parse(a).rest + b))
  {
    ParseAppend(a, b);
    KnownAppend(Parse(a).msgs, Parse(Parse(a).rest + b).msgs);
  }

  lemma NextKeepsKnown(before: seq<byte>, out: Option<Message>, now: seq<byte>, later: seq<byte>)
    requires (out, now) == AdvanceKnown(before)
    ensures KnownParse(before + later) ==
            match out
            case None => KnownParse(now + later)
            case Some(m) => Before(m, KnownParse(now + later))
  {
    AdvanceKnownParse(before);
    KnownParseAppend(before, later);
    KnownParseAppend(now, later);
    if out.Some? {
      BeforeAfter(out.value, KnownParse(now).msgs, KnownParse(Parse(now).rest + later));
    } else {
      ParseRestIsDone(before);
    }
  }

  function KnownScheduled(s: seq<byte>, ops: seq<Op>): Parsed {
    if ops == [] then Parsed([], s)
    else
      var p := KnownScheduled(s, ops[..|ops| - 1]);
      match ops[|ops| - 1]
      case Feed(chunk) => Parsed(p.msgs, p.rest + chunk)
      case Next =>
        var (out, now) := AdvanceKnown(p.rest);
        Parsed(if out.Some? then p.msgs + [out.value] else p.msgs, now)
  }

  /** Any schedule of feed and next: what has been delivered plus what is still buffered means
      exactly the host's one-shot parse of everything fed, without the unknown types. */
  method RunKnownSchedule(parser: KotlinParser, ops: seq<Op>) returns (delivered: seq<Message>)
    requires parser.Valid()
    modifies parser
    ensures parser.Valid()
    ensures Parsed(delivered, parser.Pending()) == KnownScheduled(old(parser.Pending()), ops)
    ensures KnownParse(old(parser.Pending()) + Later(ops, 0)) == After(delivered, KnownParse(parser.Pending()))
  {
    hide KnownParse, FirstStep, AdvanceKnown;
    delivered := [];
    var i := 0;
    while i < |ops|
      invariant i <= |ops| && parser.Valid()
      invariant Parsed(delivered, parser.Pending()) == KnownScheduled(old(parser.Pending()), ops[..i])
      invariant KnownParse(old(parser.Pending()) + Later(ops, 0)) ==
                After(delivered, KnownParse(parser.Pending() + Later(ops, i)))
    {
      ghost var before, later := parser.Pending(), Later(ops, i + 1);
      assert ops[..i + 1][..i] == ops[..i];
      if ops[i].Feed? {
        parser.Feed(ops[i].chunk);
        assert before + (ops[i].chunk + later) == parser.Pending() + later;
      } else {
        var out := parser.Next();
        NextKeepsKnown(before, out, parser.Pending(), later);
        if out.Some? {
          AfterSnoc(delivered, out.value, KnownParse(parser.Pending() + later));
          delivered := delivered + [out.value];
        }
      }
      i := i + 1;
    }
    assert parser.Pending() + [] == parser.Pending() && ops[..|ops|] == ops;
  }

  /** Both parsers, fed the same chunks and drained after each one, deliver the same
      messages up to the types Android does not know, and hold the same undecided bytes. */
  method RunBoth(host: MessageParser, android: KotlinParser, chunks: seq<seq<byte>>)
    returns (onHost: seq<Message>, onAndroid: seq<Message>)
    requires host.Valid() && android.Valid() && host.Pending() == android.Pending() == []
    modifies host, android
    ensures host.Valid() && android.Valid()
    ensures onAndroid == Known(onHost)
    ensures host.Pending() == android.Pending()
    ensures Parse(Concat(chunks)) == Parsed(onHost, host.Pending())
  {
    onHost, onAndroid := [], [];
    for i := 0 to |chunks|
      invariant host.Valid() && android.Valid()
      invariant onAndroid == Known(onHost) && host.Pending() == android.Pending()
      invariant Parse(Concat(chunks[..i])) == Parsed(onHost, host.Pending())
    {
      ghost var before := host.Pending();
      host.Feed(chunks[i]);
      android.Feed(chunks[i]);
      ConcatSnoc(chunks[..i], chunks[i]);
      assert chunks[..i + 1] == chunks[..i] + [chunks[i]];
      ParseAppend(Concat(chunks[..i]), chunks[i]);
      var h := Drain(host);
      var a := DrainKotlin(android);
      KnownAppend(onHost, h);
      onHost, onAndroid := onHost + h, onAndroid + a;
    }
    assert chunks[..|chunks|] == chunks;
  }
}
