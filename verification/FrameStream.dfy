/**
 Whole byte streams: any way of cutting a stream into reads yields the same
 frames and the same first error, and what the server sends decodes uniquely.
 */
module FrameStream {
  import opened FrameMask
  import opened FrameCodec

  /** Still reading with these bytes buffered, or failed for good. */
  datatype Status = Reading(buffered: seq<byte>) | Failed(error: ParseError)

  datatype Stream = Stream(frames: seq<Frame>, status: Status)

  /** Parse frames off the front until the buffer is incomplete or an error is met. */
  function ParseAll(buf: seq<byte>, lim: Limits): Stream
    decreases |buf|
  {
    match Decode(buf, lim)
    case Fail(Incomplete) => Stream([], Reading(buf))
    case Fail(e) => Stream([], Failed(e))
    case Done(f, used) =>
      DecodeStable(buf, [], lim);
      var rest := ParseAll(buf[used..], lim);
      Stream([f] + rest.frames, rest.status)
  }

  /** One read from the socket. */
  function Feed(s: Stream, chunk: seq<byte>, lim: Limits): Stream
  {
    match s.status
    case Failed(_) => s
    case Reading(buffered) =>
      var more := ParseAll(buffered + chunk, lim);
      Stream(s.frames + more.frames, more.status)
  }

  function FeedAll(chunks: seq<seq<byte>>, lim: Limits): Stream
  {
    if chunks == [] then Stream([], Reading([]))
    else Feed(FeedAll(chunks[..|chunks| - 1], lim), chunks[|chunks| - 1], lim)
  }

  function Flatten(chunks: seq<seq<byte>>): seq<byte>
  {
    if chunks == [] then [] else Flatten(chunks[..|chunks| - 1]) + chunks[|chunks| - 1]
  }

  /** Frames already parsed do not matter to what a read adds. */
  lemma FeedAfter(f: Frame, s: Stream, chunk: seq<byte>, lim: Limits)
    ensures var more := Feed(s, chunk, lim);
            Feed(Stream([f] + s.frames, s.status), chunk, lim) == Stream([f] + more.frames, more.status)
  {
    if s.status.Reading? {
      var next := ParseAll(s.status.buffered + chunk, lim);
      assert [f] + s.frames + next.frames == [f] + (s.frames + next.frames);
    }
  }

  /** Parsing a prefix and then feeding the rest is parsing the whole. */
  lemma {:induction false} ParseSplit(a: seq<byte>, b: seq<byte>, lim: Limits)
    ensures ParseAll(a + b, lim) == Feed(ParseAll(a, lim), b, lim)
    decreases |a|
  {
    var d := Decode(a, lim);
    if d != Fail(Incomplete) {
      DecodeStable(a, b, lim);
      if d.Done? {
        assert (a + b)[d.used..] == a[d.used..] + b;
        ParseSplit(a[d.used..], b, lim);
        FeedAfter(d.frame, ParseAll(a[d.used..], lim), b, lim);
      }
    }
  }

  /** Chunking independence: every split of a byte stream gives the frames, the leftover and the first error of the whole. */
  lemma {:induction false} ChunkingIndependent(chunks: seq<seq<byte>>, lim: Limits)
    ensures FeedAll(chunks, lim) == ParseAll(Flatten(chunks), lim)
  {
    if chunks == [] {
      assert ParseAll([], lim) == Stream([], Reading([]));
    } else {
      ChunkingIndependent(chunks[..|chunks| - 1], lim);
      ParseSplit(Flatten(chunks[..|chunks| - 1]), chunks[|chunks| - 1], lim);
    }
  }

  /** However a stream arrives, what stays buffered never exceeds one frame of the budgeted size. */
  lemma {:induction false} LeftoverBounded(buf: seq<byte>, lim: Limits)
    requires ParseAll(buf, lim).status.Reading?
    ensures |ParseAll(buf, lim).status.buffered| < 14 + lim.maxPayload
    decreases |buf|
  {
    var d := Decode(buf, lim);
    if d == Fail(Incomplete) {
      IncompleteBounded(buf, lim);
    } else {
      DecodeStable(buf, [], lim);
      LeftoverBounded(buf[d.used..], lim);
    }
  }

  /** A client's frames, each with its key and length form, as sent. */
  datatype Sent = Sent(frame: Frame, key: Key, form: Form)

  predicate AllLegal(sent: seq<Sent>, lim: Limits)
  {
    forall i :: 0 <= i < |sent| ==> Legal(sent[i].frame, sent[i].form, lim)
  }

  function Wire(sent: seq<Sent>, lim: Limits): seq<byte>
    requires AllLegal(sent, lim)
  {
    if sent == [] then []
    else ClientFrame(sent[0].frame, sent[0].key, sent[0].form) + Wire(sent[1..], lim)
  }

  /** The frames as the client meant them. */
  function Frames(sent: seq<Sent>): seq<Frame>
  {
    if sent == [] then [] else [sent[0].frame] + Frames(sent[1..])
  }

  /** A legal frame at the front is parsed off, and the rest goes on as if alone. */
  lemma ParseFront(s: Sent, rest: seq<byte>, lim: Limits)
    requires Legal(s.frame, s.form, lim)
    ensures var more := ParseAll(rest, lim);
            ParseAll(ClientFrame(s.frame, s.key, s.form) + rest, lim) == Stream([s.frame] + more.frames, more.status)
  {
    var bytes := ClientFrame(s.frame, s.key, s.form);
    DecodeClient(s.frame, s.key, s.form, rest, lim);
    assert (bytes + rest)[|bytes|..] == rest;
  }

  /** Legal frames parse to exactly those frames, and whatever follows them parses as it would alone. */
  lemma {:induction false} ParseSentThen(sent: seq<Sent>, rest: seq<byte>, lim: Limits)
    requires AllLegal(sent, lim)
    ensures var more := ParseAll(rest, lim);
            ParseAll(Wire(sent, lim) + rest, lim) == Stream(Frames(sent) + more.frames, more.status)
  {
    if sent == [] {
      assert Wire(sent, lim) + rest == rest;
    } else {
      var s := sent[0];
      var bytes, others := ClientFrame(s.frame, s.key, s.form), Wire(sent[1..], lim);
      ParseFront(s, others + rest, lim);
      ParseSentThen(sent[1..], rest, lim);
      assert bytes + others + rest == bytes + (others + rest);
      assert [s.frame] + (Frames(sent[1..]) + ParseAll(rest, lim).frames) == Frames(sent) + ParseAll(rest, lim).frames;
    }
  }

  lemma ParseSent(sent: seq<Sent>, lim: Limits)
    requires AllLegal(sent, lim)
    ensures ParseAll(Wire(sent, lim), lim) == Stream(Frames(sent), Reading([]))
  {
    ParseSentThen(sent, [], lim);
    assert Wire(sent, lim) + [] == Wire(sent, lim);
    assert ParseAll([], lim) == Stream([], Reading([]));
  }

  /** The first error: the frames before it are delivered, and it is the parser's answer on the bytes after them. */
  lemma FirstError(sent: seq<Sent>, bad: seq<byte>, chunks: seq<seq<byte>>, lim: Limits)
    requires AllLegal(sent, lim) && Decode(bad, lim).Fail? && Decode(bad, lim).error != Incomplete
    requires Flatten(chunks) == Wire(sent, lim) + bad
    ensures FeedAll(chunks, lim) == Stream(Frames(sent), Failed(Decode(bad, lim).error))
  {
    ChunkingIndependent(chunks, lim);
    ParseSentThen(sent, bad, lim);
    assert ParseAll(bad, lim) == Stream([], Failed(Decode(bad, lim).error));
  }

  /** Any legal frames a client sends, however the network cuts them up, arrive as those frames and nothing else. */
  lemma SentArrives(sent: seq<Sent>, chunks: seq<seq<byte>>, lim: Limits)
    requires AllLegal(sent, lim) && Flatten(chunks) == Wire(sent, lim)
    ensures FeedAll(chunks, lim) == Stream(Frames(sent), Reading([]))
  {
    ChunkingIndependent(chunks, lim);
    ParseSent(sent, lim);
  }

  // ---------- what the server sends ----------

  function MinimalForm(n: nat): (form: Form)
    ensures n < LEN64 ==> Fits(form, n)
    ensures forall g: Form :: Fits(g, n) ==> FormBytes(form) <= FormBytes(g)
  {
    if n <= 125 then Short else if n < 65536 then Medium else Long
  }

  /** An unmasked server frame with a given length form. */
  function ServerFrameAs(f: Frame, form: Form): seq<byte>
    requires Fits(form, |f.payload|)
  {
    [FirstByte(f), Len7(form, |f.payload|)] + Extended(form, |f.payload|) + f.payload
  }

  function ServerFrame(f: Frame): (bytes: seq<byte>)
    requires |f.payload| < LEN64
    ensures forall form :: Fits(form, |f.payload|) ==> |bytes| <= |ServerFrameAs(f, form)|
  {
    ServerFrameAs(f, MinimalForm(|f.payload|))
  }

  lemma ServerLayout(f: Frame, rest: seq<byte>)
    requires |f.payload| < LEN64
    ensures var n, w := |f.payload|, FormBytes(MinimalForm(|f.payload|));
            var buf := ServerFrame(f) + rest;
            && |buf| == 2 + w + n + |rest|
            && buf[0] == FirstByte(f) && buf[1] == Len7(MinimalForm(n), n)
            && FormOf(buf[1] % 128) == MinimalForm(n)
            && Declared(buf) == n
            && buf[2 + w..2 + w + n] == f.payload && buf[2 + w + n..] == rest
  {
    var n, form := |f.payload|, MinimalForm(|f.payload|);
    var buf, w := ServerFrame(f) + rest, FormBytes(MinimalForm(|f.payload|));
    assert buf[2..2 + w] == Extended(form, n);
    if form != Short {
      WidthFits(form, n);
      BeInverse(n, w);
    }
  }

  /** Read byte by byte: no reserved bit, no mask bit, the payload's length and then the payload. */
  lemma ServerBytes(f: Frame)
    requires |f.payload| < LEN64
    ensures var b := ServerFrame(f);
            && |b| >= 2 && !Reserved(b[0]) && (b[0] >= 128 <==> f.fin) && b[0] % 16 == OpValue(f.opcode)
            && b[1] < 128 && LengthThere(b) && Written(b) == |f.payload|
            && b[HeaderLength(b) - 4..] == f.payload
  {
    var b := ServerFrame(f);
    assert b + [] == b;
    ServerLayout(f, []);
    FirstByteRead(f);
    ReservedRead(b[0]);
    WrittenRead(b);
  }

  /** A server frame is determined by the bytes it starts. */
  lemma ServerUnique(f: Frame, x: seq<byte>, g: Frame, y: seq<byte>)
    requires |f.payload| < LEN64 && |g.payload| < LEN64
    requires ServerFrame(f) + x == ServerFrame(g) + y
    ensures f == g && x == y
  {
    ServerLayout(f, x);
    ServerLayout(g, y);
    FirstByteRead(f);
    FirstByteRead(g);
  }

  ghost predicate AllShort(fs: seq<Frame>)
  {
    forall i :: 0 <= i < |fs| ==> |fs[i].payload| < LEN64
  }

  ghost function ServerWire(fs: seq<Frame>): seq<byte>
    requires AllShort(fs)
  {
    if fs == [] then [] else ServerFrame(fs[0]) + ServerWire(fs[1..])
  }

  /** Concatenated server frames decode uniquely: equal bytes, equal frames. */
  lemma {:induction false} ServerWireInjective(fs: seq<Frame>, gs: seq<Frame>)
    requires AllShort(fs) && AllShort(gs) && ServerWire(fs) == ServerWire(gs)
    ensures fs == gs
  {
    if fs != [] && gs != [] {
      ServerUnique(fs[0], ServerWire(fs[1..]), gs[0], ServerWire(gs[1..]));
      ServerWireInjective(fs[1..], gs[1..]);
      assert fs == [fs[0]] + fs[1..] && gs == [gs[0]] + gs[1..];
    }
  }

  const HELLO: seq<byte> := [0x48, 0x65, 0x6c, 0x6c, 0x6f]

  /** The unmasked "Hello" of section 5.7 of RFC 6455. */
  lemma HelloSent()
    ensures ServerFrame(Frame(true, Text, HELLO)) == [0x81, 0x05, 0x48, 0x65, 0x6c, 0x6c, 0x6f]
  {
    assert ServerFrame(Frame(true, Text, HELLO)) == [0x81, 0x05] + [] + HELLO;
  }
}
