/**
 The frame format (section 5.2 of RFC 6455) as pure functions: the decision the
 parser takes on a buffer, and the byte strings it accepts.
 */
module FrameCodec {
  import opened FrameMask

  datatype OpCode = Continuation | Text | Binary | Close | Ping | Pong

  datatype Frame = Frame(fin: bool, opcode: OpCode, payload: seq<byte>)

  datatype Reason = ReservedBits | ReservedOpcode | LengthHighBit | FragmentedControl | LongControl | Unmasked

  datatype ParseError = Incomplete | Protocol(reason: Reason) | TooLarge

  /** A frame and the number of bytes it took, or why there is none. */
  datatype Outcome = Done(frame: Frame, used: nat) | Fail(error: ParseError)

  /** The caller's payload budget and the target's `usize::MAX`. */
  datatype Limits = Limits(maxPayload: nat, usizeMax: nat)

  function OpValue(op: OpCode): byte
  {
    match op
    case Continuation => 0
    case Text => 1
    case Binary => 2
    case Close => 8
    case Ping => 9
    case Pong => 10
  }

  function OpKnown(v: nat): bool
  {
    v == 0 || v == 1 || v == 2 || v == 8 || v == 9 || v == 10
  }

  function OpFrom(v: nat): (op: OpCode)
    requires OpKnown(v)
    ensures OpValue(op) == v
  {
    if v == 0 then Continuation else if v == 1 then Text else if v == 2 then Binary
    else if v == 8 then Close else if v == 9 then Ping else Pong
  }

  predicate IsControl(op: OpCode)
  {
    op.Close? || op.Ping? || op.Pong?
  }

  // ---------- big-endian lengths ----------

  function FromBe(bs: seq<byte>): nat
  {
    if bs == [] then 0 else 256 * FromBe(bs[..|bs| - 1]) + bs[|bs| - 1]
  }

  function ToBe(n: nat, width: nat): (bs: seq<byte>)
    ensures |bs| == width
  {
    if width == 0 then [] else ToBe(n / 256, width - 1) + [n % 256]
  }

  ghost function Pow256(width: nat): nat
  {
    if width == 0 then 1 else 256 * Pow256(width - 1)
  }

  lemma {:induction false} BeInverse(n: nat, width: nat)
    requires n < Pow256(width)
    ensures FromBe(ToBe(n, width)) == n
  {
    if width > 0 {
      BeInverse(n / 256, width - 1);
      assert ToBe(n, width)[..width - 1] == ToBe(n / 256, width - 1);
    }
  }

  lemma {:induction false} BeUnique(bs: seq<byte>)
    ensures ToBe(FromBe(bs), |bs|) == bs && FromBe(bs) < Pow256(|bs|)
  {
    if bs != [] {
      BeUnique(bs[..|bs| - 1]);
      assert bs == bs[..|bs| - 1] + [bs[|bs| - 1]];
    }
  }

  // ---------- length forms ----------

  /** The three ways a length can be written. */
  datatype Form = Short | Medium | Long

  const LEN63: nat := 0x8000_0000_0000_0000
  const LEN64: nat := 0x1_0000_0000_0000_0000

  function FormBytes(form: Form): nat
  {
    match form case Short => 0 case Medium => 2 case Long => 8
  }

  predicate Fits(form: Form, n: nat)
  {
    match form case Short => n <= 125 case Medium => n < 65536 case Long => n < LEN64
  }

  function Len7(form: Form, n: nat): nat
    requires Fits(form, n)
  {
    match form case Short => n case Medium => 126 case Long => 127
  }

  function Extended(form: Form, n: nat): seq<byte>
  {
    ToBe(n, FormBytes(form))
  }

  lemma Widths()
    ensures Pow256(2) == 65536 && Pow256(8) == LEN64
  {
    assert Pow256(8) == 256 * Pow256(7);
    assert Pow256(7) == 256 * Pow256(6);
    assert Pow256(6) == 256 * Pow256(5);
    assert Pow256(5) == 256 * Pow256(4);
    assert Pow256(4) == 256 * Pow256(3);
    assert Pow256(3) == 256 * Pow256(2);
  }

  lemma WidthFits(form: Form, n: nat)
    requires form != Short
    ensures Fits(form, n) <==> n < Pow256(FormBytes(form))
  {
    Widths();
  }

  // ---------- the parser's decision ----------

  function FormOf(len7: nat): Form
  {
    if len7 == 126 then Medium else if len7 == 127 then Long else Short
  }

  /** The declared payload length, once its field is buffered. */
  function Declared(buf: seq<byte>): nat
    requires |buf| >= 2 && |buf| >= 2 + FormBytes(FormOf(buf[1] % 128))
  {
    var form := FormOf(buf[1] % 128);
    if form.Short? then buf[1] % 128 else FromBe(buf[2..2 + FormBytes(form)])
  }

  /** The checks that need the declared length, in the parser's order. */
  function Judge(buf: seq<byte>, lim: Limits): Outcome
    requires |buf| >= 2 && |buf| >= 2 + FormBytes(FormOf(buf[1] % 128)) && OpKnown(buf[0] % 16)
  {
    var form, n := FormOf(buf[1] % 128), Declared(buf);
    var fin, op := buf[0] >= 128, OpFrom(buf[0] % 16);
    var head := 2 + FormBytes(form) + 4;
    if form.Long? && n >= LEN63 then Fail(Protocol(LengthHighBit))
    else if form.Long? && n > lim.usizeMax then Fail(TooLarge)
    else if IsControl(op) && !fin then Fail(Protocol(FragmentedControl))
    else if IsControl(op) && n > 125 then Fail(Protocol(LongControl))
    else if buf[1] < 128 then Fail(Protocol(Unmasked))
    else if n > lim.maxPayload then Fail(TooLarge)
    else if head + n > lim.usizeMax then Fail(TooLarge)
    else if |buf| < head + n then Fail(Incomplete)
    else Done(Frame(fin, op, Masked(buf[head..head + n], buf[head - 4..head])), head + n)
  }

  /** What one parse attempt answers. */
  function Decode(buf: seq<byte>, lim: Limits): Outcome
  {
    if |buf| < 2 then Fail(Incomplete)
    else if (buf[0] / 16) % 8 != 0 then Fail(Protocol(ReservedBits))
    else if !OpKnown(buf[0] % 16) then Fail(Protocol(ReservedOpcode))
    else if |buf| < 2 + FormBytes(FormOf(buf[1] % 128)) then Fail(Incomplete)
    else Judge(buf, lim)
  }

  /** A frame or an error, once decided, is the same on every extension of the buffer. */
  lemma DecodeStable(buf: seq<byte>, more: seq<byte>, lim: Limits)
    requires Decode(buf, lim) != Fail(Incomplete)
    ensures Decode(buf + more, lim) == Decode(buf, lim)
    ensures Decode(buf, lim).Done? ==> 6 <= Decode(buf, lim).used <= |buf|
  {
    var all := buf + more;
    var w := FormBytes(FormOf(buf[1] % 128));
    if |buf| >= 2 + w {
      assert all[2..2 + w] == buf[2..2 + w];
      var n := Declared(buf);
      if |buf| >= 2 + w + 4 + n {
        assert all[2 + w + 4..2 + w + 4 + n] == buf[2 + w + 4..2 + w + 4 + n];
        assert all[2 + w..2 + w + 4] == buf[2 + w..2 + w + 4];
      }
    }
  }

  /** Waiting for more is bounded: a longest header plus the payload budget is always decided. */
  lemma IncompleteBounded(buf: seq<byte>, lim: Limits)
    requires Decode(buf, lim) == Fail(Incomplete)
    ensures |buf| < 14 + lim.maxPayload
  {
    if |buf| >= 14 {
      assert Judge(buf, lim) == Fail(Incomplete);
      assert Declared(buf) <= lim.maxPayload;
    }
  }

  // ---------- what is accepted, exactly ----------

  function FirstByte(f: Frame): byte
  {
    (if f.fin then 128 else 0) + OpValue(f.opcode)
  }

  /** The bytes a client sends for a frame, with its key and its choice of length form. */
  function ClientFrame(f: Frame, key: Key, form: Form): seq<byte>
    requires Fits(form, |f.payload|)
  {
    [FirstByte(f), 128 + Len7(form, |f.payload|)] + Extended(form, |f.payload|) + key + Masked(f.payload, key)
  }

  /** Frames the parser must accept: control frames whole and short, within the budget, addressable. */
  predicate Legal(f: Frame, form: Form, lim: Limits)
  {
    && Fits(form, |f.payload|)
    && (IsControl(f.opcode) ==> f.fin && |f.payload| <= 125)
    && |f.payload| < LEN63
    && |f.payload| <= lim.maxPayload
    && 2 + FormBytes(form) + 4 + |f.payload| <= lim.usizeMax
  }

  lemma FirstByteRead(f: Frame)
    ensures var b := FirstByte(f);
            && (b / 16) % 8 == 0 && b % 16 == OpValue(f.opcode) && (b >= 128 <==> f.fin)
            && OpKnown(b % 16) && OpFrom(b % 16) == f.opcode
  {
  }

  /** The layout of a client frame followed by more bytes. */
  lemma ClientLayout(f: Frame, key: Key, form: Form, rest: seq<byte>)
    requires Fits(form, |f.payload|)
    ensures var buf, n, w := ClientFrame(f, key, form) + rest, |f.payload|, FormBytes(form);
            && |buf| == 2 + w + 4 + n + |rest|
            && buf[0] == FirstByte(f) && buf[1] == 128 + Len7(form, n)
            && buf[2..2 + w] == Extended(form, n)
            && buf[2 + w..2 + w + 4] == key
            && buf[2 + w + 4..2 + w + 4 + n] == Masked(f.payload, key)
            && buf[2 + w + 4 + n..] == rest
  {
  }

  lemma ClientHeader(f: Frame, key: Key, form: Form, rest: seq<byte>)
    requires Fits(form, |f.payload|)
    ensures var buf := ClientFrame(f, key, form) + rest;
            && |buf| >= 2 + FormBytes(form) && FormOf(buf[1] % 128) == form && buf[1] >= 128
            && Declared(buf) == |f.payload|
  {
    ClientLayout(f, key, form, rest);
    HeaderReads(ClientFrame(f, key, form) + rest, form, |f.payload|);
  }

  /** A length field written in a form that fits is read back with that form. */
  lemma HeaderReads(buf: seq<byte>, form: Form, n: nat)
    requires Fits(form, n) && |buf| >= 2 + FormBytes(form)
    requires buf[1] == 128 + Len7(form, n) && buf[2..2 + FormBytes(form)] == Extended(form, n)
    ensures FormOf(buf[1] % 128) == form && Declared(buf) == n
  {
    assert buf[1] % 128 == Len7(form, n);
    if form != Short {
      WidthFits(form, n);
      BeInverse(n, FormBytes(form));
    }
  }

  /** Parsing any legal client frame returns it and leaves the trailing bytes. */
  lemma DecodeClient(f: Frame, key: Key, form: Form, rest: seq<byte>, lim: Limits)
    requires Legal(f, form, lim)
    ensures Decode(ClientFrame(f, key, form) + rest, lim) == Done(f, |ClientFrame(f, key, form)|)
  {
    var buf, n, head := ClientFrame(f, key, form) + rest, |f.payload|, 2 + FormBytes(form) + 4;
    ClientLayout(f, key, form, rest);
    ClientHeader(f, key, form, rest);
    FirstByteRead(f);
    MaskTwice(f.payload, key);
    JudgeAccepts(buf, lim, f, form);
  }

  /** A buffered frame whose header and unmasked payload are those of a legal frame is accepted as that frame. */
  lemma JudgeAccepts(buf: seq<byte>, lim: Limits, f: Frame, form: Form)
    requires |buf| >= 2 && FormOf(buf[1] % 128) == form && |buf| >= 2 + FormBytes(form) + 4 + |f.payload|
    requires Legal(f, form, lim) && buf[1] >= 128 && Declared(buf) == |f.payload|
    requires OpKnown(buf[0] % 16) && OpFrom(buf[0] % 16) == f.opcode && (buf[0] >= 128 <==> f.fin)
    requires var head := 2 + FormBytes(form) + 4;
             Masked(buf[head..head + |f.payload|], buf[head - 4..head]) == f.payload
    ensures Judge(buf, lim) == Done(f, 2 + FormBytes(form) + 4 + |f.payload|)
  {
  }

  /** What acceptance tells about the buffer. */
  lemma JudgeAccepted(buf: seq<byte>, lim: Limits)
    requires |buf| >= 2 && |buf| >= 2 + FormBytes(FormOf(buf[1] % 128)) && OpKnown(buf[0] % 16)
    requires Judge(buf, lim).Done?
    ensures var f, form, n := Judge(buf, lim).frame, FormOf(buf[1] % 128), Declared(buf);
            var head := 2 + FormBytes(form) + 4;
            && Judge(buf, lim).used == head + n <= |buf|
            && f.fin == (buf[0] >= 128) && f.opcode == OpFrom(buf[0] % 16)
            && f.payload == Masked(buf[head..head + n], buf[head - 4..head])
            && (IsControl(f.opcode) ==> f.fin && n <= 125)
            && (form.Long? ==> n < LEN63) && n <= lim.maxPayload && head + n <= lim.usizeMax && buf[1] >= 128
  {
  }

  /** Every frame the parser returns is such a byte string, with the key and length form found in it. */
  lemma DecodeSound(buf: seq<byte>, lim: Limits) returns (key: Key, form: Form)
    requires Decode(buf, lim).Done?
    ensures var f := Decode(buf, lim).frame;
            && Legal(f, form, lim)
            && Decode(buf, lim).used == |ClientFrame(f, key, form)| <= |buf|
            && buf[..Decode(buf, lim).used] == ClientFrame(f, key, form)
  {
    JudgeAccepted(buf, lim);
    form := FormOf(buf[1] % 128);
    key := buf[2 + FormBytes(form)..2 + FormBytes(form) + 4];
    AcceptedParts(buf, Judge(buf, lim).frame, form, key, Declared(buf));
  }

  lemma AcceptedParts(buf: seq<byte>, f: Frame, form: Form, key: Key, n: nat)
    requires |buf| >= 2 && (buf[0] / 16) % 8 == 0 && OpKnown(buf[0] % 16) && buf[1] >= 128
    requires form == FormOf(buf[1] % 128) && |buf| >= 2 + FormBytes(form) + 4 + n && n == Declared(buf)
    requires key == buf[2 + FormBytes(form)..2 + FormBytes(form) + 4]
    requires f.opcode == OpFrom(buf[0] % 16) && f.fin == (buf[0] >= 128)
    requires f.payload == Masked(buf[2 + FormBytes(form) + 4..2 + FormBytes(form) + 4 + n], key)
    ensures Fits(form, n) && (form != Long ==> n < 65536)
    ensures buf[..2 + FormBytes(form) + 4 + n] == ClientFrame(f, key, form)
  {
    var head := 2 + FormBytes(form) + 4;
    MaskTwice(buf[head..head + n], key);
    FieldRead(buf, n);
    FirstByteWrite(buf[0], f);
    Rebuild(buf, f, key, form);
  }

  lemma FirstByteWrite(b: byte, f: Frame)
    requires (b / 16) % 8 == 0 && OpKnown(b % 16) && f.opcode == OpFrom(b % 16) && f.fin == (b >= 128)
    ensures FirstByte(f) == b
  {
  }

  /** The length field is the one its value and form determine. */
  lemma FieldRead(buf: seq<byte>, n: nat)
    requires |buf| >= 2 && |buf| >= 2 + FormBytes(FormOf(buf[1] % 128)) && n == Declared(buf)
    ensures var form := FormOf(buf[1] % 128);
            && Fits(form, n) && Len7(form, n) == buf[1] % 128
            && Extended(form, n) == buf[2..2 + FormBytes(form)]
            && (form != Long ==> n < 65536)
  {
    var form := FormOf(buf[1] % 128);
    if form != Short {
      BeUnique(buf[2..2 + FormBytes(form)]);
      WidthFits(form, n);
    }
  }

  /** A buffer whose fields are those of a frame starts with that frame's bytes. */
  lemma Rebuild(buf: seq<byte>, f: Frame, key: Key, form: Form)
    requires Fits(form, |f.payload|)
    requires var w, n := FormBytes(form), |f.payload|;
             && |buf| >= 2 + w + 4 + n
             && buf[0] == FirstByte(f) && buf[1] == 128 + Len7(form, n)
             && buf[2..2 + w] == Extended(form, n)
             && buf[2 + w..2 + w + 4] == key
             && buf[2 + w + 4..2 + w + 4 + n] == Masked(f.payload, key)
    ensures buf[..2 + FormBytes(form) + 4 + |f.payload|] == ClientFrame(f, key, form)
  {
    var w, n := FormBytes(form), |f.payload|;
    assert buf[..2 + w + 4 + n] ==
           [buf[0], buf[1]] + buf[2..2 + w] + buf[2 + w..2 + w + 4] + buf[2 + w + 4..2 + w + 4 + n];
  }

  lemma DecodeAt(buf: seq<byte>, lim: Limits, f: Frame, used: nat, key: Key, form: Form)
    requires used <= |buf| && Legal(f, form, lim) && buf[..used] == ClientFrame(f, key, form)
    ensures Decode(buf, lim) == Done(f, used)
  {
    DecodeClient(f, key, form, buf[used..], lim);
    assert buf == buf[..used] + buf[used..];
  }

  /** The parser accepts exactly the legal masked frames. */
  lemma DecodeExact(buf: seq<byte>, lim: Limits, f: Frame, used: nat)
    ensures Decode(buf, lim) == Done(f, used) <==>
            used <= |buf| && exists key: Key, form: Form ::
              Legal(f, form, lim) && buf[..used] == ClientFrame(f, key, form)
  {
    if Decode(buf, lim) == Done(f, used) {
      var key, form := DecodeSound(buf, lim);
    }
    forall key: Key, form: Form | used <= |buf| && Legal(f, form, lim) && buf[..used] == ClientFrame(f, key, form)
      ensures Decode(buf, lim) == Done(f, used)
    {
      DecodeAt(buf, lim, f, used, key, form);
    }
  }

  // ---------- every answer, read off the bytes ----------

  /** One of the three reserved bits is set. */
  predicate Reserved(b: byte)
  {
    Bit(b, 4) || Bit(b, 5) || Bit(b, 6)
  }

  lemma ReservedRead(b: byte)
    ensures Reserved(b) <==> (b / 16) % 8 != 0
  {
    HighNibble(b, 0);
    HighNibble(b, 1);
    HighNibble(b, 2);
    LowBits(b / 16);
  }

  lemma HighNibble(n: nat, i: nat)
    ensures Bit(n, i + 4) <==> Bit(n / 16, i)
  {
    assert Bit(n, i + 4) <==> Bit(n / 2, i + 3);
    assert Bit(n / 2, i + 3) <==> Bit(n / 2 / 2, i + 2);
    assert Bit(n / 2 / 2, i + 2) <==> Bit(n / 2 / 2 / 2, i + 1);
    assert n / 2 / 2 / 2 / 2 == n / 16;
  }

  lemma LowBits(h: nat)
    ensures Bit(h, 0) || Bit(h, 1) || Bit(h, 2) <==> h % 8 != 0
  {
    assert Bit(h, 1) <==> Bit(h / 2, 0);
    assert Bit(h, 2) <==> Bit(h / 2, 1);
    assert Bit(h / 2, 1) <==> Bit(h / 2 / 2, 0);
    var q := h / 2;
    var p := q / 2;
    EighthDigits(h, p / 2, h % 2, q % 2, p % 2);
  }

  lemma EighthDigits(h: nat, s: nat, a: nat, b: nat, c: nat)
    requires a < 2 && b < 2 && c < 2 && h == 8 * s + 4 * c + 2 * b + a
    ensures h % 8 == 4 * c + 2 * b + a
  {
  }

  /** The low nibble of the first byte names a control frame: 8 close, 9 ping, 10 pong. */
  predicate Control(buf: seq<byte>)
    requires |buf| >= 2
  {
    var op := buf[0] % 16;
    op == 8 || op == 9 || op == 10
  }

  /** A first byte some frame has: 0 continuation, 1 text, 2 binary, or a control frame. */
  predicate Starts(buf: seq<byte>)
  {
    |buf| >= 2 && !Reserved(buf[0]) && (buf[0] % 16 <= 2 || Control(buf))
  }

  /** Bytes before the payload. */
  function HeaderLength(buf: seq<byte>): nat
    requires |buf| >= 2
  {
    if buf[1] % 128 == 126 then 8 else if buf[1] % 128 == 127 then 14 else 6
  }

  predicate LengthThere(buf: seq<byte>)
  {
    |buf| >= 2 && |buf| >= HeaderLength(buf) - 4
  }

  /** One more byte of a number written most significant byte first. */
  function Then(high: nat, low: byte): nat
  {
    256 * high + low
  }

  /** The length as written: seven bits, or the next two or eight bytes, most significant first. */
  function Written(buf: seq<byte>): nat
    requires LengthThere(buf)
  {
    if buf[1] % 128 == 126 then Then(buf[2], buf[3])
    else if buf[1] % 128 == 127 then
      Then(Then(Then(Then(Then(Then(Then(buf[2], buf[3]), buf[4]), buf[5]), buf[6]), buf[7]), buf[8]), buf[9])
    else buf[1] % 128
  }

  lemma FromBe2(bs: seq<byte>)
    requires |bs| == 2
    ensures FromBe(bs) == Then(bs[0], bs[1])
  {
    assert bs[..1] == [bs[0]];
    assert [bs[0]][..0] == [];
    assert FromBe([bs[0]]) == bs[0];
  }

  lemma FromBeNext(bs: seq<byte>, n: nat)
    requires n < |bs|
    ensures FromBe(bs[..n + 1]) == Then(FromBe(bs[..n]), bs[n])
  {
    assert bs[..n + 1][..n] == bs[..n];
  }

  lemma FromBe8(bs: seq<byte>)
    requires |bs| == 8
    ensures FromBe(bs) ==
            Then(Then(Then(Then(Then(Then(Then(bs[0], bs[1]), bs[2]), bs[3]), bs[4]), bs[5]), bs[6]), bs[7])
  {
    FromBe2(bs[..2]);
    FromBeNext(bs, 2);
    FromBeNext(bs, 3);
    FromBeNext(bs, 4);
    FromBeNext(bs, 5);
    FromBeNext(bs, 6);
    FromBeNext(bs, 7);
    assert bs[..8] == bs;
  }

  lemma WrittenRead(buf: seq<byte>)
    requires LengthThere(buf)
    ensures |buf| >= 2 + FormBytes(FormOf(buf[1] % 128)) && HeaderLength(buf) == 2 + FormBytes(FormOf(buf[1] % 128)) + 4
    ensures Declared(buf) == Written(buf)
  {
    if buf[1] % 128 == 126 {
      FromBe2(buf[2..4]);
    } else if buf[1] % 128 == 127 {
      FromBe8(buf[2..10]);
    }
  }

  /** The top bit of an eight-byte length is the top bit of its first byte. */
  lemma HighBit(buf: seq<byte>)
    requires LengthThere(buf) && buf[1] % 128 == 127
    ensures Written(buf) >= LEN63 <==> buf[2] >= 128
  {
  }

  /** An eight-byte length with its top bit set. */
  predicate HighLength(buf: seq<byte>)
  {
    LengthThere(buf) && buf[1] % 128 == 127 && buf[2] >= 128
  }

  /** A frame that starts well and whose length is there and can be held in a `usize`. */
  predicate Sized(buf: seq<byte>, lim: Limits)
  {
    Starts(buf) && LengthThere(buf) && !HighLength(buf) && (buf[1] % 128 == 127 ==> Written(buf) <= lim.usizeMax)
  }

  /** In addition, a control frame is whole and at most 125 bytes. */
  predicate Permitted(buf: seq<byte>, lim: Limits)
  {
    Sized(buf, lim) && (Control(buf) ==> buf[0] >= 128 && Written(buf) <= 125)
  }

  predicate InBudget(buf: seq<byte>, lim: Limits)
    requires LengthThere(buf)
  {
    Written(buf) <= lim.maxPayload && HeaderLength(buf) + Written(buf) <= lim.usizeMax
  }

  /** The parser's branches in terms of those readings of the bytes. */
  lemma BranchesRead(buf: seq<byte>)
    requires |buf| >= 2
    ensures Reserved(buf[0]) <==> (buf[0] / 16) % 8 != 0
    ensures OpKnown(buf[0] % 16) <==> buf[0] % 16 <= 2 || Control(buf)
    ensures OpKnown(buf[0] % 16) ==> (IsControl(OpFrom(buf[0] % 16)) <==> Control(buf))
    ensures LengthThere(buf) <==> |buf| >= 2 + FormBytes(FormOf(buf[1] % 128))
    ensures LengthThere(buf) ==> Declared(buf) == Written(buf)
    ensures FormOf(buf[1] % 128).Long? <==> buf[1] % 128 == 127
    ensures LengthThere(buf) && buf[1] % 128 == 127 ==> (Written(buf) >= LEN63 <==> buf[2] >= 128)
  {
    ReservedRead(buf[0]);
    if LengthThere(buf) {
      WrittenRead(buf);
      if buf[1] % 128 == 127 {
        HighBit(buf);
      }
    }
  }

  /** A reserved bit is reported exactly when one is set. */
  lemma ReservedBitsExact(buf: seq<byte>, lim: Limits)
    ensures Decode(buf, lim) == Fail(Protocol(ReservedBits)) <==> |buf| >= 2 && Reserved(buf[0])
  {
    if |buf| >= 2 {
      BranchesRead(buf);
    }
  }

  lemma ReservedOpcodeExact(buf: seq<byte>, lim: Limits)
    ensures Decode(buf, lim) == Fail(Protocol(ReservedOpcode)) <==> |buf| >= 2 && !Reserved(buf[0]) && !Starts(buf)
  {
    if |buf| >= 2 {
      BranchesRead(buf);
    }
  }

  lemma LengthHighBitExact(buf: seq<byte>, lim: Limits)
    ensures Decode(buf, lim) == Fail(Protocol(LengthHighBit)) <==> Starts(buf) && HighLength(buf)
  {
    if |buf| >= 2 {
      BranchesRead(buf);
    }
  }

  lemma FragmentedControlExact(buf: seq<byte>, lim: Limits)
    ensures Decode(buf, lim) == Fail(Protocol(FragmentedControl)) <==> Sized(buf, lim) && Control(buf) && buf[0] < 128
  {
    if |buf| >= 2 {
      BranchesRead(buf);
    }
  }

  lemma LongControlExact(buf: seq<byte>, lim: Limits)
    ensures Decode(buf, lim) == Fail(Protocol(LongControl)) <==>
            Sized(buf, lim) && Control(buf) && buf[0] >= 128 && Written(buf) > 125
  {
    if |buf| >= 2 {
      BranchesRead(buf);
    }
  }

  lemma UnmaskedExact(buf: seq<byte>, lim: Limits)
    ensures Decode(buf, lim) == Fail(Protocol(Unmasked)) <==> Permitted(buf, lim) && buf[1] < 128
  {
    if |buf| >= 2 {
      BranchesRead(buf);
    }
  }

  lemma TooLargeExact(buf: seq<byte>, lim: Limits)
    ensures Decode(buf, lim) == Fail(TooLarge) <==>
            || (Starts(buf) && LengthThere(buf) && !HighLength(buf) && buf[1] % 128 == 127 && Written(buf) > lim.usizeMax)
            || (Permitted(buf, lim) && buf[1] >= 128 && !InBudget(buf, lim))
  {
    if |buf| >= 2 {
      BranchesRead(buf);
      if LengthThere(buf) {
        WrittenRead(buf);
      }
    }
  }

  lemma IncompleteExact(buf: seq<byte>, lim: Limits)
    ensures Decode(buf, lim) == Fail(Incomplete) <==>
            || |buf| < 2
            || (Starts(buf) && !LengthThere(buf))
            || (Permitted(buf, lim) && buf[1] >= 128 && InBudget(buf, lim) && |buf| < HeaderLength(buf) + Written(buf))
  {
    if |buf| >= 2 {
      BranchesRead(buf);
      if LengthThere(buf) {
        WrittenRead(buf);
      }
    }
  }

  /** And a frame is returned exactly when none of these applies, with the header's own fields. */
  lemma DoneExact(buf: seq<byte>, lim: Limits)
    ensures Decode(buf, lim).Done? <==>
            Permitted(buf, lim) && buf[1] >= 128 && InBudget(buf, lim) && |buf| >= HeaderLength(buf) + Written(buf)
    ensures Decode(buf, lim).Done? ==>
              var head, n, f := HeaderLength(buf), Written(buf), Decode(buf, lim).frame;
              && Decode(buf, lim).used == head + n && |f.payload| == n
              && f.fin == (buf[0] >= 128) && OpValue(f.opcode) == buf[0] % 16
              && forall i :: 0 <= i < n ==> f.payload[i] == XorByte(buf[head + i], buf[head - 4 + i % 4])
  {
    if |buf| >= 2 {
      BranchesRead(buf);
      if LengthThere(buf) {
        WrittenRead(buf);
      }
    }
  }

  /** The opcode numbers of section 5.2 of RFC 6455. */
  lemma OpNumbers()
    ensures OpValue(Continuation) == 0 && OpValue(Text) == 1 && OpValue(Binary) == 2
    ensures OpValue(Close) == 8 && OpValue(Ping) == 9 && OpValue(Pong) == 10
  {
  }
}
