/** The codec over a connection's byte buffer: parsing consumes from the front, encoding appends. */
module FrameBuffer {
  import opened FrameMask
  import opened FrameCodec
  import opened FrameStream

  class ByteBuffer {
    var bytes: seq<byte>

    constructor ()
      ensures bytes == []
    {
      bytes := [];
    }

    /** Consumes exactly the frame it returns; on any error the buffer is untouched. */
    method Parse(lim: Limits) returns (out: Outcome)
      modifies this
      ensures out == Decode(old(bytes), lim)
      ensures bytes == if out.Done? then old(bytes)[out.used..] else old(bytes)
    {
      var available := |bytes|;
      if available < 2 {
        return Fail(Incomplete);
      }
      var b0, b1 := bytes[0], bytes[1];
      var fin := b0 >= 128;
      if (b0 / 16) % 8 != 0 {
        return Fail(Protocol(ReservedBits));
      }
      if !OpKnown(b0 % 16) {
        return Fail(Protocol(ReservedOpcode));
      }
      var opcode, masked := OpFrom(b0 % 16), b1 >= 128;
      var form := FormOf(b1 % 128);
      var lenField := FormBytes(form);
      if available < 2 + lenField {
        return Fail(Incomplete);
      }
      var payloadLen := if form.Short? then b1 % 128 else FromBe(bytes[2..2 + lenField]);
      if form.Long? && payloadLen >= LEN63 {
        return Fail(Protocol(LengthHighBit));
      }
      if form.Long? && payloadLen > lim.usizeMax {
        return Fail(TooLarge);
      }
      if IsControl(opcode) {
        if !fin {
          return Fail(Protocol(FragmentedControl));
        }
        if payloadLen > 125 {
          return Fail(Protocol(LongControl));
        }
      }
      if !masked {
        return Fail(Protocol(Unmasked));
      }
      if payloadLen > lim.maxPayload {
        return Fail(TooLarge);
      }
      var head := 2 + lenField + 4;
      var total := head + payloadLen;
      if total > lim.usizeMax {
        return Fail(TooLarge);
      }
      if available < total {
        return Fail(Incomplete);
      }
      var key: Key := bytes[head - 4..head];
      var raw := bytes[head..total];
      bytes := bytes[total..];
      var payload := UnmaskCopy(raw, key);
      out := Done(Frame(fin, opcode, payload), total);
    }

    /** Appends one server frame in its shortest form. */
    method Encode(f: Frame)
      requires |f.payload| < LEN64
      modifies this
      ensures bytes == old(bytes) + ServerFrame(f)
    {
      var n := |f.payload|;
      bytes := bytes + [FirstByte(f)];
      if n <= 125 {
        bytes := bytes + [n];
      } else if n < 65536 {
        bytes := bytes + [126] + ToBe(n, 2);
      } else {
        bytes := bytes + [127] + ToBe(n, 8);
      }
      bytes := bytes + f.payload;
      assert bytes == old(bytes) + ServerFrame(f);
    }

    /** Parse until the buffer holds no complete frame: the connection's read loop. */
    method ParseAvailable(lim: Limits) returns (frames: seq<Frame>, status: Status)
      modifies this
      ensures Stream(frames, status) == ParseAll(old(bytes), lim)
      ensures status.Reading? ==> bytes == status.buffered
      ensures status.Failed? ==> Decode(bytes, lim) == Fail(status.error)
    {
      frames := [];
      ghost var whole := ParseAll(bytes, lim);
      while true
        invariant whole == Stream(frames + ParseAll(bytes, lim).frames, ParseAll(bytes, lim).status)
        decreases |bytes|
      {
        ghost var before := bytes;
        var out := Parse(lim);
        match out {
          case Fail(Incomplete) =>
            assert frames + [] == frames;
            return frames, Reading(bytes);
          case Fail(e) =>
            assert frames + [] == frames;
            return frames, Failed(e);
          case Done(f, used) =>
            DecodeStable(before, [], lim);
            assert frames + ([f] + ParseAll(bytes, lim).frames) == frames + [f] + ParseAll(bytes, lim).frames;
            frames := frames + [f];
        }
      }
    }
  }

  method UnmaskCopy(raw: seq<byte>, key: Key) returns (payload: seq<byte>)
    ensures payload == Masked(raw, key)
  {
    var data := new byte[|raw|](i requires 0 <= i < |raw| => raw[i]);
    assert data[..] == raw;
    Unmask(data, key);
    payload := data[..];
  }
}
